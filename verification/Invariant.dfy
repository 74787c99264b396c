/** What every interleaving keeps: rows, pairs, revocation list and calls in flight fit together. */
module Invariant {
  import opened Domain
  import opened Store
  import opened Machine
  import Atomic

  ghost predicate Inv(cfg: Config, s: Sys) {
    && s.st.next > NIL
    && (forall n :: PairFine(cfg, s.st.issued, s.st.next, s.clock, n))
    && (forall n :: RowFine(cfg, s.st.tokens, s.st.issued, n))
    && (forall j :: ListFine(s.st.listed, s.st.issued, j))
    && (forall n :: n in s.calls ==> CallFine(s.st.issued, s.st.next, s.clock, n, s.calls[n]))
  }

  /** A pair is older than now, belongs to the session that its first ancestor opened, and its parent is an
      older pair of the same user and session whose call read the clock no later. */
  ghost predicate PairFine(cfg: Config, issued: map<Id, Pair>, next: Id, clock: Time, n: Id) {
    n in issued ==>
      && NIL < issued[n].claims.session <= n < next
      && issued[n].at <= clock
      && issued[n].claims.session in issued
      && issued[n].claims.expiresAt == NumericDate(issued[n].at + cfg.accessTTL)
      && (match issued[n].parent
          case None => issued[n].claims.session == n
          case Some(p) => p < n && Precedes(issued, p, issued[n].claims.user, issued[n].claims.session, issued[n].at))
  }

  ghost predicate Precedes(issued: map<Id, Pair>, p: Id, user: Id, session: Id, now: Time) {
    && p in issued && issued[p].at <= now
    && issued[p].claims.user == user && issued[p].claims.session == session
  }

  /** A row belongs to a pair; its two rotation columns are set together, to a stored pair made from it. */
  ghost predicate RowFine(cfg: Config, tokens: Tokens, issued: map<Id, Pair>, n: Id) {
    n in tokens ==>
      && n in issued
      && tokens[n].user == issued[n].claims.user
      && tokens[n].session == issued[n].claims.session
      && tokens[n].expiresAt == issued[n].at + cfg.refreshTTL
      && (tokens[n].IsUsed() <==> tokens[n].replacedBy.Some?)
      && (tokens[n].replacedBy.Some? ==> HeirFine(tokens, issued, n, tokens[n].replacedBy.value))
  }

  ghost predicate HeirFine(tokens: Tokens, issued: map<Id, Pair>, n: Id, heir: Id) {
    heir in tokens && heir in issued && issued[heir].parent == Some(n)
  }

  /** An entry outlives the token it names. */
  ghost predicate ListFine(listed: map<Id, Time>, issued: map<Id, Pair>, j: Id) {
    j in listed ==> j in issued && issued[j].claims.expiresAt <= listed[j]
  }

  ghost predicate CallFine(issued: map<Id, Pair>, next: Id, clock: Time, n: Id, call: Call) {
    && NIL < n < next
    && (call.RefreshCreated? <==> n in issued)
    && (match call
        case LoginBegun(now, _, _) => now <= clock
        case LoginWrong(now, _, _) => now <= clock
        case LoginRight(now, _, _) => now <= clock
        case LoginCleared(now, _, _) => now <= clock
        case RefreshBegun(now, presented) =>
          now <= clock && (presented.Some? ==>
            presented.value < n && presented.value in issued && issued[presented.value].at <= now)
        case RefreshReused(now, raw, row) => ReadFine(issued, clock, n, now, raw, row)
        case RefreshFresh(now, raw, row) => ReadFine(issued, clock, n, now, raw, row)
        case RefreshBarred(now, raw, row) => ReadFine(issued, clock, n, now, raw, row)
        case RefreshAllowed(now, raw, row, _) => ReadFine(issued, clock, n, now, raw, row)
        case RefreshCreated(now, raw, row) =>
          ReadFine(issued, clock, n, now, raw, row) && issued[n].parent == Some(raw)
        case LogoutBegun(now, _, jti) => now <= clock && (jti.Some? ==> jti.value in issued)
        case LogoutClosing(now, session, jti) => now <= clock && session in issued && (jti.Some? ==> jti.value in issued)
        case LogoutListing(now, token, ttl) =>
          now <= clock && token in issued && ttl > 0 && issued[token].claims.expiresAt == now + ttl
        case LogoutAllBegun(now, _) => now <= clock
        case RevokeBegun(_) => true
        case RevokeSuspending(now, _) => now <= clock
        case RevokeClosing(now, _) => now <= clock
        case RoleBegun(_, _) => true
        case RoleSetting(_, _) => true)
  }

  ghost predicate ReadFine(issued: map<Id, Pair>, clock: Time, n: Id, now: Time, raw: Id, row: RefreshToken) {
    now <= clock && raw < n && Precedes(issued, raw, row.user, row.session, now)
  }

  /** `tokens'` is `tokens` but for revocation columns. */
  ghost predicate OnlyRevoked(tokens: Tokens, tokens': Tokens) {
    && tokens'.Keys == tokens.Keys
    && forall i :: i in tokens ==> tokens'[i] == tokens[i].(revoked := tokens'[i].revoked)
  }

  lemma Inits(cfg: Config, s: Sys)
    requires Initial(s)
    ensures Inv(cfg, s)
  {
  }

  /** The rest of the state and the calls other than n are left alone. */
  lemma KeptByFrame(cfg: Config, s: Sys, s': Sys, n: Id)
    requires Inv(cfg, s)
    requires s'.st.issued == s.st.issued && s'.st.listed == s.st.listed
    requires s'.st.next >= s.st.next && s'.clock >= s.clock
    requires OnlyRevoked(s.st.tokens, s'.st.tokens)
    requires forall m :: m in s'.calls && m != n ==> m in s.calls && s'.calls[m] == s.calls[m]
    requires n in s'.calls ==> CallFine(s'.st.issued, s'.st.next, s'.clock, n, s'.calls[n])
    ensures Inv(cfg, s')
  {
    forall i
      ensures PairFine(cfg, s'.st.issued, s'.st.next, s'.clock, i)
    {
      assert PairFine(cfg, s.st.issued, s.st.next, s.clock, i);
    }
    forall i
      ensures RowFine(cfg, s'.st.tokens, s'.st.issued, i)
    {
      assert RowFine(cfg, s.st.tokens, s.st.issued, i);
    }
    forall j
      ensures ListFine(s'.st.listed, s'.st.issued, j)
    {
      assert ListFine(s.st.listed, s.st.issued, j);
    }
    forall m | m in s'.calls
      ensures CallFine(s'.st.issued, s'.st.next, s'.clock, m, s'.calls[m])
    {
      if m != n {
        assert CallFine(s.st.issued, s.st.next, s.clock, m, s.calls[m]);
      }
    }
  }

  lemma LogoutGoesOn(st: State, next: Id, clock: Time, n: Id, now: Time, session: Id, jti: Option<Id>)
    requires NIL < n < next && n !in st.issued && now <= clock
    requires session != NIL ==> session in st.issued
    requires jti.Some? ==> jti.value in st.issued
    ensures var p := AfterLogoutRead(st, now, session, jti);
            p.Goes? ==> CallFine(st.issued, next, clock, n, p.call)
  {
  }

  lemma StartFine(s: Sys, req: Request)
    requires forall n :: n in s.st.issued ==> n < s.st.next && s.st.issued[n].at <= s.clock
    requires forall n :: n in s.st.issued ==> s.st.issued[n].claims.session in s.st.issued
    requires s.st.next > NIL
    ensures var p := Start(s.st, req, s.clock);
            p.Goes? ==> CallFine(s.st.issued, s.st.next + 1, s.clock, s.st.next, p.call)
  {
    match req {
      case Login(email, check) =>
      case Refresh(raw) =>
      case Logout(cookie, jti) =>
        var claims := Atomic.ClaimsOf(s.st, jti);
        var given := if claims.Some? then jti else None;
        LogoutGoesOn(s.st, s.st.next + 1, s.clock, s.st.next, s.clock, Atomic.LogoutSession(map[], None, claims), given);
      case LogoutAll(user) =>
      case Revoke(member) =>
      case UpdateRole(member, role) =>
    }
  }

  lemma KeptByBegin(cfg: Config, s: Sys, req: Request)
    requires Inv(cfg, s)
    ensures Inv(cfg, Next(cfg, s, Begin(req)))
  {
    forall n | n in s.st.issued
      ensures n < s.st.next && s.st.issued[n].at <= s.clock
      ensures s.st.issued[n].claims.session in s.st.issued
    {
      assert PairFine(cfg, s.st.issued, s.st.next, s.clock, n);
    }
    StartFine(s, req);
    KeptByFrame(cfg, s, Next(cfg, s, Begin(req)), s.st.next);
  }

  lemma KeptByIssue(cfg: Config, s: Sys, n: Id, user: Id, role: Role, session: Id, parent: Option<Id>, now: Time, s': Sys)
    requires Inv(cfg, s) && n in s.calls && !s.calls[n].RefreshCreated? && now <= s.clock
    requires parent.None? ==> session == n
    requires parent.Some? ==> parent.value < n && Precedes(s.st.issued, parent.value, user, session, now)
    requires s'.st == Issue(cfg, s.st, n, user, role, session, parent, now) && s'.clock == s.clock
    requires forall m :: m in s'.calls && m != n ==> m in s.calls && s'.calls[m] == s.calls[m]
    requires n in s'.calls ==> CallFine(s'.st.issued, s'.st.next, s'.clock, n, s'.calls[n])
    ensures Inv(cfg, s')
  {
    assert CallFine(s.st.issued, s.st.next, s.clock, n, s.calls[n]);
    assert RowFine(cfg, s.st.tokens, s.st.issued, n);
    assert parent.Some? ==> PairFine(cfg, s.st.issued, s.st.next, s.clock, parent.value);
    forall i
      ensures PairFine(cfg, s'.st.issued, s'.st.next, s'.clock, i)
    {
      assert PairFine(cfg, s.st.issued, s.st.next, s.clock, i);
    }
    forall i
      ensures RowFine(cfg, s'.st.tokens, s'.st.issued, i)
    {
      assert RowFine(cfg, s.st.tokens, s.st.issued, i);
    }
    forall j
      ensures ListFine(s'.st.listed, s'.st.issued, j)
    {
      assert ListFine(s.st.listed, s.st.issued, j);
    }
    forall m | m in s'.calls
      ensures CallFine(s'.st.issued, s'.st.next, s'.clock, m, s'.calls[m])
    {
      if m != n {
        assert CallFine(s.st.issued, s.st.next, s.clock, m, s.calls[m]);
      }
    }
  }

  lemma KeptByMark(cfg: Config, s: Sys, n: Id)
    requires Inv(cfg, s) && n in s.calls && s.calls[n].RefreshCreated?
    ensures Inv(cfg, Next(cfg, s, Advance(n)))
  {
    var s' := Next(cfg, s, Advance(n));
    assert CallFine(s.st.issued, s.st.next, s.clock, n, s.calls[n]);
    forall i
      ensures RowFine(cfg, s'.st.tokens, s'.st.issued, i)
    {
      assert RowFine(cfg, s.st.tokens, s.st.issued, i);
    }
    forall i
      ensures PairFine(cfg, s'.st.issued, s'.st.next, s'.clock, i)
    {
      assert PairFine(cfg, s.st.issued, s.st.next, s.clock, i);
    }
    forall j
      ensures ListFine(s'.st.listed, s'.st.issued, j)
    {
      assert ListFine(s.st.listed, s.st.issued, j);
    }
  }

  lemma KeptByListing(cfg: Config, s: Sys, n: Id)
    requires Inv(cfg, s) && n in s.calls && s.calls[n].LogoutListing?
    ensures Inv(cfg, Next(cfg, s, Advance(n)))
  {
    var s' := Next(cfg, s, Advance(n));
    assert CallFine(s.st.issued, s.st.next, s.clock, n, s.calls[n]);
    forall j
      ensures ListFine(s'.st.listed, s'.st.issued, j)
    {
      assert ListFine(s.st.listed, s.st.issued, j);
    }
    forall i
      ensures PairFine(cfg, s'.st.issued, s'.st.next, s'.clock, i)
      ensures RowFine(cfg, s'.st.tokens, s'.st.issued, i)
    {
      assert PairFine(cfg, s.st.issued, s.st.next, s.clock, i);
      assert RowFine(cfg, s.st.tokens, s.st.issued, i);
    }
  }

  /** Deleting expired rows never breaks a successor link: a successor expires no earlier. */
  lemma KeptByPurge(cfg: Config, s: Sys, before: Time)
    requires Inv(cfg, s)
    ensures Inv(cfg, Next(cfg, s, Purge(before)))
    ensures var tokens' := DeleteExpired(s.st.tokens, before);
            forall i :: i in tokens' ==> i in s.st.tokens && tokens'[i] == s.st.tokens[i]
  {
    var s' := Next(cfg, s, Purge(before));
    forall i
      ensures i in s'.st.tokens ==> s'.st.tokens[i] == s.st.tokens[i]
      ensures RowFine(cfg, s'.st.tokens, s'.st.issued, i)
    {
      assert RowFine(cfg, s.st.tokens, s.st.issued, i);
      if i in s.st.tokens && s.st.tokens[i].replacedBy.Some? {
        var heir := s.st.tokens[i].replacedBy.value;
        assert RowFine(cfg, s.st.tokens, s.st.issued, heir);
        assert PairFine(cfg, s.st.issued, s.st.next, s.clock, heir);
      }
    }
    forall i
      ensures PairFine(cfg, s'.st.issued, s'.st.next, s'.clock, i)
      ensures ListFine(s'.st.listed, s'.st.issued, i)
    {
      assert PairFine(cfg, s.st.issued, s.st.next, s.clock, i);
      assert ListFine(s.st.listed, s.st.issued, i);
    }
  }

  /** A statement that neither issues, marks nor lists changes at most users and revocation columns. */
  lemma QuietStatement(cfg: Config, s: Sys, n: Id)
    requires Inv(cfg, s) && n in s.calls && IsQuiet(s.calls[n])
    ensures var s' := Next(cfg, s, Advance(n));
            && s'.st == s.st.(users := s'.st.users, tokens := s'.st.tokens)
            && OnlyRevoked(s.st.tokens, s'.st.tokens)
            && (n in s'.calls ==> CallFine(s'.st.issued, s'.st.next, s'.clock, n, s'.calls[n]))
  {
    QuietStore(cfg, s, n);
    QuietCall(cfg, s, n);
  }

  predicate IsQuiet(call: Call) {
    !call.LoginCleared? && !call.RefreshAllowed? && !call.RefreshCreated? && !call.LogoutListing?
  }

  lemma QuietRefreshStore(cfg: Config, s: Sys, n: Id)
    requires n in s.calls && IsQuiet(s.calls[n]) && IsRefresh(s.calls[n])
    ensures var s' := Next(cfg, s, Advance(n));
            && s'.st == s.st.(users := s'.st.users, tokens := s'.st.tokens)
            && OnlyRevoked(s.st.tokens, s'.st.tokens)
  {
  }

  lemma QuietStore(cfg: Config, s: Sys, n: Id)
    requires n in s.calls && IsQuiet(s.calls[n])
    ensures var s' := Next(cfg, s, Advance(n));
            && s'.st == s.st.(users := s'.st.users, tokens := s'.st.tokens)
            && OnlyRevoked(s.st.tokens, s'.st.tokens)
  {
    var call := s.calls[n];
    if IsRefresh(call) {
      QuietRefreshStore(cfg, s, n);
    } else if IsLogout(call) {
    } else if IsTeam(call) {
    } else {
    }
  }

  lemma QuietCall(cfg: Config, s: Sys, n: Id)
    requires Inv(cfg, s) && n in s.calls && IsQuiet(s.calls[n])
    ensures var s' := Next(cfg, s, Advance(n));
            n in s'.calls ==> CallFine(s.st.issued, s.st.next, s.clock, n, s'.calls[n])
  {
    var call := s.calls[n];
    assert CallFine(s.st.issued, s.st.next, s.clock, n, call);
    if call.RefreshBegun? && call.presented.Some? {
      assert RowFine(cfg, s.st.tokens, s.st.issued, call.presented.value);
    }
    if call.LogoutBegun? {
      assert call.cookie.Some? ==> RowFine(cfg, s.st.tokens, s.st.issued, call.cookie.value)
                                   && PairFine(cfg, s.st.issued, s.st.next, s.clock, call.cookie.value);
      assert call.jti.Some? ==> PairFine(cfg, s.st.issued, s.st.next, s.clock, call.jti.value);
    }
    if IsRefresh(call) {
    } else if IsLogout(call) {
    } else if IsTeam(call) {
    } else {
    }
  }

  lemma KeptByAdvance(cfg: Config, s: Sys, n: Id)
    requires Inv(cfg, s)
    ensures Inv(cfg, Next(cfg, s, Advance(n)))
  {
    var s' := Next(cfg, s, Advance(n));
    if n in s.calls {
      var call := s.calls[n];
      assert CallFine(s.st.issued, s.st.next, s.clock, n, call);
      if call.LoginCleared? {
        KeptByIssue(cfg, s, n, call.id, call.user.role, n, None, call.now, s');
      } else if call.RefreshAllowed? {
        KeptByIssue(cfg, s, n, call.row.user, call.user.role, call.row.session, Some(call.raw), call.now, s');
      } else if call.RefreshCreated? {
        KeptByMark(cfg, s, n);
      } else if call.LogoutListing? {
        KeptByListing(cfg, s, n);
      } else {
        QuietStatement(cfg, s, n);
        KeptByFrame(cfg, s, s', n);
      }
    }
  }

  lemma Kept(cfg: Config, s: Sys, a: Action)
    requires Inv(cfg, s)
    ensures Inv(cfg, Next(cfg, s, a))
  {
    match a {
      case Tick(_) => KeptByFrame(cfg, s, Next(cfg, s, a), NIL);
      case Begin(req) => KeptByBegin(cfg, s, req);
      case Advance(n) => KeptByAdvance(cfg, s, n);
      case Abort(n) => KeptByFrame(cfg, s, Next(cfg, s, a), n);
      case Purge(before) => KeptByPurge(cfg, s, before);
    }
  }

  lemma {:induction false} KeptAlong(cfg: Config, s: Sys, acts: seq<Action>)
    requires Inv(cfg, s)
    ensures Inv(cfg, Run(cfg, s, acts))
    decreases |acts|
  {
    if acts != [] {
      Kept(cfg, s, acts[0]);
      KeptAlong(cfg, Next(cfg, s, acts[0]), acts[1..]);
    }
  }
}
