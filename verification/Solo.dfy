/** A call that nobody interrupts does in the statement machine exactly what the whole call does. */
module Solo {
  import opened Domain
  import opened Store
  import opened Machine
  import Atomic

  /** Begin a request, then drive it to its end: no call has more than five statements. */
  function Alone(n: Id, req: Request): seq<Action> {
    [Begin(req), Advance(n), Advance(n), Advance(n), Advance(n), Advance(n)]
  }

  function After(cfg: Config, s: Sys, n: Id, k: nat): Sys
    decreases k
  {
    if k == 0 then s else After(cfg, Next(cfg, s, Advance(n)), n, k - 1)
  }

  lemma {:induction false} RunAlone(cfg: Config, s: Sys, n: Id, req: Request)
    ensures Run(cfg, s, Alone(n, req)) == After(cfg, Next(cfg, s, Begin(req)), n, 5)
  {
    var acts := Alone(n, req);
    assert acts[1..] == [Advance(n), Advance(n), Advance(n), Advance(n), Advance(n)];
    RunAdvances(cfg, Next(cfg, s, Begin(req)), n, acts[1..]);
  }

  lemma {:induction false} RunAdvances(cfg: Config, s: Sys, n: Id, acts: seq<Action>)
    requires forall i :: 0 <= i < |acts| ==> acts[i] == Advance(n)
    ensures Run(cfg, s, acts) == After(cfg, s, n, |acts|)
    decreases |acts|
  {
    if acts != [] {
      RunAdvances(cfg, Next(cfg, s, acts[0]), n, acts[1..]);
    }
  }

  /** One statement further, with the rest of the calls untouched. */
  lemma {:induction false} Forward(cfg: Config, s: Sys, n: Id, k: nat, rest: map<Id, Call>, o: Outcome)
    requires n !in rest && n in s.calls && s.calls == rest[n := s.calls[n]]
    requires o == Exec(cfg, s.st, s.clock, n, s.calls[n])
    ensures o.progress.Goes? ==>
              After(cfg, s, n, k + 1) == After(cfg, Sys(o.state, rest[n := o.progress.call], s.clock), n, k)
    ensures o.progress.Ends? ==> After(cfg, s, n, k + 1) == Sys(o.state, rest, s.clock)
  {
    var t := Next(cfg, s, Advance(n));
    if o.progress.Goes? {
      assert t.calls == rest[n := o.progress.call];
    } else {
      assert t.calls == rest;
      Idle(cfg, t, n, k);
    }
  }

  lemma {:induction false} Idle(cfg: Config, s: Sys, n: Id, k: nat)
    requires n !in s.calls
    ensures After(cfg, s, n, k) == s
  {
    if k > 0 {
      Idle(cfg, s, n, k - 1);
    }
  }

  /** Drives call n, k statements at most, and says where it stands. */
  function Finish(cfg: Config, st: State, clock: Time, n: Id, p: Progress, k: nat): Outcome
    decreases k
  {
    if p.Ends? || k == 0 then Outcome(st, p)
    else
      var o := Exec(cfg, st, clock, n, p.call);
      Finish(cfg, o.state, clock, n, o.progress, k - 1)
  }

  lemma {:induction false} AfterFinish(cfg: Config, s: Sys, n: Id, k: nat, rest: map<Id, Call>, p: Progress)
    requires n !in rest && s.calls == Proceed(rest, n, p)
    requires Finish(cfg, s.st, s.clock, n, p, k).progress.Ends?
    ensures After(cfg, s, n, k) == Sys(Finish(cfg, s.st, s.clock, n, p, k).state, rest, s.clock)
    decreases k
  {
    if p.Ends? {
      assert s.calls == rest;
      Idle(cfg, s, n, k);
    } else if k > 0 {
      var o := Exec(cfg, s.st, s.clock, n, p.call);
      Forward(cfg, s, n, k - 1, rest, o);
      if o.progress.Goes? {
        AfterFinish(cfg, Sys(o.state, rest[n := o.progress.call], s.clock), n, k - 1, rest, o.progress);
      } else {
        assert Finish(cfg, s.st, s.clock, n, p, k) == Outcome(o.state, o.progress);
      }
    }
  }

  /** Two statements of Finish at a time keep the unrolling short. */
  lemma FinishTwo(cfg: Config, st: State, clock: Time, n: Id, p: Progress, k: nat)
    requires p.Goes? && k >= 2
    ensures var o := Exec(cfg, st, clock, n, p.call);
            Finish(cfg, st, clock, n, p, k) ==
            if o.progress.Ends? then o
            else var o2 := Exec(cfg, o.state, clock, n, o.progress.call);
                 Finish(cfg, o2.state, clock, n, o2.progress, k - 2)
  {
  }

  lemma {:induction false} LoginSolo(cfg: Config, st: State, email: string, check: PasswordCheck, now: Time)
    ensures Finish(cfg, Atomic.Begin(st), now, st.next, Start(st, Login(email, check), now), 5)
            == Outcome(Atomic.LoginCall(cfg, st, email, check, now).state, Ends(Atomic.LoginCall(cfg, st, email, check, now).reply))
  {
    var s := Atomic.Begin(st);
    var p := Start(st, Login(email, check), now);
    FinishTwo(cfg, s, now, st.next, p, 5);
    var o := Exec(cfg, s, now, st.next, p.call);
    if o.progress.Goes? && o.progress.call.LoginRight? {
      var o2 := Exec(cfg, o.state, now, st.next, o.progress.call);
      FinishTwo(cfg, o2.state, now, st.next, o2.progress, 3);
    }
  }

  lemma {:induction false} RefreshSolo(cfg: Config, st: State, raw: Id, now: Time)
    requires st.tokens.Keys <= st.issued.Keys
    ensures Finish(cfg, Atomic.Begin(st), now, st.next, Start(st, Refresh(raw), now), 5)
            == Outcome(Atomic.RefreshCall(cfg, st, raw, now).state, Ends(Atomic.RefreshCall(cfg, st, raw, now).reply))
  {
    var n, s := st.next, Atomic.Begin(st);
    var p := Start(st, Refresh(raw), now);
    FinishTwo(cfg, s, now, n, p, 5);
    var o := Exec(cfg, s, now, n, p.call);
    if o.progress.Goes? {
      var o2 := Exec(cfg, o.state, now, n, o.progress.call);
      if o2.progress.Goes? {
        FinishTwo(cfg, o2.state, now, n, o2.progress, 3);
      }
    }
  }

  lemma {:induction false} LogoutSolo(cfg: Config, st: State, cookie: Option<Id>, jti: Option<Id>, now: Time)
    requires st.tokens.Keys <= st.issued.Keys
    ensures Finish(cfg, Atomic.Begin(st), now, st.next, Start(st, Logout(cookie, jti), now), 5)
            == Outcome(Atomic.LogoutCall(cfg, st, cookie, jti, now).state, Ends(Done))
  {
    var n, s := st.next, Atomic.Begin(st);
    var p := Start(st, Logout(cookie, jti), now);
    if p.Goes? {
      FinishTwo(cfg, s, now, n, p, 5);
      var o := Exec(cfg, s, now, n, p.call);
      if o.progress.Goes? {
        var o2 := Exec(cfg, o.state, now, n, o.progress.call);
        if o2.progress.Goes? {
          FinishTwo(cfg, o2.state, now, n, o2.progress, 3);
        }
      }
    }
  }

  lemma {:induction false} TeamSolo(cfg: Config, st: State, req: Request, now: Time)
    requires req.LogoutAll? || req.Revoke? || req.UpdateRole?
    ensures Finish(cfg, Atomic.Begin(st), now, st.next, Start(st, req, now), 5)
            == Outcome(Atomic.Serve(cfg, st, req, now).state, Ends(Atomic.Serve(cfg, st, req, now).reply))
  {
    var n, s := st.next, Atomic.Begin(st);
    var p := Start(st, req, now);
    if p.Goes? {
      FinishTwo(cfg, s, now, n, p, 5);
      var o := Exec(cfg, s, now, n, p.call);
      if o.progress.Goes? {
        var o2 := Exec(cfg, o.state, now, n, o.progress.call);
        if o2.progress.Goes? {
          FinishTwo(cfg, o2.state, now, n, o2.progress, 3);
        }
      }
    }
  }

  /** For every request, state and set of other calls in flight: an uninterrupted call is the whole call. */
  lemma {:induction false} UninterruptedIsAtomic(cfg: Config, s: Sys, req: Request)
    requires s.st.next !in s.calls && s.st.tokens.Keys <= s.st.issued.Keys
    ensures Run(cfg, s, Alone(s.st.next, req)) == Sys(Atomic.Serve(cfg, s.st, req, s.clock).state, s.calls, s.clock)
    ensures Finish(cfg, Atomic.Begin(s.st), s.clock, s.st.next, Start(s.st, req, s.clock), 5).progress
            == Ends(Atomic.Serve(cfg, s.st, req, s.clock).reply)
  {
    match req {
      case Login(email, check) => LoginSolo(cfg, s.st, email, check, s.clock);
      case Refresh(raw) => RefreshSolo(cfg, s.st, raw, s.clock);
      case Logout(cookie, jti) => LogoutSolo(cfg, s.st, cookie, jti, s.clock);
      case _ => TeamSolo(cfg, s.st, req, s.clock);
    }
    var n := s.st.next;
    RunAlone(cfg, s, n, req);
    AfterFinish(cfg, Next(cfg, s, Begin(req)), n, 5, s.calls, Start(s.st, req, s.clock));
  }
}
