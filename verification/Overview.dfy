/** The overview page's counters and list of expiring trials, and the open-ticket count of one client. */
module Overview {
  import opened Domain
  import Sorting

  datatype TenantStatus = ActiveClient | Trial | Paused
  datatype Tenant = Tenant(id: Id, status: TenantStatus, trialEndsAt: Option<Time>)

  datatype TicketStatus = Open | InProgress | Resolved | Closed
  datatype Ticket = Ticket(id: Id, tenant: Id, status: TicketStatus)

  datatype Metrics = Metrics(active: nat, trial: nat, paused: nat, openTickets: nat)
  datatype Data = Data(total: nat, metrics: Metrics, expiring: seq<Tenant>)

  const HORIZON_DAYS := 14
  const TRIALS_SHOWN := 5

  predicate IsOpen(t: Ticket) { t.status == Open || t.status == InProgress }

  predicate Eligible(t: Tenant, now: Time) {
    t.status == Trial && t.trialEndsAt.Some? && t.trialEndsAt.value <= now + HORIZON_DAYS * DAY
  }

  /** The elements of s that satisfy p, in order. */
  function Filter<T>(s: seq<T>, p: T -> bool): seq<T> {
    if s == [] then []
    else
      var before := Filter(s[..|s| - 1], p);
      if p(s[|s| - 1]) then before + [s[|s| - 1]] else before
  }

  lemma FilterOneMore<T>(s: seq<T>, k: nat, p: T -> bool)
    requires k < |s|
    ensures Filter(s[..k + 1], p) == Filter(s[..k], p) + (if p(s[k]) then [s[k]] else [])
  {
    assert s[..k + 1][..k] == s[..k];
  }

  function EndOf(t: Tenant): Time {
    if t.trialEndsAt.Some? then t.trialEndsAt.value else 0
  }

  predicate EndsNoLater(a: Tenant, b: Tenant) { EndOf(a) <= EndOf(b) }

  predicate IsActive(t: Tenant) { t.status == ActiveClient }
  predicate IsTrial(t: Tenant) { t.status == Trial }
  predicate IsPaused(t: Tenant) { t.status == Paused }

  function EligibleAt(now: Time): Tenant -> bool {
    (t: Tenant) => Eligible(t, now)
  }

  /** Counts by status, collects the eligible trials, sorts them by end and keeps the first five. */
  method Get(tenants: seq<Tenant>, tickets: seq<Ticket>, now: Time) returns (data: Data)
    ensures data.total == |tenants|
    ensures data.metrics.active == |Filter(tenants, IsActive)|
    ensures data.metrics.trial == |Filter(tenants, IsTrial)|
    ensures data.metrics.paused == |Filter(tenants, IsPaused)|
    ensures data.metrics.active + data.metrics.trial + data.metrics.paused == data.total
    ensures data.metrics.openTickets == |Filter(tickets, IsOpen)|
    ensures SoonestOf(data.expiring, Filter(tenants, EligibleAt(now)))
  {
    var active, trial, paused, open := 0, 0, 0, 0;
    for k := 0 to |tenants|
      invariant active == |Filter(tenants[..k], IsActive)| && trial == |Filter(tenants[..k], IsTrial)|
      invariant paused == |Filter(tenants[..k], IsPaused)| && active + trial + paused == k
    {
      FilterOneMore(tenants, k, IsActive);
      FilterOneMore(tenants, k, IsTrial);
      FilterOneMore(tenants, k, IsPaused);
      match tenants[k].status {
        case ActiveClient => active := active + 1;
        case Trial => trial := trial + 1;
        case Paused => paused := paused + 1;
      }
    }
    for k := 0 to |tickets|
      invariant open == |Filter(tickets[..k], IsOpen)|
    {
      FilterOneMore(tickets, k, IsOpen);
      if tickets[k].status == Open || tickets[k].status == InProgress {
        open := open + 1;
      }
    }
    var expiring := [];
    for k := 0 to |tenants|
      invariant expiring == Filter(tenants[..k], EligibleAt(now))
    {
      FilterOneMore(tenants, k, EligibleAt(now));
      var tenant := tenants[k];
      if tenant.status == Trial && tenant.trialEndsAt.Some? && tenant.trialEndsAt.value <= now + HORIZON_DAYS * DAY {
        expiring := expiring + [tenants[k]];
      }
    }
    assert tenants[..|tenants|] == tenants && tickets[..|tickets|] == tickets;
    ghost var sorted := SortedByEnd(expiring);
    FirstOfSorted(sorted, expiring);
    expiring := Sorting.Sort(EndsNoLater, expiring);
    if |expiring| > TRIALS_SHOWN {
      expiring := expiring[..TRIALS_SHOWN];
    }
    data := Data(|tenants|, Metrics(active, trial, paused, open), expiring);
  }

  /** `shown` is a sorted choice of five (or all) of `all`, and nothing left out ends earlier than anything shown. */
  ghost predicate SoonestOf(shown: seq<Tenant>, all: seq<Tenant>) {
    && Sorting.SortedBy(EndsNoLater, shown)
    && |shown| == (if |all| < TRIALS_SHOWN then |all| else TRIALS_SHOWN)
    && exists hidden :: LeavesOut(shown, hidden, all)
  }

  ghost predicate LeavesOut(shown: seq<Tenant>, hidden: seq<Tenant>, all: seq<Tenant>) {
    && multiset(all) == multiset(shown) + multiset(hidden)
    && forall i, j :: 0 <= i < |shown| && 0 <= j < |hidden| ==> EndOf(shown[i]) <= EndOf(hidden[j])
  }

  lemma EndsIsPreorder()
    ensures Sorting.TotalPreorder(EndsNoLater)
  {
  }

  lemma CutSorted(sorted: seq<Tenant>, all: seq<Tenant>, k: nat)
    requires Sorting.SortedBy(EndsNoLater, sorted) && multiset(sorted) == multiset(all) && k <= |sorted|
    ensures LeavesOut(sorted[..k], sorted[k..], all)
  {
    var shown, hidden := sorted[..k], sorted[k..];
    assert sorted == shown + hidden;
    forall i, j | 0 <= i < |shown| && 0 <= j < |hidden|
      ensures EndOf(shown[i]) <= EndOf(hidden[j])
    {
      assert EndsNoLater(sorted[i], sorted[k + j]);
    }
  }

  lemma SortedByEnd(all: seq<Tenant>) returns (sorted: seq<Tenant>)
    ensures sorted == Sorting.Sort(EndsNoLater, all)
    ensures Sorting.SortedBy(EndsNoLater, sorted) && multiset(sorted) == multiset(all) && |sorted| == |all|
  {
    sorted := Sorting.Sort(EndsNoLater, all);
    EndsIsPreorder();
    Sorting.SortSorted(EndsNoLater, all);
    assert |sorted| == |multiset(sorted)| == |multiset(all)| == |all|;
  }

  lemma FirstOfSorted(sorted: seq<Tenant>, all: seq<Tenant>)
    requires Sorting.SortedBy(EndsNoLater, sorted) && multiset(sorted) == multiset(all) && |sorted| == |all|
    ensures SoonestOf(if |sorted| > TRIALS_SHOWN then sorted[..TRIALS_SHOWN] else sorted, all)
  {
    if |sorted| > TRIALS_SHOWN {
      CutSorted(sorted, all, TRIALS_SHOWN);
    } else {
      CutSorted(sorted, all, |sorted|);
      assert sorted[..|sorted|] == sorted;
    }
  }

  // ----- one client's open tickets -----

  /** The count shown on a client's own page. */
  method OpenTicketsOf(tickets: seq<Ticket>, tenant: Id) returns (n: nat)
    ensures n == |Filter(tickets, OpenFor(tenant))|
  {
    n := 0;
    for k := 0 to |tickets|
      invariant n == |Filter(tickets[..k], OpenFor(tenant))|
    {
      FilterOneMore(tickets, k, OpenFor(tenant));
      if tickets[k].tenant == tenant {
        if tickets[k].status == Open || tickets[k].status == InProgress {
          n := n + 1;
        }
      }
    }
    assert tickets[..|tickets|] == tickets;
  }

  function OpenFor(tenant: Id): Ticket -> bool {
    (t: Ticket) => t.tenant == tenant && IsOpen(t)
  }

  function SumOpen(tenants: seq<Tenant>, tickets: seq<Ticket>): nat {
    if tenants == [] then 0
    else SumOpen(tenants[..|tenants| - 1], tickets) + |Filter(tickets, OpenFor(tenants[|tenants| - 1].id))|
  }

  ghost predicate DistinctIds(tenants: seq<Tenant>) {
    forall i, j :: 0 <= i < j < |tenants| ==> tenants[i].id != tenants[j].id
  }

  predicate HasId(tenants: seq<Tenant>, id: Id) {
    exists i :: 0 <= i < |tenants| && tenants[i].id == id
  }

  /** One more ticket adds one to exactly the client it belongs to. */
  lemma {:induction false} SumOneMore(tenants: seq<Tenant>, tickets: seq<Ticket>, t: Ticket)
    requires DistinctIds(tenants)
    ensures SumOpen(tenants, tickets + [t]) == SumOpen(tenants, tickets) + if IsOpen(t) && HasId(tenants, t.tenant) then 1 else 0
  {
    if tenants != [] {
      var last, before := tenants[|tenants| - 1], tenants[..|tenants| - 1];
      SumOneMore(before, tickets, t);
      assert (tickets + [t])[..|tickets|] == tickets;
      if HasId(before, t.tenant) {
        var i :| 0 <= i < |before| && before[i].id == t.tenant;
        assert tenants[i].id == t.tenant;
        assert last.id != t.tenant;
      }
      if last.id == t.tenant {
        assert tenants[|tenants| - 1].id == t.tenant;
      }
      if HasId(tenants, t.tenant) && last.id != t.tenant {
        var i :| 0 <= i < |tenants| && tenants[i].id == t.tenant;
        assert before[i].id == t.tenant;
      }
    }
  }

  lemma {:induction false} SumNothing(tenants: seq<Tenant>)
    ensures SumOpen(tenants, []) == 0
  {
    if tenants != [] {
      SumNothing(tenants[..|tenants| - 1]);
    }
  }

  /** Conservation: the per-client counts add up to the overview's count, every ticket belonging to a listed client. */
  lemma {:induction false} OpenTicketsConserved(tenants: seq<Tenant>, tickets: seq<Ticket>)
    requires DistinctIds(tenants) && forall t :: t in tickets ==> HasId(tenants, t.tenant)
    ensures SumOpen(tenants, tickets) == |Filter(tickets, IsOpen)|
  {
    if tickets == [] {
      SumNothing(tenants);
    } else {
      var last, before := tickets[|tickets| - 1], tickets[..|tickets| - 1];
      assert tickets == before + [last];
      OpenTicketsConserved(tenants, before);
      SumOneMore(tenants, before, last);
    }
  }
}
