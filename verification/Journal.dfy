/** The audit log: appending, filtering, and listing by pages. */
module Journal {
  import opened Domain
  import Sorting

  datatype Entry = Entry(id: Id, actor: Option<Id>, action: string, targetType: string, targetId: string, createdAt: Time)

  /** Empty strings and None mean "do not filter". */
  datatype Filter = Filter(actor: Option<Id>, action: string, targetType: string, targetId: string,
                           from: Option<Time>, to: Option<Time>, limit: int, offset: int)

  predicate Matches(f: Filter, e: Entry) {
    && (f.actor.Some? ==> e.actor == f.actor)
    && (f.action != "" ==> e.action == f.action)
    && (f.targetType != "" ==> e.targetType == f.targetType)
    && (f.targetId != "" ==> e.targetId == f.targetId)
    && (f.from.Some? ==> f.from.value <= e.createdAt)
    && (f.to.Some? ==> e.createdAt <= f.to.value)
  }

  /** An empty filter keeps everything. */
  lemma NoCriteria(e: Entry, limit: int, offset: int)
    ensures Matches(Filter(None, "", "", "", None, None, limit, offset), e)
  {
  }

  /** Each criterion, set on top of any others, keeps of what they keep exactly the entries that meet it; limit and
      offset keep everything. With NoCriteria this fixes what every filter matches. */
  lemma CriteriaNarrow(f: Filter, e: Entry, actor: Id, text: string, at: Time, limit: int, offset: int)
    requires text != ""
    ensures Matches(f.(actor := Some(actor)), e) <==> Matches(f.(actor := None), e) && e.actor == Some(actor)
    ensures Matches(f.(action := text), e) <==> Matches(f.(action := ""), e) && e.action == text
    ensures Matches(f.(targetType := text), e) <==> Matches(f.(targetType := ""), e) && e.targetType == text
    ensures Matches(f.(targetId := text), e) <==> Matches(f.(targetId := ""), e) && e.targetId == text
    ensures Matches(f.(from := Some(at)), e) <==> Matches(f.(from := None), e) && at <= e.createdAt
    ensures Matches(f.(to := Some(at)), e) <==> Matches(f.(to := None), e) && e.createdAt <= at
    ensures Matches(f.(limit := limit, offset := offset), e) <==> Matches(f, e)
  {
  }

  /** ORDER BY created_at DESC, id DESC. */
  predicate Newer(a: Entry, b: Entry) {
    a.createdAt > b.createdAt || (a.createdAt == b.createdAt && a.id >= b.id)
  }

  function Select(log: seq<Entry>, f: Filter): seq<Entry> {
    if log == [] then []
    else (if Matches(f, log[0]) then [log[0]] else []) + Select(log[1..], f)
  }

  function Ordered(log: seq<Entry>, f: Filter): seq<Entry> {
    Sorting.Sort(Newer, Select(log, f))
  }

  /** LIMIT and OFFSET. */
  function Slice<T>(s: seq<T>, limit: nat, offset: nat): seq<T> {
    if offset >= |s| then [] else if offset + limit >= |s| then s[offset..] else s[offset..offset + limit]
  }

  const DEFAULT_LIMIT := 50
  const MAX_LIMIT := 200

  function ClampLimit(limit: int): (r: nat)
    ensures 1 <= r <= MAX_LIMIT
    ensures 1 <= limit <= 200 ==> r == limit
    ensures limit < 1 || limit > 200 ==> r == 50
  {
    if limit <= 0 || limit > MAX_LIMIT then DEFAULT_LIMIT else limit
  }

  function ClampOffset(offset: int): nat {
    if offset < 0 then 0 else offset
  }

  const TWO_31 := 0x8000_0000
  const TWO_32 := 0x1_0000_0000

  /** Conversion to a 32-bit signed integer wraps around. */
  function Int32(x: int): (r: int)
    ensures -TWO_31 <= r < TWO_31
    ensures -TWO_31 <= x < TWO_31 ==> r == x
  {
    (x + TWO_31) % TWO_32 - TWO_31
  }

  datatype Page = Page(rows: seq<Entry>, total: nat) | NoPage

  /** What List answers; the database refuses a negative OFFSET. */
  function PageOf(log: seq<Entry>, f: Filter): Page {
    var offset := Int32(ClampOffset(f.offset));
    if offset < 0 then NoPage
    else Page(Slice(Ordered(log, f), ClampLimit(f.limit), offset), |Select(log, f)|)
  }

  ghost predicate DistinctIds(log: seq<Entry>) {
    forall i, j :: 0 <= i < j < |log| ==> log[i].id != log[j].id
  }

  class AuditRepo {
    var rows: seq<Entry>
    var next: Id

    ghost predicate Valid()
      reads this
    {
      DistinctIds(rows) && forall i :: 0 <= i < |rows| ==> rows[i].id < next
    }

    constructor ()
      ensures Valid() && rows == []
    {
      rows, next := [], 1;
    }

    /** The identity column numbers entries in order. */
    method Write(actor: Option<Id>, action: string, targetType: string, targetId: string, createdAt: Time)
      requires Valid()
      modifies this
      ensures Valid() && next == old(next) + 1
      ensures rows == old(rows) + [Entry(old(next), actor, action, targetType, targetId, createdAt)]
    {
      rows := rows + [Entry(next, actor, action, targetType, targetId, createdAt)];
      next := next + 1;
    }

    method List(f: Filter) returns (page: Page)
      requires Valid()
      ensures page == PageOf(rows, f)
    {
      var limit := f.limit;
      if limit <= 0 || limit > MAX_LIMIT {
        limit := DEFAULT_LIMIT;
      }
      var offset := f.offset;
      if offset < 0 {
        offset := 0;
      }
      if Int32(offset) < 0 {
        return NoPage;
      }
      var found := Slice(Ordered(rows, f), limit, Int32(offset));
      var out: seq<Entry> := [];
      for k := 0 to |found|
        invariant out == found[..k]
      {
        out := out + [found[k]];
      }
      page := Page(out, |Select(rows, f)|);
    }
  }

  // ----- pages put together -----

  lemma {:induction false} SelectSound(log: seq<Entry>, f: Filter)
    requires DistinctIds(log)
    ensures DistinctIds(Select(log, f))
    ensures forall e :: e in Select(log, f) <==> e in log && Matches(f, e)
  {
    if log != [] {
      SelectSound(log[1..], f);
      var rest := Select(log[1..], f);
      forall i | 0 <= i < |rest|
        ensures rest[i].id != log[0].id
      {
        assert rest[i] in rest;
        assert rest[i] in log[1..];
      }
    }
  }

  lemma NewerIsPreorder()
    ensures Sorting.TotalPreorder(Newer)
  {
  }

  /** Strictly descending by (created_at, id). */
  ghost predicate Descending(s: seq<Entry>) {
    forall i, j :: 0 <= i < j < |s| ==>
      s[i].createdAt > s[j].createdAt || (s[i].createdAt == s[j].createdAt && s[i].id > s[j].id)
  }

  lemma {:induction false} DistinctAsMultiset(s: seq<Entry>)
    requires DistinctIds(s)
    ensures forall e :: multiset(s)[e] <= 1
    ensures forall a, b :: a in s && b in s && a.id == b.id ==> a == b
  {
    if s != [] {
      DistinctAsMultiset(s[1..]);
      assert s == [s[0]] + s[1..];
      assert s[0] !in s[1..];
      assert s[0] !in multiset(s[1..]);
    }
  }

  lemma AsManySorted(log: seq<Entry>, f: Filter)
    ensures |Ordered(log, f)| == |Select(log, f)|
  {
    assert |Ordered(log, f)| == |multiset(Ordered(log, f))| == |multiset(Select(log, f))| == |Select(log, f)|;
  }

  lemma SameEntries(log: seq<Entry>, f: Filter)
    requires DistinctIds(log)
    ensures forall e :: e in Ordered(log, f) <==> e in log && Matches(f, e)
  {
    SelectSound(log, f);
    forall e
      ensures e in Ordered(log, f) <==> e in Select(log, f)
    {
      assert e in Ordered(log, f) <==> e in multiset(Ordered(log, f));
      assert e in Select(log, f) <==> e in multiset(Select(log, f));
    }
  }

  /** A rearrangement of entries with distinct ids has distinct ids. */
  lemma StillDistinct(all: seq<Entry>, sel: seq<Entry>)
    requires DistinctIds(sel) && multiset(all) == multiset(sel)
    ensures DistinctIds(all)
  {
    DistinctAsMultiset(sel);
    forall i, j | 0 <= i < j < |all|
      ensures all[i].id != all[j].id
    {
      if all[i] == all[j] {
        Sorting.Twice(all, i, j);
      }
      assert all[i] in multiset(all) && all[j] in multiset(all);
    }
  }

  /** The full listing: every matching entry exactly once, newest first. */
  lemma OrderedSound(log: seq<Entry>, f: Filter)
    requires DistinctIds(log)
    ensures var all := Ordered(log, f);
            && Descending(all) && |all| == |Select(log, f)|
            && multiset(all) == multiset(Select(log, f))
            && forall e :: e in all <==> e in log && Matches(f, e)
  {
    SelectSound(log, f);
    NewerIsPreorder();
    Sorting.SortSorted(Newer, Select(log, f));
    StillDistinct(Ordered(log, f), Select(log, f));
    AsManySorted(log, f);
    SameEntries(log, f);
  }

  /** Pages of `limit` from an offset on, one after the other, up to a total. */
  function Concat<T>(page: nat -> seq<T>, total: nat, limit: nat, offset: nat): seq<T>
    requires limit > 0
    decreases total - offset
  {
    if offset >= total then [] else page(offset) + Concat(page, total, limit, offset + limit)
  }

  /** What a reader gets at each offset. */
  function RowsAt(log: seq<Entry>, f: Filter): nat -> seq<Entry> {
    (offset: nat) => var page := PageOf(log, f.(offset := offset)); if page.Page? then page.rows else []
  }

  /** All pages of a listing, up to the reported total. */
  function Pages(log: seq<Entry>, f: Filter): seq<Entry> {
    Concat(RowsAt(log, f), |Select(log, f)|, ClampLimit(f.limit), 0)
  }

  function Drop<T>(s: seq<T>, n: nat): seq<T> {
    if n >= |s| then [] else s[n..]
  }

  /** Every page from `offset` on starts at an offset that fits 32 bits. */
  predicate StartsFit(total: nat, limit: nat, offset: nat)
    requires limit > 0
    decreases total - offset
  {
    offset >= total || (offset < TWO_31 && StartsFit(total, limit, offset + limit))
  }

  /** Empty, or beginning with one of the first 2^31 entries. */
  ghost predicate FromTheFront(rows: seq<Entry>, all: seq<Entry>) {
    rows == [] || exists j :: 0 <= j < |all| && j < TWO_31 && rows[0] == all[j]
  }

  /** The right slice at an offset that fits; otherwise nothing, or a slice from the front. */
  ghost predicate PageFine(page: nat -> seq<Entry>, all: seq<Entry>, limit: nat, o: nat) {
    if o < TWO_31 then o < |all| ==> page(o) == Slice(all, limit, o) else FromTheFront(page(o), all)
  }

  lemma {:induction false} WrappedPages(page: nat -> seq<Entry>, all: seq<Entry>, limit: nat, offset: nat)
    requires limit > 0 && offset >= TWO_31
    requires forall o: nat :: PageFine(page, all, limit, o)
    ensures FromTheFront(Concat(page, |all|, limit, offset), all)
    decreases |all| - offset
  {
    if offset < |all| {
      WrappedPages(page, all, limit, offset + limit);
      assert PageFine(page, all, limit, offset);
      var rest := Concat(page, |all|, limit, offset + limit);
      assert page(offset) != [] ==> (page(offset) + rest)[0] == page(offset)[0];
      assert page(offset) == [] ==> page(offset) + rest == rest;
    }
  }

  lemma NotFromTheFront(all: seq<Entry>, offset: nat)
    requires Descending(all) && TWO_31 <= offset < |all|
    ensures !FromTheFront(Drop(all, offset), all)
  {
    assert Drop(all, offset)[0] == all[offset];
  }

  /** After a right page, the listing goes on right exactly when its tail does. */
  lemma RightPage<T>(all: seq<T>, limit: nat, offset: nat, rest: seq<T>)
    ensures Slice(all, limit, offset) + rest == Drop(all, offset) <==> rest == Drop(all, offset + limit)
  {
    var page, tail := Slice(all, limit, offset), Drop(all, offset + limit);
    assert page + tail == Drop(all, offset);
    assert (page + rest)[|page|..] == rest && (page + tail)[|page|..] == tail;
  }

  lemma {:induction false} ConcatIff(page: nat -> seq<Entry>, all: seq<Entry>, limit: nat, offset: nat)
    requires limit > 0 && Descending(all)
    requires forall o: nat :: PageFine(page, all, limit, o)
    ensures Concat(page, |all|, limit, offset) == Drop(all, offset) <==> StartsFit(|all|, limit, offset)
    decreases |all| - offset
  {
    if offset >= |all| {
    } else if offset < TWO_31 {
      assert PageFine(page, all, limit, offset);
      ConcatIff(page, all, limit, offset + limit);
      RightPage(all, limit, offset, Concat(page, |all|, limit, offset + limit));
    } else {
      WrappedPages(page, all, limit, offset);
      NotFromTheFront(all, offset);
    }
  }

  /** A page at an offset that fits 32 bits. */
  lemma PageInside(log: seq<Entry>, f: Filter, offset: nat)
    requires offset < TWO_31
    ensures PageOf(log, f.(offset := offset))
            == Page(Slice(Ordered(log, f), ClampLimit(f.limit), offset), |Select(log, f)|)
  {
    OffsetIgnored(log, f, offset);
  }

  /** Where a page starts has no bearing on what matches. */
  lemma {:induction false} OffsetIgnored(log: seq<Entry>, f: Filter, offset: int)
    ensures Select(log, f.(offset := offset)) == Select(log, f)
    ensures Ordered(log, f.(offset := offset)) == Ordered(log, f)
  {
    if log != [] {
      OffsetIgnored(log[1..], f, offset);
    }
  }

  lemma SliceBegins(all: seq<Entry>, limit: nat, j: nat)
    requires limit > 0 && j < |all| && j < TWO_31
    ensures FromTheFront(Slice(all, limit, j), all)
  {
    var first := all[j];
    assert Slice(all, limit, j)[0] == first;
  }

  /** A page at an offset that does not fit is refused, or begins again near the front. */
  lemma PageBeyond(log: seq<Entry>, f: Filter, offset: nat)
    requires offset >= TWO_31
    ensures FromTheFront(RowsAt(log, f)(offset), Ordered(log, f))
  {
    OffsetIgnored(log, f, offset);
    var all, wrapped := Ordered(log, f), Int32(offset);
    if 0 <= wrapped < |all| {
      SliceBegins(all, ClampLimit(f.limit), wrapped);
    }
  }

  /** For every filter and every limit L, the pages at offsets 0, L, 2L, ... put together are the whole listing
      exactly when each of them starts at an offset that fits 32 bits. */
  lemma PagesAreTheLogIff(log: seq<Entry>, f: Filter)
    requires DistinctIds(log)
    ensures Pages(log, f) == Ordered(log, f) <==> StartsFit(|Select(log, f)|, ClampLimit(f.limit), 0)
  {
    OrderedSound(log, f);
    var all, limit, page := Ordered(log, f), ClampLimit(f.limit), RowsAt(log, f);
    forall o: nat
      ensures PageFine(page, all, limit, o)
    {
      if o < TWO_31 {
        PageInside(log, f, o);
      } else {
        PageBeyond(log, f, o);
      }
    }
    ConcatIff(page, all, limit, 0);
    assert Drop(all, 0) == all;
  }

  lemma {:induction false} SmallStartsFit(total: nat, limit: nat, offset: nat)
    requires limit > 0 && total <= TWO_31
    ensures StartsFit(total, limit, offset)
    decreases total - offset
  {
    if offset < total {
      SmallStartsFit(total, limit, offset + limit);
    }
  }

  /** Up to 2^31 matching entries: the pages give each of them exactly once, newest first, as many as the total says. */
  lemma PagesAreTheLog(log: seq<Entry>, f: Filter)
    requires DistinctIds(log) && |Select(log, f)| <= TWO_31
    ensures var pages := Pages(log, f);
            && Descending(pages)
            && (forall e :: e in pages <==> e in log && Matches(f, e))
            && |pages| == |Select(log, f)|
  {
    OrderedSound(log, f);
    SmallStartsFit(|Select(log, f)|, ClampLimit(f.limit), 0);
    PagesAreTheLogIff(log, f);
  }

  lemma StartsDiffer(all: seq<Entry>, limit: nat, i: nat, j: nat)
    requires Descending(all) && limit > 0 && i < j < |all|
    ensures Slice(all, limit, i) != Slice(all, limit, j)
  {
    assert Slice(all, limit, i)[0] == all[i];
    assert Slice(all, limit, j)[0] == all[j];
  }

  lemma ServedInside(log: seq<Entry>, f: Filter)
    requires DistinctIds(log) && 0 <= f.offset < |Select(log, f)|
    ensures PageOf(log, f) == RightPageOf(log, f) <==> f.offset < TWO_31
  {
    OrderedSound(log, f);
    var wrapped := Int32(f.offset);
    if f.offset >= TWO_31 && wrapped >= 0 {
      assert wrapped < f.offset;
      StartsDiffer(Ordered(log, f), ClampLimit(f.limit), wrapped, f.offset);
    }
  }

  /** What a page should be, offsets being numbers of any size. */
  function RightPageOf(log: seq<Entry>, f: Filter): Page {
    Page(Slice(Ordered(log, f), ClampLimit(f.limit), ClampOffset(f.offset)), |Select(log, f)|)
  }

  /** Every offset a caller can send is served right exactly when it fits 32 bits, or wraps around to one that
      lies at or beyond the end of the listing. */
  lemma OffsetServedIff(log: seq<Entry>, f: Filter)
    requires DistinctIds(log)
    ensures PageOf(log, f) == RightPageOf(log, f)
            <==> f.offset < TWO_31 || Int32(f.offset) >= |Select(log, f)|
  {
    AsManySorted(log, f);
    if 0 <= f.offset < |Select(log, f)| {
      ServedInside(log, f);
      assert f.offset >= TWO_31 ==> Int32(f.offset) < f.offset;
    } else if f.offset >= TWO_31 {
      WrappedBeyond(log, f);
    }
  }

  lemma NothingBeyond(all: seq<Entry>, limit: nat, offset: nat, wrapped: int)
    requires limit > 0 && offset >= |all|
    ensures Slice(all, limit, offset) == []
    ensures wrapped >= 0 ==> (Slice(all, limit, wrapped) == [] <==> wrapped >= |all|)
  {
  }

  lemma WrappedBeyond(log: seq<Entry>, f: Filter)
    requires f.offset >= TWO_31 && f.offset >= |Select(log, f)| == |Ordered(log, f)|
    ensures PageOf(log, f) == RightPageOf(log, f) <==> Int32(f.offset) >= |Select(log, f)|
  {
    NothingBeyond(Ordered(log, f), ClampLimit(f.limit), f.offset, Int32(f.offset));
  }

  /** With a single entry, the offset 2^32 answers that entry where there is none, and 2^31 answers nothing at all. */
  lemma WrapsToTheFront(e: Entry, limit: int)
    ensures var f := Filter(None, "", "", "", None, None, limit, TWO_32);
            && PageOf([e], f) == Page([e], 1) && RightPageOf([e], f) == Page([], 1)
            && PageOf([e], f.(offset := TWO_31)) == NoPage
  {
    var f := Filter(None, "", "", "", None, None, limit, TWO_32);
    assert [e][1..] == [];
    assert Select([e], f) == [e];
    assert Ordered([e], f) == [e];
    assert Int32(TWO_32) == 0;
  }
}
