/**
 The version list of AppRun Dedicated: newest number first, with the number,
 written in decimal, as the cursor. It is the cursor paging of `CursorPaging`
 over those numbers.
 */
module VersionPaging {
  import opened Prelude
  import opened OrderLists
  import opened Sorting
  import opened Decimal
  import opened DedicatedStore
  import opened CursorPaging

  predicate Newer(a: Version, b: Version) {
    a.number > b.number
  }

  function Cursor(v: Version): string {
    Integer(v.number)
  }

  lemma NewerIsOrder()
    ensures StrictWeak(Newer)
  {
  }

  /** The page that a listing in this order gives after the cursor. */
  ghost predicate Pages(sorted: seq<Version>, cursor: string, maxItems: int, page: seq<Version>, next: Option<int>) {
    var spec := PageAfter(Ids(sorted, Cursor), cursor, maxItems);
    && Ids(page, Cursor) == spec.items
    && next.Some? == spec.next.Some?
    && (next.Some? ==> Integer(next.value) == spec.next.value)
  }

  /** Some order of the versions, newest first. */
  ghost predicate NewestFirst(vs: seq<Version>, sorted: seq<Version>) {
    multiset(sorted) == multiset(vs) && Sorted(sorted, Newer)
  }

  /** Some of the versions, and no number is above an earlier one. */
  ghost predicate Descend(vs: seq<Version>, page: seq<Version>) {
    && (forall v :: v in page ==> v in vs)
    && forall i, j :: 0 <= i < j < |page| ==> page[i].number >= page[j].number
  }

  /** Sorted newest first, cut after the cursor, and cut again at the page size. */
  method ListVersions(vs: seq<Version>, cursor: string, maxItems: int) returns (page: seq<Version>, next: Option<int>)
    ensures exists sorted :: NewestFirst(vs, sorted) && Pages(sorted, cursor, maxItems, page, next)
    ensures Descend(vs, page)
  {
    if |vs| == 0 {
      assert NewestFirst(vs, vs) && Pages(vs, cursor, maxItems, [], None);
      return [], None;
    }
    NewerIsOrder();
    ghost var from;
    var sorted;
    sorted, from := Sort(vs, Newer);
    assert NewestFirst(vs, sorted);
    hide NewestFirst, StrictWeak, Rearranged, Sorted, Pages, StartOf, Descend;
    var size := maxItems;
    if size <= 0 {
      size := 20;
    }
    var start := AfterCursor(sorted, Cursor, cursor);
    CutPages(sorted, cursor, maxItems, start, size);
    if start >= |sorted| {
      CutItems(vs, sorted, |sorted|, |sorted|);
      page, next := [], None;
    } else if start + size >= |sorted| {
      CutItems(vs, sorted, start, |sorted|);
      page, next := sorted[start..], None;
    } else {
      CutItems(vs, sorted, start, start + size);
      page, next := sorted[start..start + size], Some(sorted[start + size - 1].number);
    }
  }

  /** What is cut out of the order is of the versions, newest first. */
  lemma CutItems(vs: seq<Version>, sorted: seq<Version>, start: nat, end: nat)
    requires NewestFirst(vs, sorted) && start <= end <= |sorted|
    ensures Descend(vs, sorted[start..end])
  {
    forall v | v in sorted[start..end] ensures v in vs {
      assert v in sorted && v in multiset(sorted);
    }
    forall i, j | 0 <= i < j < end - start ensures sorted[start..end][i].number >= sorted[start..end][j].number {
      assert !Newer(sorted[start + j], sorted[start + i]);
    }
  }

  lemma CutPages(sorted: seq<Version>, cursor: string, maxItems: int, start: nat, size: nat)
    requires start == StartOf(Ids(sorted, Cursor), cursor) && size == PageSize(maxItems)
    ensures start >= |sorted| ==> Pages(sorted, cursor, maxItems, [], None)
    ensures start < |sorted| <= start + size ==> Pages(sorted, cursor, maxItems, sorted[start..], None)
    ensures start + size < |sorted| ==>
              Pages(sorted, cursor, maxItems, sorted[start..start + size], Some(sorted[start + size - 1].number))
  {
    hide StartOf, Integer;
  }

  predicate DistinctNumbers(vs: seq<Version>) {
    forall i, j :: 0 <= i < j < |vs| ==> vs[i].number != vs[j].number
  }

  lemma NumberTells(vs: seq<Version>, x: Version, y: Version)
    requires DistinctNumbers(vs) && x in vs && y in vs && x != y
    ensures x.number != y.number
  {
  }

  /** Distinct numbers have one order only, so the page is determined by the versions alone. */
  lemma OrderIsUnique(vs: seq<Version>, a: seq<Version>, b: seq<Version>)
    requires DistinctNumbers(vs) && NewestFirst(vs, a) && NewestFirst(vs, b)
    ensures a == b
  {
    forall x, y | x in a && y in a && x != y ensures Newer(x, y) || Newer(y, x) {
      assert x in multiset(vs) && y in multiset(vs);
      NumberTells(vs, x, y);
    }
    SortedIsUnique(a, b, Newer);
  }

  lemma {:induction false} ListedOnce(vs: seq<Version>, v: Version)
    requires DistinctNumbers(vs)
    ensures multiset(vs)[v] <= 1
    decreases |vs|
  {
    if vs != [] {
      ListedOnce(Front(vs), v);
      assert vs == Front(vs) + [Last(vs)];
      if Last(vs) == v {
        assert forall x :: x in Front(vs) ==> x.number != v.number;
        assert v !in multiset(Front(vs));
      }
    }
  }

  lemma ListedTwice(vs: seq<Version>, i: nat, j: nat)
    requires i < j < |vs| && vs[i] == vs[j]
    ensures multiset(vs)[vs[i]] >= 2
  {
    assert vs == vs[..i] + [vs[i]] + vs[i + 1..j] + [vs[i]] + vs[j + 1..];
  }

  lemma NumbersStayDistinct(vs: seq<Version>, sorted: seq<Version>)
    requires DistinctNumbers(vs) && multiset(sorted) == multiset(vs)
    ensures DistinctNumbers(sorted)
  {
    forall i, j | 0 <= i < j < |sorted| ensures sorted[i].number != sorted[j].number {
      assert sorted[i] in multiset(vs) && sorted[j] in multiset(vs);
      if sorted[i].number == sorted[j].number {
        ListedTwice(sorted, i, j);
        ListedOnce(vs, sorted[i]);
      }
    }
  }

  /** Before the counter wraps, versions have distinct cursors. */
  lemma CursorsAreDistinct(vs: seq<Version>, created: nat, sorted: seq<Version>)
    requires VersionsIssued(vs, created) && created < TWO_TO_THE_32 && NewestFirst(vs, sorted)
    ensures Distinct(Ids(sorted, Cursor)) && "" !in Ids(sorted, Cursor)
  {
    NumbersStayDistinct(vs, sorted);
    var ids := Ids(sorted, Cursor);
    forall i, j | 0 <= i < j < |ids| ensures ids[i] != ids[j] {
      IntegerInjective(sorted[i].number, sorted[j].number);
    }
  }

  /**
   Before the counter wraps, a client that follows the cursors to the end gets
   every version that is there throughout, none twice, whatever other versions
   are created or deleted meanwhile; and if none is, the pages put together are
   the versions, newest first.
   */
  lemma FollowingCursorsReturnsEachVersionOnce(
    vs: seq<Version>, created: nat, sorted: seq<Version>, es: seq<CursorPaging.Event>)
    requires VersionsIssued(vs, created) && created < TWO_TO_THE_32 && NewestFirst(vs, sorted)
    requires CursorPaging.IsRun(Begin(Ids(sorted, Cursor)), es) && Final(Begin(Ids(sorted, Cursor)), es).done
    ensures var end := Final(Begin(Ids(sorted, Cursor)), es);
            && Distinct(end.got)
            && (forall v :: v in vs && Cursor(v) in end.steady ==> Cursor(v) in end.got)
            && ((forall e :: e in es ==> e.Fetch?) ==> end.got == Ids(sorted, Cursor))
  {
    CursorsAreDistinct(vs, created, sorted);
    FollowingCursorsReturnsEachItemOnce(Ids(sorted, Cursor), es);
    if forall e :: e in es ==> e.Fetch? {
      QuietPagesAreTheList(Ids(sorted, Cursor), es);
    }
  }
}
