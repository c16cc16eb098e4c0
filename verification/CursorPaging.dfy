/**
 Cursor pagination over an ordered list: the cursor is the identifier of the
 last item of a page, so a client can follow `next` while the list changes.
 */
module CursorPaging {
  import opened Prelude
  import opened OrderLists

  const DEFAULT_PAGE := 20

  datatype Page = Page(items: seq<string>, next: Option<string>)

  function PageSize(maxItems: int): nat {
    if maxItems <= 0 then DEFAULT_PAGE else maxItems
  }

  /** Where the page after the cursor begins: an unknown cursor starts over. */
  function StartOf(ids: seq<string>, cursor: string): nat {
    if cursor == "" || cursor !in ids then 0 else IndexOf(ids, cursor) + 1
  }

  function PageAfter(ids: seq<string>, cursor: string, maxItems: int): Page {
    var start := StartOf(ids, cursor);
    var end := start + PageSize(maxItems);
    if start >= |ids| then Page([], None)
    else if end >= |ids| then Page(ids[start..], None)
    else Page(ids[start..end], Some(ids[end - 1]))
  }

  ghost function Ids<T>(items: seq<T>, id: T -> string): (ids: seq<string>)
    ensures |ids| == |items|
    ensures forall i :: 0 <= i < |items| ==> ids[i] == id(items[i])
  {
    seq(|items|, i requires 0 <= i < |items| => id(items[i]))
  }

  /** The two cuts after the scan for the cursor, over any items with an identifier function. */
  method CursorPage<T>(items: seq<T>, id: T -> string, cursor: string, maxItems: int)
    returns (page: seq<T>, next: Option<string>)
    ensures var ids := Ids(items, id);
            var spec := PageAfter(ids, cursor, maxItems);
            && next == spec.next
            && Ids(page, id) == spec.items
            && var start := StartOf(ids, cursor);
               page != [] ==> start + |page| <= |items| && page == items[start..start + |page|]
  {
    var size := maxItems;
    if size <= 0 {
      size := 20;
    }
    var start := AfterCursor(items, id, cursor);
    if start >= |items| {
      page, next := [], None;
      return;
    }
    var end := start + size;
    if end >= |items| {
      page, next := items[start..], None;
      return;
    }
    page, next := items[start..end], Some(id(items[end - 1]));
  }

  /** The scan for the cursor. */
  method AfterCursor<T>(items: seq<T>, id: T -> string, cursor: string) returns (start: nat)
    ensures start == StartOf(Ids(items, id), cursor)
  {
    ghost var ids := Ids(items, id);
    if cursor == "" {
      return 0;
    }
    var i := 0;
    while i < |items|
      invariant 0 <= i <= |items|
      invariant forall k :: 0 <= k < i ==> ids[k] != cursor
    {
      if id(items[i]) == cursor {
        assert ids[i] == cursor;
        assert IndexOf(ids, cursor) == i;
        return i + 1;
      }
      i := i + 1;
    }
    assert cursor !in ids;
    start := 0;
  }

  method PageOfIds(ids: seq<string>, cursor: string, maxItems: int) returns (page: seq<string>, next: Option<string>)
    ensures Page(page, next) == PageAfter(ids, cursor, maxItems)
  {
    var self := (id: string) => id;
    page, next := CursorPage(ids, self, cursor, maxItems);
    assert Ids(ids, self) == ids && Ids(page, self) == page;
  }

  /**
   A page begins behind the cursor, or at the front for an unknown one, holds as
   many items as asked for, or twenty, if there are so many, and names its last
   item as the next cursor exactly when more follow.
   */
  lemma PageIsCut(ids: seq<string>, cursor: string, maxItems: int)
    requires Distinct(ids) && "" !in ids
    ensures var page := PageAfter(ids, cursor, maxItems);
            var size := if maxItems <= 0 then 20 else maxItems;
            && (cursor !in ids ==> page.items == if |ids| <= size then ids else ids[..size])
            && (forall k :: 0 <= k < |ids| && ids[k] == cursor ==>
                  page.items == if |ids| <= k + 1 + size then ids[k + 1..] else ids[k + 1..k + 1 + size])
            && (page.next.Some? <==> page.items != [] && Last(page.items) != Last(ids))
            && (page.next.Some? ==> page.next.value == Last(page.items))
  {
    hide Distinct, StartOf, IndexOf, PageAfter, Last;
    BehindCursor(ids, cursor);
    CutAtSize(ids, cursor, maxItems);
  }

  lemma BehindCursor(ids: seq<string>, cursor: string)
    requires Distinct(ids) && "" !in ids
    ensures cursor !in ids ==> StartOf(ids, cursor) == 0
    ensures forall k :: 0 <= k < |ids| && ids[k] == cursor ==> StartOf(ids, cursor) == k + 1
  {
    forall k | 0 <= k < |ids| && ids[k] == cursor ensures IndexOf(ids, cursor) == k {
      IndexOfAt(ids, k);
    }
  }

  lemma CutAtSize(ids: seq<string>, cursor: string, maxItems: int)
    requires Distinct(ids)
    ensures var page, start := PageAfter(ids, cursor, maxItems), StartOf(ids, cursor);
            var size := if maxItems <= 0 then 20 else maxItems;
            && start <= |ids|
            && page.items == (if |ids| <= start + size then ids[start..] else ids[start..start + size])
            && (page.next.Some? <==> page.items != [] && Last(page.items) != Last(ids))
            && (page.next.Some? ==> page.next.value == Last(page.items))
  {
    var start := StartOf(ids, cursor);
    assert start <= |ids|;
    hide StartOf;
    var end := start + PageSize(maxItems);
    if end < |ids| {
      assert Last(ids[start..end]) == ids[end - 1] != ids[|ids| - 1];
    } else if start < |ids| {
      assert Last(ids[start..]) == ids[|ids| - 1];
    }
  }

  /** A page that announces a next one is full, and the next one is not empty if nothing changes. */
  lemma NextPageIsNotEmpty(ids: seq<string>, cursor: string, maxItems: int, maxItems': int)
    requires Distinct(ids) && "" !in ids
    requires PageAfter(ids, cursor, maxItems).next.Some?
    ensures |PageAfter(ids, cursor, maxItems).items| == PageSize(maxItems)
    ensures PageAfter(ids, PageAfter(ids, cursor, maxItems).next.value, maxItems').items != []
  {
    var end := StartOf(ids, cursor) + PageSize(maxItems);
    var c := PageAfter(ids, cursor, maxItems).next.value;
    IndexOfAt(ids, end - 1);
    hide Distinct, IndexOf;
    assert ids[end - 1] == c && c in ids && StartOf(ids, c) == end < |ids|;
    hide StartOf;
    StartsWithin(ids, c, maxItems');
  }

  lemma StartsWithin(ids: seq<string>, cursor: string, maxItems: int)
    requires StartOf(ids, cursor) < |ids|
    ensures PageAfter(ids, cursor, maxItems).items != []
  {
    hide StartOf;
  }

  // ---------------------------------------------------------------- interleaved runs

  /** What can happen while a client pages through the list. */
  datatype Event = Insert(at: nat, id: string) | Remove(id: string) | Fetch(maxItems: int)

  /**
   The list and the client. `used` holds every identifier ever in the list,
   `steady` those in the list since the client began.
   */
  datatype Session = Session(
    ids: seq<string>,
    used: set<string>,
    steady: set<string>,
    cursor: string,
    done: bool,
    got: seq<string>,
    fetches: nat)

  function Begin(ids: seq<string>): Session {
    Session(ids, set id | id in ids, set id | id in ids, "", false, [], 0)
  }

  /** New identifiers are fresh, and the item the client's cursor names stays. */
  predicate Enabled(s: Session, e: Event) {
    match e
    case Insert(at, id) => at <= |s.ids| && id != "" && id !in s.used
    case Remove(id) => id in s.ids && (id != s.cursor || s.done)
    case Fetch(_) => !s.done
  }

  function Step(s: Session, e: Event): Session
    requires Enabled(s, e)
  {
    match e
    case Insert(at, id) => s.(ids := Inserted(s.ids, at, id), used := s.used + {id})
    case Remove(id) => s.(ids := Without(s.ids, id), steady := s.steady - {id})
    case Fetch(maxItems) =>
      var page := PageAfter(s.ids, s.cursor, maxItems);
      s.(cursor := match page.next case Some(c) => c case None => s.cursor,
         done := page.next.None?,
         got := s.got + page.items,
         fetches := s.fetches + 1)
  }

  /** A run: every event is enabled when it happens. */
  predicate IsRun(s: Session, es: seq<Event>)
    decreases |es|
  {
    es == [] || (Enabled(s, es[0]) && IsRun(Step(s, es[0]), es[1..]))
  }

  function Final(s: Session, es: seq<Event>): Session
    requires IsRun(s, es)
    decreases |es|
  {
    if es == [] then s else Final(Step(s, es[0]), es[1..])
  }

  function Inserts(es: seq<Event>): nat {
    if es == [] then 0 else (if es[0].Insert? then 1 else 0) + Inserts(es[1..])
  }

  /** What holds at every point of every run. */
  ghost predicate Inv(s: Session) {
    && Distinct(s.ids) && "" !in s.ids
    && (forall id :: id in s.ids ==> id in s.used)
    && (forall id :: id in s.steady ==> id in s.ids)
    && Distinct(s.got)
    && (forall id :: id in s.got ==> id in s.used)
    && s.fetches <= |s.got| + (if s.done then 1 else 0)
    && (!s.done && s.cursor == "" ==> s.got == [])
    && (!s.done && s.cursor != "" ==> s.cursor in s.ids && AroundCursor(s))
    && (s.done ==> forall id :: id in s.steady ==> id in s.got)
    && InListOrder(s)
  }

  /** Returned items lie up to the cursor, and the steady items up to the cursor have been returned. */
  ghost predicate AroundCursor(s: Session) {
    forall id :: id in s.ids ==>
      && (id in s.got ==> IndexOf(s.ids, id) <= IndexOf(s.ids, s.cursor))
      && (id in s.steady && IndexOf(s.ids, id) <= IndexOf(s.ids, s.cursor) ==> id in s.got)
  }

  /** Items already returned and still listed were returned in list order. */
  ghost predicate InListOrder(s: Session) {
    InOrder(s.ids, s.got)
  }

  ghost predicate InOrder(ids: seq<string>, got: seq<string>) {
    forall i, j :: 0 <= i < j < |got| && got[i] in ids && got[j] in ids ==>
      IndexOf(ids, got[i]) < IndexOf(ids, got[j])
  }

  lemma EditKeepsInv(s: Session, s': Session)
    requires Inv(s)
    requires s' == s.(ids := s'.ids, used := s'.used, steady := s'.steady)
    requires Distinct(s'.ids) && "" !in s'.ids && SameOrder(s.ids, s'.ids)
    requires s.used <= s'.used && s'.steady <= s.steady
    requires forall id :: id in s'.ids ==> id in s'.used && (id in s.ids || id !in s.used)
    requires forall id :: id in s'.steady ==> id in s'.ids
    requires !s.done && s.cursor != "" ==> s.cursor in s'.ids
    ensures Inv(s')
  {
    forall i, j | 0 <= i < j < |s.got| && s.got[i] in s'.ids && s.got[j] in s'.ids
      ensures IndexOf(s'.ids, s.got[i]) < IndexOf(s'.ids, s.got[j])
    {
      assert s.got[i] in s.used && s.got[j] in s.used;
      assert IndexOf(s.ids, s.got[i]) < IndexOf(s.ids, s.got[j]);
      assert !(IndexOf(s.ids, s.got[j]) <= IndexOf(s.ids, s.got[i]));
    }
  }

  lemma SliceItems(ids: seq<string>, start: nat, end: nat)
    requires Distinct(ids) && start <= end <= |ids|
    ensures forall k :: 0 <= k < end - start ==> ids[start..end][k] in ids && IndexOf(ids, ids[start..end][k]) == start + k
    ensures forall id :: id in ids ==> (id in ids[start..end] <==> start <= IndexOf(ids, id) < end)
  {
    var page := ids[start..end];
    forall k | 0 <= k < end - start ensures page[k] in ids && IndexOf(ids, page[k]) == start + k {
      IndexOfAt(ids, start + k);
    }
    hide Distinct;
    forall id | id in ids && start <= IndexOf(ids, id) < end ensures id in page {
      assert page[IndexOf(ids, id) - start] == id;
    }
  }

  lemma PageIsSlice(ids: seq<string>, cursor: string, maxItems: int) returns (end: nat)
    ensures var start, page := StartOf(ids, cursor), PageAfter(ids, cursor, maxItems).items;
            if start >= |ids| then page == [] else start <= end <= |ids| && page == ids[start..end]
  {
    var start := StartOf(ids, cursor);
    end := if start + PageSize(maxItems) >= |ids| then |ids| else start + PageSize(maxItems);
  }

  lemma NoneFrom(ids: seq<string>, start: nat)
    requires start >= |ids|
    ensures forall id :: id in ids ==> IndexOf(ids, id) < start
  {
  }

  /** The items of a page are those from its start on. */
  lemma PageItems(ids: seq<string>, cursor: string, maxItems: int)
    requires Distinct(ids)
    ensures var start, page := StartOf(ids, cursor), PageAfter(ids, cursor, maxItems).items;
            && (page == [] || start + |page| <= |ids|)
            && (forall k :: 0 <= k < |page| ==> page[k] in ids && IndexOf(ids, page[k]) == start + k)
            && (forall id :: id in ids ==> (id in page <==> start <= IndexOf(ids, id) < start + |page|))
  {
    hide Distinct, StartOf, PageAfter, IndexOf;
    var start := StartOf(ids, cursor);
    var end := PageIsSlice(ids, cursor, maxItems);
    if start < |ids| {
      SliceItems(ids, start, end);
    } else {
      NoneFrom(ids, start);
    }
  }

  lemma ReturnedBeforeStart(s: Session, id: string)
    requires Inv(s) && !s.done && id in s.ids
    ensures id in s.got ==> IndexOf(s.ids, id) < StartOf(s.ids, s.cursor)
    ensures id in s.steady && IndexOf(s.ids, id) < StartOf(s.ids, s.cursor) ==> id in s.got
  {
  }

  lemma FetchKeepsGot(s: Session, maxItems: int)
    requires Inv(s) && !s.done
    ensures Distinct(Step(s, Fetch(maxItems)).got) && InListOrder(Step(s, Fetch(maxItems)))
  {
    var page, start := PageAfter(s.ids, s.cursor, maxItems).items, StartOf(s.ids, s.cursor);
    PageItems(s.ids, s.cursor, maxItems);
    forall id | id in s.ids && id in s.got ensures IndexOf(s.ids, id) < start {
      ReturnedBeforeStart(s, id);
    }
    Extends(s.ids, s.got, start, page);
  }

  /** A page that begins after everything returned so far extends it in list order. */
  lemma Extends(ids: seq<string>, got: seq<string>, start: nat, page: seq<string>)
    requires Distinct(got) && InOrder(ids, got)
    requires forall k :: 0 <= k < |page| ==> page[k] in ids && IndexOf(ids, page[k]) == start + k
    requires forall id :: id in ids && id in got ==> IndexOf(ids, id) < start
    ensures Distinct(got + page) && InOrder(ids, got + page)
  {
    var all := got + page;
    forall i, j | 0 <= i < j < |all|
      ensures all[i] != all[j]
      ensures all[i] in ids && all[j] in ids ==> IndexOf(ids, all[i]) < IndexOf(ids, all[j])
    {
      if i < |got| <= j {
        assert all[j] == page[j - |got|] && all[i] == got[i];
      } else if |got| <= i {
        assert all[i] == page[i - |got|] && all[j] == page[j - |got|];
      }
    }
  }

  lemma PageItem(ids: seq<string>, cursor: string, maxItems: int, id: string)
    requires Distinct(ids) && id in ids
    ensures var start, page := StartOf(ids, cursor), PageAfter(ids, cursor, maxItems).items;
            id in page <==> start <= IndexOf(ids, id) < start + |page|
  {
    hide StartOf, PageAfter, IndexOf, Distinct;
    PageItems(ids, cursor, maxItems);
  }

  lemma LastItem(ids: seq<string>, cursor: string, maxItems: int)
    requires Distinct(ids) && PageAfter(ids, cursor, maxItems).next.Some?
    ensures var start, page := StartOf(ids, cursor), PageAfter(ids, cursor, maxItems);
            && page.items != [] && page.next.value in ids
            && IndexOf(ids, page.next.value) == start + |page.items| - 1
  {
    var page := PageAfter(ids, cursor, maxItems);
    assert page.items != [] && page.items[|page.items| - 1] == page.next.value;
    hide StartOf, PageAfter, IndexOf, Distinct;
    PageItems(ids, cursor, maxItems);
  }

  lemma FetchKeepsCursor(s: Session, maxItems: int)
    requires Inv(s) && !s.done && !Step(s, Fetch(maxItems)).done
    ensures AroundCursor(Step(s, Fetch(maxItems)))
  {
    var s' := Step(s, Fetch(maxItems));
    assert Distinct(s.ids);
    hide Inv, Distinct, IndexOf, StartOf, PageAfter;
    LastItem(s.ids, s.cursor, maxItems);
    forall id | id in s.ids
      ensures id in s'.got ==> IndexOf(s.ids, id) <= IndexOf(s.ids, s'.cursor)
      ensures id in s.steady && IndexOf(s.ids, id) <= IndexOf(s.ids, s'.cursor) ==> id in s'.got
    {
      ReturnedBeforeStart(s, id);
      PageItem(s.ids, s.cursor, maxItems, id);
    }
  }

  lemma FetchKeepsInv(s: Session, maxItems: int)
    requires Inv(s) && !s.done
    ensures Inv(Step(s, Fetch(maxItems)))
  {
    var s' := Step(s, Fetch(maxItems));
    PageItems(s.ids, s.cursor, maxItems);
    FetchKeepsGot(s, maxItems);
    if s'.done {
      forall id | id in s.steady ensures id in s'.got {
        ReturnedBeforeStart(s, id);
      }
    } else {
      FetchKeepsCursor(s, maxItems);
    }
  }

  lemma StepKeepsInv(s: Session, e: Event)
    requires Inv(s) && Enabled(s, e)
    ensures Inv(Step(s, e))
  {
    match e
    case Insert(at, id) =>
      InsertedItems(s.ids, at, id);
      InsertKeepsOrder(s.ids, at, id);
      EditKeepsInv(s, Step(s, e));
    case Remove(id) =>
      WithoutItems(s.ids, id);
      RemoveKeepsOrder(s.ids, id);
      EditKeepsInv(s, Step(s, e));
    case Fetch(maxItems) =>
      FetchKeepsInv(s, maxItems);
  }

  lemma {:induction false} RunKeepsInv(s: Session, es: seq<Event>)
    requires Inv(s) && IsRun(s, es)
    ensures Inv(Final(s, es))
    decreases |es|
  {
    if es != [] {
      StepKeepsInv(s, es[0]);
      RunKeepsInv(Step(s, es[0]), es[1..]);
    }
  }

  /**
   In every interleaving of page requests with inserts and with removals of
   items other than the current cursor, a client that has followed the cursor to
   the end has got every item present throughout, none twice, and in list order.
   */
  lemma {:induction false} FollowingCursorsReturnsEachItemOnce(ids: seq<string>, es: seq<Event>)
    requires Distinct(ids) && "" !in ids
    requires IsRun(Begin(ids), es) && Final(Begin(ids), es).done
    ensures var end := Final(Begin(ids), es);
            && (forall id :: id in end.steady ==> id in end.got)
            && Distinct(end.got)
            && InListOrder(end)
  {
    RunKeepsInv(Begin(ids), es);
  }

  lemma {:induction false} QuietRun(s: Session, es: seq<Event>)
    requires IsRun(s, es) && forall e :: e in es ==> e.Fetch?
    ensures Final(s, es).ids == s.ids && Final(s, es).used == s.used && Final(s, es).steady == s.steady
    decreases |es|
  {
    if es != [] {
      assert es[0] in es && forall e :: e in es[1..] ==> e in es;
      QuietRun(Step(s, es[0]), es[1..]);
    }
  }

  /** A list of all the items in their own order is the list. */
  lemma AllInOrder(ids: seq<string>, got: seq<string>)
    requires Distinct(ids) && Distinct(got) && forall id :: id in ids <==> id in got
    requires forall i, j :: 0 <= i < j < |got| ==> IndexOf(ids, got[i]) < IndexOf(ids, got[j])
    ensures got == ids
  {
    SetSize(ids, set id | id in ids);
    SetSize(got, set id | id in ids);
    forall k | 0 <= k < |got| ensures got[k] == ids[k] {
      AtLeastPlace(ids, got, k);
      AtMostPlace(ids, got, k);
      assert got[k] in ids;
    }
  }

  lemma {:induction false} AtLeastPlace(ids: seq<string>, got: seq<string>, k: nat)
    requires k < |got| && forall i, j :: 0 <= i < j < |got| ==> IndexOf(ids, got[i]) < IndexOf(ids, got[j])
    ensures IndexOf(ids, got[k]) >= k
  {
    if k > 0 {
      AtLeastPlace(ids, got, k - 1);
    }
  }

  lemma {:induction false} AtMostPlace(ids: seq<string>, got: seq<string>, k: nat)
    requires k < |got| == |ids| && forall id :: id in got ==> id in ids
    requires forall i, j :: 0 <= i < j < |got| ==> IndexOf(ids, got[i]) < IndexOf(ids, got[j])
    ensures IndexOf(ids, got[k]) <= k
    decreases |got| - k
  {
    assert got[k] in ids && IndexOf(ids, got[k]) < |ids|;
    if k + 1 < |got| {
      AtMostPlace(ids, got, k + 1);
    }
  }

  /** While nothing is inserted or removed, the pages put together are the list. */
  lemma QuietPagesAreTheList(ids: seq<string>, es: seq<Event>)
    requires Distinct(ids) && "" !in ids
    requires IsRun(Begin(ids), es) && Final(Begin(ids), es).done && forall e :: e in es ==> e.Fetch?
    ensures Final(Begin(ids), es).got == ids
  {
    RunKeepsInv(Begin(ids), es);
    QuietRun(Begin(ids), es);
    AllInOrder(ids, Final(Begin(ids), es).got);
  }

  lemma {:induction false} UsedGrowsByInserts(s: Session, es: seq<Event>)
    requires IsRun(s, es)
    ensures |Final(s, es).used| <= |s.used| + Inserts(es)
    decreases |es|
  {
    if es != [] {
      UsedGrowsByInserts(Step(s, es[0]), es[1..]);
    }
  }

  lemma {:induction false} InitialSize(ids: seq<string>)
    ensures |set id | id in ids| <= |ids|
  {
    if ids != [] {
      InitialSize(ids[1..]);
      assert (set id | id in ids) == {ids[0]} + (set id | id in ids[1..]);
    }
  }

  /** Following the cursor takes at most one request more than there ever were items. */
  lemma {:induction false} FollowingCursorsTerminates(ids: seq<string>, es: seq<Event>)
    requires Distinct(ids) && "" !in ids
    requires IsRun(Begin(ids), es)
    ensures Final(Begin(ids), es).fetches <= |ids| + Inserts(es) + 1
  {
    var end := Final(Begin(ids), es);
    RunKeepsInv(Begin(ids), es);
    UsedGrowsByInserts(Begin(ids), es);
    InitialSize(ids);
    DistinctFits(end.got, end.used);
  }

  /**
   Removing the item under the cursor is the one edit that breaks this: the scan
   falls back to the beginning exactly when the cursor is no longer listed.
   */
  lemma RestartsExactlyWhenCursorIsGone(ids: seq<string>, cursor: string, maxItems: int)
    requires ids != [] && cursor != "" && Distinct(ids)
    ensures PageAfter(ids, cursor, maxItems) == PageAfter(ids, "", maxItems) <==> cursor !in ids
  {
    if cursor in ids {
      var start := IndexOf(ids, cursor) + 1;
      var first, next := PageAfter(ids, "", maxItems), PageAfter(ids, cursor, maxItems);
      assert first.items != [] && first.items[0] == ids[0];
      if next.items != [] {
        assert next.items[0] == ids[start];
      }
    }
  }

  /** So a client whose cursor is removed gets what it had before once more. */
  lemma RemovedCursorExample()
    ensures PageAfter(["a", "b", "c"], "", 2) == Page(["a", "b"], Some("b"))
    ensures PageAfter(Without(["a", "b", "c"], "b"), "b", 2) == Page(["a", "c"], None)
  {
    var ids := ["a", "b", "c"];
    assert ids[0..2] == ["a", "b"];
    assert IndexOf(ids, "b") == 1 by {
      assert ids[0] == "a" && ids[1] == "b";
    }
    assert Without(ids, "b") == ["a", "c"];
    assert ["a", "c"][0..] == ["a", "c"];
  }
}
