/**
 * The verification-history view: fifteen generated entries persisted on the
 * first visit, then a status filter and a timestamp sort whose direction the
 * user toggles.
 */
module HistoryPage {
  import opened Common
  import opened Storage
  import DocumentsPage

  const EntryCount: nat := 15
  const Statuses: seq<Status> := [Verified, Rejected, Pending]

  /**
   * What one iteration of the generator reads, in call order: two
   * Math.random() draws, its own `new Date()` clock reading, and two more draws.
   */
  datatype Draw = Draw(typeDraw: real, statusDraw: real, clock: Millis, daysDraw: real, nameDraw: real)

  predicate IsRandom(r: real)
  {
    0.0 <= r < 1.0
  }

  predicate ValidDraw(d: Draw)
  {
    IsRandom(d.typeDraw) && IsRandom(d.statusDraw) && IsRandom(d.daysDraw) && IsRandom(d.nameDraw)
  }

  /** Math.floor(r * n) for a draw r of Math.random(). */
  function Pick(r: real, n: nat): (k: int)
    requires IsRandom(r) && n > 0
    ensures 0 <= k < n
  {
    assert r * n as real < n as real by {
      assert (1.0 - r) * n as real > 0.0;
    }
    (r * n as real).Floor
  }

  /**
   * Entry number `i` (counting from 0) of the generator, before sorting: well
   * formed for its own clock reading, and numbered after its iteration.
   */
  function MakeEntry(i: nat, d: Draw): (e: HistoryEntry)
    requires ValidDraw(d)
    ensures WellFormedGenerated(e, d.clock, d.clock)
    ensures e.id == "hist-" + NatToString(i + 1)
    ensures e.documentId == "doc-" + NatToString(i + 1)
  {
    var docType := DocumentsPage.KnownTypeCodes[Pick(d.typeDraw, 4)];
    var status := Statuses[Pick(d.statusDraw, 3)];
    var daysBack := Pick(d.daysDraw, 60);
    var n := Pick(d.nameDraw, 10000);
    assert DaysLater(d.clock - daysBack * MillisPerDay, daysBack) == d.clock;
    HistoryEntry(
      "hist-" + NatToString(i + 1),
      "doc-" + NatToString(i + 1),
      docType,
      d.clock - daysBack * MillisPerDay,
      status,
      DocumentsPage.TypeName(docType) + "_" + NatToString(n) + ".pdf")
  }

  predicate ValidDraws(draws: seq<Draw>)
  {
    |draws| == EntryCount && forall i :: 0 <= i < |draws| ==> ValidDraw(draws[i])
  }

  /** The entries in the order the loop pushes them. */
  function Unsorted(draws: seq<Draw>): (u: seq<HistoryEntry>)
    requires ValidDraws(draws)
    ensures |u| == EntryCount
    ensures forall i :: 0 <= i < EntryCount ==> u[i] == MakeEntry(i, draws[i])
  {
    seq(EntryCount, i requires 0 <= i < EntryCount => MakeEntry(i, draws[i]))
  }

  function DateKey(e: HistoryEntry): int
  {
    e.verificationDate
  }

  function NegDateKey(e: HistoryEntry): int
  {
    -e.verificationDate
  }

  /** generateMockHistory: the loop that pushes fifteen entries, then the newest-first sort. */
  method GenerateMockHistory(draws: seq<Draw>) returns (history: seq<HistoryEntry>)
    requires ValidDraws(draws)
    ensures history == Generated(draws)
  {
    var mockHistory: seq<HistoryEntry> := [];
    ghost var target := Unsorted(draws);
    for i := 0 to EntryCount
      invariant mockHistory == target[..i]
    {
      var entry := MakeEntry(i, draws[i]);
      PushNext(target, i, entry);
      mockHistory := mockHistory + [entry];
    }
    assert mockHistory == target by {
      assert |target| == EntryCount;
    }
    history := SortByKey(mockHistory, NegDateKey);
  }

  /** Pushing the next element of `target` onto its first `i` elements gives the first `i + 1`. */
  lemma PushNext<T>(target: seq<T>, i: nat, x: T)
    requires i < |target| && x == target[i]
    ensures target[..i] + [x] == target[..i + 1]
  {
  }

  /** A date moved `k` whole days later. */
  function DaysLater(date: Millis, k: int): Millis
  {
    date + k * MillisPerDay
  }

  /**
   * A generated entry whose clock was read between `lo` and `hi`: its fields
   * as the generator draws them, dated 0 to 59 whole days before that clock.
   */
  ghost predicate WellFormedGenerated(e: HistoryEntry, lo: Millis, hi: Millis)
  {
    && e.documentType in DocumentsPage.KnownTypeCodes
    && e.status in Statuses
    && (exists k :: 0 <= k < 60 && lo <= DaysLater(e.verificationDate, k) <= hi)
    && exists n :: 0 <= n < 10000 &&
         e.documentName == DocumentsPage.TypeName(e.documentType) + "_" + NatToString(n) + ".pdf"
  }

  /** A wider clock window keeps an entry well formed. */
  lemma WidenWindow(e: HistoryEntry, a: Millis, b: Millis, lo: Millis, hi: Millis)
    requires lo <= a && b <= hi && WellFormedGenerated(e, a, b)
    ensures WellFormedGenerated(e, lo, hi)
  {
    var k :| 0 <= k < 60 && a <= DaysLater(e.verificationDate, k) <= b;
    assert lo <= DaysLater(e.verificationDate, k) <= hi;
  }

  /**
   * The list generateMockHistory returns and the view stores: the fifteen
   * pushed entries rearranged, none dropped or invented, newest first.
   */
  function Generated(draws: seq<Draw>): (h: seq<HistoryEntry>)
    requires ValidDraws(draws)
    ensures |h| == EntryCount
    ensures multiset(h) == multiset(Unsorted(draws))
    ensures forall i :: 0 <= i < EntryCount ==> exists k :: 0 <= k < EntryCount && h[i] == Unsorted(draws)[k]
    ensures forall i, j :: 0 <= i < j < |h| ==> h[i].verificationDate >= h[j].verificationDate
  {
    var u := Unsorted(draws);
    var h := SortByKey(u, NegDateKey);
    NewestFirstSort(u);
    PermutedFrom(u, h);
    h
  }

  /** Every element of a rearrangement of `u` is some element of `u`. */
  lemma PermutedFrom(u: seq<HistoryEntry>, h: seq<HistoryEntry>)
    requires multiset(h) == multiset(u)
    ensures |h| == |u|
    ensures forall i :: 0 <= i < |h| ==> exists k :: 0 <= k < |u| && h[i] == u[k]
  {
    assert |h| == |multiset(h)| == |multiset(u)| == |u|;
    forall i | 0 <= i < |h| ensures exists k :: 0 <= k < |u| && h[i] == u[k] {
      assert h[i] in multiset(u);
    }
  }

  /** Sorting by the negated date is a permutation that puts the newest entry first. */
  lemma NewestFirstSort(u: seq<HistoryEntry>)
    ensures multiset(SortByKey(u, NegDateKey)) == multiset(u)
    ensures var h := SortByKey(u, NegDateKey);
      forall i, j :: 0 <= i < j < |h| ==> h[i].verificationDate >= h[j].verificationDate
  {
    var h := SortByKey(u, NegDateKey);
    SortByKeyCorrect(u, NegDateKey);
    forall i, j | 0 <= i < j < |h| ensures h[i].verificationDate >= h[j].verificationDate {
      assert NegDateKey(h[i]) <= NegDateKey(h[j]);
    }
  }

  /** A well-formed entry is dated at most 59 days before its window and not after it. */
  lemma WindowBoundsDate(e: HistoryEntry, lo: Millis, hi: Millis)
    requires WellFormedGenerated(e, lo, hi)
    ensures lo - 59 * MillisPerDay <= e.verificationDate <= hi
  {
    var k :| 0 <= k < 60 && lo <= DaysLater(e.verificationDate, k) <= hi;
    assert 0 <= k * MillisPerDay <= 59 * MillisPerDay;
  }

  /**
   * Every generated entry has a known type, a status, a name of the drawn
   * form, and a date 0 to 59 whole days before a clock reading of the loop:
   * within [lo - 59 days, hi] when every iteration read its clock in [lo, hi].
   */
  lemma GeneratedWellFormed(draws: seq<Draw>, lo: Millis, hi: Millis)
    requires ValidDraws(draws)
    requires forall i :: 0 <= i < |draws| ==> lo <= draws[i].clock <= hi
    ensures forall i :: 0 <= i < |Generated(draws)| ==> WellFormedGenerated(Generated(draws)[i], lo, hi)
    ensures forall i :: 0 <= i < |Generated(draws)| ==>
              lo - 59 * MillisPerDay <= Generated(draws)[i].verificationDate <= hi
  {
    var u := Unsorted(draws);
    var h := Generated(draws);
    forall i | 0 <= i < |h|
      ensures WellFormedGenerated(h[i], lo, hi)
      ensures lo - 59 * MillisPerDay <= h[i].verificationDate <= hi
    {
      var k :| 0 <= k < EntryCount && h[i] == u[k];
      WidenWindow(h[i], draws[k].clock, draws[k].clock, lo, hi);
      WindowBoundsDate(h[i], lo, hi);
    }
  }

  /** For each k in 1..15 some generated entry is hist-k for doc-k. */
  lemma GeneratedIdsPresent(draws: seq<Draw>)
    requires ValidDraws(draws)
    ensures var h := Generated(draws);
      forall k :: 1 <= k <= EntryCount ==>
        exists i :: 0 <= i < |h| && h[i].id == "hist-" + NatToString(k) &&
                                    h[i].documentId == "doc-" + NatToString(k)
  {
    var u := Unsorted(draws);
    var h := Generated(draws);
    forall k | 1 <= k <= EntryCount
      ensures exists i :: 0 <= i < |h| && h[i].id == "hist-" + NatToString(k) &&
                                          h[i].documentId == "doc-" + NatToString(k)
    {
      assert u[k - 1] in multiset(h);
      var i :| 0 <= i < |h| && h[i] == u[k - 1];
    }
  }

  /** No two generated entries share an id. */
  lemma GeneratedIdsDistinct(draws: seq<Draw>)
    requires ValidDraws(draws)
    ensures var h := Generated(draws);
      forall i, j :: 0 <= i < j < |h| ==> h[i].id != h[j].id
  {
    UnsortedIdsDistinct(draws);
    PermutationKeepsDistinctIds(Unsorted(draws), Generated(draws));
  }

  /** A rearrangement of entries with pairwise-distinct ids has pairwise-distinct ids. */
  lemma PermutationKeepsDistinctIds(u: seq<HistoryEntry>, h: seq<HistoryEntry>)
    requires multiset(u) == multiset(h)
    requires forall a, b :: 0 <= a < b < |u| ==> u[a].id != u[b].id
    ensures forall i, j :: 0 <= i < j < |h| ==> h[i].id != h[j].id
  {
    PermutationKeepsDistinct(u, h);
    forall i, j | 0 <= i < j < |h| ensures h[i].id != h[j].id {
      assert h[i] in multiset(u);
      var a :| 0 <= a < |u| && h[i] == u[a];
      assert h[j] in multiset(u);
      var b :| 0 <= b < |u| && h[j] == u[b];
      assert h[i] != h[j];
      DistinctIdsAt(u, a, b);
    }
  }

  /** Two different positions of a sequence with pairwise-distinct ids hold different ids. */
  lemma DistinctIdsAt(u: seq<HistoryEntry>, a: int, b: int)
    requires 0 <= a < |u| && 0 <= b < |u| && a != b
    requires forall x, y :: 0 <= x < y < |u| ==> u[x].id != u[y].id
    ensures u[a].id != u[b].id
  {
    if a > b {
      assert u[b].id != u[a].id;
    }
  }

  /** The pushed entries carry the ids hist-1..hist-15, which differ pairwise. */
  lemma UnsortedIdsDistinct(draws: seq<Draw>)
    requires ValidDraws(draws)
    ensures var u := Unsorted(draws);
      forall a, b :: 0 <= a < b < |u| ==> u[a].id != u[b].id
  {
    var u := Unsorted(draws);
    forall a, b | 0 <= a < b < |u| ensures u[a].id != u[b].id {
      assert u[a].id == "hist-" + NatToString(a + 1) by {
        assert u[a] == MakeEntry(a, draws[a]);
      }
      assert u[b].id == "hist-" + NatToString(b + 1) by {
        assert u[b] == MakeEntry(b, draws[b]);
      }
      PrefixedRenderingInjective("hist-", a + 1, b + 1);
    }
  }

  /** A rearrangement of pairwise-distinct values is pairwise distinct. */
  lemma PermutationKeepsDistinct<T>(u: seq<T>, h: seq<T>)
    requires multiset(u) == multiset(h)
    requires forall a, b :: 0 <= a < b < |u| ==> u[a] != u[b]
    ensures forall i, j :: 0 <= i < j < |h| ==> h[i] != h[j]
  {
    forall i, j | 0 <= i < j < |h| ensures h[i] != h[j] {
      if h[i] == h[j] {
        DistinctPositionsCount(h, i, j);
        assert h[i] in multiset(u);
        var a :| 0 <= a < |u| && u[a] == h[i];
        OccursOnce(u, a);
        assert false;
      }
    }
  }

  /** A value at two positions of a sequence occurs there at least twice. */
  lemma DistinctPositionsCount<T>(s: seq<T>, i: nat, j: nat)
    requires i < j < |s| && s[i] == s[j]
    ensures multiset(s)[s[i]] >= 2
  {
    assert s == s[..i] + [s[i]] + s[i + 1..j] + [s[j]] + s[j + 1..];
  }

  /** In a sequence of pairwise-distinct values each occurs once. */
  lemma OccursOnce<T>(u: seq<T>, a: nat)
    requires a < |u| && forall x, y :: 0 <= x < y < |u| ==> u[x] != u[y]
    ensures multiset(u)[u[a]] == 1
  {
    assert u == u[..a] + [u[a]] + u[a + 1..];
    assert u[a] !in u[..a];
    assert u[a] !in u[a + 1..];
  }

  // ---------------------------------------------------------------------------
  // Filter and sort
  // ---------------------------------------------------------------------------

  /** "all", or one of the three statuses. */
  datatype StatusFilter = All | Only(status: Status)

  datatype SortDirection = Asc | Desc

  function Toggle(d: SortDirection): (r: SortDirection)
    ensures r != d
  {
    if d == Desc then Asc else Desc
  }

  /** Toggling twice restores the direction. */
  lemma ToggleTwice(d: SortDirection)
    ensures Toggle(Toggle(d)) == d
  {
  }

  predicate Keeps(f: StatusFilter, e: HistoryEntry)
  {
    f.All? || e.status == f.status
  }

  /**
   * The status filter: "all" keeps every entry; any other filter keeps
   * exactly the entries with that status, as often as they occur and in
   * their stored order; so the count shown never exceeds the total.
   */
  function FilterHistory(entries: seq<HistoryEntry>, f: StatusFilter): (r: seq<HistoryEntry>)
    ensures f.All? ==> r == entries
    ensures f.Only? ==> forall e :: e in r <==> e in entries && e.status == f.status
    ensures IsSubsequence(r, entries)
    ensures |r| <= |entries|
    ensures forall x :: multiset(r)[x] == if Keeps(f, x) then multiset(entries)[x] else 0
  {
    FilterMultiplicity(e => Keeps(f, e), entries);
    FilterIsSubsequence(e => Keeps(f, e), entries);
    var r := Filter(e => Keeps(f, e), entries);
    assert f.All? ==> r == entries by {
      if f.All? {
        FilterKeepsAll(e => Keeps(f, e), entries);
      }
    }
    r
  }

  function DirectionKey(dir: SortDirection): HistoryEntry -> int
  {
    if dir == Desc then NegDateKey else DateKey
  }

  /**
   * filteredHistory: the filtered copy sorted by date in the chosen
   * direction. It is a permutation of the filtered entries, ordered by date,
   * and entries with equal dates keep their stored relative order.
   */
  function Displayed(entries: seq<HistoryEntry>, f: StatusFilter, dir: SortDirection): (shown: seq<HistoryEntry>)
    ensures multiset(shown) == multiset(FilterHistory(entries, f))
    ensures dir == Desc ==> forall i, j :: 0 <= i < j < |shown| ==> shown[i].verificationDate >= shown[j].verificationDate
    ensures dir == Asc ==> forall i, j :: 0 <= i < j < |shown| ==> shown[i].verificationDate <= shown[j].verificationDate
    ensures forall t :: Filter(HasKey(DateKey, t), shown) == Filter(HasKey(DateKey, t), FilterHistory(entries, f))
  {
    var kept := FilterHistory(entries, f);
    var shown := SortByKey(kept, DirectionKey(dir));
    SortByKeyCorrect(kept, DirectionKey(dir));
    DisplayedOrder(shown, dir);
    DisplayedStable(kept, shown, dir);
    shown
  }

  lemma DisplayedOrder(shown: seq<HistoryEntry>, dir: SortDirection)
    requires SortedBy(shown, DirectionKey(dir))
    ensures dir == Desc ==> forall i, j :: 0 <= i < j < |shown| ==> shown[i].verificationDate >= shown[j].verificationDate
    ensures dir == Asc ==> forall i, j :: 0 <= i < j < |shown| ==> shown[i].verificationDate <= shown[j].verificationDate
  {
    var key := DirectionKey(dir);
    forall i, j | 0 <= i < j < |shown|
      ensures dir == Desc ==> shown[i].verificationDate >= shown[j].verificationDate
      ensures dir == Asc ==> shown[i].verificationDate <= shown[j].verificationDate
    {
      assert key(shown[i]) <= key(shown[j]);
    }
  }

  lemma DisplayedStable(kept: seq<HistoryEntry>, shown: seq<HistoryEntry>, dir: SortDirection)
    requires forall k :: Filter(HasKey(DirectionKey(dir), k), shown) == Filter(HasKey(DirectionKey(dir), k), kept)
    ensures forall t :: Filter(HasKey(DateKey, t), shown) == Filter(HasKey(DateKey, t), kept)
  {
    var key := DirectionKey(dir);
    forall t ensures Filter(HasKey(DateKey, t), shown) == Filter(HasKey(DateKey, t), kept) {
      var k := if dir == Desc then -t else t;
      assert Filter(HasKey(key, k), shown) == Filter(HasKey(key, k), kept);
      SameKeyClass(dir, t, shown);
      SameKeyClass(dir, t, kept);
      FilterAgreeing(HasKey(key, k), HasKey(DateKey, t), shown);
      FilterAgreeing(HasKey(key, k), HasKey(DateKey, t), kept);
    }
  }

  /** Having date t is having direction key t (ascending) or -t (descending). */
  lemma SameKeyClass(dir: SortDirection, t: int, s: seq<HistoryEntry>)
    ensures var k := if dir == Desc then -t else t;
      forall i :: 0 <= i < |s| ==> HasKey(DirectionKey(dir), k)(s[i]) == HasKey(DateKey, t)(s[i])
  {
    var k := if dir == Desc then -t else t;
    forall i | 0 <= i < |s| ensures HasKey(DirectionKey(dir), k)(s[i]) == HasKey(DateKey, t)(s[i]) {
      assert HasKey(DateKey, t)(s[i]) == (DateKey(s[i]) == t);
      if dir == Desc {
        assert DirectionKey(dir) == NegDateKey;
        assert HasKey(NegDateKey, k)(s[i]) == (NegDateKey(s[i]) == k);
      } else {
        assert DirectionKey(dir) == DateKey;
      }
    }
  }

  /**
   * Three entries dated D1 < D2 < D3 with statuses verified, rejected,
   * verified: the verified filter sorted newest first shows the third, then
   * the first.
   */
  lemma FilterSortScenario(e1: HistoryEntry, e2: HistoryEntry, e3: HistoryEntry)
    requires e1.verificationDate < e2.verificationDate < e3.verificationDate
    requires e1.status == Verified && e2.status == Rejected && e3.status == Verified
    ensures Displayed([e1, e2, e3], Only(Verified), Desc) == [e3, e1]
  {
    VerifiedOfThree(e1, e2, e3);
    assert [e1, e3][1..] == [e3];
    assert SortByKey([e3], NegDateKey) == [e3];
    assert Insert(e1, [e3], NegDateKey) == [e3, e1];
  }

  /** The verified filter on verified, rejected, verified keeps the first and the third. */
  lemma VerifiedOfThree(e1: HistoryEntry, e2: HistoryEntry, e3: HistoryEntry)
    requires e1.status == Verified && e2.status == Rejected && e3.status == Verified
    ensures FilterHistory([e1, e2, e3], Only(Verified)) == [e1, e3]
  {
    var p := (e: HistoryEntry) => Keeps(Only(Verified), e);
    var s := [e1, e2, e3];
    assert s[1..] == [e2, e3] && [e2, e3][1..] == [e3] && [e3][1..] == [];
    assert Filter(p, [e3]) == [e3];
    assert Filter(p, [e2, e3]) == [e3];
    assert Filter(p, s) == [e1, e3];
  }

  /** What loading the view does when the `verificationHistory` key is absent or present. */
  function LoadHistory(items: map<string, StoredValue>, draws: seq<Draw>)
    : (r: (seq<HistoryEntry>, map<string, StoredValue>))
    requires WellTyped(items) && ValidDraws(draws)
    ensures WellTyped(r.1)
    ensures HistoryKey in r.1 && r.1[HistoryKey] == HistoryList(r.0)
    ensures forall k :: k in items && k != HistoryKey ==> k in r.1 && r.1[k] == items[k]
    ensures HistoryKey in items ==> r == (items[HistoryKey].entries, items)
    ensures HistoryKey !in items ==> r.0 == Generated(draws) && r.1.Keys == items.Keys + {HistoryKey}
  {
    if HistoryKey in items then (items[HistoryKey].entries, items)
    else
      var generated := Generated(draws);
      (generated, items[HistoryKey := HistoryList(generated)])
  }

  /** Later loads never regenerate: whatever the clock and the draws, the first result stays. */
  lemma LoadHistoryIdempotent(items: map<string, StoredValue>, draws1: seq<Draw>, draws2: seq<Draw>)
    requires WellTyped(items) && ValidDraws(draws1) && ValidDraws(draws2)
    ensures LoadHistory(LoadHistory(items, draws1).1, draws2) == LoadHistory(items, draws1)
  {
  }

  class HistoryView {
    var history: seq<HistoryEntry>
    var isLoading: bool
    var filterStatus: StatusFilter
    var sortDirection: SortDirection

    constructor ()
      ensures history == [] && isLoading && filterStatus == All && sortDirection == Desc
    {
      history, isLoading, filterStatus, sortDirection := [], true, All, Desc;
    }

    /** fetchHistory */
    method FetchHistory(store: LocalStorage, draws: seq<Draw>)
      requires store.Valid() && ValidDraws(draws)
      modifies this, store
      ensures store.Valid()
      ensures (history, store.items) == LoadHistory(old(store.items), draws)
      ensures !isLoading && filterStatus == old(filterStatus) && sortDirection == old(sortDirection)
    {
      isLoading := true;
      if HistoryKey in store.items {
        history := store.items[HistoryKey].entries;
      } else {
        var mockHistory := GenerateMockHistory(draws);
        store.SetItem(HistoryKey, HistoryList(mockHistory));
        history := mockHistory;
      }
      isLoading := false;
    }

    method SetFilterStatus(f: StatusFilter)
      modifies this
      ensures filterStatus == f && history == old(history) && sortDirection == old(sortDirection)
      ensures isLoading == old(isLoading)
    {
      filterStatus := f;
    }

    method ToggleSortDirection()
      modifies this
      ensures sortDirection == Toggle(old(sortDirection))
      ensures history == old(history) && filterStatus == old(filterStatus) && isLoading == old(isLoading)
    {
      sortDirection := Toggle(sortDirection);
    }

    /** filteredHistory: a sorted copy; `history` itself keeps its order. */
    function FilteredHistory(): seq<HistoryEntry>
      reads this
    {
      Displayed(history, filterStatus, sortDirection)
    }
  }
}
