/** The admin dashboard's reductions of the event store (`admin_dashboard`,
    app.py): the event counts, the twenty most recent meaningful events,
    and the click counts per element type. */
module Dashboard {
  import opened Wrappers
  import opened Seqs
  import opened Events

  /** Count of every event in the store. */
  function TotalEvents(store: seq<Event>): nat { |store| }

  /** Count of the meaningful events: the store less the telemetry noise. */
  function MeaningfulCount(store: seq<Event>): (n: nat)
    ensures n <= TotalEvents(store)
    ensures n == |Filter(store, IsMeaningful)|
    ensures n + CountIf(store, e => !IsMeaningful(e)) == TotalEvents(store)
  {
    CountIsFilterLength(store, IsMeaningful);
    CountIfComplement(store, IsMeaningful, e => !IsMeaningful(e));
    CountIf(store, IsMeaningful)
  }

  /** The number of recent events the dashboard lists. */
  const RecentLimit: nat := 20

  /** The recent-events list: the first twenty of the meaningful events,
      newest first. */
  function RecentEvents(store: seq<Event>): (r: seq<Event>)
    ensures |r| == Min(RecentLimit, MeaningfulCount(store))
    ensures forall i :: 0 <= i < |r| ==> IsMeaningful(r[i]) && r[i] in store
    ensures SortedDesc(r, Timestamp)
    ensures r <= NewestMeaningful(store)
  {
    var s := NewestMeaningful(store);
    var r := Take(s, RecentLimit);
    PrefixOfListing(store, s, r);
    r
  }

  /** A prefix of a newest-first listing of meaningful stored events is
      one too. */
  lemma PrefixOfListing(store: seq<Event>, s: seq<Event>, r: seq<Event>)
    requires r <= s && SortedDesc(s, Timestamp)
    requires forall i :: 0 <= i < |s| ==> s[i] in store && IsMeaningful(s[i])
    ensures forall i :: 0 <= i < |r| ==> IsMeaningful(r[i]) && r[i] in store
    ensures SortedDesc(r, Timestamp)
  {
    assert forall i :: 0 <= i < |r| ==> r[i] == s[i];
  }

  /** Nothing newer is left out: a meaningful event missing from the list
      means the list is full and the event is no newer than its last entry. */
  lemma RecentIsNewest(store: seq<Event>, e: Event)
    requires e in store && IsMeaningful(e)
    requires e !in RecentEvents(store)
    ensures |RecentEvents(store)| == RecentLimit
    ensures Timestamp(e) <= Timestamp(RecentEvents(store)[RecentLimit - 1])
  {
    var s := NewestMeaningful(store);
    var r := Take(s, RecentLimit);
    var j :| 0 <= j < |s| && s[j] == e;
    assert |r| == RecentLimit;
    assert r[RecentLimit - 1] == s[RecentLimit - 1];
  }

  // ---------------------------------------------------------------------
  // Click analytics
  // ---------------------------------------------------------------------

  predicate IsClick(e: Event) { e.eventType == "click" }

  /** One row of the click analytics: `(event_type, element_type, count)`. */
  datatype ClickGroup = ClickGroup(eventType: string, elementType: Option<string>, count: nat)

  /** The element types of the click events, in store order. */
  function ClickTypes(store: seq<Event>): (ts: seq<Option<string>>)
    ensures |ts| == CountIf(store, IsClick)
  {
    if |store| == 0 then []
    else (if IsClick(store[0]) then [store[0].elementType] else []) + ClickTypes(store[1..])
  }

  /** Each element type occurs among the click types as often as there are
      click events of that element type. */
  lemma {:induction false} ClickTypesCount(store: seq<Event>, t: Option<string>)
    ensures multiset(ClickTypes(store))[t] == CountIf(store, e => IsClick(e) && e.elementType == t)
  {
    if |store| > 0 {
      ClickTypesCount(store[1..], t);
      var head: seq<Option<string>> := if IsClick(store[0]) then [store[0].elementType] else [];
      assert ClickTypes(store) == head + ClickTypes(store[1..]);
      assert multiset(ClickTypes(store)) == multiset(head) + multiset(ClickTypes(store[1..]));
    }
  }

  /** `GROUP BY element_type … ORDER BY count DESC` over the click events,
      as (element type, count) pairs: one group per element type that
      occurs (an absent type is a group of its own), counts summing to the
      number of clicks, largest count first. */
  function ClickGroups(store: seq<Event>): (g: seq<(Option<string>, nat)>)
    ensures IsTally(g, ClickTypes(store))
    ensures SortedDesc(g, CountOf)
    ensures SumBy(g, CountNat) == CountIf(store, IsClick)
  {
    var ks := ClickTypes(store);
    var t := Tally(ks);
    SortKeepsTally(t, ks);
    SumBySortDesc(t, CountOf, CountNat);
    SortDesc(t, CountOf)
  }

  /** The click analytics rows the dashboard shows. */
  function ClickAnalytics(store: seq<Event>): (r: seq<ClickGroup>)
    ensures |r| == |ClickGroups(store)|
    ensures forall i :: 0 <= i < |r| ==>
      && r[i].eventType == "click"
      && r[i].elementType == ClickGroups(store)[i].0
      && r[i].count == ClickGroups(store)[i].1
    ensures forall i, j :: 0 <= i < j < |r| ==> r[i].count >= r[j].count
  {
    var g := ClickGroups(store);
    seq(|g|, i requires 0 <= i < |g| => ClickGroup("click", g[i].0, g[i].1))
  }

  /** Every element type seen on a click has exactly one row, whose count
      is the number of clicks on elements of that type. */
  lemma ClickRowFor(store: seq<Event>, e: Event) returns (i: nat)
    requires e in store && IsClick(e)
    ensures i < |ClickAnalytics(store)|
    ensures ClickAnalytics(store)[i].elementType == e.elementType
    ensures ClickAnalytics(store)[i].count == CountIf(store, x => IsClick(x) && x.elementType == e.elementType)
    ensures forall j :: 0 <= j < |ClickAnalytics(store)| && j != i ==> ClickAnalytics(store)[j].elementType != e.elementType
  {
    var ks := ClickTypes(store);
    ClickTypeIn(store, e);
    i := TallyGroupFor(ClickGroups(store), ks, e.elementType);
    ClickTypesCount(store, e.elementType);
  }

  lemma {:induction false} ClickTypeIn(store: seq<Event>, e: Event)
    requires e in store && IsClick(e)
    ensures e.elementType in ClickTypes(store)
  {
    if store[0] != e {
      ClickTypeIn(store[1..], e);
    }
  }

  /** No clicks, no rows; in particular an empty store has none. */
  lemma NoClicksNoRows(store: seq<Event>)
    ensures |ClickAnalytics(store)| == 0 <==> CountIf(store, IsClick) == 0
  {
    var g := ClickGroups(store);
    if |g| > 0 {
      assert HasGroup(g, g[0].0);
      assert g[0].0 in ClickTypes(store);
    }
  }
}
