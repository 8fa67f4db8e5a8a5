/**
 Price ranges and daily rows of a commodity tariff,
 packages/dashboard/src/util/commodity-tariff.ts:246-361. Days are laid end to end on one
 axis of minutes; a day that uses the 25th hour is 1500 minutes long.
 */
module Tariff {
  import opened Wrappers
  import opened Numerals
  import opened Joined
  import StableSort

  const MINUTES_PER_DAY := 1440
  const MAX_DAY_MINUTES := 1500

  datatype DayEntry = DayEntry(id: int, start: int, duration: Option<int>)

  /** A tariff period, reduced to the entries it lists; its index is its place in the list of periods. */
  type Period = seq<int>

  datatype Slot = Slot(entryId: int, start: int, periodKey: Option<string>)

  datatype Row = Row(entryId: int, start: int, end: int)

  // ----- The entries of a day -----

  /** The first entry with the id. */
  function Find(id: int, entries: seq<DayEntry>): (r: Option<DayEntry>)
    ensures r.Some? <==> exists i :: 0 <= i < |entries| && entries[i].id == id
    ensures r.Some? ==> exists i :: 0 <= i < |entries| && entries[i] == r.value && FirstWithId(id, entries, i)
  {
    if entries == [] then None
    else if entries[0].id == id then
      assert FirstWithId(id, entries, 0);
      Some(entries[0])
    else
      var r := Find(id, entries[1..]);
      assert r.Some? ==> exists i :: 0 <= i < |entries| && entries[i] == r.value && FirstWithId(id, entries, i) by {
        if r.Some? {
          var i :| 0 <= i < |entries[1..]| && entries[1..][i] == r.value && FirstWithId(id, entries[1..], i);
          assert FirstWithId(id, entries, i + 1);
        }
      }
      r
  }

  predicate FirstWithId(id: int, entries: seq<DayEntry>, i: nat)
    requires i < |entries|
  {
    entries[i].id == id && forall j :: 0 <= j < i ==> entries[j].id != id
  }

  /** The described entries of a day; None is a day the device does not report. */
  function Known(day: Option<seq<int>>, entries: seq<DayEntry>): seq<DayEntry>
    decreases if day.Some? then |day.value| else 0
  {
    if day.None? || day.value == [] then []
    else
      var rest := Known(Some(day.value[1..]), entries);
      var first := Find(day.value[0], entries);
      if first.Some? then [first.value] + rest else rest
  }

  /** A day's list is gone through id by id; an id without a description is dropped. */
  lemma {:induction false} KnownIdById(ids: seq<int>, id: int, entries: seq<DayEntry>)
    ensures Known(None, entries) == [] && Known(Some([]), entries) == []
    ensures Known(Some(ids + [id]), entries) ==
            Known(Some(ids), entries) + if Find(id, entries).Some? then [Find(id, entries).value] else []
    decreases |ids|
  {
    if ids == [] {
      assert [] + [id] == [id] && [id][1..] == [];
    } else {
      assert (ids + [id])[1..] == ids[1..] + [id];
      KnownIdById(ids[1..], id, entries);
    }
  }

  function Starts(entries: seq<DayEntry>): (starts: seq<int>)
    ensures |starts| == |entries| && forall i :: 0 <= i < |entries| ==> starts[i] == entries[i].start
  {
    seq(|entries|, i requires 0 <= i < |entries| => entries[i].start)
  }

  function Pick(known: seq<DayEntry>, order: seq<nat>): (r: seq<DayEntry>)
    requires forall a :: 0 <= a < |order| ==> order[a] < |known|
    ensures |r| == |order| && forall a :: 0 <= a < |order| ==> r[a] == known[order[a]]
  {
    if order == [] then [] else [known[order[0]]] + Pick(known, order[1..])
  }

  function OrderedDayEntries(day: Option<seq<int>>, entries: seq<DayEntry>): (r: seq<DayEntry>)
    ensures |r| == |Known(day, entries)|
  {
    var known := Known(day, entries);
    Pick(known, StableSort.InOrder(Starts(known)))
  }

  predicate ByStart(entries: seq<DayEntry>) {
    forall i, j :: 0 <= i < j < |entries| ==> entries[i].start <= entries[j].start
  }

  /** In time order, and the same entries as often as the day lists them. */
  lemma EntriesAreOrdered(day: Option<seq<int>>, entries: seq<DayEntry>)
    ensures var r := OrderedDayEntries(day, entries);
            ByStart(r) && multiset(r) == multiset(Known(day, entries))
  {
    hide Known;
    var known := Known(day, entries);
    var order, r := StableSort.InOrder(Starts(known)), OrderedDayEntries(day, entries);
    forall i, j | 0 <= i < j < |r|
      ensures r[i].start <= r[j].start
    {
      assert StableSort.Before(Starts(known), order[i], order[j]);
    }
    PickSorted(known, StableSort.UpTo(|known|));
    assert Pick(known, StableSort.UpTo(|known|)) == known;
  }

  /** Entries that start together stay in the order in which the day lists them. */
  lemma EntriesKeepOrder(day: Option<seq<int>>, entries: seq<DayEntry>) returns (order: seq<nat>)
    ensures var known, r := Known(day, entries), OrderedDayEntries(day, entries);
            && |order| == |r| == |known|
            && (forall k: nat :: k < |known| <==> k in order)
            && (forall i :: 0 <= i < |r| ==> order[i] < |known| && r[i] == known[order[i]])
            && (forall i, j :: 0 <= i < j < |r| ==>
                  r[i].start < r[j].start || (r[i].start == r[j].start && order[i] < order[j]))
  {
    hide Known;
    var known := Known(day, entries);
    order := StableSort.InOrder(Starts(known));
    forall i, j | 0 <= i < j < |order|
      ensures known[order[i]].start < known[order[j]].start
              || (known[order[i]].start == known[order[j]].start && order[i] < order[j])
    {
      assert StableSort.Before(Starts(known), order[i], order[j]);
    }
  }

  lemma {:induction false} PickSorted(known: seq<DayEntry>, listed: seq<nat>)
    requires StableSort.InRange(Starts(known), listed)
    ensures multiset(Pick(known, StableSort.Sorted(Starts(known), listed))) == multiset(Pick(known, listed))
  {
    if listed != [] {
      PickSorted(known, listed[1..]);
      PickInserted(known, listed[0], StableSort.Sorted(Starts(known), listed[1..]));
    }
  }

  lemma {:induction false} PickInserted(known: seq<DayEntry>, i: nat, order: seq<nat>)
    requires i < |known| && StableSort.InRange(Starts(known), order)
    ensures multiset(Pick(known, StableSort.Insert(Starts(known), i, order))) == multiset{known[i]} + multiset(Pick(known, order))
  {
    hide StableSort.Before, Starts, Pick;
    if order == [] {
      PickCons(known, i, order);
    } else if Starts(known)[i] <= Starts(known)[order[0]] {
      PickCons(known, i, order);
    } else {
      PickInserted(known, i, order[1..]);
      PickCons(known, order[0], StableSort.Insert(Starts(known), i, order[1..]));
      assert order == [order[0]] + order[1..];
      PickCons(known, order[0], order[1..]);
      Swap(known[i], known[order[0]], multiset(Pick(known, order[1..])));
    }
  }

  lemma Swap(e: DayEntry, f: DayEntry, rest: multiset<DayEntry>)
    ensures multiset{f} + (multiset{e} + rest) == multiset{e} + (multiset{f} + rest)
  {
  }

  lemma PickCons(known: seq<DayEntry>, i: nat, order: seq<nat>)
    requires i < |known| && forall a :: 0 <= a < |order| ==> order[a] < |known|
    ensures var longer := [i] + order;
            && (forall a :: 0 <= a < |longer| ==> longer[a] < |known|)
            && multiset(Pick(known, longer)) == multiset{known[i]} + multiset(Pick(known, order))
  {
    assert ([i] + order)[1..] == order;
  }

  function DaySpanMinutes(entries: seq<DayEntry>): int {
    if entries != [] && entries[|entries| - 1].start >= MINUTES_PER_DAY then MAX_DAY_MINUTES else MINUTES_PER_DAY
  }

  /** Whether a described entry of the day starts in its 25th hour. */
  predicate IsLong(day: Option<seq<int>>, entries: seq<DayEntry>) {
    exists e :: e in Known(day, entries) && e.start >= 1440
  }

  /** A day has 1440 minutes, or 1500 if it uses the 25th hour. */
  lemma DayLength(day: Option<seq<int>>, entries: seq<DayEntry>)
    ensures DaySpanMinutes(OrderedDayEntries(day, entries)) == if IsLong(day, entries) then 1500 else 1440
  {
    hide Known, OrderedDayEntries;
    var known, r := Known(day, entries), OrderedDayEntries(day, entries);
    EntriesAreOrdered(day, entries);
    assert forall e :: e in known <==> e in multiset(r);
    if r != [] {
      assert r[|r| - 1] in multiset(r);
      forall e | e in r
        ensures e.start <= r[|r| - 1].start
      {
        var i :| 0 <= i < |r| && r[i] == e;
        assert i < |r| - 1 ==> r[i].start <= r[|r| - 1].start;
      }
    }
  }

  // ----- Periods -----

  function PeriodsOf(entryId: int, periods: seq<Period>): (listed: seq<nat>)
    ensures forall i: nat :: i in listed <==> i < |periods| && entryId in periods[i]
    ensures StableSort.Ascending(listed)
  {
    if periods == [] then []
    else
      var k := |periods| - 1;
      var before := PeriodsOf(entryId, periods[..k]);
      assert forall a :: 0 <= a < |before| ==> before[a] in before;
      if entryId in periods[k] then before + [k] else before
  }

  function JoinIndices(listed: seq<nat>): string
    requires listed != []
  {
    if |listed| == 1 then Decimal(listed[0]) else Decimal(listed[0]) + [','] + JoinIndices(listed[1..])
  }

  function PeriodKey(listed: seq<nat>): Option<string> {
    if listed == [] then None else Some(JoinIndices(listed))
  }

  lemma DecimalIsFree(n: nat)
    ensures Free(',', Decimal(n))
  {
    hide Decimal;
    assert forall i :: 0 <= i < |Decimal(n)| ==> IsDigit(Decimal(n)[i]);
  }

  lemma DecimalIsInjective(m: nat, n: nat)
    requires Decimal(m) == Decimal(n)
    ensures m == n
  {
    DecimalReadsBack(m);
    DecimalReadsBack(n);
  }

  lemma CommaAfterFirst(listed: seq<nat>)
    requires listed != []
    ensures Before(',', JoinIndices(listed)) == |Decimal(listed[0])| <= |JoinIndices(listed)|
    ensures |listed| == 1 <==> Before(',', JoinIndices(listed)) == |JoinIndices(listed)|
  {
    hide Decimal;
    DecimalIsFree(listed[0]);
    if |listed| == 1 {
      FreeHasNoJoint(',', Decimal(listed[0]));
    } else {
      BeforeJoint(',', Decimal(listed[0]), JoinIndices(listed[1..]));
    }
  }

  lemma {:induction false} JoinIndicesIsInjective(a: seq<nat>, b: seq<nat>)
    requires a != [] && b != [] && JoinIndices(a) == JoinIndices(b)
    ensures a == b
  {
    hide Decimal;
    CommaAfterFirst(a);
    CommaAfterFirst(b);
    if |a| == 1 {
      DecimalIsInjective(a[0], b[0]);
    } else {
      DecimalIsFree(a[0]);
      DecimalIsFree(b[0]);
      SplitAtJoint(',', Decimal(a[0]), JoinIndices(a[1..]), Decimal(b[0]), JoinIndices(b[1..]));
      DecimalIsInjective(a[0], b[0]);
      JoinIndicesIsInjective(a[1..], b[1..]);
      assert a == [a[0]] + a[1..] && b == [b[0]] + b[1..];
    }
  }

  /** Entries have the same key exactly when the same periods list them. */
  lemma PeriodKeyIsInjective(e: int, f: int, periods: seq<Period>)
    ensures PeriodKey(PeriodsOf(e, periods)) == PeriodKey(PeriodsOf(f, periods)) <==>
            forall p :: p in periods ==> (e in p <==> f in p)
  {
    hide JoinIndices;
    var a, b := PeriodsOf(e, periods), PeriodsOf(f, periods);
    if PeriodKey(a) == PeriodKey(b) {
      if a != [] && b != [] {
        JoinIndicesIsInjective(a, b);
      }
      forall p | p in periods
        ensures e in p <==> f in p
      {
        var i: nat :| i < |periods| && periods[i] == p;
        assert i in a <==> e in p;
        assert i in b <==> f in p;
      }
    }
    if forall p :: p in periods ==> (e in p <==> f in p) {
      SamePeriods(e, f, periods);
    }
  }

  lemma {:induction false} SamePeriods(e: int, f: int, periods: seq<Period>)
    requires forall p :: p in periods ==> (e in p <==> f in p)
    ensures PeriodsOf(e, periods) == PeriodsOf(f, periods)
  {
    if periods != [] {
      var k := |periods| - 1;
      assert periods[k] in periods;
      SamePeriods(e, f, periods[..k]);
    }
  }

  // ----- The timeline -----

  function SlotsOf(day: seq<DayEntry>, offset: int, periods: seq<Period>): (slots: seq<Slot>)
    ensures |slots| == |day|
  {
    seq(|day|, i requires 0 <= i < |day| =>
      Slot(day[i].id, day[i].start + offset, PeriodKey(PeriodsOf(day[i].id, periods))))
  }

  /** Where the axis has come to after the given days. */
  function Offset(days: seq<Option<seq<int>>>, entries: seq<DayEntry>): int {
    if days == [] then 0
    else
      var k := |days| - 1;
      Offset(days[..k], entries) + DaySpanMinutes(OrderedDayEntries(days[k], entries))
  }

  function Timeline(days: seq<Option<seq<int>>>, entries: seq<DayEntry>, periods: seq<Period>): seq<Slot> {
    if days == [] then []
    else
      var k := |days| - 1;
      Timeline(days[..k], entries, periods)
      + SlotsOf(OrderedDayEntries(days[k], entries), Offset(days[..k], entries), periods)
  }

  method BuildTimeline(days: seq<Option<seq<int>>>, entries: seq<DayEntry>, periods: seq<Period>)
    returns (timeline: seq<Slot>)
    ensures timeline == Timeline(days, entries, periods)
  {
    hide OrderedDayEntries, PeriodsOf, PeriodKey, SlotsOf, Timeline, Offset;
    timeline := [];
    var dayStartMinutes := 0;
    NoDays(entries, periods);
    var d := 0;
    while d < |days|
      invariant 0 <= d <= |days|
      invariant timeline == Timeline(days[..d], entries, periods)
      invariant dayStartMinutes == Offset(days[..d], entries)
    {
      var day := OrderedDayEntries(days[d], entries);
      DayAdded(days, d, entries, periods);
      ghost var before, slots := timeline, SlotsOf(day, dayStartMinutes, periods);
      var i := 0;
      while i < |day|
        invariant 0 <= i <= |day| && timeline == before + slots[..i]
      {
        var slot := Slot(day[i].id, day[i].start + dayStartMinutes, PeriodKey(PeriodsOf(day[i].id, periods)));
        SlotAdded(day, dayStartMinutes, periods, i);
        timeline := timeline + [slot];
        i := i + 1;
      }
      assert slots[..|day|] == slots;
      dayStartMinutes := dayStartMinutes + DaySpanMinutes(day);
      d := d + 1;
    }
    assert days[..|days|] == days;
  }

  lemma NoDays(entries: seq<DayEntry>, periods: seq<Period>)
    ensures Timeline([], entries, periods) == [] && Offset([], entries) == 0
  {
  }

  lemma DayAdded(days: seq<Option<seq<int>>>, d: nat, entries: seq<DayEntry>, periods: seq<Period>)
    requires d < |days|
    ensures var day, offset := OrderedDayEntries(days[d], entries), Offset(days[..d], entries);
            && Timeline(days[..d + 1], entries, periods) ==
               Timeline(days[..d], entries, periods) + SlotsOf(day, offset, periods)
            && Offset(days[..d + 1], entries) == offset + DaySpanMinutes(day)
  {
    hide OrderedDayEntries, SlotsOf;
    assert days[..d + 1][..d] == days[..d];
  }

  lemma SlotAdded(day: seq<DayEntry>, offset: int, periods: seq<Period>, i: nat)
    requires i < |day|
    ensures SlotsOf(day, offset, periods)[..i + 1] == SlotsOf(day, offset, periods)[..i] +
            [Slot(day[i].id, day[i].start + offset, PeriodKey(PeriodsOf(day[i].id, periods)))]
  {
    hide PeriodKey, PeriodsOf;
  }

  function LongDays(days: seq<Option<seq<int>>>, entries: seq<DayEntry>): nat {
    if days == [] then 0
    else LongDays(days[..|days| - 1], entries) + if IsLong(days[|days| - 1], entries) then 1 else 0
  }

  lemma {:induction false} OffsetInMinutes(days: seq<Option<seq<int>>>, entries: seq<DayEntry>)
    ensures Offset(days, entries) == 1440 * |days| + 60 * LongDays(days, entries)
  {
    hide IsLong, DaySpanMinutes, OrderedDayEntries;
    if days != [] {
      OffsetInMinutes(days[..|days| - 1], entries);
      DayLength(days[|days| - 1], entries);
    }
  }

  /** Each further day puts its entries behind the others, at their minutes after all the days before it. */
  lemma DayIsLaidBehind(days: seq<Option<seq<int>>>, day: Option<seq<int>>, entries: seq<DayEntry>, periods: seq<Period>)
    ensures var before, after := Timeline(days, entries, periods), Timeline(days + [day], entries, periods);
            var r := OrderedDayEntries(day, entries);
            && |after| == |before| + |r| && after[..|before|] == before
            && forall i :: 0 <= i < |r| ==>
                 after[|before| + i] == Slot(r[i].id, r[i].start + 1440 * |days| + 60 * LongDays(days, entries),
                                             PeriodKey(PeriodsOf(r[i].id, periods)))
  {
    hide PeriodKey, PeriodsOf, OrderedDayEntries;
    assert (days + [day])[..|days|] == days;
    OffsetInMinutes(days, entries);
  }

  predicate SortedSlots(timeline: seq<Slot>) {
    forall i, j :: 0 <= i < j < |timeline| ==> timeline[i].start <= timeline[j].start
  }

  /** Start times reach 1499 by the data model; 1500 is still harmless. */
  predicate InDay(entries: seq<DayEntry>) {
    forall e :: e in entries ==> 0 <= e.start <= MAX_DAY_MINUTES
  }

  lemma {:induction false} KnownAreEntries(day: Option<seq<int>>, entries: seq<DayEntry>)
    ensures forall e :: e in Known(day, entries) ==> e in entries
    decreases if day.Some? then |day.value| else 0
  {
    if day.Some? && day.value != [] {
      KnownAreEntries(Some(day.value[1..]), entries);
    }
  }

  /** The slots of a day start within the day. */
  lemma DayFits(day: Option<seq<int>>, entries: seq<DayEntry>, offset: int, periods: seq<Period>)
    requires InDay(entries)
    ensures var ordered := OrderedDayEntries(day, entries);
            var slots := SlotsOf(ordered, offset, periods);
            && SortedSlots(slots)
            && forall i :: 0 <= i < |slots| ==> offset <= slots[i].start <= offset + DaySpanMinutes(ordered)
  {
    hide OrderedDayEntries, Known, PeriodsOf;
    var ordered := OrderedDayEntries(day, entries);
    EntriesAreOrdered(day, entries);
    KnownAreEntries(day, entries);
    forall i | 0 <= i < |ordered|
      ensures 0 <= ordered[i].start <= DaySpanMinutes(ordered)
    {
      assert ordered[i] in multiset(ordered) && ordered[|ordered| - 1] in multiset(ordered);
      assert i < |ordered| - 1 ==> ordered[i].start <= ordered[|ordered| - 1].start;
    }
  }

  /** With starts inside the day, the whole timeline is in time order. */
  lemma {:induction false} TimelineIsSorted(days: seq<Option<seq<int>>>, entries: seq<DayEntry>, periods: seq<Period>)
    requires forall e :: e in entries ==> 0 <= e.start <= 1500
    ensures SortedSlots(Timeline(days, entries, periods))
    ensures forall i :: 0 <= i < |Timeline(days, entries, periods)| ==>
              Timeline(days, entries, periods)[i].start <= Offset(days, entries)
  {
    hide OrderedDayEntries, PeriodsOf, SlotsOf;
    if days != [] {
      var k := |days| - 1;
      TimelineIsSorted(days[..k], entries, periods);
      DayFits(days[k], entries, Offset(days[..k], entries), periods);
    }
  }

  /** Every slot carries the key of its entry's periods. */
  lemma {:induction false} SlotsCarryKeys(days: seq<Option<seq<int>>>, entries: seq<DayEntry>, periods: seq<Period>)
    ensures forall i :: 0 <= i < |Timeline(days, entries, periods)| ==>
              var slot := Timeline(days, entries, periods)[i];
              slot.periodKey == PeriodKey(PeriodsOf(slot.entryId, periods))
  {
    hide OrderedDayEntries, PeriodsOf, PeriodKey;
    if days != [] {
      SlotsCarryKeys(days[..|days| - 1], entries, periods);
    }
  }

  // ----- The end of a price range -----

  predicate EndsRange(timeline: seq<Slot>, position: nat, k: nat)
    requires position < |timeline| && k < |timeline|
  {
    timeline[k].start > timeline[position].start && timeline[k].periodKey != timeline[position].periodKey
  }

  /** Slots that start with the range are skipped; the first later one with another key ends it. */
  method RangeEnd(startEpochSeconds: int, timeline: seq<Slot>, position: int) returns (end: Option<int>)
    ensures !(0 <= position < |timeline|) ==> end == None
    ensures 0 <= position < |timeline| && end.None? ==>
              forall k :: position < k < |timeline| ==> !EndsRange(timeline, position, k)
    ensures 0 <= position < |timeline| && end.Some? ==>
              exists k :: position < k < |timeline| && FirstEnd(timeline, position, k)
                && end.value == startEpochSeconds + (timeline[k].start - timeline[position].start) * 60
  {
    if position < 0 || position >= |timeline| {
      return None;
    }
    var from := timeline[position];
    var k := position + 1;
    while k < |timeline|
      invariant position < k <= |timeline|
      invariant forall j :: position < j < k ==> !EndsRange(timeline, position, j)
    {
      var slot := timeline[k];
      if slot.start > from.start && slot.periodKey != from.periodKey {
        assert FirstEnd(timeline, position, k);
        return Some(startEpochSeconds + (slot.start - from.start) * 60);
      }
      k := k + 1;
    }
    return None;
  }

  predicate FirstEnd(timeline: seq<Slot>, position: nat, k: nat)
    requires position < k < |timeline|
  {
    EndsRange(timeline, position, k) && forall j :: position < j < k ==> !EndsRange(timeline, position, j)
  }

  /** Entries that other periods list. */
  predicate PeriodsDiffer(e: int, f: int, periods: seq<Period>) {
    exists p :: p in periods && (e in p) != (f in p)
  }

  /**
   On the timeline of days whose starts lie inside the day, the range ends at the earliest
   later start of any slot that belongs to another set of periods.
   */
  lemma RangeEndsAtFirstChange(days: seq<Option<seq<int>>>, entries: seq<DayEntry>, periods: seq<Period>, position: nat, k: nat)
    requires InDay(entries)
    requires position < k < |Timeline(days, entries, periods)|
    requires FirstEnd(Timeline(days, entries, periods), position, k)
    ensures var timeline := Timeline(days, entries, periods);
            var from, end := timeline[position], timeline[k];
            && from.start < end.start && PeriodsDiffer(from.entryId, end.entryId, periods)
            && forall j :: 0 <= j < |timeline| && from.start < timeline[j].start < end.start ==>
                 !PeriodsDiffer(from.entryId, timeline[j].entryId, periods)
  {
    hide Timeline, PeriodKey, PeriodsOf;
    var timeline := Timeline(days, entries, periods);
    var from, end := timeline[position], timeline[k];
    TimelineIsSorted(days, entries, periods);
    SlotsCarryKeys(days, entries, periods);
    PeriodKeyIsInjective(from.entryId, end.entryId, periods);
    forall j | 0 <= j < |timeline| && from.start < timeline[j].start < end.start
      ensures !PeriodsDiffer(from.entryId, timeline[j].entryId, periods)
    {
      assert position < j < k;
      assert !EndsRange(timeline, position, j);
      PeriodKeyIsInjective(from.entryId, timeline[j].entryId, periods);
    }
  }

  /** And without an end, no later slot belongs to another set of periods. */
  lemma OpenRangeNeverChanges(days: seq<Option<seq<int>>>, entries: seq<DayEntry>, periods: seq<Period>, position: nat)
    requires InDay(entries) && position < |Timeline(days, entries, periods)|
    requires forall k :: position < k < |Timeline(days, entries, periods)| ==> !EndsRange(Timeline(days, entries, periods), position, k)
    ensures var timeline := Timeline(days, entries, periods);
            forall j :: 0 <= j < |timeline| && timeline[j].start > timeline[position].start ==>
              !PeriodsDiffer(timeline[position].entryId, timeline[j].entryId, periods)
  {
    hide Timeline, PeriodKey, PeriodsOf;
    var timeline := Timeline(days, entries, periods);
    TimelineIsSorted(days, entries, periods);
    SlotsCarryKeys(days, entries, periods);
    forall j | 0 <= j < |timeline| && timeline[j].start > timeline[position].start
      ensures !PeriodsDiffer(timeline[position].entryId, timeline[j].entryId, periods)
    {
      assert !EndsRange(timeline, position, j);
      PeriodKeyIsInjective(timeline[position].entryId, timeline[j].entryId, periods);
    }
  }

  // ----- The rows of a day -----

  function Min(a: int, b: int): int {
    if a <= b then a else b
  }

  function Max(a: int, b: int): int {
    if a >= b then a else b
  }

  function RowOf(day: seq<DayEntry>, i: nat): Row
    requires i < |day|
  {
    var entry := day[i];
    var nextStart := Max(if i + 1 < |day| then day[i + 1].start else DaySpanMinutes(day), entry.start);
    Row(entry.id, entry.start,
        if entry.duration.Some? then Min(entry.start + entry.duration.value, nextStart) else nextStart)
  }

  function BuildDailySchedule(day: Option<seq<int>>, entries: seq<DayEntry>): (rows: seq<Row>)
    ensures |rows| == |OrderedDayEntries(day, entries)|
  {
    var ordered := OrderedDayEntries(day, entries);
    seq(|ordered|, i requires 0 <= i < |ordered| => RowOf(ordered, i))
  }

  /**
   Each row shows its entry from its start on, until the next entry starts or the day ends,
   or for its duration if that is over earlier.
   */
  lemma RowsEndInTime(day: Option<seq<int>>, entries: seq<DayEntry>, i: nat)
    requires i < |OrderedDayEntries(day, entries)|
    ensures var row, e := BuildDailySchedule(day, entries)[i], OrderedDayEntries(day, entries)[i];
            var until := if i + 1 < |OrderedDayEntries(day, entries)| then OrderedDayEntries(day, entries)[i + 1].start
                         else if IsLong(day, entries) then 1500 else 1440;
            && row.entryId == e.id && row.start == e.start
            && (e.duration.None? && e.start <= until ==> row.end == until)
            && (e.duration.None? && e.start > until ==> row.end == e.start)
            && (e.duration.Some? && e.start <= until && e.start + e.duration.value <= until ==>
                  row.end == e.start + e.duration.value)
            && (e.duration.Some? && e.start <= until < e.start + e.duration.value ==> row.end == until)
            && (e.duration.Some? && e.start > until ==>
                  row.end == e.start + if e.duration.value < 0 then e.duration.value else 0)
  {
    hide OrderedDayEntries, Known, IsLong;
    DayLength(day, entries);
  }

  /**
   No row reaches into a later one; a row ends before it starts exactly when its duration
   is negative.
   */
  lemma RowsNeverOverlap(day: Option<seq<int>>, entries: seq<DayEntry>)
    ensures var rows, ordered := BuildDailySchedule(day, entries), OrderedDayEntries(day, entries);
            && (forall i, j :: 0 <= i < j < |rows| ==> rows[i].end <= rows[j].start && rows[i].start <= rows[j].start)
            && (forall i :: 0 <= i < |rows| ==>
                  (rows[i].start <= rows[i].end <==> ordered[i].duration.None? || ordered[i].duration.value >= 0))
  {
    hide OrderedDayEntries, Known;
    var rows, ordered := BuildDailySchedule(day, entries), OrderedDayEntries(day, entries);
    EntriesAreOrdered(day, entries);
    forall i, j | 0 <= i < j < |rows|
      ensures rows[i].end <= rows[j].start && rows[i].start <= rows[j].start
    {
      assert ordered[i].start <= ordered[i + 1].start;
      assert i + 1 < j ==> ordered[i + 1].start <= ordered[j].start;
    }
  }

  /**
   Without durations the rows tile the time from the first start: each ends where the next
   begins, and the last at the day's end if and only if no entry starts after minute 1500.
   */
  lemma RowsTileTheDay(day: Option<seq<int>>, entries: seq<DayEntry>)
    requires OrderedDayEntries(day, entries) != []
    requires forall e :: e in OrderedDayEntries(day, entries) ==> e.duration.None?
    ensures var rows, ordered := BuildDailySchedule(day, entries), OrderedDayEntries(day, entries);
            var last := |rows| - 1;
            && (forall i :: 0 <= i < last ==> rows[i].end == rows[i + 1].start)
            && (rows[last].end == (if IsLong(day, entries) then 1500 else 1440) <==>
                forall e :: e in ordered ==> e.start <= 1500)
  {
    hide OrderedDayEntries, Known, IsLong;
    DayLength(day, entries);
    var rows, ordered := BuildDailySchedule(day, entries), OrderedDayEntries(day, entries);
    var last := |rows| - 1;
    EntriesAreOrdered(day, entries);
    assert forall i :: 0 <= i < |ordered| ==> ordered[i] in ordered;
    forall i | 0 <= i < last
      ensures rows[i].end == rows[i + 1].start
    {
      assert ordered[i].start <= ordered[i + 1].start;
    }
    forall e | e in ordered
      ensures e.start <= ordered[last].start
    {
      var i :| 0 <= i < |ordered| && ordered[i] == e;
      assert i < last ==> ordered[i].start <= ordered[last].start;
    }
  }
}
