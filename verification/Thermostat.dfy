/**
 The segments of one day of a thermostat schedule,
 packages/dashboard/src/util/thermostat-schedule.ts:22 and 264-316, against the cyclic week
 of section 4.3.10.26.5 of the Matter Application Cluster Specification: at every minute
 the transition that lies the shortest way back applies.
 */
module Thermostat {
  import opened StableSort

  const DAYS := 7
  const DAY_MINUTES := 1440
  const WEEK_MINUTES := 10080

  /** Days in display order (Monday first) to their bits (Sunday is bit 0). */
  const DAY_BIT: seq<nat> := [1, 2, 3, 4, 5, 6, 0]

  datatype Setpoints = Setpoints(heating: int, cooling: int, preset: string, mode: int)

  datatype Transition = Transition(dayOfWeek: bv8, time: nat, setpoints: Setpoints)

  datatype Segment = Segment(startMin: nat, endMin: nat, setpoints: Setpoints)

  type Schedule = seq<Transition>

  /** Decoding drops transitions at other times. */
  predicate Valid(schedule: Schedule) {
    forall i :: 0 <= i < |schedule| ==> schedule[i].time < DAY_MINUTES
  }

  predicate Claims(t: Transition, day: nat)
    requires day < DAYS
  {
    t.dayOfWeek & (1 << DAY_BIT[day]) != 0
  }

  /** Monday is bit 1, Saturday bit 6, and Sunday, the last day, bit 0. */
  lemma DaysByBit(t: Transition)
    ensures Claims(t, 0) <==> t.dayOfWeek & 0x02 != 0
    ensures Claims(t, 1) <==> t.dayOfWeek & 0x04 != 0
    ensures Claims(t, 2) <==> t.dayOfWeek & 0x08 != 0
    ensures Claims(t, 3) <==> t.dayOfWeek & 0x10 != 0
    ensures Claims(t, 4) <==> t.dayOfWeek & 0x20 != 0
    ensures Claims(t, 5) <==> t.dayOfWeek & 0x40 != 0
    ensures Claims(t, 6) <==> t.dayOfWeek & 0x01 != 0
  {
  }

  // ----- The cyclic week -----

  /** How long before minute `m` of `day` a transition at `time` of day `d` lies. */
  function Distance(day: nat, m: nat, d: nat, time: nat): nat {
    (day * DAY_MINUTES + m - d * DAY_MINUTES - time) % WEEK_MINUTES
  }

  /** Transition `i` takes place on day `d`. */
  predicate Occurs(schedule: Schedule, i: nat, d: nat) {
    i < |schedule| && d < DAYS && Claims(schedule[i], d)
  }

  /** Occurrence (i, d) lies nearer than (j, e), or as near and is not listed before it. */
  predicate Nearest(schedule: Schedule, day: nat, m: nat, i: nat, d: nat, j: nat, e: nat)
    requires i < |schedule| && j < |schedule|
  {
    var mine, other := Distance(day, m, d, schedule[i].time), Distance(day, m, e, schedule[j].time);
    mine < other || (mine == other && j <= i)
  }

  ghost predicate ActiveOn(schedule: Schedule, day: nat, m: nat, i: nat, d: nat) {
    Occurs(schedule, i, d) && forall j: nat, e: nat :: Occurs(schedule, j, e) ==> Nearest(schedule, day, m, i, d, j, e)
  }

  /** The transition in force at minute `m` of `day`. */
  ghost predicate Active(schedule: Schedule, day: nat, m: nat, i: nat) {
    exists d: nat :: ActiveOn(schedule, day, m, i, d)
  }

  lemma ActiveIsUnique(schedule: Schedule, day: nat, m: nat, i: nat, j: nat)
    requires Active(schedule, day, m, i) && Active(schedule, day, m, j)
    ensures i == j
  {
    hide Distance, Claims;
    var d :| ActiveOn(schedule, day, m, i, d);
    var e :| ActiveOn(schedule, day, m, j, e);
    assert Nearest(schedule, day, m, i, d, j, e) && Nearest(schedule, day, m, j, e, i, d);
  }

  /** Days from `d` to `day`, going back from `day`. */
  function Back(day: nat, d: nat): nat
    requires d < DAYS
  {
    (day + DAYS - d) % DAYS
  }

  lemma DistanceByDay(day: nat, m: nat, d: nat, time: nat)
    requires day < DAYS && m < DAY_MINUTES && d < DAYS && time < DAY_MINUTES
    ensures d == day <==> Back(day, d) == 0
    ensures Distance(day, m, d, time) ==
            if d == day && time > m then WEEK_MINUTES + m - time else Back(day, d) * DAY_MINUTES + m - time
  {
    var minutes := day * DAY_MINUTES + m - d * DAY_MINUTES - time;
    if d < day || (d == day && time <= m) {
      assert 0 <= minutes < WEEK_MINUTES;
    } else {
      assert 0 <= minutes + WEEK_MINUTES < WEEK_MINUTES;
    }
  }

  // ----- The transitions of a day -----

  function Times(schedule: Schedule): (times: seq<int>)
    ensures |times| == |schedule| && forall i :: 0 <= i < |times| ==> times[i] == schedule[i].time
  {
    seq(|schedule|, i requires 0 <= i < |schedule| => schedule[i].time)
  }

  function Claimed(schedule: Schedule, day: nat, n: nat): (listed: seq<nat>)
    requires day < DAYS && n <= |schedule|
    ensures forall i: nat :: i in listed <==> i < n && Claims(schedule[i], day)
    ensures Ascending(listed) && forall a :: 0 <= a < |listed| ==> listed[a] < n
  {
    if n == 0 then []
    else
      var before := Claimed(schedule, day, n - 1);
      assert forall a :: 0 <= a < |before| ==> before[a] in before;
      if Claims(schedule[n - 1], day) then before + [n - 1] else before
  }

  /** Filtered by day, sorted by time. */
  function TransitionsForDay(schedule: Schedule, day: nat): (order: seq<nat>)
    requires day < DAYS
    ensures forall i: nat :: i in order <==> Occurs(schedule, i, day)
    ensures InRange(Times(schedule), order) && forall a :: 0 <= a < |order| ==> order[a] < |schedule|
  {
    Sorted(Times(schedule), Claimed(schedule, day, |schedule|))
  }

  lemma DayIsOrdered(schedule: Schedule, day: nat)
    requires day < DAYS
    ensures Ordered(Times(schedule), TransitionsForDay(schedule, day))
  {
    SortedIsOrdered(Times(schedule), Claimed(schedule, day, |schedule|));
  }

  /** Within the day, the last transition that is not after `m` applies. */
  lemma LatestOfDay(schedule: Schedule, day: nat, m: nat, k: nat)
    requires Valid(schedule) && day < DAYS && m < DAY_MINUTES
    requires var order := TransitionsForDay(schedule, day);
             && k < |order| && schedule[order[k]].time <= m
             && (k + 1 < |order| ==> m < schedule[order[k + 1]].time)
    ensures ActiveOn(schedule, day, m, TransitionsForDay(schedule, day)[k], day)
  {
    hide Claims, Distance, Sorted, Claimed, Back;
    var order, times := TransitionsForDay(schedule, day), Times(schedule);
    var i := order[k];
    assert i in order;
    DayIsOrdered(schedule, day);
    forall j: nat, e: nat | Occurs(schedule, j, e)
      ensures Nearest(schedule, day, m, i, day, j, e)
    {
      DistanceByDay(day, m, day, schedule[i].time);
      DistanceByDay(day, m, e, schedule[j].time);
      if e == day {
        assert j in order;
        var b :| 0 <= b < |order| && order[b] == j;
        if b < k {
          assert Before(times, order[b], order[k]);
        } else if b > k {
          assert b > k + 1 ==> Before(times, order[k + 1], order[b]);
        }
      }
    }
  }

  /** The transitions of the day `back` days before. */
  function EarlierDay(schedule: Schedule, day: nat, back: nat): seq<nat>
    requires day < DAYS && 0 < back <= DAYS
  {
    TransitionsForDay(schedule, (day + DAYS - back) % DAYS)
  }

  lemma DayOfBack(day: nat, e: nat)
    requires day < DAYS && e < DAYS
    ensures e != day ==> 0 < Back(day, e) < DAYS && (day + DAYS - Back(day, e)) % DAYS == e
  {
  }

  lemma BackOfDay(day: nat, back: nat)
    requires day < DAYS && 0 < back <= DAYS
    ensures var d := (day + DAYS - back) % DAYS;
            d < DAYS && Back(day, d) == back % DAYS && (d == day <==> back == DAYS)
  {
  }

  /**
   Before the day's first transition, the last transition of the nearest earlier day that
   has one applies; the day itself, a week ago, comes last.
   */
  lemma CarriedOver(schedule: Schedule, day: nat, m: nat, back: nat)
    requires Valid(schedule) && day < DAYS && m < DAY_MINUTES && 0 < back <= DAYS
    requires forall i :: i in TransitionsForDay(schedule, day) ==> m < schedule[i].time
    requires EarlierDay(schedule, day, back) != []
    requires forall b :: 0 < b < back ==> EarlierDay(schedule, day, b) == []
    ensures var order := EarlierDay(schedule, day, back);
            ActiveOn(schedule, day, m, order[|order| - 1], (day + DAYS - back) % DAYS)
  {
    hide Claims, Distance, Sorted, Claimed, Back;
    var order, times := EarlierDay(schedule, day, back), Times(schedule);
    var d, i := (day + DAYS - back) % DAYS, order[|order| - 1];
    assert i in order;
    BackOfDay(day, back);
    DayIsOrdered(schedule, d);
    DistanceByDay(day, m, d, schedule[i].time);
    assert Distance(day, m, d, schedule[i].time) == back * DAY_MINUTES + m - schedule[i].time;
    forall j: nat, e: nat | Occurs(schedule, j, e)
      ensures Nearest(schedule, day, m, i, d, j, e)
    {
      CarriedIsNearer(schedule, day, m, back, j, e);
    }
  }

  lemma CarriedIsNearer(schedule: Schedule, day: nat, m: nat, back: nat, j: nat, e: nat)
    requires Valid(schedule) && day < DAYS && m < DAY_MINUTES && 0 < back <= DAYS
    requires forall i :: i in TransitionsForDay(schedule, day) ==> m < schedule[i].time
    requires EarlierDay(schedule, day, back) != []
    requires forall b :: 0 < b < back ==> EarlierDay(schedule, day, b) == []
    requires Occurs(schedule, j, e)
    ensures var order, d := EarlierDay(schedule, day, back), (day + DAYS - back) % DAYS;
            order[|order| - 1] in order && Nearest(schedule, day, m, order[|order| - 1], d, j, e)
  {
    hide Claims, Distance, TransitionsForDay, Back;
    var order, times := EarlierDay(schedule, day, back), Times(schedule);
    var d, i := (day + DAYS - back) % DAYS, order[|order| - 1];
    assert i in order;
    BackOfDay(day, back);
    DistanceByDay(day, m, d, schedule[i].time);
    var far := OccurrenceBack(schedule, day, m, j, e);
    assert back <= far;
    if far == back {
      DayIsOrdered(schedule, d);
      var b :| 0 <= b < |order| && order[b] == j;
      assert b < |order| - 1 ==> Before(times, order[b], order[|order| - 1]);
    }
  }

  /** How many days back an occurrence lies before the day's first transition. */
  lemma OccurrenceBack(schedule: Schedule, day: nat, m: nat, j: nat, e: nat) returns (far: nat)
    requires Valid(schedule) && day < DAYS && m < DAY_MINUTES && Occurs(schedule, j, e)
    requires forall i :: i in TransitionsForDay(schedule, day) ==> m < schedule[i].time
    ensures 0 < far <= DAYS && j in EarlierDay(schedule, day, far)
    ensures Distance(day, m, e, schedule[j].time) == far * DAY_MINUTES + m - schedule[j].time
  {
    hide Claims, Distance, Sorted, Claimed, Back;
    DistanceByDay(day, m, e, schedule[j].time);
    DayOfBack(day, e);
    far := if e == day then DAYS else Back(day, e);
  }

  // ----- The segments -----

  function SegmentOf(t: Transition, startMin: nat, endMin: nat): Segment {
    Segment(startMin, endMin, t.setpoints)
  }

  /** The segment shows one transition, which is in force at each of its minutes. */
  ghost predicate Right(schedule: Schedule, day: nat, segment: Segment) {
    && segment.startMin <= segment.endMin <= DAY_MINUTES
    && exists i ::
         && 0 <= i < |schedule| && segment.setpoints == schedule[i].setpoints
         && InForce(schedule, day, segment.startMin, segment.endMin, i)
  }

  ghost predicate InForce(schedule: Schedule, day: nat, startMin: nat, endMin: nat, i: nat) {
    forall m :: startMin <= m < endMin ==> Active(schedule, day, m, i)
  }

  /** Where segment `k` has to start. */
  function EndBefore(segments: seq<Segment>, k: nat): nat
    requires k <= |segments|
  {
    if k == 0 then 0 else segments[k - 1].endMin
  }

  /** The segments lie end to end from minute 0 to minute `end`. */
  predicate Contiguous(segments: seq<Segment>, end: nat) {
    && (forall k :: 0 <= k < |segments| ==> segments[k].startMin == EndBefore(segments, k))
    && end == EndBefore(segments, |segments|)
  }

  method FindCarryOverTransition(schedule: Schedule, day: nat) returns (found: bool, i: nat)
    requires day < DAYS
    ensures found <==> exists e: nat :: e < DAYS && e != day && TransitionsForDay(schedule, e) != []
    ensures found ==> exists back :: 0 < back < DAYS
                        && EarlierDay(schedule, day, back) != []
                        && i == EarlierDay(schedule, day, back)[|EarlierDay(schedule, day, back)| - 1]
                        && forall b :: 0 < b < back ==> EarlierDay(schedule, day, b) == []
    ensures !found ==> forall b :: 0 < b < DAYS ==> EarlierDay(schedule, day, b) == []
  {
    hide Sorted, Claimed;
    found, i := false, 0;
    var back := 1;
    while back < DAYS
      invariant 0 < back <= DAYS
      invariant forall b :: 0 < b < back ==> EarlierDay(schedule, day, b) == []
    {
      var previous := TransitionsForDay(schedule, (day + DAYS - back) % DAYS);
      if previous != [] {
        BackOfDay(day, back);
        assert EarlierDay(schedule, day, back) == previous;
        return true, previous[|previous| - 1];
      }
      back := back + 1;
    }
    forall e: nat | e < DAYS && e != day
      ensures TransitionsForDay(schedule, e) == []
    {
      DayOfBack(day, e);
      assert EarlierDay(schedule, day, Back(day, e)) == [];
    }
  }

  /** The segments cover the day without gaps, and at every minute show the transition in force. */
  method BuildDaySegments(schedule: Schedule, day: nat) returns (segments: seq<Segment>)
    requires Valid(schedule) && day < DAYS
    ensures segments == [] <==> !exists i: nat :: Occurs(schedule, i, day)
    ensures segments != [] ==> Contiguous(segments, 1440)
    ensures forall k :: 0 <= k < |segments| ==> Right(schedule, day, segments[k])
  {
    hide Sorted, Claimed, Distance, Active, Contiguous, Right, InForce, EarlierDay;
    var order := TransitionsForDay(schedule, day);
    segments := [];
    NoSegments();
    if order == [] {
      assert forall i: nat :: Occurs(schedule, i, day) ==> i in order;
      return;
    }
    assert order[0] in order && Occurs(schedule, order[0], day);
    var first := schedule[order[0]].time;
    if first > 0 {
      var found, carried := FindCarryOverTransition(schedule, day);
      if !found {
        carried := order[|order| - 1];
      }
      CarriedInForce(schedule, day, found, carried);
      Appended(segments, SegmentOf(schedule[carried], 0, first));
      segments := segments + [SegmentOf(schedule[carried], 0, first)];
    }
    var k := 0;
    while k < |order|
      invariant 0 <= k <= |order|
      invariant Contiguous(segments, if k < |order| then schedule[order[k]].time else DAY_MINUTES)
      invariant forall s :: 0 <= s < |segments| ==> Right(schedule, day, segments[s])
      invariant k > 0 ==> segments != []
    {
      LatestInForce(schedule, day, k);
      var t := schedule[order[k]];
      var end := if k + 1 < |order| then schedule[order[k + 1]].time else DAY_MINUTES;
      Appended(segments, SegmentOf(t, t.time, end));
      segments := segments + [SegmentOf(t, t.time, end)];
      k := k + 1;
    }
  }

  lemma NoSegments()
    ensures Contiguous([], 0)
  {
  }

  lemma Appended(segments: seq<Segment>, segment: Segment)
    requires Contiguous(segments, segment.startMin)
    ensures Contiguous(segments + [segment], segment.endMin)
  {
    var longer := segments + [segment];
    assert forall k :: 0 <= k <= |segments| ==> EndBefore(longer, k) == EndBefore(segments, k);
  }

  lemma LatestInForce(schedule: Schedule, day: nat, k: nat)
    requires Valid(schedule) && day < DAYS && k < |TransitionsForDay(schedule, day)|
    ensures var order := TransitionsForDay(schedule, day);
            var end := if k + 1 < |order| then schedule[order[k + 1]].time else DAY_MINUTES;
            Right(schedule, day, SegmentOf(schedule[order[k]], schedule[order[k]].time, end))
  {
    hide Claims, Distance, Sorted, Claimed;
    var order := TransitionsForDay(schedule, day);
    DayIsOrdered(schedule, day);
    assert order[k] in order && (k + 1 < |order| ==> order[k + 1] in order && Before(Times(schedule), order[k], order[k + 1]));
    var end := if k + 1 < |order| then schedule[order[k + 1]].time else DAY_MINUTES;
    forall m | schedule[order[k]].time <= m < end
      ensures Active(schedule, day, m, order[k])
    {
      LatestOfDay(schedule, day, m, k);
    }
    assert InForce(schedule, day, schedule[order[k]].time, end, order[k]);
  }

  lemma CarriedInForce(schedule: Schedule, day: nat, found: bool, carried: nat)
    requires Valid(schedule) && day < DAYS && TransitionsForDay(schedule, day) != []
    requires found ==> exists back :: 0 < back < DAYS
                         && EarlierDay(schedule, day, back) != []
                         && carried == EarlierDay(schedule, day, back)[|EarlierDay(schedule, day, back)| - 1]
                         && forall b :: 0 < b < back ==> EarlierDay(schedule, day, b) == []
    requires !found ==> (forall b :: 0 < b < DAYS ==> EarlierDay(schedule, day, b) == [])
                        && carried == TransitionsForDay(schedule, day)[|TransitionsForDay(schedule, day)| - 1]
    ensures carried < |schedule|
    ensures Right(schedule, day, SegmentOf(schedule[carried], 0, schedule[TransitionsForDay(schedule, day)[0]].time))
  {
    hide Claims, Distance, Sorted, Claimed;
    var order := TransitionsForDay(schedule, day);
    assert order[0] in order;
    var back: nat;
    if found {
      back :| 0 < back < DAYS
        && EarlierDay(schedule, day, back) != []
        && carried == EarlierDay(schedule, day, back)[|EarlierDay(schedule, day, back)| - 1]
        && forall b :: 0 < b < back ==> EarlierDay(schedule, day, b) == [];
    } else {
      back := DAYS;
      BackOfDay(day, DAYS);
      assert EarlierDay(schedule, day, back) == order;
    }
    var earlier := EarlierDay(schedule, day, back);
    assert carried in earlier;
    DayIsOrdered(schedule, day);
    forall m | 0 <= m < schedule[order[0]].time
      ensures Active(schedule, day, m, carried)
    {
      forall i | i in order
        ensures m < schedule[i].time
      {
        var b :| 0 <= b < |order| && order[b] == i;
        assert b > 0 ==> Before(Times(schedule), order[0], order[b]);
      }
      CarriedOver(schedule, day, m, back);
    }
    assert InForce(schedule, day, 0, schedule[order[0]].time, carried);
  }

  /** Each minute of a covered day lies in a segment, and in no other. */
  lemma OneSegmentPerMinute(segments: seq<Segment>, end: nat, m: nat) returns (k: nat)
    requires Contiguous(segments, end) && m < end
    requires forall s :: 0 <= s < |segments| ==> segments[s].startMin <= segments[s].endMin
    ensures k < |segments| && segments[k].startMin <= m < segments[k].endMin
    ensures forall s :: 0 <= s < |segments| && segments[s].startMin <= m < segments[s].endMin ==> s == k
  {
    k := SegmentAt(segments, |segments|, m);
    forall s | 0 <= s < |segments| && s != k
      ensures !(segments[s].startMin <= m < segments[s].endMin)
    {
      if s < k {
        EndsBefore(segments, end, s, k);
      } else {
        EndsBefore(segments, end, k, s);
      }
    }
  }

  lemma {:induction false} SegmentAt(segments: seq<Segment>, n: nat, m: nat) returns (k: nat)
    requires n <= |segments| && m < EndBefore(segments, n)
    requires forall k :: 0 <= k < |segments| ==> segments[k].startMin == EndBefore(segments, k)
    ensures k < |segments| && segments[k].startMin <= m < segments[k].endMin
  {
    k := n - 1;
    if m < segments[k].startMin {
      k := SegmentAt(segments, k, m);
    }
  }

  lemma {:induction false} EndsBefore(segments: seq<Segment>, end: nat, j: nat, k: nat)
    requires Contiguous(segments, end) && j < k < |segments|
    requires forall s :: 0 <= s < |segments| ==> segments[s].startMin <= segments[s].endMin
    ensures segments[j].endMin <= segments[k].startMin
    decreases k
  {
    assert segments[k].startMin == segments[k - 1].endMin;
    if j < k - 1 {
      EndsBefore(segments, end, j, k - 1);
    }
  }
}
