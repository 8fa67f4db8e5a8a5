/**
 Connection handles of the Python BLE proxy, python_ble_proxy/matter_ble_proxy/client.py:
 connect and disconnect commands, disconnect callbacks of the BLE stack, and the release of
 all peripherals, interleaved at every point where the code awaits.

 An attempt to connect is known by its serial number; its handle is the serial counted from
 1 and wrapped to 16 bits. Callbacks may fire at any time and any number of times, also
 those of attempts that failed, and so may the steps of a release.
 */
module BleHandles {
  import opened Wrappers

  const HANDLE_SPAN := 0x1_0000

  /** The handle of an attempt: the counter starts at 1. */
  function Handle(serial: nat): nat {
    (serial + 1) % HANDLE_SPAN
  }

  datatype Conn = Conn(serial: nat, intentional: bool)

  /** What became of a connection that was established. */
  datatype Fate = Live | Reported | Commanded | Released | Overwritten

  datatype Proxy = Proxy(
    nextHandle: nat,
    connecting: Option<(nat, nat)>,
    connections: map<nat, Conn>,
    attempts: nat,
    fate: map<nat, Fate>,
    reported: seq<nat>)

  const START := Proxy(1, None, map[], 0, map[], [])

  // ----- The handlers -----

  /** The handle is taken before the connection attempt is made. */
  function BeginConnect(p: Proxy): Proxy {
    p.(nextHandle := (p.nextHandle + 1) % HANDLE_SPAN, connecting := Some((p.attempts, p.nextHandle)),
       attempts := p.attempts + 1)
  }

  /** The fate of the connection filed under a handle, unless it was sealed before. */
  function Seal(p: Proxy, handle: nat, fate: Fate): map<nat, Fate> {
    if handle in p.connections && !p.connections[handle].intentional then p.fate[p.connections[handle].serial := fate]
    else p.fate
  }

  function FinishConnect(p: Proxy, serial: nat, handle: nat): Proxy {
    p.(connecting := None,
       connections := p.connections[handle := Conn(serial, false)],
       fate := Seal(p, handle, Overwritten)[serial := Live])
  }

  /** `_on_disconnect`: unknown handles and intentional disconnects are not reported. */
  function OnDisconnect(p: Proxy, handle: nat): Proxy {
    if handle !in p.connections || p.connections[handle].intentional then p
    else
      p.(connections := p.connections - {handle}, fate := Seal(p, handle, Reported),
         reported := p.reported + [p.connections[handle].serial])
  }

  /** The disconnect command: an unknown handle is an error and changes nothing. */
  function Disconnect(p: Proxy, handle: nat): Proxy {
    p.(connections := p.connections - {handle}, fate := Seal(p, handle, Commanded))
  }

  /** `_release_ble_resources` visits a connection whose client is still connected. */
  function ReleaseVisit(p: Proxy, handle: nat): Proxy {
    if handle !in p.connections then p
    else
      p.(connections := p.connections[handle := p.connections[handle].(intentional := true)],
         fate := Seal(p, handle, Released))
  }

  /** The end of a release forgets every connection. */
  function ReleaseClear(p: Proxy): Proxy {
    var left := set h | h in p.connections && !p.connections[h].intentional :: p.connections[h].serial;
    p.(connections := map[], fate := map n | n in p.fate :: if n in left then Released else p.fate[n])
  }

  // ----- Steps -----

  datatype Event =
    | ConnectBegins
    | ConnectSucceeds
    | ConnectFails
    | DisconnectCommand(handle: nat)
    | Callback(serial: nat)
    | Visit(handle: nat)
    | Clear

  /** Commands run one after the other; a callback belongs to an attempt that was made. */
  predicate Enabled(p: Proxy, e: Event) {
    match e
    case ConnectBegins => p.connecting.None?
    case ConnectSucceeds => p.connecting.Some?
    case ConnectFails => p.connecting.Some?
    case DisconnectCommand(_) => p.connecting.None?
    case Callback(serial) => serial < p.attempts
    case Visit(_) => true
    case Clear => true
  }

  function Step(p: Proxy, e: Event): Proxy {
    if !Enabled(p, e) then p
    else
      match e
      case ConnectBegins => BeginConnect(p)
      case ConnectSucceeds => FinishConnect(p, p.connecting.value.0, p.connecting.value.1)
      case ConnectFails => p.(connecting := None)
      case DisconnectCommand(handle) => Disconnect(p, handle)
      case Callback(serial) => OnDisconnect(p, Handle(serial))
      case Visit(handle) => ReleaseVisit(p, handle)
      case Clear => ReleaseClear(p)
  }

  function Run(p: Proxy, events: seq<Event>): Proxy
    decreases |events|
  {
    if events == [] then p else Run(Step(p, events[0]), events[1..])
  }

  // ----- The invariant -----

  /** Every filed connection is the latest one established under its handle, and live unless flagged. */
  predicate Filed(p: Proxy, handle: nat)
    requires handle in p.connections
  {
    var conn := p.connections[handle];
    && handle == Handle(conn.serial)
    && conn.serial in p.fate
    && p.fate[conn.serial] == (if conn.intentional then Released else Live)
    && (forall n :: n in p.fate && Handle(n) == handle ==> n <= conn.serial)
  }

  predicate Valid(p: Proxy) {
    && p.nextHandle == Handle(p.attempts)
    && (forall n :: n in p.fate ==> n < p.attempts)
    && (p.connecting.Some? ==>
          && p.connecting.value.0 + 1 == p.attempts
          && p.connecting.value.1 == Handle(p.connecting.value.0)
          && p.connecting.value.0 !in p.fate)
    && (forall h :: h in p.connections ==> Filed(p, h))
  }

  /** Exactly the live connections can still be reported. */
  predicate LiveIsFiled(p: Proxy) {
    forall n :: n in p.fate && p.fate[n] == Live ==>
      Handle(n) in p.connections && p.connections[Handle(n)] == Conn(n, false)
  }

  /** Each reported connection has been reported once. */
  ghost predicate ReportedOnce(p: Proxy) {
    forall n: nat :: multiset(p.reported)[n] == if n in p.fate && p.fate[n] == Reported then 1 else 0
  }

  ghost predicate Inv(p: Proxy) {
    Valid(p) && LiveIsFiled(p) && ReportedOnce(p)
  }

  lemma NextHandle(serial: nat)
    ensures Handle(serial + 1) == (Handle(serial) + 1) % HANDLE_SPAN
  {
  }

  lemma BeginKeeps(p: Proxy)
    requires Inv(p) && p.connecting.None?
    ensures Inv(BeginConnect(p))
  {
    NextHandle(p.attempts);
    hide Handle;
    var q := BeginConnect(p);
    assert forall h :: h in q.connections ==> Filed(p, h);
  }

  lemma FinishKeeps(p: Proxy)
    requires Inv(p) && p.connecting.Some?
    ensures Inv(FinishConnect(p, p.connecting.value.0, p.connecting.value.1))
  {
    var serial, handle := p.connecting.value.0, p.connecting.value.1;
    var q := FinishConnect(p, serial, handle);
    FinishKeepsValid(p);
    FinishKeepsLive(p);
    ReportedOnceKept(p, q) by {
      hide Handle;
      assert handle in p.connections ==> Filed(p, handle);
    }
  }

  lemma FinishKeepsValid(p: Proxy)
    requires Valid(p) && p.connecting.Some?
    ensures Valid(FinishConnect(p, p.connecting.value.0, p.connecting.value.1))
  {
    hide Handle;
    var serial, handle := p.connecting.value.0, p.connecting.value.1;
    var q := FinishConnect(p, serial, handle);
    assert handle in p.connections ==> Filed(p, handle);
    forall h | h in q.connections
      ensures Filed(q, h)
    {
      if h != handle {
        assert Filed(p, h);
      }
    }
  }

  lemma FinishKeepsLive(p: Proxy)
    requires Valid(p) && LiveIsFiled(p) && p.connecting.Some?
    ensures LiveIsFiled(FinishConnect(p, p.connecting.value.0, p.connecting.value.1))
  {
    hide Handle;
    var serial, handle := p.connecting.value.0, p.connecting.value.1;
    var q := FinishConnect(p, serial, handle);
    assert handle in p.connections ==> Filed(p, handle);
    forall n | n in q.fate && q.fate[n] == Live
      ensures Handle(n) in q.connections && q.connections[Handle(n)] == Conn(n, false)
    {
      assert n != serial ==> n in p.fate && p.fate[n] == Live;
    }
  }

  lemma ReportedOnceKept(p: Proxy, q: Proxy)
    requires ReportedOnce(p) && q.reported == p.reported
    requires forall n :: n in q.fate && q.fate[n] == Reported ==> n in p.fate && p.fate[n] == Reported
    requires forall n :: n in p.fate && p.fate[n] == Reported ==> n in q.fate && q.fate[n] == Reported
    ensures ReportedOnce(q)
  {
  }

  lemma ReportedOnceMore(p: Proxy, q: Proxy, m: nat)
    requires ReportedOnce(p) && q.reported == p.reported + [m]
    requires m in p.fate && p.fate[m] != Reported && q.fate == p.fate[m := Reported]
    ensures ReportedOnce(q)
  {
    assert multiset(q.reported) == multiset(p.reported) + multiset{m};
  }

  /** Only the fate of the connection filed under the handle is sealed. */
  lemma SealKeeps(p: Proxy, q: Proxy, handle: nat, fate: Fate)
    requires Valid(p) && LiveIsFiled(p) && handle in p.connections && fate != Live
    requires q == p.(connections := q.connections, fate := Seal(p, handle, fate), reported := q.reported)
    requires || q.connections == p.connections - {handle}
             || (fate == Released && q.connections == p.connections[handle := p.connections[handle].(intentional := true)])
    ensures Valid(q) && LiveIsFiled(q)
  {
    hide Handle;
    assert Filed(p, handle);
    forall h | h in q.connections
      ensures Filed(q, h)
    {
      assert Filed(p, h);
    }
    forall n | n in q.fate && q.fate[n] == Live
      ensures Handle(n) in q.connections && q.connections[Handle(n)] == Conn(n, false)
    {
      assert n in p.fate && p.fate[n] == Live;
    }
  }

  lemma VisitKeeps(p: Proxy, handle: nat)
    requires Inv(p)
    ensures Inv(ReleaseVisit(p, handle))
  {
    hide Handle;
    if handle in p.connections {
      assert Filed(p, handle);
      SealKeeps(p, ReleaseVisit(p, handle), handle, Released);
      ReportedOnceKept(p, ReleaseVisit(p, handle));
    }
  }

  lemma ClearKeeps(p: Proxy)
    requires Inv(p)
    ensures Inv(ReleaseClear(p))
  {
    hide Handle;
    var q := ReleaseClear(p);
    forall h | h in p.connections
      ensures Filed(p, h)
    {
    }
    forall n | n in q.fate
      ensures q.fate[n] != Live
    {
      assert p.fate[n] == Live ==> Handle(n) in p.connections;
    }
  }

  lemma StepKeepsInv(p: Proxy, e: Event)
    requires Inv(p)
    ensures Inv(Step(p, e))
  {
    hide Inv, Handle;
    if Enabled(p, e) {
      match e
      case ConnectBegins => BeginKeeps(p);
      case ConnectSucceeds => FinishKeeps(p);
      case ConnectFails => FailKeeps(p);
      case DisconnectCommand(handle) => DisconnectKeeps(p, handle);
      case Callback(serial) => CallbackKeeps(p, Handle(serial));
      case Visit(handle) => VisitKeeps(p, handle);
      case Clear => ClearKeeps(p);
    }
  }

  lemma FailKeeps(p: Proxy)
    requires Inv(p)
    ensures Inv(p.(connecting := None))
  {
    hide Handle;
    assert forall h :: h in p.connections ==> Filed(p, h);
  }

  lemma DisconnectKeeps(p: Proxy, handle: nat)
    requires Inv(p)
    ensures Inv(Disconnect(p, handle))
  {
    hide Handle;
    if handle in p.connections {
      assert Filed(p, handle);
      SealKeeps(p, Disconnect(p, handle), handle, Commanded);
      ReportedOnceKept(p, Disconnect(p, handle));
    } else {
      assert p.connections - {handle} == p.connections;
    }
  }

  lemma CallbackKeeps(p: Proxy, handle: nat)
    requires Inv(p)
    ensures Inv(OnDisconnect(p, handle))
  {
    hide Handle;
    if handle in p.connections && !p.connections[handle].intentional {
      assert Filed(p, handle);
      SealKeeps(p, OnDisconnect(p, handle), handle, Reported);
      ReportedOnceMore(p, OnDisconnect(p, handle), p.connections[handle].serial);
    }
  }

  lemma {:induction false} RunKeepsInv(p: Proxy, events: seq<Event>)
    requires Inv(p)
    ensures Inv(Run(p, events))
    decreases |events|
  {
    hide Inv, Step;
    if events != [] {
      StepKeepsInv(p, events[0]);
      RunKeepsInv(Step(p, events[0]), events[1..]);
    }
  }

  /** Every state the proxy can reach keeps the invariant. */
  lemma ReachableStatesAreSound(events: seq<Event>)
    ensures Inv(Run(START, events))
  {
    assert Inv(START);
    RunKeepsInv(START, events);
  }

  // ----- Disconnect reporting -----

  /** A step reports a live connection and makes it Reported, or reports nothing. */
  lemma OnlyLiveIsReported(p: Proxy, e: Event)
    requires Inv(p)
    ensures var q := Step(p, e);
            || q.reported == p.reported
            || (exists n: nat :: q.reported == p.reported + [n] && n in p.fate && p.fate[n] == Live && n in q.fate && q.fate[n] == Reported)
    ensures var q := Step(p, e);
            forall k :: k in p.fate && p.fate[k] == Live && k in q.fate && q.fate[k] == Reported ==> q.reported == p.reported + [k]
  {
    hide Handle;
    var q := Step(p, e);
    if e.Callback? && Enabled(p, e) {
      CallbackSeals(p, Handle(e.serial));
    } else {
      OthersReportNothing(p, e);
    }
  }

  lemma CallbackSeals(p: Proxy, handle: nat)
    requires Inv(p)
    ensures var q := OnDisconnect(p, handle);
            || q == p
            || (exists n: nat :: q.reported == p.reported + [n] && n in p.fate && p.fate[n] == Live && q.fate == p.fate[n := Reported])
  {
    hide Handle;
    if handle in p.connections && !p.connections[handle].intentional {
      assert Filed(p, handle);
      assert OnDisconnect(p, handle).reported == p.reported + [p.connections[handle].serial];
    }
  }

  lemma OthersReportNothing(p: Proxy, e: Event)
    requires !e.Callback? || !Enabled(p, e)
    ensures Step(p, e).reported == p.reported
    ensures forall k :: k in p.fate && p.fate[k] == Live && k in Step(p, e).fate ==> Step(p, e).fate[k] != Reported
  {
    hide Handle;
  }

  /** A sealed fate is final. */
  lemma FateIsFinal(p: Proxy, e: Event, n: nat)
    requires Inv(p) && n in p.fate
    ensures n in Step(p, e).fate
    ensures p.fate[n] != Live ==> Step(p, e).fate[n] == p.fate[n]
  {
    hide Handle;
    assert forall h :: h in p.connections ==> Filed(p, h);
  }

  /** An accepted disconnect command, and a release, take the connection out of reporting for good. */
  lemma SealedByCommandOrRelease(p: Proxy, n: nat)
    requires Inv(p) && n in p.fate && p.fate[n] == Live
    ensures p.connecting.None? ==> Step(p, DisconnectCommand(Handle(n))).fate[n] == Commanded
    ensures Step(p, Visit(Handle(n))).fate[n] == Released
    ensures Step(p, Clear).fate[n] == Released
  {
    hide Handle;
    assert p.connections[Handle(n)] == Conn(n, false);
  }

  /**
   A callback reports the connection of its own attempt or nothing, if and only if no other
   connection with the same handle is live; and it does report its own when live.
   */
  lemma CallbackReportsItsOwn(p: Proxy, n: nat)
    requires Inv(p) && n < p.attempts
    ensures var q := Step(p, Callback(n));
            var other := exists m :: m in p.fate && m != n && Handle(m) == Handle(n) && p.fate[m] == Live;
            && (q.reported == p.reported || q.reported == p.reported + [n] <==> !other)
            && (n in p.fate && p.fate[n] == Live ==> q.reported == p.reported + [n])
  {
    hide Handle;
    var q := Step(p, Callback(n));
    var handle := Handle(n);
    if handle in p.connections && !p.connections[handle].intentional {
      assert Filed(p, handle);
      var m := p.connections[handle].serial;
      assert q.reported == p.reported + [m] && q.reported[|p.reported|] == m;
    } else {
      assert forall m :: m in p.fate && p.fate[m] == Live ==> Handle(m) in p.connections && !p.connections[Handle(m)].intentional;
    }
  }

  /** The `disconnected` events with the given handle. */
  function EventsFor(reported: seq<nat>, handle: nat): (events: multiset<nat>)
    ensures forall n :: events[n] == if Handle(n) == handle then multiset(reported)[n] else 0
  {
    if reported == [] then multiset{}
    else
      assert reported == [reported[0]] + reported[1..];
      EventsFor(reported[1..], handle) + if Handle(reported[0]) == handle then multiset{reported[0]} else multiset{}
  }

  /**
   While fewer than 65536 connects follow an established one, every event with its handle
   is about it: at most one, and none once it has been reported, disconnected or released.
   */
  lemma {:induction false} OneEventPerHandle(p: Proxy, events: seq<Event>, n: nat)
    requires Inv(p) && n in p.fate && Run(p, events).attempts <= n + HANDLE_SPAN
    ensures var q := Run(p, events);
            && n in q.fate
            && p.reported <= q.reported
            && EventsFor(q.reported[|p.reported|..], Handle(n)) ==
               (if p.fate[n] == Live && q.fate[n] == Reported then multiset{n} else multiset{})
            && (p.fate[n] != Live ==> q.fate[n] == p.fate[n])
    decreases |events|
  {
    hide Inv, Step, Handle, EventsFor;
    if events == [] {
      assert p.reported[|p.reported|..] == [];
      assert EventsFor([], Handle(n)) == multiset{};
    } else {
      var e := events[0];
      var p1, q := Step(p, e), Run(p, events);
      StepKeepsInv(p, e);
      FateIsFinal(p, e, n);
      AttemptsGrow(p1, events[1..]);
      StepEvent(p, e, n);
      OneEventPerHandle(p1, events[1..], n);
      var first, later := p1.reported[|p.reported|..], q.reported[|p1.reported|..];
      assert q.reported[|p.reported|..] == first + later;
      EventsAppend(first, later, Handle(n));
    }
  }

  lemma {:induction false} AttemptsGrow(p: Proxy, events: seq<Event>)
    ensures p.attempts <= Run(p, events).attempts
    decreases |events|
  {
    if events != [] {
      AttemptsGrow(Step(p, events[0]), events[1..]);
    }
  }

  lemma {:induction false} EventsAppend(a: seq<nat>, b: seq<nat>, handle: nat)
    ensures EventsFor(a + b, handle) == EventsFor(a, handle) + EventsFor(b, handle)
  {
    hide Handle;
    var whole, parts := EventsFor(a + b, handle), EventsFor(a, handle) + EventsFor(b, handle);
    assert forall n :: whole[n] == parts[n];
  }

  /** What one step adds to the events with the handle of an established connection. */
  lemma StepEvent(p: Proxy, e: Event, n: nat)
    requires Inv(p) && n in p.fate && Step(p, e).attempts <= n + HANDLE_SPAN
    ensures var q := Step(p, e);
            && n in q.fate && p.reported <= q.reported
            && EventsFor(q.reported[|p.reported|..], Handle(n)) ==
               if p.fate[n] == Live && q.fate[n] == Reported then multiset{n} else multiset{}
  {
    hide Handle, Inv, Step, EventsFor;
    var q := Step(p, e);
    OnlyLiveIsReported(p, e);
    FateIsFinal(p, e, n);
    if q.reported == p.reported {
      assert q.reported[|p.reported|..] == [];
    } else {
      var m: nat :| q.reported == p.reported + [m] && m in p.fate && p.fate[m] == Live && m in q.fate && q.fate[m] == Reported;
      assert q.reported[|p.reported|..] == [m] && q.reported[|p.reported|] == m;
      if Handle(m) == Handle(n) {
        AttemptsGrow(p, [e]);
        assert [e][1..] == [];
        LatestUnderHandle(p, n, m);
      }
    }
    SingleEvent(q.reported[|p.reported|..], Handle(n));
  }

  lemma SingleEvent(reported: seq<nat>, handle: nat)
    requires |reported| <= 1
    ensures EventsFor(reported, handle) ==
            if |reported| == 1 && Handle(reported[0]) == handle then multiset{reported[0]} else multiset{}
  {
    assert EventsFor([], handle) == multiset{};
  }

  lemma LatestUnderHandle(p: Proxy, n: nat, m: nat)
    requires Inv(p) && n in p.fate && p.attempts <= n + HANDLE_SPAN
    requires m in p.fate && p.fate[m] == Live && Handle(m) == Handle(n)
    ensures m == n
  {
    assert n <= m < p.attempts by {
      hide Handle;
      assert Filed(p, Handle(m));
    }
    SameHandle(n, m);
  }

  lemma SameHandle(n: nat, m: nat)
    requires n <= m < n + HANDLE_SPAN && Handle(m) == Handle(n)
    ensures m == n
  {
  }

  // ----- Established connections are accounted for -----

  /** No connection is established under a handle that is still in use. */
  predicate InWindow(p: Proxy, e: Event) {
    e.ConnectSucceeds? && p.connecting.Some? ==> p.connecting.value.1 !in p.connections
  }

  predicate RunInWindow(p: Proxy, events: seq<Event>)
    decreases |events|
  {
    events == [] || (InWindow(p, events[0]) && RunInWindow(Step(p, events[0]), events[1..]))
  }

  /**
   A step loses a connection exactly when a new one is established under the handle of a
   live one, which then can neither be reported nor disconnected any more.
   */
  lemma OverwrittenExactly(p: Proxy, e: Event, n: nat)
    requires Inv(p) && n in p.fate && p.fate[n] == Live
    ensures n in Step(p, e).fate
    ensures Step(p, e).fate[n] == Overwritten <==>
            e.ConnectSucceeds? && p.connecting.Some? && p.connecting.value.1 == Handle(n)
  {
    hide Handle;
    assert p.connections[Handle(n)] == Conn(n, false);
    assert forall h :: h in p.connections ==> Filed(p, h);
  }

  /** In the window every established connection is live, reported, disconnected by command, or released. */
  lemma {:induction false} NoneLost(p: Proxy, events: seq<Event>)
    requires Inv(p) && RunInWindow(p, events) && (forall n :: n in p.fate ==> p.fate[n] != Overwritten)
    ensures forall n :: n in Run(p, events).fate ==> Run(p, events).fate[n] != Overwritten
    decreases |events|
  {
    hide Handle, Step, Inv, Run;
    if events != [] {
      var q := Step(p, events[0]);
      forall n | n in q.fate
        ensures q.fate[n] != Overwritten
      {
        StepLosesNone(p, events[0], n);
      }
      StepKeepsInv(p, events[0]);
      NoneLost(q, events[1..]);
      RunUnfolds(p, events);
    } else {
      RunUnfolds(p, events);
    }
  }

  lemma RunUnfolds(p: Proxy, events: seq<Event>)
    ensures Run(p, events) == if events == [] then p else Run(Step(p, events[0]), events[1..])
  {
  }

  lemma StepLosesNone(p: Proxy, e: Event, n: nat)
    requires Inv(p) && InWindow(p, e) && n in Step(p, e).fate
    requires n in p.fate ==> p.fate[n] != Overwritten
    ensures Step(p, e).fate[n] != Overwritten
  {
    hide Handle;
    if n in p.fate && p.fate[n] == Live {
      OverwrittenExactly(p, e, n);
    } else if n in p.fate {
      FateIsFinal(p, e, n);
    }
  }
}
