/**
 The BLE proxy hub, packages/ble-proxy/src/BleProxyHandler.ts: which client owns which
 peripheral, and which clients are scanning. A connection is a number; its `connected`
 getter is true while its handshake is complete (`ready`) and its socket is open (`open`).
 Events of all connections may come in any order. A connection that was torn down, whose
 socket still delivers messages, may complete another handshake and report again: it is
 registered no more, but the hub still listens.
 */
module BleHub {
  import opened Wrappers

  type Conn = nat

  /** The seers in the order in which they first reported the address. */
  datatype Entry = Entry(owner: Conn, seers: seq<Conn>)

  datatype Hub = Hub(
    connections: set<Conn>,
    ready: set<Conn>,
    open: set<Conn>,
    scanning: set<Conn>,
    scanActive: bool,
    owners: map<string, Entry>,
    closed: bool,
    scanStops: nat)

  const EMPTY := Hub({}, {}, {}, {}, false, map[], false, 0)

  function Connected(h: Hub): set<Conn> {
    h.ready * h.open
  }

  /** `getOwner`: the owner, if it is still connected. */
  function GetOwner(h: Hub, address: string): Option<Conn> {
    if address in h.owners && h.owners[address].owner in Connected(h) then Some(h.owners[address].owner) else None
  }

  // ----- The handlers -----

  function Connect(h: Hub, c: Conn): Hub {
    if h.closed then h else h.(connections := h.connections + {c}, open := h.open + {c})
  }

  function HandshakeCompleted(h: Hub, c: Conn): Hub {
    h.(ready := h.ready + {c}, scanning := if h.scanActive then h.scanning + {c} else h.scanning)
  }

  function StartScan(h: Hub): Hub {
    h.(scanActive := true, scanning := h.scanning + h.connections * Connected(h))
  }

  function StopScan(h: Hub): Hub {
    h.(scanActive := false, scanning := {})
  }

  function MarkNotScanning(h: Hub, c: Conn): Hub {
    if c !in h.scanning then h
    else h.(scanning := h.scanning - {c}, scanStops := h.scanStops + if h.scanning - {c} == {} then 1 else 0)
  }

  /** `Set.add` keeps the place of a member. */
  function AddSeer(seers: seq<Conn>, c: Conn): seq<Conn> {
    if c in seers then seers else seers + [c]
  }

  function Seen(h: Hub, c: Conn, address: string): Entry {
    if address !in h.owners then Entry(c, [c])
    else
      var entry := h.owners[address];
      Entry(if entry.owner in Connected(h) then entry.owner else c, AddSeer(entry.seers, c))
  }

  function DeviceDiscovered(h: Hub, c: Conn, address: string): Hub {
    h.(owners := h.owners[address := Seen(h, c, address)])
  }

  function Without(seers: seq<Conn>, c: Conn): (rest: seq<Conn>)
    ensures forall x :: x in rest <==> x in seers && x != c
    ensures Distinct(seers) ==> Distinct(rest)
  {
    if seers == [] then []
    else
      var rest := Without(seers[1..], c);
      assert seers == [seers[0]] + seers[1..];
      assert Distinct(seers) ==> Distinct(seers[1..]) && seers[0] !in seers[1..];
      if seers[0] == c then rest else [seers[0]] + rest
  }

  predicate Distinct(seers: seq<Conn>) {
    forall i, j :: 0 <= i < j < |seers| ==> seers[i] != seers[j]
  }

  function FirstConnected(seers: seq<Conn>, connected: set<Conn>): (first: Option<Conn>)
    ensures first.Some? ==> first.value in seers && first.value in connected
    ensures first.None? ==> forall x :: x in seers ==> x !in connected
    ensures first.Some? ==> NoneBefore(seers, first.value, connected)
  {
    if seers == [] then None
    else if seers[0] in connected then
      assert seers[0] == seers[0];
      Some(seers[0])
    else
      var first := FirstConnected(seers[1..], connected);
      assert seers == [seers[0]] + seers[1..];
      assert first.Some? ==> NoneBefore(seers, first.value, connected) by {
        if first.Some? {
          var k :| 0 <= k < |seers[1..]| && seers[1..][k] == first.value && forall j :: 0 <= j < k ==> seers[1..][j] !in connected;
          assert seers[k + 1] == first.value;
          forall j | 0 <= j < k + 1
            ensures seers[j] !in connected
          {
            assert j > 0 ==> seers[j] == seers[1..][j - 1];
          }
        }
      }
      first
  }

  /** No seer before the first place of `c` is connected. */
  predicate NoneBefore(seers: seq<Conn>, c: Conn, connected: set<Conn>) {
    exists k :: 0 <= k < |seers| && seers[k] == c && forall j :: 0 <= j < k ==> seers[j] !in connected
  }

  /** What the closing of `c` makes of one entry; None deletes it. */
  function EntryAfterClose(entry: Entry, c: Conn, connected: set<Conn>): Option<Entry> {
    var rest := Without(entry.seers, c);
    if entry.owner != c then Some(entry.(seers := rest))
    else
      match FirstConnected(rest, connected)
      case Some(next) => Some(Entry(next, rest))
      case None => None
  }

  function OwnersAfterClose(owners: map<string, Entry>, c: Conn, connected: set<Conn>): map<string, Entry> {
    map a | a in owners && EntryAfterClose(owners[a], c, connected).Some? :: EntryAfterClose(owners[a], c, connected).value
  }

  /** The connection clears its handshake flag before it emits `closed`. */
  function ConnectionClosed(h: Hub, c: Conn): Hub {
    var h1 := h.(connections := h.connections - {c}, ready := h.ready - {c}, open := h.open - {c});
    var h2 := MarkNotScanning(h1, c);
    h2.(owners := OwnersAfterClose(h2.owners, c, Connected(h2)))
  }

  /** Every registered connection is closed, and everything forgotten. */
  function Unregister(h: Hub): Hub {
    if h.closed then h
    else
      h.(connections := {}, ready := h.ready - h.connections, open := {}, scanning := {}, owners := map[], closed := true,
         scanStops := h.scanStops + if h.scanning != {} && h.scanning <= h.connections then 1 else 0)
  }

  // ----- Steps -----

  datatype Event =
    | Connects(c: Conn)
    | Handshakes(c: Conn)
    | SocketClosing(c: Conn)
    | Closes(c: Conn)
    | ClosesAgain(c: Conn)
    | Discovers(c: Conn, address: string)
    | ScanStarted
    | ScanStopped
    | StartFails(c: Conn)
    | ReportsStopped(c: Conn)
    | Unregisters

  /** The hub with its history: every connection that was registered, and who reported which address. */
  datatype System = System(hub: Hub, known: set<Conn>, reported: set<(Conn, string)>)

  const START := System(EMPTY, {}, {})

  predicate Enabled(s: System, e: Event) {
    match e
    case Connects(c) => c !in s.known
    case Handshakes(c) => c in s.known && c !in s.hub.ready
    case SocketClosing(c) => c in s.hub.connections
    case Closes(c) => c in s.hub.connections
    case ClosesAgain(c) => c !in s.hub.connections
    case Discovers(c, _) => c in s.hub.ready
    case ReportsStopped(c) => c in s.hub.ready
    case _ => true
  }

  function Step(s: System, e: Event): System {
    if !Enabled(s, e) then s
    else
      match e
      case Connects(c) => s.(hub := Connect(s.hub, c), known := s.known + if s.hub.closed then {} else {c})
      case Handshakes(c) => s.(hub := HandshakeCompleted(s.hub, c))
      case SocketClosing(c) => s.(hub := s.hub.(open := s.hub.open - {c}))
      case Closes(c) => s.(hub := ConnectionClosed(s.hub, c))
      case ClosesAgain(c) => s.(hub := s.hub.(ready := s.hub.ready - {c}))
      case Discovers(c, a) => s.(hub := DeviceDiscovered(s.hub, c, a), reported := s.reported + {(c, a)})
      case ScanStarted => s.(hub := StartScan(s.hub))
      case ScanStopped => s.(hub := StopScan(s.hub))
      case StartFails(c) => s.(hub := MarkNotScanning(s.hub, c))
      case ReportsStopped(c) => s.(hub := MarkNotScanning(s.hub, c))
      case Unregisters => s.(hub := Unregister(s.hub))
  }

  function Run(s: System, events: seq<Event>): System
    decreases |events|
  {
    if events == [] then s else Run(Step(s, events[0]), events[1..])
  }

  // ----- The ownership invariant -----

  /** The owner is a seer. */
  predicate EntryOk(entry: Entry) {
    entry.owner in entry.seers && Distinct(entry.seers)
  }

  predicate Valid(h: Hub) {
    && (forall a :: a in h.owners ==> EntryOk(h.owners[a]))
    && h.open <= h.connections
  }

  /** A connected client is among the seers of every address it ever reported. */
  predicate SeersComplete(s: System) {
    forall r :: r in s.reported && r.0 in Connected(s.hub) ==>
      r.1 in s.hub.owners && r.0 in s.hub.owners[r.1].seers
  }

  /** Every seer reported the address. */
  predicate SeersHonest(s: System) {
    forall a, c :: a in s.hub.owners && c in s.hub.owners[a].seers ==> (c, a) in s.reported
  }

  predicate Inv(s: System) {
    && Valid(s.hub)
    && s.hub.connections <= s.known && s.hub.ready <= s.known
    && (forall r :: r in s.reported ==> r.0 in s.known)
    && (forall r :: r in s.reported && r.0 in s.hub.connections ==> r.0 in s.hub.ready)
    && SeersComplete(s)
    && SeersHonest(s)
  }

  lemma ClosedKeepsValid(h: Hub, c: Conn)
    requires Valid(h)
    ensures Valid(ConnectionClosed(h, c))
  {
    var w := ConnectionClosed(h, c);
    forall a | a in w.owners
      ensures EntryOk(w.owners[a])
    {
      assert EntryOk(h.owners[a]);
    }
  }

  lemma DiscoveredKeepsValid(h: Hub, c: Conn, address: string)
    requires Valid(h)
    ensures Valid(DeviceDiscovered(h, c, address))
  {
    if address in h.owners {
      assert EntryOk(h.owners[address]);
    }
  }

  lemma ConnectKeepsValid(h: Hub, c: Conn)
    requires Valid(h)
    ensures Valid(Connect(h, c))
  {
    forall a | a in h.owners
      ensures EntryOk(h.owners[a])
    {
      assert EntryOk(h.owners[a]);
    }
  }

  lemma StepKeepsValid(s: System, e: Event)
    requires Valid(s.hub)
    ensures Valid(Step(s, e).hub)
  {
    if Enabled(s, e) {
      match e
      case Connects(c) => ConnectKeepsValid(s.hub, c);
      case Closes(c) => ClosedKeepsValid(s.hub, c);
      case Discovers(c, a) => DiscoveredKeepsValid(s.hub, c, a);
      case Handshakes(c) =>
      case SocketClosing(c) =>
      case ClosesAgain(c) =>
      case ScanStarted =>
      case ScanStopped =>
      case StartFails(c) =>
      case ReportsStopped(c) =>
      case Unregisters =>
    }
  }

  lemma ClosedKeepsSeers(s: System, c: Conn)
    requires Inv(s)
    ensures var t := s.(hub := ConnectionClosed(s.hub, c)); SeersComplete(t) && SeersHonest(t)
  {
    var t := s.(hub := ConnectionClosed(s.hub, c));
    forall r | r in t.reported && r.0 in Connected(t.hub)
      ensures r.1 in t.hub.owners && r.0 in t.hub.owners[r.1].seers
    {
      assert r.0 in Connected(s.hub) && r.0 != c;
    }
  }

  lemma ConnectKeepsSeers(s: System, c: Conn)
    requires Inv(s) && c !in s.known
    ensures var t := s.(hub := Connect(s.hub, c)); SeersComplete(t) && SeersHonest(t)
  {
    var t := s.(hub := Connect(s.hub, c));
    forall r | r in t.reported && r.0 in Connected(t.hub)
      ensures r.1 in t.hub.owners && r.0 in t.hub.owners[r.1].seers
    {
      assert r.0 in Connected(s.hub);
    }
  }

  lemma HandshakeKeepsSeers(s: System, c: Conn)
    requires Inv(s) && Enabled(s, Handshakes(c))
    ensures SeersComplete(s.(hub := HandshakeCompleted(s.hub, c)))
  {
    var t := s.(hub := HandshakeCompleted(s.hub, c));
    forall r | r in t.reported && r.0 in Connected(t.hub)
      ensures r.1 in t.hub.owners && r.0 in t.hub.owners[r.1].seers
    {
      assert r.0 in Connected(s.hub);
    }
  }

  lemma DiscoveredKeepsSeers(s: System, c: Conn, address: string)
    requires Inv(s) && Enabled(s, Discovers(c, address))
    ensures SeersComplete(Step(s, Discovers(c, address))) && SeersHonest(Step(s, Discovers(c, address)))
  {
    var t := Step(s, Discovers(c, address));
    forall r | r in t.reported && r.0 in Connected(t.hub)
      ensures r.1 in t.hub.owners && r.0 in t.hub.owners[r.1].seers
    {
      assert r.0 in Connected(s.hub);
    }
  }

  lemma StepKeepsInv(s: System, e: Event)
    requires Inv(s)
    ensures Inv(Step(s, e))
  {
    StepKeepsValid(s, e);
    if Enabled(s, e) {
      if e.Closes? {
        ClosedKeepsSeers(s, e.c);
      } else if e.Connects? {
        ConnectKeepsSeers(s, e.c);
      } else if e.Discovers? {
        DiscoveredKeepsSeers(s, e.c, e.address);
      } else if e.Handshakes? {
        HandshakeKeepsSeers(s, e.c);
      }
    }
  }

  lemma {:induction false} RunKeepsInv(s: System, events: seq<Event>)
    requires Inv(s)
    ensures Inv(Run(s, events))
    decreases |events|
  {
    hide Inv, Step;
    if events != [] {
      StepKeepsInv(s, events[0]);
      RunKeepsInv(Step(s, events[0]), events[1..]);
    }
  }

  /** Every state the hub can reach keeps the invariant. */
  lemma ReachableStatesAreSound(events: seq<Event>)
    ensures Inv(Run(START, events))
  {
    assert Inv(START);
    RunKeepsInv(START, events);
  }

  // ----- Ownership over runs -----

  /** No event displaces an owner that is still connected after it. */
  lemma OwnerKept(s: System, e: Event, address: string)
    requires Inv(s)
    requires GetOwner(s.hub, address).Some? && GetOwner(s.hub, address).value in Connected(Step(s, e).hub)
    ensures GetOwner(Step(s, e).hub, address) == GetOwner(s.hub, address)
  {
    assert EntryOk(s.hub.owners[address]);
  }

  /** A client that owns an address owns it for as long as it stays connected. */
  lemma {:induction false} OwnerKeptOverRun(s: System, events: seq<Event>, address: string, owner: Conn)
    requires Inv(s) && GetOwner(s.hub, address) == Some(owner)
    requires forall k :: 0 <= k <= |events| ==> owner in Connected(Run(s, events[..k]).hub)
    ensures GetOwner(Run(s, events).hub, address) == Some(owner)
    decreases |events|
  {
    hide Inv, Step, Connected, GetOwner;
    if events != [] {
      var t := Step(s, events[0]);
      assert events[..1] == [events[0]] && [events[0]][1..] == [];
      assert owner in Connected(t.hub) by {
        assert Run(s, events[..1]).hub == t.hub;
      }
      OwnerKeptBy(s, events[0], address, owner);
      StepKeepsInv(s, events[0]);
      forall k | 0 <= k <= |events[1..]|
        ensures owner in Connected(Run(t, events[1..][..k]).hub)
      {
        assert events[..k + 1][1..] == events[1..][..k];
        assert Run(s, events[..k + 1]) == Run(t, events[..k + 1][1..]);
      }
      OwnerKeptOverRun(t, events[1..], address, owner);
    }
  }

  lemma OwnerKeptBy(s: System, e: Event, address: string, owner: Conn)
    requires Inv(s) && GetOwner(s.hub, address) == Some(owner) && owner in Connected(Step(s, e).hub)
    ensures GetOwner(Step(s, e).hub, address) == Some(owner)
  {
    OwnerKept(s, e, address);
  }

  /**
   When the owner of an address closes, the address goes to the first seer that is still
   connected; there is one exactly when some other connected client ever reported it, and
   without one the address is forgotten.
   */
  lemma ClosingHandsOver(s: System, c: Conn, address: string)
    requires Inv(s) && Enabled(s, Closes(c))
    requires address in s.hub.owners && s.hub.owners[address].owner == c
    ensures var h := Step(s, Closes(c)).hub;
            var heirs := set d | d in Connected(s.hub) && d != c && (d, address) in s.reported;
            && (heirs == {} ==> address !in h.owners)
            && (heirs != {} ==>
                  && GetOwner(h, address).Some? && GetOwner(h, address).value in heirs
                  && NoneBefore(h.owners[address].seers, GetOwner(h, address).value, Connected(h)))
  {
    hide Inv, ConnectionClosed;
    OwnerGone(s.hub, c, address);
    Heirs(s, c, address);
  }

  lemma OwnerGone(h: Hub, c: Conn, address: string)
    requires address in h.owners && h.owners[address].owner == c
    ensures var w, rest := ConnectionClosed(h, c), Without(h.owners[address].seers, c);
            var next := FirstConnected(rest, Connected(h) - {c});
            && Connected(w) == Connected(h) - {c}
            && (address in w.owners <==> next.Some?)
            && (next.Some? ==> w.owners[address] == Entry(next.value, rest))
  {
    hide FirstConnected;
    assert Connected(ConnectionClosed(h, c)) == Connected(h) - {c};
  }

  lemma Heirs(s: System, c: Conn, address: string)
    requires Inv(s) && address in s.hub.owners
    ensures forall d :: d in Without(s.hub.owners[address].seers, c) && d in Connected(s.hub) - {c} <==>
                        d in Connected(s.hub) && d != c && (d, address) in s.reported
  {
    forall d
      ensures d in Without(s.hub.owners[address].seers, c) && d in Connected(s.hub) - {c} <==>
              d in Connected(s.hub) && d != c && (d, address) in s.reported
    {
      if d in Connected(s.hub) && (d, address) in s.reported {
        assert (d, address).0 in Connected(s.hub);
      }
    }
  }

  /**
   While no registered socket is closing, an address has a connected owner exactly when a
   connected client reported it and its recorded owner is registered.
   */
  lemma EveryReportedAddressIsRouted(s: System, address: string)
    requires Inv(s) && s.hub.ready * s.hub.connections <= s.hub.open
    ensures GetOwner(s.hub, address).Some? <==>
            && (exists c :: c in Connected(s.hub) && (c, address) in s.reported)
            && address in s.hub.owners && s.hub.owners[address].owner in s.hub.connections
    ensures GetOwner(s.hub, address).Some? ==> (GetOwner(s.hub, address).value, address) in s.reported
  {
    if address in s.hub.owners {
      var owner := s.hub.owners[address].owner;
      assert EntryOk(s.hub.owners[address]);
      assert (owner, address) in s.reported && (owner, address).0 == owner;
    }
  }

  lemma RunStep(s: System, e: Event, rest: seq<Event>)
    ensures Run(s, [e] + rest) == Run(Step(s, e), rest)
  {
    assert ([e] + rest)[1..] == rest;
  }

  lemma {:induction false} RunAppend(s: System, a: seq<Event>, b: seq<Event>)
    ensures Run(s, a + b) == Run(Run(s, a), b)
    decreases |a|
  {
    hide Step;
    if a == [] {
      assert a + b == b;
    } else {
      assert (a + b)[1..] == a[1..] + b;
      RunAppend(Step(s, a[0]), a[1..], b);
    }
  }

  /** The client `c` connects and says hello. */
  lemma Joins(s: System, c: Conn)
    requires c !in s.known && c !in s.hub.ready && !s.hub.closed && !s.hub.scanActive
    ensures Run(s, [Connects(c), Handshakes(c)]) ==
            s.(hub := s.hub.(connections := s.hub.connections + {c}, open := s.hub.open + {c}, ready := s.hub.ready + {c}),
               known := s.known + {c})
  {
    RunStep(s, Connects(c), [Handshakes(c)]);
    RunStep(Step(s, Connects(c)), Handshakes(c), []);
    assert [Connects(c)] + [Handshakes(c)] == [Connects(c), Handshakes(c)] && [Handshakes(c)] + [] == [Handshakes(c)];
  }

  /**
   The recorded owner can be one that is not registered: 0 is torn down before its hello
   arrives, reports an address whose owner 1 is just closing, and keeps it. Client 2, which
   is connected and had reported it too, is not found.
   */
  lemma LateHelloHidesOwner(address: string) returns (s: System, events: seq<Event>)
    ensures s == Run(START, events)
    ensures s.hub.ready * s.hub.connections <= s.hub.open && 2 in Connected(s.hub) && (2, address) in s.reported
    ensures GetOwner(s.hub, address) == None
    ensures address in s.hub.owners && s.hub.owners[address].owner == 0 && 0 !in s.hub.connections
  {
    var joined := BothJoin();
    var prefix := [Connects(0), Closes(0)] + ([Connects(1), Handshakes(1)] + [Connects(2), Handshakes(2)]);
    var e1, e2, e3, e4, e5, e6 :=
      Discovers(1, address), Discovers(2, address), SocketClosing(1), Handshakes(0), Discovers(0, address), Closes(1);
    events := prefix + ([e1] + ([e2] + ([e3] + ([e4] + ([e5] + ([e6] + []))))));
    s := Run(START, events);
    var s2 := Step(Step(joined, e1), e2);
    var s4 := Step(Step(s2, e3), e4);
    assert s == Step(Step(s4, e5), e6) by {
      hide Step;
      RunAppend(START, prefix, [e1] + ([e2] + ([e3] + ([e4] + ([e5] + ([e6] + []))))));
      RunStep(joined, e1, [e2] + ([e3] + ([e4] + ([e5] + ([e6] + [])))));
      RunStep(Step(joined, e1), e2, [e3] + ([e4] + ([e5] + ([e6] + []))));
      RunStep(s2, e3, [e4] + ([e5] + ([e6] + [])));
      RunStep(Step(s2, e3), e4, [e5] + ([e6] + []));
      RunStep(s4, e5, [e6] + []);
      RunStep(Step(s4, e5), e6, []);
    }
    BothReport(joined, address);
    assert s4.hub == s2.hub.(open := {2}, ready := {0, 1, 2});
    LateReport(s4, address);
  }

  lemma BothReport(s: System, address: string)
    requires s == System(EMPTY.(connections := {1, 2}, open := {1, 2}, ready := {1, 2}), {0, 1, 2}, {})
    ensures Step(Step(s, Discovers(1, address)), Discovers(2, address)) ==
            s.(hub := s.hub.(owners := map[address := Entry(1, [1, 2])]), reported := {(1, address), (2, address)})
  {
    var s1 := Step(s, Discovers(1, address));
    assert s1.hub.owners == map[address := Entry(1, [1])] && s1.reported == {(1, address)};
    assert AddSeer([1], 2) == [1, 2];
    assert s1.hub.owners[address := Entry(1, [1, 2])] == map[address := Entry(1, [1, 2])];
  }

  lemma LateReport(s: System, address: string)
    requires s.hub == EMPTY.(connections := {1, 2}, open := {2}, ready := {0, 1, 2}, owners := map[address := Entry(1, [1, 2])])
    ensures var h := Step(Step(s, Discovers(0, address)), Closes(1)).hub;
            && h.connections == h.open == {2} && h.ready == {0, 2}
            && address in h.owners && h.owners[address].owner == 0
  {
    var t := Step(s, Discovers(0, address));
    assert t.hub.owners[address] == Entry(0, [1, 2] + [0]);
    assert EntryAfterClose(t.hub.owners[address], 1, {2}) == Some(Entry(0, Without([1, 2] + [0], 1)));
    assert {0, 1, 2} - {1} == {0, 2} && {1, 2} - {1} == {2} && {2} - {1} == {2} && {0, 2} * {2} == {2};
  }

  lemma BothJoin() returns (s: System)
    ensures s == Run(START, [Connects(0), Closes(0)] + ([Connects(1), Handshakes(1)] + [Connects(2), Handshakes(2)]))
    ensures s == System(EMPTY.(connections := {1, 2}, open := {1, 2}, ready := {1, 2}), {0, 1, 2}, {})
  {
    var s0 := Run(START, [Connects(0), Closes(0)]);
    RunStep(START, Connects(0), [Closes(0)]);
    RunStep(Step(START, Connects(0)), Closes(0), []);
    assert [Connects(0)] + [Closes(0)] == [Connects(0), Closes(0)] && [Closes(0)] + [] == [Closes(0)];
    assert s0 == System(EMPTY, {0}, {});
    var s1 := Run(s0, [Connects(1), Handshakes(1)]);
    Joins(s0, 1);
    s := Run(s1, [Connects(2), Handshakes(2)]);
    Joins(s1, 2);
    RunAppend(START, [Connects(0), Closes(0)], [Connects(1), Handshakes(1)] + [Connects(2), Handshakes(2)]);
    RunAppend(s0, [Connects(1), Handshakes(1)], [Connects(2), Handshakes(2)]);
  }

  // ----- Who takes over, and in which order -----

  /** A report gives an address without a connected owner to its reporter, and changes no other owner. */
  lemma ReporterTakesOver(s: System, c: Conn, address: string)
    requires Inv(s) && Enabled(s, Discovers(c, address))
    ensures var h := Step(s, Discovers(c, address)).hub;
            && address in h.owners && c in h.owners[address].seers
            && h.owners[address].owner == (if GetOwner(s.hub, address).Some? then GetOwner(s.hub, address).value else c)
            && forall a :: a != address ==> (a in h.owners <==> a in s.hub.owners) && GetOwner(h, a) == GetOwner(s.hub, a)
  {
  }

  /** `x` stands before `y`. */
  predicate Precedes(seers: seq<Conn>, x: Conn, y: Conn) {
    exists i, j :: 0 <= i < j < |seers| && seers[i] == x && seers[j] == y
  }

  /** Seers keep their order, and a new one stands behind those that were there. */
  lemma SeersKeepOrder(s: System, e: Event, address: string, x: Conn, y: Conn)
    requires Inv(s) && address in s.hub.owners && address in Step(s, e).hub.owners
    requires x in s.hub.owners[address].seers && x != y
    requires x in Step(s, e).hub.owners[address].seers && y in Step(s, e).hub.owners[address].seers
    requires y in s.hub.owners[address].seers ==> Precedes(s.hub.owners[address].seers, x, y)
    ensures Precedes(Step(s, e).hub.owners[address].seers, x, y)
  {
    hide Inv, Precedes;
    var seers, later := s.hub.owners[address].seers, Step(s, e).hub.owners[address].seers;
    if Enabled(s, e) {
      if e.Discovers? && e.address == address {
        AddedBehind(seers, e.c, x, y);
      } else if e.Closes? {
        assert later == Without(seers, e.c);
        WithoutKeepsOrder(seers, e.c, x, y);
      } else {
        assert later == seers;
      }
    }
  }

  lemma AddedBehind(seers: seq<Conn>, c: Conn, x: Conn, y: Conn)
    requires x in seers && x != y && y in AddSeer(seers, c)
    requires y in seers ==> Precedes(seers, x, y)
    ensures Precedes(AddSeer(seers, c), x, y)
  {
    var more := AddSeer(seers, c);
    if y in seers {
      var i, j :| 0 <= i < j < |seers| && seers[i] == x && seers[j] == y;
      assert more[i] == x && more[j] == y;
    } else {
      var i :| 0 <= i < |seers| && seers[i] == x;
      assert more[i] == x && more[|seers|] == y;
    }
  }

  lemma {:induction false} WithoutKeepsOrder(seers: seq<Conn>, c: Conn, x: Conn, y: Conn)
    requires x != c && y != c && Precedes(seers, x, y)
    ensures Precedes(Without(seers, c), x, y)
  {
    var i, j :| 0 <= i < j < |seers| && seers[i] == x && seers[j] == y;
    var rest := Without(seers[1..], c);
    if i > 0 {
      assert seers[1..][i - 1] == x && seers[1..][j - 1] == y;
      WithoutKeepsOrder(seers[1..], c, x, y);
      var k, l :| 0 <= k < l < |rest| && rest[k] == x && rest[l] == y;
      assert seers[0] != c ==> Without(seers, c)[k + 1] == x && Without(seers, c)[l + 1] == y;
    } else {
      assert seers[1..][j - 1] == y && y in rest;
      var l :| 0 <= l < |rest| && rest[l] == y;
      assert Without(seers, c)[0] == x && Without(seers, c)[l + 1] == y;
    }
  }

  // ----- Registered connections -----

  /** Every seer and everyone scanning is a registered connection. */
  predicate Registered(h: Hub) {
    && (forall a, c :: a in h.owners && c in h.owners[a].seers ==> c in h.connections)
    && h.scanning <= h.connections
  }

  /** A connection that was torn down reports, or completes a handshake while a scan is active. */
  predicate Lingers(s: System, e: Event) {
    match e
    case Discovers(c, _) => c in s.hub.ready && c !in s.hub.connections
    case Handshakes(c) => c in s.known && c !in s.hub.ready && c !in s.hub.connections && s.hub.scanActive
    case _ => false
  }

  /** Only that can bring in a connection that is not registered, and it always does. */
  lemma RegisteredExactly(s: System, e: Event)
    requires Inv(s) && Registered(s.hub)
    ensures Registered(Step(s, e).hub) <==> !Lingers(s, e)
  {
    if Lingers(s, e) {
      LingererIsSeen(s, e);
    } else {
      RegisteredKept(s, e);
    }
  }

  lemma LingererIsSeen(s: System, e: Event)
    requires Lingers(s, e)
    ensures !Registered(Step(s, e).hub)
  {
    var t := Step(s, e);
    if e.Discovers? {
      assert e.c in t.hub.owners[e.address].seers;
    } else {
      assert e.c in t.hub.scanning;
    }
  }

  lemma RegisteredKept(s: System, e: Event)
    requires Inv(s) && Registered(s.hub) && !Lingers(s, e)
    ensures Registered(Step(s, e).hub)
  {
    hide Inv, ConnectionClosed, DeviceDiscovered;
    if Enabled(s, e) {
      match e
      case Closes(c) => ClosedKeepsRegistered(s.hub, c);
      case Discovers(c, a) => DiscoveredKeepsRegistered(s.hub, c, a);
      case Connects(c) =>
      case Handshakes(c) => HandshakeKeepsRegistered(s, c);
      case SocketClosing(c) =>
      case ClosesAgain(c) =>
      case ScanStarted =>
      case ScanStopped =>
      case StartFails(c) =>
      case ReportsStopped(c) =>
      case Unregisters =>
    }
  }

  lemma HandshakeKeepsRegistered(s: System, c: Conn)
    requires Enabled(s, Handshakes(c)) && Registered(s.hub) && !Lingers(s, Handshakes(c))
    ensures Registered(HandshakeCompleted(s.hub, c))
  {
  }

  lemma ClosedKeepsRegistered(h: Hub, c: Conn)
    requires Registered(h)
    ensures Registered(ConnectionClosed(h, c))
  {
    var w := ConnectionClosed(h, c);
    forall a, d | a in w.owners && d in w.owners[a].seers
      ensures d in w.connections
    {
      assert d in h.owners[a].seers && d != c;
    }
  }

  lemma DiscoveredKeepsRegistered(h: Hub, c: Conn, address: string)
    requires Registered(h) && c in h.connections
    ensures Registered(DeviceDiscovered(h, c, address))
  {
    var w := DeviceDiscovered(h, c, address);
    forall a, d | a in w.owners && d in w.owners[a].seers
      ensures d in w.connections
    {
      if a != address || a in h.owners {
        assert d == c || d in h.owners[a].seers;
      }
    }
  }

  predicate NoneLingers(s: System, events: seq<Event>)
    decreases |events|
  {
    events == [] || (!Lingers(s, events[0]) && NoneLingers(Step(s, events[0]), events[1..]))
  }

  /** So in a run without it every owner, every seer and everyone scanning is registered throughout. */
  lemma {:induction false} RegisteredOverRun(s: System, events: seq<Event>)
    requires Inv(s) && Registered(s.hub) && NoneLingers(s, events)
    ensures Registered(Run(s, events).hub)
    decreases |events|
  {
    hide Inv, Step, Registered, Lingers;
    if events != [] {
      RegisteredExactly(s, events[0]);
      StepKeepsInv(s, events[0]);
      RegisteredOverRun(Step(s, events[0]), events[1..]);
    }
  }

  // ----- The aggregate scan -----

  /** A requested stop, or the end of the hub while a connection that was torn down is thought to be scanning. */
  predicate EndsSilently(s: System, e: Event) {
    e == ScanStopped || (e == Unregisters && !s.hub.closed && !(s.hub.scanning <= s.hub.connections))
  }

  /** `scanStopped` is emitted once when any other event empties the scanning set, and only then. */
  lemma ScanStopsWhenEmptied(s: System, e: Event)
    ensures Step(s, e).hub.scanStops ==
            s.hub.scanStops +
            if s.hub.scanning != {} && Step(s, e).hub.scanning == {} && !EndsSilently(s, e) then 1 else 0
  {
    if e.ScanStarted? {
      assert s.hub.scanning <= Step(s, e).hub.scanning;
    }
  }

  /** How often a run makes the scanning set nonempty, and how often it is emptied silently. */
  function Sessions(s: System, events: seq<Event>): (nat, nat)
    decreases |events|
  {
    if events == [] then (0, 0)
    else
      var t := Step(s, events[0]);
      var rest := Sessions(t, events[1..]);
      (rest.0 + (if s.hub.scanning == {} && t.hub.scanning != {} then 1 else 0),
       rest.1 + (if s.hub.scanning != {} && EndsSilently(s, events[0]) then 1 else 0))
  }

  /** Every scan ends once: silently, by an aggregate `scanStopped`, or not yet. */
  lemma {:induction false} EveryScanEndsOnce(s: System, events: seq<Event>)
    ensures var t, sessions := Run(s, events), Sessions(s, events);
            (if s.hub.scanning == {} then 0 else 1) + sessions.0 ==
            sessions.1 + (t.hub.scanStops - s.hub.scanStops) + (if t.hub.scanning == {} then 0 else 1)
    decreases |events|
  {
    if events != [] {
      ScanStopsWhenEmptied(s, events[0]);
      SilentEndEmpties(s, events[0]);
      hide Step, EndsSilently;
      EveryScanEndsOnce(Step(s, events[0]), events[1..]);
    }
  }

  lemma SilentEndEmpties(s: System, e: Event)
    ensures EndsSilently(s, e) ==> Step(s, e).hub.scanning == {}
  {
  }
}
