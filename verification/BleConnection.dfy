/**
 One BLE proxy socket on the server, packages/ble-proxy/src/BleProxyConnection.ts: pending
 commands under a wrapping 16-bit id, and replies, send errors, timeouts and teardown in
 any order.

 A command is known by its serial number, the count of commands sent before it; the
 protocol only carries the serial modulo 65536. A socket that is closing, or was torn down,
 may still deliver messages, even another hello.
 */
module BleConnection {

  const ID_SPAN := 0x1_0000

  /** The id on the wire of the command with the given serial. */
  function Id(serial: nat): nat {
    serial % ID_SPAN
  }

  datatype Server = Server(
    open: bool,
    handshakeComplete: bool,
    closedEmitted: bool,
    pending: map<nat, nat>,
    nextCommandId: nat,
    sent: nat,
    settlements: multiset<nat>)

  const FRESH := Server(true, false, false, map[], 0, 0, multiset{})

  predicate Connected(v: Server) {
    v.handshakeComplete && v.open
  }

  predicate Settled(v: Server, serial: nat) {
    serial in v.settlements
  }

  // ----- The handlers -----

  /** `sendCommand` when connected: the id is taken, the resolver filed under it. */
  function Send(v: Server): Server {
    v.(pending := v.pending[v.nextCommandId := v.sent],
       nextCommandId := (v.nextCommandId + 1) % ID_SPAN,
       sent := v.sent + 1)
  }

  /** The callback of `ws.send` with an error: it may come late, when rejecting has no effect any more. */
  function SendError(v: Server, serial: nat): Server {
    v.(pending := v.pending - {Id(serial)},
       settlements := if Settled(v, serial) then v.settlements else v.settlements + multiset{serial})
  }

  /** The command's timer; it only runs while the command is unsettled. */
  function Timeout(v: Server, serial: nat): Server {
    v.(pending := v.pending - {Id(serial)}, settlements := v.settlements + multiset{serial})
  }

  /** `#handleResponse`: whatever is filed under the id is settled; an unknown id is ignored. */
  function Respond(v: Server, id: nat): Server {
    if id !in v.pending then v
    else v.(pending := v.pending - {id}, settlements := v.settlements + multiset{v.pending[id]})
  }

  /** The text of a reply: without a handshake it is not the hello that is expected. */
  function ReplyText(v: Server, id: nat): Server {
    if v.handshakeComplete then Respond(v, id) else TearDown(v)
  }

  /** The peer starts to close: `readyState` leaves OPEN before the close event comes. */
  function Closing(v: Server): Server {
    v.(open := false)
  }

  /** `ws.close()` if still open, and `#cleanup`: every pending command is rejected. */
  function TearDown(v: Server): Server {
    v.(open := false, handshakeComplete := false, closedEmitted := true,
       pending := map[], settlements := v.settlements + multiset(v.pending.Values))
  }

  /** `#handleHandshake`: a hello of the right version, or the end of the connection. */
  function Handshake(v: Server, accepted: bool): Server {
    if accepted then v.(handshakeComplete := true) else TearDown(v)
  }

  // ----- The server with its client -----

  /** The commands the client has not handled yet and its replies on the way back, as serials. */
  datatype System = System(server: Server, toClient: seq<nat>, toServer: seq<nat>)

  datatype Event =
    | HelloArrives(accepted: bool)
    | HandshakeTimeout
    | CommandSent
    | SendFails(serial: nat)
    | TimerFires(serial: nat)
    | ClientHandles(replies: bool)
    | ReplyArrives
    | SocketClosing
    | SocketCloses

  predicate Enabled(s: System, e: Event) {
    var v := s.server;
    match e
    case HelloArrives(_) => !v.handshakeComplete
    case HandshakeTimeout => !v.handshakeComplete
    case CommandSent => Connected(v)
    case SendFails(serial) => serial < v.sent
    case TimerFires(serial) => serial < v.sent && !Settled(v, serial)
    case ClientHandles(_) => s.toClient != []
    case ReplyArrives => s.toServer != []
    case SocketClosing => true
    case SocketCloses => true
  }

  function Step(s: System, e: Event): System {
    if !Enabled(s, e) then s
    else
      match e
      case HelloArrives(accepted) => s.(server := Handshake(s.server, accepted))
      case HandshakeTimeout => s.(server := TearDown(s.server))
      case CommandSent => s.(server := Send(s.server), toClient := s.toClient + [s.server.sent])
      case SendFails(serial) => s.(server := SendError(s.server, serial))
      case TimerFires(serial) => s.(server := Timeout(s.server, serial))
      case ClientHandles(replies) =>
        s.(toClient := s.toClient[1..], toServer := if replies then s.toServer + [s.toClient[0]] else s.toServer)
      case ReplyArrives =>
        s.(server := ReplyText(s.server, Id(s.toServer[0])), toServer := s.toServer[1..])
      case SocketClosing => s.(server := Closing(s.server))
      case SocketCloses => s.(server := TearDown(s.server))
  }

  // ----- The invariant -----

  predicate Filed(v: Server, serial: nat) {
    Id(serial) in v.pending && v.pending[Id(serial)] == serial
  }

  ghost predicate ServerInv(v: Server) {
    && v.nextCommandId == Id(v.sent)
    && (forall id :: id in v.pending ==>
          && id == Id(v.pending[id]) && v.pending[id] < v.sent <= v.pending[id] + ID_SPAN
          && !Settled(v, v.pending[id]))
    && (forall serial :: serial in v.settlements ==> serial < v.sent && v.settlements[serial] == 1)
    && (!v.handshakeComplete ==> v.pending == map[])
    && (v.closedEmitted ==> !v.open && v.pending == map[])
  }

  /** Commands travel in order, and so do the replies of a client that handles one at a time. */
  predicate InOrder(line: seq<nat>) {
    forall i, j :: 0 <= i < j < |line| ==> line[i] < line[j]
  }

  ghost predicate Inv(s: System) {
    && ServerInv(s.server)
    && InOrder(s.toServer + s.toClient)
    && (forall serial :: serial in s.toServer + s.toClient ==> serial < s.server.sent)
  }

  lemma SendKeeps(v: Server)
    requires ServerInv(v) && Connected(v)
    ensures ServerInv(Send(v))
  {
    NextId(v.sent);
    SendKeepsPending(v);
  }

  lemma NextId(serial: nat)
    ensures Id(serial + 1) == (Id(serial) + 1) % ID_SPAN
  {
  }

  lemma SendKeepsPending(v: Server)
    requires ServerInv(v)
    ensures var w := Send(v);
            forall id :: id in w.pending ==>
              && id == Id(w.pending[id]) && w.pending[id] < w.sent <= w.pending[id] + ID_SPAN
              && !Settled(w, w.pending[id])
  {
    hide Id;
    var w := Send(v);
    forall id | id in w.pending
      ensures id == Id(w.pending[id]) && w.pending[id] < w.sent <= w.pending[id] + ID_SPAN
      ensures !Settled(w, w.pending[id])
    {
      if id != v.nextCommandId {
        assert Id(v.pending[id]) == id;
        if v.sent == v.pending[id] + ID_SPAN {
          SpanApart(v.pending[id]);
        }
      }
    }
  }

  lemma SpanApart(serial: nat)
    ensures Id(serial + ID_SPAN) == Id(serial)
  {
  }

  lemma HandshakeKeeps(v: Server)
    requires ServerInv(v) && !v.handshakeComplete
    ensures ServerInv(Handshake(v, true))
  {
  }

  /** Commands with equal ids are at least a whole span apart. */
  lemma SameId(a: nat, b: nat)
    requires Id(a) == Id(b) && a < b
    ensures a + ID_SPAN <= b
  {
  }

  /** Freeing an id and settling one command that is not settled yet. */
  lemma SettleKeeps(v: Server, serial: nat)
    requires ServerInv(v) && serial < v.sent && !Settled(v, serial)
    ensures ServerInv(v.(pending := v.pending - {Id(serial)}, settlements := v.settlements + multiset{serial}))
  {
    var w := v.(pending := v.pending - {Id(serial)}, settlements := v.settlements + multiset{serial});
    forall id | id in w.pending
      ensures id == Id(w.pending[id]) && w.pending[id] < w.sent <= w.pending[id] + ID_SPAN
      ensures !Settled(w, w.pending[id])
    {
      assert w.pending[id] != serial;
    }
  }

  lemma SendErrorKeeps(v: Server, serial: nat)
    requires ServerInv(v) && serial < v.sent
    ensures ServerInv(SendError(v, serial))
  {
    if !Settled(v, serial) {
      SettleKeeps(v, serial);
    }
  }

  lemma TearDownKeeps(v: Server)
    requires ServerInv(v)
    ensures ServerInv(TearDown(v))
  {
    hide Id;
    var w := TearDown(v);
    forall serial | serial in w.settlements
      ensures serial < w.sent && w.settlements[serial] == 1
    {
      if serial in v.pending.Values {
        var id :| id in v.pending && v.pending[id] == serial;
        assert !Settled(v, serial);
      }
    }
  }

  lemma ClosingKeeps(v: Server)
    requires ServerInv(v)
    ensures ServerInv(Closing(v))
  {
  }

  lemma StepKeepsInv(s: System, e: Event)
    requires Inv(s)
    ensures Inv(Step(s, e))
  {
    if Enabled(s, e) {
      ServerStepKeeps(s, e);
      LineStepKeeps(s, e);
    }
  }

  lemma ServerStepKeeps(s: System, e: Event)
    requires Inv(s) && Enabled(s, e)
    ensures ServerInv(Step(s, e).server)
  {
    hide ServerInv;
    match e
    case CommandSent => SendKeeps(s.server);
    case SendFails(serial) => SendErrorKeeps(s.server, serial);
    case TimerFires(serial) => TimeoutKeeps(s.server, serial);
    case ReplyArrives =>
      RespondKeeps(s.server, Id(s.toServer[0]));
      TearDownKeeps(s.server);
    case HelloArrives(accepted) =>
      if accepted {
        HandshakeKeeps(s.server);
      } else {
        TearDownKeeps(s.server);
      }
    case HandshakeTimeout => TearDownKeeps(s.server);
    case SocketCloses => TearDownKeeps(s.server);
    case SocketClosing => ClosingKeeps(s.server);
    case ClientHandles(replies) =>
  }

  lemma TimeoutKeeps(v: Server, serial: nat)
    requires ServerInv(v) && serial < v.sent && !Settled(v, serial)
    ensures ServerInv(Timeout(v, serial))
  {
    SettleKeeps(v, serial);
  }

  lemma RespondKeeps(v: Server, id: nat)
    requires ServerInv(v)
    ensures ServerInv(Respond(v, id))
  {
    if id in v.pending {
      SettleKeeps(v, v.pending[id]);
    }
  }

  lemma LineStepKeeps(s: System, e: Event)
    requires Inv(s) && Enabled(s, e)
    ensures var t := Step(s, e);
            && InOrder(t.toServer + t.toClient)
            && (forall serial :: serial in t.toServer + t.toClient ==> serial < t.server.sent)
  {
    hide ServerInv, InOrder, Id;
    var line, t := s.toServer + s.toClient, Step(s, e);
    if e.CommandSent? {
      assert t.toServer + t.toClient == line + [s.server.sent];
      Extended(line, s.server.sent);
    } else {
      assert t.server.sent == s.server.sent;
      if e.ClientHandles? && e.replies {
        assert t.toServer + t.toClient == line;
      } else if e.ClientHandles? {
        assert line == s.toServer + [s.toClient[0]] + t.toClient;
        Skipped(s.toServer, s.toClient[0], t.toClient);
      } else if e.ReplyArrives? {
        assert line == [] + [s.toServer[0]] + (t.toServer + t.toClient);
        assert t.toServer + t.toClient == [] + (t.toServer + t.toClient);
        Skipped([], s.toServer[0], t.toServer + t.toClient);
      }
    }
  }

  lemma Extended(line: seq<nat>, next: nat)
    requires InOrder(line) && (forall x :: x in line ==> x < next)
    ensures InOrder(line + [next]) && (forall x :: x in line + [next] ==> x < next + 1)
  {
    assert forall i :: 0 <= i < |line| ==> line[i] in line;
  }

  lemma Skipped(a: seq<nat>, x: nat, b: seq<nat>)
    requires InOrder(a + [x] + b)
    ensures InOrder(a + b)
    ensures forall y :: y in a + b ==> y in a + [x] + b
  {
    var whole, part := a + [x] + b, a + b;
    forall i, j | 0 <= i < j < |part|
      ensures part[i] < part[j]
    {
      var i', j' := if i < |a| then i else i + 1, if j < |a| then j else j + 1;
      assert part[i] == whole[i'] && part[j] == whole[j'];
    }
  }

  // ----- What a reply settles -----

  /** The commands an event settles. */
  function SettledBy(s: System, e: Event): multiset<nat> {
    Step(s, e).server.settlements - s.server.settlements
  }

  /**
   A reply settles the command it answers or nothing, if and only if no later command is
   pending under the same id.
   */
  lemma ReplyCorrelation(s: System)
    requires Inv(s) && Enabled(s, ReplyArrives)
    ensures var answered := s.toServer[0];
            var later := exists serial: nat :: serial > answered && Id(serial) == Id(answered) && Filed(s.server, serial);
            SettledBy(s, ReplyArrives) <= multiset{answered} <==> !later
  {
    var v, answered := s.server, s.toServer[0];
    var id := Id(answered);
    assert answered in s.toServer + s.toClient;
    if id in v.pending {
      var p := v.pending[id];
      assert Filed(v, p);
      assert SettledBy(s, ReplyArrives) == multiset{p};
      if p < answered {
        SameId(p, answered);
      }
    } else {
      assert SettledBy(s, ReplyArrives) == multiset{};
    }
  }

  /**
   That is certain while the client is less than a span of ids behind; and as long as no
   unsettled command lost its place, the reply does settle its command.
   */
  lemma TimelyReplyIsCorrelated(s: System)
    requires Inv(s) && Enabled(s, ReplyArrives) && s.server.sent <= s.toServer[0] + ID_SPAN
    ensures SettledBy(s, ReplyArrives) <= multiset{s.toServer[0]}
    ensures Settled(s.server, s.toServer[0]) ==> SettledBy(s, ReplyArrives) == multiset{}
    ensures NoneLost(s.server) && !Settled(s.server, s.toServer[0]) ==> SettledBy(s, ReplyArrives) == multiset{s.toServer[0]}
  {
    var v, answered := s.server, s.toServer[0];
    assert answered in s.toServer + s.toClient;
    forall serial: nat | serial > answered && Id(serial) == Id(answered)
      ensures !Filed(v, serial)
    {
      SameId(answered, serial);
    }
    ReplyCorrelation(s);
    hide Id, Inv;
    if !Settled(v, answered) && NoneLost(v) {
      assert Filed(v, answered);
    }
    if Settled(v, answered) {
      SettledIsNotFiled(s, answered);
    }
  }

  lemma SettledIsNotFiled(s: System, serial: nat)
    requires Inv(s) && Settled(s.server, serial)
    ensures !Filed(s.server, serial)
    ensures Id(serial) in s.server.pending ==> s.server.pending[Id(serial)] != serial
  {
  }

  // ----- The window in which ids are unique -----

  /** Every unsettled command can still be reached by a reply. */
  ghost predicate NoneLost(v: Server) {
    forall serial: nat :: serial < v.sent && !Settled(v, serial) ==> Filed(v, serial)
  }

  /**
   No command is sent while another one is pending under its id, and a send error comes
   before the counter has come back to the command's id.
   */
  predicate InWindow(s: System, e: Event) {
    match e
    case CommandSent => s.server.nextCommandId !in s.server.pending
    case SendFails(serial) => s.server.sent <= serial + ID_SPAN
    case _ => true
  }

  lemma WindowKeepsAll(s: System, e: Event)
    requires Inv(s) && NoneLost(s.server) && InWindow(s, e)
    ensures NoneLost(Step(s, e).server)
  {
    if Enabled(s, e) {
      var v := s.server;
      match e
      case CommandSent => SendLosesNone(v);
      case SendFails(serial) => SettlingLosesNone(v, serial);
      case TimerFires(serial) => OtherIds(v, serial);
      case ReplyArrives =>
        RespondLosesNone(v, Id(s.toServer[0]));
        TearDownLosesNone(v);
      case HelloArrives(accepted) =>
        if accepted {
          FiledAlike(v, Handshake(v, true));
        } else {
          TearDownLosesNone(v);
        }
      case HandshakeTimeout => TearDownLosesNone(v);
      case SocketCloses => TearDownLosesNone(v);
      case SocketClosing => FiledAlike(v, Closing(v));
      case ClientHandles(replies) =>
    }
  }

  lemma FiledAlike(v: Server, w: Server)
    requires NoneLost(v) && w.pending == v.pending && w.settlements == v.settlements && w.sent == v.sent
    ensures NoneLost(w)
  {
    hide Id;
    assert forall serial: nat :: Filed(v, serial) ==> Filed(w, serial);
    assert forall serial: nat :: !Settled(w, serial) ==> !Settled(v, serial);
  }

  lemma SendLosesNone(v: Server)
    requires ServerInv(v) && NoneLost(v) && v.nextCommandId !in v.pending
    ensures NoneLost(Send(v))
  {
    hide Id;
    var w := Send(v);
    forall serial: nat | serial < w.sent && !Settled(w, serial)
      ensures Filed(w, serial)
    {
      if serial < v.sent {
        assert !Settled(v, serial) && Filed(v, serial);
      }
    }
  }

  /** Settling a command frees its own id only: any other command filed there would be a span away. */
  lemma SettlingLosesNone(v: Server, serial: nat)
    requires ServerInv(v) && NoneLost(v) && serial < v.sent <= serial + ID_SPAN
    ensures NoneLost(SendError(v, serial))
  {
    if Settled(v, serial) {
      SettledIsFree(v, serial);
      assert v.pending - {Id(serial)} == v.pending;
    } else {
      OtherIds(v, serial);
    }
  }

  lemma SettledIsFree(v: Server, serial: nat)
    requires ServerInv(v) && Settled(v, serial) && serial < v.sent <= serial + ID_SPAN
    ensures Id(serial) !in v.pending
  {
    if Id(serial) in v.pending {
      var p := v.pending[Id(serial)];
      if serial < p {
        SameId(serial, p);
      } else if p < serial {
        SameId(p, serial);
      }
    }
  }

  lemma OtherIds(v: Server, serial: nat)
    requires ServerInv(v) && NoneLost(v) && serial < v.sent && !Settled(v, serial)
    ensures NoneLost(Timeout(v, serial))
  {
    assert Filed(v, serial);
    hide Id;
    var w := Timeout(v, serial);
    forall other: nat | other < w.sent && !Settled(w, other)
      ensures Filed(w, other)
    {
      assert !Settled(v, other) && Filed(v, other);
    }
  }

  lemma RespondLosesNone(v: Server, id: nat)
    requires ServerInv(v) && NoneLost(v)
    ensures NoneLost(Respond(v, id))
  {
    if id in v.pending {
      var serial := v.pending[id];
      OtherIds(v, serial);
      assert Respond(v, id) == Timeout(v, serial);
    }
  }

  lemma TearDownLosesNone(v: Server)
    requires NoneLost(v)
    ensures NoneLost(TearDown(v))
    ensures forall serial: nat :: serial < v.sent ==> Settled(TearDown(v), serial)
  {
    hide Id;
    forall serial: nat | serial < v.sent
      ensures Settled(TearDown(v), serial)
    {
      if !Settled(v, serial) {
        assert Filed(v, serial);
        assert serial in v.pending.Values;
      }
    }
  }

  // ----- Whole runs -----

  function Run(s: System, events: seq<Event>): System
    decreases |events|
  {
    if events == [] then s else Run(Step(s, events[0]), events[1..])
  }

  lemma {:induction false} RunKeepsInv(s: System, events: seq<Event>)
    requires Inv(s)
    ensures Inv(Run(s, events))
    decreases |events|
  {
    hide Inv, Step;
    if events != [] {
      StepKeepsInv(s, events[0]);
      RunKeepsInv(Step(s, events[0]), events[1..]);
    }
  }

  /**
   Over every run from a fresh connection, even when ids clash, each command is settled at
   most once, whatever the order of replies, send errors, timeouts and teardown; and once
   the connection is torn down nothing is pending.
   */
  lemma SettledAtMostOnce(events: seq<Event>, serial: nat)
    ensures var v := Run(System(FRESH, [], []), events).server;
            && v.settlements[serial] <= 1
            && (v.closedEmitted ==> v.pending == map[])
  {
    var start := System(FRESH, [], []);
    assert Inv(start);
    RunKeepsInv(start, events);
  }

  /** Every event of the run keeps within the window. */
  predicate RunInWindow(s: System, events: seq<Event>)
    decreases |events|
  {
    events == [] || (InWindow(s, events[0]) && RunInWindow(Step(s, events[0]), events[1..]))
  }

  lemma {:induction false} RunLosesNone(s: System, events: seq<Event>)
    requires Inv(s) && NoneLost(s.server) && RunInWindow(s, events)
    ensures NoneLost(Run(s, events).server)
    decreases |events|
  {
    hide Inv, Step, NoneLost, InWindow;
    if events != [] {
      StepKeepsInv(s, events[0]);
      WindowKeepsAll(s, events[0]);
      RunLosesNone(Step(s, events[0]), events[1..]);
    }
  }

  /** Within the window teardown leaves no command unsettled: every one is settled exactly once. */
  lemma TeardownSettlesAll(events: seq<Event>, serial: nat)
    requires RunInWindow(System(FRESH, [], []), events)
    ensures var v := Run(System(FRESH, [], []), events).server;
            v.closedEmitted && serial < v.sent ==> v.settlements[serial] == 1
  {
    var start := System(FRESH, [], []);
    assert Inv(start);
    RunLosesNone(start, events);
    SettledAtMostOnce(events, serial);
    var v := Run(start, events).server;
    assert serial < v.sent && !Settled(v, serial) ==> Filed(v, serial);
  }

  // ----- Why the window is needed -----

  /** Commands `from`, ..., `from + n - 1`, each sent, timed out, and handled without a reply. */
  function Unanswered(from: nat, n: nat): seq<Event>
    decreases n
  {
    if n == 0 then [] else [CommandSent, TimerFires(from), ClientHandles(false)] + Unanswered(from + 1, n - 1)
  }

  /** A connected server with nothing pending, everything sent settled, one old reply still on the way. */
  predicate Idle(s: System, sent: nat, answered: nat) {
    && s.server.open && s.server.handshakeComplete && !s.server.closedEmitted
    && s.server.pending == map[] && s.server.sent == sent && s.server.nextCommandId == Id(sent)
    && (forall serial :: serial in s.server.settlements ==> serial < sent)
    && s.toClient == [] && s.toServer == [answered]
  }

  lemma UnansweredRound(s: System, sent: nat, answered: nat)
    requires Idle(s, sent, answered)
    ensures Idle(Step(Step(Step(s, CommandSent), TimerFires(sent)), ClientHandles(false)), sent + 1, answered)
    ensures InWindow(s, CommandSent) && InWindow(Step(s, CommandSent), TimerFires(sent))
    ensures InWindow(Step(Step(s, CommandSent), TimerFires(sent)), ClientHandles(false))
  {
    NextId(sent);
    hide Id;
    var s1 := Step(s, CommandSent);
    assert s1.server.pending == map[Id(sent) := sent] && s1.toClient == [sent];
    var s2 := Step(s1, TimerFires(sent));
    assert s2.server.pending == map[];
  }

  lemma RunTriple(s: System, a: Event, b: Event, c: Event, rest: seq<Event>)
    ensures Run(s, [a, b, c] + rest) == Run(Step(Step(Step(s, a), b), c), rest)
    ensures RunInWindow(s, [a, b, c] + rest) <==>
            && InWindow(s, a) && InWindow(Step(s, a), b) && InWindow(Step(Step(s, a), b), c)
            && RunInWindow(Step(Step(Step(s, a), b), c), rest)
  {
    hide Step, InWindow;
    assert ([a, b, c] + rest)[1..] == [b, c] + rest && ([b, c] + rest)[1..] == [c] + rest && ([c] + rest)[1..] == rest;
    assert Run(s, [a, b, c] + rest) == Run(Step(s, a), [b, c] + rest);
    assert Run(Step(s, a), [b, c] + rest) == Run(Step(Step(s, a), b), [c] + rest);
    assert RunInWindow(s, [a, b, c] + rest) <==> InWindow(s, a) && RunInWindow(Step(s, a), [b, c] + rest);
    assert RunInWindow(Step(s, a), [b, c] + rest) <==> InWindow(Step(s, a), b) && RunInWindow(Step(Step(s, a), b), [c] + rest);
  }

  lemma {:induction false} UnansweredRun(s: System, sent: nat, n: nat, answered: nat)
    requires Idle(s, sent, answered)
    ensures Idle(Run(s, Unanswered(sent, n)), sent + n, answered)
    ensures RunInWindow(s, Unanswered(sent, n))
    decreases n
  {
    hide Idle, Step, InWindow;
    if n != 0 {
      UnansweredRound(s, sent, answered);
      RunTriple(s, CommandSent, TimerFires(sent), ClientHandles(false), Unanswered(sent + 1, n - 1));
      UnansweredRun(Step(Step(Step(s, CommandSent), TimerFires(sent)), ClientHandles(false)), sent + 1, n - 1, answered);
    }
  }

  /**
   The whole run keeps within the window, and still a reply settles a command it does not
   answer: the first command times out, its reply is on the way while 65535 further
   commands time out, and arrives after the next one took id 0.
   */
  lemma LateReplySettlesAnother() returns (s: System, events: seq<Event>)
    ensures s == Run(System(FRESH, [], []), events) && RunInWindow(System(FRESH, [], []), events)
    ensures Enabled(s, ReplyArrives) && s.toServer[0] == 0
    ensures SettledBy(s, ReplyArrives) == multiset{ID_SPAN}
  {
    var start := System(FRESH, [], []);
    var s4 := FirstTimesOut();
    var n := ID_SPAN - 1;
    var prefix := [HelloArrives(true), CommandSent, TimerFires(0)] + ([ClientHandles(true)] + Unanswered(1, n));
    events := prefix + [CommandSent];
    var s5 := Run(s4, Unanswered(1, n));
    s := Step(s5, CommandSent);
    UnansweredRun(s4, 1, n, 0);
    NextTakesTheId(s5);
    assert s == Run(start, events) && RunInWindow(start, events) by {
      hide Step, InWindow, Idle;
      RunTriple(start, HelloArrives(true), CommandSent, TimerFires(0), [ClientHandles(true)] + Unanswered(1, n));
      assert ([ClientHandles(true)] + Unanswered(1, n))[1..] == Unanswered(1, n);
      RunAppend(start, prefix, [CommandSent]);
      assert [CommandSent][1..] == [];
    }
  }

  lemma FirstTimesOut() returns (s: System)
    ensures s == Step(Step(Step(Step(System(FRESH, [], []), HelloArrives(true)), CommandSent), TimerFires(0)),
                      ClientHandles(true))
    ensures Idle(s, 1, 0)
    ensures var s0 := System(FRESH, [], []);
            var s1 := Step(s0, HelloArrives(true));
            var s2 := Step(s1, CommandSent);
            && InWindow(s0, HelloArrives(true)) && InWindow(s1, CommandSent) && InWindow(s2, TimerFires(0))
            && InWindow(Step(s2, TimerFires(0)), ClientHandles(true))
  {
    var s1 := Step(System(FRESH, [], []), HelloArrives(true));
    var s2 := Step(s1, CommandSent);
    assert s2.server.pending == map[0 := 0] && s2.toClient == [0];
    var s3 := Step(s2, TimerFires(0));
    assert s3.server.pending == map[] && s3.server.settlements == multiset{0};
    s := Step(s3, ClientHandles(true));
  }

  lemma NextTakesTheId(s: System)
    requires Idle(s, ID_SPAN, 0)
    ensures InWindow(s, CommandSent)
    ensures var t := Step(s, CommandSent);
            Enabled(t, ReplyArrives) && t.toServer[0] == 0 && SettledBy(t, ReplyArrives) == multiset{ID_SPAN}
  {
    var t := Step(s, CommandSent);
    assert t.server.pending == map[0 := ID_SPAN];
    assert ID_SPAN !in t.server.settlements;
  }

  lemma {:induction false} RunAppend(s: System, a: seq<Event>, b: seq<Event>)
    ensures Run(s, a + b) == Run(Run(s, a), b)
    ensures RunInWindow(s, a + b) <==> RunInWindow(s, a) && RunInWindow(Run(s, a), b)
    decreases |a|
  {
    hide Step, InWindow;
    if a == [] {
      assert a + b == b;
    } else {
      assert (a + b)[1..] == a[1..] + b;
      RunAppend(Step(s, a[0]), a[1..], b);
    }
  }
}
