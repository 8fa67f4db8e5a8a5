/**
 What the list of events alone says about one socket of BleConnection: whether it is up,
 what was sent, handled and answered, which commands are filed and which are settled.
 Everything is read off the events, the last one first; ids are in plain numbers.
 */
module BleConnectionHistory {
  import opened BleConnection

  function Past(events: seq<Event>): (past: seq<Event>)
    requires events != []
    ensures |past| == |events| - 1
  {
    events[..|events| - 1]
  }

  function Last(events: seq<Event>): Event
    requires events != []
  {
    events[|events| - 1]
  }

  predicate SameNumber(m: nat, n: nat) {
    m % 65536 == n % 65536
  }

  // ----- The socket -----

  /** The socket closes, or the first message is no hello of the right version, or none comes in time. */
  predicate TearsDown(past: seq<Event>, e: Event)
    decreases |past|, 3
  {
    e == SocketCloses || (!IsUp(past) && (e == HelloArrives(false) || e == HandshakeTimeout || Answers(past, e)))
  }

  /** Up: since an accepted hello, until it is torn down. */
  predicate IsUp(events: seq<Event>)
    decreases |events|, 0
  {
    events != [] &&
    var past, e := Past(events), Last(events);
    e == HelloArrives(true) || (IsUp(past) && !TearsDown(past, e))
  }

  /** Open: from the start, until it closes, is torn down or starts to close. */
  predicate IsOpen(events: seq<Event>)
    decreases |events|, 0
  {
    events != [] ==> IsOpen(Past(events)) && Last(events) != SocketClosing && !TearsDown(Past(events), Last(events))
  }

  predicate WasTorn(events: seq<Event>)
    decreases |events|, 0
  {
    events != [] && (WasTorn(Past(events)) || TearsDown(Past(events), Last(events)))
  }

  // ----- Commands and replies on their way -----

  predicate Sends(past: seq<Event>, e: Event)
    decreases |past|, 3
  {
    e == CommandSent && IsUp(past) && IsOpen(past)
  }

  function Sent(events: seq<Event>): nat
    decreases |events|, 0
  {
    if events == [] then 0 else Sent(Past(events)) + if Sends(Past(events), Last(events)) then 1 else 0
  }

  /** How many commands the client has handled, one after the other. */
  function Handled(events: seq<Event>): nat
    decreases |events|, 0
  {
    if events == [] then 0
    else
      var past := Past(events);
      Handled(past) + if Last(events).ClientHandles? && Handled(past) < Sent(past) then 1 else 0
  }

  /** The commands the client has replied to, in order. */
  function Replied(events: seq<Event>): seq<nat>
    decreases |events|, 0
  {
    if events == [] then []
    else
      var past := Past(events);
      Replied(past) + if Last(events) == ClientHandles(true) && Handled(past) < Sent(past) then [Handled(past)] else []
  }

  /** How many replies have arrived. */
  function Arrived(events: seq<Event>): (k: nat)
    ensures k <= |Replied(events)|
    decreases |events|, 1
  {
    if events == [] then 0
    else Arrived(Past(events)) + if Answers(Past(events), Last(events)) then 1 else 0
  }

  /** A reply arrives: the one to `Replied(past)[Arrived(past)]`. */
  predicate Answers(past: seq<Event>, e: Event)
    decreases |past|, 2
  {
    e == ReplyArrives && Arrived(past) < |Replied(past)|
  }

  // ----- What is filed and what is settled -----

  /** A reply comes in for the id of `n`. */
  predicate Replies(past: seq<Event>, e: Event, n: nat)
    decreases |past|, 3
  {
    Answers(past, e) && IsUp(past) && SameNumber(Replied(past)[Arrived(past)], n)
  }

  predicate Frees(past: seq<Event>, e: Event, n: nat)
    decreases |past|, 4
  {
    || TearsDown(past, e) || Replies(past, e, n)
    || (Sends(past, e) && SameNumber(Sent(past), n))
    || (e.SendFails? && e.serial < Sent(past) && SameNumber(e.serial, n))
    || (e.TimerFires? && e.serial < Sent(past) && !SettledAfter(past, e.serial) && SameNumber(e.serial, n))
  }

  /** Filed: since it was sent, until its id is freed or taken. */
  predicate FiledAfter(events: seq<Event>, n: nat)
    decreases |events|, 0
  {
    events != [] &&
    var past, e := Past(events), Last(events);
    (Sends(past, e) && Sent(past) == n) || (FiledAfter(past, n) && !Frees(past, e, n))
  }

  /** Settled: by its own send error or timer, or while it is filed by a reply or the end of the connection. */
  predicate SettledAfter(events: seq<Event>, n: nat)
    decreases |events|, 0
  {
    events != [] &&
    var past, e := Past(events), Last(events);
    || SettledAfter(past, n)
    || (n < Sent(past) && (e == SendFails(n) || e == TimerFires(n)))
    || (FiledAfter(past, n) && (TearsDown(past, e) || Replies(past, e, n)))
  }

  // ----- The connection agrees with its history -----

  ghost predicate SocketAgrees(v: Server, events: seq<Event>) {
    && v.open == IsOpen(events) && v.handshakeComplete == IsUp(events) && v.closedEmitted == WasTorn(events)
    && v.sent == Sent(events) && v.nextCommandId == Sent(events) % 65536
  }

  ghost predicate LinesAgree(s: System, events: seq<Event>) {
    && |s.toClient| == Sent(events) - Handled(events)
    && (forall i :: 0 <= i < |s.toClient| ==> s.toClient[i] == Handled(events) + i)
    && s.toServer == Replied(events)[Arrived(events)..]
  }

  predicate Holds(v: Server, n: nat) {
    n % 65536 in v.pending && v.pending[n % 65536] == n
  }

  ghost predicate FilesAgree(v: Server, events: seq<Event>) {
    forall n: nat :: Holds(v, n) <==> FiledAfter(events, n)
  }

  ghost predicate SettlementsAgree(v: Server, events: seq<Event>) {
    forall n: nat :: v.settlements[n] == if SettledAfter(events, n) then 1 else 0
  }

  lemma Extended(past: seq<Event>, e: Event)
    ensures Past(past + [e]) == past && Last(past + [e]) == e
  {
  }

  lemma AnswersWhenEnabled(s: System, past: seq<Event>, e: Event)
    requires LinesAgree(s, past)
    ensures Answers(past, e) <==> e == ReplyArrives && Enabled(s, e)
    ensures Answers(past, e) ==> s.toServer[0] == Replied(past)[Arrived(past)]
  {
  }

  lemma SocketStep(s: System, past: seq<Event>, e: Event)
    requires Inv(s) && SocketAgrees(s.server, past) && LinesAgree(s, past)
    ensures SocketAgrees(Step(s, e).server, past + [e])
  {
    AnswersWhenEnabled(s, past, e);
    StepKeepsInv(s, e);
    AgreesWithId(Step(s, e).server);
    hide Answers, Inv, LinesAgree;
    FlagsStep(s, past, e);
    SentStep(s, past, e);
  }

  lemma FlagsStep(s: System, past: seq<Event>, e: Event)
    requires SocketAgrees(s.server, past) && (Answers(past, e) <==> e == ReplyArrives && Enabled(s, e))
    ensures var v := Step(s, e).server;
            && v.handshakeComplete == IsUp(past + [e]) && v.open == IsOpen(past + [e])
            && v.closedEmitted == WasTorn(past + [e])
  {
    hide Past, Last, Answers, Id;
    Extended(past, e);
  }

  lemma SentStep(s: System, past: seq<Event>, e: Event)
    requires SocketAgrees(s.server, past)
    ensures Step(s, e).server.sent == Sent(past + [e])
  {
    hide Past, Last, IsUp, IsOpen, Id;
    Extended(past, e);
  }

  lemma AgreesWithId(v: Server)
    requires ServerInv(v)
    ensures v.nextCommandId == v.sent % 65536
  {
  }

  lemma LinesStep(s: System, past: seq<Event>, e: Event)
    requires SocketAgrees(s.server, past) && LinesAgree(s, past)
    ensures LinesAgree(Step(s, e), past + [e])
  {
    hide Past, Last, IsUp, IsOpen;
    Extended(past, e);
    AnswersWhenEnabled(s, past, e);
    var t := Step(s, e);
    var replied, arrived := Replied(past), Arrived(past);
    if e.ClientHandles? && s.toClient != [] && e.replies {
      assert Replied(past + [e]) == replied + [Handled(past)];
      assert (replied + [Handled(past)])[arrived..] == replied[arrived..] + [Handled(past)];
    } else if Answers(past, e) {
      assert Replied(past + [e]) == replied && Arrived(past + [e]) == arrived + 1;
      assert replied[arrived..][1..] == replied[arrived + 1..];
    } else {
      assert Replied(past + [e]) == replied && Arrived(past + [e]) == arrived;
      assert t.toServer == s.toServer;
      assert e == CommandSent ==> (Enabled(s, e) <==> Sends(past, e));
      assert Sent(past + [e]) == Sent(past) + if Sends(past, e) then 1 else 0;
      assert |t.toClient| == Sent(past + [e]) - Handled(past + [e]);
    }
  }

  lemma FilesUnfold(past: seq<Event>, e: Event, n: nat)
    ensures FiledAfter(past + [e], n) <==>
            (Sends(past, e) && Sent(past) == n) || (FiledAfter(past, n) && !Frees(past, e, n))
    ensures SettledAfter(past + [e], n) <==>
            || SettledAfter(past, n)
            || (n < Sent(past) && (e == SendFails(n) || e == TimerFires(n)))
            || (FiledAfter(past, n) && (TearsDown(past, e) || Replies(past, e, n)))
  {
    Extended(past, e);
  }

  ghost predicate Agrees(s: System, events: seq<Event>) {
    && SocketAgrees(s.server, events) && LinesAgree(s, events)
    && FilesAgree(s.server, events) && SettlementsAgree(s.server, events)
  }

  // What each handler does to the place and the settlements of one command.

  lemma SendFiles(v: Server, n: nat)
    requires ServerInv(v)
    ensures Holds(Send(v), n) <==> n == v.sent || (Holds(v, n) && !SameNumber(v.sent, n))
    ensures Send(v).settlements == v.settlements
  {
    AgreesWithId(v);
  }

  lemma RespondFrees(v: Server, m: nat, n: nat)
    requires ServerInv(v)
    ensures var w := Respond(v, Id(m));
            && (Holds(w, n) <==> Holds(v, n) && !SameNumber(m, n))
            && w.settlements[n] == v.settlements[n] + if Holds(v, n) && SameNumber(m, n) then 1 else 0
  {
    FiledUnderId(v, m);
    assert Id(m) == m % 65536 && Id(n) == n % 65536;
    hide Id, ServerInv;
  }

  lemma FiledUnderId(v: Server, m: nat)
    requires ServerInv(v)
    ensures Id(m) in v.pending ==> v.pending[Id(m)] % 65536 == Id(m)
  {
    assert Id(m) in v.pending ==> Id(m) == Id(v.pending[Id(m)]);
  }

  /** The send error and the timer of the command `m`. */
  lemma OwnEndFrees(v: Server, m: nat, n: nat)
    ensures Holds(SendError(v, m), n) <==> Holds(v, n) && !SameNumber(m, n)
    ensures Holds(Timeout(v, m), n) <==> Holds(v, n) && !SameNumber(m, n)
    ensures SendError(v, m).settlements[n] == v.settlements[n] + if m == n && !Settled(v, m) then 1 else 0
    ensures Timeout(v, m).settlements[n] == v.settlements[n] + if m == n then 1 else 0
  {
    assert Id(m) == m % 65536;
    hide Id;
  }

  lemma TearDownFrees(v: Server, n: nat)
    requires ServerInv(v)
    ensures var w := TearDown(v);
            !Holds(w, n) && w.settlements[n] == v.settlements[n] + if Holds(v, n) then 1 else 0
  {
    if n in v.pending.Values {
      var id :| id in v.pending && v.pending[id] == n;
      assert id == Id(n);
    }
  }

  /** What a step means for the place and the settlements of one command. */
  ghost predicate CommandAgrees(s: System, past: seq<Event>, e: Event, n: nat) {
    var v, w := s.server, Step(s, e).server;
    && (Holds(w, n) <==> (Sends(past, e) && Sent(past) == n) || (Holds(v, n) && !Frees(past, e, n)))
    && w.settlements[n] ==
       if SettledAfter(past, n)
          || (n < Sent(past) && (e == SendFails(n) || e == TimerFires(n)))
          || (Holds(v, n) && (TearsDown(past, e) || Replies(past, e, n))) then 1 else 0
  }

  lemma CommandStep(s: System, past: seq<Event>, e: Event, n: nat)
    requires Inv(s) && SocketAgrees(s.server, past) && LinesAgree(s, past) && SettlementsAgree(s.server, past)
    ensures CommandAgrees(s, past, e, n)
  {
    StepKeepsInv(s, e);
    assert ServerInv(s.server) && ServerInv(Step(s, e).server);
    SettledOnce(Step(s, e).server, n);
    hide CommandAgrees, Inv, ServerInv, LinesAgree, Step, TearsDown;
    AnswersWhenEnabled(s, past, e);
    if TearsDown(past, e) {
      TearDownStep(s, past, e, n);
    } else if e == ReplyArrives {
      ReplyStep(s, past, n);
    } else if e.SendFails? || e.TimerFires? {
      OwnEndStep(s, past, e, n);
    } else {
      OtherStep(s, past, e, n);
    }
  }

  lemma TearDownStep(s: System, past: seq<Event>, e: Event, n: nat)
    requires ServerInv(s.server) && SocketAgrees(s.server, past) && SettlementsAgree(s.server, past)
    requires TearsDown(past, e) && (Answers(past, e) <==> e == ReplyArrives && Enabled(s, e))
    requires Step(s, e).server.settlements[n] <= 1
    ensures CommandAgrees(s, past, e, n)
  {
    TearDownFrees(s.server, n);
    hide Holds, Answers, ServerInv, IsUp, IsOpen, SettledAfter, TearDown;
    assert Step(s, e).server == TearDown(s.server);
  }

  lemma ReplyStep(s: System, past: seq<Event>, n: nat)
    requires ServerInv(s.server) && SocketAgrees(s.server, past) && SettlementsAgree(s.server, past)
    requires !TearsDown(past, ReplyArrives) && (Answers(past, ReplyArrives) <==> Enabled(s, ReplyArrives))
    requires Answers(past, ReplyArrives) ==> s.toServer[0] == Replied(past)[Arrived(past)]
    requires Step(s, ReplyArrives).server.settlements[n] <= 1
    ensures CommandAgrees(s, past, ReplyArrives, n)
  {
    if s.toServer != [] {
      RespondFrees(s.server, s.toServer[0], n);
    }
    hide Id, Holds, SameNumber, Answers, Arrived, Replied, ServerInv, IsUp, IsOpen, SettledAfter, Respond;
  }

  lemma OwnEndStep(s: System, past: seq<Event>, e: Event, n: nat)
    requires SocketAgrees(s.server, past) && SettlementsAgree(s.server, past)
    requires !TearsDown(past, e) && (e.SendFails? || e.TimerFires?)
    requires Step(s, e).server.settlements[n] <= 1
    ensures CommandAgrees(s, past, e, n)
  {
    OwnEndFrees(s.server, e.serial, n);
    assert !Replies(past, e, n) && !Sends(past, e);
    hide Id, Holds, SameNumber, Replies, Sends, TearsDown, IsUp, IsOpen, SettledAfter, SendError, Timeout;
  }

  lemma OtherStep(s: System, past: seq<Event>, e: Event, n: nat)
    requires ServerInv(s.server) && SocketAgrees(s.server, past) && SettlementsAgree(s.server, past)
    requires !TearsDown(past, e) && !e.ReplyArrives? && !e.SendFails? && !e.TimerFires?
    ensures CommandAgrees(s, past, e, n)
  {
    SendFiles(s.server, n);
    hide Id, SameNumber, Answers, ServerInv, IsUp, IsOpen, SettledAfter;
  }

  lemma SettledOnce(v: Server, n: nat)
    requires ServerInv(v)
    ensures v.settlements[n] <= 1
  {
  }

  /** After every run the connection is what the list of events says. */
  lemma {:induction false} ConnectionFollowsHistory(events: seq<Event>)
    ensures var s := Run(System(FRESH, [], []), events);
            Inv(s) && Agrees(s, events)
    decreases |events|
  {
    var start := System(FRESH, [], []);
    if events == [] {
      assert Inv(start);
    } else {
      var past, e := Past(events), Last(events);
      ConnectionFollowsHistory(past);
      var s := Run(start, past);
      OneStep(start, past, e);
      assert past + [e] == events;
      hide Inv, Agrees, Step, Run, FiledAfter, SettledAfter, Holds, SocketAgrees, LinesAgree;
      StepKeepsInv(s, e);
      StepAgrees(s, past, e);
    }
  }

  lemma OneStep(s: System, past: seq<Event>, e: Event)
    ensures Run(s, past + [e]) == Step(Run(s, past), e)
  {
    hide Step;
    RunAppend(s, past, [e]);
    assert [e][1..] == [];
  }

  lemma StepAgrees(s: System, past: seq<Event>, e: Event)
    requires Inv(s) && Agrees(s, past)
    ensures Agrees(Step(s, e), past + [e])
  {
    hide Inv, SocketAgrees, LinesAgree, Step, FiledAfter, SettledAfter, Holds, Frees, TearsDown, Replies, Sends;
    SocketStep(s, past, e);
    LinesStep(s, past, e);
    forall n: nat
      ensures Holds(Step(s, e).server, n) <==> FiledAfter(past + [e], n)
      ensures Step(s, e).server.settlements[n] == if SettledAfter(past + [e], n) then 1 else 0
    {
      CommandStep(s, past, e, n);
      FilesUnfold(past, e, n);
    }
  }

  /** So a connection that was torn down, by a refused hello or otherwise, is closed, announced, and has settled all it filed. */
  lemma TornDownIsClosed(past: seq<Event>, e: Event, n: nat)
    requires TearsDown(past, e)
    ensures var v := Run(System(FRESH, [], []), past + [e]).server;
            && !v.open && !v.handshakeComplete && v.closedEmitted && v.pending == map[]
            && (FiledAfter(past, n) ==> v.settlements[n] == 1)
  {
    ConnectionFollowsHistory(past + [e]);
    Extended(past, e);
    var v := Run(System(FRESH, [], []), past + [e]).server;
    FilesUnfold(past, e, n);
    assert SettlementsAgree(v, past + [e]);
  }
}
