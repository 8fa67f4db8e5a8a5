/**
 What the list of events alone says about the hub of BleHub: who is registered, ready and
 open, whether a scan is wanted, and who is scanning. Each of them holds since an event
 that starts it while no event has ended it, read off the events, the last one first.
 */
module BleHubHistory {
  import opened Wrappers
  import opened BleHub

  function Past(events: seq<Event>): (past: seq<Event>)
    requires events != []
    ensures |past| == |events| - 1
  {
    events[..|events| - 1]
  }

  function Last(events: seq<Event>): Event
    requires events != []
  {
    events[|events| - 1]
  }

  /** The hub was unregistered. */
  predicate Ended(events: seq<Event>) {
    Unregisters in events
  }

  /** A socket was accepted for `c`. */
  predicate Met(events: seq<Event>, c: Conn)
    decreases |events|
  {
    events != [] && (Met(Past(events), c) || (Last(events) == Connects(c) && !Ended(Past(events))))
  }

  predicate Accepted(past: seq<Event>, e: Event, c: Conn) {
    e == Connects(c) && !Met(past, c) && !Ended(past)
  }

  /** Registered: since its socket was accepted, until it closes or the hub is unregistered. */
  predicate IsRegistered(events: seq<Event>, c: Conn)
    decreases |events|
  {
    events != [] &&
    var past, e := Past(events), Last(events);
    Accepted(past, e, c) || (IsRegistered(past, c) && e != Closes(c) && e != Unregisters)
  }

  /** Open: the same, until its socket starts to close. */
  predicate IsOpen(events: seq<Event>, c: Conn)
    decreases |events|
  {
    events != [] &&
    var past, e := Past(events), Last(events);
    Accepted(past, e, c) || (IsOpen(past, c) && e != SocketClosing(c) && e != Closes(c) && e != Unregisters)
  }

  /** Ready: since its last handshake, until it is torn down. */
  predicate IsReady(events: seq<Event>, c: Conn)
    decreases |events|
  {
    events != [] &&
    var past, e := Past(events), Last(events);
    || (e == Handshakes(c) && Met(past, c))
    || (IsReady(past, c) && !(if IsRegistered(past, c) then e == Closes(c) || e == Unregisters else e == ClosesAgain(c)))
  }

  /** A scan is wanted since it was last started, until it is stopped. */
  predicate ScanWanted(events: seq<Event>)
    decreases |events|
  {
    events != [] && (Last(events) == ScanStarted || (ScanWanted(Past(events)) && Last(events) != ScanStopped))
  }

  /** A scan starts at a client that is registered and connected, or with its handshake while one is wanted. */
  predicate Starts(past: seq<Event>, e: Event, c: Conn) {
    || (e == ScanStarted && IsRegistered(past, c) && IsReady(past, c) && IsOpen(past, c))
    || (e == Handshakes(c) && Met(past, c) && !IsReady(past, c) && ScanWanted(past))
  }

  predicate Stops(past: seq<Event>, e: Event, c: Conn) {
    || e == StartFails(c) || (e == ReportsStopped(c) && IsReady(past, c))
    || (e == Closes(c) && IsRegistered(past, c))
    || e == ScanStopped || (e == Unregisters && !Ended(past))
  }

  /** Scanning: the last start has had no end since. */
  predicate IsScanning(events: seq<Event>, c: Conn)
    decreases |events|
  {
    events != [] &&
    (Starts(Past(events), Last(events), c) || (IsScanning(Past(events), c) && !Stops(Past(events), Last(events), c)))
  }

  /** The client reported the address at a time when it was ready. */
  predicate HasReported(events: seq<Event>, c: Conn, address: string)
    decreases |events|
  {
    events != [] &&
    (HasReported(Past(events), c, address) || (Last(events) == Discovers(c, address) && IsReady(Past(events), c)))
  }

  // ----- The hub agrees with its history -----

  ghost predicate FlagsAgree(s: System, events: seq<Event>) {
    && s.hub.closed == Ended(events) && s.hub.scanActive == ScanWanted(events)
    && (forall c :: c in s.known <==> Met(events, c))
    && (forall c :: c in s.hub.connections <==> IsRegistered(events, c))
    && (forall c :: c in s.hub.open <==> IsOpen(events, c))
    && (forall c :: c in s.hub.ready <==> IsReady(events, c))
  }

  ghost predicate ScansAgree(s: System, events: seq<Event>) {
    forall c :: c in s.hub.scanning <==> IsScanning(events, c)
  }

  ghost predicate ReportsAgree(s: System, events: seq<Event>) {
    forall c: Conn, a: string :: (c, a) in s.reported <==> HasReported(events, c, a)
  }

  lemma Extended(past: seq<Event>, e: Event)
    ensures Past(past + [e]) == past && Last(past + [e]) == e
    ensures Ended(past + [e]) <==> Ended(past) || e == Unregisters
  {
  }

  lemma FlagsStep(s: System, past: seq<Event>, e: Event)
    requires Inv(s) && FlagsAgree(s, past) && (s.hub.closed ==> s.hub.connections == {})
    ensures FlagsAgree(Step(s, e), past + [e])
    ensures Step(s, e).hub.closed ==> Step(s, e).hub.connections == {}
  {
    hide SeersComplete, SeersHonest, EntryOk, OwnersAfterClose, Seen, Ended, Past, Last, FirstConnected, EntryAfterClose;
    Extended(past, e);
    var t := Step(s, e);
    forall c
      ensures c in t.known <==> Met(past + [e], c)
      ensures c in t.hub.connections <==> IsRegistered(past + [e], c)
      ensures c in t.hub.open <==> IsOpen(past + [e], c)
    {
    }
    forall c
      ensures c in t.hub.ready <==> IsReady(past + [e], c)
    {
    }
  }

  lemma ScansStep(s: System, past: seq<Event>, e: Event)
    requires FlagsAgree(s, past) && ScansAgree(s, past)
    ensures ScansAgree(Step(s, e), past + [e])
  {
    hide OwnersAfterClose, Seen, Ended, Past, Last, Met, IsRegistered, IsOpen, IsReady, ScanWanted, EntryAfterClose;
    Extended(past, e);
    var t := Step(s, e);
    forall c
      ensures c in t.hub.scanning <==> IsScanning(past + [e], c)
    {
    }
  }

  lemma ReportsStep(s: System, past: seq<Event>, e: Event)
    requires FlagsAgree(s, past) && ReportsAgree(s, past)
    ensures ReportsAgree(Step(s, e), past + [e])
  {
    hide OwnersAfterClose, Seen, Ended, Past, Last, Met, IsRegistered, IsOpen, IsReady, ScanWanted;
    Extended(past, e);
  }

  /** After every run the hub is what the list of events says. */
  lemma {:induction false} HubFollowsHistory(events: seq<Event>)
    ensures var s := Run(START, events);
            && Inv(s) && FlagsAgree(s, events) && ScansAgree(s, events) && ReportsAgree(s, events)
            && (s.hub.closed ==> s.hub.connections == {})
    decreases |events|
  {
    if events == [] {
      assert Inv(START);
    } else {
      var past, e := Past(events), Last(events);
      hide Inv, FlagsAgree, ScansAgree, ReportsAgree, Step, Run;
      assert past + [e] == events;
      HubFollowsHistory(past);
      var s := Run(START, past);
      RunAppend(START, past, [e]);
      OneStep(s, e);
      StepKeepsInv(s, e);
      FlagsStep(s, past, e);
      ScansStep(s, past, e);
      ReportsStep(s, past, e);
    }
  }

  lemma OneStep(s: System, e: Event)
    ensures Run(s, [e]) == Step(s, e)
  {
    assert [e][1..] == [];
  }

  /**
   So a client that was told to scan and then reports the end of its scan, as the only one
   scanning, ends the scan of the hub.
   */
  lemma LoneScannerEndsScan(events: seq<Event>, c: Conn)
    requires IsRegistered(events, c) && IsReady(events, c) && IsOpen(events, c)
    requires forall d :: IsRegistered(events, d) && IsReady(events, d) && IsOpen(events, d) ==> d == c
    requires forall d :: !IsScanning(events, d)
    ensures var s := Run(START, events + [ScanStarted]);
            && s.hub.scanning == {c}
            && Step(s, ReportsStopped(c)).hub.scanStops == s.hub.scanStops + 1
  {
    var longer := events + [ScanStarted];
    HubFollowsHistory(events);
    HubFollowsHistory(longer);
    Extended(events, ScanStarted);
    hide Run, Past, Last, IsRegistered, IsReady, IsOpen, ScanWanted, Met;
    var s := Run(START, longer);
    forall d
      ensures d in s.hub.scanning <==> d == c
    {
      ScanningUnfolds(events, ScanStarted, d);
    }
    ReadyUnfolds(events, c);
    ScanStopsWhenEmptied(s, ReportsStopped(c));
  }

  lemma ScanningUnfolds(past: seq<Event>, e: Event, c: Conn)
    ensures IsScanning(past + [e], c) <==> Starts(past, e, c) || (IsScanning(past, c) && !Stops(past, e, c))
  {
    Extended(past, e);
  }

  lemma ReadyUnfolds(past: seq<Event>, c: Conn)
    ensures IsReady(past + [ScanStarted], c) <==> IsReady(past, c)
  {
    Extended(past, ScanStarted);
  }
}
