/**
 What the list of events alone says about the handles of BleHandles: which attempts were
 established, what became of each, and which of them are on file. Everything here is read
 off the events, the last one first, with the handle of attempt `n` in plain numbers.
 */
module BleHandleHistory {
  import opened Wrappers
  import opened BleHandles

  function Number(n: nat): nat {
    (n + 1) % 65536
  }

  /** The attempt under way: begun, and neither succeeded nor failed since. */
  function Pending(events: seq<Event>): Option<nat>
    decreases |events|
  {
    if events == [] then None
    else
      var past := events[..|events| - 1];
      match events[|events| - 1]
      case ConnectBegins => if Pending(past).None? then Some(Attempts(past)) else Pending(past)
      case ConnectSucceeds => None
      case ConnectFails => None
      case _ => Pending(past)
  }

  /** Attempts are made one at a time. */
  function Attempts(events: seq<Event>): nat
    decreases |events|
  {
    if events == [] then 0
    else
      var past := events[..|events| - 1];
      Attempts(past) + if events[|events| - 1] == ConnectBegins && Pending(past).None? then 1 else 0
  }

  /** The event establishes a connection under the handle of `n`. */
  predicate TakesHandle(past: seq<Event>, e: Event, n: nat) {
    e == ConnectSucceeds && Pending(past).Some? && Number(Pending(past).value) == Number(n)
  }

  predicate CommandedBy(past: seq<Event>, e: Event, n: nat) {
    e == DisconnectCommand(Number(n)) && Pending(past).None?
  }

  predicate CalledBack(past: seq<Event>, e: Event, n: nat) {
    e.Callback? && e.serial < Attempts(past) && Number(e.serial) == Number(n)
  }

  /** What became of attempt `n`: nothing before it succeeds, and live until the first event that seals it. */
  function FateAfter(events: seq<Event>, n: nat): Option<Fate>
    decreases |events|
  {
    if events == [] then None
    else
      var past, e := events[..|events| - 1], events[|events| - 1];
      if e == ConnectSucceeds && Pending(past) == Some(n) then Some(Live)
      else if FateAfter(past, n) != Some(Live) then FateAfter(past, n)
      else if TakesHandle(past, e, n) then Some(Overwritten)
      else if CommandedBy(past, e, n) then Some(Commanded)
      else if CalledBack(past, e, n) then Some(Reported)
      else if e == Visit(Number(n)) || e == Clear then Some(Released)
      else Some(Live)
  }

  /** Whether the dictionary has the connection: a visit of a release leaves it there. */
  predicate FiledAfter(events: seq<Event>, n: nat)
    decreases |events|
  {
    events != [] &&
    var past, e := events[..|events| - 1], events[|events| - 1];
    || (e == ConnectSucceeds && Pending(past) == Some(n))
    || (&& FiledAfter(past, n)
        && !TakesHandle(past, e, n) && !CommandedBy(past, e, n) && e != Clear
        && !(CalledBack(past, e, n) && FateAfter(past, n) == Some(Live)))
  }

  // ----- The proxy agrees with its history -----

  ghost predicate AttemptsAgree(p: Proxy, events: seq<Event>) {
    && p.attempts == Attempts(events)
    && p.connecting == (if Pending(events).None? then None else Some((Pending(events).value, Number(Pending(events).value))))
  }

  ghost predicate FatesAgree(p: Proxy, events: seq<Event>) {
    forall n: nat :: FateAfter(events, n) == if n in p.fate then Some(p.fate[n]) else None
  }

  /** Whether the dictionary holds the connection of attempt `n`. */
  predicate Holds(p: Proxy, n: nat) {
    Number(n) in p.connections && p.connections[Number(n)].serial == n
  }

  ghost predicate FilesAgree(p: Proxy, events: seq<Event>) {
    forall n: nat :: FiledAfter(events, n) <==> Holds(p, n)
  }

  lemma RunLast(p: Proxy, past: seq<Event>, e: Event)
    ensures Run(p, past + [e]) == Step(Run(p, past), e)
    decreases |past|
  {
    hide Step;
    if past == [] {
      assert [] + [e] == [e] && [e][1..] == [];
    } else {
      assert (past + [e])[1..] == past[1..] + [e];
      RunLast(Step(p, past[0]), past[1..], e);
    }
  }

  lemma AttemptsStep(p: Proxy, past: seq<Event>, e: Event)
    requires Inv(p) && AttemptsAgree(p, past)
    ensures AttemptsAgree(Step(p, e), past + [e])
  {
    assert (past + [e])[..|past|] == past;
  }

  lemma FateUnfolds(past: seq<Event>, e: Event, n: nat)
    ensures FateAfter(past + [e], n) ==
            if e == ConnectSucceeds && Pending(past) == Some(n) then Some(Live)
            else if FateAfter(past, n) != Some(Live) then FateAfter(past, n)
            else if TakesHandle(past, e, n) then Some(Overwritten)
            else if CommandedBy(past, e, n) then Some(Commanded)
            else if CalledBack(past, e, n) then Some(Reported)
            else if e == Visit(Number(n)) || e == Clear then Some(Released)
            else Some(Live)
  {
    hide TakesHandle, CommandedBy, CalledBack, Number, Pending;
    assert (past + [e])[..|past|] == past;
  }

  lemma FatesStep(p: Proxy, past: seq<Event>, e: Event)
    requires Inv(p) && AttemptsAgree(p, past) && FatesAgree(p, past)
    ensures FatesAgree(Step(p, e), past + [e])
  {
    forall n: nat
      ensures FateAfter(past + [e], n) == if n in Step(p, e).fate then Some(Step(p, e).fate[n]) else None
    {
      FateUnfolds(past, e, n);
      if n !in p.fate {
        NewFate(p, past, e, n);
      } else {
        FateIsFinal(p, e, n);
        if p.fate[n] == Live {
          LiveFate(p, past, e, n);
        }
      }
    }
  }

  lemma NewFate(p: Proxy, past: seq<Event>, e: Event, n: nat)
    requires Inv(p) && AttemptsAgree(p, past) && n !in p.fate
    ensures n in Step(p, e).fate <==> e == ConnectSucceeds && Pending(past) == Some(n)
    ensures n in Step(p, e).fate ==> Step(p, e).fate[n] == Live
  {
    hide Number, Handle, Pending, Attempts;
    assert forall h :: h in p.connections ==> Filed(p, h);
  }

  /** Nothing but the listed events seals the fate of a live connection. */
  lemma LiveFate(p: Proxy, past: seq<Event>, e: Event, n: nat)
    requires Inv(p) && AttemptsAgree(p, past) && n in p.fate && p.fate[n] == Live
    ensures n in Step(p, e).fate
    ensures Step(p, e).fate[n] ==
            if TakesHandle(past, e, n) then Overwritten
            else if CommandedBy(past, e, n) then Commanded
            else if CalledBack(past, e, n) then Reported
            else if e == Visit(Number(n)) || e == Clear then Released
            else Live
  {
    assert Number(n) == Handle(n) && forall m :: Number(m) == Handle(m);
    hide Number, Handle, Pending, Attempts, ReportedOnce;
    assert p.connections[Handle(n)] == Conn(n, false);
    assert forall h :: h in p.connections ==> Filed(p, h);
  }

  lemma FilesUnfold(past: seq<Event>, e: Event, n: nat)
    ensures FiledAfter(past + [e], n) <==>
            || (e == ConnectSucceeds && Pending(past) == Some(n))
            || (&& FiledAfter(past, n)
                && !TakesHandle(past, e, n) && !CommandedBy(past, e, n) && e != Clear
                && !(CalledBack(past, e, n) && FateAfter(past, n) == Some(Live)))
  {
    hide TakesHandle, CommandedBy, CalledBack, Number, Pending, FateAfter;
    assert (past + [e])[..|past|] == past;
  }

  lemma FilesStep(p: Proxy, past: seq<Event>, e: Event)
    requires Inv(p) && AttemptsAgree(p, past) && FatesAgree(p, past) && FilesAgree(p, past)
    ensures FilesAgree(Step(p, e), past + [e])
  {
    forall n: nat
      ensures FiledAfter(past + [e], n) <==> Holds(Step(p, e), n)
    {
      FilesUnfold(past, e, n);
      FileStep(p, past, e, n);
    }
  }

  lemma FileStep(p: Proxy, past: seq<Event>, e: Event, n: nat)
    requires Inv(p) && AttemptsAgree(p, past) && FatesAgree(p, past) && (FiledAfter(past, n) <==> Holds(p, n))
    ensures Holds(Step(p, e), n) <==>
            || (e == ConnectSucceeds && Pending(past) == Some(n))
            || (&& FiledAfter(past, n)
                && !TakesHandle(past, e, n) && !CommandedBy(past, e, n) && e != Clear
                && !(CalledBack(past, e, n) && FateAfter(past, n) == Some(Live)))
  {
    if e == ConnectSucceeds {
      FiledByConnect(p, past, n);
    } else if e.Callback? {
      FiledAfterCallback(p, past, e.serial, n);
    } else {
      assert Number(n) == Handle(n);
      hide Number, Handle, Pending, Attempts, FiledAfter, FateAfter, Inv, FatesAgree;
    }
  }

  lemma FiledByConnect(p: Proxy, past: seq<Event>, n: nat)
    requires Inv(p) && AttemptsAgree(p, past)
    ensures Holds(Step(p, ConnectSucceeds), n) <==>
            Pending(past) == Some(n) || (Holds(p, n) && !TakesHandle(past, ConnectSucceeds, n))
  {
    assert forall m :: Number(m) == Handle(m);
    hide Number, Handle, Pending, Attempts, LiveIsFiled, ReportedOnce;
  }

  lemma FiledAfterCallback(p: Proxy, past: seq<Event>, serial: nat, n: nat)
    requires Inv(p) && AttemptsAgree(p, past) && FatesAgree(p, past)
    ensures Holds(Step(p, Callback(serial)), n) <==>
            Holds(p, n) && !(CalledBack(past, Callback(serial), n) && FateAfter(past, n) == Some(Live))
  {
    assert forall m :: Number(m) == Handle(m);
    hide Number, Handle, Pending, Attempts, LiveIsFiled, ReportedOnce;
    if Holds(p, n) {
      assert Filed(p, Number(n));
    }
  }

  /** After every run the proxy is what the list of events says. */
  lemma {:induction false} HandlesFollowHistory(events: seq<Event>)
    ensures var p := Run(START, events);
            Inv(p) && AttemptsAgree(p, events) && FatesAgree(p, events) && FilesAgree(p, events)
    decreases |events|
  {
    if events == [] {
      assert Inv(START);
    } else {
      var past, e := events[..|events| - 1], events[|events| - 1];
      hide Inv, AttemptsAgree, FatesAgree, FilesAgree, Step, Run;
      assert past + [e] == events;
      HandlesFollowHistory(past);
      var p := Run(START, past);
      RunLast(START, past, e);
      StepKeepsInv(p, e);
      AttemptsStep(p, past, e);
      FatesStep(p, past, e);
      FilesStep(p, past, e);
    }
  }

  /**
   A connect that succeeds establishes a connection: it is live and on file, its callback
   reports it, and the disconnect command finds it.
   */
  lemma SuccessIsEstablished(events: seq<Event>, n: nat)
    requires Pending(events) == Some(n)
    ensures var p := Run(START, events + [ConnectSucceeds]);
            && Number(n) in p.connections && p.connections[Number(n)] == Conn(n, false)
            && n in p.fate && p.fate[n] == Live
            && Step(p, Callback(n)).reported == p.reported + [n]
            && Number(n) !in Step(p, Callback(n)).connections
            && n in Step(p, DisconnectCommand(Number(n))).fate
            && Step(p, DisconnectCommand(Number(n))).fate[n] == Commanded
  {
    var longer := events + [ConnectSucceeds];
    assert longer[..|events|] == events;
    HandlesFollowHistory(longer);
    HandlesFollowHistory(events);
    var p := Run(START, longer);
    assert FateAfter(longer, n) == Some(Live) && FiledAfter(longer, n);
    assert Number(n) == Handle(n) && Pending(longer) == None;
    PendingIsAttempt(events, n);
    hide Number, Handle, Pending, Attempts, FateAfter, FiledAfter, Run;
    assert Filed(p, Handle(n));
  }

  lemma PendingIsAttempt(events: seq<Event>, n: nat)
    requires Pending(events) == Some(n)
    ensures n < Attempts(events) == Attempts(events + [ConnectSucceeds])
  {
    assert (events + [ConnectSucceeds])[..|events|] == events;
    HandlesFollowHistory(events);
  }

  /** Attempt `n` succeeded at some point. */
  predicate Succeeded(events: seq<Event>, n: nat)
    decreases |events|
  {
    events != [] &&
    var past := events[..|events| - 1];
    Succeeded(past, n) || (events[|events| - 1] == ConnectSucceeds && Pending(past) == Some(n))
  }

  lemma {:induction false} SuccessHasFate(events: seq<Event>, n: nat)
    ensures Succeeded(events, n) <==> FateAfter(events, n).Some?
    decreases |events|
  {
    hide Pending, TakesHandle, CommandedBy, CalledBack, Number;
    if events != [] {
      SuccessHasFate(events[..|events| - 1], n);
    }
  }

  /** While no handle in use is taken, every connect that succeeded is accounted for, and nothing else is. */
  lemma SuccessIsAccountedFor(events: seq<Event>, n: nat)
    requires RunInWindow(START, events)
    ensures var p := Run(START, events);
            && (n in p.fate <==> Succeeded(events, n))
            && (n in p.fate ==> p.fate[n] in {Live, Reported, Commanded, Released})
  {
    HandlesFollowHistory(events);
    SuccessHasFate(events, n);
    assert Inv(START);
    NoneLost(START, events);
    hide Run, Succeeded, FateAfter;
    var p := Run(START, events);
    assert FateAfter(events, n) == if n in p.fate then Some(p.fate[n]) else None;
  }
}
