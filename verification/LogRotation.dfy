/**
 The rotating file logger of packages/matter-server/src/file-logger.ts as a state machine.

 `write()` can run at every point where the rotation awaits something, so each stretch of
 code between two awaits is one event. Files hold what has been flushed; a stream's buffer
 holds what has been written to it and not yet flushed.
 */
module LogRotation {
  import opened Wrappers
  import opened Sequences

  type Line = string

  const BACKUP_COUNT := 7

  /** An open write stream. Once `end()` was called nothing more can be written to it. */
  datatype Stream = Stream(buffer: seq<Line>, ended: bool)

  /** Where `doRotate` is waiting. */
  datatype Phase =
    | Idle
    | OpeningTemp
    | DrainingOld(leaving: Stream)
    | DrainingTemp
    | OpeningFinal

  datatype Closing = Open | AwaitingRotation | Draining | Closed

  /** `backups[0]` is the file `.1`, the newest one. */
  datatype State = State(
    backups: seq<Option<seq<Line>>>,
    current: Option<seq<Line>>,
    temp: Option<seq<Line>>,
    writer: Stream,
    pendingLines: Option<seq<Line>>,
    phase: Phase,
    closing: Closing)

  datatype Event =
    | Write(line: Line)
    | FlushWriter(count: nat)
    | FlushOld(count: nat)
    | RotationTimer
    | TempOpened
    | TempOpenFailed
    | OldDrained
    | TempDrained
    | FinalOpened
    | CloseCalled
    | CloseResumed
    | WriterDrained

  function Content(file: Option<seq<Line>>): seq<Line> {
    if file.Some? then file.value else []
  }

  /** `shiftBackupsSync`: every backup one place older, the log file the newest backup. */
  function Shifted(backups: seq<Option<seq<Line>>>, current: Option<seq<Line>>): (r: seq<Option<seq<Line>>>)
    requires |backups| == BACKUP_COUNT
    ensures |r| == BACKUP_COUNT
  {
    [current] + backups[..BACKUP_COUNT - 1]
  }

  /** Whether the writer's stream is bound to the temp file. */
  predicate WritesToTemp(s: State) {
    s.phase.DrainingOld? || s.phase.DrainingTemp?
  }

  function Enabled(s: State, e: Event): bool {
    match e
    case Write(_) => s.pendingLines.Some? || !s.writer.ended
    case FlushWriter(count) => count <= |s.writer.buffer|
    case FlushOld(count) => s.phase.DrainingOld? && count <= |s.phase.leaving.buffer|
    case RotationTimer => s.closing == Open && s.phase == Idle
    case TempOpened => s.phase == OpeningTemp
    case TempOpenFailed => s.phase == OpeningTemp
    case OldDrained => s.phase.DrainingOld? && s.phase.leaving.buffer == []
    case TempDrained => s.phase == DrainingTemp && s.writer.buffer == []
    case FinalOpened => s.phase == OpeningFinal
    case CloseCalled => s.closing == Open
    case CloseResumed => s.closing == AwaitingRotation && s.phase == Idle
    case WriterDrained => s.closing == Draining && s.writer.buffer == []
  }

  /** An event that is not enabled changes nothing: a dropped line, or a timer during a rotation. */
  function Step(s: State, e: Event): (r: State)
    requires |s.backups| == BACKUP_COUNT
    ensures |r.backups| == BACKUP_COUNT
  {
    if !Enabled(s, e) then s
    else
      match e
      case Write(line) =>
        if s.pendingLines.Some? then s.(pendingLines := Some(s.pendingLines.value + [line]))
        else s.(writer := s.writer.(buffer := s.writer.buffer + [line]))
      case FlushWriter(count) =>
        var flushed := s.writer.buffer[..count];
        var rest := s.(writer := s.writer.(buffer := s.writer.buffer[count..]));
        if WritesToTemp(s) then rest.(temp := Some(Content(s.temp) + flushed))
        else rest.(current := Some(Content(s.current) + flushed))
      case FlushOld(count) =>
        var leaving := s.phase.leaving;
        s.(phase := DrainingOld(leaving.(buffer := leaving.buffer[count..])),
           current := Some(Content(s.current) + leaving.buffer[..count]))
      case RotationTimer => s.(phase := OpeningTemp)
      case TempOpened =>
        s.(phase := DrainingOld(s.writer.(ended := true)), writer := Stream([], false), temp := Some([]))
      case TempOpenFailed => s.(phase := Idle)
      case OldDrained =>
        s.(backups := Shifted(s.backups, s.current), current := None, pendingLines := Some([]),
           writer := s.writer.(ended := true), phase := DrainingTemp)
      case TempDrained => s.(current := s.temp, temp := None, phase := OpeningFinal)
      case FinalOpened =>
        s.(current := Some(Content(s.current)), writer := Stream(Content(s.pendingLines), false),
           pendingLines := None, phase := Idle)
      case CloseCalled =>
        if s.phase == Idle then s.(closing := Draining, writer := s.writer.(ended := true))
        else s.(closing := AwaitingRotation)
      case CloseResumed => s.(closing := Draining, writer := s.writer.(ended := true))
      case WriterDrained => s.(closing := Closed)
  }

  /** The lines an event accepts: whatever is written until a close ends the writer. */
  function Accepted(s: State, e: Event): seq<Line> {
    if e.Write? && (s.closing == Open || s.closing == AwaitingRotation) then [e.line] else []
  }

  /** The lines an event gives up: those of the oldest backup when the backups are shifted. */
  function Dropped(s: State, e: Event): seq<Line>
    requires |s.backups| == BACKUP_COUNT
  {
    if e.OldDrained? && Enabled(s, e) then Content(s.backups[BACKUP_COUNT - 1]) else []
  }

  // ----- Start -----

  /** Start-up: the stale temp file is removed, the backups are shifted and the log file is opened. */
  function Start(backups: seq<Option<seq<Line>>>, current: Option<seq<Line>>): State
    requires |backups| == BACKUP_COUNT
  {
    State(Shifted(backups, current), Some([]), None, Stream([], false), None, Idle, Open)
  }

  // ----- The invariant -----

  predicate Valid(s: State) {
    && |s.backups| == BACKUP_COUNT
    && (s.pendingLines.Some? <==> s.phase == DrainingTemp || s.phase == OpeningFinal)
    && (s.phase == DrainingTemp <==> s.current.None?)
    && (s.temp.Some? <==> WritesToTemp(s))
    && (s.phase == OpeningFinal ==> s.writer == Stream([], true))
    && (s.phase == DrainingTemp ==> s.writer.ended)
    && (s.phase == OpeningTemp || s.phase.DrainingOld? ==> !s.writer.ended)
    && (s.closing == Draining || s.closing == Closed ==> s.phase == Idle && s.writer.ended)
    && (s.phase == Idle && (s.closing == Open || s.closing == AwaitingRotation) ==> !s.writer.ended)
    && (s.closing == Closed ==> s.writer.buffer == [])
  }

  /** The backups from the oldest to the newest; missing ones count as empty. */
  function BackupLines(backups: seq<Option<seq<Line>>>): seq<Line> {
    if backups == [] then [] else BackupLines(backups[1..]) + Content(backups[0])
  }

  /** Lines that are in memory or in the temp file, behind the log file. */
  function Underway(s: State): seq<Line> {
    match s.phase
    case Idle => s.writer.buffer
    case OpeningTemp => s.writer.buffer
    case DrainingOld(leaving) => leaving.buffer + Content(s.temp) + s.writer.buffer
    case DrainingTemp => Content(s.temp) + s.writer.buffer + Content(s.pendingLines)
    case OpeningFinal => Content(s.pendingLines)
  }

  /** Everything the logger holds, oldest first: the backups, the log file, and what is underway. */
  function AllLines(s: State): seq<Line> {
    BackupLines(s.backups) + Content(s.current) + Underway(s)
  }

  lemma {:induction false} BackupsWithoutOldest(backups: seq<Option<seq<Line>>>)
    requires backups != []
    ensures BackupLines(backups) == Content(backups[|backups| - 1]) + BackupLines(backups[..|backups| - 1])
  {
    if |backups| > 1 {
      var rest := backups[1..];
      BackupsWithoutOldest(rest);
      assert rest[|rest| - 1] == backups[|backups| - 1];
      assert backups[..|backups| - 1][1..] == rest[..|rest| - 1];
    }
  }

  lemma NewestInFront(current: Option<seq<Line>>, kept: seq<Option<seq<Line>>>)
    ensures BackupLines([current] + kept) == BackupLines(kept) + Content(current)
  {
    assert ([current] + kept)[1..] == kept;
  }

  /** Shifting gives up the oldest backup and nothing else, whatever slots are empty. */
  lemma ShiftKeepsLines(backups: seq<Option<seq<Line>>>, current: Option<seq<Line>>)
    requires |backups| == BACKUP_COUNT
    ensures Content(backups[BACKUP_COUNT - 1]) + BackupLines(Shifted(backups, current)) ==
            BackupLines(backups) + Content(current)
  {
    hide BackupLines, Content;
    var oldest, kept := Content(backups[BACKUP_COUNT - 1]), backups[..BACKUP_COUNT - 1];
    BackupsWithoutOldest(backups);
    NewestInFront(current, kept);
    assert oldest + (BackupLines(kept) + Content(current)) == oldest + BackupLines(kept) + Content(current);
  }

  lemma StepKeepsValid(s: State, e: Event)
    requires Valid(s)
    ensures Valid(Step(s, e))
  {
  }

  /** A line is taken, as the newest, until a close ends the writer, rotations included; after that it is dropped. */
  lemma LineIsTaken(s: State, line: Line)
    requires Valid(s)
    ensures AllLines(Step(s, Write(line))) ==
            if s.closing == Open || s.closing == AwaitingRotation then AllLines(s) + [line] else AllLines(s)
  {
    hide BackupLines;
    if s.closing == Open || s.closing == AwaitingRotation {
      var held := BackupLines(s.backups) + Content(s.current);
      assert Underway(Step(s, Write(line))) == Underway(s) + [line];
      assert held + (Underway(s) + [line]) == held + Underway(s) + [line];
    }
  }

  /** Moving the front of a buffer to the end of its file leaves the two together as they were. */
  lemma Moved(file: seq<Line>, buffer: seq<Line>, count: nat)
    requires count <= |buffer|
    ensures file + buffer[..count] + buffer[count..] == file + buffer
  {
    assert buffer == buffer[..count] + buffer[count..];
  }

  /** The same with what lies before the file and behind the buffer. */
  lemma MovedBetween(before: seq<Line>, file: seq<Line>, buffer: seq<Line>, after: seq<Line>, count: nat)
    requires count <= |buffer|
    ensures before + (file + buffer[..count]) + (buffer[count..] + after) == before + file + (buffer + after)
  {
    Moved(before + file, buffer, count);
  }

  lemma FlushOldConserves(s: State, count: nat)
    requires Valid(s) && Enabled(s, FlushOld(count))
    ensures AllLines(Step(s, FlushOld(count))) == AllLines(s)
  {
    hide BackupLines;
    var leaving, after := s.phase.leaving.buffer, Content(s.temp) + s.writer.buffer;
    MovedBetween(BackupLines(s.backups), Content(s.current), leaving, after, count);
    Associate(leaving, Content(s.temp), s.writer.buffer);
    Associate(leaving[count..], Content(s.temp), s.writer.buffer);
  }

  lemma FlushToLogConserves(s: State, count: nat)
    requires Valid(s) && Enabled(s, FlushWriter(count)) && !WritesToTemp(s)
    ensures AllLines(Step(s, FlushWriter(count))) == AllLines(s)
  {
    hide BackupLines;
    if s.phase == OpeningFinal {
      assert Content(s.current) + s.writer.buffer[..count] == Content(s.current);
    } else {
      MovedBetween(BackupLines(s.backups), Content(s.current), s.writer.buffer, [], count);
      assert s.writer.buffer + [] == s.writer.buffer && s.writer.buffer[count..] + [] == s.writer.buffer[count..];
    }
  }

  lemma FlushToTempConserves(s: State, count: nat)
    requires Valid(s) && Enabled(s, FlushWriter(count)) && WritesToTemp(s)
    ensures AllLines(Step(s, FlushWriter(count))) == AllLines(s)
  {
    hide BackupLines;
    var buffer, rest := s.writer.buffer, s.writer.buffer[count..];
    if s.phase.DrainingOld? {
      FlushNewConserves(s, count);
    } else {
      MovedBetween([], Content(s.temp), buffer, Content(s.pendingLines), count);
      assert [] + Content(s.temp) == Content(s.temp);
      assert [] + (Content(s.temp) + buffer[..count]) == Content(s.temp) + buffer[..count];
      assert Content(s.temp) + buffer + Content(s.pendingLines) == Content(s.temp) + (buffer + Content(s.pendingLines));
      assert Content(s.temp) + buffer[..count] + rest + Content(s.pendingLines)
          == Content(s.temp) + buffer[..count] + (rest + Content(s.pendingLines));
    }
  }

  lemma FlushNewConserves(s: State, count: nat)
    requires Valid(s) && Enabled(s, FlushWriter(count)) && s.phase.DrainingOld?
    ensures AllLines(Step(s, FlushWriter(count))) == AllLines(s)
  {
    hide BackupLines;
    Moved(s.phase.leaving.buffer + Content(s.temp), s.writer.buffer, count);
    assert s.phase.leaving.buffer + (Content(s.temp) + s.writer.buffer[..count])
        == s.phase.leaving.buffer + Content(s.temp) + s.writer.buffer[..count];
  }

  lemma FlushConserves(s: State, e: Event)
    requires Valid(s) && (e.FlushWriter? || e.FlushOld?) && Enabled(s, e)
    ensures AllLines(Step(s, e)) == AllLines(s)
  {
    hide AllLines, Step, Valid;
    if e.FlushOld? {
      FlushOldConserves(s, e.count);
    } else if WritesToTemp(s) {
      FlushToTempConserves(s, e.count);
    } else {
      FlushToLogConserves(s, e.count);
    }
  }

  lemma ShiftConserves(s: State)
    requires Valid(s) && Enabled(s, OldDrained)
    ensures Dropped(s, OldDrained) + AllLines(Step(s, OldDrained)) == AllLines(s)
  {
    hide BackupLines, Shifted;
    var t := Step(s, OldDrained);
    ShiftKeepsLines(s.backups, s.current);
    assert Underway(t) == Underway(s);
    assert AllLines(t) == BackupLines(t.backups) + Underway(t);
  }

  /** Opening, renaming and closing move whole contents and lose nothing. */
  lemma OthersConserve(s: State, e: Event)
    requires Valid(s) && Enabled(s, e) && !e.Write? && !e.FlushWriter? && !e.FlushOld? && !e.OldDrained?
    ensures AllLines(Step(s, e)) == AllLines(s)
  {
    hide BackupLines;
    if e.TempDrained? {
      RenameConserves(s);
    } else if e.TempOpened? {
      assert Underway(Step(s, e)) == s.writer.buffer + [] + [] == Underway(s);
    } else {
      assert Underway(Step(s, e)) == Underway(s);
    }
  }

  /** The temp file becomes the log file while there is none. */
  lemma RenameConserves(s: State)
    requires Valid(s) && Enabled(s, TempDrained)
    ensures AllLines(Step(s, TempDrained)) == AllLines(s)
  {
    hide BackupLines;
    var b := BackupLines(s.backups);
    assert b + [] + (Content(s.temp) + [] + Content(s.pendingLines)) == b + Content(s.temp) + Content(s.pendingLines);
  }

  /** One event: what was held plus what is accepted is what is given up plus what is held. */
  lemma StepConserves(s: State, e: Event)
    requires Valid(s)
    ensures Dropped(s, e) + AllLines(Step(s, e)) == AllLines(s) + Accepted(s, e)
  {
    hide AllLines, Valid;
    if e.Write? {
      LineIsTaken(s, e.line);
    } else if !Enabled(s, e) {
    } else if e.FlushWriter? || e.FlushOld? {
      FlushConserves(s, e);
    } else if e.OldDrained? {
      ShiftConserves(s);
    } else {
      OthersConserve(s, e);
    }
  }

  // ----- Whole runs -----

  function Run(s: State, events: seq<Event>): (r: State)
    requires |s.backups| == BACKUP_COUNT
    ensures |r.backups| == BACKUP_COUNT
    decreases |events|
  {
    if events == [] then s else Run(Step(s, events[0]), events[1..])
  }

  function AllAccepted(s: State, events: seq<Event>): seq<Line>
    requires |s.backups| == BACKUP_COUNT
    decreases |events|
  {
    if events == [] then [] else Accepted(s, events[0]) + AllAccepted(Step(s, events[0]), events[1..])
  }

  function AllDropped(s: State, events: seq<Event>): seq<Line>
    requires |s.backups| == BACKUP_COUNT
    decreases |events|
  {
    if events == [] then [] else Dropped(s, events[0]) + AllDropped(Step(s, events[0]), events[1..])
  }

  lemma {:induction false} RunConserves(s: State, events: seq<Event>)
    requires Valid(s)
    ensures Valid(Run(s, events))
    ensures AllDropped(s, events) + AllLines(Run(s, events)) == AllLines(s) + AllAccepted(s, events)
    decreases |events|
  {
    hide AllLines, Step, Dropped, Accepted;
    if events != [] {
      var next, rest := Step(s, events[0]), events[1..];
      StepKeepsValid(s, events[0]);
      StepConserves(s, events[0]);
      RunConserves(next, rest);
      var d, a := Dropped(s, events[0]), Accepted(s, events[0]);
      assert d + AllDropped(next, rest) + AllLines(Run(next, rest)) == d + (AllDropped(next, rest) + AllLines(Run(next, rest)));
      assert d + (AllLines(next) + AllAccepted(next, rest)) == d + AllLines(next) + AllAccepted(next, rest);
      assert AllLines(s) + a + AllAccepted(next, rest) == AllLines(s) + (a + AllAccepted(next, rest));
    }
  }

  /** The files after everything has been drained: the backups, oldest first, and the log file. */
  function FileLines(s: State): seq<Line> {
    BackupLines(s.backups) + Content(s.current)
  }

  /**
   Conservation of lines: from start-up, through every interleaving of writes, flushes,
   rotations and a close, up to the point where the close has drained the writer, the
   lines of the files that were there and the accepted lines, in order, are the contents
   of the dropped oldest backups followed by the files, the backups oldest first.
   */
  lemma LinesAreConserved(backups: seq<Option<seq<Line>>>, current: Option<seq<Line>>, events: seq<Event>)
    requires |backups| == 7
    requires Run(Start(backups, current), events).closing == Closed
    ensures var s := Start(backups, current);
            Content(backups[6]) + AllDropped(s, events) + FileLines(Run(s, events)) ==
            BackupLines(backups) + Content(current) + AllAccepted(s, events)
  {
    hide BackupLines, Shifted, Run, AllDropped, AllAccepted;
    var s := Start(backups, current);
    var end := Run(s, events);
    RunConserves(s, events);
    ShiftKeepsLines(backups, current);
    ClosedHoldsFiles(end);
    assert AllLines(s) == BackupLines(s.backups);
    var oldest := Content(backups[BACKUP_COUNT - 1]);
    Associate(oldest, AllDropped(s, events), FileLines(end));
    Associate(oldest, BackupLines(s.backups), AllAccepted(s, events));
  }

  lemma ClosedHoldsFiles(s: State)
    requires Valid(s) && s.closing == Closed
    ensures AllLines(s) == FileLines(s)
  {
    hide BackupLines;
    assert Underway(s) == [];
  }

  /** At every point of every run nothing is lost either; part of it may still be underway. */
  lemma NothingIsLostMeanwhile(s: State, events: seq<Event>, line: Line)
    requires Valid(s) && line in AllAccepted(s, events)
    ensures line in AllLines(Run(s, events)) || line in AllDropped(s, events)
  {
    RunConserves(s, events);
    assert line in AllLines(s) + AllAccepted(s, events);
  }

  // ----- Which lines are accepted, and that they reach the files -----

  /** The lines a list of events writes. */
  function Written(events: seq<Event>): seq<Line> {
    if events == [] then [] else (if events[0].Write? then [events[0].line] else []) + Written(events[1..])
  }

  lemma StaysOpen(s: State, e: Event)
    requires |s.backups| == BACKUP_COUNT && s.closing == Open && e != CloseCalled
    ensures Step(s, e).closing == Open
  {
  }

  /** Before a close every line is accepted, whatever else happens. */
  lemma {:induction false} AcceptedUntilClose(s: State, events: seq<Event>)
    requires Valid(s) && s.closing == Open && CloseCalled !in events
    ensures AllAccepted(s, events) == Written(events)
    ensures Valid(Run(s, events)) && Run(s, events).closing == Open
    decreases |events|
  {
    if events != [] {
      assert events[0] in events;
      StepKeepsValid(s, events[0]);
      StaysOpen(s, events[0]);
      hide Step;
      AcceptedUntilClose(Step(s, events[0]), events[1..]);
    }
  }

  /** A close ends the writer at once, or as soon as a rotation that is under way has ended. */
  lemma CloseEndsWriter(s: State)
    requires Valid(s) && s.closing == Open
    ensures Step(s, CloseCalled).closing == if s.phase == Idle then Draining else AwaitingRotation
    ensures s.phase == Idle ==> Step(Step(s, CloseCalled), RotationTimer) == Step(s, CloseCalled)
    ensures s.phase != Idle ==> Step(Step(s, CloseCalled), CloseResumed) == Step(s, CloseCalled)
  {
  }

  lemma RunFirst(s: State, e: Event, rest: seq<Event>)
    requires |s.backups| == BACKUP_COUNT
    ensures Run(s, [e] + rest) == Run(Step(s, e), rest)
  {
    assert ([e] + rest)[1..] == rest;
  }

  lemma RunTwo(s: State, e: Event, f: Event, rest: seq<Event>)
    requires |s.backups| == BACKUP_COUNT
    ensures Run(s, [e, f] + rest) == Run(Step(Step(s, e), f), rest)
  {
    RunFirst(s, e, [f] + rest);
    RunFirst(Step(s, e), f, rest);
    assert [e, f] + rest == [e] + ([f] + rest);
  }

  lemma NothingRuns(s: State)
    requires |s.backups| == BACKUP_COUNT
    ensures Run(s, []) == s
  {
  }

  /** How many drains and openings lie before the end of a rotation. */
  function Ahead(s: State): nat {
    match s.phase
    case Idle => 0
    case OpeningFinal => 1
    case DrainingTemp => 2
    case DrainingOld(_) => 3
    case OpeningTemp => 4
  }

  predicate NoWrites(events: seq<Event>) {
    forall e :: e in events ==> !e.Write?
  }

  /** Whatever the logger is doing, a close can be brought to its end, with every line in the files. */
  lemma {:induction false} CloseCanFinish(s: State) returns (events: seq<Event>)
    requires Valid(s)
    ensures NoWrites(events) && Run(s, events).closing == Closed
    decreases s.closing == Open, Ahead(s)
  {
    hide Step, Ahead, Run, AllLines, WritesToTemp;
    NothingRuns(s);
    if s.closing == Open {
      CloseStarts(s);
      events := CloseCanFinish(Step(s, CloseCalled));
      RunFirst(s, CloseCalled, events);
      events := [CloseCalled] + events;
    } else if s.closing == AwaitingRotation && s.phase != Idle {
      var e, f := RotationGoesOn(s);
      events := CloseCanFinish(Step(Step(s, e), f));
      RunTwo(s, e, f, events);
      events := [e, f] + events;
    } else if s.closing == Closed {
      events := [];
    } else {
      var e, f, g := CloseResumed, FlushWriter(|s.writer.buffer|), WriterDrained;
      CloseGoesOn(s);
      NothingRuns(Step(Step(Step(s, e), f), g));
      RunTwo(Step(s, e), f, g, []);
      assert [f, g] + [] == [f, g];
      RunFirst(s, e, [f, g]);
      events := [e] + [f, g];
    }
  }

  lemma CloseStarts(s: State)
    requires Valid(s) && s.closing == Open
    ensures Valid(Step(s, CloseCalled)) && Step(s, CloseCalled).closing != Open
  {
  }

  lemma CloseGoesOn(s: State)
    requires Valid(s) && (s.closing == Draining || (s.closing == AwaitingRotation && s.phase == Idle))
    ensures Step(Step(Step(s, CloseResumed), FlushWriter(|s.writer.buffer|)), WriterDrained).closing == Closed
  {
  }

  /** What a rotation waits for can happen, and brings it nearer to its end. */
  lemma RotationGoesOn(s: State) returns (e: Event, f: Event)
    requires Valid(s) && s.closing == AwaitingRotation && s.phase != Idle
    ensures !e.Write? && !f.Write?
    ensures var t := Step(Step(s, e), f);
            Valid(t) && t.closing == AwaitingRotation && Ahead(t) < Ahead(s)
  {
    match s.phase
    case OpeningTemp => e, f := FlushWriter(0), TempOpened;
    case DrainingOld(leaving) => e, f := FlushOld(|leaving.buffer|), OldDrained;
    case DrainingTemp => e, f := FlushWriter(|s.writer.buffer|), TempDrained;
    case OpeningFinal => e, f := FlushWriter(0), FinalOpened;
  }

  // ----- What a rotation does -----

  function Writes(lines: seq<Line>): (events: seq<Event>)
    ensures |events| == |lines|
  {
    if lines == [] then [] else [Write(lines[0])] + Writes(lines[1..])
  }

  lemma {:induction false} WritesToStream(s: State, lines: seq<Line>)
    requires |s.backups| == BACKUP_COUNT && s.pendingLines.None? && !s.writer.ended
    ensures Run(s, Writes(lines)) == s.(writer := Stream(s.writer.buffer + lines, false))
    decreases |lines|
  {
    hide Step, Run;
    if lines == [] {
      NothingRuns(s);
      assert s.writer.buffer + lines == s.writer.buffer;
    } else {
      var t := StreamTakes(s, lines[0]);
      RunFirst(s, Write(lines[0]), Writes(lines[1..]));
      WritesToStream(t, lines[1..]);
      assert s.writer.buffer + [lines[0]] + lines[1..] == s.writer.buffer + lines;
    }
  }

  lemma StreamTakes(s: State, line: Line) returns (t: State)
    requires |s.backups| == BACKUP_COUNT && s.pendingLines.None? && !s.writer.ended
    ensures t == Step(s, Write(line)) == s.(writer := Stream(s.writer.buffer + [line], false))
  {
    t := Step(s, Write(line));
  }

  lemma PendingTakes(s: State, line: Line) returns (t: State)
    requires |s.backups| == BACKUP_COUNT && s.pendingLines.Some?
    ensures t == Step(s, Write(line)) == s.(pendingLines := Some(s.pendingLines.value + [line]))
  {
    t := Step(s, Write(line));
  }

  lemma {:induction false} WritesToPending(s: State, lines: seq<Line>)
    requires |s.backups| == BACKUP_COUNT && s.pendingLines.Some?
    ensures Run(s, Writes(lines)) == s.(pendingLines := Some(s.pendingLines.value + lines))
    decreases |lines|
  {
    hide Step, Run;
    if lines == [] {
      NothingRuns(s);
      assert s.pendingLines.value + lines == s.pendingLines.value;
    } else {
      var t := PendingTakes(s, lines[0]);
      RunFirst(s, Write(lines[0]), Writes(lines[1..]));
      WritesToPending(t, lines[1..]);
      assert s.pendingLines.value + [lines[0]] + lines[1..] == s.pendingLines.value + lines;
    }
  }

  /** The first half: the old stream is drained into the log file, which becomes the newest backup. */
  lemma OldMovesAway(s: State, early: seq<Line>) returns (t: State)
    requires Valid(s) && s.phase == Idle && s.closing == Open
    ensures var streamed := Run(Step(Step(s, RotationTimer), TempOpened), Writes(early));
            t == Step(Step(streamed, FlushOld(|s.writer.buffer|)), OldDrained)
    ensures t == State([Some(Content(s.current) + s.writer.buffer)] + s.backups[..6], None, Some([]),
                       Stream(early, true), Some([]), DrainingTemp, Open)
  {
    var s2 := Step(Step(s, RotationTimer), TempOpened);
    assert s2 == s.(phase := DrainingOld(s.writer.(ended := true)), writer := Stream([], false), temp := Some([]));
    WritesToStream(s2, early);
    assert [] + early == early;
    var streamed := Run(s2, Writes(early));
    hide Run, Writes;
    assert s.writer.buffer[..|s.writer.buffer|] == s.writer.buffer && s.writer.buffer[|s.writer.buffer|..] == [];
    t := Step(Step(streamed, FlushOld(|s.writer.buffer|)), OldDrained);
  }

  /** The second half: the temp file becomes the log file, and what was written meanwhile goes to its stream. */
  lemma NewTakesItsPlace(s: State, early: seq<Line>, late: seq<Line>) returns (t: State)
    requires |s.backups| == BACKUP_COUNT && s.phase == DrainingTemp && s.temp == Some([]) && s.pendingLines == Some([])
    requires s.writer == Stream(early, true)
    ensures t == Step(Step(Step(Run(s, Writes(late)), FlushWriter(|early|)), TempDrained), FinalOpened)
    ensures t == State(s.backups, Some(early), None, Stream(late, false), None, Idle, s.closing)
  {
    WritesToPending(s, late);
    assert [] + late == late;
    var pending := Run(s, Writes(late));
    hide Run, Writes;
    assert [] + early == early && early[..|early|] == early && early[|early|..] == [];
    t := Step(Step(Step(pending, FlushWriter(|early|)), TempDrained), FinalOpened);
  }

  /**
   A rotation with lines written while the old stream drains and while the temp stream
   does: what the log file and its stream held is the newest backup, the six newest backups
   are one place older, and the lines written meanwhile are the log file and its stream.
   */
  lemma RotationMovesFiles(s: State, early: seq<Line>, late: seq<Line>) returns (t: State)
    requires Valid(s) && s.phase == Idle && s.closing == Open
    ensures var streamed := Run(Step(Step(s, RotationTimer), TempOpened), Writes(early));
            var shifted := Run(Step(Step(streamed, FlushOld(|s.writer.buffer|)), OldDrained), Writes(late));
            t == Step(Step(Step(shifted, FlushWriter(|early|)), TempDrained), FinalOpened)
    ensures t == State([Some(Content(s.current) + s.writer.buffer)] + s.backups[..6], Some(early), None,
                       Stream(late, false), None, Idle, Open)
  {
    hide Step, Run, Valid;
    var half := OldMovesAway(s, early);
    t := NewTakesItsPlace(half, early, late);
  }

  /** A rotation whose temp file does not open leaves everything as it was. */
  lemma FailedRotationChangesNothing(s: State, lines: seq<Line>)
    requires Valid(s) && s.phase == Idle && s.closing == Open
    ensures Step(Run(Step(s, RotationTimer), Writes(lines)), TempOpenFailed) == Run(s, Writes(lines))
  {
    WritesToStream(s, lines);
    WritesToStream(Step(s, RotationTimer), lines);
  }

  // ----- How long a line is kept -----

  function Rotations(s: State, events: seq<Event>): nat
    requires |s.backups| == BACKUP_COUNT
    decreases |events|
  {
    if events == [] then 0
    else (if events[0] == OldDrained && Enabled(s, events[0]) then 1 else 0) + Rotations(Step(s, events[0]), events[1..])
  }

  predicate EmptyFrom(backups: seq<Option<seq<Line>>>, k: nat) {
    forall i :: k <= i < |backups| ==> backups[i].None?
  }

  /** Nothing is dropped before the backups are full: seven slots take seven rotations. */
  lemma {:induction false} NothingDroppedBeforeFull(s: State, events: seq<Event>, used: nat)
    requires |s.backups| == 7 && EmptyFrom(s.backups, used)
    requires used + Rotations(s, events) <= 7
    ensures AllDropped(s, events) == []
    decreases |events|
  {
    if events != [] {
      var next := Step(s, events[0]);
      var more := if events[0] == OldDrained && Enabled(s, events[0]) then 1 else 0;
      assert EmptyFrom(next.backups, used + more);
      NothingDroppedBeforeFull(next, events[1..], used + more);
    }
  }
}
