/**
 The closure of `createFileLogger` as an object: the files by name, the writer stream, the
 buffered lines and the rotation in progress. Each method is the code between two awaits
 and is proved to be the event of the state machine.
 */
module FileLogger {
  import opened Wrappers
  import opened LogRotation

  datatype Name = Backup(number: int) | LogFile | TempFile

  function Lookup(files: map<Name, seq<Line>>, name: Name): Option<seq<Line>> {
    if name in files then Some(files[name]) else None
  }

  function Backups(files: map<Name, seq<Line>>): (r: seq<Option<seq<Line>>>)
    ensures |r| == BACKUP_COUNT
    ensures forall i :: 0 <= i < BACKUP_COUNT ==> r[i] == Lookup(files, Backup(i + 1))
  {
    seq(BACKUP_COUNT, i requires 0 <= i < BACKUP_COUNT => Lookup(files, Backup(i + 1)))
  }

  lemma ClearedLookup(files: map<Name, seq<Line>>, name: Name)
    ensures Lookup(files - {name}, name) == None
    ensures forall other :: other != name ==> Lookup(files - {name}, other) == Lookup(files, other)
  {
  }

  /** The backups above `i` have moved one place up, and place `i + 1` is free. */
  predicate ShiftedAbove(before: map<Name, seq<Line>>, files: map<Name, seq<Line>>, i: int) {
    && Lookup(files, Backup(i + 1)) == None
    && (forall k | i + 1 < k <= BACKUP_COUNT :: Lookup(files, Backup(k)) == Lookup(before, Backup(k - 1)))
    && (forall k | 1 <= k <= i :: Lookup(files, Backup(k)) == Lookup(before, Backup(k)))
    && Lookup(files, LogFile) == Lookup(before, LogFile)
    && Lookup(files, TempFile) == Lookup(before, TempFile)
  }

  lemma NoneShifted(before: map<Name, seq<Line>>, files: map<Name, seq<Line>>)
    requires files == before - {Backup(BACKUP_COUNT)}
    ensures ShiftedAbove(before, files, BACKUP_COUNT - 1)
  {
    ClearedLookup(before, Backup(BACKUP_COUNT));
  }

  /** What a rename promises. */
  ghost predicate Renamed(was: map<Name, seq<Line>>, files: map<Name, seq<Line>>, from: Name, to: Name) {
    && Lookup(files, from) == None
    && Lookup(files, to) == (if Lookup(was, from).Some? then Lookup(was, from) else Lookup(was, to))
    && (forall n | n != from && n != to :: Lookup(files, n) == Lookup(was, n))
  }

  lemma OneMoreShifted(before: map<Name, seq<Line>>, was: map<Name, seq<Line>>, files: map<Name, seq<Line>>, i: int)
    requires 1 <= i < BACKUP_COUNT && ShiftedAbove(before, was, i)
    requires Renamed(was, files, Backup(i), Backup(i + 1))
    ensures ShiftedAbove(before, files, i - 1)
  {
    hide Lookup;
  }

  lemma LogShifted(before: map<Name, seq<Line>>, was: map<Name, seq<Line>>, files: map<Name, seq<Line>>)
    requires ShiftedAbove(before, was, 0) && Renamed(was, files, LogFile, Backup(1))
    ensures Backups(files) == Shifted(Backups(before), Lookup(before, LogFile))
    ensures Lookup(files, LogFile) == None && Lookup(files, TempFile) == Lookup(before, TempFile)
  {
    hide Lookup;
    var shifted := Shifted(Backups(before), Lookup(before, LogFile));
    forall k | 0 <= k < BACKUP_COUNT
      ensures Backups(files)[k] == shifted[k]
    {
      assert k > 0 ==> Lookup(files, Backup(k + 1)) == Lookup(before, Backup(k));
    }
  }

  class Logger {
    var files: map<Name, seq<Line>>
    var writer: Stream
    var pendingLines: Option<seq<Line>>
    var rotation: Phase
    var closing: Closing

    function Machine(): State
      reads this
    {
      State(Backups(files), Lookup(files, LogFile), Lookup(files, TempFile), writer, pendingLines, rotation, closing)
    }

    /** Start-up, whatever files a previous run left. */
    constructor (leftOver: map<Name, seq<Line>>)
      ensures Machine() == Start(Backups(leftOver), Lookup(leftOver, LogFile))
    {
      files := leftOver;
      writer, pendingLines, rotation, closing := Stream([], false), None, Idle, Open;
      new;
      Unlink(TempFile);
      assert Backups(files) == Backups(leftOver);
      ShiftBackupsSync();
      ghost var shifted := Backups(files);
      files := files[LogFile := []];
      assert Backups(files) == shifted;
    }

    /** `unlinkSync`; a missing file is no error. */
    method Unlink(name: Name)
      modifies this`files
      ensures files == old(files) - {name}
    {
      files := files - {name};
    }

    /** `renameSync`, which replaces a file of the new name; a missing file is no error and changes nothing. */
    method Rename(from: Name, to: Name)
      requires from != to
      modifies this`files
      ensures Renamed(old(files), files, from, to)
    {
      if from in files {
        files := files[to := files[from]] - {from};
      }
    }

    method ShiftBackupsSync()
      modifies this`files
      ensures Backups(files) == Shifted(old(Backups(files)), old(Lookup(files, LogFile)))
      ensures Lookup(files, LogFile) == None
      ensures Lookup(files, TempFile) == Lookup(old(files), TempFile)
    {
      hide Lookup, Backups, ShiftedAbove;
      ghost var before := files;
      ClearedLookup(files, Backup(BACKUP_COUNT));
      Unlink(Backup(BACKUP_COUNT));
      NoneShifted(before, files);
      var i := BACKUP_COUNT - 1;
      while i >= 1
        invariant 0 <= i < BACKUP_COUNT && ShiftedAbove(before, files, i)
      {
        ghost var was := files;
        Rename(Backup(i), Backup(i + 1));
        OneMoreShifted(before, was, files, i);
        i := i - 1;
      }
      ghost var was := files;
      Rename(LogFile, Backup(1));
      LogShifted(before, was, files);
    }

    /** `write`. */
    method WriteLine(line: Line)
      modifies this
      ensures Machine() == Step(old(Machine()), Write(line))
    {
      if pendingLines.Some? {
        pendingLines := Some(pendingLines.value + [line]);
      } else if !writer.ended {
        writer := writer.(buffer := writer.buffer + [line]);
      }
    }

    /** `rotateLog` as the timer calls it; closing stops the timer. */
    method RotateLog()
      modifies this
      ensures Machine() == Step(old(Machine()), RotationTimer)
    {
      if closing == Open && rotation == Idle {
        rotation := OpeningTemp;
      }
    }

    /** Steps 1 and 2 of `doRotate`: the truncated temp file is open and takes over. */
    method OnTempOpened()
      requires rotation == OpeningTemp
      modifies this
      ensures Machine() == Step(old(Machine()), TempOpened)
    {
      files := files[TempFile := []];
      var oldStream := writer;
      writer := Stream([], false);
      rotation := DrainingOld(oldStream.(ended := true));
      assert Backups(files) == old(Backups(files));
    }

    method OnTempOpenFailed()
      requires rotation == OpeningTemp
      modifies this
      ensures Machine() == Step(old(Machine()), TempOpenFailed)
    {
      rotation := Idle;
    }

    /** Steps 3 to 6: the old stream has been drained, the backups are shifted, the temp stream is ended. */
    method OnOldDrained()
      requires rotation.DrainingOld? && rotation.leaving.buffer == []
      modifies this
      ensures Machine() == Step(old(Machine()), OldDrained)
    {
      ShiftBackupsSync();
      pendingLines := Some([]);
      writer := writer.(ended := true);
      rotation := DrainingTemp;
    }

    /** Step 7: the temp file becomes the log file. */
    method OnTempDrained()
      requires Valid(Machine()) && rotation == DrainingTemp && writer.buffer == []
      modifies this
      ensures Machine() == Step(old(Machine()), TempDrained)
    {
      Rename(TempFile, LogFile);
      rotation := OpeningFinal;
      assert Backups(files) == old(Backups(files));
    }

    /** Step 8: the log file is open again and gets the lines buffered meanwhile, one by one. */
    method OnFinalOpened()
      requires rotation == OpeningFinal
      modifies this
      ensures Machine() == Step(old(Machine()), FinalOpened)
    {
      if LogFile !in files {
        files := files[LogFile := []];
      }
      var buffered := Content(pendingLines);
      pendingLines := None;
      var finalStream: Stream := Stream([], false);
      for i := 0 to |buffered|
        invariant finalStream == Stream(buffered[..i], false)
      {
        finalStream := finalStream.(buffer := finalStream.buffer + [buffered[i]]);
      }
      writer := finalStream;
      rotation := Idle;
      assert buffered[..|buffered|] == buffered;
      assert Backups(files) == old(Backups(files));
    }

    /** `close` up to its first await: without a rotation the writer is ended at once. */
    method Close()
      requires closing == Open
      modifies this
      ensures Machine() == Step(old(Machine()), CloseCalled)
    {
      if rotation != Idle {
        closing := AwaitingRotation;
      } else {
        closing := Draining;
        writer := writer.(ended := true);
      }
    }

    method OnRotationFinished()
      requires closing == AwaitingRotation && rotation == Idle
      modifies this
      ensures Machine() == Step(old(Machine()), CloseResumed)
    {
      closing := Draining;
      writer := writer.(ended := true);
    }

    method OnWriterDrained()
      requires closing == Draining && writer.buffer == []
      modifies this
      ensures Machine() == Step(old(Machine()), WriterDrained)
    {
      closing := Closed;
    }
  }
}
