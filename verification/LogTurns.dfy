/**
  * Which turns of the event loop keep the files of `apps/server/src/server-log-tee.ts` within their bound. In one
  * turn records are logged and no stream opens; afterwards the streams made open, in any order.
  */
module LogTurns {
  import opened LogFiles
  import opened LogStreams
  import opened Wrappers

  predicate AllLogged(events: seq<Event>) { forall i :: 0 <= i < |events| ==> events[i].Logged? }

  predicate AllOpens(events: seq<Event>) { forall i :: 0 <= i < |events| ==> events[i].Opens? }

  /** Nothing waits: the current stream is open and no ended one is left to open. */
  predicate Settled(log: Log) { log.ended == [] && log.current.None? && 0 in log.files }

  /** The bytes counted after a turn, from the bytes counted before it and the sizes of its records. */
  function BytesAfter(bytes: nat, turn: seq<Event>, maxBytes: nat): nat
    requires AllLogged(turn)
    decreases |turn|
  {
    if turn == [] then bytes
    else
      var before, size := BytesAfter(bytes, turn[..|turn| - 1], maxBytes), turn[|turn| - 1].entry.size;
      if before + size > maxBytes then size else before + size
  }

  /** How often the turn rotates, from the same numbers. */
  function Rotations(bytes: nat, turn: seq<Event>, maxBytes: nat): nat
    requires AllLogged(turn)
    decreases |turn|
  {
    if turn == [] then 0
    else
      var before, size := turn[..|turn| - 1], turn[|turn| - 1].entry.size;
      Rotations(bytes, before, maxBytes) + if BytesAfter(bytes, before, maxBytes) + size > maxBytes then 1 else 0
  }

  // ---------------------------------------------------------------- what ends up in the current file

  /** The size of what is at the current path or on the way to it. */
  function HeadSize(log: Log): nat
  {
    Size(Content(log.files, 0)) + Size(Pooled(log.ended)) + Size(Buffered(log))
  }

  function HeadCount(log: Log): nat { |Content(log.files, 0)| + |Pooled(log.ended)| + |Buffered(log)| }

  lemma SizeOfPooled(ended: seq<seq<Entry>>, k: nat)
    requires k < |ended|
    ensures Size(Pooled(ended)) == Size(Pooled(ended[..k] + ended[k + 1..])) + Size(ended[k])
    ensures |Pooled(ended)| == |Pooled(ended[..k] + ended[k + 1..])| + |ended[k]|
  {
    PooledAt(ended, k);
    SizeOf(Pooled(ended[..k]), ended[k]);
    SizeOf(Pooled(ended[..k]) + ended[k], Pooled(ended[k + 1..]));
    SizeOf(Pooled(ended[..k]), Pooled(ended[k + 1..]));
  }

  /** Records have moved to the current file, and nothing else has changed. */
  predicate Moved(log: Log, after: Log)
  {
    && HeadSize(after) == HeadSize(log) && HeadCount(after) == HeadCount(log) && after.bytes == log.bytes
    && after.files - {0} == log.files - {0}
  }

  lemma OtherFiles(log: Log, entries: seq<Entry>)
    ensures log.files[0 := entries] - {0} == log.files - {0}
  {
  }

  /** The opening of a stream moves records to the current file. */
  lemma OpeningMoves(log: Log, event: Event, maxFiles: nat, maxBytes: nat)
    requires maxFiles >= 1 && event.Opens?
    ensures Moved(log, Next(log, event, maxFiles, maxBytes))
  {
    match event
    case Opens(CurrentStream) =>
      SizeOf(Content(log.files, 0), Buffered(log));
      OtherFiles(log, Content(log.files, 0) + Buffered(log));
    case Opens(EndedStream(k)) =>
      if k < |log.ended| {
        SizeOf(Content(log.files, 0), log.ended[k]);
        SizeOfPooled(log.ended, k);
        OtherFiles(log, Content(log.files, 0) + log.ended[k]);
      }
  }

  lemma {:induction false} OpeningsMove(log: Log, opens: seq<Event>, maxFiles: nat, maxBytes: nat)
    requires maxFiles >= 1 && AllOpens(opens)
    ensures Moved(log, RunOf(log, opens, maxFiles, maxBytes))
    decreases |opens|
  {
    if opens == [] {
    } else {
      var before := opens[..|opens| - 1];
      OpeningsMove(log, before, maxFiles, maxBytes);
      OpeningMoves(RunOf(log, before, maxFiles, maxBytes), opens[|opens| - 1], maxFiles, maxBytes);
    }
  }

  lemma WritingAdds(log: Log, entry: Entry)
    ensures HeadSize(Writing(log, entry)) == HeadSize(log) + entry.size
    ensures HeadCount(Writing(log, entry)) == HeadCount(log) + 1
  {
    SizeOne(entry);
    SizeOf(Content(log.files, 0), [entry]);
    SizeOf(Buffered(log), [entry]);
  }

  /** A rotation that finds no file at the current path leaves what is on the way there where it is. */
  lemma RotatingKeepsHead(log: Log, maxFiles: nat)
    requires maxFiles == 1 || (maxFiles >= 2 && 0 !in log.files)
    ensures HeadSize(Rotating(log, maxFiles)) == HeadSize(log)
    ensures HeadCount(Rotating(log, maxFiles)) == HeadCount(log)
  {
    RotatedOfIsRotated(log.files, maxFiles);
    if log.current.Some? {
      PooledAppend(log.ended, [log.current.value]);
      PooledOne(log.current.value);
      SizeOf(Pooled(log.ended), log.current.value);
    }
  }

  // ---------------------------------------------------------------- one turn

  /** How a turn leaves the log, before any stream opens, by the number of its rotations. */
  ghost predicate TurnLeaves(log: Log, rotations: nat, maxFiles: nat, maxBytes: nat)
  {
    && (rotations <= 1 ==> Steady(log, maxFiles, maxBytes))
    && (rotations == 0 ==> log.current.None?)
    && (rotations >= 1 ==> 0 !in log.files && Buffered(log) != [])
    && (rotations >= 2 ==> HeadSize(log) > maxBytes && HeadCount(log) >= 2)
  }

  lemma RecordLeaves(log: Log, entry: Entry, rotations: nat, maxFiles: nat, maxBytes: nat)
    requires maxFiles >= 2 && TurnLeaves(log, rotations, maxFiles, maxBytes)
    ensures TurnLeaves(Next(log, Logged(entry), maxFiles, maxBytes),
                       rotations + if Full(log, entry, maxBytes) then 1 else 0, maxFiles, maxBytes)
  {
    if !Full(log, entry, maxBytes) {
      if rotations <= 1 { CalmWrite(log, entry, maxFiles, maxBytes); }
      WritingAdds(log, entry);
    } else if rotations == 0 {
      CalmRotation(log, entry, maxFiles, maxBytes);
    } else {
      RotatingKeepsHead(log, maxFiles);
      RotatedOfIsRotated(log.files, maxFiles);
      WritingAdds(log, entry);
      WritingAdds(Rotating(log, maxFiles), entry);
      assert Content(log.files, 0) == [] && [] + Buffered(log) == Buffered(log);
    }
  }

  lemma {:induction false} TurnCounts(log: Log, turn: seq<Event>, maxFiles: nat, maxBytes: nat)
    requires maxFiles >= 1 && AllLogged(turn)
    ensures RunOf(log, turn, maxFiles, maxBytes).bytes == BytesAfter(log.bytes, turn, maxBytes)
    decreases |turn|
  {
    if turn == [] {
    } else {
      TurnCounts(log, turn[..|turn| - 1], maxFiles, maxBytes);
    }
  }

  lemma {:induction false} TurnState(log: Log, turn: seq<Event>, maxFiles: nat, maxBytes: nat)
    requires maxFiles >= 2 && Settled(log) && Steady(log, maxFiles, maxBytes) && AllLogged(turn)
    ensures TurnLeaves(RunOf(log, turn, maxFiles, maxBytes), Rotations(log.bytes, turn, maxBytes), maxFiles, maxBytes)
    decreases |turn|
  {
    if turn == [] {
    } else {
      var before, last := turn[..|turn| - 1], turn[|turn| - 1];
      TurnState(log, before, maxFiles, maxBytes);
      TurnCounts(log, before, maxFiles, maxBytes);
      RecordLeaves(RunOf(log, before, maxFiles, maxBytes), last.entry, Rotations(log.bytes, before, maxBytes),
                   maxFiles, maxBytes);
    }
  }

  /** The files besides the current one fit. */
  ghost predicate OthersFit(log: Log, maxFiles: nat, maxBytes: nat)
  {
    forall k :: k in log.files - {0} && k < maxFiles ==> Fits((log.files - {0})[k], maxBytes)
  }

  /** A log that has settled fits exactly if its current file and the others do. */
  lemma SettledFits(log: Log, maxFiles: nat, maxBytes: nat)
    requires maxFiles >= 1 && Settled(log)
    ensures AllFit(log.files, maxFiles, maxBytes) <==>
            (HeadSize(log) <= maxBytes || HeadCount(log) == 1) && OthersFit(log, maxFiles, maxBytes)
  {
    assert Size([]) == 0;
    if AllFit(log.files, maxFiles, maxBytes) {
      forall k | k in log.files - {0} && k < maxFiles ensures Fits((log.files - {0})[k], maxBytes) {
        assert k in log.files;
      }
    } else {
      var k :| k in log.files && k < maxFiles && !Fits(log.files[k], maxBytes);
      assert k > 0 ==> k in log.files - {0};
    }
  }

  lemma SteadyHead(log: Log, maxFiles: nat, maxBytes: nat)
    requires Steady(log, maxFiles, maxBytes)
    ensures HeadSize(log) == log.bytes && (HeadSize(log) <= maxBytes || HeadCount(log) == 1)
    ensures OthersFit(log, maxFiles, maxBytes)
  {
    SizeOf(Content(log.files, 0), Buffered(log));
    forall k | k in log.files - {0} && k < maxFiles ensures Fits((log.files - {0})[k], maxBytes) {
      assert k in log.files;
    }
  }

  /** A log that has settled and fits is steady, if its bytes are known. */
  lemma SettledIsSteady(log: Log, maxFiles: nat, maxBytes: nat)
    requires Settled(log) && maxFiles >= 1 && AllFit(log.files, maxFiles, maxBytes) && log.bytes == HeadSize(log)
    ensures Steady(log, maxFiles, maxBytes)
  {
    assert Size([]) == 0 && log.files[0] + [] == log.files[0];
  }

  /** The log after a turn and the opening of the streams that it made. */
  function AfterTurn(log: Log, turn: seq<Event>, opens: seq<Event>, maxFiles: nat, maxBytes: nat): Log
    requires maxFiles >= 1
  {
    RunOf(RunOf(log, turn, maxFiles, maxBytes), opens, maxFiles, maxBytes)
  }

  /**
    * With several files: once all streams have opened, in whatever order, the files are within the bound exactly
    * if the turn rotated at most once.
    */
  lemma TurnFitsIff(log: Log, turn: seq<Event>, opens: seq<Event>, maxFiles: nat, maxBytes: nat)
    requires maxFiles >= 2 && Settled(log) && Steady(log, maxFiles, maxBytes) && AllLogged(turn) && AllOpens(opens)
    requires Settled(AfterTurn(log, turn, opens, maxFiles, maxBytes))
    ensures var after := AfterTurn(log, turn, opens, maxFiles, maxBytes);
            && (AllFit(after.files, maxFiles, maxBytes) <==> Rotations(log.bytes, turn, maxBytes) <= 1)
            && (AllFit(after.files, maxFiles, maxBytes) ==> Steady(after, maxFiles, maxBytes))
  {
    var middle, after := RunOf(log, turn, maxFiles, maxBytes), AfterTurn(log, turn, opens, maxFiles, maxBytes);
    TurnState(log, turn, maxFiles, maxBytes);
    OpeningsMove(middle, opens, maxFiles, maxBytes);
    SettledFits(after, maxFiles, maxBytes);
    if Rotations(log.bytes, turn, maxBytes) <= 1 {
      SteadyHead(middle, maxFiles, maxBytes);
      SettledIsSteady(after, maxFiles, maxBytes);
    }
  }

  // ---------------------------------------------------------------- runs of turns

  datatype Turn = Turn(records: seq<Event>, opens: seq<Event>)

  function Took(log: Log, turn: Turn, maxFiles: nat, maxBytes: nat): Log
    requires maxFiles >= 1
  {
    AfterTurn(log, turn.records, turn.opens, maxFiles, maxBytes)
  }

  /** Turns of records, all streams of one having opened before the next begins. */
  predicate Settling(log: Log, turns: seq<Turn>, maxFiles: nat, maxBytes: nat)
    requires maxFiles >= 1
    decreases |turns|
  {
    turns == []
    || (AllLogged(turns[0].records) && AllOpens(turns[0].opens) && Settled(Took(log, turns[0], maxFiles, maxBytes))
        && Settling(Took(log, turns[0], maxFiles, maxBytes), turns[1..], maxFiles, maxBytes))
  }

  ghost predicate AlwaysFits(log: Log, turns: seq<Turn>, maxFiles: nat, maxBytes: nat)
    requires maxFiles >= 1
    decreases |turns|
  {
    && AllFit(log.files, maxFiles, maxBytes)
    && (turns == [] || AlwaysFits(Took(log, turns[0], maxFiles, maxBytes), turns[1..], maxFiles, maxBytes))
  }

  predicate NeverRotatesTwice(log: Log, turns: seq<Turn>, maxFiles: nat, maxBytes: nat)
    requires maxFiles >= 1 && Settling(log, turns, maxFiles, maxBytes)
    decreases |turns|
  {
    turns == []
    || (Rotations(log.bytes, turns[0].records, maxBytes) <= 1
        && NeverRotatesTwice(Took(log, turns[0], maxFiles, maxBytes), turns[1..], maxFiles, maxBytes))
  }

  /** With several files: a run keeps them within the bound exactly if no turn of it rotates twice. */
  lemma {:induction false} StaysBoundedIff(log: Log, turns: seq<Turn>, maxFiles: nat, maxBytes: nat)
    requires maxFiles >= 2 && Settled(log) && Steady(log, maxFiles, maxBytes)
    requires Settling(log, turns, maxFiles, maxBytes)
    ensures AlwaysFits(log, turns, maxFiles, maxBytes) <==> NeverRotatesTwice(log, turns, maxFiles, maxBytes)
    decreases |turns|
  {
    if turns == [] {
    } else {
      var next := Took(log, turns[0], maxFiles, maxBytes);
      TurnFitsIff(log, turns[0].records, turns[0].opens, maxFiles, maxBytes);
      if AllFit(next.files, maxFiles, maxBytes) {
        StaysBoundedIff(next, turns[1..], maxFiles, maxBytes);
      } else {
        assert !AlwaysFits(next, turns[1..], maxFiles, maxBytes);
      }
    }
  }

  // ---------------------------------------------------------------- inputs at which the bound fails

  const FRESH: Log := Log(map[0 := []], [], None, 0)

  /** Three records of which two fill more than a file, logged in one turn. */
  function Burst(entry: Entry): seq<Event> { [Logged(entry), Logged(entry), Logged(entry)] }

  lemma BurstRotates(entry: Entry, maxBytes: nat)
    requires entry.size <= maxBytes < 2 * entry.size
    ensures BytesAfter(0, Burst(entry), maxBytes) == entry.size && Rotations(0, Burst(entry), maxBytes) == 2
  {
    var one, two := [Logged(entry)], [Logged(entry), Logged(entry)];
    assert Burst(entry)[..2] == two && two[..1] == one && one[..0] == [];
    assert BytesAfter(0, one, maxBytes) == entry.size && Rotations(0, one, maxBytes) == 0;
    assert BytesAfter(0, two, maxBytes) == entry.size && Rotations(0, two, maxBytes) == 1;
  }

  /** Several files do not help: two streams made in one turn write to one file. */
  lemma BurstOverflows(entry: Entry, opens: seq<Event>, maxFiles: nat, maxBytes: nat)
    requires maxFiles >= 2 && entry.size <= maxBytes < 2 * entry.size && AllOpens(opens)
    requires Settled(AfterTurn(FRESH, Burst(entry), opens, maxFiles, maxBytes))
    ensures !AllFit(AfterTurn(FRESH, Burst(entry), opens, maxFiles, maxBytes).files, maxFiles, maxBytes)
  {
    assert [] + [] == Content(FRESH.files, 0) + Buffered(FRESH) && Steady(FRESH, maxFiles, maxBytes);
    BurstRotates(entry, maxBytes);
    TurnFitsIff(FRESH, Burst(entry), opens, maxFiles, maxBytes);
  }

  lemma FullNext(log: Log, entry: Entry, maxFiles: nat, maxBytes: nat)
    requires maxFiles >= 1 && Full(log, entry, maxBytes)
    ensures var next := Next(log, Logged(entry), maxFiles, maxBytes);
            && next.ended == (if log.current.Some? then log.ended + [log.current.value] else log.ended)
            && next.current.Some? && next.bytes == entry.size
  {
  }

  lemma BothOpen(log: Log, maxFiles: nat, maxBytes: nat)
    requires maxFiles >= 1 && |log.ended| == 1 && log.current.Some?
    ensures Settled(RunOf(log, [Opens(CurrentStream), Opens(EndedStream(0))], maxFiles, maxBytes))
  {
    RunNext(log, [], Opens(CurrentStream), maxFiles, maxBytes);
    RunNext(log, [Opens(CurrentStream)], Opens(EndedStream(0)), maxFiles, maxBytes);
    assert [] + [Opens(CurrentStream)] == [Opens(CurrentStream)];
    assert [Opens(CurrentStream)] + [Opens(EndedStream(0))] == [Opens(CurrentStream), Opens(EndedStream(0))];
  }

  /** A run in which that happens: after the burst the current stream opens, and then the ended one. */
  lemma BurstSettles(entry: Entry, maxFiles: nat, maxBytes: nat)
    requires maxFiles >= 2 && entry.size <= maxBytes < 2 * entry.size
    ensures Settled(AfterTurn(FRESH, Burst(entry), [Opens(CurrentStream), Opens(EndedStream(0))], maxFiles, maxBytes))
  {
    var one, two := [Logged(entry)], [Logged(entry), Logged(entry)];
    RunNext(FRESH, [], Logged(entry), maxFiles, maxBytes);
    RunNext(FRESH, one, Logged(entry), maxFiles, maxBytes);
    RunNext(FRESH, two, Logged(entry), maxFiles, maxBytes);
    assert [] + one == one && one + one == two && two + one == Burst(entry);
    FullNext(RunOf(FRESH, one, maxFiles, maxBytes), entry, maxFiles, maxBytes);
    FullNext(RunOf(FRESH, two, maxFiles, maxBytes), entry, maxFiles, maxBytes);
    BothOpen(RunOf(FRESH, Burst(entry), maxFiles, maxBytes), maxFiles, maxBytes);
  }

  lemma {:induction false} SingleFileHolds(log: Log, events: seq<Event>, maxBytes: nat)
    ensures HeadSize(RunOf(log, events, 1, maxBytes)) == HeadSize(log) + Size(Records(events))
    ensures HeadCount(RunOf(log, events, 1, maxBytes)) == HeadCount(log) + |Records(events)|
    decreases |events|
  {
    if events == [] {
    } else {
      var before, last := events[..|events| - 1], events[|events| - 1];
      var now := RunOf(log, before, 1, maxBytes);
      SingleFileHolds(log, before, maxBytes);
      SizeOf(Records(before), LoggedBy(last));
      if last.Logged? {
        SizeOne(last.entry);
        RotatingKeepsHead(now, 1);
        WritingAdds(now, last.entry);
        WritingAdds(Rotating(now, 1), last.entry);
      } else {
        OpeningMoves(now, last, 1, maxBytes);
      }
    }
  }

  lemma SettledHead(log: Log)
    requires Settled(log)
    ensures HeadSize(log) == Size(log.files[0]) && HeadCount(log) == |log.files[0]|
  {
    assert Size([]) == 0;
  }

  /** A single file is never emptied: it stays within the bound exactly as long as all that was logged does. */
  lemma SingleFileFitsIff(log: Log, events: seq<Event>, maxBytes: nat)
    requires Settled(log) && Settled(RunOf(log, events, 1, maxBytes))
    ensures Fits(RunOf(log, events, 1, maxBytes).files[0], maxBytes) <==> Fits(log.files[0] + Records(events), maxBytes)
  {
    SingleFileHolds(log, events, maxBytes);
    SizeOf(log.files[0], Records(events));
    SettledHead(log);
    SettledHead(RunOf(log, events, 1, maxBytes));
  }
}
