/** The rolling log of `apps/server/src/server-log-tee.ts`. */
module LogTee {
  import opened LogFiles
  import opened LogLines
  import opened LogStreams
  import opened LogTurns
  import opened Text
  import opened Wrappers

  datatype Chunk = Chunk(source: Source, text: string)

  /** A stream of the program is written to, or a stream of the log opens. */
  datatype Happening = Wrote(chunk: Chunk) | Opened(stream: Stream)

  /** The text a source has written. */
  function Written(happenings: seq<Happening>, source: Source): string
  {
    if happenings == [] then ""
    else
      var last, before := happenings[|happenings| - 1], Written(happenings[..|happenings| - 1], source);
      if last.Wrote? && last.chunk.source == source then before + last.chunk.text else before
  }

  lemma WrittenNext(happenings: seq<Happening>, i: nat, source: Source)
    requires i < |happenings|
    ensures Written(happenings[..i + 1], source)
            == if happenings[i].Wrote? && happenings[i].chunk.source == source
               then Written(happenings[..i], source) + happenings[i].chunk.text
               else Written(happenings[..i], source)
  {
    assert happenings[..i + 1][..i] == happenings[..i];
  }

  function Other(source: Source): Source { if source == Stdout then Stderr else Stdout }

  /** The records of one source. */
  function From(entries: seq<Entry>, source: Source): seq<Record>
  {
    if entries == [] then []
    else
      var last, before := entries[|entries| - 1].record, From(entries[..|entries| - 1], source);
      if last.source == source then before + [last] else before
  }

  lemma FromAppend(entries: seq<Entry>, entry: Entry, source: Source)
    ensures From(entries + [entry], source)
            == if entry.record.source == source then From(entries, source) + [entry.record] else From(entries, source)
  {
    assert (entries + [entry])[..|entries|] == entries;
  }

  lemma FirstLine(pending: string, newline: nat)
    requires newline == IndexOf(pending, '\n')
    ensures RawLines(pending) == [pending[..newline]] + RawLines(pending[newline + 1..])
    ensures Rest(pending) == Rest(pending[newline + 1..])
  {
  }

  /** Recording a line leaves what is to be recorded in all. */
  lemma LineTaken(source: Source, line: string, more: seq<string>, was: seq<Record>, now: seq<Record>)
    requires now == was + LineRecord(source, line)
    ensures was + Recorded(source, [line] + more) == now + Recorded(source, more)
  {
    RecordedOf(source, line, more);
    Assoc(was, LineRecord(source, line), Recorded(source, more));
  }

  /** What is pending with the next chunk continues what has been recorded. */
  lemma ChunkFollows(source: Source, text: string, chunk: string)
    ensures Recorded(source, RawLines(text)) + Recorded(source, RawLines(Rest(text) + chunk))
            == Recorded(source, RawLines(text + chunk))
    ensures Rest(Rest(text) + chunk) == Rest(text + chunk)
  {
    SplitAppend(text, chunk);
    RecordedAppend(source, RawLines(text), RawLines(Rest(text) + chunk));
  }

  lemma NothingRecorded(source: Source, pending: string, recorded: seq<Record>)
    requires IndexOf(pending, '\n') < 0
    ensures recorded + Recorded(source, RawLines(pending)) == recorded && Rest(pending) == pending
  {
  }

  lemma LogsOn(history: seq<Event>, turn: seq<Event>, more: seq<Event>)
    requires AllLogged(turn) && AllLogged(more)
    ensures AllLogged(turn + more) && history + turn + more == history + (turn + more)
  {
    Assoc(history, turn, more);
  }

  class Tee {
    const maxFiles: nat
    const maxBytes: nat
    /** What is on disk, with what open streams have been given. */
    var files: Files
    /** What ended streams, and the current one, hold while they are not open. */
    var ended: seq<seq<Entry>>
    var current: Option<seq<Entry>>
    var bytesWritten: nat
    var pendingOut: string
    var pendingErr: string
    /** The log as it was found, and what has happened to it since. */
    ghost const start: Log
    ghost var history: seq<Event>

    function State(): Log
      reads this
    {
      Log(files, ended, current, bytesWritten)
    }

    /** Everything logged since the start. */
    ghost function Entries(): seq<Entry>
      reads this
    {
      Records(history)
    }

    ghost predicate Valid()
      reads this
    {
      maxFiles >= 1 && State() == RunOf(start, history, maxFiles, maxBytes)
    }

    function Pending(source: Source): string
      reads this
    {
      if source == Stdout then pendingOut else pendingErr
    }

    /** What has been recorded of a source is what its text contains, whatever the chunks were. */
    ghost predicate Follows(source: Source, text: string)
      reads this
    {
      From(Entries(), source) == Recorded(source, RawLines(text)) && Pending(source) == Rest(text)
    }

    /** `openChannel`: the stream is made, and opens later. */
    constructor (files: Files, maxFiles: nat, maxBytes: nat)
      requires maxFiles >= 1
      ensures Valid() && this.maxFiles == maxFiles && this.maxBytes == maxBytes && history == []
      ensures start == Log(files, [], Some([]), Size(Content(files, 0)))
      ensures Follows(Stdout, "") && Follows(Stderr, "")
    {
      this.maxFiles, this.maxBytes := maxFiles, maxBytes;
      this.files, ended, current := files, [], Some([]);
      bytesWritten := Size(Content(files, 0));
      pendingOut, pendingErr := "", "";
      start, history := Log(files, [], Some([]), Size(Content(files, 0))), [];
    }

    /** The loop of `rotateChannel`. */
    method ShiftFiles()
      requires maxFiles >= 1
      modifies this`files
      ensures forall k: nat :: k >= maxFiles ==> Stays(old(files), files, k)
      ensures maxFiles == 1 ==> files == old(files)
      ensures maxFiles >= 2 ==> 0 !in files && LastMoved(old(files), files, maxFiles - 1)
      ensures forall k: nat :: 1 <= k < maxFiles - 1 ==> MovedUp(old(files), files, k)
    {
      ghost var before := files;
      var i := maxFiles - 1;
      while i >= 1
        invariant 0 <= i < maxFiles
        invariant forall k: nat :: k < i || k >= maxFiles ==> Stays(before, files, k)
        invariant if i == maxFiles - 1 then files == before else i !in files && LastMoved(before, files, maxFiles - 1)
        invariant forall k: nat :: i < k < maxFiles - 1 ==> MovedUp(before, files, k)
      {
        ghost var was := files;
        assert Stays(before, was, i - 1);
        if i - 1 in files {
          if i == maxFiles - 1 && i in files {
            files := files - {i};
          }
          files := files[i := files[i - 1]] - {i - 1};
        }
        forall k: nat | k != i && k != i - 1 ensures Stays(was, files, k) {}
        forall k: nat | k < i - 1 || k >= maxFiles ensures Stays(before, files, k) { assert Stays(before, was, k); }
        forall k: nat | i < k < maxFiles - 1 ensures MovedUp(before, files, k) { assert MovedUp(before, was, k); }
        i := i - 1;
      }
    }

    /** `rotateChannel`: whatever is at the current path moves up, and a new stream is made there. */
    method Rotate()
      requires maxFiles >= 1
      modifies this`files, this`ended, this`current, this`bytesWritten
      ensures State() == Rotating(old(State()), maxFiles)
    {
      if current.Some? {
        ended := ended + [current.value];
      }
      ghost var before := files;
      ShiftFiles();
      RotatedIsUnique(before, files, maxFiles);
      current := Some([]);
      bytesWritten := 0;
    }

    /** `appendNdjson` of a record that takes `size` bytes. */
    method Append(record: Record, size: nat)
      requires Valid()
      modifies this`files, this`ended, this`current, this`bytesWritten, this`history
      ensures Valid() && history == old(history) + [Logged(Entry(record, size))]
      ensures Entries() == old(Entries()) + [Entry(record, size)]
      ensures State() == Next(old(State()), Logged(Entry(record, size)), maxFiles, maxBytes)
    {
      var entry := Entry(record, size);
      RunNext(start, history, Logged(entry), maxFiles, maxBytes);
      if bytesWritten + size > maxBytes {
        Rotate();
      }
      if current.Some? {
        current := Some(current.value + [entry]);
      } else {
        files := files[0 := Content(files, 0) + [entry]];
      }
      bytesWritten := bytesWritten + size;
      history := history + [Logged(entry)];
    }

    /** A stream opens: what waits in it goes to the file then at its path. */
    method Open(stream: Stream)
      requires Valid()
      modifies this`files, this`ended, this`current, this`history
      ensures Valid() && history == old(history) + [Opens(stream)] && Entries() == old(Entries())
      ensures State() == Next(old(State()), Opens(stream), maxFiles, maxBytes)
    {
      RunNext(start, history, Opens(stream), maxFiles, maxBytes);
      assert Entries() + [] == Entries();
      match stream {
        case CurrentStream =>
          if current.Some? {
            files, current := files[0 := Content(files, 0) + current.value], None;
          }
        case EndedStream(k) =>
          if k < |ended| {
            files, ended := files[0 := Content(files, 0) + ended[k]], ended[..k] + ended[k + 1..];
          }
      }
      history := history + [Opens(stream)];
    }

    /** One line of a source: it is recorded unless it is blank. The size of its record is any. */
    method TakeLine(source: Source, rawLine: string) returns (ghost turn: seq<Event>)
      requires Valid()
      modifies this`files, this`ended, this`current, this`bytesWritten, this`history
      ensures Valid() && AllLogged(turn) && history == old(history) + turn
      ensures From(Entries(), source) == From(old(Entries()), source) + LineRecord(source, rawLine)
      ensures From(Entries(), Other(source)) == From(old(Entries()), Other(source))
    {
      turn := [];
      var line := DropReturn(rawLine);
      if !Blank(line) {
        var record := Classified(source, line);
        var size: nat := *;
        FromAppend(Entries(), Entry(record, size), source);
        FromAppend(Entries(), Entry(record, size), Other(source));
        turn := [Logged(Entry(record, size))];
        Append(record, size);
      }
    }

    /**
      * Between two lines, what `pending` holds is still to come. `end` and `others` are the records of the source
      * in the end, and those of the other one.
      */
    ghost predicate Taking(source: Source, pending: string, end: seq<Record>, others: seq<Record>)
      reads this
    {
      && From(Entries(), source) + Recorded(source, RawLines(pending)) == end
      && From(Entries(), Other(source)) == others
    }

    /** The next complete line. */
    method TakeNext(source: Source, pending: string, newline: nat, ghost end: seq<Record>, ghost others: seq<Record>)
      returns (more: string, ghost turn: seq<Event>)
      requires Valid() && newline == IndexOf(pending, '\n') && Taking(source, pending, end, others)
      modifies this`files, this`ended, this`current, this`bytesWritten, this`history
      ensures Valid() && AllLogged(turn) && history == old(history) + turn && Taking(source, more, end, others)
      ensures |more| < |pending| && Rest(more) == Rest(pending)
    {
      ghost var was := From(Entries(), source);
      var line := pending[..newline];
      more := pending[newline + 1..];
      FirstLine(pending, newline);
      turn := TakeLine(source, line);
      LineTaken(source, line, RawLines(more), was, From(Entries(), source));
    }

    /** The complete lines of what is pending are recorded, the rest is returned. */
    method TakeLines(source: Source, all: string) returns (pending: string, ghost turn: seq<Event>)
      requires Valid()
      modifies this`files, this`ended, this`current, this`bytesWritten, this`history
      ensures Valid() && pending == Rest(all) && AllLogged(turn) && history == old(history) + turn
      ensures From(Entries(), source) == From(old(Entries()), source) + Recorded(source, RawLines(all))
      ensures From(Entries(), Other(source)) == From(old(Entries()), Other(source))
    {
      pending, turn := all, [];
      var newline := IndexOf(pending, '\n');
      ghost var end := From(Entries(), source) + Recorded(source, RawLines(all));
      ghost var others := From(Entries(), Other(source));
      assert history == history + [];
      while newline >= 0
        invariant newline == IndexOf(pending, '\n') && Rest(pending) == Rest(all)
        invariant Valid() && AllLogged(turn) && history == old(history) + turn && Taking(source, pending, end, others)
        decreases |pending|
      {
        ghost var logged;
        pending, logged := TakeNext(source, pending, newline, end, others);
        LogsOn(old(history), turn, logged);
        turn := turn + logged;
        newline := IndexOf(pending, '\n');
      }
      NothingRecorded(source, pending, From(Entries(), source));
    }

    method SetPending(source: Source, pending: string)
      modifies this`pendingOut, this`pendingErr
      ensures Pending(source) == pending && Pending(Other(source)) == old(Pending(Other(source)))
    {
      if source == Stdout { pendingOut := pending; } else { pendingErr := pending; }
    }

    /**
      * The `write` that replaces a stream's own, in one turn: no stream opens meanwhile. `text` is what the
      * source has written before.
      */
    method Write(chunk: Chunk, ghost text: string) returns (ghost turn: seq<Event>)
      requires Valid() && Follows(chunk.source, text)
      modifies this`files, this`ended, this`current, this`bytesWritten, this`history, this`pendingOut, this`pendingErr
      ensures Valid() && Follows(chunk.source, text + chunk.text)
      ensures From(Entries(), Other(chunk.source)) == From(old(Entries()), Other(chunk.source))
      ensures Pending(Other(chunk.source)) == old(Pending(Other(chunk.source)))
      ensures AllLogged(turn) && State() == RunOf(old(State()), turn, maxFiles, maxBytes)
    {
      var source := chunk.source;
      var all := Pending(source) + chunk.text;
      ChunkFollows(source, text, chunk.text);
      var pending;
      pending, turn := TakeLines(source, all);
      SetPending(source, pending);
      RunAppend(start, old(history), turn, maxFiles, maxBytes);
    }

    /**
      * Any chunks of both sources, with streams of the log opening at any time. What is recorded of a source
      * depends only on its whole text, and nothing recorded is lost but what rotations give up. If no rotation
      * finds its stream not yet open, what is kept is all in order but its oldest part, and within the bound.
      */
    method Run(happenings: seq<Happening>)
      requires Valid() && Follows(Stdout, "") && Follows(Stderr, "")
      modifies this
      ensures Valid()
      ensures Follows(Stdout, Written(happenings, Stdout)) && Follows(Stderr, Written(happenings, Stderr))
      ensures Everything(start, maxFiles) + multiset(Entries())
              == multiset(Lost(start, history, maxFiles, maxBytes)) + Everything(State(), maxFiles)
      ensures maxFiles >= 2 && Steady(start, maxFiles, maxBytes) && Calm(start, history, maxFiles, maxBytes) ==>
                && Steady(State(), maxFiles, maxBytes)
                && (Kept(start.files, maxFiles) + Buffered(start)) + Entries()
                   == Lost(start, history, maxFiles, maxBytes) + (Kept(files, maxFiles) + Buffered(State()))
    {
      for i := 0 to |happenings|
        invariant Valid()
        invariant Follows(Stdout, Written(happenings[..i], Stdout)) && Follows(Stderr, Written(happenings[..i], Stderr))
      {
        WrittenNext(happenings, i, Stdout);
        WrittenNext(happenings, i, Stderr);
        match happenings[i]
        case Wrote(chunk) => ghost var _ := Write(chunk, Written(happenings[..i], chunk.source));
        case Opened(stream) => Open(stream);
      }
      assert happenings[..|happenings|] == happenings;
      NothingElseIsLost(start, history, maxFiles, maxBytes);
      if maxFiles >= 2 && Steady(start, maxFiles, maxBytes) && Calm(start, history, maxFiles, maxBytes) {
        OnlyOldestIsLost(start, history, maxFiles, maxBytes);
      }
    }
  }
}
