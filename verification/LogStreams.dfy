/**
  * The log of `apps/server/src/server-log-tee.ts`, record by record. A stream is opened some time after it was
  * made: until then the records written to it wait, and there may be no file at its path to rotate.
  */
module LogStreams {
  import opened LogFiles
  import opened Text
  import opened Wrappers

  /**
    * The files, what waits in ended streams and in the current one while they are not open, and the bytes that
    * the program believes to have written to the current file.
    */
  datatype Log = Log(files: Files, ended: seq<seq<Entry>>, current: Option<seq<Entry>>, bytes: nat)

  datatype Stream = CurrentStream | EndedStream(k: nat)

  /** A record is logged, or a stream opens, in any order. */
  datatype Event = Logged(entry: Entry) | Opens(stream: Stream)

  function Buffered(log: Log): seq<Entry> { if log.current.Some? then log.current.value else [] }

  predicate Full(log: Log, entry: Entry, maxBytes: nat) { log.bytes + entry.size > maxBytes }

  /** The stream ends, the files move up, and a new stream is made at the same path. */
  function Rotating(log: Log, maxFiles: nat): Log
    requires maxFiles >= 1
  {
    Log(RotatedOf(log.files, maxFiles), if log.current.Some? then log.ended + [log.current.value] else log.ended,
        Some([]), 0)
  }

  function Writing(log: Log, entry: Entry): Log
  {
    if log.current.Some? then log.(current := Some(log.current.value + [entry]), bytes := log.bytes + entry.size)
    else log.(files := log.files[0 := Content(log.files, 0) + [entry]], bytes := log.bytes + entry.size)
  }

  /** The log after an event; a stream that is not there does not open. */
  function Next(log: Log, event: Event, maxFiles: nat, maxBytes: nat): Log
    requires maxFiles >= 1
  {
    match event
    case Logged(entry) => Writing(if Full(log, entry, maxBytes) then Rotating(log, maxFiles) else log, entry)
    case Opens(CurrentStream) =>
      if log.current.None? then log
      else log.(files := log.files[0 := Content(log.files, 0) + log.current.value], current := None)
    case Opens(EndedStream(k)) =>
      if k >= |log.ended| then log
      else log.(files := log.files[0 := Content(log.files, 0) + log.ended[k]],
                ended := log.ended[..k] + log.ended[k + 1..])
  }

  function RunOf(log: Log, events: seq<Event>, maxFiles: nat, maxBytes: nat): Log
    requires maxFiles >= 1
    decreases |events|
  {
    if events == [] then log
    else Next(RunOf(log, events[..|events| - 1], maxFiles, maxBytes), events[|events| - 1], maxFiles, maxBytes)
  }

  /** What an event logs. */
  function LoggedBy(event: Event): seq<Entry> { if event.Logged? then [event.entry] else [] }

  function Records(events: seq<Event>): seq<Entry>
  {
    if events == [] then [] else Records(events[..|events| - 1]) + LoggedBy(events[|events| - 1])
  }

  lemma RunNext(log: Log, events: seq<Event>, event: Event, maxFiles: nat, maxBytes: nat)
    requires maxFiles >= 1
    ensures RunOf(log, events + [event], maxFiles, maxBytes)
            == Next(RunOf(log, events, maxFiles, maxBytes), event, maxFiles, maxBytes)
    ensures Records(events + [event]) == Records(events) + LoggedBy(event)
  {
    assert (events + [event])[..|events|] == events;
  }

  lemma {:induction false} RunAppend(log: Log, a: seq<Event>, b: seq<Event>, maxFiles: nat, maxBytes: nat)
    requires maxFiles >= 1
    ensures RunOf(log, a + b, maxFiles, maxBytes) == RunOf(RunOf(log, a, maxFiles, maxBytes), b, maxFiles, maxBytes)
    decreases |b|
  {
    if b == [] {
      assert a + b == a;
    } else {
      assert (a + b)[..|a + b| - 1] == a + b[..|b| - 1];
      RunAppend(log, a, b[..|b| - 1], maxFiles, maxBytes);
    }
  }

  // ---------------------------------------------------------------- nothing is lost but what rotations give up

  function Pooled(ended: seq<seq<Entry>>): seq<Entry>
  {
    if ended == [] then [] else ended[0] + Pooled(ended[1..])
  }

  lemma {:induction false} PooledAppend(a: seq<seq<Entry>>, b: seq<seq<Entry>>)
    ensures Pooled(a + b) == Pooled(a) + Pooled(b)
    decreases |a|
  {
    if a == [] {
      assert a + b == b;
    } else {
      assert (a + b)[1..] == a[1..] + b;
      PooledAppend(a[1..], b);
      Assoc(a[0], Pooled(a[1..]), Pooled(b));
    }
  }

  lemma PooledOne(x: seq<Entry>)
    ensures Pooled([x]) == x
  {
    assert [x][1..] == [] && x + [] == x;
  }

  lemma PooledAt(ended: seq<seq<Entry>>, k: nat)
    requires k < |ended|
    ensures Pooled(ended) == Pooled(ended[..k]) + ended[k] + Pooled(ended[k + 1..])
    ensures Pooled(ended[..k] + ended[k + 1..]) == Pooled(ended[..k]) + Pooled(ended[k + 1..])
  {
    PooledOne(ended[k]);
    PooledAppend(ended[..k], [ended[k]]);
    PooledAppend(ended[..k] + [ended[k]], ended[k + 1..]);
    PooledAppend(ended[..k], ended[k + 1..]);
    assert ended == ended[..k] + [ended[k]] + ended[k + 1..];
  }

  /** All that is kept or waits to be written, in no order. */
  function Everything(log: Log, maxFiles: nat): multiset<Entry>
  {
    multiset(Kept(log.files, maxFiles)) + multiset(Pooled(log.ended)) + multiset(Buffered(log))
  }

  /** What an event gives up. */
  function GivenUp(log: Log, event: Event, maxFiles: nat, maxBytes: nat): seq<Entry>
    requires maxFiles >= 1
  {
    if event.Logged? && Full(log, event.entry, maxBytes) then Dropped(log.files, maxFiles) else []
  }

  /** What rotations have given up on the way. */
  function Lost(log: Log, events: seq<Event>, maxFiles: nat, maxBytes: nat): seq<Entry>
    requires maxFiles >= 1
  {
    if events == [] then []
    else
      var before := events[..|events| - 1];
      Lost(log, before, maxFiles, maxBytes)
      + GivenUp(RunOf(log, before, maxFiles, maxBytes), events[|events| - 1], maxFiles, maxBytes)
  }

  lemma Bag(a: seq<Entry>, b: seq<Entry>)
    ensures multiset(a + b) == multiset(a) + multiset(b)
  {
  }

  lemma BagsChained(all: multiset<Entry>, before: multiset<Entry>, lost: multiset<Entry>, now: multiset<Entry>,
                    more: multiset<Entry>, given: multiset<Entry>, after: multiset<Entry>)
    requires all + before == lost + now && now + more == given + after
    ensures all + (before + more) == lost + given + after
  {
    assert all + (before + more) == all + before + more;
    assert lost + now + more == lost + (now + more);
    assert lost + given + after == lost + (given + after);
  }

  lemma BagsSwapped(a: multiset<Entry>, b: multiset<Entry>, c: multiset<Entry>, d: multiset<Entry>)
    ensures a + b + c + d == a + d + b + c == a + b + (c + d)
  {
  }

  lemma BagsRegrouped(dropped: multiset<Entry>, kept: multiset<Entry>, pooled: multiset<Entry>,
                      buffered: multiset<Entry>)
    ensures dropped + kept + pooled + buffered == dropped + (kept + (pooled + buffered) + multiset([]))
  {
  }

  lemma WritingKeeps(log: Log, entry: Entry, maxFiles: nat)
    requires maxFiles >= 1
    ensures Everything(Writing(log, entry), maxFiles) == Everything(log, maxFiles) + multiset([entry])
  {
    KeptAfterWrite(log.files, maxFiles, [entry]);
    Bag(Kept(log.files, maxFiles), [entry]);
    Bag(Buffered(log), [entry]);
    BagsSwapped(multiset(Kept(log.files, maxFiles)), multiset(Pooled(log.ended)), multiset(Buffered(log)),
                multiset([entry]));
  }

  lemma RotatingPools(log: Log, maxFiles: nat)
    requires maxFiles >= 1
    ensures multiset(Pooled(Rotating(log, maxFiles).ended)) == multiset(Pooled(log.ended)) + multiset(Buffered(log))
  {
    if log.current.Some? {
      PooledAppend(log.ended, [log.current.value]);
      PooledOne(log.current.value);
      Bag(Pooled(log.ended), log.current.value);
    } else {
      assert multiset(Buffered(log)) == multiset{};
    }
  }

  lemma RotatingGivesUp(log: Log, maxFiles: nat)
    requires maxFiles >= 1
    ensures Everything(log, maxFiles)
            == multiset(Dropped(log.files, maxFiles)) + Everything(Rotating(log, maxFiles), maxFiles)
  {
    var after := RotatedOf(log.files, maxFiles);
    var dropped, kept := multiset(Dropped(log.files, maxFiles)), multiset(Kept(after, maxFiles));
    var pooled, buffered := multiset(Pooled(log.ended)), multiset(Buffered(log));
    RotatedOfIsRotated(log.files, maxFiles);
    KeptAfterRotation(log.files, after, maxFiles);
    Bag(Dropped(log.files, maxFiles), Kept(after, maxFiles));
    RotatingPools(log, maxFiles);
    BagsRegrouped(dropped, kept, pooled, buffered);
  }

  lemma OpeningKeeps(log: Log, k: nat, maxFiles: nat)
    requires maxFiles >= 1 && k < |log.ended|
    ensures Everything(Next(log, Opens(EndedStream(k)), maxFiles, 0), maxFiles) == Everything(log, maxFiles)
  {
    var a, x, b := Pooled(log.ended[..k]), log.ended[k], Pooled(log.ended[k + 1..]);
    KeptAfterWrite(log.files, maxFiles, x);
    PooledAt(log.ended, k);
    Bag(Kept(log.files, maxFiles), x);
    Bag(a + x, b);
    Bag(a, x);
    Bag(a, b);
    var kept, buffered := multiset(Kept(log.files, maxFiles)), multiset(Buffered(log));
    assert kept + multiset(x) + (multiset(a) + multiset(b)) == kept + (multiset(a) + multiset(x) + multiset(b));
  }

  lemma CurrentOpeningKeeps(log: Log, maxFiles: nat)
    requires maxFiles >= 1 && log.current.Some?
    ensures Everything(Next(log, Opens(CurrentStream), maxFiles, 0), maxFiles) == Everything(log, maxFiles)
  {
    KeptAfterWrite(log.files, maxFiles, Buffered(log));
    Bag(Kept(log.files, maxFiles), Buffered(log));
    BagsSwapped(multiset(Kept(log.files, maxFiles)), multiset(Pooled(log.ended)), multiset(Buffered(log)), multiset{});
    BagsSwapped(multiset(Kept(log.files, maxFiles)), multiset(Buffered(log)), multiset(Pooled(log.ended)), multiset{});
  }

  lemma NextLosesOnly(log: Log, event: Event, maxFiles: nat, maxBytes: nat)
    requires maxFiles >= 1
    ensures Everything(log, maxFiles) + multiset(LoggedBy(event))
            == multiset(GivenUp(log, event, maxFiles, maxBytes))
               + Everything(Next(log, event, maxFiles, maxBytes), maxFiles)
  {
    match event
    case Logged(entry) =>
      if Full(log, entry, maxBytes) {
        RotatingGivesUp(log, maxFiles);
        WritingKeeps(Rotating(log, maxFiles), entry, maxFiles);
      } else {
        WritingKeeps(log, entry, maxFiles);
      }
    case Opens(CurrentStream) =>
      if log.current.Some? {
        CurrentOpeningKeeps(log, maxFiles);
      }
    case Opens(EndedStream(k)) =>
      if k < |log.ended| {
        OpeningKeeps(log, k, maxFiles);
      }
  }

  /** In any run, whenever streams open, nothing is lost but what rotations give up, and nothing is doubled. */
  lemma {:induction false} NothingElseIsLost(log: Log, events: seq<Event>, maxFiles: nat, maxBytes: nat)
    requires maxFiles >= 1
    ensures Everything(log, maxFiles) + multiset(Records(events))
            == multiset(Lost(log, events, maxFiles, maxBytes))
               + Everything(RunOf(log, events, maxFiles, maxBytes), maxFiles)
    decreases |events|
  {
    if events == [] {
    } else {
      var before, last := events[..|events| - 1], events[|events| - 1];
      var now := RunOf(log, before, maxFiles, maxBytes);
      NothingElseIsLost(log, before, maxFiles, maxBytes);
      NextLosesOnly(now, last, maxFiles, maxBytes);
      Bag(Records(before), LoggedBy(last));
      Bag(Lost(log, before, maxFiles, maxBytes), GivenUp(now, last, maxFiles, maxBytes));
      BagsChained(Everything(log, maxFiles), multiset(Records(before)), multiset(Lost(log, before, maxFiles, maxBytes)),
                  Everything(now, maxFiles), multiset(LoggedBy(last)),
                  multiset(GivenUp(now, last, maxFiles, maxBytes)),
                  Everything(Next(now, last, maxFiles, maxBytes), maxFiles));
    }
  }

  // ---------------------------------------------------------------- calm runs

  /** All files fit, the current one with what waits for it, whose bytes are known. No ended stream waits. */
  ghost predicate Steady(log: Log, maxFiles: nat, maxBytes: nat)
  {
    var head := Content(log.files, 0) + Buffered(log);
    && log.ended == [] && AllFit(log.files, maxFiles, maxBytes)
    && log.bytes == Size(head) && Fits(head, maxBytes) && (log.current.None? ==> 0 in log.files)
  }

  /** No rotation finds the current stream not yet open. */
  predicate Calm(log: Log, events: seq<Event>, maxFiles: nat, maxBytes: nat)
    requires maxFiles >= 1
    decreases |events|
  {
    events == []
    || (var before, last := events[..|events| - 1], events[|events| - 1];
        var now := RunOf(log, before, maxFiles, maxBytes);
        && Calm(log, before, maxFiles, maxBytes)
        && (last.Logged? && Full(now, last.entry, maxBytes) ==> now.current.None?))
  }

  lemma CalmRotation(log: Log, entry: Entry, maxFiles: nat, maxBytes: nat)
    requires maxFiles >= 2 && Steady(log, maxFiles, maxBytes) && log.current.None?
    ensures var next := Writing(Rotating(log, maxFiles), entry);
            && Steady(next, maxFiles, maxBytes) && 0 !in next.files && Buffered(next) == [entry]
            && Kept(log.files, maxFiles) == Dropped(log.files, maxFiles) + Kept(next.files, maxFiles)
  {
    RotatedOfIsRotated(log.files, maxFiles);
    KeptAfterRotation(log.files, RotatedOf(log.files, maxFiles), maxFiles);
    RotationFits(log.files, RotatedOf(log.files, maxFiles), maxFiles, maxBytes);
    SizeOne(entry);
    assert [] + [entry] == [entry];
  }

  lemma CalmWrite(log: Log, entry: Entry, maxFiles: nat, maxBytes: nat)
    requires maxFiles >= 1 && Steady(log, maxFiles, maxBytes) && !Full(log, entry, maxBytes)
    ensures var next := Writing(log, entry);
            && Steady(next, maxFiles, maxBytes) && (next.current.None? <==> log.current.None?)
            && Kept(next.files, maxFiles) + Buffered(next) == Kept(log.files, maxFiles) + Buffered(log) + [entry]
  {
    var head := Content(log.files, 0) + Buffered(log);
    SizeOf(head, [entry]);
    SizeOne(entry);
    if log.current.None? {
      KeptAfterWrite(log.files, maxFiles, [entry]);
      assert head == Content(log.files, 0);
    } else {
      Assoc(Content(log.files, 0), Buffered(log), [entry]);
      Assoc(Kept(log.files, maxFiles), Buffered(log), [entry]);
    }
  }

  lemma CalmOpening(log: Log, maxFiles: nat, maxBytes: nat)
    requires maxFiles >= 1 && Steady(log, maxFiles, maxBytes)
    ensures var next := Next(log, Opens(CurrentStream), maxFiles, maxBytes);
            && Steady(next, maxFiles, maxBytes)
            && Kept(next.files, maxFiles) + Buffered(next) == Kept(log.files, maxFiles) + Buffered(log)
  {
    KeptAfterWrite(log.files, maxFiles, Buffered(log));
    var head := Content(log.files, 0) + Buffered(log);
    assert head + [] == head;
  }

  /** One step of a calm run: the files stay within the bound, and what is kept is in the order it was logged. */
  lemma CalmStep(log: Log, event: Event, maxFiles: nat, maxBytes: nat)
    requires maxFiles >= 2 && Steady(log, maxFiles, maxBytes)
    requires event.Logged? && Full(log, event.entry, maxBytes) ==> log.current.None?
    ensures var next := Next(log, event, maxFiles, maxBytes);
            && Steady(next, maxFiles, maxBytes)
            && (Kept(log.files, maxFiles) + Buffered(log)) + LoggedBy(event)
               == GivenUp(log, event, maxFiles, maxBytes) + (Kept(next.files, maxFiles) + Buffered(next))
  {
    match event
    case Logged(entry) =>
      if Full(log, entry, maxBytes) {
        CalmRotation(log, entry, maxFiles, maxBytes);
        assert Buffered(log) == [] && Kept(log.files, maxFiles) + [] == Kept(log.files, maxFiles);
        Assoc(Dropped(log.files, maxFiles), Kept(Next(log, event, maxFiles, maxBytes).files, maxFiles), [entry]);
      } else {
        CalmWrite(log, entry, maxFiles, maxBytes);
      }
    case Opens(CurrentStream) => CalmOpening(log, maxFiles, maxBytes);
    case Opens(EndedStream(_)) =>
  }

  lemma Chained<T>(kept: seq<T>, before: seq<T>, lost: seq<T>, now: seq<T>, given: seq<T>, after: seq<T>, more: seq<T>)
    requires kept + before == lost + now && now + more == given + after
    ensures kept + (before + more) == lost + given + after
  {
    Assoc(kept, before, more);
    Assoc(lost, now, more);
    Assoc(lost, given, after);
  }

  /**
    * If no rotation finds the current stream not yet open, all files stay within the bound, and what is kept is
    * all that was logged, in order, but its oldest part.
    */
  lemma {:induction false} OnlyOldestIsLost(log: Log, events: seq<Event>, maxFiles: nat, maxBytes: nat)
    requires maxFiles >= 2 && Steady(log, maxFiles, maxBytes) && Calm(log, events, maxFiles, maxBytes)
    ensures var after := RunOf(log, events, maxFiles, maxBytes);
            && Steady(after, maxFiles, maxBytes)
            && (Kept(log.files, maxFiles) + Buffered(log)) + Records(events)
               == Lost(log, events, maxFiles, maxBytes) + (Kept(after.files, maxFiles) + Buffered(after))
    decreases |events|
  {
    var kept := Kept(log.files, maxFiles) + Buffered(log);
    if events == [] {
      assert kept + [] == [] + kept;
    } else {
      var before, last := events[..|events| - 1], events[|events| - 1];
      var now, after := RunOf(log, before, maxFiles, maxBytes), RunOf(log, events, maxFiles, maxBytes);
      OnlyOldestIsLost(log, before, maxFiles, maxBytes);
      CalmStep(now, last, maxFiles, maxBytes);
      Chained(kept, Records(before), Lost(log, before, maxFiles, maxBytes), Kept(now.files, maxFiles) + Buffered(now),
              GivenUp(now, last, maxFiles, maxBytes), Kept(after.files, maxFiles) + Buffered(after), LoggedBy(last));
    }
  }
}
