/**
  * What moving the data root promises: the outcomes of a start, the states it may leave when it dies, and the
  * life of the recorded choice over any run (`apps/desktop/src/data-root-copy.ts`).
  */
module DataRootPromises {
  import opened CopyLaws
  import opened DataRootPlan
  import opened FileTree
  import opened Wrappers

  /** A step either returns or the process dies in it. */
  datatype Outcome<+T> = Crashed | Returned(value: T) {
    predicate IsFailure() { Crashed? }

    function PropagateFailure<U>(): Outcome<U>
      requires Crashed?
    {
      Crashed
    }

    function Extract(): T
      requires Returned?
    {
      value
    }
  }

  /** Why an item was not copied. */
  datatype ItemProblem = SystemError | Incomplete | AlreadyThere

  datatype Problem = Refused(plan: Plan) | MkdirStopped(made: nat) | NotCopied(why: ItemProblem)

  /** The record of the player's choice, in its file. */
  datatype Record = NoRecord | Unreadable | Pending(from: Path, to: Path, started: bool)

  datatype Reason = InUse | Interrupted | Error(problem: Problem) | SwitchFailed | RecordFailed

  /**
    * What a start meets: whether the database is in use, whether the record can be marked and removed, how many
    * directories can be made, and whether all else goes smoothly: no other system call fails but for the state of
    * the disk, and the process does not die.
    */
  datatype Conditions = Conditions(inUse: bool, marks: bool, mkdirs: nat, clears: bool, smooth: bool)

  datatype StartResult = NothingDone | Copied | UsedExisting | Switched | Failed(reason: Reason) | Threw

  // ---------------------------------------------------------------- what a start promises

  /** What survives a crash, with the number of copies the present record has caused. */
  datatype Durable = Durable(fs: Node, dataRoot: Path, record: Record, copies: nat)

  datatype Event = Start(conditions: Conditions) | Choose(to: Path) | Edit(fs: Node, dataRoot: Path)

  /** Any moment of a start that copies. */
  ghost predicate CopyKeeps(was: Durable, now: Durable, from: Path, to: Path)
  {
    && Midway(was.fs, now.fs, from, to)
    && (now.dataRoot == from || (now.dataRoot == to && Complete(was.fs, now.fs, from, to)))
    && (now.record == was.record || now.record == Pending(from, to, true) || now.record == NoRecord)
    && (now.record == was.record ==> now == was)
    && was.copies <= now.copies <= was.copies + 1
  }

  /** Any moment of a start: how far the tree, the configured root and the record may have come. */
  ghost predicate StartKeeps(was: Durable, now: Durable)
  {
    var cleared := now.record == was.record || now.record == NoRecord;
    match was.record
    case NoRecord => cleared && now == was.(record := now.record)
    case Unreadable => cleared && now == was.(record := now.record)
    case Pending(from, to, started) =>
      if from != was.dataRoot then cleared && now == was.(record := now.record)
      else if started then
        && cleared && now.dataRoot == was.dataRoot && now.copies == was.copies
        && Within(now.fs, was.fs) && Set(now.fs, StagingDir(to), None) == Set(was.fs, StagingDir(to), None)
      else match PlanSwitch(was.fs, from, to)
        case Copy =>
          CopyKeeps(was, now, from, to)
          || (now.record == NoRecord && now == was.(record := NoRecord))
        case Same => cleared && now == was.(record := now.record)
        case Nested => cleared && now == was.(record := now.record)
        case _ =>
          cleared && (now.dataRoot == from || now.dataRoot == to)
          && now == was.(record := now.record, dataRoot := now.dataRoot)
  }

  /** What is true once a start has reported its result. */
  ghost predicate Reported(was: Durable, now: Durable, from: Path, to: Path, result: StartResult)
  {
    match result
    case NothingDone => now.fs == was.fs && now.dataRoot == was.dataRoot
    case Copied =>
      && Complete(was.fs, now.fs, from, to) && now.dataRoot == to
      && Get(was.fs, StagingDir(to)).None? && Get(now.fs, StagingDir(to)).None?
    case UsedExisting => now.fs == was.fs && now.dataRoot == to && HasCovelData(was.fs, to)
    case Switched => now.fs == was.fs && now.dataRoot == to && !HasCovelData(was.fs, from)
    case Failed(reason) =>
      && now.dataRoot == was.dataRoot
      && (match reason
          case Interrupted => now.fs == Set(was.fs, StagingDir(to), None)
          case Error(MkdirStopped(made)) =>
            StoppedAt(was.fs, to, made) && now.fs == MadeDirs(was.fs, to, made)
          case _ => now.fs == was.fs)
    case Threw => false
  }

  /** The data of the old root reads the same after a start, wherever the start was cut off. */
  ghost predicate SourceKept(was: Durable, now: Durable)
  {
    was.record.Pending? && was.record.from == was.dataRoot ==>
      forall name: Name :: !name.Other? && name != Staging && Get(was.fs, was.dataRoot + [name]).Some? ==>
        Get(now.fs, was.dataRoot + [name]) == Get(was.fs, was.dataRoot + [name])
  }

  /** If the new root lies apart from it, the old root is the same, whatever is in it. */
  ghost predicate OldRootKept(was: Durable, now: Durable)
  {
    was.record.Pending? && was.record.from == was.dataRoot && Apart(was.dataRoot, was.record.to) &&
    Get(was.fs, was.dataRoot).Some? ==>
      Get(now.fs, was.dataRoot) == Get(was.fs, was.dataRoot)
  }

  /** A record causes at most one copy; one that is marked was planned between separate roots. */
  ghost predicate Sound(d: Durable)
  {
    && d.copies <= 1
    && (d.record.Pending? ==> if d.record.started then Separate(d.record.from, d.record.to) else d.copies == 0)
  }

  lemma StartIsSound(was: Durable, now: Durable)
    requires Sound(was) && StartKeeps(was, now)
    ensures Sound(now) && SourceKept(was, now) && OldRootKept(was, now)
  {
    if was.record.Pending? && was.record.from == was.dataRoot {
      var from, to := was.record.from, was.record.to;
      if PlanSwitch(was.fs, from, to) == Copy { CopyIsPlanned(was.fs, from, to); }
      if Apart(from, to) && Get(was.fs, from).Some? {
        OldRootSurvives(was, now);
      }
      forall name: Name | !name.Other? && name != Staging && Get(was.fs, from + [name]).Some?
        ensures Get(now.fs, from + [name]) == Get(was.fs, from + [name])
      {
        var p, st := from + [name], StagingDir(to);
        if was.record.started {
          SourceElsewhere(from, to, name);
          assert st[|to|] == Staging && p[|from|] == name;
          GetApart(now.fs, st, None, p);
          GetApart(was.fs, st, None, p);
        } else if PlanSwitch(was.fs, from, to) == Copy {
          SourceElsewhere(from, to, name);
        }
      }
    }
  }

  lemma OldRootSurvives(was: Durable, now: Durable)
    requires StartKeeps(was, now) && was.record.Pending? && was.record.from == was.dataRoot
    requires Apart(was.record.from, was.record.to) && Get(was.fs, was.record.from).Some?
    ensures Get(now.fs, was.dataRoot) == Get(was.fs, was.dataRoot)
  {
    var from, to := was.record.from, was.record.to;
    assert Apart(StagingDir(to), from) by {
      assert from <= StagingDir(to) ==> from <= to || from == StagingDir(to);
      assert to <= StagingDir(to);
    }
    if was.record.started {
      GetApart(now.fs, StagingDir(to), None, from);
      GetApart(was.fs, StagingDir(to), None, from);
    } else if PlanSwitch(was.fs, from, to) == Copy && Midway(was.fs, now.fs, from, to) {
      CrashKeepsOldRoot(was.fs, now.fs, from, to);
    }
  }

  // ---------------------------------------------------------------- the life of the record

  /** The record asks for an attempt: it has been neither marked nor cleared. */
  predicate Asks(record: Record) { record.Pending? && !record.started }

  /** The start gets as far as marking the record, just before it copies. */
  predicate Marks(was: Durable, c: Conditions)
  {
    && Asks(was.record) && was.record.from == was.dataRoot
    && PlanSwitch(was.fs, was.record.from, was.record.to) == Copy && !c.inUse && c.marks
  }

  /** The record once a start has returned: gone, unless it could not be removed. */
  function RecordAfter(was: Durable, c: Conditions): Record
  {
    if c.clears then NoRecord
    else if Marks(was, c) then Pending(was.record.from, was.record.to, true)
    else was.record
  }

  /** What is recorded is carried out when nothing fails, or the result says why it cannot be. */
  ghost predicate Fulfilled(was: Durable, c: Conditions, from: Path, to: Path, result: StartResult)
  {
    match PlanSwitch(was.fs, from, to)
    case Same => result == NothingDone
    case DestinationHasData => result == UsedExisting
    case SourceEmpty => result == Switched
    case Nested => result == Failed(Error(Refused(Nested)))
    case Copy =>
      if c.inUse then result == Failed(InUse)
      else if !c.marks then result == Failed(RecordFailed)
      else Copyable(was.fs, from, to) && !MayStop(was.fs, to, c.mkdirs) ==> result == Copied
  }

  /** The start has marked the record, and begun to copy. */
  predicate Marked(was: Durable, c: Conditions, outcome: Outcome<StartResult>, now: Durable)
  {
    Marks(was, c) && (outcome.Returned? || now.record != was.record)
  }

  /** Everything a start promises: `was` and `now` are the states around it, or up to where it died. */
  ghost predicate Honest(was: Durable, c: Conditions, outcome: Outcome<StartResult>, now: Durable)
  {
    && StartKeeps(was, now)
    && now.copies == was.copies + (if Marked(was, c, outcome, now) then 1 else 0)
    && (outcome.Returned? ==> now.record == RecordAfter(was, c))
    && (outcome.Crashed? ==>
          now.record == was.record || (Marks(was, c) && now.record == Pending(was.record.from, was.record.to, true)))
    && (outcome.Crashed? && now.fs != was.fs ==> now.record.Pending? && now.record.started)
    && (outcome.Returned? && !was.record.Pending? ==> outcome.value == if c.clears then NothingDone else Threw)
    && (outcome.Returned? && was.record.Pending? ==>
          Reported(was, now, was.record.from, was.record.to, outcome.value))
    && (outcome.Returned? && was.record.Pending? && was.record.started && was.record.from == was.dataRoot ==>
          outcome.value == Failed(Interrupted) && Get(now.fs, StagingDir(was.record.to)).None?)
    && (outcome == Returned(Failed(Interrupted)) ==> was.record.Pending? && was.record.started)
    && (c.smooth ==> outcome.Returned?)
    && (c.smooth && Asks(was.record) && was.record.from == was.dataRoot ==>
          Fulfilled(was, c, was.record.from, was.record.to, outcome.value))
  }

  /** What an attempt promises, before the record is cleared. */
  ghost predicate Tried(was: Durable, c: Conditions, outcome: Outcome<StartResult>, now: Durable)
  {
    && was.record.Pending? && StartKeeps(was, now)
    && (now.record == was.record || (Marks(was, c) && now.record == Pending(was.record.from, was.record.to, true)))
    && (outcome.Returned? ==> (now.record != was.record <==> Marks(was, c)))
    && (now.fs != was.fs ==> now.record.Pending? && now.record.started)
    && now.copies == was.copies + (if now.record != was.record then 1 else 0)
    && (outcome.Returned? ==> Reported(was, now, was.record.from, was.record.to, outcome.value))
    && (outcome.Returned? && was.record.started && was.record.from == was.dataRoot ==>
          outcome.value == Failed(Interrupted) && Get(now.fs, StagingDir(was.record.to)).None?)
    && (outcome == Returned(Failed(Interrupted)) ==> was.record.started)
    && (c.smooth ==> outcome.Returned?)
    && (c.smooth && !was.record.started && was.record.from == was.dataRoot ==>
          Fulfilled(was, c, was.record.from, was.record.to, outcome.value))
  }

  /** The process dies in the attempt or right after it. */
  lemma CrashIsHonest(was: Durable, c: Conditions, outcome: Outcome<StartResult>, now: Durable)
    requires Tried(was, c, outcome, now)
    ensures !c.smooth ==> Honest(was, c, Crashed, now)
  {
  }

  /** The attempt returns, and the record is cleared or not. */
  lemma ReturnIsHonest(was: Durable, c: Conditions, outcome: Outcome<StartResult>, now: Durable)
    requires Tried(was, c, outcome, now) && outcome.Returned?
    ensures Honest(was, c, outcome, if c.clears then now.(record := NoRecord) else now)
  {
  }

  /** What happens to the durable state: starts, choices of another root, and work of the running app. */
  datatype Happening =
    | Started(was: Durable, conditions: Conditions, outcome: Outcome<StartResult>, now: Durable)
    | Chosen(was: Durable, now: Durable)
    | Edited(was: Durable, now: Durable)

  ghost predicate Truthful(h: Happening)
  {
    match h
    case Started(was, c, outcome, now) =>
      Honest(was, c, outcome, now) && SourceKept(was, now) && OldRootKept(was, now) && now.copies <= 1
    case Chosen(was, now) => exists to :: now == was.(record := Pending(was.dataRoot, to, false), copies := 0)
    case Edited(was, now) => now.record == was.record && now.copies == was.copies
  }

  ghost predicate Follows(trace: seq<Happening>)
  {
    && (forall k :: 0 <= k < |trace| ==> Truthful(trace[k]))
    && (forall k :: 0 <= k < |trace| - 1 ==> trace[k].now == trace[k + 1].was)
  }

  /** The start leaves the record as it asked: it died before marking it, or returned without either. */
  predicate LeavesAsking(h: Happening)
    requires h.Started?
  {
    if h.outcome.Returned? then !h.conditions.clears && !Marks(h.was, h.conditions) else h.now.record == h.was.record
  }

  lemma OneStartLeaves(h: Happening)
    requires h.Started? && Truthful(h)
    ensures Asks(h.was.record) && LeavesAsking(h) ==> h.now.record == h.was.record
    ensures !(Asks(h.was.record) && LeavesAsking(h)) ==> !Asks(h.now.record)
  {
  }

  /**
    * One choice is attempted again exactly if every start since could neither mark nor clear the record, or
    * died before it was marked. In particular a start that returns is followed by another attempt only if
    * its clearing failed and the record was never marked.
    */
  lemma {:induction false} AttemptedAgainIff(trace: seq<Happening>, i: nat, j: nat)
    requires Follows(trace) && i < j < |trace| && Asks(trace[i].was.record)
    requires forall k :: i <= k < j ==> !trace[k].Chosen?
    ensures Asks(trace[j].was.record) <==> forall k :: i <= k < j && trace[k].Started? ==> LeavesAsking(trace[k])
    decreases j
  {
    assert Truthful(trace[j - 1]) && trace[j - 1].now == trace[j].was;
    if trace[j - 1].Started? {
      OneStartLeaves(trace[j - 1]);
    }
    if i == j - 1 {
    } else {
      AttemptedAgainIff(trace, i, j - 1);
    }
  }

  /** The record of a copy that was cut short stays marked until a start returns. */
  lemma {:induction false} StaysMarked(trace: seq<Happening>, i: nat, j: nat)
    requires Follows(trace) && i < j < |trace| && trace[i].now.record.Pending? && trace[i].now.record.started
    requires forall k :: i < k < j ==> !trace[k].Chosen? && (trace[k].Started? ==> trace[k].outcome.Crashed?)
    ensures trace[j].was.record == trace[i].now.record
    decreases j
  {
    assert Truthful(trace[j - 1]) && trace[j - 1].now == trace[j].was;
    if i == j - 1 {
    } else {
      StaysMarked(trace, i, j - 1);
    }
  }

  /**
    * A copy that was cut short is noticed: the first start after it that returns, with the configured root
    * still the old one, reports the interruption and leaves no staging directory.
    */
  lemma InterruptionIsNoticed(trace: seq<Happening>, i: nat, j: nat)
    requires Follows(trace) && i < j < |trace| && trace[i].Started? && trace[i].outcome.Crashed?
    requires trace[i].now.fs != trace[i].was.fs || trace[i].now.copies != trace[i].was.copies
    requires forall k :: i < k < j ==> !trace[k].Chosen? && (trace[k].Started? ==> trace[k].outcome.Crashed?)
    requires trace[j].Started? && trace[j].outcome.Returned?
    requires trace[j].was.record.Pending? ==> trace[j].was.record.from == trace[j].was.dataRoot
    ensures trace[j].was.record.Pending? && trace[j].outcome.value == Failed(Interrupted)
    ensures Get(trace[j].now.fs, StagingDir(trace[j].was.record.to)).None?
  {
    assert Truthful(trace[i]) && Truthful(trace[j]);
    StaysMarked(trace, i, j);
  }

  // ---------------------------------------------------------------- the remains of a copy that was cut short

  /** A start that died while it copied, before it switched. */
  predicate CutShort(h: Happening)
  {
    h.Started? && h.outcome.Crashed? && h.now.copies != h.was.copies && h.now.dataRoot == h.was.dataRoot
  }

  /** Another choice, or a start that at most cleans up in `to`. */
  predicate OnlyCleansUp(h: Happening, to: Path)
  {
    h.Chosen? || (h.Started? && !Asks(h.was.record) && (h.was.record.Pending? ==> h.was.record.to == to))
  }

  /** The items of a data root are the same on two disks. */
  ghost predicate SameItems(a: Node, b: Node, to: Path)
  {
    forall name :: name != Staging ==> Get(a, to + [name]) == Get(b, to + [name])
  }

  lemma SameItemsMean(a: Node, b: Node, before: Node, from: Path, to: Path)
    requires SameItems(a, b, to)
    ensures HasCovelData(a, to) == HasCovelData(b, to) && Complete(before, a, from, to) == Complete(before, b, from, to)
  {
  }

  lemma CleanupKeepsItems(h: Happening, to: Path)
    requires Truthful(h) && OnlyCleansUp(h, to)
    ensures h.now.dataRoot == h.was.dataRoot && SameItems(h.was.fs, h.now.fs, to)
  {
    if h.Started? && h.was.record.Pending? && h.was.record.from == h.was.dataRoot {
      var st := StagingDir(to);
      forall name | name != Staging ensures Get(h.was.fs, to + [name]) == Get(h.now.fs, to + [name]) {
        assert st[|to|] == Staging && (to + [name])[|to|] == name;
        GetApart(h.now.fs, st, None, to + [name]);
        GetApart(h.was.fs, st, None, to + [name]);
      }
    }
  }

  lemma {:induction false} ItemsStay(trace: seq<Happening>, i: nat, j: nat, to: Path)
    requires Follows(trace) && i < j < |trace| && forall k :: i < k < j ==> OnlyCleansUp(trace[k], to)
    ensures trace[j].was.dataRoot == trace[i].now.dataRoot && SameItems(trace[i].now.fs, trace[j].was.fs, to)
    decreases j
  {
    assert Truthful(trace[j - 1]) && trace[j - 1].now == trace[j].was;
    if i == j - 1 {
    } else {
      ItemsStay(trace, i, j - 1, to);
      CleanupKeepsItems(trace[j - 1], to);
    }
  }

  lemma AdoptedIff(h: Happening, to: Path)
    requires h.Started? && Truthful(h) && h.conditions.smooth
    requires h.was.record == Pending(h.was.dataRoot, to, false) && h.was.dataRoot != to
    ensures h.outcome == Returned(UsedExisting) <==> HasCovelData(h.was.fs, to)
    ensures h.outcome == Returned(UsedExisting) ==> h.now.fs == h.was.fs && h.now.dataRoot == to
  {
  }

  lemma CutShortIsMidway(h: Happening)
    requires CutShort(h) && Truthful(h)
    ensures h.was.record.Pending? && h.was.record.from == h.was.dataRoot != h.was.record.to
    ensures Midway(h.was.fs, h.now.fs, h.was.dataRoot, h.was.record.to)
  {
  }

  /** A moment of a copy is a complete one exactly if `covel.db` is in place, if there is one to copy. */
  lemma CompleteIffPlaced(before: Node, fs: Node, from: Path, to: Path)
    requires Midway(before, fs, from, to) && Get(before, from + [Database]).Some?
    ensures Complete(before, fs, from, to) <==> Get(fs, to + [Database]).Some?
  {
    assert Database in DATABASE_FILES;
  }

  /**
    * After a copy that was cut short, with only clean-ups and choices since, the same directory is chosen again.
    * The start then takes what the copy left for an existing data root exactly if an item had come into place. If
    * the source had `covel.db`, that root is a partial copy exactly if `covel.db` had not come into place.
    */
  lemma RemainsAreAdoptedIff(trace: seq<Happening>, i: nat, j: nat)
    requires Follows(trace) && i < j < |trace| && CutShort(trace[i])
    requires forall k :: i < k < j ==> OnlyCleansUp(trace[k], trace[i].was.record.to)
    requires trace[j].Started? && trace[j].conditions.smooth
    requires trace[j].was.record == Pending(trace[j].was.dataRoot, trace[i].was.record.to, false)
    ensures var (cut, start, from, to) := (trace[i], trace[j], trace[i].was.dataRoot, trace[i].was.record.to);
            && (start.outcome == Returned(UsedExisting) <==> HasCovelData(cut.now.fs, to))
            && (Get(cut.was.fs, from + [Database]).Some? ==>
                  (start.now.dataRoot == to && start.outcome == Returned(UsedExisting)
                   && !Complete(cut.was.fs, start.now.fs, from, to)
                   <==> HasCovelData(cut.now.fs, to) && Get(cut.now.fs, to + [Database]).None?))
  {
    var cut, start := trace[i], trace[j];
    var from, to := cut.was.dataRoot, cut.was.record.to;
    assert Truthful(cut) && Truthful(start);
    CutShortIsMidway(cut);
    ItemsStay(trace, i, j, to);
    SameItemsMean(cut.now.fs, start.was.fs, cut.was.fs, from, to);
    AdoptedIff(start, to);
    if Get(cut.was.fs, from + [Database]).Some? {
      CompleteIffPlaced(cut.was.fs, cut.now.fs, from, to);
    }
  }

  lemma StagingGoes(fs: Node, to: Path)
    ensures Get(Set(fs, StagingDir(to), None), StagingDir(to)).None?
  {
    GetSet(fs, StagingDir(to), None);
  }

  lemma CopyReports(was: Durable, now: Durable, from: Path, to: Path)
    requires Complete(was.fs, now.fs, from, to) && now.dataRoot == to
    requires Get(was.fs, StagingDir(to)).None? && Get(now.fs, StagingDir(to)).None?
    ensures Reported(was, now, from, to, Copied)
  {
  }

  lemma FailureReports(was: Durable, now: Durable, from: Path, to: Path, reason: Reason)
    requires now.dataRoot == was.dataRoot && reason != Interrupted
    requires if reason.Error? && reason.problem.MkdirStopped? then
               StoppedAt(was.fs, to, reason.problem.made) && now.fs == MadeDirs(was.fs, to, reason.problem.made)
             else now.fs == was.fs
    ensures Reported(was, now, from, to, Failed(reason))
  {
  }

  /** A copy that has not begun is a moment of one. */
  lemma CopyNotBegun(was: Durable, from: Path, to: Path)
    requires PlanSwitch(was.fs, from, to) == Copy && was.dataRoot == from
    ensures CopyKeeps(was, was, from, to)
  {
    CopyIsPlanned(was.fs, from, to);
    WithinSelf(was.fs);
  }

  lemma TwoFollow(first: Happening, second: Happening)
    requires Truthful(first) && Truthful(second) && first.now == second.was
    ensures Follows([first, second])
  {
  }

  /**
    * A destination that holds a directory of the staging directory's name is not copied to, and stays as it is
    * for now; but the record is marked.
    */
  lemma ForeignBlocks(h: Happening)
    requires h.Started? && Truthful(h) && h.conditions.smooth && !h.conditions.clears && Marks(h.was, h.conditions)
    requires Get(h.was.fs, StagingDir(h.was.record.to)).Some?
    ensures h.now.fs == h.was.fs && h.now.dataRoot == h.was.dataRoot
    ensures h.now.record == Pending(h.was.record.from, h.was.record.to, true)
  {
    var to := h.was.record.to;
    GetBelow(h.was.fs, to, [Staging]);
    if FirstMissing(h.was.fs, to) <= |to| {
      MissingIsEmpty(h.was.fs, to);
    }
  }

  /** A disk with two roots on it. */
  function TwoRoots(a: Node, b: Node): Node { Dir(map[Other("old") := a, Other("new") := b]) }

  lemma TwoRootsRead(a: Node, b: Node, r: Path)
    ensures Get(TwoRoots(a, b), OLD_ROOT + r) == Get(a, r) && Get(TwoRoots(a, b), [Other("new")] + r) == Get(b, r)
  {
    assert (OLD_ROOT + r)[1..] == r && ([Other("new")] + r)[1..] == r;
  }

  lemma TwoRootsData(a: Node, b: Node)
    ensures HasCovelData(TwoRoots(a, b), OLD_ROOT) == HasCovelData(a, [])
    ensures HasCovelData(TwoRoots(a, b), [Other("new")]) == HasCovelData(b, [])
  {
    forall name ensures Get(TwoRoots(a, b), OLD_ROOT + [name]) == Get(a, [] + [name]) { TwoRootsRead(a, b, [name]); }
    forall name ensures Get(TwoRoots(a, b), [Other("new")] + [name]) == Get(b, [] + [name]) {
      TwoRootsRead(a, b, [name]);
    }
  }

  /** A destination that already holds a directory of the staging directory's name is planned as a copy. */
  lemma ForeignStagingIsPlanned(file: string)
    ensures var fs := TwoRoots(Dir(map[Database := File(file)]), Dir(map[Staging := Dir(map[])]));
            PlanSwitch(fs, OLD_ROOT, [Other("new")]) == Copy && Get(fs, StagingDir([Other("new")])).Some?
  {
    var a, b := Dir(map[Database := File(file)]), Dir(map[Staging := Dir(map[])]);
    TwoRootsRead(a, b, [Staging]);
    TwoRootsData(a, b);
    assert Database in DATABASE_FILES && Get(a, [] + [Database]).Some?;
    ApartIsCopied(TwoRoots(a, b), OLD_ROOT, [Other("new")]);
  }

  lemma OldRootIsCopyable(file: string)
    ensures var fs, to := OldRootOnly(file), [Other("new")];
            Copyable(fs, OLD_ROOT, to) && !MayStop(fs, to, 1) && PlanSwitch(fs, OLD_ROOT, to) == Copy
  {
    var fs, to := OldRootOnly(file), [Other("new")];
    ElsewhereIsEmpty(file, to);
    forall name ensures Get(fs, OLD_ROOT + [name]).Some? ==> IsFile(fs, OLD_ROOT + [name]) {
      GetBelow(fs, OLD_ROOT, [name]);
    }
    forall name ensures Get(fs, to + [name]).None? { GetBelow(fs, to, [name]); }
    assert to[..0] == [] && IsDir(fs, []) && to[..1] == to;
  }
}
