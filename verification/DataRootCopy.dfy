/**
  * Copying the data root, step by step: `apps/desktop/src/data-root-copy.ts`. Every system call may
  * fail, and the process may die before any of them or in the middle of one that writes much.
  */
module DataRootCopy {
  import opened FileTree
  import opened DataRootPlan
  import opened CopyLaws
  import opened CopySteps
  import opened DataRootPromises
  import opened Wrappers

  /** One written path, whatever was written there. */
  ghost predicate WroteAt(was: Node, fs: Node, p: Path)
    requires p != []
  {
    exists x :: fs == Set(was, p, x)
  }

  class Host {
    var fs: Node
    /** The data root `config.toml` names. */
    var dataRoot: Path
    var record: Record
    /** Created by the running copy, newest first. */
    var created: seq<Path>
    /** In this start no system call fails but for the state of the disk, and the process does not die. */
    var smooth: bool
    /** How many copies the present record has caused. */
    ghost var copies: nat

    constructor (fs: Node, dataRoot: Path, record: Record)
      ensures this.fs == fs && this.dataRoot == dataRoot && this.record == record
      ensures created == [] && copies == 0
    {
      this.fs, this.dataRoot, this.record, this.created, this.smooth, this.copies := fs, dataRoot, record, [], false, 0;
    }

    // -------------------------------------------------------------- system calls

    method Mkdir(p: Path, works: bool) returns (r: Outcome<bool>)
      requires p != []
      modifies this`fs
      ensures works && Get(old(fs), p).None? && IsDir(old(fs), Parent(p)) ==> r != Returned(false)
      ensures !works ==> r != Returned(true)
      ensures smooth ==> r.Returned?
      ensures r == Returned(true) ==>
                Get(old(fs), p).None? && IsDir(old(fs), Parent(p)) && fs == Set(old(fs), p, Some(Dir(map[])))
      ensures r != Returned(true) ==> fs == old(fs)
    {
      var crash: bool := *;
      if crash && !smooth { return Crashed; }
      if !works || Get(fs, p).Some? || !IsDir(fs, Parent(p)) { return Returned(false); }
      fs := Set(fs, p, Some(Dir(map[])));
      return Returned(true);
    }

    /** One more directory on the way to `to`, if the system still makes it. */
    method MakeOne(to: Path, k: nat, made: nat, works: nat, ghost start: Node) returns (r: Outcome<bool>)
      requires k == FirstMissing(start, to) && MayStop(start, to, made) && fs == MadeDirs(start, to, made)
      modifies this`fs
      ensures r.Returned? ==> r.value == (made < works)
      ensures smooth ==> r.Returned?
      ensures fs == if r.Returned? && r.value then MadeDirs(start, to, made + 1) else old(fs)
    {
      MakeNext(start, to, made);
      NextIsFree(start, to, made);
      r := Mkdir(to[..k + made], made < works);
    }

    /**
      * `mkdir` with `recursive`: the first directory made, none if `to` was there, or how many were made when
      * it failed. The system makes no more than `works` directories.
      */
    method MkdirAll(to: Path, works: nat) returns (r: Outcome<Result<Option<Path>, nat>>, ghost n: nat)
      modifies this`fs
      ensures FirstMissing(old(fs), to) + n <= |to| + 1 && fs == MadeDirs(old(fs), to, n)
      ensures n > 0 ==> IsDir(old(fs), to[..FirstMissing(old(fs), to) - 1])
      ensures r.Returned? && r.value.Err? ==> r.value.error == n && (n > 0 ==> FirstMissing(old(fs), to) + n <= |to|)
      ensures r.Returned? && MayStop(old(fs), to, works) ==> r.value == Err(works)
      ensures smooth ==> r.Returned? && (CanMake(old(fs), to) && !MayStop(old(fs), to, works) ==> r.value.Ok?)
      ensures r.Returned? && r.value == Ok(None) ==> n == 0 && IsDir(fs, to)
      ensures r.Returned? && r.value.Ok? && r.value.value.Some? ==>
                n > 0 && n == |to| + 1 - FirstMissing(old(fs), to)
                && r.value.value == Some(to[..FirstMissing(old(fs), to)])
    {
      n := 0;
      var k := FirstMissing(fs, to);
      if k > |to| {
        assert to[..|to|] == to;
        return Returned(if IsDir(fs, to) then Ok(None) else Err(0)), 0;
      }
      if !IsDir(fs, to[..k - 1]) {
        return Returned(Err(0)), 0;
      }
      var made := 0;
      while made < |to| + 1 - k
        invariant 0 <= made == n <= |to| + 1 - k && made <= works
        invariant fs == MadeDirs(old(fs), to, made)
      {
        var ok := MakeOne(to, k, made, works, old(fs));
        if ok.Crashed? { return Crashed, n; }
        if !ok.value { return Returned(Err(made)), n; }
        made, n := made + 1, n + 1;
      }
      return Returned(Ok(Some(to[..k]))), n;
    }

    /** Copy a file to a new path. It may fail half-way, or stop short without an error. */
    method CopyFile(src: Path, dst: Path) returns (r: Outcome<bool>)
      requires dst != []
      modifies this`fs
      ensures WroteAt(old(fs), fs, dst)
      ensures r == Returned(true) ==>
                && Get(old(fs), dst).None? && IsDir(old(fs), Parent(dst))
                && Get(old(fs), src).Some? && Get(old(fs), src).value.File?
                && exists written: string :: written <= Get(old(fs), src).value.content
                                             && fs == Set(old(fs), dst, Some(File(written)))
      ensures smooth && Get(old(fs), dst).None? && IsDir(old(fs), Parent(dst)) && IsFile(old(fs), src) ==>
                r == Returned(true) && fs == Set(old(fs), dst, Get(old(fs), src))
      ensures smooth ==> r.Returned?
    {
      var crash: bool, fault: bool := *, *;
      crash, fault := crash && !smooth, fault && !smooth;
      SetUnchanged(fs, dst);
      if crash { return Crashed; }
      if fault || Get(fs, dst).Some? || !IsDir(fs, Parent(dst)) { return Returned(false); }
      if Get(fs, src).None? || Get(fs, src).value.Dir? { return Returned(false); }
      var content, length: nat := Get(fs, src).value.content, *;
      fs := Set(fs, dst, Some(File(if length <= |content| && !smooth then content[..length] else content)));
      crash, fault := *, *;
      return if crash && !smooth then Crashed else Returned(smooth || !fault);
    }

    /** Copy a directory to a new path; a copy cut short may have left anything below that path. */
    method CopyTree(src: Path, dst: Path) returns (r: Outcome<bool>)
      requires dst != []
      modifies this`fs
      ensures WroteAt(old(fs), fs, dst)
      ensures r == Returned(true) ==>
                IsDir(old(fs), Parent(dst)) && IsDir(old(fs), src) && fs == Set(old(fs), dst, Get(old(fs), src))
      ensures smooth && Get(old(fs), dst).None? && IsDir(old(fs), Parent(dst)) && IsDir(old(fs), src) ==>
                r == Returned(true)
      ensures smooth ==> r.Returned?
    {
      var crash: bool, fault: bool, part: Node := *, *, *;
      crash, fault := crash && !smooth, fault && !smooth;
      SetUnchanged(fs, dst);
      if Get(fs, dst).Some? || !IsDir(fs, Parent(dst)) || !IsDir(fs, src) { return Returned(false); }
      if crash || fault {
        fs := Set(fs, dst, Some(part));
        return if crash then Crashed else Returned(false);
      }
      fs := Set(fs, dst, Get(fs, src));
      return Returned(true);
    }

    method Rename(src: Path, dst: Path) returns (r: Outcome<bool>)
      requires src != [] && dst != [] && Apart(src, dst)
      modifies this`fs
      ensures r == Returned(true) ==>
                && Get(old(fs), src).Some? && IsDir(old(fs), Parent(dst))
                && fs == Set(Set(old(fs), dst, Get(old(fs), src)), src, None)
      ensures r != Returned(true) ==> fs == old(fs)
      ensures smooth ==> r == Returned(Get(old(fs), src).Some? && IsDir(old(fs), Parent(dst)))
    {
      var crash: bool, fault: bool := *, *;
      if crash && !smooth { return Crashed; }
      if (fault && !smooth) || Get(fs, src).None? || !IsDir(fs, Parent(dst)) { return Returned(false); }
      fs := Set(Set(fs, dst, Get(fs, src)), src, None);
      return Returned(true);
    }

    /** `rm` with `recursive` and `force`, taken to succeed unless the process dies part of the way. */
    method RemoveTree(p: Path) returns (r: Outcome<()>)
      requires p != []
      modifies this`fs
      ensures r.Returned? ==> fs == Set(old(fs), p, None)
      ensures Within(fs, old(fs)) && Set(fs, p, None) == Set(old(fs), p, None)
      ensures r.Crashed? && !IsDir(old(fs), p) ==> fs == old(fs)
      ensures smooth ==> r.Returned?
    {
      var crash: bool, part: Node := *, *;
      crash := crash && !smooth;
      WithinSelf(fs);
      SetUnchanged(fs, p);
      SetBelow(fs, p, [], None, None);
      assert p + [] == p;
      if crash && IsDir(fs, p) && Within(part, Get(fs, p).value) {
        SetBelow(fs, p, [], Some(part), None);
        WithinSet(fs, p, Some(part));
        fs := Set(fs, p, Some(part));
        return Crashed;
      }
      if crash { return Crashed; }
      WithinSet(fs, p, None);
      fs := Set(fs, p, None);
      return Returned(());
    }

    /** The size of a file. */
    method Stat(p: Path) returns (r: Outcome<Option<nat>>)
      ensures r.Returned? && r.value.Some? ==>
                Get(fs, p).Some? && Get(fs, p).value.File? && r.value.value == |Get(fs, p).value.content|
      ensures smooth ==> r.Returned? && (r.value.Some? <==> IsFile(fs, p))
    {
      var crash: bool, fault: bool := *, *;
      if crash && !smooth { return Crashed; }
      if (fault && !smooth) || Get(fs, p).None? || Get(fs, p).value.Dir? { return Returned(None); }
      return Returned(Some(|Get(fs, p).value.content|));
    }

    /** The entries of a directory in some order. */
    method ReadDir(p: Path) returns (r: Outcome<Option<seq<Name>>>)
      ensures r.Returned? && r.value.Some? ==>
                && IsDir(fs, p)
                && (forall e :: e in r.value.value <==> e in Get(fs, p).value.entries)
                && (forall i, j :: 0 <= i < j < |r.value.value| ==> r.value.value[i] != r.value.value[j])
      ensures smooth ==> r.Returned? && (r.value.Some? <==> IsDir(fs, p))
    {
      var crash: bool, fault: bool := *, *;
      if crash && !smooth { return Crashed; }
      if (fault && !smooth) || !IsDir(fs, p) { return Returned(None); }
      var left, names := Get(fs, p).value.entries.Keys, [];
      while left != {}
        invariant forall e :: e in Get(fs, p).value.entries <==> e in left || e in names
        invariant forall e :: e in left ==> e !in names
        invariant forall i, j :: 0 <= i < j < |names| ==> names[i] != names[j]
        decreases left
      {
        var e :| e in left;
        left, names := left - {e}, names + [e];
      }
      return Returned(Some(names));
    }

    // -------------------------------------------------------------- copyDataRoot

    /** Remove what the copy created, newest first. */
    method Undo(ghost before: Node, ghost from: Path, ghost to: Path) returns (r: Outcome<()>)
      requires Undoes(before, fs, to, created) && Midway(before, fs, from, to)
      requires Get(fs, to + [Database]).Some? ==>
                 created != [] && created[0] == to + [Database] && !IsDir(fs, to + [Database])
      modifies this`fs, this`created
      ensures r.Returned? ==> fs == before && created == []
      ensures r.Crashed? ==> Midway(before, fs, from, to)
      ensures smooth ==> r.Returned?
    {
      var i := 0;
      while i < |created|
        invariant 0 <= i <= |created| && created == old(created)
        invariant Undoes(before, fs, to, created[i..])
        invariant i == 0 ==> fs == old(fs)
        invariant i > 0 ==> Get(fs, to + [Database]).None?
      {
        ghost var was := fs;
        assert created[i..][0] == created[i] && created[i..][1..] == created[i + 1..];
        var removed := RemoveTree(created[i]);
        if Get(fs, to + [Database]).Some? {
          WithinGet(fs, was, to + [Database]);
        }
        if removed.Crashed? {
          UndoesIsIntact(before, fs, to, created[i..]);
          return Crashed;
        }
        GetSet(was, created[i], None);
        i := i + 1;
      }
      assert created[i..] == [];
      created := [];
      return Returned(());
    }

    /** Copy one database file into the staging directory and compare sizes. */
    method StageFile(from: Path, to: Path, name: Name, ghost before: Node,
                     ghost root: seq<Path>, ghost staged: set<Name>)
      returns (r: Outcome<Option<ItemProblem>>)
      requires Working(before, fs, from, to, [], root) && Untouched(before, fs, to, {})
      requires Staged(before, fs, from, to, staged) && name !in staged && !name.Other? && name != Staging
      requires OnlyStaged(fs, to, staged)
      modifies this`fs
      ensures Working(before, fs, from, to, [], root) && Untouched(before, fs, to, {})
      ensures Staged(before, fs, from, to, staged) && OnlyStaged(fs, to, staged + {name})
      ensures r == Returned(None) ==>
                && Get(before, from + [name]).Some? && Get(before, from + [name]).value.File?
                && Get(fs, StagingDir(to) + [name]) == Get(before, from + [name])
      ensures smooth && IsFile(before, from + [name]) ==> r == Returned(None)
      ensures smooth ==> r.Returned?
    {
      var source, copy := from + [name], StagingDir(to) + [name];
      WorkingReads(before, fs, from, to, [], root, name);
      assert Parent(copy) == StagingDir(to);
      var copied := CopyFile(source, copy);
      ghost var x :| fs == Set(old(fs), copy, x);
      OnlyStagedMore(old(fs), to, name, x, staged);
      WorkingWrite(before, old(fs), from, to, [], root, [name], x);
      WriteFrame(before, old(fs), from, to, name, x, staged, {});
      var ok :- copied;
      if !ok { return Returned(Some(SystemError)); }
      WorkingReads(before, fs, from, to, [], root, name);
      ghost var written: string :| written <= Get(before, source).value.content
                                   && fs == Set(old(fs), copy, Some(File(written)));
      GetSet(old(fs), copy, Some(File(written)));
      if smooth { GetSet(old(fs), copy, Get(old(fs), source)); }
      var size :- Stat(source);
      var copiedSize :- Stat(copy);
      if size.None? || copiedSize.None? { return Returned(Some(SystemError)); }
      ghost var content := Get(before, source).value.content;
      assert content[..|content|] == content;
      assert size == copiedSize ==> written == content;
      return Returned(if size != copiedSize then Some(Incomplete) else None);
    }

    /** Copy all database files into the staging directory. */
    method StageDatabase(from: Path, to: Path, files: seq<Name>, ghost before: Node, ghost root: seq<Path>)
      returns (r: Outcome<Option<ItemProblem>>)
      requires Working(before, fs, from, to, [], root) && Untouched(before, fs, to, {})
      requires DatabaseFiles(files) && OnlyStaged(fs, to, {})
      modifies this`fs
      ensures Working(before, fs, from, to, [], root) && Untouched(before, fs, to, {})
      ensures r == Returned(None) ==>
                && Staged(before, fs, from, to, Elements(files)) && OnlyStaged(fs, to, Elements(files))
                && forall i :: 0 <= i < |files| ==> !IsDir(before, from + [files[i]])
      ensures smooth && (forall i :: 0 <= i < |files| ==> IsFile(before, from + [files[i]])) ==> r == Returned(None)
      ensures smooth ==> r.Returned?
    {
      var i := 0;
      while i < |files|
        invariant 0 <= i <= |files|
        invariant Working(before, fs, from, to, [], root) && Untouched(before, fs, to, {})
        invariant Staged(before, fs, from, to, Elements(files[..i])) && OnlyStaged(fs, to, Elements(files[..i]))
        invariant forall j :: 0 <= j < i ==> !IsDir(before, from + [files[j]])
      {
        var problem :- StageFile(from, to, files[i], before, root, Elements(files[..i]));
        if problem.Some? { return Returned(problem); }
        ElementsNext(files, i);
        i := i + 1;
      }
      assert files[..i] == files;
      return Returned(None);
    }

    /** Copy a data directory into the staging directory if it holds anything. */
    method StageDirectory(from: Path, to: Path, name: Name, ghost before: Node,
                          ghost root: seq<Path>, ghost staged: set<Name>)
      returns (r: Outcome<Result<Option<Listing>, ItemProblem>>)
      requires Working(before, fs, from, to, [], root) && Untouched(before, fs, to, {})
      requires Staged(before, fs, from, to, staged) && name !in staged && !name.Other? && name != Staging
      requires OnlyStaged(fs, to, staged)
      modifies this`fs
      ensures Working(before, fs, from, to, [], root) && Untouched(before, fs, to, {})
      ensures Staged(before, fs, from, to, staged) && OnlyStaged(fs, to, staged + {name})
      ensures r.Returned? && r.value == Ok(None) ==> !HasEntries(before, from + [name]) && OnlyStaged(fs, to, staged)
      ensures smooth ==> r.Returned? && r.value.Ok?
      ensures r.Returned? && r.value.Ok? && r.value.value.Some? ==>
                && r.value.value.value.name == name
                && Lists(r.value.value.value, Get(before, from + [name]))
                && Get(fs, StagingDir(to) + [name]) == Get(before, from + [name])
    {
      var source, copy := from + [name], StagingDir(to) + [name];
      WorkingReads(before, fs, from, to, [], root, name);
      if !IsDir(fs, source) { return Returned(Ok(None)); }
      var entries :- ReadDir(source);
      if entries.None? { return Returned(Err(SystemError)); }
      if entries.value == [] { return Returned(Ok(None)); }
      assert Parent(copy) == StagingDir(to);
      var copied := CopyTree(source, copy);
      ghost var x :| fs == Set(old(fs), copy, x);
      OnlyStagedMore(old(fs), to, name, x, staged);
      WorkingWrite(before, old(fs), from, to, [], root, [name], x);
      WriteFrame(before, old(fs), from, to, name, x, staged, {});
      var ok :- copied;
      if !ok { return Returned(Err(SystemError)); }
      GetSet(old(fs), copy, Get(old(fs), source));
      return Returned(Ok(Some(Listing(name, entries.value))));
    }

    /** Between two data directories: of the first `i`, those that hold anything are listed and staged. */
    ghost predicate StagingFiles(from: Path, to: Path, i: nat, files: set<Name>, before: Node, root: seq<Path>,
                                 listings: seq<Listing>)
      requires i <= |DATA_DIRECTORIES|
      reads this
    {
      && Working(before, fs, from, to, [], root) && Untouched(before, fs, to, {})
      && Staged(before, fs, from, to, files + ListedNames(listings)) && Listed(before, from, listings, i)
      && OnlyStaged(fs, to, files + ListedNames(listings))
    }

    /** Stage the next data directory. */
    method StageNext(from: Path, to: Path, i: nat, listings: seq<Listing>, ghost files: set<Name>,
                     ghost before: Node, ghost root: seq<Path>)
      returns (r: Outcome<Result<seq<Listing>, ItemProblem>>)
      requires i < |DATA_DIRECTORIES| && Worlds !in files && Media !in files
      requires StagingFiles(from, to, i, files, before, root, listings)
      modifies this`fs
      ensures r.Returned? && r.value.Ok? ==> StagingFiles(from, to, i + 1, files, before, root, r.value.value)
      ensures Working(before, fs, from, to, [], root) && Untouched(before, fs, to, {})
      ensures smooth ==> r.Returned? && r.value.Ok?
    {
      NotYetListed(before, from, listings, i);
      var listing :- StageDirectory(from, to, DATA_DIRECTORIES[i], before, root, files + ListedNames(listings));
      if listing.Err? { return Returned(Err(listing.error)); }
      if listing.value.None? {
        ListNone(before, from, listings, i);
        return Returned(Ok(listings));
      }
      ListMore(before, from, listings, i, listing.value.value);
      return Returned(Ok(listings + [listing.value.value]));
    }

    /** Copy the data directories that hold anything into the staging directory. */
    method StageDirectories(from: Path, to: Path, ghost files: set<Name>, ghost before: Node, ghost root: seq<Path>)
      returns (r: Outcome<Result<seq<Listing>, ItemProblem>>)
      requires Working(before, fs, from, to, [], root) && Untouched(before, fs, to, {})
      requires Staged(before, fs, from, to, files) && Worlds !in files && Media !in files && OnlyStaged(fs, to, files)
      modifies this`fs
      ensures smooth ==> r.Returned? && r.value.Ok?
      ensures Working(before, fs, from, to, [], root) && Untouched(before, fs, to, {})
      ensures r.Returned? && r.value.Ok? ==>
                StagingFiles(from, to, |DATA_DIRECTORIES|, files, before, root, r.value.value)
    {
      var listings: seq<Listing> := [];
      var i := 0;
      while i < |DATA_DIRECTORIES|
        invariant 0 <= i <= |DATA_DIRECTORIES| && StagingFiles(from, to, i, files, before, root, listings)
      {
        var more :- StageNext(from, to, i, listings, files, before, root);
        if more.Err? { return Returned(more); }
        listings := more.value;
        i := i + 1;
      }
      return Returned(Ok(listings));
    }

    /** Put a staged node in place, never over an existing one. */
    method Place(staged: Path, target: Path) returns (r: Outcome<Option<ItemProblem>>)
      requires staged != [] && target != [] && Apart(staged, target)
      modifies this`fs, this`created
      ensures r == Returned(None) ==>
                && Get(old(fs), target).None? && Get(old(fs), staged).Some? && IsDir(old(fs), Parent(target))
                && fs == Set(Set(old(fs), target, Get(old(fs), staged)), staged, None)
                && created == [target] + old(created)
      ensures r != Returned(None) ==> fs == old(fs) && created == old(created)
      ensures smooth ==> r.Returned?
      ensures smooth && Get(old(fs), target).None? && Get(old(fs), staged).Some? && IsDir(old(fs), Parent(target)) ==>
                r == Returned(None)
    {
      if Get(fs, target).Some? { return Returned(Some(AlreadyThere)); }
      var renamed :- Rename(staged, target);
      if !renamed { return Returned(Some(SystemError)); }
      created := [target] + created;
      return Returned(None);
    }

    /** Put one staged item in place as a whole. */
    method PlaceWhole(from: Path, to: Path, name: Name, ghost before: Node, ghost root: seq<Path>,
                      ghost newer: seq<Path>, ghost staged: set<Name>, ghost placed: set<Name>)
      returns (r: Outcome<Option<ItemProblem>>)
      requires created == newer + [StagingDir(to)] + root && Working(before, fs, from, to, newer, root)
      requires !name.Other? && name != Staging && name !in staged && name !in placed && Staging !in placed
      requires Staged(before, fs, from, to, staged + {name}) && Placed(before, fs, from, to, placed)
      requires Untouched(before, fs, to, placed)
      modifies this`fs, this`created
      ensures r != Returned(None) ==> fs == old(fs) && created == old(created)
      ensures r == Returned(None) ==>
                && created == ([to + [name]] + newer) + [StagingDir(to)] + root
                && Working(before, fs, from, to, [to + [name]] + newer, root)
                && Staged(before, fs, from, to, staged) && Placed(before, fs, from, to, placed + {name})
                && Untouched(before, fs, to, placed + {name})
      ensures smooth ==> r.Returned?
      ensures smooth && Get(old(fs), to + [name]).None? && Get(before, from + [name]).Some? ==> r == Returned(None)
    {
      var item, target := StagingDir(to) + [name], to + [name];
      assert item[|to|] == Staging && target[|to|] == name && Parent(target) == to;
      StagingInside(fs, to);
      var problem :- Place(item, target);
      if problem.None? {
        WholeMoves(before, old(fs), from, to, newer, root, name, staged, placed);
        Regroup(target, newer, StagingDir(to), root);
      }
      return Returned(problem);
    }

    /** Put one entry of a staged directory into the destination's directory of that name. */
    method PlaceEntry(from: Path, to: Path, name: Name, e: Name, ghost before: Node, ghost root: seq<Path>,
                      ghost newer: seq<Path>, ghost staged: set<Name>, ghost placed: set<Name>)
      returns (r: Outcome<Option<ItemProblem>>)
      requires created == newer + [StagingDir(to)] + root && Working(before, fs, from, to, newer, root)
      requires !name.Other? && name != Staging && name !in staged && name !in placed && Staging !in placed
      requires Staged(before, fs, from, to, staged) && Placed(before, fs, from, to, placed)
      requires Untouched(before, fs, to, placed + {name})
      requires IsDir(fs, StagingDir(to) + [name])
      modifies this`fs, this`created
      ensures r != Returned(None) ==> fs == old(fs) && created == old(created)
      ensures r == Returned(None) ==>
                && created == ([to + [name, e]] + newer) + [StagingDir(to)] + root
                && Working(before, fs, from, to, [to + [name, e]] + newer, root)
                && Staged(before, fs, from, to, staged) && Placed(before, fs, from, to, placed)
                && Untouched(before, fs, to, placed + {name})
                && IsDir(old(fs), to + [name])
                && (var (d, left) := (Get(old(fs), to + [name]).value.entries,
                                      Get(old(fs), StagingDir(to) + [name]).value.entries);
                    && e in left
                    && Get(fs, to + [name]) == Some(Dir(d[e := left[e]]))
                    && Get(fs, StagingDir(to) + [name]) == Some(Dir(left - {e})))
      ensures smooth ==> r.Returned?
      ensures smooth && IsDir(old(fs), to + [name]) ==>
                Get(old(fs), to + [name, e]).None? && Get(old(fs), StagingDir(to) + [name, e]).Some? ==>
                  r == Returned(None)
    {
      var item, target := StagingDir(to) + [name, e], to + [name, e];
      assert Parent(target) == to + [name];
      assert item[|to|] == Staging && target[|to|] == name;
      var problem :- Place(item, target);
      if problem.None? {
        WorkingRename(before, old(fs), from, to, newer, root, [name, e], target);
        MoveFrame(before, old(fs), from, to, [name, e], target, name, staged, placed);
        MoveEntry(old(fs), to, name, e);
      }
      return Returned(problem);
    }

    /** Between two entries of a directory that is being filled: the first `i` are in place, the rest staged. */
    ghost predicate Filling(from: Path, to: Path, l: Listing, i: nat, before: Node, root: seq<Path>,
                            newer: seq<Path>, staged: set<Name>, placed: set<Name>)
      requires i <= |l.entries| && Get(before, from + [l.name]).Some? && Get(before, from + [l.name]).value.Dir?
      reads this
    {
      var source := Get(before, from + [l.name]).value.entries;
      && created == newer + [StagingDir(to)] + root && Working(before, fs, from, to, newer, root)
      && Staged(before, fs, from, to, staged) && Placed(before, fs, from, to, placed)
      && Untouched(before, fs, to, placed + {l.name})
      && (i > 0 ==> IsDir(fs, to + [l.name]))
      && (IsDir(fs, to + [l.name]) ==> Get(fs, to + [l.name]).value.entries == Part(source, l.entries[..i]))
      && Get(fs, StagingDir(to) + [l.name]) == Some(Dir(source - Elements(l.entries[..i])))
    }

    lemma FillStarts(from: Path, to: Path, l: Listing, before: Node, root: seq<Path>,
                     newer: seq<Path>, staged: set<Name>, placed: set<Name>)
      requires created == newer + [StagingDir(to)] + root && Working(before, fs, from, to, newer, root)
      requires !l.name.Other? && l.name != Staging && Lists(l, Get(before, from + [l.name]))
      requires Staged(before, fs, from, to, staged + {l.name}) && Placed(before, fs, from, to, placed)
      requires Untouched(before, fs, to, placed)
      requires Get(fs, to + [l.name]).Some? && !HasEntries(fs, to + [l.name])
      ensures Filling(from, to, l, 0, before, root, newer, staged, placed)
    {
      var source := Get(before, from + [l.name]).value.entries;
      assert source - Elements(l.entries[..0]) == source && Part(source, l.entries[..0]) == map[];
    }

    lemma FillEnds(from: Path, to: Path, l: Listing, before: Node, root: seq<Path>,
                   newer: seq<Path>, staged: set<Name>, placed: set<Name>)
      requires Lists(l, Get(before, from + [l.name]))
      requires Filling(from, to, l, |l.entries|, before, root, newer, staged, placed)
      ensures Placed(before, fs, from, to, placed + {l.name})
    {
      var source := Get(before, from + [l.name]).value.entries;
      assert l.entries[..|l.entries|] == l.entries && Part(source, l.entries) == source;
    }

    /** Put the next entry of the directory in place. */
    method FillNext(from: Path, to: Path, l: Listing, i: nat, ghost before: Node, ghost root: seq<Path>,
                    ghost newer: seq<Path>, ghost staged: set<Name>, ghost placed: set<Name>)
      returns (r: Outcome<Option<ItemProblem>>)
      requires !l.name.Other? && l.name != Staging && Lists(l, Get(before, from + [l.name]))
      requires l.name !in staged && l.name !in placed && Staging !in placed
      requires i < |l.entries| && Filling(from, to, l, i, before, root, newer, staged, placed)
      modifies this`fs, this`created
      ensures r != Returned(None) ==> fs == old(fs) && created == old(created)
      ensures r == Returned(None) ==>
                Filling(from, to, l, i + 1, before, root, [to + [l.name, l.entries[i]]] + newer, staged, placed)
      ensures smooth ==> r.Returned? && (IsDir(old(fs), to + [l.name]) ==> r == Returned(None))
    {
      if IsDir(fs, to + [l.name]) {
        FillFree(fs, to, l.name, Get(before, from + [l.name]).value.entries, l.entries, i);
      }
      FillMore(Get(before, from + [l.name]).value.entries, l.entries, i);
      r := PlaceEntry(from, to, l.name, l.entries[i], before, root, newer, staged, placed);
    }

    /** Fill an existing empty directory, entry by entry, as far as it goes. */
    method FillDirectory(from: Path, to: Path, l: Listing, ghost before: Node, ghost root: seq<Path>,
                         ghost newer: seq<Path>, ghost staged: set<Name>, ghost placed: set<Name>)
      returns (r: Outcome<Option<ItemProblem>>, ghost newer': seq<Path>, ghost n: nat)
      requires !l.name.Other? && l.name != Staging && Lists(l, Get(before, from + [l.name]))
      requires l.name !in staged && l.name !in placed && Staging !in placed
      requires Filling(from, to, l, 0, before, root, newer, staged, placed)
      modifies this`fs, this`created
      ensures n <= |l.entries| && Filling(from, to, l, n, before, root, newer', staged, placed)
      ensures r == Returned(None) ==> n == |l.entries|
      ensures smooth ==> r.Returned? && (IsDir(old(fs), to + [l.name]) ==> r == Returned(None))
    {
      newer', n := newer, 0;
      var i := 0;
      while i < |l.entries|
        invariant 0 <= i == n <= |l.entries| && Filling(from, to, l, n, before, root, newer', staged, placed)
        invariant i == 0 ==> fs == old(fs)
      {
        r := FillNext(from, to, l, i, before, root, newer', staged, placed);
        if r != Returned(None) {
          return;
        }
        newer', n := [to + [l.name, l.entries[i]]] + newer', n + 1;
        i := i + 1;
      }
      r := Returned(None);
    }

    /** Put one listed directory in place: as a whole, or entry by entry into an empty one. */
    method PlaceDirectory(from: Path, to: Path, l: Listing, ghost before: Node, ghost root: seq<Path>,
                          ghost newer: seq<Path>, ghost staged: set<Name>, ghost placed: set<Name>)
      returns (r: Outcome<Option<ItemProblem>>, ghost newer': seq<Path>)
      requires created == newer + [StagingDir(to)] + root && Working(before, fs, from, to, newer, root)
      requires !l.name.Other? && l.name != Staging && Lists(l, Get(before, from + [l.name]))
      requires l.name !in staged && l.name !in placed && Staging !in placed
      requires Staged(before, fs, from, to, staged + {l.name}) && Placed(before, fs, from, to, placed)
      requires Untouched(before, fs, to, placed)
      requires Get(fs, to + [l.name]).Some? ==> !HasEntries(fs, to + [l.name])
      modifies this`fs, this`created
      ensures created == newer' + [StagingDir(to)] + root && Working(before, fs, from, to, newer', root)
      ensures Untouched(before, fs, to, placed + {l.name})
      ensures r == Returned(None) ==>
                Staged(before, fs, from, to, staged) && Placed(before, fs, from, to, placed + {l.name})
      ensures smooth ==> r.Returned? && (!IsFile(old(fs), to + [l.name]) ==> r == Returned(None))
    {
      newer' := newer;
      if Get(fs, to + [l.name]).None? {
        r := PlaceWhole(from, to, l.name, before, root, newer, staged, placed);
        if r == Returned(None) {
          newer' := [to + [l.name]] + newer;
        }
      } else {
        FillStarts(from, to, l, before, root, newer, staged, placed);
        ghost var n;
        r, newer', n := FillDirectory(from, to, l, before, root, newer, staged, placed);
        if r == Returned(None) {
          FillEnds(from, to, l, before, root, newer', staged, placed);
        }
      }
    }

    /** Between two listed directories: `left` are staged, `done` are in place. */
    ghost predicate Placing(from: Path, to: Path, ls: seq<Listing>, i: nat, before: Node, root: seq<Path>,
                            files: set<Name>, newer: seq<Path>, done: set<Name>)
      requires i <= |ls|
      reads this
    {
      && created == newer + [StagingDir(to)] + root && Working(before, fs, from, to, newer, root)
      && Staged(before, fs, from, to, files + ListedNames(ls[i..]))
      && done == ListedNames(ls[..i]) && done <= {Worlds, Media}
      && Placed(before, fs, from, to, done) && Untouched(before, fs, to, done)
    }

    /** Put the next listed directory in place. */
    method PlaceNext(from: Path, to: Path, ls: seq<Listing>, i: nat, ghost before: Node, ghost root: seq<Path>,
                     ghost files: set<Name>, ghost newer: seq<Path>, ghost done: set<Name>)
      returns (r: Outcome<Option<ItemProblem>>, ghost newer': seq<Path>, ghost done': set<Name>)
      requires i < |ls| && Listed(before, from, ls, |DATA_DIRECTORIES|) && files !! {Worlds, Media, Staging}
      requires Placing(from, to, ls, i, before, root, files, newer, done)
      modifies this`fs, this`created
      ensures r == Returned(None) ==> Placing(from, to, ls, i + 1, before, root, files, newer', done')
      ensures created == newer' + [StagingDir(to)] + root && Working(before, fs, from, to, newer', root)
      ensures Untouched(before, fs, to, done') && Database !in done'
      ensures smooth ==> r.Returned? && (!IsFile(before, to + [ls[i].name]) ==> r == Returned(None))
    {
      NextListed(before, fs, from, to, ls, i, files, done);
      var name := ls[i].name;
      r, newer' := PlaceDirectory(from, to, ls[i], before, root, newer, files + ListedNames(ls[i + 1..]), done);
      done' := done + {name};
    }

    /** Put the listed directories in place. */
    method PlaceDirectories(from: Path, to: Path, ls: seq<Listing>, ghost before: Node, ghost root: seq<Path>,
                            ghost files: set<Name>)
      returns (r: Outcome<Option<ItemProblem>>, ghost newer: seq<Path>)
      requires created == [] + [StagingDir(to)] + root && Working(before, fs, from, to, [], root)
      requires Listed(before, from, ls, |DATA_DIRECTORIES|)
      requires files !! {Worlds, Media, Staging} && Staged(before, fs, from, to, files + ListedNames(ls))
      requires Untouched(before, fs, to, {})
      modifies this`fs, this`created
      ensures created == newer + [StagingDir(to)] + root && Working(before, fs, from, to, newer, root)
      ensures Get(fs, to + [Database]).None?
      ensures r == Returned(None) ==>
                && Staged(before, fs, from, to, files) && Placed(before, fs, from, to, ListedNames(ls))
                && Untouched(before, fs, to, ListedNames(ls))
      ensures smooth ==> r.Returned? && ((forall i :: 0 <= i < |ls| ==> !IsFile(before, to + [ls[i].name])) ==>
                                           r == Returned(None))
    {
      newer := [];
      ghost var done := {};
      var i := 0;
      assert ls[0..] == ls;
      while i < |ls|
        invariant 0 <= i <= |ls| && Placing(from, to, ls, i, before, root, files, newer, done)
      {
        r, newer, done := PlaceNext(from, to, ls, i, before, root, files, newer, done);
        if r != Returned(None) {
          NoDatabase(before, fs, from, to, done);
          return;
        }
        i := i + 1;
      }
      assert ls[i..] == [] && ls[..i] == ls;
      assert files + {} == files;
      r := Returned(None);
      NoDatabase(before, fs, from, to, done);
    }

    /** Between two database files: the first `i` are staged, the others in place, the last of them first in the log. */
    ghost predicate PlacingFiles(from: Path, to: Path, files: seq<Name>, i: nat, before: Node, root: seq<Path>,
                                 directories: set<Name>, newer: seq<Path>)
      requires i <= |files|
      reads this
    {
      && created == newer + [StagingDir(to)] + root && Working(before, fs, from, to, newer, root)
      && Staged(before, fs, from, to, Elements(files[..i]))
      && Placed(before, fs, from, to, directories + Elements(files[i..]))
      && Untouched(before, fs, to, directories + Elements(files[i..]))
      && (i < |files| ==> newer != [] && newer[0] == to + [files[i]])
    }

    /** Put the last staged database file in place. */
    method PlaceFile(from: Path, to: Path, files: seq<Name>, i: nat, ghost before: Node, ghost root: seq<Path>,
                     ghost directories: set<Name>, ghost newer: seq<Path>)
      returns (r: Outcome<Option<ItemProblem>>)
      requires 0 < i <= |files| && DatabaseFiles(files) && directories <= {Worlds, Media}
      requires PlacingFiles(from, to, files, i, before, root, directories, newer)
      modifies this`fs, this`created
      ensures r == Returned(None) ==>
                PlacingFiles(from, to, files, i - 1, before, root, directories, [to + [files[i - 1]]] + newer)
      ensures r != Returned(None) ==> fs == old(fs) && created == old(created)
      ensures smooth ==> r.Returned? && (Get(before, from + [files[i - 1]]).Some? ==> r == Returned(None))
    {
      FilesLeft(files, i, directories);
      var name := files[i - 1];
      r := PlaceWhole(from, to, name, before, root, newer, Elements(files[..i - 1]),
                      directories + Elements(files[i..]));
    }

    /** Put the database files in place, `covel.db` last. */
    method PlaceDatabase(from: Path, to: Path, files: seq<Name>, ghost before: Node, ghost root: seq<Path>,
                         ghost directories: set<Name>, ghost newer0: seq<Path>)
      returns (r: Outcome<Option<ItemProblem>>, ghost newer: seq<Path>)
      requires DatabaseFiles(files) && directories <= {Worlds, Media}
      requires PlacingFiles(from, to, files, |files|, before, root, directories, newer0)
      modifies this`fs, this`created
      ensures r == Returned(None) ==> PlacingFiles(from, to, files, 0, before, root, directories, newer)
      ensures r != Returned(None) ==>
                && created == newer + [StagingDir(to)] + root && Working(before, fs, from, to, newer, root)
                && Get(fs, to + [Database]).None?
      ensures smooth ==> r.Returned? && ((forall i :: 0 <= i < |files| ==> Get(before, from + [files[i]]).Some?) ==>
                                           r == Returned(None))
    {
      newer := newer0;
      var i := |files|;
      while i > 0
        invariant 0 <= i <= |files| && PlacingFiles(from, to, files, i, before, root, directories, newer)
      {
        r := PlaceFile(from, to, files, i, before, root, directories, newer);
        if r != Returned(None) {
          LastIsMissing(files, i, directories);
          NoDatabase(before, fs, from, to, directories + Elements(files[i..]));
          return;
        }
        newer := [to + [files[i - 1]]] + newer;
        i := i - 1;
      }
      r := Returned(None);
    }

    /** Copy everything into the staging directory. */
    method StageItems(from: Path, to: Path, ghost before: Node, ghost root: seq<Path>)
      returns (r: Outcome<Result<(seq<Name>, seq<Listing>), ItemProblem>>)
      requires Working(before, fs, from, to, [], root) && Untouched(before, fs, to, {}) && OnlyStaged(fs, to, {})
      modifies this`fs
      ensures Working(before, fs, from, to, [], root) && Untouched(before, fs, to, {})
      ensures smooth ==> r.Returned? && (Copyable(before, from, to) ==> r.value.Ok?)
      ensures r.Returned? && r.value.Ok? ==>
                && ItemsListed(before, from, r.value.value.0, r.value.value.1)
                && Staged(before, fs, from, to, Elements(r.value.value.0) + ListedNames(r.value.value.1))
    {
      DatabaseFilesRead(before, fs, from, to, root);
      var files := Present(fs, from, DATABASE_FILES);
      var problem :- StageDatabase(from, to, files, before, root);
      if problem.Some? { return Returned(Err(problem.value)); }
      var listings :- StageDirectories(from, to, Elements(files), before, root);
      if listings.Err? { return Returned(Err(listings.error)); }
      return Returned(Ok((files, listings.value)));
    }

    /** Put everything in place: directories first and `covel.db` last. */
    method PlaceItems(from: Path, to: Path, files: seq<Name>, listings: seq<Listing>, ghost before: Node,
                      ghost root: seq<Path>)
      returns (r: Outcome<Option<ItemProblem>>, ghost newer: seq<Path>)
      requires created == [] + [StagingDir(to)] + root && Working(before, fs, from, to, [], root)
      requires Untouched(before, fs, to, {}) && ItemsListed(before, from, files, listings)
      requires Staged(before, fs, from, to, Elements(files) + ListedNames(listings))
      modifies this`fs, this`created
      ensures created == newer + [StagingDir(to)] + root && Working(before, fs, from, to, newer, root)
      ensures r != Returned(None) ==> Get(fs, to + [Database]).None?
      ensures smooth ==> r.Returned? && (Copyable(before, from, to) ==> r == Returned(None))
      ensures r == Returned(None) ==>
                && Complete(before, fs, from, to)
                && (Get(fs, to + [Database]).Some? ==>
                      newer != [] && newer[0] == to + [Database] && !IsDir(fs, to + [Database]))
    {
      r, newer := PlaceDirectories(from, to, listings, before, root, Elements(files));
      if r != Returned(None) { return; }
      ListedAreDirectories(before, from, listings);
      ghost var directories := ListedNames(listings);
      assert files[..|files|] == files && directories + Elements(files[|files|..]) == directories;
      r, newer := PlaceDatabase(from, to, files, before, root, directories, newer);
      if r == Returned(None) {
        assert files[0..] == files;
        AllPlaced(before, fs, from, to, files, listings);
      }
    }

    /** Make the staging directory in the destination, or undo the destination. */
    method MakeStaging(from: Path, to: Path, ghost before: Node, ghost root: seq<Path>) returns (r: Outcome<bool>)
      requires Planned(before, from, to) && created == root && Undoes(before, fs, to, root)
      requires IsDir(fs, to) && Untouched(before, fs, to, {}) && Midway(before, fs, from, to)
      requires Get(fs, to + [Database]).None? && Get(fs, StagingDir(to)) == Get(before, StagingDir(to))
      modifies this`fs, this`created
      ensures r.Crashed? ==> Midway(before, fs, from, to)
      ensures r == Returned(false) ==> created == [] && fs == before
      ensures r == Returned(true) ==>
                && created == [] + [StagingDir(to)] + root && Get(before, StagingDir(to)).None?
                && Working(before, fs, from, to, [], root) && Untouched(before, fs, to, {}) && OnlyStaged(fs, to, {})
      ensures smooth ==> r.Returned? && (Get(before, StagingDir(to)).None? ==> r == Returned(true))
    {
      var works: bool := *;
      assert Parent(StagingDir(to)) == to;
      var made :- Mkdir(StagingDir(to), works || smooth);
      if made {
        StagingMade(before, old(fs), fs, from, to, root);
        created := [StagingDir(to)] + created;
        return Returned(true);
      }
      var _ :- Undo(before, from, to);
      return Returned(false);
    }

    /** Make the destination and the staging directory in it. */
    method MakeDestination(from: Path, to: Path, mkdirs: nat, ghost before: Node)
      returns (r: Outcome<Option<Problem>>, ghost root: seq<Path>)
      requires created == [] && fs == before && Planned(before, from, to)
      modifies this`fs, this`created
      ensures r.Crashed? ==> Midway(before, fs, from, to)
      ensures r.Returned? && r.value.Some? ==>
                && created == []
                && if r.value.value.MkdirStopped? then
                     && StoppedAt(before, to, r.value.value.made)
                     && fs == MadeDirs(before, to, r.value.value.made)
                     && (fs == before <==> r.value.value.made == 0)
                     && Midway(before, fs, from, to)
                   else fs == before
      ensures r.Returned? && MayStop(before, to, mkdirs) ==> r.value == Some(MkdirStopped(mkdirs))
      ensures r == Returned(None) ==>
                && created == [] + [StagingDir(to)] + root
                && Working(before, fs, from, to, [], root) && Untouched(before, fs, to, {}) && OnlyStaged(fs, to, {})
                && Get(before, StagingDir(to)).None?
      ensures smooth ==>
                r.Returned?
                && (CanMake(before, to) && !MayStop(before, to, mkdirs) && Get(before, StagingDir(to)).None? ==>
                      r == Returned(None))
    {
      root := [];
      var made, n := MkdirAll(to, mkdirs);
      if made.Crashed? || made.value.Err? {
        MadeMidway(before, from, to, n);
        r := if made.Crashed? then Crashed else Returned(Some(MkdirStopped(made.value.error)));
        return;
      }
      created := if made.value.value.Some? then [made.value.value.value] else [];
      root := created;
      DestinationMade(before, from, to, n, root);
      var staging := MakeStaging(from, to, before, root);
      r := if staging.Crashed? then Crashed else Returned(if staging.value then None else Some(NotCopied(SystemError)));
    }

    /** Give up the copy: undo it and report. */
    method Fail(from: Path, to: Path, problem: ItemProblem, ghost before: Node,
                ghost root: seq<Path>, ghost newer: seq<Path>)
      returns (r: Outcome<Result<(), Problem>>)
      requires created == newer + [StagingDir(to)] + root && Working(before, fs, from, to, newer, root)
      requires Get(fs, to + [Database]).None?
      modifies this`fs, this`created
      ensures r.Crashed? ==> Midway(before, fs, from, to)
      ensures r.Returned? ==> r.value == Err(NotCopied(problem)) && fs == before && created == []
      ensures smooth ==> r.Returned?
    {
      WorkingIsMidway(before, fs, from, to, newer, root);
      var _ :- Undo(before, from, to);
      return Returned(Err(NotCopied(problem)));
    }

    /** Remove the staging directory and forget it. */
    method FinishCopy(from: Path, to: Path, ghost before: Node, ghost root: seq<Path>, ghost newer: seq<Path>)
      returns (r: Outcome<()>)
      requires created == newer + [StagingDir(to)] + root && Working(before, fs, from, to, newer, root)
      requires Complete(before, fs, from, to)
      requires Get(fs, to + [Database]).Some? ==>
                 newer != [] && newer[0] == to + [Database] && !IsDir(fs, to + [Database])
      modifies this`fs, this`created
      ensures Midway(before, fs, from, to)
      ensures r.Returned? ==>
                && Complete(before, fs, from, to) && Get(fs, StagingDir(to)).None?
                && UndoReady(before, fs, from, to, created)
      ensures smooth ==> r.Returned?
    {
      var removed := RemoveTree(StagingDir(to));
      StagingRemoved(before, old(fs), fs, from, to, newer, root);
      if removed.Returned? {
        created := Without(created, StagingDir(to));
        WithoutOne(newer, StagingDir(to), root);
        GetSet(old(fs), StagingDir(to), None);
      }
      return removed;
    }

    /** Stage the items of the source, put them in place and remove the staging directory, or undo it all. */
    method CopyItems(from: Path, to: Path, ghost before: Node, ghost root: seq<Path>)
      returns (r: Outcome<Result<(), Problem>>)
      requires created == [] + [StagingDir(to)] + root && Working(before, fs, from, to, [], root)
      requires Untouched(before, fs, to, {}) && OnlyStaged(fs, to, {})
      modifies this`fs, this`created
      ensures r.Crashed? ==> Midway(before, fs, from, to)
      ensures r.Returned? && r.value.Err? ==> r.value.error.NotCopied? && created == [] && fs == before
      ensures r.Returned? && r.value.Ok? ==>
                && Complete(before, fs, from, to) && Get(fs, StagingDir(to)).None?
                && UndoReady(before, fs, from, to, created)
      ensures smooth ==> r.Returned? && (Copyable(before, from, to) ==> r.value.Ok?)
    {
      NotYetPlaced(before, fs, from, to, root);
      var staged := StageItems(from, to, before, root);
      NotYetPlaced(before, fs, from, to, root);
      if staged.Crashed? { return Crashed; }
      if staged.value.Err? {
        r := Fail(from, to, staged.value.error, before, root, []);
        return;
      }
      var placed, newer := PlaceItems(from, to, staged.value.value.0, staged.value.value.1, before, root);
      WorkingIsMidway(before, fs, from, to, newer, root);
      if placed.Crashed? { return Crashed; }
      if placed.value.Some? {
        r := Fail(from, to, placed.value.value, before, root, newer);
        return;
      }
      var finished := FinishCopy(from, to, before, root, newer);
      return if finished.Crashed? then Crashed else Returned(Ok(()));
    }

    /**
      * `copyDataRoot`. A crash leaves a state described by `Midway`; a failure leaves exactly the tree from
      * before, unless making the destination itself stopped half-way; a success is a complete copy whose
      * log undoes it exactly.
      */
    method CopyDataRoot(from: Path, to: Path, mkdirs: nat) returns (r: Outcome<Result<(), Problem>>)
      requires created == []
      modifies this`fs, this`created, this`copies
      ensures copies == old(copies) + 1
      ensures PlanSwitch(old(fs), from, to) != Copy ==>
                fs == old(fs) && r == Returned(Err(Refused(PlanSwitch(old(fs), from, to))))
      ensures r.Crashed? ==> Midway(old(fs), fs, from, to)
      ensures r.Returned? && r.value.Err? ==>
                && created == []
                && if r.value.error.MkdirStopped? then
                     && StoppedAt(old(fs), to, r.value.error.made)
                     && fs == MadeDirs(old(fs), to, r.value.error.made)
                     && (fs == old(fs) <==> r.value.error.made == 0)
                     && Midway(old(fs), fs, from, to)
                   else fs == old(fs)
      ensures r.Returned? && PlanSwitch(old(fs), from, to) == Copy && MayStop(old(fs), to, mkdirs) ==>
                r.value == Err(MkdirStopped(mkdirs))
      ensures r.Returned? && r.value.Err? && NoneHalfMade(old(fs), to) ==> fs == old(fs)
      ensures smooth ==> r.Returned?
      ensures smooth && PlanSwitch(old(fs), from, to) == Copy ==>
                Copyable(old(fs), from, to) && !MayStop(old(fs), to, mkdirs) ==> r.Returned? && r.value.Ok?
      ensures r.Returned? && r.value.Ok? ==> Get(old(fs), StagingDir(to)).None?
      ensures r.Returned? && r.value.Ok? ==>
                && Complete(old(fs), fs, from, to) && Get(fs, StagingDir(to)).None?
                && UndoReady(old(fs), fs, from, to, created)
    {
      ghost var before := fs;
      copies := copies + 1;
      var plan := PlanSwitch(fs, from, to);
      if plan != Copy { return Returned(Err(Refused(plan))); }
      CopyIsPlanned(fs, from, to);
      var problem, root := MakeDestination(from, to, mkdirs, before);
      if problem.Crashed? { return Crashed; }
      if problem.value.Some? { return Returned(Err(problem.value.value)); }
      r := CopyItems(from, to, before, root);
    }

    // -------------------------------------------------------------- applyPendingDataRootCopy

    /** Replace the record file atomically. */
    method WriteRecord(value: Record, works: bool) returns (r: Outcome<bool>)
      modifies this`record
      ensures r.Returned? ==> r.value == works
      ensures smooth ==> r.Returned?
      ensures record == if r == Returned(true) then value else old(record)
    {
      var crash: bool := *;
      if crash && !smooth { return Crashed; }
      if !works { return Returned(false); }
      record := value;
      return Returned(true);
    }

    /** Write the new data root to `config.toml`. */
    method SwitchRoot(to: Path) returns (r: Outcome<bool>)
      modifies this`dataRoot
      ensures dataRoot == if r == Returned(true) then to else old(dataRoot)
      ensures smooth ==> r == Returned(true)
    {
      var crash: bool, fault: bool := *, *;
      if crash && !smooth { return Crashed; }
      if fault && !smooth { return Returned(false); }
      dataRoot := to;
      return Returned(true);
    }

    ghost function Durably(): Durable
      reads this
    {
      Durable(fs, dataRoot, record, copies)
    }

    /** Copy, and switch to the copy or undo it. */
    method CopyThenSwitch(from: Path, to: Path, mkdirs: nat) returns (r: Outcome<StartResult>)
      requires created == [] && PlanSwitch(fs, from, to) == Copy && dataRoot == from
      modifies this`fs, this`dataRoot, this`created, this`copies
      ensures copies == old(copies) + 1 && Midway(old(fs), fs, from, to)
      ensures dataRoot == from || (dataRoot == to && Complete(old(fs), fs, from, to))
      ensures r.Returned? ==> Reported(old(Durably()), Durably(), from, to, r.value)
      ensures r != Returned(Failed(Interrupted))
      ensures smooth ==>
                r.Returned? && (Copyable(old(fs), from, to) && !MayStop(old(fs), to, mkdirs) ==> r.value == Copied)
    {
      ghost var before, was := fs, Durably();
      CopyIsPlanned(fs, from, to);
      WithinSelf(fs);
      var copied := CopyDataRoot(from, to, mkdirs);
      if copied.Crashed? { return Crashed; }
      if copied.value.Err? {
        FailureReports(was, Durably(), from, to, Error(copied.value.error));
        return Returned(Failed(Error(copied.value.error)));
      }
      var switched :- SwitchRoot(to);
      if switched {
        CopyReports(was, Durably(), from, to);
        return Returned(Copied);
      }
      // The app stays on the old root, so the copy goes.
      var _ :- Undo(before, from, to);
      FailureReports(was, Durably(), from, to, SwitchFailed);
      return Returned(Failed(SwitchFailed));
    }

    /** Copy and switch, with the record marked first. */
    method CopyAndSwitch(from: Path, to: Path, conditions: Conditions) returns (r: Outcome<StartResult>)
      requires created == [] && PlanSwitch(fs, from, to) == Copy && smooth == conditions.smooth
      requires record == Pending(from, to, false) && dataRoot == from
      modifies this`fs, this`dataRoot, this`record, this`created, this`copies
      ensures CopyKeeps(old(Durably()), Durably(), from, to)
      ensures record == old(record) || (conditions.marks && record == Pending(from, to, true))
      ensures r.Returned? ==> (record != old(record) <==> conditions.marks)
      ensures fs != old(fs) ==> record != old(record)
      ensures copies == old(copies) + (if record != old(record) then 1 else 0)
      ensures r.Returned? ==> Reported(old(Durably()), Durably(), from, to, r.value)
      ensures r != Returned(Failed(Interrupted))
      ensures smooth ==>
                r.Returned?
                && if !conditions.marks then r.value == Failed(RecordFailed)
                   else Copyable(old(fs), from, to) && !MayStop(old(fs), to, conditions.mkdirs) ==> r.value == Copied
    {
      CopyIsPlanned(fs, from, to);
      WithinSelf(fs);
      var marked := WriteRecord(Pending(from, to, true), conditions.marks);
      if marked.Crashed? { return Crashed; }
      if !marked.value { return Returned(Failed(RecordFailed)); }
      r := CopyThenSwitch(from, to, conditions.mkdirs);
    }

    /** What a start does with a readable record, before the record is cleared. */
    method Attempt(from: Path, to: Path, started: bool, conditions: Conditions) returns (r: Outcome<StartResult>)
      requires created == [] && record == Pending(from, to, started) && smooth == conditions.smooth
      modifies this`fs, this`dataRoot, this`record, this`created, this`copies
      ensures Tried(old(Durably()), conditions, r, Durably())
    {
      WithinSelf(fs);
      if from != dataRoot { return Returned(NothingDone); }
      if started {
        StagingGoes(fs, to);
        var _ :- RemoveTree(StagingDir(to));
        return Returned(Failed(Interrupted));
      }
      match PlanSwitch(fs, from, to)
      case Same => return Returned(NothingDone);
      case DestinationHasData =>
        var switched :- SwitchRoot(to);
        return Returned(if switched then UsedExisting else Failed(SwitchFailed));
      case SourceEmpty =>
        var switched :- SwitchRoot(to);
        return Returned(if switched then Switched else Failed(SwitchFailed));
      case Nested => return Returned(Failed(Error(Refused(Nested))));
      case Copy =>
        if conditions.inUse {
          CopyNotBegun(Durably(), from, to);
          return Returned(Failed(InUse));
        }
        r := CopyAndSwitch(from, to, conditions);
    }

    /** `applyPendingDataRootCopy`: carry out the recorded choice once, and clear the record. */
    method ApplyPending(conditions: Conditions) returns (r: Outcome<StartResult>)
      requires created == []
      modifies this
      ensures Honest(old(Durably()), conditions, r, Durably())
    {
      smooth := conditions.smooth;
      if !record.Pending? {
        var cleared :- WriteRecord(NoRecord, conditions.clears);
        return Returned(if cleared then NothingDone else Threw);
      }
      ghost var was := Durably();
      var outcome := Attempt(record.from, record.to, record.started, conditions);
      CrashIsHonest(was, conditions, outcome, Durably());
      if outcome.Crashed? { return Crashed; }
      ghost var tried := Durably();
      // The clearing may fail; the next start reads the record again.
      var _ :- WriteRecord(NoRecord, conditions.clears);
      ReturnIsHonest(was, conditions, outcome, tried);
      return outcome;
    }

    // -------------------------------------------------------------- runs of starts

    /** One start, choice or edit, told truthfully. */
    method Happen(event: Event) returns (ghost h: Happening)
      requires Sound(Durably())
      modifies this
      ensures Sound(Durably()) && Truthful(h) && h.was == old(Durably()) && h.now == Durably()
      ensures (h.Started? <==> event.Start?) && (h.Chosen? <==> event.Choose?)
      ensures event.Start? ==> h.conditions == event.conditions
    {
      ghost var was := Durably();
      match event
      case Choose(to) =>
        record := Pending(dataRoot, to, false);
        copies := 0;
        h := Chosen(was, Durably());
      case Edit(edited, root) =>
        fs, dataRoot := edited, root;
        h := Edited(was, Durably());
      case Start(conditions) =>
        created := [];
        var outcome := ApplyPending(conditions);
        StartIsSound(was, Durably());
        h := Started(was, conditions, outcome, Durably());
    }

    /**
      * Any run of starts, each cut off anywhere, with the player choosing other roots and the running app
      * changing files in between: every start keeps its promises, the old root's data is never touched,
      * and no record causes two copies.
      */
    method Run(events: seq<Event>) returns (ghost trace: seq<Happening>)
      requires Sound(Durably())
      modifies this
      ensures Sound(Durably()) && Follows(trace) && |trace| == |events|
      ensures trace != [] ==> trace[0].was == old(Durably()) && trace[|trace| - 1].now == Durably()
      ensures forall k :: 0 <= k < |trace| ==>
                (trace[k].Started? <==> events[k].Start?) && (trace[k].Chosen? <==> events[k].Choose?)
                && (events[k].Start? ==> trace[k].conditions == events[k].conditions)
    {
      trace := [];
      for i := 0 to |events|
        invariant Sound(Durably()) && Follows(trace) && |trace| == i
        invariant if i == 0 then Durably() == old(Durably())
                  else trace[0].was == old(Durably()) && trace[i - 1].now == Durably()
        invariant forall k :: 0 <= k < i ==>
                    (trace[k].Started? <==> events[k].Start?) && (trace[k].Chosen? <==> events[k].Choose?)
                    && (events[k].Start? ==> trace[k].conditions == events[k].conditions)
      {
        ghost var h := Happen(events[i]);
        trace := trace + [h];
      }
    }
  }

  const NEW_ROOT: Path := [Other("new")]

  /**
    * A failure that is retried: at the first start the database is in use and the record cannot be removed, and
    * the next one carries the choice out.
    */
  method RetryHappens(file: string) returns (host: Host, ghost first: Happening, ghost second: Happening)
    ensures Follows([first, second]) && first.Started? && first.outcome == Returned(Failed(InUse))
    ensures second.Started? && second.outcome == Returned(Copied)
    ensures host.copies == 1 && host.dataRoot == NEW_ROOT && Complete(OldRootOnly(file), host.fs, OLD_ROOT, NEW_ROOT)
  {
    OldRootIsCopyable(file);
    host := new Host(OldRootOnly(file), OLD_ROOT, Pending(OLD_ROOT, NEW_ROOT, false));
    first := host.Happen(Start(Conditions(true, true, 1, false, true)));
    assert first.now == first.was;
    second := host.Happen(Start(Conditions(false, true, 1, true, true)));
    TwoFollow(first, second);
  }

  /**
    * What a clean-up may cost: a copy fails because the destination already holds a directory of the staging
    * directory's name, the record cannot be removed, and the next start removes that directory.
    */
  method ForeignStagingIsLost(file: string) returns (host: Host, ghost first: Happening, ghost second: Happening)
    ensures Follows([first, second]) && first.Started? && second.Started?
    ensures Get(first.was.fs, StagingDir(NEW_ROOT)).Some? && first.now.fs == first.was.fs
    ensures second.outcome == Returned(Failed(Interrupted)) && Get(host.fs, StagingDir(NEW_ROOT)).None?
  {
    ForeignStagingIsPlanned(file);
    var a, b := Dir(map[Database := File(file)]), Dir(map[Staging := Dir(map[])]);
    host := new Host(TwoRoots(a, b), OLD_ROOT, Pending(OLD_ROOT, NEW_ROOT, false));
    first := host.Happen(Start(Conditions(false, true, 1, false, true)));
    ForeignBlocks(first);
    second := host.Happen(Start(Conditions(false, true, 1, true, true)));
    TwoFollow(first, second);
  }
}
