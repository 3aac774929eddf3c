/** The state of a destination during a copy, and the laws of the undo log. */
module CopyLaws {
  import opened FileTree
  import opened DataRootPlan
  import opened Wrappers

  function StagingDir(to: Path): Path { to + [Staging] }

  // ---------------------------------------------------------------- the undo log

  /** The tree after the paths of an undo log are removed, first to last. */
  function RemoveAll(n: Node, cs: seq<Path>): Node
    requires forall i :: 0 <= i < |cs| ==> cs[i] != []
    decreases |cs|
  {
    if cs == [] then n else RemoveAll(Set(n, cs[0], None), cs[1..])
  }

  /** A path a copy may create: a missing part of the way to `to`, or a data item or staging inside it. */
  predicate Ours(before: Node, to: Path, c: Path)
  {
    && c != []
    && if c <= to then Get(before, c).None? else to < c && !c[|to|].Other?
  }

  /** Undoing what was created gives the tree from before, exactly. */
  ghost predicate Undoes(before: Node, fs: Node, to: Path, created: seq<Path>)
  {
    && (forall i :: 0 <= i < |created| ==> Ours(before, to, created[i]))
    && RemoveAll(fs, created) == before
  }

  /** A path that no copy to `to` has any business with. */
  predicate Elsewhere(to: Path, p: Path)
  {
    !(p <= to) && !(to < p && !p[|to|].Other?)
  }

  /** Nothing from before is changed or gone, and what lies elsewhere has gained nothing either. */
  ghost predicate Intact(before: Node, fs: Node, to: Path)
  {
    && Within(before, fs)
    && forall p :: Elsewhere(to, p) && Get(before, p).Some? ==> Get(fs, p) == Get(before, p)
  }

  /** Every item of the source is at the destination, and other items there are as they were. */
  ghost predicate Complete(before: Node, fs: Node, from: Path, to: Path)
  {
    && (forall name :: name in DATABASE_FILES ==> Get(fs, to + [name]) == Get(before, from + [name]))
    && (forall name :: name in DATA_DIRECTORIES ==>
          Get(fs, to + [name]) ==
          if HasEntries(before, from + [name]) then Get(before, from + [name]) else Get(before, to + [name]))
  }

  /** What a crash at any moment of a copy may leave: `covel.db` is there only with everything else. */
  ghost predicate Midway(before: Node, fs: Node, from: Path, to: Path)
  {
    && Intact(before, fs, to)
    && (Get(fs, to + [Database]).Some? ==> Complete(before, fs, from, to))
  }

  /** Whatever could be read at or below an item of the old root is read there at the new one. */
  lemma CompleteReads(before: Node, fs: Node, from: Path, to: Path, name: Name, rest: Path)
    requires Complete(before, fs, from, to) && !name.Other? && name != Staging
    ensures Exists(before, from + [name] + rest) && (rest != [] || name in {Database, Wal, Shm}) ==>
              Get(fs, to + [name] + rest) == Get(before, from + [name] + rest)
    ensures name in {Database, Wal, Shm} && !Exists(before, from + [name]) ==> !Exists(fs, to + [name])
  {
    assert name in DATABASE_FILES || name in DATA_DIRECTORIES;
    GetBelow(before, from + [name], rest);
    GetBelow(fs, to + [name], rest);
    if rest != [] {
      EntriesAreReads(before, from + [name]);
    }
  }

  lemma {:induction false} RemoveAllWithin(n: Node, cs: seq<Path>)
    requires forall i :: 0 <= i < |cs| ==> cs[i] != []
    ensures Within(RemoveAll(n, cs), n)
    decreases |cs|
  {
    WithinSelf(n);
    if cs == [] {
    } else {
      WithinSet(n, cs[0], None);
      RemoveAllWithin(Set(n, cs[0], None), cs[1..]);
      WithinThrough(RemoveAll(n, cs), Set(n, cs[0], None), n);
    }
  }

  lemma {:induction false} RemoveAllApart(n: Node, cs: seq<Path>, p: Path)
    requires forall i :: 0 <= i < |cs| ==> cs[i] != [] && Apart(cs[i], p)
    ensures Get(RemoveAll(n, cs), p) == Get(n, p)
    decreases |cs|
  {
    if cs == [] {
    } else {
      GetApart(n, cs[0], None, p);
      RemoveAllApart(Set(n, cs[0], None), cs[1..], p);
    }
  }

  lemma LogTail(newer: seq<Path>, s: Path, older: seq<Path>)
    requires newer != []
    ensures (newer + older)[0] == newer[0] && (newer + older)[1..] == newer[1..] + older
    ensures (newer + [s] + older)[0] == newer[0] && (newer + [s] + older)[1..] == newer[1..] + [s] + older
  {
  }

  lemma LogHead(s: Path, older: seq<Path>)
    ensures [] + older == older && [] + [s] + older == [s] + older && ([s] + older)[1..] == older
  {
  }

  /** Writing below a logged path does not change what undoing gives. */
  lemma {:induction false} RemoveAllWrite(
      n: Node, newer: seq<Path>, s: Path, older: seq<Path>, p: Path, x: Option<Node>)
    requires s != [] && s <= p
    requires forall i :: 0 <= i < |newer| ==> newer[i] != [] && Apart(newer[i], p)
    requires forall i :: 0 <= i < |older| ==> older[i] != []
    ensures RemoveAll(Set(n, p, x), newer + [s] + older) == RemoveAll(n, newer + [s] + older)
    decreases |newer|
  {
    if newer == [] {
      LogHead(s, older);
      SetBelow(n, s, p[|s|..], x, None);
      assert s + p[|s|..] == p;
    } else {
      LogTail(newer, s, older);
      SetApart(n, p, x, newer[0], None);
      RemoveAllWrite(Set(n, newer[0], None), newer[1..], s, older, p, x);
    }
  }

  /** A path already removed can be dropped from the log. */
  lemma {:induction false} RemoveAllDrop(n: Node, newer: seq<Path>, s: Path, older: seq<Path>)
    requires s != []
    requires forall i :: 0 <= i < |newer| ==> newer[i] != [] && Apart(newer[i], s)
    requires forall i :: 0 <= i < |older| ==> older[i] != []
    ensures RemoveAll(Set(n, s, None), newer + older) == RemoveAll(n, newer + [s] + older)
    decreases |newer|
  {
    if newer == [] {
      LogHead(s, older);
    } else {
      LogTail(newer, s, older);
      SetApart(n, s, None, newer[0], None);
      RemoveAllDrop(Set(n, newer[0], None), newer[1..], s, older);
    }
  }

  // ---------------------------------------------------------------- source and destination

  /** An existing path elsewhere is apart from everything a copy creates. */
  lemma ElsewhereApart(before: Node, to: Path, c: Path, p: Path)
    requires Ours(before, to, c) && Elsewhere(to, p) && Get(before, p).Some?
    ensures Apart(c, p)
  {
    if c <= p && c <= to {
      assert p == c + p[|c|..];
      GetBelow(before, c, p[|c|..]);
    }
  }

  /** Whatever can be undone is intact, at every moment of the copy. */
  lemma UndoesIsIntact(before: Node, fs: Node, to: Path, created: seq<Path>)
    requires Undoes(before, fs, to, created)
    ensures Intact(before, fs, to)
  {
    RemoveAllWithin(fs, created);
    forall p | Elsewhere(to, p) && Get(before, p).Some? ensures Get(fs, p) == Get(before, p) {
      forall i | 0 <= i < |created| ensures Apart(created[i], p) {
        ElsewhereApart(before, to, created[i], p);
      }
      RemoveAllApart(fs, created, p);
    }
  }

  /** Two different roots, neither inside the other by way of a name that matters to a data root. */
  predicate Separate(from: Path, to: Path)
  {
    from != to && (from < to ==> to[|from|].Other?) && (to < from ==> from[|to|].Other?)
  }

  /** What the plan `Copy` means to the copy: separate roots, and room for every item. */
  predicate Planned(before: Node, from: Path, to: Path)
  {
    && Separate(from, to) && Get(before, from).Some?
    && (forall name :: name in DATABASE_FILES ==> Get(before, to + [name]).None?)
    && (forall name :: name in DATA_DIRECTORIES ==> !HasEntries(before, to + [name]))
  }

  lemma CopyIsPlanned(before: Node, from: Path, to: Path)
    requires PlanSwitch(before, from, to) == Copy
    ensures Planned(before, from, to)
  {
    NestedUnlessDotDot(from, to);
    NestedUnlessDotDot(to, from);
    if Get(before, from).None? {
      forall n ensures Get(before, from + [n]).None? { GetBelow(before, from, [n]); }
    }
  }

  /** The items of the source are apart from everything a planned copy creates. */
  lemma SourceApart(before: Node, from: Path, to: Path, name: Name, c: Path)
    requires Separate(from, to) && Get(before, from).Some? && !name.Other? && name != Staging
    requires Ours(before, to, c)
    ensures Apart(c, from + [name])
  {
    SourceElsewhere(from, to, name);
    if c <= from {
      assert from == c + from[|c|..];
      GetBelow(before, c, from[|c|..]);
    }
    assert c <= from + [name] ==> c <= from || c == from + [name];
  }

  lemma SourceElsewhere(from: Path, to: Path, name: Name)
    requires Separate(from, to) && !name.Other?
    ensures Elsewhere(to, from + [name])
  {
    var p := from + [name];
    assert p[..|from|] == from;
    assert from < p && p[|from|] == name;
    assert to < p ==> to == from || (to < from && from[|to|] == p[|to|]);
  }

  /** At any moment of a planned copy the source's items read as before. */
  lemma SourceReads(before: Node, fs: Node, from: Path, to: Path, created: seq<Path>, name: Name)
    requires Separate(from, to) && Get(before, from).Some? && !name.Other? && name != Staging
    requires Undoes(before, fs, to, created)
    ensures Get(fs, from + [name]) == Get(before, from + [name])
  {
    forall i | 0 <= i < |created| ensures Apart(created[i], from + [name]) {
      SourceApart(before, from, to, name, created[i]);
    }
    RemoveAllApart(fs, created, from + [name]);
  }

  // ---------------------------------------------------------------- main consequences of `Midway`

  /** A crashed copy leaves every item of the old data root as it was. */
  lemma CrashKeepsSource(before: Node, fs: Node, from: Path, to: Path, name: Name)
    requires Separate(from, to) && Midway(before, fs, from, to)
    requires !name.Other? && Get(before, from + [name]).Some?
    ensures Get(fs, from + [name]) == Get(before, from + [name])
  {
    SourceElsewhere(from, to, name);
  }

  /** Outside the two-dots case the whole old data root is untouched, new entries included. */
  lemma CrashKeepsOldRoot(before: Node, fs: Node, from: Path, to: Path)
    requires Midway(before, fs, from, to) && Get(before, from).Some? && Apart(from, to)
    ensures Get(fs, from) == Get(before, from)
  {
    assert Elsewhere(to, from);
  }

  /**
    * The next start removes the staging directory of a copy that was cut short. Everything from before
    * that copy survives exactly when the staging directory was the copy's own.
    */
  lemma CleanupKeepsAll(before: Node, fs: Node, from: Path, to: Path)
    requires Midway(before, fs, from, to)
    ensures Within(before, Set(fs, StagingDir(to), None)) <==> Get(before, StagingDir(to)).None?
  {
    if Get(before, StagingDir(to)).None? {
      WithinRemoved(before, fs, StagingDir(to));
    } else if Within(before, Set(fs, StagingDir(to), None)) {
      WithinGet(before, Set(fs, StagingDir(to), None), StagingDir(to));
      GetSet(fs, StagingDir(to), None);
    }
  }

  // ---------------------------------------------------------------- making the destination

  /** Empty directories nested along a path. */
  function Chain(r: Path): Node
    decreases |r|
  {
    if r == [] then Dir(map[]) else Dir(map[r[0] := Chain(r[1..])])
  }

  /** The length of the shortest prefix of `p` that does not exist; more than `|p|` if `p` exists. */
  function FirstMissing(fs: Node, p: Path): (k: nat)
    ensures 1 <= k <= |p| + 1
    ensures k <= |p| ==> Get(fs, p[..k]).None?
    ensures Get(fs, p[..k - 1]).Some?
    decreases |p|
  {
    if p == [] then 1
    else
      assert p[..|p|] == p;
      assert forall i :: 0 <= i < |p| ==> p[..|p| - 1][..i] == p[..i];
      var k := FirstMissing(fs, p[..|p| - 1]);
      assert p[..|p| - 1][..k - 1] == p[..k - 1];
      if k < |p| then assert p[..|p| - 1][..k] == p[..k]; k
      else if Get(fs, p).None? then |p|
      else |p| + 1
  }

  /** The tree after `n` missing directories on the way to `p` were made. */
  function MadeDirs(fs: Node, p: Path, n: nat): Node
    requires FirstMissing(fs, p) + n <= |p| + 1
  {
    var k := FirstMissing(fs, p);
    if n == 0 then fs else Set(fs, p[..k], Some(Chain(p[k..k + n - 1])))
  }

  /** The recursive `mkdir` can fail after making `made` directories: one more was to be made. */
  predicate MayStop(fs: Node, p: Path, made: nat)
  {
    FirstMissing(fs, p) + made <= |p| && IsDir(fs, p[..FirstMissing(fs, p) - 1])
  }

  /** The recursive `mkdir` finds no file in its way. */
  predicate CanMake(fs: Node, p: Path)
  {
    IsDir(fs, if FirstMissing(fs, p) <= |p| then p[..FirstMissing(fs, p) - 1] else p)
  }

  /**
    * What a planned copy needs of the disk: no file in the way, no directory of the staging directory's name, and
    * files and directories where it looks for them.
    */
  predicate Copyable(fs: Node, from: Path, to: Path)
  {
    && CanMake(fs, to) && Get(fs, StagingDir(to)).None?
    && (forall name :: name in DATABASE_FILES && Get(fs, from + [name]).Some? ==> IsFile(fs, from + [name]))
    && (forall name :: name in DATA_DIRECTORIES && HasEntries(fs, from + [name]) ==> !IsFile(fs, to + [name]))
  }

  /** What is known when it has failed: before the first directory, or before some later one. */
  predicate StoppedAt(fs: Node, p: Path, made: nat)
  {
    FirstMissing(fs, p) + made <= |p| + 1 && (made == 0 || MayStop(fs, p, made))
  }

  lemma {:induction false} ChainEnd(r: Path, x: Name)
    ensures Get(Chain(r), r) == Some(Dir(map[]))
    ensures Set(Chain(r), r + [x], Some(Dir(map[]))) == Chain(r + [x])
    decreases |r|
  {
    if r == [] {
    } else {
      ChainEnd(r[1..], x);
      assert (r + [x])[1..] == r[1..] + [x];
    }
  }

  /** A chain put in place ends in an empty directory with nothing below it. */
  lemma ChainPlaced(fs: Node, c: Path, r: Path, t: Path)
    requires c != [] && IsDir(fs, Parent(c))
    ensures Get(Set(fs, c, Some(Chain(r))), c + r + t) == if t == [] then Some(Dir(map[])) else None
  {
    GetSet(fs, c, Some(Chain(r)));
    ChainEnd(r, Staging);
    assert c + r + t == c + (r + t);
    GetBelow(Set(fs, c, Some(Chain(r))), c, r + t);
    GetBelow(Chain(r), r, t);
  }

  /** A directory made at the end of a chain makes it longer. */
  lemma ChainGrows(fs: Node, c: Path, r: Path, x: Name)
    requires c != [] && IsDir(fs, Parent(c))
    ensures Set(Set(fs, c, Some(Chain(r))), c + (r + [x]), Some(Dir(map[]))) == Set(fs, c, Some(Chain(r + [x])))
  {
    ChainEnd(r, x);
    SetInside(fs, c, Chain(r), r + [x], Some(Dir(map[])));
  }

  /** One more directory. */
  lemma MakeNext(fs: Node, p: Path, n: nat)
    requires FirstMissing(fs, p) + n <= |p| && IsDir(fs, p[..FirstMissing(fs, p) - 1])
    ensures Set(MadeDirs(fs, p, n), p[..FirstMissing(fs, p) + n], Some(Dir(map[]))) == MadeDirs(fs, p, n + 1)
  {
    var k := FirstMissing(fs, p);
    if n == 0 {
      assert p[k..k] == [];
    } else {
      PathParent(p, k);
      PathNext(p, k, k + n - 1);
      PathParts(p, k, k + n);
      ChainGrows(fs, p[..k], p[k..k + n - 1], p[k + n - 1]);
    }
  }

  /** Making directories can be undone by removing the first of them. */
  lemma MadeDirsUndone(fs: Node, p: Path, n: nat)
    requires 1 <= n && FirstMissing(fs, p) + n <= |p| + 1 && IsDir(fs, p[..FirstMissing(fs, p) - 1])
    ensures Undoes(fs, MadeDirs(fs, p, n), p, [p[..FirstMissing(fs, p)]])
  {
    var k := FirstMissing(fs, p);
    var c := p[..k];
    var x := Some(Chain(p[k..k + n - 1]));
    assert RemoveAll(Set(fs, c, x), [c]) == Set(Set(fs, c, x), c, None) by {
      assert [c][1..] == [];
    }
    SetBelow(fs, c, [], x, None);
    assert c + [] == c;
    SetUnchanged(fs, c);
  }

  /** What lies at and below the last directory made: nothing else. */
  lemma MadeBelow(fs: Node, p: Path, n: nat, t: Path)
    requires 1 <= n && FirstMissing(fs, p) + n <= |p| + 1 && IsDir(fs, p[..FirstMissing(fs, p) - 1])
    ensures Get(MadeDirs(fs, p, n), p[..FirstMissing(fs, p) + n - 1] + t) == if t == [] then Some(Dir(map[])) else None
  {
    var k := FirstMissing(fs, p);
    PathParent(p, k);
    PathParts(p, k, k + n - 1);
    ChainPlaced(fs, p[..k], p[k..k + n - 1], t);
  }

  /** Making all of them gives an empty destination. */
  lemma MadeDirsEmpty(fs: Node, p: Path, n: nat)
    requires 1 <= n && FirstMissing(fs, p) + n <= |p| + 1 && IsDir(fs, p[..FirstMissing(fs, p) - 1])
    ensures FirstMissing(fs, p) + n == |p| + 1 ==> Get(MadeDirs(fs, p, n), p) == Some(Dir(map[]))
    ensures forall name :: Get(MadeDirs(fs, p, n), p + [name]) == None
  {
    var m := FirstMissing(fs, p) + n - 1;
    MadeBelow(fs, p, n, []);
    assert m == |p| ==> p[..m] + [] == p;
    forall name ensures Get(MadeDirs(fs, p, n), p + [name]) == None {
      MadeBelow(fs, p, n, p[m..] + [name]);
      assert p[..m] + (p[m..] + [name]) == p + [name];
    }
  }

  lemma MissingIsEmpty(fs: Node, p: Path)
    requires FirstMissing(fs, p) <= |p|
    ensures Get(fs, p).None? && forall name :: Get(fs, p + [name]).None?
  {
    var k := FirstMissing(fs, p);
    forall q: Path ensures Get(fs, p + q).None? {
      GetBelow(fs, p[..k], p[k..] + q);
      assert p + q == p[..k] + (p[k..] + q);
    }
    assert p + [] == p;
    assert Get(fs, p + []).None?;
  }

  /** A half-made destination can be told from the tree before: the cost of a failing `mkdir`. */
  lemma MadeDirsDiffer(fs: Node, p: Path, n: nat)
    requires FirstMissing(fs, p) + n <= |p| + 1 && IsDir(fs, p[..FirstMissing(fs, p) - 1])
    ensures MadeDirs(fs, p, n) == fs <==> n == 0
  {
    if n > 0 {
      var k := FirstMissing(fs, p);
      assert Parent(p[..k]) == p[..k - 1];
      GetSet(fs, p[..k], Some(Chain(p[k..k + n - 1])));
    }
  }

  /** The next directory to make is not there yet, and its parent is. */
  lemma NextIsFree(fs: Node, p: Path, n: nat)
    requires FirstMissing(fs, p) + n <= |p| && IsDir(fs, p[..FirstMissing(fs, p) - 1])
    ensures var next := p[..FirstMissing(fs, p) + n];
            Get(MadeDirs(fs, p, n), next).None? && IsDir(MadeDirs(fs, p, n), Parent(next))
  {
    var m := FirstMissing(fs, p) + n - 1;
    PathParent(p, m + 1);
    if n > 0 {
      MadeBelow(fs, p, n, []);
      MadeBelow(fs, p, n, [p[m]]);
      assert p[..m] + [] == p[..m];
      assert p[..m] + [p[m]] == p[..m + 1];
    }
  }

  /** At most one directory of the way is missing, or there is a file in the way. */
  predicate NoneHalfMade(fs: Node, p: Path)
  {
    FirstMissing(fs, p) >= |p| || !IsDir(fs, p[..FirstMissing(fs, p) - 1])
  }

  /**
    * Every failure of the recursive `mkdir` leaves the tree as it was exactly if at most one directory of the
    * way is missing, or there is a file in the way.
    */
  lemma FailureRestoresIff(fs: Node, p: Path)
    ensures (forall made :: MayStop(fs, p, made) ==> MadeDirs(fs, p, made) == fs) <==> NoneHalfMade(fs, p)
  {
    if !NoneHalfMade(fs, p) {
      MadeDirsDiffer(fs, p, 1);
      assert MayStop(fs, p, 1);
    }
  }

  /** A destination two levels down, of which one directory was made before `mkdir` failed. */
  lemma HalfMadeStays(file: string)
    ensures var fs, to := OldRootOnly(file), [Other("disk"), Other("new")];
            PlanSwitch(fs, OLD_ROOT, to) == Copy && MayStop(fs, to, 1) && MadeDirs(fs, to, 1) != fs
  {
    var fs, to := OldRootOnly(file), [Other("disk"), Other("new")];
    ElsewhereIsEmpty(file, to);
    ElsewhereIsEmpty(file, to[..1]);
    var k := FirstMissing(fs, to);
    assert k != 2 by { assert to[..1] == [Other("disk")]; }
    assert to[..2] == to && to[..0] == [];
    MadeDirsDiffer(fs, to, 1);
  }
}
