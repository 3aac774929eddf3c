/**
  * The steps of a copy: what has been staged, what is in place, and how far it can be undone
  * (`apps/desktop/src/data-root-copy.ts`).
  */
module CopySteps {
  import opened CopyLaws
  import opened DataRootPlan
  import opened FileTree
  import opened Wrappers

  /** The names in the order of `names` that `keep` holds for. */
  function Present(fs: Node, from: Path, names: seq<Name>): (r: seq<Name>)
    ensures forall name :: name in r <==> name in names && Get(fs, from + [name]).Some?
    ensures (forall i, j :: 0 <= i < j < |names| ==> names[i] != names[j]) ==>
              forall i, j :: 0 <= i < j < |r| ==> r[i] != r[j]
    ensures names != [] && Get(fs, from + [names[0]]).Some? ==> r != [] && r[0] == names[0]
  {
    if names == [] then []
    else (if Get(fs, from + [names[0]]).Some? then [names[0]] else []) + Present(fs, from, names[1..])
  }

  /** Database files, each once, `covel.db` the first if it is there. */
  predicate DatabaseFiles(files: seq<Name>)
  {
    && (forall i :: 0 <= i < |files| ==> files[i] in DATABASE_FILES)
    && (forall i, j :: 0 <= i < j < |files| ==> files[i] != files[j])
    && (Database in files ==> files[0] == Database)
  }

  /** A data directory of the source with its entries, each once. */
  datatype Listing = Listing(name: Name, entries: seq<Name>)

  ghost predicate Lists(l: Listing, node: Option<Node>)
  {
    && node.Some? && node.value.Dir? && l.entries != []
    && (forall e :: e in l.entries <==> e in node.value.entries)
    && (forall i, j :: 0 <= i < j < |l.entries| ==> l.entries[i] != l.entries[j])
  }

  /** Where a copy stands: what it has created can be undone, and its staging directory is there. */
  ghost predicate Working(before: Node, fs: Node, from: Path, to: Path, newer: seq<Path>, root: seq<Path>)
  {
    && Planned(before, from, to)
    && Undoes(before, fs, to, newer + [StagingDir(to)] + root)
    && IsDir(fs, StagingDir(to))
    && (forall i :: 0 <= i < |newer| ==> to < newer[i] && newer[i][|to|] != Staging)
  }

  // ---------------------------------------------------------------- laws of the copy's steps

  /** Until `covel.db` is in place, any working state is a state a crash may leave. */
  lemma WorkingIsMidway(before: Node, fs: Node, from: Path, to: Path, newer: seq<Path>, root: seq<Path>)
    requires Working(before, fs, from, to, newer, root)
    requires Get(fs, to + [Database]).Some? ==> Complete(before, fs, from, to)
    ensures Midway(before, fs, from, to)
  {
    UndoesIsIntact(before, fs, to, newer + [StagingDir(to)] + root);
  }

  lemma WorkingReads(before: Node, fs: Node, from: Path, to: Path, newer: seq<Path>, root: seq<Path>, name: Name)
    requires Working(before, fs, from, to, newer, root) && !name.Other? && name != Staging
    ensures Get(fs, from + [name]) == Get(before, from + [name])
  {
    SourceReads(before, fs, from, to, newer + [StagingDir(to)] + root, name);
  }

  lemma PresentFiles(fs: Node, from: Path, names: seq<Name>)
    requires names == DATABASE_FILES
    ensures DatabaseFiles(Present(fs, from, names))
  {
    assert forall i, j :: 0 <= i < j < |names| ==> names[i] != names[j];
    assert names[0] == Database;
  }

  /** The database files of the source, each once, read as they were. */
  lemma DatabaseFilesRead(before: Node, fs: Node, from: Path, to: Path, root: seq<Path>)
    requires Working(before, fs, from, to, [], root)
    ensures DatabaseFiles(Present(fs, from, DATABASE_FILES))
    ensures forall name :: name in Present(fs, from, DATABASE_FILES) <==>
                           name in DATABASE_FILES && Get(before, from + [name]).Some?
  {
    PresentFiles(fs, from, DATABASE_FILES);
    forall name: Name | name in DATABASE_FILES
      ensures Get(fs, from + [name]) == Get(before, from + [name])
    {
      WorkingReads(before, fs, from, to, [], root, name);
    }
  }

  /** Writing inside the staging directory keeps the copy undoable and changes nothing else. */
  lemma WorkingWrite(before: Node, fs: Node, from: Path, to: Path, newer: seq<Path>, root: seq<Path>,
                     r: Path, x: Option<Node>)
    requires Working(before, fs, from, to, newer, root) && r != []
    ensures Working(before, Set(fs, StagingDir(to) + r, x), from, to, newer, root)
  {
    var st := StagingDir(to);
    var created := newer + [st] + root;
    assert forall i :: 0 <= i < |newer| ==> newer[i] == created[i];
    assert forall i :: 0 <= i < |root| ==> root[i] == created[|newer| + 1 + i];
    RemoveAllWrite(fs, newer, st, root, st + r, x);
    GetAbove(fs, st, r, x);
  }

  /** Renaming a staged node to a free place in the destination is one more entry of the undo log. */
  lemma WorkingRename(before: Node, fs: Node, from: Path, to: Path, newer: seq<Path>, root: seq<Path>,
                      r: Path, target: Path)
    requires Working(before, fs, from, to, newer, root) && r != []
    requires to < target && !target[|to|].Other? && target[|to|] != Staging
    requires Get(fs, target).None? && Get(fs, StagingDir(to) + r).Some?
    ensures var s := StagingDir(to) + r;
            Working(before, Set(Set(fs, target, Get(fs, s)), s, None), from, to, [target] + newer, root)
  {
    var st := StagingDir(to);
    var s, x := st + r, Get(fs, st + r);
    var moved := Set(Set(fs, target, x), s, None);
    MovedBack(fs, s, target);
    WorkingWrite(before, fs, from, to, newer, root, r, None);
    LogMore(before, moved, to, target, newer + [st] + root);
    Regroup(target, newer, st, root);
    StagingStays(fs, to, r, target);
  }

  /** A created path whose removal leaves what the log undoes is one more entry of the log. */
  lemma LogMore(before: Node, fs: Node, to: Path, p: Path, log: seq<Path>)
    requires Ours(before, to, p) && Undoes(before, Set(fs, p, None), to, log)
    ensures Undoes(before, fs, to, [p] + log)
  {
    assert ([p] + log)[1..] == log;
  }

  lemma Regroup(p: Path, newer: seq<Path>, st: Path, root: seq<Path>)
    ensures [p] + (newer + [st] + root) == ([p] + newer) + [st] + root
  {
  }

  lemma StagingStays(fs: Node, to: Path, r: Path, target: Path)
    requires IsDir(fs, StagingDir(to)) && r != [] && to < target && target[|to|] != Staging
    ensures IsDir(Set(Set(fs, target, Get(fs, StagingDir(to) + r)), StagingDir(to) + r, None), StagingDir(to))
  {
    var st := StagingDir(to);
    var put := Set(fs, target, Get(fs, st + r));
    assert st[|to|] == Staging;
    GetApart(fs, target, Get(fs, st + r), st);
    GetAbove(put, st, r, None);
  }

  /** Taking away what was moved leaves what taking it away before would have. */
  lemma MovedBack(fs: Node, s: Path, target: Path)
    requires s != [] && target != [] && Apart(s, target) && Get(fs, target).None? && Get(fs, s).Some?
    ensures Set(Set(Set(fs, target, Get(fs, s)), s, None), target, None) == Set(fs, s, None)
  {
    var x := Get(fs, s);
    SetApart(Set(fs, target, x), s, None, target, None);
    SetBelow(fs, target, [], x, None);
    assert target + [] == target;
    SetUnchanged(fs, target);
  }

  /** The staged items that are equal to the source's. */
  ghost predicate Staged(before: Node, fs: Node, from: Path, to: Path, names: set<Name>)
  {
    forall name :: name in names ==> Get(fs, StagingDir(to) + [name]) == Get(before, from + [name])
  }

  /** The destination items that are equal to the source's. */
  ghost predicate Placed(before: Node, fs: Node, from: Path, to: Path, names: set<Name>)
  {
    forall name :: name in names ==> Get(fs, to + [name]) == Get(before, from + [name])
  }

  /** Items of the destination that are as before. */
  ghost predicate Untouched(before: Node, fs: Node, to: Path, placed: set<Name>)
  {
    forall name :: name !in placed && !name.Other? && name != Staging ==>
      Get(fs, to + [name]) == Get(before, to + [name])
  }

  /** The entries with the given names. */
  ghost function Part(entries: map<Name, Node>, names: seq<Name>): map<Name, Node>
  {
    map e | e in entries && e in names :: entries[e]
  }

  /** The staging directory holds nothing but these. */
  ghost predicate OnlyStaged(fs: Node, to: Path, names: set<Name>)
  {
    forall name :: name !in names ==> Get(fs, StagingDir(to) + [name]).None?
  }

  lemma OnlyStagedMore(fs: Node, to: Path, item: Name, x: Option<Node>, names: set<Name>)
    requires OnlyStaged(fs, to, names)
    ensures OnlyStaged(Set(fs, StagingDir(to) + [item], x), to, names + {item})
  {
    var p := StagingDir(to) + [item];
    forall name | name !in names + {item} ensures Get(Set(fs, p, x), StagingDir(to) + [name]).None? {
      assert p[|to| + 1] == item;
      GetApart(fs, p, x, StagingDir(to) + [name]);
    }
  }

  lemma EmptyStaging(fs: Node, to: Path)
    requires Get(fs, StagingDir(to)) == Some(Dir(map[]))
    ensures OnlyStaged(fs, to, {})
  {
    forall name ensures Get(fs, StagingDir(to) + [name]).None? { GetBelow(fs, StagingDir(to), [name]); }
  }

  lemma StagingInside(fs: Node, to: Path)
    requires IsDir(fs, StagingDir(to))
    ensures IsDir(fs, to)
  {
    GetBelow(fs, to, [Staging]);
  }

  /** A write inside the staging directory is not seen by other paths. */
  lemma WriteFrame(before: Node, fs: Node, from: Path, to: Path, item: Name,
                   x: Option<Node>, names: set<Name>, placed: set<Name>)
    requires Staged(before, fs, from, to, names) && item !in names && Untouched(before, fs, to, placed)
    ensures var written := Set(fs, StagingDir(to) + [item], x);
            Staged(before, written, from, to, names) && Untouched(before, written, to, placed)
  {
    var p := StagingDir(to) + [item];
    forall name | name in names
      ensures Get(Set(fs, p, x), StagingDir(to) + [name]) == Get(before, from + [name])
    {
      assert p[|to| + 1] == item;
      GetApart(fs, p, x, StagingDir(to) + [name]);
    }
    forall name | name !in placed && !name.Other? && name != Staging
      ensures Get(Set(fs, p, x), to + [name]) == Get(before, to + [name])
    {
      assert p[|to|] == Staging && (to + [name])[|to|] == name;
      GetApart(fs, p, x, to + [name]);
    }
  }

  /** The log of a finished copy: it undoes the copy exactly, and takes `covel.db` away first. */
  ghost predicate UndoReady(before: Node, fs: Node, from: Path, to: Path, created: seq<Path>)
  {
    && Undoes(before, fs, to, created) && Midway(before, fs, from, to)
    && (Get(fs, to + [Database]).Some? ==>
          created != [] && created[0] == to + [Database] && !IsDir(fs, to + [Database]))
  }

  /** The log without the first occurrence of a path. */
  function Without(log: seq<Path>, p: Path): seq<Path>
  {
    if log == [] then [] else if log[0] == p then log[1..] else [log[0]] + Without(log[1..], p)
  }

  lemma {:induction false} WithoutOne(newer: seq<Path>, p: Path, older: seq<Path>)
    requires p !in newer
    ensures Without(newer + [p] + older, p) == newer + older
    decreases |newer|
  {
    if newer == [] {
      assert newer + [p] + older == [p] + older && newer + older == older;
    } else {
      assert (newer + [p] + older)[1..] == newer[1..] + [p] + older;
      WithoutOne(newer[1..], p, older);
    }
  }

  /** The names among `names`, a set for reasoning about lists of items. */
  ghost function Elements(names: seq<Name>): set<Name> { set name | name in names }

  /** Moving one item does not touch the others. */
  lemma MoveFrame(before: Node, fs: Node, from: Path, to: Path, r: Path, target: Path, item: Name,
                  staged: set<Name>, placed: set<Name>)
    requires r != [] && r[0] == item && to < target && target[|to|] == item && !item.Other? && item != Staging
    requires Staged(before, fs, from, to, staged) && item !in staged
    requires Placed(before, fs, from, to, placed) && item !in placed && Staging !in placed
    requires Untouched(before, fs, to, placed + {item})
    ensures var s := StagingDir(to) + r; var moved := Set(Set(fs, target, Get(fs, s)), s, None);
            && Staged(before, moved, from, to, staged) && Placed(before, moved, from, to, placed)
            && Untouched(before, moved, to, placed + {item})
  {
    var s := StagingDir(to) + r;
    var put := Set(fs, target, Get(fs, s));
    var moved := Set(put, s, None);
    assert s[|to|] == Staging && s[|to| + 1] == item;
    forall name | name != item
      ensures Get(moved, StagingDir(to) + [name]) == Get(fs, StagingDir(to) + [name])
    {
      var q := StagingDir(to) + [name];
      assert q[|to|] == Staging && q[|to| + 1] == name;
      GetApart(fs, target, Get(fs, s), q);
      GetApart(put, s, None, q);
    }
    forall name | name != item && name != Staging
      ensures Get(moved, to + [name]) == Get(fs, to + [name])
    {
      var q := to + [name];
      assert q[|to|] == name;
      GetApart(fs, target, Get(fs, s), q);
      GetApart(put, s, None, q);
    }
  }

  /** A moved item reads at the destination what was staged. */
  lemma MoveWhole(fs: Node, to: Path, name: Name)
    requires name != Staging && IsDir(fs, to) && Get(fs, StagingDir(to) + [name]).Some?
    ensures var s, t := StagingDir(to) + [name], to + [name];
            Get(Set(Set(fs, t, Get(fs, s)), s, None), t) == Get(fs, s)
  {
    var s, t := StagingDir(to) + [name], to + [name];
    assert Parent(t) == to && s[|to|] == Staging && t[|to|] == name;
    GetSet(fs, t, Get(fs, s));
    GetApart(Set(fs, t, Get(fs, s)), s, None, t);
  }

  /** A staged item that has been moved into place as a whole. */
  lemma WholeMoves(before: Node, fs: Node, from: Path, to: Path, newer: seq<Path>, root: seq<Path>, name: Name,
                   staged: set<Name>, placed: set<Name>)
    requires Working(before, fs, from, to, newer, root) && Get(fs, to + [name]).None?
    requires !name.Other? && name != Staging && name !in staged && name !in placed && Staging !in placed
    requires Staged(before, fs, from, to, staged + {name}) && Placed(before, fs, from, to, placed)
    requires Untouched(before, fs, to, placed) && Get(fs, StagingDir(to) + [name]).Some? && IsDir(fs, to)
    ensures var s, t := StagingDir(to) + [name], to + [name];
            var moved := Set(Set(fs, t, Get(fs, s)), s, None);
            && Working(before, moved, from, to, [t] + newer, root)
            && Staged(before, moved, from, to, staged) && Placed(before, moved, from, to, placed + {name})
            && Untouched(before, moved, to, placed + {name})
  {
    assert (to + [name])[|to|] == name;
    WorkingRename(before, fs, from, to, newer, root, [name], to + [name]);
    MoveFrame(before, fs, from, to, [name], to + [name], name, staged, placed);
    MoveWhole(fs, to, name);
  }

  /** A moved entry leaves the staged directory and joins the destination's directory of that name. */
  lemma MoveEntry(fs: Node, to: Path, name: Name, e: Name)
    requires name != Staging && IsDir(fs, to + [name]) && IsDir(fs, StagingDir(to) + [name])
    requires Get(fs, StagingDir(to) + [name, e]).Some?
    ensures var s, t := StagingDir(to) + [name, e], to + [name, e];
            var moved := Set(Set(fs, t, Get(fs, s)), s, None);
            var (d, left) := (Get(fs, to + [name]).value.entries, Get(fs, StagingDir(to) + [name]).value.entries);
            && e in left
            && Get(moved, to + [name]) == Some(Dir(d[e := left[e]]))
            && Get(moved, StagingDir(to) + [name]) == Some(Dir(left - {e}))
  {
    var s, t := StagingDir(to) + [name, e], to + [name, e];
    var dst, src := to + [name], StagingDir(to) + [name];
    assert t == dst + [e] && s == src + [e];
    assert src[|to|] == Staging && s[|to|] == Staging && t[|to|] == name && dst[|to|] == name;
    GetBelow(fs, src, [e]);
    var put := Set(fs, t, Get(fs, s));
    GetAbove(fs, dst, [e], Get(fs, s));
    GetApart(fs, t, Get(fs, s), src);
    GetApart(put, s, None, dst);
    GetAbove(put, src, [e], None);
  }

  // ---------------------------------------------------------------- lists of items

  ghost function ListedNames(listings: seq<Listing>): set<Name>
  {
    set k | 0 <= k < |listings| :: listings[k].name
  }

  lemma ElementsNext(names: seq<Name>, i: nat)
    requires i < |names|
    ensures Elements(names[..i + 1]) == Elements(names[..i]) + {names[i]}
  {
    assert names[..i + 1] == names[..i] + [names[i]];
  }

  lemma ListSplit(ls: seq<Listing>, i: nat)
    requires i < |ls| && forall j, k :: 0 <= j < k < |ls| ==> ls[j].name != ls[k].name
    ensures ls[i].name !in ListedNames(ls[i + 1..]) && ls[i].name !in ListedNames(ls[..i])
    ensures ListedNames(ls[i..]) == ListedNames(ls[i + 1..]) + {ls[i].name}
    ensures ListedNames(ls[..i + 1]) == ListedNames(ls[..i]) + {ls[i].name}
    ensures ls[i].name in ListedNames(ls)
  {
    ListNames([ls[i]], ls[i + 1..]);
    ListNames(ls[..i], [ls[i]]);
    assert ls[i..] == [ls[i]] + ls[i + 1..] && ls[..i + 1] == ls[..i] + [ls[i]];
    assert [ls[i]][0] == ls[i];
  }

  /** What is known of the next directory to put in place. */
  lemma NextListed(before: Node, fs: Node, from: Path, to: Path, ls: seq<Listing>, i: nat,
                   files: set<Name>, done: set<Name>)
    requires Listed(before, from, ls, |DATA_DIRECTORIES|) && i < |ls| && files !! {Worlds, Media, Staging}
    requires done == ListedNames(ls[..i]) && done <= {Worlds, Media}
    requires Planned(before, from, to) && Untouched(before, fs, to, done)
    ensures var l, left := ls[i], files + ListedNames(ls[i + 1..]);
            && l.name in {Worlds, Media} && Lists(l, Get(before, from + [l.name]))
            && l.name !in left && l.name !in done
            && left + {l.name} == files + ListedNames(ls[i..]) && done + {l.name} == ListedNames(ls[..i + 1])
            && (Get(fs, to + [l.name]).Some? ==> !HasEntries(fs, to + [l.name]))
  {
    ListSplit(ls, i);
    assert ls[i].name in DATA_DIRECTORIES;
    assert Get(fs, to + [ls[i].name]) == Get(before, to + [ls[i].name]);
  }

  lemma ListNames(xs: seq<Listing>, ys: seq<Listing>)
    ensures ListedNames(xs + ys) == ListedNames(xs) + ListedNames(ys)
  {
    forall name | name in ListedNames(xs) + ListedNames(ys) ensures name in ListedNames(xs + ys) {
      if name in ListedNames(xs) {
        var k :| 0 <= k < |xs| && xs[k].name == name;
        assert (xs + ys)[k].name == name;
      } else {
        var k :| 0 <= k < |ys| && ys[k].name == name;
        assert (xs + ys)[|xs| + k].name == name;
      }
    }
  }

  lemma NotYetListed(before: Node, from: Path, listings: seq<Listing>, i: nat)
    requires i < |DATA_DIRECTORIES| && Listed(before, from, listings, i)
    ensures DATA_DIRECTORIES[i] !in ListedNames(listings)
  {
  }

  lemma ListNone(before: Node, from: Path, listings: seq<Listing>, i: nat)
    requires i < |DATA_DIRECTORIES| && Listed(before, from, listings, i)
    requires !HasEntries(before, from + [DATA_DIRECTORIES[i]])
    ensures Listed(before, from, listings, i + 1)
  {
  }

  lemma ListMore(before: Node, from: Path, listings: seq<Listing>, i: nat, l: Listing)
    requires i < |DATA_DIRECTORIES| && Listed(before, from, listings, i)
    requires l.name == DATA_DIRECTORIES[i] && Lists(l, Get(before, from + [l.name]))
    ensures Listed(before, from, listings + [l], i + 1)
    ensures ListedNames(listings + [l]) == ListedNames(listings) + {l.name}
  {
    assert l.entries[0] in Get(before, from + [l.name]).value.entries;
    NotYetListed(before, from, listings, i);
    ListNames(listings, [l]);
    assert [l][0] == l;
    assert DATA_DIRECTORIES[..i + 1] == DATA_DIRECTORIES[..i] + [l.name];
  }

  /** The source's database files, all of them files, and its data directories that hold anything. */
  ghost predicate ItemsListed(before: Node, from: Path, files: seq<Name>, listings: seq<Listing>)
  {
    && DatabaseFiles(files)
    && (forall name :: name in files <==> name in DATABASE_FILES && Get(before, from + [name]).Some?)
    && (forall i :: 0 <= i < |files| ==> !IsDir(before, from + [files[i]]))
    && Listed(before, from, listings, |DATA_DIRECTORIES|)
  }

  /** Of the first `n` data directories, exactly those that hold anything are listed, in order. */
  ghost predicate Listed(before: Node, from: Path, listings: seq<Listing>, n: nat)
    requires n <= |DATA_DIRECTORIES|
  {
    && (forall k :: 0 <= k < |listings| ==> Lists(listings[k], Get(before, from + [listings[k].name])))
    && (forall j, k :: 0 <= j < k < |listings| ==> listings[j].name != listings[k].name)
    && (forall name :: name in ListedNames(listings) <==>
                       name in DATA_DIRECTORIES[..n] && HasEntries(before, from + [name]))
  }

  // ---------------------------------------------------------------- the copy, part by part

  /** The log of a working copy without its staging directory undoes the tree without it. */
  lemma StagingDropped(before: Node, was: Node, fs: Node, from: Path, to: Path, newer: seq<Path>, root: seq<Path>)
    requires Working(before, was, from, to, newer, root)
    requires Set(fs, StagingDir(to), None) == Set(was, StagingDir(to), None)
    ensures Undoes(before, fs, to, newer + [StagingDir(to)] + root)
    ensures Undoes(before, Set(was, StagingDir(to), None), to, newer + root)
  {
    var st := StagingDir(to);
    var log := newer + [st] + root;
    assert forall i :: 0 <= i < |newer| ==> newer[i] == log[i];
    assert forall i :: 0 <= i < |root| ==> root[i] == log[|newer| + 1 + i];
    RemoveAllDrop(was, newer, st, root);
    RemoveAllDrop(fs, newer, st, root);
  }

  /** The staging directory going away leaves the copy complete and undoable, with it or without it in the log. */
  lemma StagingRemoved(before: Node, was: Node, fs: Node, from: Path, to: Path, newer: seq<Path>, root: seq<Path>)
    requires Working(before, was, from, to, newer, root) && Complete(before, was, from, to)
    requires Get(was, to + [Database]).Some? ==>
               newer != [] && newer[0] == to + [Database] && !IsDir(was, to + [Database])
    requires Set(fs, StagingDir(to), None) == Set(was, StagingDir(to), None)
    ensures Complete(before, fs, from, to) && Midway(before, fs, from, to)
    ensures fs == Set(was, StagingDir(to), None) ==> UndoReady(before, fs, from, to, newer + root)
  {
    var st := StagingDir(to);
    StagingDropped(before, was, fs, from, to, newer, root);
    UndoesIsIntact(before, fs, to, newer + [st] + root);
    forall name | name != Staging ensures Get(fs, to + [name]) == Get(was, to + [name]) {
      assert st[|to|] == Staging && (to + [name])[|to|] == name;
      GetApart(fs, st, None, to + [name]);
      GetApart(was, st, None, to + [name]);
    }
  }

  lemma MadeMidway(before: Node, from: Path, to: Path, n: nat)
    requires Planned(before, from, to) && FirstMissing(before, to) + n <= |to| + 1
    requires n > 0 ==> IsDir(before, to[..FirstMissing(before, to) - 1])
    ensures Midway(before, MadeDirs(before, to, n), from, to)
    ensures MadeDirs(before, to, n) == before <==> n == 0
  {
    WithinSelf(before);
    if n > 0 {
      MadeDirsUndone(before, to, n);
      UndoesIsIntact(before, MadeDirs(before, to, n), to, [to[..FirstMissing(before, to)]]);
      MadeDirsEmpty(before, to, n);
      MadeDirsDiffer(before, to, n);
    }
  }

  /** The destination is a directory, with the items it had before. */
  lemma DestinationMade(before: Node, from: Path, to: Path, n: nat, root: seq<Path>)
    requires Planned(before, from, to)
    requires FirstMissing(before, to) + n <= |to| + 1
    requires if n == 0 then root == [] && IsDir(before, to)
             else FirstMissing(before, to) + n == |to| + 1 && root == [to[..FirstMissing(before, to)]]
                  && IsDir(before, to[..FirstMissing(before, to) - 1])
    ensures var fs := MadeDirs(before, to, n);
            && Undoes(before, fs, to, root) && IsDir(fs, to) && Untouched(before, fs, to, {})
            && Midway(before, fs, from, to) && Get(fs, to + [Database]).None?
            && Get(fs, StagingDir(to)) == Get(before, StagingDir(to))
  {
    if n > 0 {
      MadeDirsUndone(before, to, n);
      MadeDirsEmpty(before, to, n);
      MissingIsEmpty(before, to);
    }
    UndoesIsIntact(before, MadeDirs(before, to, n), to, root);
  }

  lemma StagingMade(before: Node, was: Node, fs: Node, from: Path, to: Path, root: seq<Path>)
    requires Planned(before, from, to) && Undoes(before, was, to, root)
    requires Untouched(before, was, to, {}) && IsDir(was, to) && Get(was, StagingDir(to)).None?
    requires fs == Set(was, StagingDir(to), Some(Dir(map[])))
    ensures Working(before, fs, from, to, [], root) && Untouched(before, fs, to, {}) && OnlyStaged(fs, to, {})
  {
    var st := StagingDir(to);
    var empty := Some(Dir(map[]));
    assert Parent(st) == to;
    GetSet(was, st, empty);
    EmptyStaging(fs, to);
    SetBelow(was, st, [], empty, None);
    assert st + [] == st;
    SetUnchanged(was, st);
    assert ([] + [st] + root)[1..] == root;
    assert RemoveAll(fs, [] + [st] + root) == RemoveAll(was, root);
    forall name: Name | !name.Other? && name != Staging
      ensures Get(fs, to + [name]) == Get(before, to + [name])
    {
      assert st[|to|] == Staging && (to + [name])[|to|] == name;
      GetApart(was, st, empty, to + [name]);
    }
  }

  lemma NotYetPlaced(before: Node, fs: Node, from: Path, to: Path, root: seq<Path>)
    requires Working(before, fs, from, to, [], root) && Untouched(before, fs, to, {})
    ensures Midway(before, fs, from, to) && Get(fs, to + [Database]).None?
  {
    WorkingIsMidway(before, fs, from, to, [], root);
  }

  lemma ListedAreDirectories(before: Node, from: Path, listings: seq<Listing>)
    requires Listed(before, from, listings, |DATA_DIRECTORIES|)
    ensures ListedNames(listings) <= {Worlds, Media}
  {
  }

  lemma AllPlaced(before: Node, fs: Node, from: Path, to: Path, files: seq<Name>, listings: seq<Listing>)
    requires Planned(before, from, to) && ItemsListed(before, from, files, listings)
    requires Placed(before, fs, from, to, ListedNames(listings) + Elements(files))
    requires Untouched(before, fs, to, ListedNames(listings) + Elements(files))
    ensures Complete(before, fs, from, to)
    ensures Get(fs, to + [Database]).Some? ==> Database in files && !IsDir(fs, to + [Database])
  {
    ListedAreDirectories(before, from, listings);
    assert DATA_DIRECTORIES[..|DATA_DIRECTORIES|] == DATA_DIRECTORIES;
  }

  /** What is known of the next database file to put in place. */
  lemma FilesLeft(files: seq<Name>, i: nat, directories: set<Name>)
    requires 0 < i <= |files| && DatabaseFiles(files) && directories <= {Worlds, Media}
    ensures var (name, done) := (files[i - 1], directories + Elements(files[i..]));
            && !name.Other? && name != Staging && name !in done && Staging !in done
            && done + {name} == directories + Elements(files[i - 1..])
    ensures files[i - 1] !in Elements(files[..i - 1])
    ensures Elements(files[..i - 1]) + {files[i - 1]} == Elements(files[..i])
  {
    assert files[i - 1..] == [files[i - 1]] + files[i..];
    ElementsNext(files, i - 1);
    assert files[i - 1] in DATABASE_FILES;
  }

  /** `covel.db` is not among the files after the last one left. */
  lemma LastIsMissing(files: seq<Name>, i: nat, directories: set<Name>)
    requires 0 < i <= |files| && DatabaseFiles(files) && directories <= {Worlds, Media}
    ensures Database !in directories + Elements(files[i..])
  {
  }

  lemma NoDatabase(before: Node, fs: Node, from: Path, to: Path, done: set<Name>)
    requires Planned(before, from, to) && Untouched(before, fs, to, done) && Database !in done
    ensures Get(fs, to + [Database]).None?
  {
  }

  /** The next entry is still staged, and its place in the directory that is being filled is free. */
  lemma FillFree(fs: Node, to: Path, name: Name, source: map<Name, Node>, entries: seq<Name>, i: nat)
    requires i < |entries| && entries[i] in source
    requires forall j, k :: 0 <= j < k < |entries| ==> entries[j] != entries[k]
    requires Get(fs, to + [name]) == Some(Dir(Part(source, entries[..i])))
    requires Get(fs, StagingDir(to) + [name]) == Some(Dir(source - Elements(entries[..i])))
    ensures Get(fs, to + [name, entries[i]]).None? && Get(fs, StagingDir(to) + [name, entries[i]]).Some?
  {
    var e := entries[i];
    assert e !in entries[..i];
    GetBelow(fs, to + [name], [e]);
    GetBelow(fs, StagingDir(to) + [name], [e]);
    assert to + [name] + [e] == to + [name, e] && StagingDir(to) + [name] + [e] == StagingDir(to) + [name, e];
  }

  lemma FillMore(source: map<Name, Node>, entries: seq<Name>, i: nat)
    requires i < |entries| && entries[i] in source
    ensures Part(source, entries[..i + 1]) == Part(source, entries[..i])[entries[i] := source[entries[i]]]
    ensures source - Elements(entries[..i + 1]) == source - Elements(entries[..i]) - {entries[i]}
  {
    assert entries[..i + 1] == entries[..i] + [entries[i]];
  }
}
