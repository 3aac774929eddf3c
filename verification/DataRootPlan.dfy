/** What switching the data root means: the planner of `apps/desktop/src/data-root-copy.ts`. */
module DataRootPlan {
  import opened FileTree
  import opened Text
  import opened Wrappers

  /** The order in which the code lists the database files. */
  const DATABASE_FILES: seq<Name> := [Database, Wal, Shm]

  const DATA_DIRECTORIES: seq<Name> := [Worlds, Media]

  datatype Plan = Same | Nested | DestinationHasData | SourceEmpty | Copy

  function NameText(name: Name): (text: string)
    ensures text != "" && text[0] != '/'
    ensures !name.Other? ==> !(".." <= text)
  {
    match name
    case Database => RESERVED[0]
    case Wal => RESERVED[1]
    case Shm => RESERVED[2]
    case Worlds => RESERVED[3]
    case Media => RESERVED[4]
    case Staging => assert RESERVED[5][1] == 'c'; RESERVED[5]
    case Other(text) => assert text[0] in text; text
  }

  function Texts(p: Path): seq<string> { seq(|p|, i requires 0 <= i < |p| => NameText(p[i])) }

  /** The length of the longest common beginning. */
  function Common(p: Path, q: Path): (k: nat)
    ensures k <= |p| && k <= |q| && p[..k] == q[..k]
    ensures k < |p| && k < |q| ==> p[k] != q[k]
  {
    if p != [] && q != [] && p[0] == q[0] then
      assert p == [p[0]] + p[1..] && q == [q[0]] + q[1..];
      1 + Common(p[1..], q[1..])
    else 0
  }

  /** `path.relative` of absolute paths: up from the end of the first to the common part, and down again. */
  function Relative(p: Path, q: Path): string
  {
    var k := Common(p, q);
    Join(seq(|p| - k, _ => "..") + Texts(q[k..]), '/')
  }

  function IsAbsolute(text: string): bool { text != "" && text[0] == '/' }

  /** The code's test, on the text of the relative path. */
  predicate IsInside(parent: Path, child: Path)
  {
    var relative := Relative(parent, child);
    relative != "" && !(".." <= relative) && !IsAbsolute(relative)
  }

  predicate HasEntries(fs: Node, p: Path)
  {
    IsDir(fs, p) && Get(fs, p).value.entries != map[]
  }

  predicate HasCovelData(fs: Node, root: Path)
  {
    || (exists name :: name in DATABASE_FILES && Get(fs, root + [name]).Some?)
    || (exists name :: name in DATA_DIRECTORIES && HasEntries(fs, root + [name]))
  }

  function PlanSwitch(fs: Node, from: Path, to: Path): Plan
  {
    if from == to then Same
    else if HasCovelData(fs, to) then DestinationHasData
    else if !HasCovelData(fs, from) then SourceEmpty
    else if IsInside(from, to) || IsInside(to, from) then Nested
    else Copy
  }

  /** Anything is there. */
  predicate Exists(fs: Node, p: Path) { Get(fs, p).Some? }

  /** One of the database files is there, or anything in `worlds` or `media`. */
  ghost predicate DataThere(fs: Node, root: Path)
  {
    || Exists(fs, root + [Database]) || Exists(fs, root + [Wal]) || Exists(fs, root + [Shm])
    || (exists e :: Exists(fs, root + [Worlds] + [e])) || (exists e :: Exists(fs, root + [Media] + [e]))
  }

  lemma HasDataIff(fs: Node, root: Path)
    ensures HasCovelData(fs, root) <==> DataThere(fs, root)
  {
    EntriesAreReads(fs, root + [Worlds]);
    EntriesAreReads(fs, root + [Media]);
    assert Database in DATABASE_FILES && Wal in DATABASE_FILES && Shm in DATABASE_FILES;
    assert Worlds in DATA_DIRECTORIES && Media in DATA_DIRECTORIES;
  }

  lemma EntriesAreReads(fs: Node, p: Path)
    ensures HasEntries(fs, p) <==> exists e :: Exists(fs, p + [e])
  {
    forall e ensures Exists(fs, p + [e]) <==> IsDir(fs, p) && e in Get(fs, p).value.entries {
      GetBelow(fs, p, [e]);
    }
    if HasEntries(fs, p) {
      var e :| e in Get(fs, p).value.entries;
      assert Exists(fs, p + [e]);
    }
  }

  lemma JoinStarts(parts: seq<string>)
    requires parts != [] && parts[0] != ""
    ensures parts[0] <= Join(parts, '/')
    ensures |parts| > 1 ==> |Join(parts, '/')| > |parts[0]| && Join(parts, '/')[|parts[0]|] == '/'
    ensures |parts| == 1 ==> Join(parts, '/') == parts[0]
  {
  }

  /** The relative path to another place begins with two dots unless it leads straight down. */
  lemma RelativeStarts(p: Path, q: Path)
    ensures p == q ==> Relative(p, q) == ""
    ensures !(p <= q) ==> ".." <= Relative(p, q)
    ensures p < q ==> Relative(p, q) != "" && Relative(p, q)[0] == NameText(q[|p|])[0]
    ensures p < q ==> (".." <= Relative(p, q) <==> ".." <= NameText(q[|p|]))
  {
    var k := Common(p, q);
    var ups := seq(|p| - k, _ => "..");
    var parts := ups + Texts(q[k..]);
    if p <= q {
      assert k == |p| && ups == [] && parts == Texts(q[k..]);
      assert p == q ==> parts == [];
      if p < q {
        assert parts[0] == NameText(q[|p|]);
        JoinStarts(parts);
      }
    } else {
      assert parts[0] == "..";
      JoinStarts(parts);
    }
  }

  /**
    * The test finds that one directory lies inside another exactly unless the next name on the way down
    * starts with two dots, which it takes for a path that leads out.
    */
  lemma NestedUnlessDotDot(parent: Path, child: Path)
    ensures IsInside(parent, child) <==> parent < child && !(".." <= NameText(child[|parent|]))
  {
    RelativeStarts(parent, child);
  }

  /** Of two directories one inside the other, data is copied exactly if that name starts with two dots. */
  lemma NestedIsCopiedIff(fs: Node, from: Path, to: Path)
    requires from < to || to < from
    requires HasCovelData(fs, from) && !HasCovelData(fs, to)
    ensures PlanSwitch(fs, from, to) == Copy <==>
            ".." <= NameText(if from < to then to[|from|] else from[|to|])
    ensures PlanSwitch(fs, from, to) == Copy || PlanSwitch(fs, from, to) == Nested
  {
    NestedUnlessDotDot(from, to);
    NestedUnlessDotDot(to, from);
  }

  /** One of two directories lies in the other, and the name between them does not start with two dots. */
  predicate Contains(p: Path, q: Path) { p < q && !(".." <= NameText(q[|p|])) }

  /** Which plan applies, said in what can be read: one root, data there, no data here, one in the other, or a copy. */
  lemma PlanIff(fs: Node, from: Path, to: Path)
    ensures PlanSwitch(fs, from, to) == Same <==> from == to
    ensures PlanSwitch(fs, from, to) == DestinationHasData <==> from != to && DataThere(fs, to)
    ensures PlanSwitch(fs, from, to) == SourceEmpty <==>
            from != to && !DataThere(fs, to) && !DataThere(fs, from)
    ensures PlanSwitch(fs, from, to) == Nested <==>
            from != to && !DataThere(fs, to) && DataThere(fs, from) && (Contains(from, to) || Contains(to, from))
    ensures PlanSwitch(fs, from, to) == Copy <==>
            from != to && !DataThere(fs, to) && DataThere(fs, from) && !Contains(from, to) && !Contains(to, from)
  {
    HasDataIff(fs, from);
    HasDataIff(fs, to);
    NestedUnlessDotDot(from, to);
    NestedUnlessDotDot(to, from);
  }

  /** An empty data directory is no data: a new root with nothing but an empty `worlds` is copied to. */
  lemma EmptyDirectoryIsNoData(fs: Node, from: Path, to: Path)
    requires Apart(from, to) && Exists(fs, from + [Database])
    requires Get(fs, to) == Some(Dir(map[Worlds := Dir(map[])]))
    ensures PlanSwitch(fs, from, to) == Copy && PlanSwitch(fs, to, from) == DestinationHasData
  {
    HasDataIff(fs, from);
    HasDataIff(fs, to);
    forall name ensures Exists(fs, to + [name]) ==> name == Worlds { GetBelow(fs, to, [name]); }
    forall name, e ensures !Exists(fs, to + [name] + [e]) {
      GetBelow(fs, to, [name, e]);
      assert to + [name] + [e] == to + [name, e];
    }
    PlanIff(fs, from, to);
    PlanIff(fs, to, from);
  }

  /** The names as they are on disk. */
  lemma NamesOnDisk()
    ensures NameText(Database) == "covel.db" && NameText(Wal) == "covel.db-wal" && NameText(Shm) == "covel.db-shm"
    ensures NameText(Worlds) == "worlds" && NameText(Media) == "media" && NameText(Staging) == ".covel-data-copy.tmp"
    ensures forall p: Name, q: Name :: NameText(p) == NameText(q) ==> p == q
  {
    forall text: FileName ensures text !in RESERVED {}
  }

  lemma ApartIsCopied(fs: Node, from: Path, to: Path)
    requires Apart(from, to) && HasCovelData(fs, from) && !HasCovelData(fs, to)
    ensures PlanSwitch(fs, from, to) == Copy
  {
    NestedUnlessDotDot(from, to);
    NestedUnlessDotDot(to, from);
  }

  /** A disk with nothing on it but an old data root. */
  function OldRootOnly(file: string): Node
  {
    Dir(map[Other("old") := Dir(map[Database := File(file)])])
  }

  const OLD_ROOT: Path := [Other("old")]

  lemma OldRootHasData(file: string)
    ensures HasCovelData(OldRootOnly(file), OLD_ROOT)
  {
    GetBelow(OldRootOnly(file), OLD_ROOT, [Database]);
    assert Database in DATABASE_FILES && Get(OldRootOnly(file), OLD_ROOT + [Database]).Some?;
  }

  lemma ElsewhereIsEmpty(file: string, to: Path)
    requires to != [] && to[0] != Other("old")
    ensures Get(OldRootOnly(file), to).None? && !HasCovelData(OldRootOnly(file), to)
    ensures PlanSwitch(OldRootOnly(file), OLD_ROOT, to) == Copy
  {
    var fs := OldRootOnly(file);
    assert Get(fs, to).None?;
    forall name ensures Get(fs, to + [name]).None? { GetBelow(fs, to, [name]); }
    OldRootHasData(file);
    ApartIsCopied(fs, OLD_ROOT, to);
  }

  /** A destination inside the source that the planner lets through. */
  lemma DotDotIsCopied(file: string)
    ensures var to := OLD_ROOT + [Other("..new")];
            OLD_ROOT < to && PlanSwitch(OldRootOnly(file), OLD_ROOT, to) == Copy
  {
    var fs, to := OldRootOnly(file), OLD_ROOT + [Other("..new")];
    GetBelow(fs, OLD_ROOT, [Other("..new")]);
    forall name ensures Get(fs, to + [name]).None? { GetBelow(fs, to, [name]); }
    OldRootHasData(file);
    assert to[|OLD_ROOT|] == Other("..new") && ".." <= "..new";
    NestedIsCopiedIff(fs, OLD_ROOT, to);
  }
}
