/** A file system as a tree of named entries, with the laws of reading and replacing a path. */
module FileTree {
  import opened Wrappers

  /** The names that matter to a data root. */
  const RESERVED: seq<string> :=
    ["covel.db", "covel.db-wal", "covel.db-shm", "worlds", "media", ".covel-data-copy.tmp"]

  /** All others that a file can have. */
  type FileName = s: string | s != "" && '/' !in s && s != "." && s != ".." && s !in RESERVED witness "a"

  datatype Name = Database | Wal | Shm | Worlds | Media | Staging | Other(text: FileName)

  type Path = seq<Name>

  datatype Node = File(content: string) | Dir(entries: map<Name, Node>)

  /** What is at a path, if anything. */
  function Get(n: Node, p: Path): Option<Node>
    decreases |p|
  {
    if p == [] then Some(n)
    else if n.Dir? && p[0] in n.entries then Get(n.entries[p[0]], p[1..])
    else None
  }

  /** The tree with the node at `p` put there or, with `None`, removed. */
  function Set(n: Node, p: Path, x: Option<Node>): Node
    requires p != []
    decreases |p|
  {
    if n.File? then n
    else if |p| == 1 then
      if x.Some? then Dir(n.entries[p[0] := x.value]) else Dir(n.entries - {p[0]})
    else if p[0] in n.entries then Dir(n.entries[p[0] := Set(n.entries[p[0]], p[1..], x)])
    else n
  }

  function Parent(p: Path): Path
    requires p != []
  {
    p[..|p| - 1]
  }

  lemma PathParts(p: Path, i: nat, j: nat)
    requires i <= j <= |p|
    ensures p[..j] == p[..i] + p[i..j]
  {
  }

  lemma PathNext(p: Path, i: nat, j: nat)
    requires i <= j < |p|
    ensures p[i..j + 1] == p[i..j] + [p[j]]
  {
  }

  lemma PathParent(p: Path, j: nat)
    requires 0 < j <= |p|
    ensures Parent(p[..j]) == p[..j - 1]
  {
  }

  predicate IsDir(n: Node, p: Path)
  {
    Get(n, p).Some? && Get(n, p).value.Dir?
  }

  predicate IsFile(n: Node, p: Path)
  {
    Get(n, p).Some? && Get(n, p).value.File?
  }

  /** Neither path lies at or below the other. */
  predicate Apart(p: Path, q: Path) { !(p <= q) && !(q <= p) }

  /** Everything in `a` is in `b`: the same files at the same paths, directories where directories were. */
  predicate Within(a: Node, b: Node)
  {
    match (a, b)
    case (File(x), File(y)) => x == y
    case (Dir(xs), Dir(ys)) => forall k :: k in xs ==> k in ys && Within(xs[k], ys[k])
    case _ => false
  }

  // ---------------------------------------------------------------- reading after writing

  lemma {:induction false} GetBelow(n: Node, p: Path, r: Path)
    ensures Get(n, p + r) == if Get(n, p).Some? then Get(Get(n, p).value, r) else None
    decreases |p|
  {
    if p == [] {
      assert p + r == r;
    } else {
      assert (p + r)[1..] == p[1..] + r;
      if n.Dir? && p[0] in n.entries {
        GetBelow(n.entries[p[0]], p[1..], r);
      }
    }
  }

  lemma {:induction false} GetSet(n: Node, p: Path, x: Option<Node>)
    requires p != [] && (x.Some? ==> IsDir(n, Parent(p)))
    ensures Get(Set(n, p, x), p) == x
    decreases |p|
  {
    if |p| == 1 || n.File? || p[0] !in n.entries {
    } else {
      assert Parent(p)[1..] == Parent(p[1..]);
      GetSet(n.entries[p[0]], p[1..], x);
    }
  }

  lemma {:induction false} GetApart(n: Node, p: Path, x: Option<Node>, q: Path)
    requires p != [] && Apart(p, q)
    ensures Get(Set(n, p, x), q) == Get(n, q)
    decreases |p|
  {
    if |p| == 1 || n.File? || p[0] !in n.entries || p[0] != q[0] {
    } else {
      assert Apart(p[1..], q[1..]) by {
        assert p == [p[0]] + p[1..] && q == [q[0]] + q[1..];
      }
      GetApart(n.entries[p[0]], p[1..], x, q[1..]);
    }
  }

  /** A directory above a replaced path sees the replacement inside itself. */
  lemma {:induction false} GetAbove(n: Node, q: Path, r: Path, x: Option<Node>)
    requires r != [] && Get(n, q).Some?
    ensures Get(Set(n, q + r, x), q) == Some(Set(Get(n, q).value, r, x))
    decreases |q|
  {
    if q == [] {
      assert q + r == r;
    } else {
      assert (q + r)[1..] == q[1..] + r;
      GetAbove(n.entries[q[0]], q[1..], r, x);
    }
  }

  // ---------------------------------------------------------------- writing after writing

  lemma {:induction false} SetBelow(n: Node, p: Path, r: Path, x: Option<Node>, y: Option<Node>)
    requires p != []
    ensures p + r != [] && Set(Set(n, p + r, x), p, y) == Set(n, p, y)
    decreases |p|
  {
    if r == [] {
      assert p + r == p;
    }
    if n.Dir? {
      assert (p + r)[1..] == p[1..] + r;
      if |p| == 1 {
        assert Set(Set(n, p + r, x), p, y) == Set(n, p, y);
      } else if p[0] in n.entries {
        SetBelow(n.entries[p[0]], p[1..], r, x, y);
      }
    }
  }

  lemma {:induction false} SetUnchanged(n: Node, p: Path)
    requires p != []
    ensures Set(n, p, Get(n, p)) == n
    decreases |p|
  {
    if |p| == 1 || n.File? || p[0] !in n.entries {
    } else {
      SetUnchanged(n.entries[p[0]], p[1..]);
    }
  }

  lemma SetHeadsApart(n: Node, p: Path, x: Option<Node>, q: Path, y: Option<Node>)
    requires p != [] && q != [] && p[0] != q[0]
    ensures Set(Set(n, p, x), q, y) == Set(Set(n, q, y), p, x)
  {
  }

  lemma {:induction false} SetApart(n: Node, p: Path, x: Option<Node>, q: Path, y: Option<Node>)
    requires p != [] && q != [] && Apart(p, q)
    ensures Set(Set(n, p, x), q, y) == Set(Set(n, q, y), p, x)
    decreases |p|
  {
    if p[0] != q[0] {
      SetHeadsApart(n, p, x, q, y);
    } else if n.Dir? {
      assert |p| > 1 && |q| > 1;
      assert Apart(p[1..], q[1..]) by {
        assert p == [p[0]] + p[1..] && q == [q[0]] + q[1..];
      }
      if p[0] in n.entries {
        SetApart(n.entries[p[0]], p[1..], x, q[1..], y);
      }
    }
  }

  /** Writing below a node just put in place is putting the written node in place. */
  lemma {:induction false} SetInside(n: Node, p: Path, m: Node, r: Path, x: Option<Node>)
    requires p != [] && r != [] && IsDir(n, Parent(p))
    ensures p + r != [] && Set(Set(n, p, Some(m)), p + r, x) == Set(n, p, Some(Set(m, r, x)))
    decreases |p|
  {
    assert (p + r)[1..] == p[1..] + r;
    if |p| == 1 {
    } else {
      assert Parent(p)[1..] == Parent(p[1..]);
      SetInside(n.entries[p[0]], p[1..], m, r, x);
    }
  }

  // ---------------------------------------------------------------- inclusion

  lemma WithinSelf(a: Node)
    ensures Within(a, a)
  {
    if a.Dir? {
      forall k | k in a.entries ensures Within(a.entries[k], a.entries[k]) {
        WithinSelf(a.entries[k]);
      }
    }
  }

  lemma WithinThrough(a: Node, b: Node, c: Node)
    requires Within(a, b) && Within(b, c)
    ensures Within(a, c)
  {
    if a.Dir? {
      forall k | k in a.entries ensures k in c.entries && Within(a.entries[k], c.entries[k]) {
        WithinThrough(a.entries[k], b.entries[k], c.entries[k]);
      }
    }
  }

  lemma {:induction false} WithinGet(a: Node, b: Node, p: Path)
    requires Within(a, b) && Get(a, p).Some?
    ensures Get(b, p).Some? && Within(Get(a, p).value, Get(b, p).value)
    decreases |p|
  {
    if p == [] {
    } else {
      WithinGet(a.entries[p[0]], b.entries[p[0]], p[1..]);
    }
  }

  /** Replacing a node by a part of it, or removing it, only takes away. */
  lemma {:induction false} WithinSet(n: Node, p: Path, x: Option<Node>)
    requires p != []
    requires x.Some? ==> Get(n, p).Some? && Within(x.value, Get(n, p).value)
    ensures Within(Set(n, p, x), n)
    decreases |p|
  {
    WithinSelf(n);
    if n.File? {
    } else {
      forall k | k in n.entries ensures Within(n.entries[k], n.entries[k]) {
        WithinSelf(n.entries[k]);
      }
      if |p| == 1 {
        assert x.Some? ==> Get(n, p) == Some(n.entries[p[0]]);
      } else if p[0] in n.entries {
        WithinSet(n.entries[p[0]], p[1..], x);
      }
    }
  }

  /** Removing what was not there before keeps all that was. */
  lemma {:induction false} WithinRemoved(a: Node, b: Node, p: Path)
    requires p != [] && Within(a, b) && Get(a, p).None?
    ensures Within(a, Set(b, p, None))
    decreases |p|
  {
    if a.File? || |p| == 1 || p[0] !in a.entries {
    } else {
      WithinRemoved(a.entries[p[0]], b.entries[p[0]], p[1..]);
    }
  }
}
