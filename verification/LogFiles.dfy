/** The rotation of log files in `apps/server/src/server-log-tee.ts`. */
module LogFiles {
  import opened LogLines
  import opened Text

  /** A record with the bytes it takes. */
  datatype Entry = Entry(record: Record, size: nat)

  /** The files by number: 0 is the one being written, `i` the one with the suffix `.i`. */
  type Files = map<nat, seq<Entry>>

  function Content(files: Files, i: nat): seq<Entry> { if i in files then files[i] else [] }

  /** Everything kept, from the oldest of the first `n` files to the one being written. */
  function Kept(files: Files, n: nat): seq<Entry>
  {
    if n == 0 then [] else Content(files, n - 1) + Kept(files, n - 1)
  }

  /** File `k` is as it was. */
  predicate Stays(before: Files, after: Files, k: nat)
  {
    (k in before <==> k in after) && (k in before ==> before[k] == after[k])
  }

  /** File `k` is what the file below it was, if there was one. */
  predicate MovedUp(before: Files, after: Files, k: nat)
  {
    k >= 1 && (k - 1 in before <==> k in after) && (k in after ==> before[k - 1] == after[k])
  }

  /** The last file is replaced if there is one to replace it. */
  predicate LastMoved(before: Files, after: Files, k: nat)
  {
    k >= 1 && if k - 1 in before then MovedUp(before, after, k) else Stays(before, after, k)
  }

  /** Every file has moved up by one, and there is none at the path being written. A single file stays. */
  ghost predicate Rotated(before: Files, after: Files, maxFiles: nat)
    requires maxFiles >= 1
  {
    && (forall k: nat :: k >= maxFiles ==> Stays(before, after, k))
    && if maxFiles == 1 then Stays(before, after, 0)
       else
         && 0 !in after && LastMoved(before, after, maxFiles - 1)
         && forall k: nat :: 1 <= k < maxFiles - 1 ==> MovedUp(before, after, k)
  }

  /** The number of the file that becomes file `k` in a rotation. */
  function ComesFrom(files: Files, maxFiles: nat, k: nat): nat
  {
    if 1 <= k < maxFiles && (k < maxFiles - 1 || k - 1 in files) then k - 1 else k
  }

  /** The files after a rotation. */
  function RotatedOf(files: Files, maxFiles: nat): Files
    requires maxFiles >= 1
  {
    if maxFiles == 1 then files
    else
      var numbers := files.Keys + set j | j in files :: j + 1;
      map k: nat | k in numbers && k > 0 && ComesFrom(files, maxFiles, k) in files
                 :: files[ComesFrom(files, maxFiles, k)]
  }

  lemma RotatedAt(files: Files, maxFiles: nat, k: nat)
    requires maxFiles >= 2 && k > 0
    ensures k in RotatedOf(files, maxFiles) <==> ComesFrom(files, maxFiles, k) in files
    ensures k in RotatedOf(files, maxFiles) ==> RotatedOf(files, maxFiles)[k] == files[ComesFrom(files, maxFiles, k)]
  {
  }

  lemma RotatedOfIsRotated(files: Files, maxFiles: nat)
    requires maxFiles >= 1
    ensures Rotated(files, RotatedOf(files, maxFiles), maxFiles)
  {
    forall k: nat | k > 0 && maxFiles >= 2
      ensures k >= maxFiles ==> Stays(files, RotatedOf(files, maxFiles), k)
      ensures k < maxFiles - 1 ==> MovedUp(files, RotatedOf(files, maxFiles), k)
      ensures k == maxFiles - 1 ==> LastMoved(files, RotatedOf(files, maxFiles), k)
    {
      RotatedAt(files, maxFiles, k);
    }
  }

  /** A rotation has one result. */
  lemma RotatedIsUnique(before: Files, after: Files, maxFiles: nat)
    requires maxFiles >= 1 && Rotated(before, after, maxFiles)
    ensures after == RotatedOf(before, maxFiles)
  {
    if maxFiles == 1 {
      forall k: nat ensures Stays(before, after, k) {}
      assert forall k: nat :: k in after <==> k in before by {
        forall k: nat ensures k in after <==> k in before { assert Stays(before, after, k); }
      }
      forall k: nat | k in after ensures after[k] == before[k] { assert Stays(before, after, k); }
    } else {
      forall k: nat | k > 0
        ensures k in after <==> k in RotatedOf(before, maxFiles)
        ensures k in after ==> after[k] == RotatedOf(before, maxFiles)[k]
      {
        RotatedAt(before, maxFiles, k);
        if k >= maxFiles {
          assert Stays(before, after, k);
        } else if k < maxFiles - 1 {
          assert MovedUp(before, after, k);
        }
      }
    }
  }

  /** What a rotation gives up. */
  function Dropped(before: Files, maxFiles: nat): seq<Entry>
    requires maxFiles >= 1
  {
    if maxFiles >= 2 && maxFiles - 2 in before then Content(before, maxFiles - 1) else []
  }

  lemma {:induction false} KeptBelow(before: Files, after: Files, maxFiles: nat, k: nat)
    requires maxFiles >= 2 && Rotated(before, after, maxFiles) && k <= maxFiles - 2
    ensures Kept(after, k + 1) == Kept(before, k)
  {
    if k == 0 {
      assert Kept(after, 1) == Content(after, 0) + Kept(after, 0);
    } else {
      KeptBelow(before, after, maxFiles, k - 1);
      assert MovedUp(before, after, k);
    }
  }

  lemma LastContent(before: Files, after: Files, maxFiles: nat)
    requires maxFiles >= 2 && LastMoved(before, after, maxFiles - 1)
    ensures Content(before, maxFiles - 1) + Content(before, maxFiles - 2)
            == Dropped(before, maxFiles) + Content(after, maxFiles - 1)
  {
    if maxFiles - 2 !in before {
      assert Content(before, maxFiles - 1) + [] == [] + Content(after, maxFiles - 1);
    }
  }

  lemma Rejoined<T>(a: seq<T>, b: seq<T>, rest: seq<T>, c: seq<T>, d: seq<T>)
    requires a + b == c + d
    ensures a + (b + rest) == c + (d + rest)
  {
    Assoc(a, b, rest);
    Assoc(c, d, rest);
  }

  lemma KeptAfterMoving(before: Files, after: Files, n: nat, dropped: seq<Entry>)
    requires Kept(after, n + 1) == Kept(before, n)
    requires Content(before, n + 1) + Content(before, n) == dropped + Content(after, n + 1)
    ensures Kept(before, n + 2) == dropped + Kept(after, n + 2)
  {
    Rejoined(Content(before, n + 1), Content(before, n), Kept(before, n), dropped, Content(after, n + 1));
  }

  /** A rotation gives up the oldest file and nothing else. */
  lemma KeptAfterRotation(before: Files, after: Files, maxFiles: nat)
    requires maxFiles >= 1 && Rotated(before, after, maxFiles)
    ensures Kept(before, maxFiles) == Dropped(before, maxFiles) + Kept(after, maxFiles)
  {
    if maxFiles == 1 {
      assert Kept(before, 0) == Kept(after, 0);
    } else {
      LastContent(before, after, maxFiles);
      KeptBelow(before, after, maxFiles, maxFiles - 2);
      KeptAfterMoving(before, after, maxFiles - 2, Dropped(before, maxFiles));
    }
  }

  /** What is kept ends with the file being written. */
  lemma {:induction false} KeptEnds(before: Files, after: Files, n: nat) returns (rest: seq<Entry>)
    requires n >= 1 && forall k :: 0 < k < n ==> Content(before, k) == Content(after, k)
    ensures Kept(before, n) == rest + Content(before, 0) && Kept(after, n) == rest + Content(after, 0)
  {
    if n == 1 {
      rest := [];
      assert Kept(before, 1) == Content(before, 0) + [] && Kept(after, 1) == Content(after, 0) + [];
    } else {
      var more := KeptEnds(before, after, n - 1);
      rest := Content(before, n - 1) + more;
      Assoc(Content(before, n - 1), more, Content(before, 0));
      Assoc(Content(before, n - 1), more, Content(after, 0));
    }
  }

  /** Writing to the current path appends to what is kept. */
  lemma KeptAfterWrite(files: Files, maxFiles: nat, more: seq<Entry>)
    requires maxFiles >= 1
    ensures Kept(files[0 := Content(files, 0) + more], maxFiles) == Kept(files, maxFiles) + more
  {
    var after := files[0 := Content(files, 0) + more];
    var rest := KeptEnds(files, after, maxFiles);
    Assoc(rest, Content(files, 0), more);
  }

  function Size(entries: seq<Entry>): nat
  {
    if entries == [] then 0 else Size(entries[..|entries| - 1]) + entries[|entries| - 1].size
  }

  /** A file is within the bound, or holds a single record that is not. */
  predicate Fits(entries: seq<Entry>, maxBytes: nat) { Size(entries) <= maxBytes || |entries| == 1 }

  lemma {:induction false} SizeOf(a: seq<Entry>, b: seq<Entry>)
    ensures Size(a + b) == Size(a) + Size(b)
    decreases |b|
  {
    if b == [] {
      assert a + b == a;
    } else {
      assert (a + b)[..|a + b| - 1] == a + b[..|b| - 1];
      SizeOf(a, b[..|b| - 1]);
    }
  }

  lemma SizeOne(entry: Entry)
    ensures Size([entry]) == entry.size
  {
    assert [entry][..0] == [];
  }

  /** All kept files fit. */
  ghost predicate AllFit(files: Files, maxFiles: nat, maxBytes: nat)
  {
    forall k :: k in files && k < maxFiles ==> Fits(files[k], maxBytes)
  }

  lemma RotationFits(before: Files, after: Files, maxFiles: nat, maxBytes: nat)
    requires maxFiles >= 2 && Rotated(before, after, maxFiles) && AllFit(before, maxFiles, maxBytes)
    ensures AllFit(after, maxFiles, maxBytes)
  {
    forall k | k in after && k < maxFiles ensures Fits(after[k], maxBytes) {
      if 1 <= k < maxFiles - 1 {
        assert MovedUp(before, after, k);
      }
    }
  }
}
