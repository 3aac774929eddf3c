/**
  * What an enabled file looks like: the fuse wire behind a sentinel, as `apps/desktop/src/backend-runtime.ts`
  * reads it, told of files that are put together.
  */
module FuseWire {
  import opened FuseScan

  /** The sentinel as text. */
  const SENTINEL_TEXT := "dL7pKGdnNz796PbbjQWNKmHXBZaB9tsX"

  lemma SentinelIsText()
    ensures |SENTINEL| == |SENTINEL_TEXT|
    ensures forall i :: 0 <= i < |SENTINEL| ==> SENTINEL[i] == SENTINEL_TEXT[i] as int
  {
  }

  /** A version 1 wire: the version, the number of states, and that many states. */
  function Wire(states: Bytes): Bytes
    requires |states| < 256
  {
    [1, |states|] + states
  }

  /** The bytes begin with a whole wire whose first state, RunAsNode, is the character `1`. */
  ghost predicate BeginsEnabled(after: Bytes)
  {
    exists states: Bytes :: 0 < |states| < 256 && states[0] == '1' as int && Wire(states) <= after
  }

  /** Which bytes are accepted behind a sentinel: version 1, a size that fits, and a first state `1`. */
  lemma HeaderBytes(before: Bytes, version: Byte, size: Byte, state: Byte, rest: Bytes)
    ensures HeaderOk(before + ([version, size, state] + rest), |before|, 3) <==>
            version == 1 && 1 <= size <= 1 + |rest| && state == '1' as int
  {
    var after := [version, size, state] + rest;
    var file := before + after;
    assert file[|before|] == after[0] && file[|before| + 1] == after[1] && file[|before| + 2] == after[2];
  }

  /** A header is accepted exactly if it was read in full and a whole enabled wire is there. */
  lemma HeaderIffWire(before: Bytes, after: Bytes, got: nat)
    ensures HeaderOk(before + after, |before|, got) <==> got == 3 && BeginsEnabled(after)
  {
    var file := before + after;
    if |after| >= 3 {
      assert after == [after[0], after[1], after[2]] + after[3..];
      HeaderBytes(before, after[0], after[1], after[2], after[3..]);
    }
    if HeaderOk(file, |before|, got) {
      var states := after[2..2 + after[1]];
      assert Wire(states) == after[..2 + |states|];
      assert BeginsEnabled(after);
    }
    if got == 3 && BeginsEnabled(after) {
      var states: Bytes :| 0 < |states| < 256 && states[0] == '1' as int && Wire(states) <= after;
      assert after[0] == Wire(states)[0] && after[1] == Wire(states)[1] && after[2] == Wire(states)[2];
    }
  }

  /** The file is these bytes, a sentinel, and those bytes. */
  predicate Splits(file: Bytes, before: Bytes, after: Bytes) { file == before + SENTINEL + after }

  lemma SplitIsMatch(file: Bytes, before: Bytes, after: Bytes)
    requires Splits(file, before, after)
    ensures MatchAt(file, SENTINEL, |before|)
    ensures HeaderOk(file, |before| + |SENTINEL|, 3) <==> BeginsEnabled(after)
  {
    assert file[|before|..|before| + |SENTINEL|] == SENTINEL;
    HeaderIffWire(before + SENTINEL, after, 3);
  }

  lemma MatchIsSplit(file: Bytes, i: nat)
    requires MatchAt(file, SENTINEL, i)
    ensures Splits(file, file[..i], file[i + |SENTINEL|..])
  {
    assert file == file[..i] + file[i..i + |SENTINEL|] + file[i + |SENTINEL|..];
  }

  lemma BadMatch(file: Bytes)
    requires !RunsAsNode(file) && exists i :: 0 <= i <= |file| && MatchAt(file, SENTINEL, i)
    ensures exists before, after :: Splits(file, before, after) && !BeginsEnabled(after)
  {
    var i: nat :| i <= |file| && MatchAt(file, SENTINEL, i) && !HeaderOk(file, i + |SENTINEL|, 3);
    MatchIsSplit(file, i);
    SplitIsMatch(file, file[..i], file[i + |SENTINEL|..]);
  }

  /**
    * The whole file: a sentinel stands in it, and behind every sentinel an enabled wire begins, however
    * the file is taken apart.
    */
  lemma RunsAsNodeIff(file: Bytes)
    ensures RunsAsNode(file) <==>
            && (exists before, after :: Splits(file, before, after))
            && (forall before, after :: Splits(file, before, after) ==> BeginsEnabled(after))
  {
    if RunsAsNode(file) {
      var i: nat :| i <= |file| && MatchAt(file, SENTINEL, i);
      MatchIsSplit(file, i);
      forall before, after | Splits(file, before, after) ensures BeginsEnabled(after) {
        SplitIsMatch(file, before, after);
      }
    } else if exists before, after :: Splits(file, before, after) {
      var before, after :| Splits(file, before, after);
      SplitIsMatch(file, before, after);
      BadMatch(file);
    }
  }

  /** A file with one sentinel in it: the three bytes behind it decide. */
  lemma OneSentinel(before: Bytes, version: Byte, size: Byte, state: Byte, rest: Bytes)
    requires var file := before + SENTINEL + ([version, size, state] + rest);
             forall i :: MatchAt(file, SENTINEL, i) ==> i == |before|
    ensures RunsAsNode(before + SENTINEL + ([version, size, state] + rest)) <==>
            version == 1 && 1 <= size <= 1 + |rest| && state == '1' as int
  {
    SplitIsMatch(before + SENTINEL + ([version, size, state] + rest), before, [version, size, state] + rest);
    HeaderBytes(before + SENTINEL, version, size, state, rest);
  }
}
