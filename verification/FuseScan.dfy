/**
  * Reading Electron's fuse wire: the chunked search of `assertElectronRunAsNodeCapability` in
  * `apps/desktop/src/backend-runtime.ts`.
  */
module FuseScan {

  type Byte = b: int | 0 <= b < 256

  type Bytes = seq<Byte>

  /** `dL7pKGdnNz796PbbjQWNKmHXBZaB9tsX` in ASCII. */
  const SENTINEL: Bytes := [
    100, 76, 55, 112, 75, 71, 100, 110, 78, 122, 55, 57, 54, 80, 98, 98,
    106, 81, 87, 78, 75, 109, 72, 88, 66, 90, 97, 66, 57, 116, 115, 88]

  const CHUNK: nat := 128 * 1024

  /** The wire's third byte when RunAsNode is enabled, the character `1`. */
  const ENABLED: Byte := 49

  // ---------------------------------------------------------------- the whole-file specification

  predicate MatchAt(data: Bytes, sentinel: Bytes, i: int)
  {
    0 <= i && i + |sentinel| <= |data| && data[i..i + |sentinel|] == sentinel
  }

  /** Every position below `n` at which the sentinel starts in `data`, in order. */
  function Positions(data: Bytes, sentinel: Bytes, n: nat): seq<nat>
  {
    if n == 0 then []
    else if MatchAt(data, sentinel, n - 1) then Positions(data, sentinel, n - 1) + [n - 1]
    else Positions(data, sentinel, n - 1)
  }

  /** `Positions` lists exactly the matches, each once and in increasing order. */
  lemma {:induction false} PositionsAreMatches(data: Bytes, sentinel: Bytes, n: nat)
    ensures forall i: nat :: i < n && MatchAt(data, sentinel, i) ==> i in Positions(data, sentinel, n)
    ensures forall j :: 0 <= j < |Positions(data, sentinel, n)| ==>
              Positions(data, sentinel, n)[j] < n && MatchAt(data, sentinel, Positions(data, sentinel, n)[j])
    ensures forall j, k :: 0 <= j < k < |Positions(data, sentinel, n)| ==>
              Positions(data, sentinel, n)[j] < Positions(data, sentinel, n)[k]
  {
    if n == 0 {
    } else {
      PositionsAreMatches(data, sentinel, n - 1);
    }
  }

  /** The header after a sentinel that ends at `offset`, when a read of it returns `got` bytes. */
  predicate HeaderOk(file: Bytes, offset: int, got: nat)
  {
    && got == 3 && 0 <= offset && offset + 3 <= |file|
    && file[offset] == 1
    && file[offset + 1] >= 1
    && offset + 2 + file[offset + 1] <= |file|
    && file[offset + 2] == ENABLED
  }

  /** How the file answers reads: how much of a request it returns. Nothing else varies. */
  datatype Io = Io(chunk: nat -> nat, header: int -> nat)

  function Min(a: int, b: int): int { if a < b then a else b }

  /** What a read returns: no more than was asked for and than there is. */
  function Got(answer: nat, asked: nat, position: int, size: nat): (got: nat)
    ensures got <= asked
    ensures 0 <= position && got > 0 ==> position + got <= size
  {
    if position >= size then 0 else Min(answer, Min(asked, if position < 0 then 0 else size - position))
  }

  // ---------------------------------------------------------------- buffer operations

  /** Fill part of the buffer from the file; bytes past the ones read are whatever they were. */
  method Read(file: Bytes, buffer: array<Byte>, at: nat, asked: nat, position: nat, answer: nat) returns (got: nat)
    requires at + asked <= buffer.Length
    modifies buffer
    ensures got == Got(answer, asked, position, |file|)
    ensures got > 0 ==> position + got <= |file| && buffer[at..at + got] == file[position..position + got]
    ensures forall i :: 0 <= i < at ==> buffer[i] == old(buffer[i])
  {
    got := Got(answer, asked, position, |file|);
    for k := 0 to got
      invariant buffer[at..at + k] == if got > 0 then file[position..position + k] else []
      invariant forall i :: 0 <= i < at ==> buffer[i] == old(buffer[i])
    {
      buffer[at + k] := file[position + k];
      assert buffer[at..at + k + 1] == buffer[at..at + k] + [buffer[at + k]];
    }
  }

  /** The first position of the sentinel from `start` on in the whole buffer, or -1. */
  method IndexOf(buffer: array<Byte>, sentinel: Bytes, start: nat) returns (index: int)
    ensures index >= 0 ==> index >= start && MatchAt(buffer[..], sentinel, index)
    ensures forall i :: start <= i && (index >= 0 ==> i < index) ==> !MatchAt(buffer[..], sentinel, i)
  {
    index := start;
    while index + |sentinel| <= buffer.Length
      invariant start <= index
      invariant forall i :: start <= i < index ==> !MatchAt(buffer[..], sentinel, i)
    {
      if buffer[index..index + |sentinel|] == sentinel {
        assert buffer[..][index..index + |sentinel|] == buffer[index..index + |sentinel|];
        return;
      }
      assert buffer[..][index..index + |sentinel|] == buffer[index..index + |sentinel|];
      index := index + 1;
    }
    index := -1;
  }

  /** Move the last `n` of the first `end` bytes to the front, in place. */
  method Retain(buffer: array<Byte>, n: nat, end: nat)
    requires n <= end <= buffer.Length
    modifies buffer
    ensures buffer[..n] == old(buffer[end - n..end])
  {
    for k := 0 to n
      invariant forall i :: 0 <= i < k ==> buffer[i] == old(buffer[end - n + i])
      invariant forall i :: k <= i < buffer.Length ==> buffer[i] == old(buffer[i])
    {
      buffer[k] := buffer[end - n + k];
    }
  }

  // ---------------------------------------------------------------- windows of the file

  /** A match inside a window of the file is a match of the file, and no others are inside it. */
  lemma WindowMatch(file: Bytes, sentinel: Bytes, buffer: Bytes, start: nat, end: nat, index: nat)
    requires end <= |buffer| && start + end <= |file| && buffer[..end] == file[start..start + end]
    requires index + |sentinel| <= end
    ensures MatchAt(buffer, sentinel, index) <==> MatchAt(file, sentinel, start + index)
  {
    SliceOfSlice(buffer, 0, end, index, index + |sentinel|);
    SliceOfSlice(file, start, start + end, index, index + |sentinel|);
    assert buffer[0..end] == buffer[..end];
  }

  lemma SliceOfSlice(s: Bytes, a: nat, b: nat, c: nat, d: nat)
    requires a <= b <= |s| && c <= d <= b - a
    ensures s[a..b][c..d] == s[a + c..a + d]
  {
    forall k | 0 <= k < d - c ensures s[a..b][c..d][k] == s[a + c..a + d][k] {}
  }

  lemma PositionsStep(data: Bytes, sentinel: Bytes, i: nat)
    requires MatchAt(data, sentinel, i)
    ensures Positions(data, sentinel, i + 1) == Positions(data, sentinel, i) + [i]
  {
  }

  lemma {:induction false} PositionsGap(data: Bytes, sentinel: Bytes, m: nat, n: nat)
    requires m <= n && forall i :: m <= i < n ==> !MatchAt(data, sentinel, i)
    ensures Positions(data, sentinel, n) == Positions(data, sentinel, m)
    decreases n
  {
    if m == n {
    } else {
      PositionsGap(data, sentinel, m, n - 1);
    }
  }

  // ---------------------------------------------------------------- the scan

  /** A scan ends with every position checked, at the first bad header, or without any sentinel. */
  datatype Verdict = Enabled | BadHeader(position: nat) | NoSentinel

  /** How many bytes the scan sees: all of them, unless a read returns nothing before the end. */
  function Seen(file: Bytes, io: Io, chunk: nat, position: nat): (n: nat)
    requires position <= |file|
    ensures position <= n <= |file|
    ensures (forall p: nat :: io.chunk(p) > 0) && chunk > 0 ==> n == |file|
    decreases |file| - position
  {
    var got := Got(io.chunk(position), chunk, position, |file|);
    if got == 0 then position else Seen(file, io, chunk, position + got)
  }

  /** The number of positions at which a sentinel of this length fits into the first `n` bytes. */
  function Starts(n: nat, sentinel: Bytes): nat { if n < |sentinel| then 0 else n - |sentinel| + 1 }

  /** The header check of a sentinel at position `i`. */
  predicate GoodAt(file: Bytes, sentinel: Bytes, io: Io, i: int)
  {
    HeaderOk(file, i + |sentinel|, Got(io.header(i + |sentinel|), 3, i + |sentinel|, |file|))
  }

  /**
    * The next match in the buffer from `n` on, seen as a position of the file. The search runs over the
    * whole buffer, so it may also find stale bytes past `end`; such a match ends the window.
    */
  method NextMatch(file: Bytes, sentinel: Bytes, buffer: array<Byte>, start: nat, end: nat, n: nat) returns (index: int)
    requires |sentinel| > 0 && end <= buffer.Length && start + end <= |file|
    requires buffer[..end] == file[start..start + end] && n <= Starts(end, sentinel)
    ensures if index >= 0 && index + |sentinel| <= end then
              && n <= index && MatchAt(file, sentinel, start + index)
              && Positions(file, sentinel, start + index) == Positions(file, sentinel, start + n)
            else
              Positions(file, sentinel, start + Starts(end, sentinel)) == Positions(file, sentinel, start + n)
  {
    index := IndexOf(buffer, sentinel, n);
    ghost var all := buffer[..];
    assert all[..end] == buffer[..end];
    var upTo := if index >= 0 && index + |sentinel| <= end then index else Starts(end, sentinel);
    NoMatchBetween(file, sentinel, all, start, end, n, upTo);
    PositionsGap(file, sentinel, start + n, start + upTo);
    if index >= 0 && index + |sentinel| <= end {
      WindowMatch(file, sentinel, all, start, end, index);
    }
  }

  /** Check the sentinels inside the window `buffer[..end]`, which shows the file from `start` on. */
  method CheckWindow(file: Bytes, sentinel: Bytes, io: Io, buffer: array<Byte>, start: nat, end: nat,
                     checked: seq<nat>) returns (checked': seq<nat>, bad: bool)
    requires |sentinel| > 0 && end <= buffer.Length && start + end <= |file|
    requires buffer[..end] == file[start..start + end]
    requires checked == Positions(file, sentinel, start) && AllGood(file, sentinel, io, checked)
    ensures !bad ==>
              && checked' == Positions(file, sentinel, start + Starts(end, sentinel))
              && AllGood(file, sentinel, io, checked')
    ensures bad ==> BadLast(file, sentinel, io, checked', start + end)
  {
    checked' := checked;
    var n, done := 0, false;
    while !done
      invariant n <= Starts(end, sentinel) && (done ==> n == Starts(end, sentinel))
      invariant checked' == Positions(file, sentinel, start + n)
      invariant AllGood(file, sentinel, io, checked')
      decreases !done, end - n
    {
      n, checked', done, bad := CheckNext(file, sentinel, io, buffer, start, end, n, checked');
      if bad {
        return;
      }
    }
    bad := false;
  }

  /** Check the next sentinel in the window from `n` on, or see that there is none. */
  method CheckNext(file: Bytes, sentinel: Bytes, io: Io, buffer: array<Byte>, start: nat, end: nat, n: nat,
                   checked: seq<nat>) returns (n': nat, checked': seq<nat>, done: bool, bad: bool)
    requires |sentinel| > 0 && end <= buffer.Length && start + end <= |file|
    requires buffer[..end] == file[start..start + end] && n <= Starts(end, sentinel)
    requires checked == Positions(file, sentinel, start + n) && AllGood(file, sentinel, io, checked)
    ensures !bad ==>
              && n <= n' <= Starts(end, sentinel) && (if done then n' == Starts(end, sentinel) else n < n')
              && checked' == Positions(file, sentinel, start + n') && AllGood(file, sentinel, io, checked')
    ensures bad ==> BadLast(file, sentinel, io, checked', start + end)
  {
    var index := NextMatch(file, sentinel, buffer, start, end, n);
    if !(index >= 0 && index + |sentinel| <= end) {
      return Starts(end, sentinel), checked, true, false;
    }
    var p: nat := start + index;
    PositionsStep(file, sentinel, p);
    AllGoodMore(file, sentinel, io, checked, p);
    n', checked', done, bad := index + 1, checked + [p], false, !GoodAt(file, sentinel, io, p);
  }

  predicate AllGood(file: Bytes, sentinel: Bytes, io: Io, checked: seq<nat>)
  {
    forall k :: 0 <= k < |checked| ==> GoodAt(file, sentinel, io, checked[k])
  }

  lemma AllGoodMore(file: Bytes, sentinel: Bytes, io: Io, checked: seq<nat>, p: nat)
    requires AllGood(file, sentinel, io, checked)
    ensures AllGood(file, sentinel, io, checked + [p]) <==> GoodAt(file, sentinel, io, p)
    ensures (checked + [p])[..|checked|] == checked
  {
    assert (checked + [p])[|checked|] == p;
  }

  /** All positions up to a bad one have been checked, and only that one is bad. */
  predicate BadLast(file: Bytes, sentinel: Bytes, io: Io, checked: seq<nat>, seen: nat)
  {
    && checked != []
    && var p := checked[|checked| - 1];
       && checked == Positions(file, sentinel, p + 1)
       && MatchAt(file, sentinel, p) && p + |sentinel| <= seen
       && !GoodAt(file, sentinel, io, p)
       && AllGood(file, sentinel, io, checked[..|checked| - 1])
  }

  lemma NoMatchBetween(file: Bytes, sentinel: Bytes, buffer: Bytes, start: nat, end: nat, lo: nat, hi: nat)
    requires end <= |buffer| && start + end <= |file| && buffer[..end] == file[start..start + end]
    requires lo <= hi <= Starts(end, sentinel) && |sentinel| > 0
    requires forall i :: lo <= i < hi ==> !MatchAt(buffer, sentinel, i)
    ensures forall i :: start + lo <= i < start + hi ==> !MatchAt(file, sentinel, i)
  {
    forall i | start + lo <= i < start + hi ensures !MatchAt(file, sentinel, i) {
      WindowMatch(file, sentinel, buffer, start, end, i - start);
    }
  }

  /**
    * The scan, for any sentinel and chunk size. Each position of the sentinel in the part of the file it
    * sees is checked once and in order, up to the first bad one.
    */
  method Scan(file: Bytes, sentinel: Bytes, chunk: nat, io: Io) returns (verdict: Verdict, checked: seq<nat>)
    requires |sentinel| > 0
    ensures var seen := Seen(file, io, chunk, 0);
            var all := Positions(file, sentinel, Starts(seen, sentinel));
            match verdict
            case Enabled => checked == all != [] && AllGood(file, sentinel, io, all)
            case NoSentinel => checked == all == []
            case BadHeader(p) => BadLast(file, sentinel, io, checked, seen) && p == checked[|checked| - 1]
  {
    var buffer := new Byte[chunk + |sentinel| - 1];
    checked := [];
    var position, retained := 0, 0;
    while position < |file|
      invariant 0 <= position <= |file| && fresh(buffer) && buffer.Length == chunk + |sentinel| - 1
      invariant Seen(file, io, chunk, position) == Seen(file, io, chunk, 0)
      invariant Holds(file, sentinel, io, buffer[..], position, retained, checked)
      decreases |file| - position
    {
      var count, bad;
      count, retained, checked, bad := ScanChunk(file, sentinel, chunk, io, buffer, position, retained, checked);
      if count == 0 {
        break;
      }
      if bad {
        return BadHeader(checked[|checked| - 1]), checked;
      }
      position := position + count;
    }
    verdict := if checked == [] then NoSentinel else Enabled;
  }

  /** Between chunks: the last bytes seen are at the front, and all sentinels seen whole are checked. */
  predicate Holds(file: Bytes, sentinel: Bytes, io: Io, buffer: Bytes, position: nat, retained: nat, checked: seq<nat>)
  {
    && |sentinel| > 0 && position <= |file|
    && retained == Min(|sentinel| - 1, position) && retained <= |buffer|
    && buffer[..retained] == file[position - retained..position]
    && checked == Positions(file, sentinel, Starts(position, sentinel))
    && AllGood(file, sentinel, io, checked)
  }

  /** Read a chunk behind the retained bytes: together they show a window of the file. */
  method ReadBehind(file: Bytes, buffer: array<Byte>, chunk: nat, position: nat, retained: nat, answer: nat)
    returns (count: nat)
    requires retained + chunk <= buffer.Length && retained <= position < |file|
    requires buffer[..retained] == file[position - retained..position]
    modifies buffer
    ensures count == Got(answer, chunk, position, |file|)
    ensures position + count <= |file| && buffer[..retained + count] == file[position - retained..position + count]
  {
    count := Read(file, buffer, retained, chunk, position, answer);
    if count == 0 {
      assert buffer[..retained] == old(buffer[..retained]);
    } else {
      Window(file, buffer[..], old(buffer[..]), position, retained, count);
    }
  }

  /** One turn of the loop: read a chunk behind the retained bytes, check the window, retain its end. */
  method ScanChunk(file: Bytes, sentinel: Bytes, chunk: nat, io: Io, buffer: array<Byte>,
                   position: nat, retained: nat, checked: seq<nat>)
    returns (count: nat, retained': nat, checked': seq<nat>, bad: bool)
    requires buffer.Length == chunk + |sentinel| - 1 && position < |file|
    requires Holds(file, sentinel, io, buffer[..], position, retained, checked)
    modifies buffer
    ensures count == Got(io.chunk(position), chunk, position, |file|)
    ensures count == 0 ==> checked' == checked && !bad
    ensures count > 0 && !bad ==> Holds(file, sentinel, io, buffer[..], position + count, retained', checked')
    ensures bad ==> count > 0 && BadLast(file, sentinel, io, checked', position + count)
  {
    count := ReadBehind(file, buffer, chunk, position, retained, io.chunk(position));
    if count == 0 {
      return 0, retained, checked, false;
    }
    var start, end := position - retained, retained + count;
    assert start == Starts(position, sentinel);
    checked', bad := CheckWindow(file, sentinel, io, buffer, start, end, checked);
    if bad {
      return count, retained, checked', true;
    }
    assert start == 0 || |sentinel| <= end;
    retained' := Slide(file, sentinel, io, buffer, start, end, checked');
  }

  /** A checked window moves on: its end becomes the front of the buffer. */
  method Slide(file: Bytes, sentinel: Bytes, io: Io, buffer: array<Byte>, start: nat, end: nat, checked: seq<nat>)
    returns (retained: nat)
    requires |sentinel| > 0 && end <= buffer.Length && start + end <= |file| && (start == 0 || |sentinel| <= end)
    requires buffer[..end] == file[start..start + end]
    requires checked == Positions(file, sentinel, start + Starts(end, sentinel)) && AllGood(file, sentinel, io, checked)
    modifies buffer
    ensures Holds(file, sentinel, io, buffer[..], start + end, retained, checked)
  {
    retained := Min(|sentinel| - 1, end);
    RetainWindow(file, buffer, start, end, retained);
    assert buffer[..][..retained] == buffer[..retained];
    assert start + Starts(end, sentinel) == Starts(start + end, sentinel);
  }

  /** Keep the end of the window: the front of the buffer then shows the last bytes seen. */
  method RetainWindow(file: Bytes, buffer: array<Byte>, start: nat, end: nat, n: nat)
    requires n <= end <= buffer.Length && start + end <= |file| && buffer[..end] == file[start..start + end]
    modifies buffer
    ensures buffer[..n] == file[start + end - n..start + end]
  {
    ghost var window := buffer[..];
    assert window[..end] == buffer[..end] && window[end - n..end] == buffer[end - n..end];
    RetainedIsFile(file, window, start, end, n);
    Retain(buffer, n, end);
  }

  lemma RetainedIsFile(file: Bytes, window: Bytes, start: nat, end: nat, n: nat)
    requires n <= end <= |window| && start + end <= |file| && window[..end] == file[start..start + end]
    ensures window[end - n..end] == file[start + end - n..start + end]
  {
    SliceOfSlice(window, 0, end, end - n, end);
    SliceOfSlice(file, start, start + end, end - n, end);
    assert window[0..end] == window[..end];
  }

  /** The retained bytes and the new ones make one window of the file. */
  lemma Window(file: Bytes, buffer: Bytes, was: Bytes, position: nat, retained: nat, count: nat)
    requires retained <= position && position + count <= |file| && retained + count <= |buffer| == |was|
    requires was[..retained] == file[position - retained..position]
    requires forall i :: 0 <= i < retained ==> buffer[i] == was[i]
    requires buffer[retained..retained + count] == file[position..position + count]
    ensures buffer[..retained + count] == file[position - retained..position + count]
  {
    assert buffer[..retained] == was[..retained];
    assert buffer[..retained + count] == buffer[..retained] + buffer[retained..retained + count];
    assert file[position - retained..position + count]
        == file[position - retained..position] + file[position..position + count];
  }

  /** What the whole file should look like: a sentinel, and an enabled header behind every one. */
  predicate RunsAsNode(file: Bytes)
  {
    && (exists i :: 0 <= i <= |file| && MatchAt(file, SENTINEL, i))
    && forall i :: 0 <= i <= |file| && MatchAt(file, SENTINEL, i) ==> HeaderOk(file, i + |SENTINEL|, 3)
  }

  /**
    * With the constants of the code: the check succeeds exactly when the part of the file it sees holds a
    * sentinel and each one there is followed by a header it reads as enabled. If no read comes back empty
    * before the end and header reads are full, that is said of the whole file.
    */
  method AssertRunAsNode(file: Bytes, io: Io) returns (ok: bool)
    ensures var sees := Starts(Seen(file, io, CHUNK, 0), SENTINEL);
            ok <==> (exists i :: 0 <= i < sees && MatchAt(file, SENTINEL, i))
                    && forall i :: 0 <= i < sees && MatchAt(file, SENTINEL, i) ==> GoodAt(file, SENTINEL, io, i)
    ensures (forall p: nat :: io.chunk(p) > 0) && (forall p: int :: io.header(p) >= 3) ==> (ok <==> RunsAsNode(file))
  {
    var verdict, checked := Scan(file, SENTINEL, CHUNK, io);
    ok := verdict == Enabled;
    ghost var sees := Starts(Seen(file, io, CHUNK, 0), SENTINEL);
    PositionsAreMatches(file, SENTINEL, sees);
    if verdict.BadHeader? {
      BadIsSeen(file, io, checked, Seen(file, io, CHUNK, 0));
    }
    WholeFile(file, io);
  }

  lemma BadIsSeen(file: Bytes, io: Io, checked: seq<nat>, seen: nat)
    requires BadLast(file, SENTINEL, io, checked, seen)
    ensures exists i :: 0 <= i < Starts(seen, SENTINEL) && MatchAt(file, SENTINEL, i) && !GoodAt(file, SENTINEL, io, i)
  {
    var p := checked[|checked| - 1];
    assert p < Starts(seen, SENTINEL) && MatchAt(file, SENTINEL, p);
  }

  /** With full reads, what is seen is the whole file. */
  lemma WholeFile(file: Bytes, io: Io)
    ensures (forall p: nat :: io.chunk(p) > 0) && (forall p: int :: io.header(p) >= 3) ==>
              var sees := Starts(Seen(file, io, CHUNK, 0), SENTINEL);
              RunsAsNode(file) <==>
              (exists i :: 0 <= i < sees && MatchAt(file, SENTINEL, i))
              && forall i :: 0 <= i < sees && MatchAt(file, SENTINEL, i) ==> GoodAt(file, SENTINEL, io, i)
  {
    var sees := Starts(Seen(file, io, CHUNK, 0), SENTINEL);
    if (forall p: nat :: io.chunk(p) > 0) && (forall p: int :: io.header(p) >= 3) {
      forall i: int | MatchAt(file, SENTINEL, i)
        ensures 0 <= i < sees && i <= |file|
        ensures GoodAt(file, SENTINEL, io, i) <==> HeaderOk(file, i + |SENTINEL|, 3)
      {
      }
    }
  }
}
