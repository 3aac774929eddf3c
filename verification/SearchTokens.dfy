/** The search terms of `apps/docs/.vitepress/config.ts`. */
module SearchTokens {
  import T = Text

  /** `Script` are Chinese, Japanese and Korean characters; `Separator` are line ends, spaces and punctuation. */
  datatype Kind = Script | Separator | Letter

  datatype Char = Char(code: nat, kind: Kind)

  type Str = seq<Char>

  const PIECE := 4

  predicate AllScript(s: Str) { forall c :: c in s ==> c.kind == Script }

  /** Where the first character of this sort, or of no other sort, is from `i` on. */
  function Next(text: Str, i: nat, script: bool): (j: nat)
    requires i <= |text|
    ensures i <= j <= |text|
    ensures forall k :: i <= k < j ==> (text[k].kind == Script) != script
    ensures j < |text| ==> (text[j].kind == Script) == script
    decreases |text| - i
  {
    if i == |text| || (text[i].kind == Script) == script then i else Next(text, i + 1, script)
  }

  function Words(part: Str): seq<Str>
    decreases |part|
  {
    if part == [] then []
    else if part[0].kind == Separator then Words(part[1..])
    else
      var end := WordEnd(part, 1);
      [part[..end]] + Words(part[end..])
  }

  function WordEnd(part: Str, i: nat): (j: nat)
    requires i <= |part|
    ensures i <= j <= |part|
    decreases |part| - i
  {
    if i == |part| || part[i].kind == Separator then i else WordEnd(part, i + 1)
  }

  predicate IsWord(word: Str) { word != [] && forall c :: c in word ==> c.kind != Separator }

  lemma {:induction false} WordEndAt(word: Str, rest: Str, i: nat)
    requires IsWord(word) && i <= |word| && (rest == [] || rest[0].kind == Separator)
    ensures WordEnd(word + rest, i) == |word|
    decreases |word| - i
  {
    if i < |word| {
      assert (word + rest)[i] == word[i] && word[i] in word;
      WordEndAt(word, rest, i + 1);
    }
  }

  /** A word goes on up to the next separator, and is whole; a separator is skipped. */
  lemma WordsOf(word: Str, rest: Str)
    requires IsWord(word) && (rest == [] || rest[0].kind == Separator)
    ensures Words(word + rest) == [word] + Words(rest)
    ensures rest != [] ==> Words(rest) == Words(rest[1..])
    ensures Words([]) == []
  {
    assert (word + rest)[0] == word[0] && word[0] in word;
    WordEndAt(word, rest, 1);
    assert (word + rest)[..|word|] == word && (word + rest)[|word|..] == rest;
  }

  function WithoutSeparators(s: Str): Str
  {
    if s == [] then [] else (if s[0].kind == Separator then [] else [s[0]]) + WithoutSeparators(s[1..])
  }

  lemma {:induction false} WithoutSeparatorsAppend(a: Str, b: Str)
    ensures WithoutSeparators(a + b) == WithoutSeparators(a) + WithoutSeparators(b)
  {
    if a == [] {
      assert a + b == b;
    } else {
      WithoutSeparatorsAppend(a[1..], b);
      assert (a + b)[1..] == a[1..] + b && (a + b)[0] == a[0];
      T.Assoc(if a[0].kind == Separator then [] else [a[0]], WithoutSeparators(a[1..]), WithoutSeparators(b));
    }
  }

  lemma {:induction false} WordHasNone(word: Str)
    requires forall c :: c in word ==> c.kind != Separator
    ensures WithoutSeparators(word) == word
  {
    if word == [] {
    } else {
      WordHasNone(word[1..]);
      assert word == [word[0]] + word[1..];
    }
  }

  lemma {:induction false} WordEndStops(part: Str, i: nat)
    requires i <= |part|
    ensures forall k :: i <= k < WordEnd(part, i) ==> part[k].kind != Separator
    ensures WordEnd(part, i) < |part| ==> part[WordEnd(part, i)].kind == Separator
    decreases |part| - i
  {
    if i == |part| || part[i].kind == Separator {
    } else {
      WordEndStops(part, i + 1);
    }
  }

  /** The words of a text are all of it but the separators, none of them empty. */
  lemma {:induction false} WordsAreTheRest(part: Str)
    ensures forall word :: word in Words(part) ==> word != [] && forall c :: c in word ==> c.kind != Separator
    ensures Joined(Words(part)) == WithoutSeparators(part)
    decreases |part|
  {
    if part != [] && part[0].kind == Separator {
      WordsAreTheRest(part[1..]);
    } else if part != [] {
      var end := WordEnd(part, 1);
      WordEndStops(part, 1);
      WordsAreTheRest(part[end..]);
      var word, more := part[..end], Words(part[end..]);
      assert forall k :: 0 <= k < end ==> part[k].kind != Separator;
      WordHasNone(word);
      WithoutSeparatorsAppend(word, part[end..]);
      assert part == word + part[end..];
      assert ([word] + more)[1..] == more;
    }
  }

  function Cut(run: Str, start: nat): (piece: Str)
    requires start < |run|
    ensures piece != [] && |piece| <= PIECE
  {
    run[start..if start + PIECE < |run| then start + PIECE else |run|]
  }

  /** The pieces of a run that begin at every `step`-th character. */
  function Pieces(run: Str, start: nat, step: nat): seq<Str>
    requires step > 0
    decreases |run| - start
  {
    if start >= |run| then [] else [Cut(run, start)] + Pieces(run, start + step, step)
  }

  /** The terms of a text from `rest` on: words outside runs, and pieces of runs. */
  function Terms(text: Str, rest: nat, step: nat): seq<Str>
    requires rest <= |text| && step > 0
    decreases |text| - rest
  {
    var i := Next(text, rest, true);
    if i == |text| then Words(text[rest..])
    else
      var end := Next(text, i, false);
      Words(text[rest..i]) + (Pieces(text[i..end], 0, step) + Terms(text, end, step))
  }

  function Index(text: Str): seq<Str> { Terms(text, 0, 1) }

  function Query(text: Str): seq<Str> { Terms(text, 0, PIECE) }

  /** Both tokenizers: `index` steps by one character, `query` by a whole piece. */
  method Tokenize(text: Str, step: nat) returns (terms: seq<Str>)
    requires step > 0
    ensures terms == Terms(text, 0, step)
  {
    terms := [];
    var rest := 0;
    var i := Next(text, 0, true);
    while i < |text|
      invariant rest <= |text| && i == Next(text, rest, true)
      invariant terms + Terms(text, rest, step) == Terms(text, 0, step)
      decreases |text| - rest
    {
      var end := Next(text, i, false);
      var chars := text[i..end];
      var words := Words(text[rest..i]);
      T.Assoc(terms, words, Pieces(chars, 0, step) + Terms(text, end, step));
      terms := terms + words;
      T.Assoc(terms, Pieces(chars, 0, step), Terms(text, end, step));
      ghost var all := terms + Pieces(chars, 0, step);
      var start := 0;
      while start < |chars|
        invariant terms + Pieces(chars, start, step) == all
        decreases |chars| - start
      {
        T.Assoc(terms, [Cut(chars, start)], Pieces(chars, start + step, step));
        terms := terms + [Cut(chars, start)];
        start := start + step;
      }
      assert terms + [] == terms;
      rest := end;
      i := Next(text, rest, true);
    }
    terms := terms + Words(text[rest..]);
  }

  function Joined(pieces: seq<Str>): Str
  {
    if pieces == [] then [] else pieces[0] + Joined(pieces[1..])
  }

  lemma {:induction false} PiecesJoin(run: Str, start: nat)
    requires start <= |run|
    ensures Joined(Pieces(run, start, PIECE)) == run[start..]
    decreases |run| - start
  {
    if start >= |run| {
    } else {
      var piece, more := Cut(run, start), Pieces(run, start + PIECE, PIECE);
      assert ([piece] + more)[1..] == more;
      if start + PIECE < |run| {
        PiecesJoin(run, start + PIECE);
        assert run[start..] == run[start..start + PIECE] + run[start + PIECE..];
      } else {
        assert more == [] && piece == run[start..];
        assert piece + [] == piece;
      }
    }
  }

  /** A piece is where it was cut from. */
  lemma {:induction false} PieceAt(run: Str, start: nat, step: nat, piece: Str) returns (at: nat)
    requires step > 0 && piece in Pieces(run, start, step)
    ensures start <= at < |run| && piece == Cut(run, at)
    decreases |run| - start
  {
    if piece == Cut(run, start) {
      at := start;
    } else {
      at := PieceAt(run, start + step, step, piece);
    }
  }

  lemma {:induction false} EveryPiece(run: Str, start: nat, at: nat)
    requires start <= at < |run|
    ensures Cut(run, at) in Pieces(run, start, 1)
    decreases |run| - start
  {
    if start == at {
    } else {
      EveryPiece(run, start + 1, at);
    }
  }

  lemma {:induction false} NextStays(text: Str, i: nat, j: nat, script: bool)
    requires i <= j <= |text| && forall k :: i <= k < j ==> (text[k].kind == Script) != script
    ensures Next(text, i, script) == Next(text, j, script)
    decreases j - i
  {
    if i == j {
    } else {
      NextStays(text, i + 1, j, script);
    }
  }

  lemma SliceOfSlice(s: Str, i: nat, j: nat, k: nat, l: nat)
    requires i <= j <= |s| && k <= l <= j - i
    ensures s[i..j][k..l] == s[i + k..i + l]
  {
    forall m | 0 <= m < l - k ensures s[i..j][k..l][m] == s[i + k..i + l][m] {}
  }

  lemma LongerSlice(s: Str, i: nat, j: nat, k: nat)
    requires i <= j <= k <= |s|
    ensures s[i..j] <= s[i..k]
  {
  }

  /** The piece that begins at a character of a run: up to four characters, within the run. */
  function PieceFrom(text: Str, p: nat): Str
    requires p < |text|
  {
    var end := Next(text, p, false);
    text[p..if p + PIECE < end then p + PIECE else end]
  }

  lemma PieceOfRun(text: Str, i: nat, p: nat)
    requires i <= p < |text| && text[p].kind == Script && p < Next(text, i, false)
    ensures PieceFrom(text, p) in Pieces(text[i..Next(text, i, false)], 0, 1)
  {
    var end := Next(text, i, false);
    var run := text[i..end];
    NextStays(text, i, p, false);
    EveryPiece(run, 0, p - i);
    SliceOfSlice(text, i, end, p - i, if p - i + PIECE < |run| then p - i + PIECE else |run|);
  }

  /** The index has, for every character of a run, the piece that begins there. */
  lemma {:induction false} IndexHas(text: Str, rest: nat, p: nat)
    requires rest <= p < |text| && text[p].kind == Script
    ensures PieceFrom(text, p) in Terms(text, rest, 1)
    decreases |text| - rest
  {
    var i := Next(text, rest, true);
    assert i <= p;
    var end := Next(text, i, false);
    if p < end {
      PieceOfRun(text, i, p);
    } else {
      IndexHas(text, end, p);
    }
  }

  /** A query within one script is its pieces. */
  lemma QueryOfRun(s: Str)
    requires s != [] && AllScript(s)
    ensures Query(s) == Pieces(s, 0, PIECE)
  {
    assert s[0] in s && forall k :: 0 <= k < |s| ==> s[k] in s;
    NextStays(s, 0, |s|, false);
    assert s[0..0] == [] && s[0..|s|] == s && s[|s|..] == [];
    assert Terms(s, |s|, PIECE) == [];
    assert Pieces(s, 0, PIECE) + [] == Pieces(s, 0, PIECE);
    assert [] + Pieces(s, 0, PIECE) == Pieces(s, 0, PIECE);
  }

  lemma RunGoesOn(text: Str, i: nat, j: nat, p: nat)
    requires i <= p < j <= |text| && AllScript(text[i..j])
    ensures text[p].kind == Script && j <= Next(text, p, false)
  {
    assert forall k :: i <= k < j ==> text[k] == text[i..j][k - i] && text[k] in text[i..j];
    NextStays(text, p, j, false);
  }

  lemma PieceReaches(text: Str, p: nat, q: nat)
    requires p < |text| && p <= q <= p + PIECE && q <= Next(text, p, false)
    ensures text[p..q] <= PieceFrom(text, p)
  {
    LongerSlice(text, p, q, p + |PieceFrom(text, p)|);
  }

  lemma TermIsFound(text: Str, i: nat, j: nat, term: Str) returns (found: Str)
    requires i < j <= |text| && AllScript(text[i..j]) && term in Pieces(text[i..j], 0, PIECE)
    ensures found in Index(text) && term <= found
  {
    var s := text[i..j];
    var at := PieceAt(s, 0, PIECE, term);
    var p := i + at;
    RunGoesOn(text, i, j, p);
    IndexHas(text, 0, p);
    found := PieceFrom(text, p);
    var end := if at + PIECE < |s| then at + PIECE else |s|;
    SliceOfSlice(text, i, j, at, end);
    PieceReaches(text, p, i + end);
  }

  /**
    * Any part of a run is found: every term of the query for it begins some term of the index. And the
    * terms of the query make up that part.
    */
  lemma PartIsFound(text: Str, i: nat, j: nat)
    requires i < j <= |text| && AllScript(text[i..j])
    ensures forall term :: term in Query(text[i..j]) ==> exists found :: found in Index(text) && term <= found
    ensures Joined(Query(text[i..j])) == text[i..j]
  {
    var s := text[i..j];
    QueryOfRun(s);
    PiecesJoin(s, 0);
    assert s[0..] == s;
    forall term | term in Query(s) ensures exists found :: found in Index(text) && term <= found {
      var found := TermIsFound(text, i, j, term);
    }
  }

  /** Every term of the query for a whole text is a term of its index. */
  lemma {:induction false} QueryIsIndexed(text: Str, rest: nat, term: Str)
    requires rest <= |text| && term in Terms(text, rest, PIECE)
    ensures term in Terms(text, rest, 1)
    decreases |text| - rest
  {
    var i := Next(text, rest, true);
    if i == |text| {
    } else {
      var end := Next(text, i, false);
      if term in Pieces(text[i..end], 0, PIECE) {
        var at := PieceAt(text[i..end], 0, PIECE, term);
        EveryPiece(text[i..end], 0, at);
      } else if term in Terms(text, end, PIECE) {
        QueryIsIndexed(text, end, term);
      }
    }
  }
}
