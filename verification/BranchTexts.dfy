/** The candidate texts of `plugins/branch-reply/handler.js`. */
module BranchTexts {
  import opened Text

  /** Texts are trimmed, not empty, and no two are the same. */
  predicate Proper(texts: seq<string>)
  {
    && (forall i :: 0 <= i < |texts| ==> texts[i] != "" && Trim(texts[i]) == texts[i])
    && (forall i, j :: 0 <= i < j < |texts| ==> texts[i] != texts[j])
  }

  lemma ProperNext(texts: seq<string>, t: string)
    requires Proper(texts) && t != "" && Trim(t) == t && t !in texts
    ensures Proper(texts + [t])
  {
  }

  lemma {:induction false} TrimStartTrims(s: string)
    ensures TrimStart(s) == "" || !Space(TrimStart(s)[0])
  {
    if s == "" || !Space(s[0]) {
    } else {
      TrimStartTrims(s[1..]);
    }
  }

  lemma {:induction false} TrimEndTrims(s: string)
    ensures TrimEnd(s) <= s && (TrimEnd(s) == "" || !Space(TrimEnd(s)[|TrimEnd(s)| - 1]))
  {
    if s == "" || !Space(s[|s| - 1]) {
    } else {
      TrimEndTrims(s[..|s| - 1]);
    }
  }

  lemma TrimTwice(s: string)
    ensures Trim(Trim(s)) == Trim(s)
  {
    TrimStartTrims(s);
    TrimEndTrims(TrimStart(s));
    var trimmed := Trim(s);
    assert trimmed != "" ==> trimmed[0] == TrimStart(s)[0];
    assert TrimStart(trimmed) == trimmed;
  }

  /** The different texts in order of first appearance. */
  function Deduped(texts: seq<string>): seq<string>
  {
    if texts == [] then []
    else
      var before, trimmed := Deduped(texts[..|texts| - 1]), Trim(texts[|texts| - 1]);
      if trimmed == "" || trimmed in before then before else before + [trimmed]
  }

  /** `dedupeTexts`. */
  method DedupeTexts(texts: seq<string>) returns (out: seq<string>)
    ensures out == Deduped(texts)
  {
    out := [];
    var seen: set<string> := {};
    for i := 0 to |texts|
      invariant out == Deduped(texts[..i]) && forall t :: t in seen <==> t in out
    {
      assert texts[..i + 1][..i] == texts[..i];
      var trimmed := Trim(texts[i]);
      if trimmed != "" && trimmed !in seen {
        seen := seen + {trimmed};
        out := out + [trimmed];
      }
    }
    assert texts[..|texts|] == texts;
  }

  predicate From(texts: seq<string>, t: string) { exists i :: 0 <= i < |texts| && Trim(texts[i]) == t }

  lemma FromNext(before: seq<string>, last: string, t: string)
    ensures From(before + [last], t) <==> From(before, t) || Trim(last) == t
  {
    var all := before + [last];
    assert all[|before|] == last && forall i :: 0 <= i < |before| ==> all[i] == before[i];
    if From(before, t) {
      var i :| 0 <= i < |before| && Trim(before[i]) == t;
      assert Trim(all[i]) == t;
    }
  }

  lemma {:induction false} DedupedHas(texts: seq<string>, t: string)
    ensures t in Deduped(texts) <==> t != "" && From(texts, t)
  {
    if texts == [] {
    } else {
      var n := |texts| - 1;
      DedupedHas(texts[..n], t);
      FromNext(texts[..n], texts[n], t);
      assert texts == texts[..n] + [texts[n]];
    }
  }

  lemma {:induction false} DedupedIsProper(texts: seq<string>)
    ensures Proper(Deduped(texts))
  {
    if texts == [] {
    } else {
      var before, t := Deduped(texts[..|texts| - 1]), Trim(texts[|texts| - 1]);
      DedupedIsProper(texts[..|texts| - 1]);
      TrimTwice(texts[|texts| - 1]);
      if t != "" && t !in before { ProperNext(before, t); }
    }
  }

  lemma {:induction false} DedupedStarts(texts: seq<string>)
    requires texts != [] && texts[0] != "" && Trim(texts[0]) == texts[0]
    ensures Deduped(texts) != [] && Deduped(texts)[0] == texts[0]
  {
    if |texts| > 1 {
      DedupedStarts(texts[..|texts| - 1]);
    } else {
      assert texts[..0] == [];
    }
  }

  const MAX_TEXT_LENGTH := 4_000

  predicate UsableVariant(t: string, base: string) { t != base && |t| <= MAX_TEXT_LENGTH }

  function Usable(texts: seq<string>, base: string): seq<string>
  {
    if texts == [] then []
    else
      var before, last := Usable(texts[..|texts| - 1], base), texts[|texts| - 1];
      if UsableVariant(last, base) then before + [last] else before
  }

  lemma {:induction false} UsableHas(texts: seq<string>, base: string, t: string)
    ensures t in Usable(texts, base) <==> t in texts && t != base && |t| <= 4_000
  {
    if texts == [] {
    } else {
      var n := |texts| - 1;
      UsableHas(texts[..n], base, t);
      assert texts == texts[..n] + [texts[n]];
    }
  }

  lemma {:induction false} UsableIsProper(texts: seq<string>, base: string)
    requires Proper(texts)
    ensures Proper(Usable(texts, base))
  {
    if texts == [] {
    } else {
      var n := |texts| - 1;
      var before, t := Usable(texts[..n], base), texts[n];
      UsableIsProper(texts[..n], base);
      UsableHas(texts[..n], base, t);
      assert t !in texts[..n];
      if UsableVariant(t, base) { ProperNext(before, t); }
    }
  }

  /** One more chunk can only add its text at the end. */
  lemma VariantsNext(chunks: seq<string>, base: string, n: nat)
    requires n < |chunks|
    ensures var before, t := Usable(Deduped(chunks[..n]), base), Trim(chunks[n]);
            Usable(Deduped(chunks[..n + 1]), base)
            == if t == "" || t in before || !UsableVariant(t, base) then before else before + [t]
  {
    var before, t := Deduped(chunks[..n]), Trim(chunks[n]);
    assert chunks[..n + 1][..n] == chunks[..n];
    UsableHas(before, base, t);
    assert (before + [t])[..|before|] == before;
  }

  lemma PrefixOfPrefix(a: seq<string>, b: seq<string>, c: seq<string>)
    requires a <= b && b <= c
    ensures a <= c
  {
  }

  lemma {:induction false} VariantsGrow(chunks: seq<string>, base: string, n: nat)
    requires n <= |chunks|
    ensures Usable(Deduped(chunks[..n]), base) <= Usable(Deduped(chunks), base)
    decreases |chunks| - n
  {
    if n < |chunks| {
      VariantsNext(chunks, base, n);
      VariantsGrow(chunks, base, n + 1);
      PrefixOfPrefix(Usable(Deduped(chunks[..n]), base), Usable(Deduped(chunks[..n + 1]), base),
                     Usable(Deduped(chunks), base));
    } else {
      assert chunks[..n] == chunks;
    }
  }

  function Take(texts: seq<string>, limit: nat): seq<string> { if |texts| <= limit then texts else texts[..limit] }

  /**
    * `parseVariantText` on the chunks between the separator lines: the first of the different texts that are
    * not the original and not too long.
    */
  method ParseVariants(chunks: seq<string>, baseText: string, limit: nat) returns (variants: seq<string>)
    requires limit > 0
    ensures variants == Take(Usable(Deduped(chunks), Trim(baseText)), limit)
  {
    var base := Trim(baseText);
    variants := [];
    for i := 0 to |chunks|
      invariant variants == Usable(Deduped(chunks[..i]), base) && |variants| < limit
    {
      var trimmed := Trim(chunks[i]);
      VariantsNext(chunks, base, i);
      if trimmed != "" && trimmed != base && trimmed !in variants && |trimmed| <= MAX_TEXT_LENGTH {
        variants := variants + [trimmed];
        if |variants| >= limit {
          VariantsGrow(chunks, base, i + 1);
          return;
        }
      }
    }
    assert chunks[..|chunks|] == chunks;
  }
}
