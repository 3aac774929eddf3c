/** Version comparison as `apps/desktop/src/app-update.ts` computes it. */
module AppUpdate {
  import opened Lexicographic
  import opened Precedence

  datatype Version = Version(major: string, minor: string, patch: string, prerelease: seq<string>)

  predicate IdentifierChar(c: char) { Digit(c) || 'A' <= c <= 'Z' || 'a' <= c <= 'z' || c == '-' }

  predicate Identifier(s: string) { s != "" && forall c :: c in s ==> IdentifierChar(c) }

  /** Identifiers are not empty and comprise ASCII digits, letters and hyphens, by section 9. */
  lemma IdentifierCodes(s: string)
    ensures Identifier(s) <==>
            |s| >= 1
            && forall i :: 0 <= i < |s| ==>
                 var code := s[i] as int; 48 <= code <= 57 || 65 <= code <= 90 || 97 <= code <= 122 || code == 45
  {
    assert forall i :: 0 <= i < |s| ==> s[i] in s;
    if Identifier(s) {
      forall i | 0 <= i < |s| ensures IdentifierChar(s[i]) { assert s[i] in s; }
    }
  }

  predicate PrereleaseIdentifier(s: string) { Identifier(s) && (Numeric(s) ==> Canonical(s)) }

  predicate Parsed(v: Version)
  {
    && Canonical(v.major) && Canonical(v.minor) && Canonical(v.patch)
    && forall id :: id in v.prerelease ==> PrereleaseIdentifier(id)
  }

  function CompareStrings(a: string, b: string): (r: int)
    ensures -1 <= r <= 1
  {
    if a == b then 0 else if Lex(Earlier, a, b) then -1 else 1
  }

  function CompareNumericIdentifiers(left: string, right: string): (r: int)
    ensures -1 <= r <= 1
  {
    if |left| != |right| then if |left| < |right| then -1 else 1
    else CompareStrings(left, right)
  }

  function Power10(n: nat): nat { if n == 0 then 1 else 10 * Power10(n - 1) }

  lemma {:induction false} PowersGrow(m: nat, n: nat)
    requires m <= n
    ensures Power10(m) <= Power10(n)
  {
    if m == n {
    } else {
      PowersGrow(m, n - 1);
    }
  }

  lemma {:induction false} ValueBounds(s: string)
    requires Numeric(s)
    ensures Value(s) < Power10(|s|)
    ensures s[0] != '0' ==> Power10(|s| - 1) <= Value(s)
  {
    var most := s[..|s| - 1];
    assert s[|s| - 1] in s && Digit(s[0]);
    if |s| > 1 {
      ValueBounds(most);
      assert most[0] == s[0];
    } else {
      assert Value(most) == 0;
    }
  }

  lemma {:induction false} LexEnds(a: string, b: string)
    requires |a| == |b| > 0
    ensures Lex(Earlier, a, b) <==>
            Lex(Earlier, a[..|a| - 1], b[..|b| - 1])
            || (a[..|a| - 1] == b[..|b| - 1] && a[|a| - 1] < b[|b| - 1])
  {
    if |a| == 1 {
    } else {
      LexEnds(a[1..], b[1..]);
      var n := |a| - 1;
      assert a[1..][..n - 1] == a[..n][1..] && b[1..][..n - 1] == b[..n][1..];
      assert a[..n] == [a[0]] + a[..n][1..] && b[..n] == [b[0]] + b[..n][1..];
    }
  }

  /** Digit strings of one length compare as their numbers do. */
  lemma {:induction false} SameLengthNumeric(a: string, b: string)
    requires |a| == |b| && (forall c :: c in a ==> Digit(c)) && (forall c :: c in b ==> Digit(c))
    ensures Lex(Earlier, a, b) <==> Value(a) < Value(b)
    ensures a == b <==> Value(a) == Value(b)
  {
    if a == "" {
    } else {
      var n := |a| - 1;
      assert a == a[..n] + [a[n]] && b == b[..n] + [b[n]];
      assert Digit(a[n]) && Digit(b[n]);
      SameLengthNumeric(a[..n], b[..n]);
      LexEnds(a, b);
    }
  }

  /** Comparing lengths, then characters, compares the numbers, however long. */
  lemma NumericCompare(a: string, b: string)
    requires Canonical(a) && Canonical(b)
    ensures CompareNumericIdentifiers(a, b) < 0 <==> Value(a) < Value(b)
    ensures CompareNumericIdentifiers(a, b) == 0 <==> Value(a) == Value(b)
    ensures CompareNumericIdentifiers(a, b) == 0 <==> a == b
  {
    ValueBounds(a);
    ValueBounds(b);
    if |a| == |b| {
      SameLengthNumeric(a, b);
    } else if |a| < |b| {
      PowersGrow(|a|, |b| - 1);
    } else {
      PowersGrow(|b|, |a| - 1);
    }
  }

  function KeyOf(id: string): Key { if Numeric(id) then Number(Value(id)) else Word(id) }

  function Keys(ids: seq<string>): seq<Key>
  {
    if ids == [] then [] else [KeyOf(ids[0])] + Keys(ids[1..])
  }

  function PrecedentOf(v: Version): Precedent
    requires Parsed(v)
  {
    Precedent(Value(v.major), Value(v.minor), Value(v.patch), Keys(v.prerelease))
  }

  lemma {:induction false} KeysAfter(left: seq<string>, right: seq<string>, i: nat)
    requires i <= |left| && i <= |right| && left[..i] == right[..i]
    ensures Lex(KeyBelow, Keys(left), Keys(right)) <==> Lex(KeyBelow, Keys(left[i..]), Keys(right[i..]))
  {
    if i == 0 {
      assert left[0..] == left && right[0..] == right;
    } else {
      assert left[0] == left[..i][0] == right[..i][0] == right[0];
      assert left[1..][..i - 1] == left[..i][1..] == right[..i][1..] == right[1..][..i - 1];
      KeysAfter(left[1..], right[1..], i - 1);
      assert left[1..][i - 1..] == left[i..] && right[1..][i - 1..] == right[i..];
      KeysAreOrdered();
      assert !KeyBelow(KeyOf(left[0]), KeyOf(left[0]));
    }
  }

  /** Different identifiers are different to precedence too. */
  lemma KeyOfIsInjective(a: string, b: string)
    requires PrereleaseIdentifier(a) && PrereleaseIdentifier(b)
    ensures KeyOf(a) == KeyOf(b) <==> a == b
  {
    if Numeric(a) && Numeric(b) {
      NumericCompare(a, b);
    }
  }

  /** The comparison of two identifiers that differ. */
  function CompareIdentifiers(a: string, b: string): (r: int)
    ensures -1 <= r <= 1
  {
    if Numeric(a) && Numeric(b) then CompareNumericIdentifiers(a, b)
    else if Numeric(a) != Numeric(b) then if Numeric(a) then -1 else 1
    else CompareStrings(a, b)
  }

  lemma IdentifierCompare(a: string, b: string)
    requires PrereleaseIdentifier(a) && PrereleaseIdentifier(b) && a != b
    ensures CompareIdentifiers(a, b) < 0 <==> KeyBelow(KeyOf(a), KeyOf(b))
    ensures CompareIdentifiers(a, b) != 0
  {
    if Numeric(a) && Numeric(b) {
      NumericCompare(a, b);
    }
  }

  /** `comparePrerelease`: below exactly when precedence says so, equal only when identical. */
  method ComparePrerelease(left: seq<string>, right: seq<string>) returns (r: int)
    requires forall id :: id in left ==> PrereleaseIdentifier(id)
    requires forall id :: id in right ==> PrereleaseIdentifier(id)
    ensures -1 <= r <= 1 && (r < 0 <==> PrereleaseBelow(Keys(left), Keys(right)))
    ensures r == 0 <==> left == right
  {
    if |left| == 0 || |right| == 0 {
      if |left| == |right| { return 0; }
      return if |left| == 0 then 1 else -1;
    }
    var length := if |left| < |right| then |right| else |left|;
    for index := 0 to length
      invariant index <= |left| && index <= |right| && left[..index] == right[..index]
    {
      KeysAfter(left, right, index);
      if index == |left| || index == |right| {
        return if index == |left| then -1 else 1;
      }
      var a, b := left[index], right[index];
      if a != b {
        IdentifierCompare(a, b);
        KeyOfIsInjective(a, b);
        return CompareIdentifiers(a, b);
      }
      assert left[..index + 1] == left[..index] + [a] && right[..index + 1] == right[..index] + [b];
    }
    assert left == left[..length] && right == right[..length];
    KeysAreOrdered();
    LexTrichotomy(KeyBelow, Keys(left), Keys(right));
    return 0;
  }
}
