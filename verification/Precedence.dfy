/** Precedence as section 11 of Semantic Versioning 2.0.0 defines it. */
module Precedence {
  import opened Lexicographic

  predicate Digit(c: char) { '0' <= c <= '9' }

  predicate Numeric(s: string) { s != "" && forall c :: c in s ==> Digit(c) }

  /** No leading zeros. */
  predicate Canonical(s: string) { Numeric(s) && (s[0] == '0' ==> |s| == 1) }

  function Value(s: string): nat
    requires forall c :: c in s ==> Digit(c)
  {
    if s == "" then 0
    else
      assert s[|s| - 1] in s && Digit(s[|s| - 1]);
      10 * Value(s[..|s| - 1]) + (s[|s| - 1] as int - '0' as int)
  }

  /** What an identifier is compared by: numeric ones as numbers, which come before all others. */
  datatype Key = Number(value: nat) | Word(text: string)

  predicate Earlier(c: char, d: char) { c < d }

  predicate KeyBelow(a: Key, b: Key)
  {
    match (a, b)
    case (Number(m), Number(n)) => m < n
    case (Number(_), Word(_)) => true
    case (Word(_), Number(_)) => false
    case (Word(s), Word(t)) => Lex(Earlier, s, t)
  }

  /** A version as precedence sees it: three numbers, then the identifiers of a prerelease. */
  datatype Precedent = Precedent(major: nat, minor: nat, patch: nat, prerelease: seq<Key>)

  /** A prerelease comes before its release; more identifiers come after fewer. */
  predicate PrereleaseBelow(a: seq<Key>, b: seq<Key>)
  {
    a != [] && (b == [] || Lex(KeyBelow, a, b))
  }

  predicate Below(a: Precedent, b: Precedent)
  {
    if a.major != b.major then a.major < b.major
    else if a.minor != b.minor then a.minor < b.minor
    else if a.patch != b.patch then a.patch < b.patch
    else PrereleaseBelow(a.prerelease, b.prerelease)
  }

  /** The example of section 11, which puts these prereleases in this order before their release. */
  lemma SectionElevenExample(v: Precedent)
    requires v.prerelease == []
    ensures var of := (keys: seq<Key>) => v.(prerelease := keys);
            && Below(of([Word("alpha")]), of([Word("alpha"), Number(1)]))
            && Below(of([Word("alpha"), Number(1)]), of([Word("alpha"), Word("beta")]))
            && Below(of([Word("alpha"), Word("beta")]), of([Word("beta")]))
            && Below(of([Word("beta")]), of([Word("beta"), Number(2)]))
            && Below(of([Word("beta"), Number(2)]), of([Word("beta"), Number(11)]))
            && Below(of([Word("beta"), Number(11)]), of([Word("rc"), Number(1)]))
            && Below(of([Word("rc"), Number(1)]), v)
            && Below(v, v.(patch := v.patch + 1)) && Below(v, v.(minor := v.minor + 1, patch := 0))
            && Below(v, v.(major := v.major + 1, minor := 0, patch := 0))
  {
  }

  const DIGITS := "0123456789"

  /** A number as it is written. */
  function Decimal(n: nat): string
  {
    if n < 10 then [DIGITS[n]] else Decimal(n / 10) + [DIGITS[n % 10]]
  }

  lemma {:induction false} DecimalIsCanonical(n: nat)
    ensures Canonical(Decimal(n)) && Value(Decimal(n)) == n && (n > 0 ==> Decimal(n)[0] != '0')
  {
    if n >= 10 {
      DecimalIsCanonical(n / 10);
      assert Decimal(n)[..|Decimal(n)| - 1] == Decimal(n / 10);
      assert Decimal(n)[0] == Decimal(n / 10)[0];
    } else {
      assert Decimal(n)[..0] == "";
    }
  }

  lemma {:induction false} CanonicalIsDecimal(s: string)
    requires Canonical(s)
    ensures Decimal(Value(s)) == s
  {
    var n := |s| - 1;
    assert s == s[..n] + [s[n]] && s[n] in s;
    if n == 0 {
      DigitOf(s[0]);
    } else {
      assert s[..n][0] == s[0];
      CanonicalIsDecimal(s[..n]);
      AppendDigit(s, s[..n], s[n]);
    }
  }

  lemma ValueAppend(s: string, most: string, c: char)
    requires s == most + [c] && (forall d :: d in s ==> Digit(d))
    ensures (forall d :: d in most ==> Digit(d)) && Digit(c)
    ensures Value(s) == 10 * Value(most) + (c as int - '0' as int)
  {
    assert s[..|s| - 1] == most && s[|s| - 1] == c && c in s;
  }

  lemma AppendDigit(s: string, most: string, c: char)
    requires s == most + [c] && Numeric(s) && Numeric(most) && most[0] != '0' && Decimal(Value(most)) == most
    ensures Decimal(Value(s)) == s
  {
    ValueAppend(s, most, c);
    NotZero(most);
    DigitOf(c);
    LastDigit(Value(most), c as int - '0' as int);
  }

  lemma DigitOf(c: char)
    requires Digit(c)
    ensures DIGITS[c as int - '0' as int] == c
  {
  }

  lemma LastDigit(n: nat, d: nat)
    requires n > 0 && d < 10
    ensures Decimal(10 * n + d) == Decimal(n) + [DIGITS[d]]
  {
  }

  lemma {:induction false} NotZero(s: string)
    requires Numeric(s) && s[0] != '0'
    ensures Value(s) > 0
  {
    var n := |s| - 1;
    assert s[n] in s;
    if n > 0 {
      NotZero(s[..n]);
    }
  }

  /** The numbers of a version are those that are written in decimal, with no zero too many. */
  lemma CanonicalIff(s: string)
    ensures Canonical(s) <==> exists n: nat :: s == Decimal(n)
  {
    if Canonical(s) {
      CanonicalIsDecimal(s);
    }
    forall n: nat ensures Canonical(Decimal(n)) { DecimalIsCanonical(n); }
  }

  lemma KeysAreOrdered()
    ensures StrictTotal(KeyBelow)
  {
    LexStrictTotal(Earlier);
    var less := (a: string, b: string) => Lex(Earlier, a, b);
    assert StrictTotal(less);
    assert forall a, b :: Lex(Earlier, a, b) == less(a, b);
  }

  /** Precedence is a strict total order on what it looks at. */
  lemma PrecedenceIsOrdered()
    ensures StrictTotal(Below)
  {
    KeysAreOrdered();
    LexStrictTotal(KeyBelow);
    var less := (a: seq<Key>, b: seq<Key>) => Lex(KeyBelow, a, b);
    assert StrictTotal(less);
    assert forall a, b :: Lex(KeyBelow, a, b) == less(a, b);
  }
}
