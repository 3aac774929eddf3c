/** The text of versions, as the pattern of `apps/desktop/src/app-update.ts` reads it. */
module VersionText {
  import opened AppUpdate
  import opened Precedence
  import opened Text
  import opened Wrappers

  /** Identifiers separated by dots. */
  predicate Dotted(s: string) { forall part :: part in Split(s, '.') ==> Identifier(part) }

  function ParseCore(core: string, prerelease: seq<string>): Option<Version>
  {
    var parts := Split(core, '.');
    if |parts| == 3 && Canonical(parts[0]) && Canonical(parts[1]) && Canonical(parts[2])
    then Some(Version(parts[0], parts[1], parts[2], prerelease))
    else None
  }

  /** A version without its build metadata. */
  function ParseMain(main: string): Option<Version>
  {
    var i := IndexOf(main, '-');
    if i < 0 then ParseCore(main, [])
    else
      var prerelease := Split(main[i + 1..], '.');
      if forall id :: id in prerelease ==> PrereleaseIdentifier(id) then ParseCore(main[..i], prerelease) else None
  }

  function ParseBody(body: string): Option<Version>
  {
    var i := IndexOf(body, '+');
    if i < 0 then ParseMain(body)
    else if Dotted(body[i + 1..]) then ParseMain(body[..i]) else None
  }

  function ParseText(text: string): Option<Version>
  {
    if text != "" && text[0] == 'v' then ParseBody(text[1..]) else ParseBody(text)
  }

  function ParseVersion(value: string): Option<Version> { ParseText(Trim(value)) }

  /** What precedence does not look at: the letter in front, and the build metadata. */
  datatype Trimming = Trimming(letter: bool, build: Option<seq<string>>)

  predicate Proper(extra: Trimming)
  {
    extra.build.Some? ==> extra.build.value != [] && forall id :: id in extra.build.value ==> Identifier(id)
  }

  function RenderCore(v: Version): string { Join([v.major, v.minor, v.patch], '.') }

  function RenderMain(v: Version): string
  {
    if v.prerelease == [] then RenderCore(v) else RenderCore(v) + ['-'] + Join(v.prerelease, '.')
  }

  function RenderBody(v: Version, build: Option<seq<string>>): string
  {
    match build
    case None => RenderMain(v)
    case Some(ids) => RenderMain(v) + ['+'] + Join(ids, '.')
  }

  function Render(v: Version, extra: Trimming): string
  {
    if extra.letter then ['v'] + RenderBody(v, extra.build) else RenderBody(v, extra.build)
  }

  lemma {:induction false} JoinLacks(parts: seq<string>, c: char, d: char)
    requires c != d && forall part :: part in parts ==> d !in part
    ensures d !in Join(parts, c)
  {
    if |parts| <= 1 {
    } else {
      JoinLacks(parts[1..], c, d);
    }
  }

  lemma IdentifiersLack(ids: seq<string>, c: char)
    requires !IdentifierChar(c) && forall id :: id in ids ==> Identifier(id)
    ensures forall id :: id in ids ==> c !in id
  {
  }

  lemma ParseRenderedCore(v: Version)
    requires Parsed(v)
    ensures ParseCore(RenderCore(v), v.prerelease) == Some(v)
    ensures '-' !in RenderCore(v) && '+' !in RenderCore(v)
    ensures RenderCore(v) != "" && Digit(RenderCore(v)[0])
  {
    var numbers := [v.major, v.minor, v.patch];
    JoinLacks(numbers, '.', '-');
    JoinLacks(numbers, '.', '+');
    SplitJoin(numbers, '.');
    assert RenderCore(v)[0] == v.major[0];
  }

  lemma ParseRenderedMain(v: Version)
    requires Parsed(v)
    ensures ParseMain(RenderMain(v)) == Some(v)
    ensures '+' !in RenderMain(v) && RenderMain(v) != "" && Digit(RenderMain(v)[0])
  {
    ParseRenderedCore(v);
    if v.prerelease != [] {
      IdentifiersLack(v.prerelease, '.');
      IdentifiersLack(v.prerelease, '+');
      JoinLacks(v.prerelease, '.', '+');
      SplitJoin(v.prerelease, '.');
      IndexOfFirst(RenderCore(v), '-', Join(v.prerelease, '.'));
      CutAt(RenderCore(v), '-', Join(v.prerelease, '.'));
    }
  }

  lemma ParsedCore(core: string, prerelease: seq<string>)
    requires ParseCore(core, prerelease).Some?
    ensures var v := ParseCore(core, prerelease).value;
            RenderCore(v) == core && v.prerelease == prerelease
  {
    JoinSplit(core, '.');
    var parts := Split(core, '.');
    assert parts == [parts[0], parts[1], parts[2]];
  }

  lemma ParsedMain(main: string)
    requires ParseMain(main).Some?
    ensures Parsed(ParseMain(main).value) && RenderMain(ParseMain(main).value) == main
  {
    var i := IndexOf(main, '-');
    if i < 0 {
      ParsedCore(main, []);
    } else {
      var prerelease := Split(main[i + 1..], '.');
      ParsedCore(main[..i], prerelease);
      JoinSplit(main[i + 1..], '.');
      Cut(main, i);
    }
  }

  lemma ParseRenderedBody(v: Version, build: Option<seq<string>>)
    requires Parsed(v) && Proper(Trimming(false, build))
    ensures ParseBody(RenderBody(v, build)) == Some(v)
    ensures RenderBody(v, build) != "" && Digit(RenderBody(v, build)[0])
  {
    ParseRenderedMain(v);
    if build.Some? {
      IdentifiersLack(build.value, '.');
      SplitJoin(build.value, '.');
      IndexOfFirst(RenderMain(v), '+', Join(build.value, '.'));
      CutAt(RenderMain(v), '+', Join(build.value, '.'));
    }
  }

  lemma ParsedBody(body: string) returns (build: Option<seq<string>>)
    requires ParseBody(body).Some?
    ensures Parsed(ParseBody(body).value) && Proper(Trimming(false, build))
    ensures body == RenderBody(ParseBody(body).value, build)
  {
    var i := IndexOf(body, '+');
    if i < 0 {
      ParsedMain(body);
      build := None;
    } else {
      ParsedMain(body[..i]);
      JoinSplit(body[i + 1..], '.');
      Cut(body, i);
      build := Some(Split(body[i + 1..], '.'));
    }
  }

  lemma ParseRendered(text: string, v: Version, extra: Trimming)
    requires Parsed(v) && Proper(extra) && text == Render(v, extra)
    ensures ParseText(text) == Some(v)
  {
    ParseRenderedBody(v, extra.build);
    assert extra.letter ==> text[1..] == RenderBody(v, extra.build);
  }

  lemma Headed(text: string)
    requires text != ""
    ensures text == [text[0]] + text[1..]
  {
  }

  lemma ParsedRenders(text: string) returns (extra: Trimming)
    requires ParseText(text).Some?
    ensures Parsed(ParseText(text).value) && Proper(extra)
    ensures text == Render(ParseText(text).value, extra)
  {
    if text != "" && text[0] == 'v' {
      var build := ParsedBody(text[1..]);
      extra := Trimming(true, build);
      Headed(text);
    } else {
      var build := ParsedBody(text);
      extra := Trimming(false, build);
    }
  }

  /** A text is read as a version exactly when it is that version with a letter and metadata around it. */
  lemma ParseIffRendered(value: string, v: Version)
    ensures ParseVersion(value) == Some(v) <==>
            Parsed(v) && exists extra :: Proper(extra) && Trim(value) == Render(v, extra)
  {
    if ParseVersion(value) == Some(v) {
      var extra := ParsedRenders(Trim(value));
    }
    forall extra | Parsed(v) && Proper(extra) && Trim(value) == Render(v, extra)
      ensures ParseVersion(value) == Some(v)
    {
      ParseRendered(Trim(value), v, extra);
    }
  }

  lemma {:induction false} KeysAreInjective(left: seq<string>, right: seq<string>)
    requires forall id :: id in left + right ==> PrereleaseIdentifier(id)
    ensures Keys(left) == Keys(right) ==> left == right
  {
    if left == [] || right == [] || Keys(left) != Keys(right) {
    } else {
      assert left[0] in left + right && right[0] in left + right;
      assert Keys(left)[0] == Keys(right)[0] && Keys(left)[1..] == Keys(right)[1..];
      KeyOfIsInjective(left[0], right[0]);
      KeysAreInjective(left[1..], right[1..]);
      assert left == [left[0]] + left[1..] && right == [right[0]] + right[1..];
    }
  }

  /** Two versions of the same precedence are the same. */
  lemma PrecedentIsInjective(a: Version, b: Version)
    requires Parsed(a) && Parsed(b)
    ensures PrecedentOf(a) == PrecedentOf(b) <==> a == b
  {
    NumericCompare(a.major, b.major);
    NumericCompare(a.minor, b.minor);
    NumericCompare(a.patch, b.patch);
    KeysAreInjective(a.prerelease, b.prerelease);
  }

  /** The loop over the three numbers, then the prerelease. */
  method CompareParsed(a: Version, b: Version) returns (r: int)
    requires Parsed(a) && Parsed(b)
    ensures r < 0 <==> Below(PrecedentOf(a), PrecedentOf(b))
    ensures r == 0 <==> a == b
  {
    var lefts, rights := [a.major, a.minor, a.patch], [b.major, b.minor, b.patch];
    for i := 0 to 3
      invariant i > 0 ==> a.major == b.major
      invariant i > 1 ==> a.minor == b.minor
      invariant i > 2 ==> a.patch == b.patch
    {
      NumericCompare(lefts[i], rights[i]);
      var comparison := CompareNumericIdentifiers(lefts[i], rights[i]);
      if comparison != 0 { return comparison; }
    }
    r := ComparePrerelease(a.prerelease, b.prerelease);
  }

  /** What is not below and not the same is above. */
  lemma ComparedAbove(a: Version, b: Version, r: int)
    requires Parsed(a) && Parsed(b) && (r < 0 <==> Below(PrecedentOf(a), PrecedentOf(b))) && (r == 0 <==> a == b)
    ensures r > 0 <==> Below(PrecedentOf(b), PrecedentOf(a))
  {
    PrecedenceIsOrdered();
    PrecedentIsInjective(a, b);
    var p, q := PrecedentOf(a), PrecedentOf(b);
    assert p == q || Below(p, q) || Below(q, p);
    assert !Below(p, p) && (Below(p, q) && Below(q, p) ==> Below(p, p));
  }

  /** The sign of `r` is the order of these versions. */
  predicate Ranks(a: Version, b: Version, r: int)
  {
    && Parsed(a) && Parsed(b)
    && (r < 0 <==> Below(PrecedentOf(a), PrecedentOf(b)))
    && (r > 0 <==> Below(PrecedentOf(b), PrecedentOf(a)))
    && (r == 0 <==> a == b)
  }

  lemma ParseIsParsed(value: string)
    ensures ParseVersion(value).Some? ==> Parsed(ParseVersion(value).value)
  {
    if ParseVersion(value).Some? {
      var _ := ParsedRenders(Trim(value));
    }
  }

  /** `compareVersions`: the result is the order of section 11, and 0 only for the same version. */
  method CompareVersions(left: string, right: string) returns (r: Option<int>)
    ensures r.Some? <==> ParseVersion(left).Some? && ParseVersion(right).Some?
    ensures r.Some? ==> Ranks(ParseVersion(left).value, ParseVersion(right).value, r.value)
  {
    var a, b := ParseVersion(left), ParseVersion(right);
    if a.None? || b.None? { return None; }
    ParseIsParsed(left);
    ParseIsParsed(right);
    var comparison := CompareParsed(a.value, b.value);
    ComparedAbove(a.value, b.value, comparison);
    return Some(comparison);
  }
}
