/** From output text to log records: the pure half of `apps/server/src/server-log-tee.ts`. */
module LogLines {
  import opened Text

  datatype Source = Stdout | Stderr
  datatype Level = Info | Warn | Error
  datatype Record = Record(source: Source, level: Level, message: string)

  /** The complete lines of a text, without their newlines. */
  function RawLines(text: string): seq<string>
    decreases |text|
  {
    var i := IndexOf(text, '\n');
    if i < 0 then [] else [text[..i]] + RawLines(text[i + 1..])
  }

  /** What follows the last newline. */
  function Rest(text: string): string
    decreases |text|
  {
    var i := IndexOf(text, '\n');
    if i < 0 then text else Rest(text[i + 1..])
  }

  function Unlines(lines: seq<string>): string
  {
    if lines == [] then "" else lines[0] + "\n" + Unlines(lines[1..])
  }

  lemma UnlinesOf(line: string, more: seq<string>)
    ensures Unlines([line] + more) == line + "\n" + Unlines(more)
  {
    assert ([line] + more)[1..] == more;
  }

  /** Every text is its lines and its rest... */
  lemma {:induction false} SplitIsInverse(text: string)
    ensures Unlines(RawLines(text)) + Rest(text) == text
    ensures '\n' !in Rest(text) && forall line :: line in RawLines(text) ==> '\n' !in line
    decreases |text|
  {
    var i := IndexOf(text, '\n');
    if i < 0 {
    } else {
      var line, more := text[..i], text[i + 1..];
      SplitIsInverse(more);
      UnlinesOf(line, RawLines(more));
      Assoc(line + "\n", Unlines(RawLines(more)), Rest(more));
      Cut(text, i);
    }
  }

  lemma LineThen(line: string, more: string)
    requires '\n' !in line
    ensures RawLines(line + "\n" + more) == [line] + RawLines(more)
    ensures Rest(line + "\n" + more) == Rest(more)
  {
    IndexOfFirst(line, '\n', more);
    CutAt(line, '\n', more);
  }

  /** ... in one way only. */
  lemma {:induction false} SplitIsUnique(lines: seq<string>, rest: string)
    requires '\n' !in rest && forall line :: line in lines ==> '\n' !in line
    ensures RawLines(Unlines(lines) + rest) == lines && Rest(Unlines(lines) + rest) == rest
  {
    if lines == [] {
      assert Unlines(lines) + rest == rest;
    } else {
      var line, others := lines[0], lines[1..];
      SplitIsUnique(others, rest);
      LineThen(line, Unlines(others) + rest);
      Assoc(line + "\n", Unlines(others), rest);
      assert lines == [line] + others;
    }
  }

  /** What holds behind a line holds with it. */
  lemma AppendBehindLine(line: string, more: string, b: string)
    requires '\n' !in line
    requires RawLines(more + b) == RawLines(more) + RawLines(Rest(more) + b) && Rest(more + b) == Rest(Rest(more) + b)
    ensures var a := line + "\n" + more;
            RawLines(a + b) == RawLines(a) + RawLines(Rest(a) + b) && Rest(a + b) == Rest(Rest(a) + b)
  {
    LineThen(line, more);
    Assoc(line + "\n", more, b);
    LineThen(line, more + b);
    Assoc([line], RawLines(more), RawLines(Rest(more) + b));
  }

  /** A text that arrives in two parts has the lines of the first, and those of its rest with the second. */
  lemma {:induction false} SplitAppend(a: string, b: string)
    ensures RawLines(a + b) == RawLines(a) + RawLines(Rest(a) + b)
    ensures Rest(a + b) == Rest(Rest(a) + b)
    decreases |a|
  {
    var i := IndexOf(a, '\n');
    if i < 0 {
      assert RawLines(a) == [] && Rest(a) == a;
    } else {
      SplitAppend(a[i + 1..], b);
      Cut(a, i);
      AppendBehindLine(a[..i], a[i + 1..], b);
    }
  }

  predicate Blank(line: string) { forall c :: c in line ==> Space(c) }

  function DropReturn(line: string): string
  {
    if line != "" && line[|line| - 1] == '\r' then line[..|line| - 1] else line
  }

  const WARNING_PREFIX := "[covel:warn]"

  function Classified(source: Source, line: string): Record
  {
    var trimmed := TrimStart(line);
    if source == Stdout then Record(source, Info, line)
    else if WARNING_PREFIX <= trimmed then Record(source, Warn, TrimStart(trimmed[|WARNING_PREFIX|..]))
    else Record(source, Error, line)
  }

  lemma {:induction false} TrimStartParts(line: string) returns (lead: string)
    ensures Blank(lead) && line == lead + TrimStart(line) && (TrimStart(line) == "" || !Space(TrimStart(line)[0]))
  {
    if line != "" && Space(line[0]) {
      var before := TrimStartParts(line[1..]);
      lead := [line[0]] + before;
      Assoc([line[0]], before, TrimStart(line));
      assert line == [line[0]] + line[1..];
    } else {
      lead := "";
    }
  }

  lemma {:induction false} TrimStartOf(lead: string, text: string)
    requires Blank(lead) && (text == "" || !Space(text[0]))
    ensures TrimStart(lead + text) == text
  {
    if lead == "" {
      assert lead + text == text;
    } else {
      assert lead[0] in lead && (lead + text)[1..] == lead[1..] + text;
      TrimStartOf(lead[1..], text);
    }
  }

  /** The line is white space, the prefix, white space again, and a message that begins with none. */
  predicate IsWarning(line: string, lead: string, gap: string, message: string)
  {
    && line == lead + ("[covel:warn]" + (gap + message))
    && Blank(lead) && Blank(gap) && (message == "" || !Space(message[0]))
  }

  lemma WarningIsClassified(line: string, lead: string, gap: string, message: string)
    requires IsWarning(line, lead, gap, message)
    ensures Classified(Stderr, line) == Record(Stderr, Warn, message)
  {
    TrimStartOf(lead, "[covel:warn]" + (gap + message));
    TrimStartOf(gap, message);
    assert ("[covel:warn]" + (gap + message))[|WARNING_PREFIX|..] == gap + message;
  }

  /**
    * The level of a line. Of the standard error stream, a line is a warning exactly if it begins with the
    * prefix, which its record does without, and an error otherwise; all of the standard output is information.
    */
  lemma LevelOf(source: Source, line: string, message: string)
    ensures Classified(source, line) == Record(source, Warn, message) <==>
            source == Stderr && exists lead, gap :: IsWarning(line, lead, gap, message)
    ensures Classified(source, line) == Record(source, Info, message) <==> source == Stdout && message == line
    ensures Classified(source, line) == Record(source, Error, message) <==>
            source == Stderr && message == line && !(exists lead, gap, text :: IsWarning(line, lead, gap, text))
  {
    forall lead, gap, text | IsWarning(line, lead, gap, text)
      ensures Classified(Stderr, line) == Record(Stderr, Warn, text)
    {
      WarningIsClassified(line, lead, gap, text);
    }
    if source == Stderr && Classified(source, line).level == Warn {
      var lead := TrimStartParts(line);
      var trimmed := TrimStart(line);
      var gap := TrimStartParts(trimmed[|WARNING_PREFIX|..]);
      var text := TrimStart(trimmed[|WARNING_PREFIX|..]);
      assert trimmed == WARNING_PREFIX + trimmed[|WARNING_PREFIX|..];
      assert IsWarning(line, lead, gap, text);
    }
  }

  function LineRecord(source: Source, rawLine: string): seq<Record>
  {
    var line := DropReturn(rawLine);
    if Blank(line) then [] else [Classified(source, line)]
  }

  /** A line ends in a newline with or without a carriage return before it; only a blank one has no record. */
  lemma LineEnding(source: Source, line: string)
    requires line == "" || line[|line| - 1] != '\r'
    ensures LineRecord(source, line + "\r") == LineRecord(source, line)
    ensures LineRecord(source, line) == if (forall c :: c in line ==> Space(c)) then [] else [Classified(source, line)]
  {
    assert (line + "\r")[..|line|] == line;
  }

  /** The records of the lines that are not blank. */
  function Recorded(source: Source, lines: seq<string>): seq<Record>
  {
    if lines == [] then [] else LineRecord(source, lines[0]) + Recorded(source, lines[1..])
  }

  lemma RecordedOf(source: Source, line: string, more: seq<string>)
    ensures Recorded(source, [line] + more) == LineRecord(source, line) + Recorded(source, more)
  {
    assert ([line] + more)[1..] == more;
  }

  lemma {:induction false} RecordedAppend(source: Source, a: seq<string>, b: seq<string>)
    ensures Recorded(source, a + b) == Recorded(source, a) + Recorded(source, b)
  {
    if a == [] {
      assert a + b == b;
    } else {
      var line, more := a[0], a[1..];
      RecordedAppend(source, more, b);
      Assoc([line], more, b);
      RecordedOf(source, line, more + b);
      assert a == [line] + more;
      Assoc(LineRecord(source, line), Recorded(source, more), Recorded(source, b));
    }
  }
}
