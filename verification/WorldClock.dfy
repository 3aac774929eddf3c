/** Clock definitions, dates, and the tick arithmetic of `plugins/world-time/clock.js`. */
module WorldClock {
  import opened Radix
  import opened Wrappers

  /** JavaScript's largest safe integer, `2^53 - 1`. */
  const MAX_SAFE: int := 9007199254740991

  predicate Safe(n: int) { -MAX_SAFE <= n <= MAX_SAFE }

  /**
    * The double nearest to an integer of magnitude at most `2^54`: exact up to `2^53`, and above
    * it the even neighbour, a tie going to the multiple of four.
    */
  function Double(n: int): int
  {
    if -MAX_SAFE - 1 <= n <= MAX_SAFE + 1 || n % 2 == 0 then n
    else if (n - 1) % 4 == 0 then n - 1 else n + 1
  }

  /** Up to `2^53` nothing is lost; above it the result is even, off by one at most, and then a multiple of four. */
  lemma DoubleIsNearest(n: int)
    ensures -9007199254740992 <= n <= 9007199254740992 ==> Double(n) == n
    ensures n < -9007199254740992 || 9007199254740992 < n ==> Double(n) % 2 == 0 && (n % 2 == 0 ==> Double(n) == n)
    ensures Double(n) != n ==> (Double(n) == n - 1 || Double(n) == n + 1) && Double(n) % 4 == 0
  {
    if n % 2 != 0 {
      OddBesideFour(n);
    }
  }

  lemma OddBesideFour(n: int)
    requires n % 2 != 0
    ensures (n - 1) % 4 == 0 || (n + 1) % 4 == 0
    ensures (n - 1) % 2 == 0 && (n + 1) % 2 == 0
  {
    var half := n / 2;
    var q, r := half / 2, half % 2;
    assert n - 1 == half * 2 + 0 && n + 1 == (half + 1) * 2 + 0;
    DivUnique(half, 0, 2);
    DivUnique(half + 1, 0, 2);
    if r == 0 {
      assert n - 1 == q * 4 + 0;
      DivUnique(q, 0, 4);
    } else {
      assert n + 1 == (q + 1) * 4 + 0;
      DivUnique(q + 1, 0, 4);
    }
  }

  /** JavaScript's `%`, which takes the sign of the dividend. */
  function Remainder(a: int, b: int): int
    requires b > 0
  {
    if a >= 0 then a % b else -((-a) % b)
  }

  datatype Mode = Forward | Backward | Bidirectional | Random

  datatype Range = Range(min: int, max: int)

  datatype Evolution = Evolution(mode: Mode, defaultStep: int, maxStep: int, randomRange: Option<Range>)

  /** Month lengths, the size of a day, the number of weekday names and the period starts. */
  datatype Calendar = Calendar(
    months: seq<int>, hoursPerDay: int, minutesPerHour: int, weekdays: Option<int>, periods: seq<int>)

  datatype Date = Date(year: int, month: int, day: int, hour: int, minute: int)

  datatype Definition =
    | CalendarClock(calendar: Calendar, initial: Date, weekday: Option<int>, evolution: Evolution)
    | PhaseClock(phases: int, cycle: int, phase: int, evolution: Evolution)

  // ---------------------------------------------------------------- sizes

  function Sum(xs: seq<int>): int
  {
    if xs == [] then 0 else Sum(xs[..|xs| - 1]) + xs[|xs| - 1]
  }

  function DaySize(c: Calendar): int { c.hoursPerDay * c.minutesPerHour }

  function YearDays(c: Calendar): int { Sum(c.months) }

  function YearSize(c: Calendar): int { YearDays(c) * DaySize(c) }

  /** Days of the year before the first day of month `m` (counted from 1). */
  function PrecedingDays(c: Calendar, m: int): int
    requires 1 <= m <= |c.months|
  {
    Sum(c.months[..m - 1])
  }

  /** A calendar whose every part has a positive size. */
  predicate Wellformed(c: Calendar)
  {
    && |c.months| >= 1
    && (forall i :: 0 <= i < |c.months| ==> c.months[i] >= 1)
    && c.hoursPerDay >= 1 && c.minutesPerHour >= 1
    && (c.weekdays.Some? ==> c.weekdays.value >= 1)
  }

  predicate ValidDate(c: Calendar, d: Date)
  {
    && 1 <= d.month <= |c.months|
    && 1 <= d.day <= c.months[d.month - 1]
    && 0 <= d.hour < c.hoursPerDay
    && 0 <= d.minute < c.minutesPerHour
  }

  // ---------------------------------------------------------------- schema

  predicate Positive(n: int) { 1 <= n <= 1_000_000 }

  predicate AcceptedEvolution(e: Evolution)
  {
    && 0 <= e.defaultStep <= 1_000_000 && Positive(e.maxStep)
    && e.defaultStep <= e.maxStep
    && (e.mode == Random ==> e.randomRange.Some?)
    && (e.randomRange.Some? ==>
          var r := e.randomRange.value;
          -e.maxStep <= r.min <= r.max <= e.maxStep)
  }

  /** Period starts are within the day and strictly increasing. */
  predicate IncreasingPeriods(periods: seq<int>, hoursPerDay: int)
  {
    && (forall i :: 0 <= i < |periods| ==> 0 <= periods[i] < hoursPerDay)
    && (forall i, j :: 0 <= i < j < |periods| ==> periods[i] < periods[j])
  }

  function Abs(n: int): int { if n < 0 then -n else n }

  /** The definitions `worldTimeSchema` parses. */
  predicate Accepted(def: Definition)
  {
    && AcceptedEvolution(def.evolution)
    && match def
       case PhaseClock(phases, cycle, phase, _) =>
         && 1 <= phases <= 100 && Abs(cycle) <= 1_000_000 && 0 <= phase < phases
       case CalendarClock(c, initial, weekday, _) =>
         && 1 <= |c.months| <= 100
         && (forall i :: 0 <= i < |c.months| ==> Positive(c.months[i]))
         && Positive(c.hoursPerDay) && Positive(c.minutesPerHour)
         && (c.weekdays.Some? ==> 1 <= c.weekdays.value <= 100)
         && |c.periods| <= 100 && IncreasingPeriods(c.periods, c.hoursPerDay)
         && Abs(initial.year) <= 1_000_000 && ValidDate(c, initial)
         && (weekday.Some? <==> c.weekdays.Some?)
         && (weekday.Some? ==> 0 <= weekday.value < c.weekdays.value)
         && Safe(YearSize(c)) && Safe((Abs(initial.year) + 2) * YearSize(c))
  }

  /** The refinement's loop over the periods decides exactly `IncreasingPeriods`. */
  method CheckPeriods(periods: seq<int>, hoursPerDay: int) returns (ok: bool)
    ensures ok <==> IncreasingPeriods(periods, hoursPerDay)
  {
    ok := true;
    var previous := -1;
    for index := 0 to |periods|
      invariant previous == if index == 0 then -1 else periods[index - 1]
      invariant ok ==> previous < hoursPerDay || index == 0
      invariant ok ==> forall i :: 0 <= i < index ==> 0 <= periods[i] <= previous && periods[i] < hoursPerDay
      invariant ok ==> forall i, j :: 0 <= i < j < index ==> periods[i] < periods[j]
      invariant !ok ==> !IncreasingPeriods(periods, hoursPerDay)
    {
      if periods[index] <= previous || periods[index] >= hoursPerDay {
        ok := false;
      }
      previous := periods[index];
    }
  }

  // ---------------------------------------------------------------- dates and ticks

  /** The tick of a date: `initialTick`'s formula. */
  function Encode(c: Calendar, d: Date): int
    requires 1 <= d.month <= |c.months|
  {
    (d.year - 1) * YearSize(c) + (PrecedingDays(c, d.month) + d.day - 1) * DaySize(c)
    + d.hour * c.minutesPerHour + d.minute
  }

  /** Month index and day index of a day of the year, both from 0: the loop of `describeTime`. */
  function MonthOf(months: seq<int>, day: int): (r: Option<(int, int)>)
    ensures r.Some? ==> 0 <= r.value.0 < |months|
    decreases |months|
  {
    if months == [] then None
    else if day < months[0] then Some((0, day))
    else match MonthOf(months[1..], day - months[0])
         case None => None
         case Some((m, d)) => Some((m + 1, d))
  }

  /** The date of a tick, in exact arithmetic. */
  function Decode(c: Calendar, tick: int): Option<Date>
    requires Wellformed(c) && YearSize(c) >= 1 && DaySize(c) >= 1
  {
    DateInYear(c, tick / YearSize(c), tick % YearSize(c))
  }

  /** The date `withinYear` base units after the start of the year with index `yearIndex`. */
  function DateInYear(c: Calendar, yearIndex: int, withinYear: int): Option<Date>
    requires DaySize(c) >= 1 && c.minutesPerHour >= 1
  {
    match MonthOf(c.months, withinYear / DaySize(c))
    case None => None
    case Some((m, d)) =>
      var withinDay := Remainder(withinYear, DaySize(c));
      Some(Date(yearIndex + 1, m + 1, d + 1,
                withinDay / c.minutesPerHour, Remainder(withinDay, c.minutesPerHour)))
  }

  /** Dates in lexicographic order. */
  predicate Before(a: Date, b: Date)
  {
    a.year < b.year || (a.year == b.year &&
    (a.month < b.month || (a.month == b.month &&
    (a.day < b.day || (a.day == b.day &&
    (a.hour < b.hour || (a.hour == b.hour && a.minute < b.minute)))))))
  }

  // ---------------------------------------------------------------- sums of months

  lemma {:induction false} SumAppend(xs: seq<int>, ys: seq<int>)
    ensures Sum(xs + ys) == Sum(xs) + Sum(ys)
    decreases |ys|
  {
    if ys == [] {
      assert xs + ys == xs;
    } else {
      assert (xs + ys)[..|xs + ys| - 1] == xs + ys[..|ys| - 1];
      SumAppend(xs, ys[..|ys| - 1]);
    }
  }

  lemma {:induction false} SumPositive(xs: seq<int>)
    requires forall i :: 0 <= i < |xs| ==> xs[i] >= 1
    ensures Sum(xs) >= |xs|
  {
    if xs == [] {
    } else {
      SumPositive(xs[..|xs| - 1]);
    }
  }

  lemma {:induction false} SumBounded(xs: seq<int>, most: int)
    requires forall i :: 0 <= i < |xs| ==> xs[i] <= most
    ensures Sum(xs) <= |xs| * most
  {
    if xs == [] {
    } else {
      SumBounded(xs[..|xs| - 1], most);
      assert |xs| * most == (|xs| - 1) * most + most;
    }
  }

  lemma SumHead(xs: seq<int>)
    requires xs != []
    ensures Sum(xs) == xs[0] + Sum(xs[1..])
  {
    SumAppend([xs[0]], xs[1..]);
    assert xs == [xs[0]] + xs[1..];
    assert [xs[0]][..0] == [];
  }

  /** Sums over longer prefixes grow by at least the length of the month passed. */
  lemma PrefixSums(months: seq<int>, i: int, j: int)
    requires forall k :: 0 <= k < |months| ==> months[k] >= 1
    requires 0 <= i < j <= |months|
    ensures Sum(months[..i]) + months[i] <= Sum(months[..j])
  {
    var rest := months[i + 1..j];
    assert months[..j] == months[..i] + [months[i]] + rest;
    SumAppend(months[..i] + [months[i]], rest);
    SumAppend(months[..i], [months[i]]);
    assert [months[i]][..0] == [];
    assert forall k :: 0 <= k < |rest| ==> rest[k] == months[i + 1 + k];
    SumPositive(rest);
  }

  lemma Sizes(c: Calendar)
    requires Wellformed(c)
    ensures DaySize(c) >= 1 && YearDays(c) >= 1 && YearSize(c) >= DaySize(c)
  {
    MulAtLeast(c.hoursPerDay, c.minutesPerHour);
    SumPositive(c.months);
    MulAtLeast(YearDays(c), DaySize(c));
  }

  /** Any day of the year has a month, and the loop finds the one whose days surround it. */
  lemma {:induction false} MonthOfDay(months: seq<int>, day: int)
    requires forall i :: 0 <= i < |months| ==> months[i] >= 1
    requires 0 <= day
    ensures MonthOf(months, day).Some? <==> day < Sum(months)
    ensures MonthOf(months, day).Some? ==>
              var (m, d) := MonthOf(months, day).value;
              0 <= d < months[m] && Sum(months[..m]) + d == day
    decreases |months|
  {
    if months == [] {
    } else {
      SumHead(months);
      SumPositive(months[1..]);
      if day >= months[0] {
        MonthOfDay(months[1..], day - months[0]);
        if MonthOf(months, day).Some? {
          var (m, _) := MonthOf(months[1..], day - months[0]).value;
          SumHead(months[..m + 1]);
          assert months[..m + 1][1..] == months[1..][..m];
        }
      }
    }
  }

  /** The months are laid end to end: a month and a day of it are found again from their sum. */
  lemma MonthOfUnique(months: seq<int>, m: int, d: int)
    requires forall i :: 0 <= i < |months| ==> months[i] >= 1
    requires 0 <= m < |months| && 0 <= d < months[m]
    ensures 0 <= Sum(months[..m]) + d < Sum(months)
    ensures MonthOf(months, Sum(months[..m]) + d) == Some((m, d))
  {
    SumPositive(months[..m]);
    PrefixSums(months, m, |months|);
    assert months[..|months|] == months;
    var day := Sum(months[..m]) + d;
    MonthOfDay(months, day);
    var (m', d') := MonthOf(months, day).value;
    if m' < m {
      PrefixSums(months, m', m);
    } else if m < m' {
      PrefixSums(months, m, m');
    }
  }

  // ---------------------------------------------------------------- round trips

  /** The parts of a valid date, as digits of its tick. */
  lemma EncodeDigits(c: Calendar, d: Date) returns (day: int, time: int)
    requires Wellformed(c) && ValidDate(c, d)
    ensures DaySize(c) >= 1 && YearSize(c) >= 1
    ensures day == PrecedingDays(c, d.month) + d.day - 1 && 0 <= day < YearDays(c)
    ensures time == d.hour * c.minutesPerHour + d.minute && 0 <= time < DaySize(c)
    ensures MonthOf(c.months, day) == Some((d.month - 1, d.day - 1))
    ensures 0 <= day * DaySize(c) + time < YearSize(c)
    ensures Encode(c, d) == (d.year - 1) * YearSize(c) + (day * DaySize(c) + time)
  {
    Sizes(c);
    day := PrecedingDays(c, d.month) + d.day - 1;
    time := d.hour * c.minutesPerHour + d.minute;
    MonthOfUnique(c.months, d.month - 1, d.day - 1);
    TwoDigitBound(d.hour, d.minute, c.minutesPerHour, c.hoursPerDay);
    TwoDigitBound(day, time, DaySize(c), YearDays(c));
  }

  /** Decoding the tick of a valid date gives that date, for years of either sign. */
  lemma DecodeEncode(c: Calendar, d: Date)
    requires Wellformed(c) && ValidDate(c, d)
    ensures DaySize(c) >= 1 && YearSize(c) >= 1
    ensures Decode(c, Encode(c, d)) == Some(d)
  {
    var day, time := EncodeDigits(c, d);
    DivUnique(d.year - 1, day * DaySize(c) + time, YearSize(c));
    DivUnique(day, time, DaySize(c));
    DivUnique(d.hour, d.minute, c.minutesPerHour);
  }

  lemma DaysBefore(c: Calendar, withinYear: int)
    requires Wellformed(c)
    ensures DaySize(c) >= 1
    ensures withinYear < 0 <==> withinYear / DaySize(c) < 0
    ensures withinYear >= YearSize(c) <==> withinYear / DaySize(c) >= YearDays(c)
  {
    Sizes(c);
    var day, base := withinYear / DaySize(c), DaySize(c);
    assert withinYear == day * base + withinYear % base;
    if day < 0 {
      MulAtLeast(-day, base);
      assert (-day) * base == -(day * base);
    } else if day < YearDays(c) {
      TwoDigitBound(day, withinYear % base, base, YearDays(c));
    } else if day > YearDays(c) {
      MulAtLeast(day - YearDays(c), base);
      assert (day - YearDays(c)) * base == day * base - YearDays(c) * base;
    }
  }

  /** A count of base units names a date of the year exactly when it lies inside the year, and none past its end. */
  lemma DateInYearValid(c: Calendar, yearIndex: int, withinYear: int)
    requires Wellformed(c)
    ensures DaySize(c) >= 1
    ensures DateInYear(c, yearIndex, withinYear).Some? && ValidDate(c, DateInYear(c, yearIndex, withinYear).value)
            <==> 0 <= withinYear < YearSize(c)
    ensures 0 <= withinYear < YearSize(c) ==>
              Encode(c, DateInYear(c, yearIndex, withinYear).value) == yearIndex * YearSize(c) + withinYear
    ensures DateInYear(c, yearIndex, withinYear).None? <==> withinYear >= YearSize(c)
  {
    Sizes(c);
    DaysBefore(c, withinYear);
    if withinYear >= 0 {
      MonthOfDay(c.months, withinYear / DaySize(c));
    }
    if 0 <= withinYear < YearSize(c) {
      HighDigitBound(withinYear, DaySize(c), YearDays(c));
      HighDigitBound(withinYear % DaySize(c), c.minutesPerHour, c.hoursPerDay);
    }
  }

  /** Every tick, negative ones too, decodes inside the month list, and encodes back to itself. */
  lemma EncodeDecode(c: Calendar, tick: int)
    requires Wellformed(c)
    ensures DaySize(c) >= 1 && YearSize(c) >= 1
    ensures Decode(c, tick).Some?
    ensures var d := Decode(c, tick).value; ValidDate(c, d) && Encode(c, d) == tick
  {
    Sizes(c);
    DateInYearValid(c, tick / YearSize(c), tick % YearSize(c));
    assert tick == (tick / YearSize(c)) * YearSize(c) + tick % YearSize(c);
  }

  /** Tick order is date order. */
  lemma EncodeOrder(c: Calendar, a: Date, b: Date)
    requires Wellformed(c) && ValidDate(c, a) && ValidDate(c, b)
    ensures Encode(c, a) < Encode(c, b) <==> Before(a, b)
  {
    var dayA, timeA := EncodeDigits(c, a);
    var dayB, timeB := EncodeDigits(c, b);
    TwoDigitOrder(a.year - 1, dayA * DaySize(c) + timeA, b.year - 1, dayB * DaySize(c) + timeB, YearSize(c));
    TwoDigitOrder(dayA, timeA, dayB, timeB, DaySize(c));
    TwoDigitOrder(a.hour, a.minute, b.hour, b.minute, c.minutesPerHour);
    if a.month < b.month {
      PrefixSums(c.months, a.month - 1, b.month - 1);
    } else if b.month < a.month {
      PrefixSums(c.months, b.month - 1, a.month - 1);
    }
  }
}
