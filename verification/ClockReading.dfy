/** Reading a clock: `initialTick` and `describeTime` of `plugins/world-time/clock.js`. */
module ClockReading {
  import opened Radix
  import opened WorldClock
  import opened Wrappers

  datatype ClockError = Unsafe | NoSuchMonth

  datatype Reading =
    | CalendarReading(date: Date, weekdayIndex: Option<int>, period: Option<int>)
    | PhaseReading(cycle: int, phase: int)

  function Checked(n: int): Result<int, ClockError> { if Safe(n) then Ok(n) else Err(Unsafe) }

  /** The starting tick in exact arithmetic. */
  function Start(def: Definition): int
    requires Accepted(def)
  {
    match def
    case PhaseClock(phases, cycle, phase, _) => cycle * phases + phase
    case CalendarClock(c, initial, _, _) => Encode(c, initial)
  }

  /** `initialTick`, with each `safe` call as a check that may fail. */
  function InitialTick(def: Definition): Result<int, ClockError>
    requires Accepted(def)
  {
    match def
    case PhaseClock(phases, cycle, phase, _) => Checked(cycle * phases + phase)
    case CalendarClock(c, initial, _, _) =>
      if Checked(DaySize(c)).Err? || Checked(YearSize(c)).Err? then Err(Unsafe)
      else Checked(Encode(c, initial))
  }

  /** Every number `initialTick` computes on the way, in evaluation order. */
  function Intermediates(def: Definition): seq<int>
    requires Accepted(def)
  {
    match def
    case PhaseClock(phases, cycle, phase, _) => [cycle * phases, cycle * phases + phase]
    case CalendarClock(c, d, _, _) =>
      var preceding := PrecedingDays(c, d.month);
      [DaySize(c), YearDays(c), YearSize(c), d.year - 1, preceding, preceding + d.day, preceding + d.day - 1]
      + Terms((d.year - 1) * YearSize(c), (preceding + d.day - 1) * DaySize(c), d.hour * c.minutesPerHour, d.minute)
  }

  /** The four terms of a tick and their partial sums, from the left. */
  function Terms(years: int, days: int, hours: int, minutes: int): seq<int>
  {
    [years, days, years + days, hours, years + days + hours, years + days + hours + minutes]
  }

  /** An accepted calendar is well formed, with sizes far below the safe limit. */
  lemma AcceptedCalendar(def: Definition)
    requires Accepted(def) && def.CalendarClock?
    ensures var c := def.calendar;
            && Wellformed(c)
            && 1 <= DaySize(c) <= YearSize(c) <= MAX_SAFE
            && 1 <= YearDays(c) <= 100_000_000
  {
    var c := def.calendar;
    Sizes(c);
    SumBounded(c.months, 1_000_000);
  }

  /** Sums with the year's term stay within the bound the schema checks. */
  lemma YearsBound(year: int, size: int, within: int)
    requires 0 <= within <= size
    requires Safe((Abs(year) + 2) * size)
    ensures Safe((year - 1) * size + within)
  {
    assert (Abs(year) + 2) * size == Abs(year) * size + 2 * size;
    assert (year - 1) * size == year * size - size;
    assert (-year) * size == -(year * size);
    assert Abs(year) * size >= 0;
  }

  lemma TermsAreSafe(year: int, size: int, days: int, hours: int, minutes: int)
    requires 0 <= days && 0 <= hours && 0 <= minutes && days + hours + minutes <= size <= MAX_SAFE
    requires Safe((Abs(year) + 2) * size)
    ensures forall n :: n in Terms((year - 1) * size, days, hours, minutes) ==> Safe(n)
  {
    YearsBound(year, size, 0);
    YearsBound(year, size, days);
    YearsBound(year, size, days + hours);
    YearsBound(year, size, days + hours + minutes);
  }

  /** The schema makes every number of `initialTick` a safe integer: `safe` never throws there. */
  lemma InitialTickNeverThrows(def: Definition)
    requires Accepted(def)
    ensures InitialTick(def) == Ok(Start(def))
    ensures forall n :: n in Intermediates(def) ==> Safe(n)
  {
    match def
    case PhaseClock(phases, cycle, phase, _) =>
      ProductBounds(cycle, phases, 1_000_000);
    case CalendarClock(c, d, _, _) =>
      AcceptedCalendar(def);
      CalendarTicksAreSafe(c, d);
  }

  lemma CalendarTicksAreSafe(c: Calendar, d: Date)
    requires Wellformed(c) && ValidDate(c, d)
    requires YearSize(c) <= MAX_SAFE && Safe((Abs(d.year) + 2) * YearSize(c))
    ensures var preceding := PrecedingDays(c, d.month);
            && 0 <= preceding <= preceding + d.day - 1 < YearDays(c)
            && Safe(Encode(c, d))
            && var terms := Terms((d.year - 1) * YearSize(c), (preceding + d.day - 1) * DaySize(c),
                                  d.hour * c.minutesPerHour, d.minute);
               forall n :: n in terms ==> Safe(n)
  {
    var day, time := EncodeDigits(c, d);
    SumPositive(c.months[..d.month - 1]);
    var days, hours := day * DaySize(c), d.hour * c.minutesPerHour;
    ProductNotNegative(day, DaySize(c));
    ProductNotNegative(d.hour, c.minutesPerHour);
    TermsAreSafe(d.year, YearSize(c), days, hours, d.minute);
    YearsBound(d.year, YearSize(c), days + hours + d.minute);
  }

  lemma ProductBounds(a: int, b: int, bound: int)
    requires -bound <= a <= bound && b >= 0
    ensures -bound * b <= a * b <= bound * b
  {
    ProductNotNegative(a + bound, b);
    ProductNotNegative(bound - a, b);
  }

  lemma ProductNotNegative(a: int, b: int)
    requires a >= 0 && b >= 0
    ensures a * b >= 0
  {
  }

  // ---------------------------------------------------------------- what a reading should be

  /** The size of the unit `describeTime` takes a floor over first. */
  function CycleSize(def: Definition): (size: int)
    requires Accepted(def)
    ensures size >= 1
  {
    match def
    case PhaseClock(phases, _, _, _) => phases
    case CalendarClock(c, _, _, _) => AcceptedCalendar(def); YearSize(c)
  }

  /** The start of the tick's year or cycle is a number a double can hold. */
  predicate ExactStart(def: Definition, tick: int)
    requires Accepted(def)
  {
    var start := (tick / CycleSize(def)) * CycleSize(def);
    Double(start) == start
  }

  /** Days between the start and a tick, the day counts rounded down. */
  function ElapsedDays(def: Definition, tick: int): int
    requires Accepted(def) && def.CalendarClock?
  {
    AcceptedCalendar(def);
    tick / DaySize(def.calendar) - Start(def) / DaySize(def.calendar)
  }

  /** What rounding to doubles adds to the day count, with the starting weekday added to it. */
  function DaysRounding(def: Definition, tick: int): int
    requires Accepted(def) && def.CalendarClock? && def.weekday.Some?
  {
    var days := ElapsedDays(def, tick);
    Double(def.weekday.value + Double(days)) - (def.weekday.value + days)
  }

  /** The weekday the calendar promises, counted from the starting one in either direction. */
  function Weekday(def: Definition, tick: int): int
    requires Accepted(def) && def.CalendarClock? && def.weekday.Some?
  {
    (def.weekday.value + ElapsedDays(def, tick)) % def.calendar.weekdays.value
  }

  /** The last period that has started, else the last one of the day before. */
  predicate InPeriod(periods: seq<int>, hour: int, i: int)
  {
    && 0 <= i < |periods|
    && if periods[0] <= hour then periods[i] <= hour && (i + 1 < |periods| ==> hour < periods[i + 1])
       else i == |periods| - 1
  }

  /** `find` over the reversed periods, from the end. */
  function LastStarted(periods: seq<int>, hour: int): (r: Option<int>)
    ensures r.Some? ==> 0 <= r.value < |periods| && periods[r.value] <= hour
    ensures forall j :: (if r.Some? then r.value else -1) < j < |periods| ==> hour < periods[j]
  {
    if periods == [] then None
    else if periods[|periods| - 1] <= hour then Some(|periods| - 1)
    else LastStarted(periods[..|periods| - 1], hour)
  }

  function PeriodAt(periods: seq<int>, hour: int): Option<int>
  {
    match LastStarted(periods, hour)
    case Some(i) => Some(i)
    case None => if periods == [] then None else Some(|periods| - 1)
  }

  /** Each hour of the day belongs to exactly one period, the one `describeTime` reports. */
  lemma PeriodOfHour(periods: seq<int>, hoursPerDay: int, hour: int, i: int)
    requires IncreasingPeriods(periods, hoursPerDay)
    ensures InPeriod(periods, hour, i) <==> PeriodAt(periods, hour) == Some(i)
  {
  }

  // ---------------------------------------------------------------- describeTime

  /** A rounded year start is off by one, and only below the doubles' exact range. */
  lemma RoundedStart(def: Definition, tick: int)
    requires Accepted(def) && Safe(tick)
    ensures var size := CycleSize(def); var start := (tick / size) * size;
            && (ExactStart(def, tick) ==> tick - Double(start) == tick % size)
            && (!ExactStart(def, tick) ==> 1 <= tick - Double(start) <= size)
            && (tick - Double(start) == tick % size + 1 || tick - Double(start) == tick % size - 1
                <==> !ExactStart(def, tick))
  {
    var size := CycleSize(def);
    assert tick == (tick / size) * size + tick % size;
  }

  /** The month loop: it ends on a month and a day of it, or past the end of the list. */
  method FindMonth(months: seq<int>, day: int) returns (monthIndex: int, dayIndex: int)
    ensures 0 <= monthIndex <= |months|
    ensures MonthOf(months, day) == if monthIndex == |months| then None else Some((monthIndex, dayIndex))
  {
    dayIndex := day;
    monthIndex := 0;
    while monthIndex < |months| && dayIndex >= months[monthIndex]
      invariant 0 <= monthIndex <= |months|
      invariant MonthOf(months, day) ==
                match MonthOf(months[monthIndex..], dayIndex)
                case None => None
                case Some((m, d)) => Some((monthIndex + m, d))
    {
      assert months[monthIndex..][1..] == months[monthIndex + 1..];
      dayIndex := dayIndex - months[monthIndex];
      monthIndex := monthIndex + 1;
    }
  }

  /** The weekday as the code computes it, in doubles and with JavaScript's remainder. */
  function WeekdayIndex(def: Definition, tick: int): (index: int)
    requires Accepted(def) && def.CalendarClock? && def.weekday.Some?
    ensures 0 <= index < def.calendar.weekdays.value
    ensures index == Weekday(def, tick) <==> DaysRounding(def, tick) % def.calendar.weekdays.value == 0
  {
    var n := def.calendar.weekdays.value;
    var days := Double(def.weekday.value + Double(ElapsedDays(def, tick)));
    RemainderIsMod(days, n);
    SameRemainder(days, def.weekday.value + ElapsedDays(def, tick), n);
    Remainder(Remainder(days, n) + n, n)
  }

  /** `describeTime` on a definition that `loadTime` accepts. */
  method DescribeTime(def: Definition, tick: int) returns (r: Result<Reading, ClockError>)
    requires Accepted(def)
    ensures r == Err(Unsafe) <==> !Safe(tick)
    ensures Safe(tick) && def.PhaseClock? ==>
              r.Ok? && (r == Ok(PhaseReading(tick / def.phases, tick % def.phases)) <==> ExactStart(def, tick))
    ensures Safe(tick) && def.CalendarClock? ==>
              && Wellformed(def.calendar) && DaySize(def.calendar) >= 1 && YearSize(def.calendar) >= 1
              && (r.Ok? && r.value.CalendarReading? && Some(r.value.date) == Decode(def.calendar, tick)
                  <==> ExactStart(def, tick))
              && (r == Err(NoSuchMonth) <==>
                  tick - Double(tick / YearSize(def.calendar) * YearSize(def.calendar)) == YearSize(def.calendar))
    ensures r.Ok? && def.CalendarClock? ==>
              && r.value.CalendarReading?
              && r.value.period == PeriodAt(def.calendar.periods, r.value.date.hour)
              && (r.value.weekdayIndex.Some? <==> def.weekday.Some?)
              && (def.weekday.Some? ==>
                    && def.calendar.weekdays.Some? && def.calendar.weekdays.value >= 1
                    && (r.value.weekdayIndex == Some(Weekday(def, tick)) <==>
                        DaysRounding(def, tick) % def.calendar.weekdays.value == 0))
  {
    if !Safe(tick) {
      if def.CalendarClock? {
        AcceptedCalendar(def);
      }
      return Err(Unsafe);
    }
    RoundedStart(def, tick);
    if def.PhaseClock? {
      var cycle := tick / def.phases;
      return Ok(PhaseReading(cycle, tick - Double(cycle * def.phases)));
    }
    AcceptedCalendar(def);
    var c := def.calendar;
    var yearIndex := tick / YearSize(c);
    var withinYear := tick - Double(yearIndex * YearSize(c));
    RightDateOnly(def, tick, withinYear);
    var monthIndex, dayIndex := FindMonth(c.months, withinYear / DaySize(c));
    if monthIndex == |c.months| {
      return Err(NoSuchMonth);
    }
    var withinDay := Remainder(withinYear, DaySize(c));
    var hour := withinDay / c.minutesPerHour;
    var date := Date(yearIndex + 1, monthIndex + 1, dayIndex + 1, hour, Remainder(withinDay, c.minutesPerHour));
    var weekdayIndex := if def.weekday.Some? then Some(WeekdayIndex(def, tick)) else None;
    return Ok(CalendarReading(date, weekdayIndex, PeriodAt(c.periods, hour)));
  }

  lemma RightDate(c: Calendar, tick: int, withinYear: int)
    requires Wellformed(c) && DaySize(c) >= 1 && YearSize(c) >= 1
    requires withinYear == tick % YearSize(c) || (1 <= withinYear <= YearSize(c) && withinYear != tick % YearSize(c))
    ensures Decode(c, tick).Some?
    ensures DateInYear(c, tick / YearSize(c), withinYear) == Decode(c, tick) <==> withinYear == tick % YearSize(c)
    ensures DateInYear(c, tick / YearSize(c), withinYear).None? <==> withinYear == YearSize(c)
  {
    EncodeDecode(c, tick);
    DateInYearValid(c, tick / YearSize(c), withinYear);
  }

  /** The date computed from a count inside the year is the tick's date only if the count is right. */
  lemma RightDateOnly(def: Definition, tick: int, withinYear: int)
    requires Accepted(def) && def.CalendarClock? && Safe(tick)
    requires var size := CycleSize(def);
             withinYear == tick % size || (1 <= withinYear <= size && withinYear != tick % size)
    ensures var c := def.calendar;
            && Wellformed(c) && DaySize(c) >= 1 && YearSize(c) >= 1
            && Decode(c, tick).Some?
            && (DateInYear(c, tick / YearSize(c), withinYear) == Decode(c, tick)
                <==> withinYear == tick % YearSize(c))
            && (DateInYear(c, tick / YearSize(c), withinYear).None? <==> withinYear == YearSize(c))
  {
    AcceptedCalendar(def);
    RightDate(def.calendar, tick, withinYear);
  }

  /** Taking JavaScript's `%` twice gives the non-negative remainder for either sign. */
  lemma RemainderIsMod(a: int, n: int)
    requires n >= 1
    ensures Remainder(Remainder(a, n) + n, n) == a % n
  {
    if a >= 0 {
      ModOfMultiple(a % n, n, 1);
      DivUnique(0, a % n, n);
    } else {
      var q, s := (-a) / n, (-a) % n;
      assert -a == q * n + s;
      if s == 0 {
        DivUnique(-q, 0, n);
        assert a == (-q) * n + 0;
        DivUnique(1, 0, n);
      } else {
        assert (-q - 1) * n == -(q * n) - n;
        DivUnique(-q - 1, n - s, n);
        DivUnique(0, n - s, n);
      }
    }
  }

  /**
    * The floor's product loses its last bit near `-2^53`: a five-minute year ends up one minute too
    * long there, and the month loop runs off the month list.
    */
  method MonthsRunOut() returns (r: Result<Reading, ClockError>)
    ensures r == Err(NoSuchMonth)
  {
    var def := CalendarClock(Calendar([5], 1, 1, None, []), Date(1, 1, 1, 0, 0), None,
                             Evolution(Forward, 0, 1, None));
    var tick := -MAX_SAFE;
    assert Sum([5]) == 5 by {
      assert [5][..0] == [];
    }
    assert tick / 5 == -1801439850948199 && tick % 5 == 4;
    r := DescribeTime(def, tick);
  }

  // ---------------------------------------------------------------- whole days

  /** Moving by whole days keeps the position within the day... */
  lemma WholeDaysKeepTime(c: Calendar, tick: int, k: int)
    requires Wellformed(c)
    ensures DaySize(c) >= 1 && YearSize(c) >= 1
    ensures Decode(c, tick).Some? && Decode(c, tick + k * DaySize(c)).Some?
    ensures Decode(c, tick + k * DaySize(c)).value.hour == Decode(c, tick).value.hour
    ensures Decode(c, tick + k * DaySize(c)).value.minute == Decode(c, tick).value.minute
  {
    Sizes(c);
    EncodeDecode(c, tick);
    EncodeDecode(c, tick + k * DaySize(c));
    ModOfMultiple(tick, DaySize(c), k);
    TimeOfDay(c, tick);
    TimeOfDay(c, tick + k * DaySize(c));
  }

  lemma DaysElapse(def: Definition, tick: int, k: int)
    requires Accepted(def) && def.CalendarClock?
    ensures Wellformed(def.calendar) && DaySize(def.calendar) >= 1
    ensures def.weekday.Some? ==> def.calendar.weekdays.Some? && def.calendar.weekdays.value >= 1
    ensures ElapsedDays(def, tick + k * DaySize(def.calendar)) == ElapsedDays(def, tick) + k
  {
    AcceptedCalendar(def);
    Sizes(def.calendar);
    ModOfMultiple(tick, DaySize(def.calendar), k);
  }

  lemma TurnBy(weekday: int, days: int, k: int, n: int)
    requires n >= 1
    ensures (weekday + (days + k)) % n == ((weekday + days) % n + k) % n
  {
    ModAdds(weekday + days, k, n);
    assert weekday + (days + k) == weekday + days + k;
  }

  /** ... and turns the week by as many days. */
  lemma WholeDaysTurnWeek(def: Definition, tick: int, k: int)
    requires Accepted(def) && def.CalendarClock? && def.weekday.Some?
    ensures Wellformed(def.calendar) && DaySize(def.calendar) >= 1
    ensures def.calendar.weekdays.Some? && def.calendar.weekdays.value >= 1
    ensures Weekday(def, tick + k * DaySize(def.calendar)) == (Weekday(def, tick) + k) % def.calendar.weekdays.value
  {
    DaysElapse(def, tick, k);
    TurnBy(def.weekday.value, ElapsedDays(def, tick), k, def.calendar.weekdays.value);
  }

  /** Moving by whole days, forward or backward, keeps the clock time and turns the week by as many days. */
  lemma WholeDays(def: Definition, tick: int, k: int)
    requires Accepted(def) && def.CalendarClock?
    ensures var c := def.calendar;
            && Wellformed(c) && DaySize(c) >= 1 && YearSize(c) >= 1
            && Decode(c, tick).Some? && Decode(c, tick + k * DaySize(c)).Some?
            && (var (d, e) := (Decode(c, tick).value, Decode(c, tick + k * DaySize(c)).value);
                d.hour == e.hour && d.minute == e.minute)
            && (def.weekday.Some? ==>
                  Weekday(def, tick + k * DaySize(c)) == (Weekday(def, tick) + k) % c.weekdays.value)
  {
    AcceptedCalendar(def);
    WholeDaysKeepTime(def.calendar, tick, k);
    if def.weekday.Some? {
      WholeDaysTurnWeek(def, tick, k);
    }
  }

  /** The hour and minute of a tick depend only on its position within the day. */
  lemma TimeOfDay(c: Calendar, tick: int)
    requires Wellformed(c)
    ensures DaySize(c) >= 1 && YearSize(c) >= 1
    ensures (tick % YearSize(c)) % DaySize(c) == tick % DaySize(c)
    ensures Decode(c, tick).Some? ==>
              var t := tick % DaySize(c);
              Decode(c, tick).value.hour == t / c.minutesPerHour
              && Decode(c, tick).value.minute == t % c.minutesPerHour
  {
    Sizes(c);
    var q, w := tick / YearSize(c), tick % YearSize(c);
    assert tick == q * YearSize(c) + w;
    assert q * YearSize(c) == (q * YearDays(c)) * DaySize(c);
    ModOfMultiple(w, DaySize(c), q * YearDays(c));
  }

  /**
    * Two readings, `k` whole days apart, that are not rounded: they show the same clock time, and weekdays that
    * are as many days apart.
    */
  method ReadWholeDays(def: Definition, tick: int, k: int)
    returns (now: Result<Reading, ClockError>, later: Result<Reading, ClockError>)
    requires Accepted(def) && def.CalendarClock?
    requires Safe(tick) && ExactStart(def, tick)
    requires Safe(tick + k * DaySize(def.calendar)) && ExactStart(def, tick + k * DaySize(def.calendar))
    ensures now.Ok? && now.value.CalendarReading? && later.Ok? && later.value.CalendarReading?
    ensures now.value.date.hour == later.value.date.hour && now.value.date.minute == later.value.date.minute
    ensures now.value.period == later.value.period
    ensures def.weekday.Some? ==>
              && now.value.weekdayIndex.Some? && later.value.weekdayIndex.Some?
              && def.calendar.weekdays.Some? && def.calendar.weekdays.value >= 1
              && (DaysRounding(def, tick) == DaysRounding(def, tick + k * DaySize(def.calendar)) == 0 ==>
                    later.value.weekdayIndex.value == (now.value.weekdayIndex.value + k) % def.calendar.weekdays.value)
  {
    AcceptedCalendar(def);
    now := DescribeTime(def, tick);
    later := DescribeTime(def, tick + k * DaySize(def.calendar));
    WholeDays(def, tick, k);
  }
}
