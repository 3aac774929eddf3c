/** What a duration in a unit of the clock does, said in dates and phases. */
module ClockDurations {
  import opened ClockAdvance
  import opened ClockReading
  import opened Radix
  import opened WorldClock
  import opened Wrappers

  /** The days before a date, counted from the first day of year 1, for years of either sign. */
  function DayNumber(c: Calendar, d: Date): int
    requires 1 <= d.month <= |c.months|
  {
    (d.year - 1) * Sum(c.months) + Sum(c.months[..d.month - 1]) + d.day - 1
  }

  /** The full hours before a date, counted so. */
  function HourNumber(c: Calendar, d: Date): int
    requires 1 <= d.month <= |c.months|
  {
    DayNumber(c, d) * c.hoursPerDay + d.hour
  }

  lemma EncodeByDays(c: Calendar, d: Date)
    requires Wellformed(c) && ValidDate(c, d)
    ensures Encode(c, d) == DayNumber(c, d) * (c.hoursPerDay * c.minutesPerHour) + d.hour * c.minutesPerHour + d.minute
    ensures Encode(c, d) == HourNumber(c, d) * c.minutesPerHour + d.minute
    ensures 0 <= d.hour * c.minutesPerHour + d.minute < c.hoursPerDay * c.minutesPerHour
  {
    var days, size := DayNumber(c, d), c.hoursPerDay * c.minutesPerHour;
    assert (d.year - 1) * (Sum(c.months) * size) == ((d.year - 1) * Sum(c.months)) * size;
    assert days == (d.year - 1) * Sum(c.months) + (PrecedingDays(c, d.month) + d.day - 1);
    assert days * size == ((d.year - 1) * Sum(c.months)) * size + (PrecedingDays(c, d.month) + d.day - 1) * size;
    assert days * size == (days * c.hoursPerDay) * c.minutesPerHour;
    TwoDigitBound(d.hour, d.minute, c.minutesPerHour, c.hoursPerDay);
  }

  /** Day, hour and minute of a tick's date are quotients and remainders of the tick. */
  lemma DateOfTick(c: Calendar, tick: int)
    requires Wellformed(c)
    ensures DaySize(c) >= 1 && YearSize(c) >= 1 && Decode(c, tick).Some? && ValidDate(c, Decode(c, tick).value)
    ensures var (d, size) := (Decode(c, tick).value, c.hoursPerDay * c.minutesPerHour);
            && size >= 1 && tick / size == DayNumber(c, d) && tick % size == d.hour * c.minutesPerHour + d.minute
            && tick / c.minutesPerHour == HourNumber(c, d) && tick % c.minutesPerHour == d.minute
  {
    Sizes(c);
    EncodeDecode(c, tick);
    var d, size := Decode(c, tick).value, c.hoursPerDay * c.minutesPerHour;
    EncodeByDays(c, d);
    DivUnique(DayNumber(c, d), d.hour * c.minutesPerHour + d.minute, size);
    DivUnique(HourNumber(c, d), d.minute, c.minutesPerHour);
  }

  /** Moving a tick by whole days moves the date by as many days and keeps the time of day. */
  lemma MovedByDays(c: Calendar, tick: int, k: int)
    requires Wellformed(c)
    ensures DaySize(c) >= 1 && YearSize(c) >= 1
    ensures var later := tick + k * (c.hoursPerDay * c.minutesPerHour);
            && Decode(c, tick).Some? && Decode(c, later).Some?
            && var (now, next) := (Decode(c, tick).value, Decode(c, later).value);
               && ValidDate(c, now) && ValidDate(c, next)
               && DayNumber(c, next) == DayNumber(c, now) + k
               && next.hour == now.hour && next.minute == now.minute
  {
    var size := c.hoursPerDay * c.minutesPerHour;
    DateOfTick(c, tick);
    DateOfTick(c, tick + k * size);
    ModOfMultiple(tick, size, k);
    var now, next := Decode(c, tick).value, Decode(c, tick + k * size).value;
    DivUnique(now.hour, now.minute, c.minutesPerHour);
    DivUnique(next.hour, next.minute, c.minutesPerHour);
  }

  lemma MovedByHours(c: Calendar, tick: int, k: int)
    requires Wellformed(c)
    ensures DaySize(c) >= 1 && YearSize(c) >= 1
    ensures var later := tick + k * c.minutesPerHour;
            && Decode(c, tick).Some? && Decode(c, later).Some?
            && var (now, next) := (Decode(c, tick).value, Decode(c, later).value);
               && ValidDate(c, now) && ValidDate(c, next)
               && HourNumber(c, next) == HourNumber(c, now) + k && next.minute == now.minute
  {
    DateOfTick(c, tick);
    DateOfTick(c, tick + k * c.minutesPerHour);
    ModOfMultiple(tick, c.minutesPerHour, k);
  }

  /** The amount with the sign of the way it is to go; without a direction, the way the policy goes. */
  function Signed(def: Definition, amount: int, direction: Option<Direction>): int
  {
    match direction
    case None => if def.evolution.mode == Backward then -amount else amount
    case Some(way) => if way == Back then -amount else amount
  }

  /** The directions that a policy permits to be asked for. */
  predicate MayGo(def: Definition, direction: Option<Direction>)
  {
    match direction
    case None => true
    case Some(Onward) => def.evolution.mode != Backward
    case Some(Back) => def.evolution.mode != Forward
    case Some(OtherDirection) => false
  }

  /** How far one unit goes: minutes on a calendar, phases on a phase cycle. */
  predicate HasLength(def: Definition, unit: Option<Unit>, length: int)
  {
    match unit
    case None => length == 1
    case Some(Minute) => def.CalendarClock? && length == 1
    case Some(Hour) => def.CalendarClock? && length == def.calendar.minutesPerHour
    case Some(Day) => def.CalendarClock? && length == def.calendar.hoursPerDay * def.calendar.minutesPerHour
    case Some(Phase) => def.PhaseClock? && length == 1
    case Some(Cycle) => def.PhaseClock? && length == def.phases
    case Some(OtherUnit) => false
  }

  /** The answer to a request for a duration. */
  function Answer(def: Definition, tick: int, amount: int, unit: Option<Unit>, direction: Option<Direction>)
    : Result<Step, StepError>
    requires Accepted(def) && Safe(tick) && def.evolution.mode != Random
  {
    AdvanceTime(def, tick, Request(Some(amount), unit, direction, None), 0)
  }

  lemma LengthIsSize(def: Definition, unit: Option<Unit>, length: int)
    requires Accepted(def) && HasLength(def, unit, length)
    ensures UnitSize(def, if unit.Some? then unit.value else BaseUnit(def)) == Some(length) && length >= 1
  {
    if def.CalendarClock? {
      AcceptedCalendar(def);
    }
  }

  lemma DeltaOf(def: Definition, amount: int, unit: Option<Unit>, direction: Option<Direction>, length: int)
    requires Accepted(def) && def.evolution.mode != Random
    requires UnitSize(def, if unit.Some? then unit.value else BaseUnit(def)) == Some(length)
    ensures var delta := DurationDelta(def, Request(Some(amount), unit, direction, None));
            && (delta.Ok? <==> Safe(amount) && amount >= 0 && MayGo(def, direction) && Safe(amount * length))
            && (delta.Ok? ==> delta.value == Signed(def, amount * length, direction))
  {
    assert amount * length * 1 == amount * length && amount * length * -1 == -(amount * length);
  }

  /** Which durations in a unit of the clock are accepted, and what the answer then is. */
  lemma DurationAccepted(def: Definition, tick: int, amount: int, unit: Option<Unit>, direction: Option<Direction>,
                         length: int)
    requires Accepted(def) && Safe(tick) && def.evolution.mode != Random && HasLength(def, unit, length)
    ensures var r, delta := Answer(def, tick, amount, unit, direction), Signed(def, amount, direction) * length;
            && (r.Ok? <==> && amount >= 0 && MayGo(def, direction)
                           && amount * length <= def.evolution.maxStep && Safe(tick + delta))
            && (r.Ok? ==> r.value == Step(tick + delta, delta))
  {
    LengthIsSize(def, unit, length);
    DeltaOf(def, amount, unit, direction, length);
    var whole := amount * length;
    assert (-amount) * length == -whole && Signed(def, amount, direction) * length == Signed(def, whole, direction);
    if amount >= 1 {
      MulAtLeast(length, amount);
      MulAtLeast(amount, length);
    }
  }

  /** The units that are not this clock's. */
  predicate IsForeign(def: Definition, unit: Unit)
  {
    match unit
    case Minute => def.PhaseClock? case Hour => def.PhaseClock? case Day => def.PhaseClock?
    case Phase => def.CalendarClock? case Cycle => def.CalendarClock?
    case OtherUnit => true
  }

  /** A unit of the other kind of clock, or of none, is accepted for nothing but zero. */
  lemma ForeignUnit(def: Definition, tick: int, amount: int, unit: Unit, direction: Option<Direction>)
    requires Accepted(def) && Safe(tick) && def.evolution.mode != Random
    requires IsForeign(def, unit)
    ensures var r := Answer(def, tick, amount, Some(unit), direction);
            (r.Ok? <==> amount == 0 && MayGo(def, direction)) && (r.Ok? ==> r.value == Step(tick, 0))
  {
  }

  /** A duration of this length that can be computed fails only by being too long, or by where it ends. */
  lemma ComputedRefused(def: Definition, tick: int, amount: int, unit: Option<Unit>, direction: Option<Direction>,
                        length: int)
    requires Accepted(def) && Safe(tick) && def.evolution.mode != Random && HasLength(def, unit, length)
    requires DurationDelta(def, Request(Some(amount), unit, direction, None)).Ok?
    requires Answer(def, tick, amount, unit, direction).Err?
    ensures Answer(def, tick, amount, unit, direction).error ==
            if amount * length > def.evolution.maxStep then TooFar else NotSafe
    ensures amount * length > def.evolution.maxStep || !Safe(tick + Signed(def, amount, direction) * length)
  {
    LengthIsSize(def, unit, length);
    DeltaOf(def, amount, unit, direction, length);
    DurationAccepted(def, tick, amount, unit, direction, length);
    ProductNotNegative(amount, length);
  }

  /** Why `DurationDelta` refuses a duration in a unit of this length, of which `whole` is the product. */
  lemma DeltaRefused(def: Definition, amount: int, unit: Option<Unit>, direction: Option<Direction>, length: int,
                     whole: int)
    requires Accepted(def) && def.evolution.mode != Random && whole == amount * length
    requires UnitSize(def, if unit.Some? then unit.value else BaseUnit(def)) == Some(length)
    requires DurationDelta(def, Request(Some(amount), unit, direction, None)).Err?
    ensures match DurationDelta(def, Request(Some(amount), unit, direction, None)).error
            case BadAmount => amount < 0 || !Safe(amount)
            case BadDirection => direction == Some(OtherDirection)
            case DirectionNotPermitted => direction != Some(OtherDirection) && !MayGo(def, direction)
            case NotSafe => !Safe(whole)
            case _ => false
  {
  }

  /** A duration is refused for a reason that is true. */
  lemma RefusalsAreTrue(def: Definition, tick: int, amount: int, unit: Option<Unit>, direction: Option<Direction>)
    requires Accepted(def) && Safe(tick) && def.evolution.mode != Random
    requires Answer(def, tick, amount, unit, direction).Err?
    ensures match Answer(def, tick, amount, unit, direction).error
            case BadAmount => amount < 0 || !Safe(amount)
            case UnitNotAvailable => unit.Some? && IsForeign(def, unit.value) && amount != 0
            case BadDirection => direction == Some(OtherDirection)
            case DirectionNotPermitted => direction != Some(OtherDirection) && !MayGo(def, direction)
            case TooFar => exists length :: HasLength(def, unit, length) && amount * length > def.evolution.maxStep
            case NotSafe => exists length :: HasLength(def, unit, length) &&
                              (!Safe(amount * length) || !Safe(tick + Signed(def, amount, direction) * length))
            case _ => false
  {
    if !(unit.Some? && IsForeign(def, unit.value)) {
      var length := UnitSize(def, if unit.Some? then unit.value else BaseUnit(def)).value;
      assert HasLength(def, unit, length);
      var request := Request(Some(amount), unit, direction, None);
      if DurationDelta(def, request).Err? {
        DeltaRefused(def, amount, unit, direction, length, amount * length);
      } else {
        ComputedRefused(def, tick, amount, unit, direction, length);
      }
    }
  }

  /** A random clock takes no wishes, and otherwise moves by what was drawn. */
  lemma RandomStep(def: Definition, tick: int, request: Request, draw: int)
    requires Accepted(def) && Safe(tick) && def.evolution.mode == Random
    requires def.evolution.randomRange.value.min <= draw <= def.evolution.randomRange.value.max
    ensures var wishes := request.amount.Some? || request.unit.Some? || request.direction.Some? || request.target.Some?;
            AdvanceTime(def, tick, request, draw) ==
            if wishes then Err(RandomTakesNoRequest)
            else if Safe(tick + draw) then Ok(Step(tick + draw, draw))
            else Err(NotSafe)
  {
  }

  /** k minutes, phases, or units that are not named, move the tick by k, forward or backward as asked. */
  lemma TicksMove(def: Definition, tick: int, amount: int, unit: Option<Unit>, direction: Option<Direction>)
    requires Accepted(def) && Safe(tick) && def.evolution.mode != Random
    requires unit.None? || unit == Some(Minute) || unit == Some(Phase)
    requires Answer(def, tick, amount, unit, direction).Ok?
    ensures Answer(def, tick, amount, unit, direction).value.tick == tick + Signed(def, amount, direction)
  {
    if HasLength(def, unit, 1) {
      DurationAccepted(def, tick, amount, unit, direction, 1);
    } else {
      ForeignUnit(def, tick, amount, unit.value, direction);
    }
  }

  /** k days move the date by k days and keep the time of day. */
  lemma DaysMove(def: Definition, tick: int, amount: int, direction: Option<Direction>)
    requires Accepted(def) && def.CalendarClock? && Safe(tick) && def.evolution.mode != Random
    requires Answer(def, tick, amount, Some(Day), direction).Ok?
    ensures var (c, after) := (def.calendar, Answer(def, tick, amount, Some(Day), direction).value.tick);
            && Wellformed(c) && DaySize(c) >= 1 && YearSize(c) >= 1
            && Decode(c, tick).Some? && Decode(c, after).Some?
            && var (now, next) := (Decode(c, tick).value, Decode(c, after).value);
               && ValidDate(c, now) && ValidDate(c, next)
               && DayNumber(c, next) == DayNumber(c, now) + Signed(def, amount, direction)
               && next.hour == now.hour && next.minute == now.minute
  {
    AcceptedCalendar(def);
    DurationAccepted(def, tick, amount, Some(Day), direction, def.calendar.hoursPerDay * def.calendar.minutesPerHour);
    MovedByDays(def.calendar, tick, Signed(def, amount, direction));
  }

  /** k hours move the date by k hours and keep the minute. */
  lemma HoursMove(def: Definition, tick: int, amount: int, direction: Option<Direction>)
    requires Accepted(def) && def.CalendarClock? && Safe(tick) && def.evolution.mode != Random
    requires Answer(def, tick, amount, Some(Hour), direction).Ok?
    ensures var (c, after) := (def.calendar, Answer(def, tick, amount, Some(Hour), direction).value.tick);
            && Wellformed(c) && DaySize(c) >= 1 && YearSize(c) >= 1
            && Decode(c, tick).Some? && Decode(c, after).Some?
            && var (now, next) := (Decode(c, tick).value, Decode(c, after).value);
               && ValidDate(c, now) && ValidDate(c, next)
               && HourNumber(c, next) == HourNumber(c, now) + Signed(def, amount, direction)
               && next.minute == now.minute
  {
    AcceptedCalendar(def);
    DurationAccepted(def, tick, amount, Some(Hour), direction, def.calendar.minutesPerHour);
    MovedByHours(def.calendar, tick, Signed(def, amount, direction));
  }

  /** k cycles move the cycle by k and keep the phase. */
  lemma CyclesMove(def: Definition, tick: int, amount: int, direction: Option<Direction>)
    requires Accepted(def) && def.PhaseClock? && Safe(tick) && def.evolution.mode != Random
    requires Answer(def, tick, amount, Some(Cycle), direction).Ok?
    ensures var after := Answer(def, tick, amount, Some(Cycle), direction).value.tick;
            && after / def.phases == tick / def.phases + Signed(def, amount, direction)
            && after % def.phases == tick % def.phases
  {
    DurationAccepted(def, tick, amount, Some(Cycle), direction, def.phases);
    ModOfMultiple(tick, def.phases, Signed(def, amount, direction));
  }
}
