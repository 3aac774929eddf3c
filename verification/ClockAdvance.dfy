/** Moving a clock: `advanceTime` of `plugins/world-time/clock.js` and whole runs of it. */
module ClockAdvance {
  import opened WorldClock
  import opened ClockReading
  import opened Radix
  import opened Wrappers

  datatype Unit = Minute | Hour | Day | Phase | Cycle | OtherUnit

  /** `"forward"`, `"backward"`, or any other text. */
  datatype Direction = Onward | Back | OtherDirection

  datatype Target =
    | CalendarTarget(date: Date, weekday: Option<int>)
    | PhaseTarget(cycle: int, phase: int)
    | MalformedTarget

  datatype Request = Request(
    amount: Option<int>, unit: Option<Unit>, direction: Option<Direction>, target: Option<Target>)

  const EMPTY := Request(None, None, None, None)

  datatype StepError =
    | RandomTakesNoRequest | TargetOrDuration | NotATime | WrongWay | UnitWithoutAmount | BadAmount
    | UnitNotAvailable | BadDirection | DirectionNotPermitted | TooFar | NotSafe

  datatype Step = Step(tick: int, delta: int)

  /** The definition with the target as its starting time, which the schema then parses. */
  function Aim(def: Definition, target: Target): Option<Definition>
  {
    match (def, target)
    case (CalendarClock(c, _, weekday, evolution), CalendarTarget(date, own)) =>
      Some(CalendarClock(c, date, if c.weekdays.Some? then weekday else own, evolution))
    case (PhaseClock(phases, _, _, evolution), PhaseTarget(cycle, phase)) =>
      Some(PhaseClock(phases, cycle, phase, evolution))
    case _ => None
  }

  /** The size of a unit on this clock, none when it is not one of the clock's own. */
  function UnitSize(def: Definition, unit: Unit): Option<int>
  {
    match (def, unit)
    case (CalendarClock(_, _, _, _), Minute) => Some(1)
    case (CalendarClock(c, _, _, _), Hour) => Some(c.minutesPerHour)
    case (CalendarClock(c, _, _, _), Day) => Some(DaySize(c))
    case (PhaseClock(_, _, _, _), Phase) => Some(1)
    case (PhaseClock(phases, _, _, _), Cycle) => Some(phases)
    case _ => None
  }

  function BaseUnit(def: Definition): Unit { if def.CalendarClock? then Minute else Phase }

  /** Does the policy allow moving by `delta`? */
  predicate Permits(mode: Mode, delta: int)
  {
    && (mode == Forward ==> delta >= 0)
    && (mode == Backward ==> delta <= 0)
  }

  function TargetDelta(def: Definition, tick: int, request: Request): Result<int, StepError>
    requires Accepted(def) && request.target.Some?
  {
    if request.amount.Some? || request.unit.Some? || request.direction.Some? then Err(TargetOrDuration)
    else
      var aim := Aim(def, request.target.value);
      if aim.None? || !Accepted(aim.value) then Err(NotATime)
      else if InitialTick(aim.value).Err? || !Safe(InitialTick(aim.value).value - tick) then Err(NotSafe)
      else
        var delta := InitialTick(aim.value).value - tick;
        if Permits(def.evolution.mode, delta) then Ok(delta) else Err(WrongWay)
  }

  function DurationDelta(def: Definition, request: Request): Result<int, StepError>
    requires Accepted(def)
  {
    var mode := def.evolution.mode;
    if request.amount.None? && request.unit.Some? then Err(UnitWithoutAmount)
    else
      var amount := if request.amount.Some? then request.amount.value else def.evolution.defaultStep;
      if !Safe(amount) || amount < 0 then Err(BadAmount)
      else
        var unit := if request.unit.Some? then request.unit.value else BaseUnit(def);
        if UnitSize(def, unit).None? && amount != 0 then Err(UnitNotAvailable)
        else
          var size := if UnitSize(def, unit).Some? then UnitSize(def, unit).value else 0;
          var direction := if request.direction.Some? then request.direction.value
                           else if mode == Backward then Back else Onward;
          if direction == OtherDirection then Err(BadDirection)
          else if mode != Bidirectional && direction != (if mode == Forward then Onward else Back)
          then Err(DirectionNotPermitted)
          else if !Safe(amount * size) then Err(NotSafe)
          else Ok(amount * size * (if direction == Back then -1 else 1))
  }

  /** `advanceTime`; `draw` is what `random.int` returns for the authored range. */
  function AdvanceTime(def: Definition, tick: int, request: Request, draw: int): Result<Step, StepError>
    requires Accepted(def) && Safe(tick)
    requires def.evolution.mode == Random ==>
               def.evolution.randomRange.value.min <= draw <= def.evolution.randomRange.value.max
  {
    var delta :=
      if def.evolution.mode == Random then
        if request == EMPTY then Ok(draw) else Err(RandomTakesNoRequest)
      else if request.target.Some? then TargetDelta(def, tick, request)
      else DurationDelta(def, request);
    match delta
    case Err(e) => Err(e)
    case Ok(d) =>
      if Abs(d) > def.evolution.maxStep then Err(TooFar)
      else if !Safe(tick + d) then Err(NotSafe)
      else Ok(Step(tick + d, d))
  }

  // ---------------------------------------------------------------- one step

  /** Every accepted step keeps the policy: its length, its direction and the safe range. */
  lemma StepKeepsPolicy(def: Definition, tick: int, request: Request, draw: int)
    requires Accepted(def) && Safe(tick)
    requires def.evolution.mode == Random ==>
               def.evolution.randomRange.value.min <= draw <= def.evolution.randomRange.value.max
    requires AdvanceTime(def, tick, request, draw).Ok?
    ensures var step := AdvanceTime(def, tick, request, draw).value;
            && step.tick == tick + step.delta && Safe(step.tick)
            && Abs(step.delta) <= def.evolution.maxStep
            && (def.evolution.mode == Forward ==> step.delta >= 0)
            && (def.evolution.mode == Backward ==> step.delta <= 0)
            && (def.evolution.mode == Random ==> step.delta == draw)
  {
    if def.evolution.mode != Random && request.target.None? {
      var amount := if request.amount.Some? then request.amount.value else def.evolution.defaultStep;
      var unit := if request.unit.Some? then request.unit.value else BaseUnit(def);
      if def.CalendarClock? {
        AcceptedCalendar(def);
      }
      if UnitSize(def, unit).Some? {
        ProductNotNegative(amount, UnitSize(def, unit).value);
      }
    }
  }

  /** A target step on a calendar ends on exactly the requested date, at a tick that is read without rounding. */
  lemma TargetStepLands(def: Definition, tick: int, date: Date, weekday: Option<int>, draw: int)
    requires Accepted(def) && def.CalendarClock? && Safe(tick) && def.evolution.mode != Random
    ensures Wellformed(def.calendar) && DaySize(def.calendar) >= 1 && YearSize(def.calendar) >= 1
    ensures var r := AdvanceTime(def, tick, Request(None, None, None, Some(CalendarTarget(date, weekday))), draw);
            r.Ok? ==> Decode(def.calendar, r.value.tick) == Some(date) && ExactStart(def, r.value.tick)
  {
    AcceptedCalendar(def);
    var aim := Aim(def, CalendarTarget(date, weekday)).value;
    if Accepted(aim) {
      DecodeEncode(def.calendar, date);
      YearsBound(date.year, YearSize(def.calendar), 0);
    }
  }

  /**
    * Which destinations a calendar accepts, said in dates: the date exists on this calendar, it lies on
    * the permitted side of the current date, and the way there is no longer than `maxStep`. A weekday of its
    * own is ignored by a calendar with a week, and refused by one without.
    */
  lemma TargetAccepted(def: Definition, tick: int, date: Date, weekday: Option<int>, draw: int)
    requires Accepted(def) && def.CalendarClock? && Safe(tick) && def.evolution.mode != Random
    ensures Wellformed(def.calendar) && DaySize(def.calendar) >= 1 && YearSize(def.calendar) >= 1
    ensures Decode(def.calendar, tick).Some?
    ensures var c, now := def.calendar, Decode(def.calendar, tick).value;
            AdvanceTime(def, tick, Request(None, None, None, Some(CalendarTarget(date, weekday))), draw).Ok?
            <==>
            && ValidDate(c, date) && (weekday.Some? ==> c.weekdays.Some?)
            && Abs(date.year) <= 1_000_000 && Safe((Abs(date.year) + 2) * YearSize(c))
            && (def.evolution.mode == Forward ==> !Before(date, now))
            && (def.evolution.mode == Backward ==> !Before(now, date))
            && Abs(Encode(c, date) - tick) <= def.evolution.maxStep
  {
    AcceptedCalendar(def);
    var c := def.calendar;
    EncodeDecode(c, tick);
    var now := Decode(c, tick).value;
    AimAccepted(def, date, weekday);
    if ValidDate(c, date) {
      EncodeOrder(c, date, now);
      EncodeOrder(c, now, date);
      if Accepted(Aim(def, CalendarTarget(date, weekday)).value) {
        TargetStep(def, tick, date, weekday, draw);
      }
    }
  }

  /** The schema accepts a target exactly when it is a date of the calendar within the safe years. */
  lemma AimAccepted(def: Definition, date: Date, weekday: Option<int>)
    requires Accepted(def) && def.CalendarClock?
    ensures Accepted(Aim(def, CalendarTarget(date, weekday)).value)
            <==> ValidDate(def.calendar, date) && (weekday.Some? ==> def.calendar.weekdays.Some?)
                 && Abs(date.year) <= 1_000_000 && Safe((Abs(date.year) + 2) * YearSize(def.calendar))
  {
  }

  /** What a target request that names a real date answers. */
  lemma TargetStep(def: Definition, tick: int, date: Date, weekday: Option<int>, draw: int)
    requires Accepted(def) && def.CalendarClock? && Safe(tick) && def.evolution.mode != Random
    requires Accepted(Aim(def, CalendarTarget(date, weekday)).value)
    ensures AdvanceTime(def, tick, Request(None, None, None, Some(CalendarTarget(date, weekday))), draw).Ok?
            <==> Permits(def.evolution.mode, Encode(def.calendar, date) - tick)
                 && Abs(Encode(def.calendar, date) - tick) <= def.evolution.maxStep
  {
    InitialTickNeverThrows(Aim(def, CalendarTarget(date, weekday)).value);
  }

  /** A target step on a phase cycle ends on exactly the requested cycle and phase, and is read so. */
  lemma PhaseTargetLands(def: Definition, tick: int, cycle: int, phase: int, draw: int)
    requires Accepted(def) && def.PhaseClock? && Safe(tick) && def.evolution.mode != Random
    ensures var r := AdvanceTime(def, tick, Request(None, None, None, Some(PhaseTarget(cycle, phase))), draw);
            r.Ok? ==>
              r.value.tick / def.phases == cycle && r.value.tick % def.phases == phase && ExactStart(def, r.value.tick)
  {
    var aim := Aim(def, PhaseTarget(cycle, phase)).value;
    if Accepted(aim) {
      DivUnique(cycle, phase, def.phases);
      ProductBounds(cycle, def.phases, 1_000_000);
    }
  }

  /** Which destinations a phase cycle accepts: phases there are, on the permitted side of now, within reach. */
  lemma PhaseTargetAccepted(def: Definition, tick: int, cycle: int, phase: int, draw: int)
    requires Accepted(def) && def.PhaseClock? && Safe(tick) && def.evolution.mode != Random
    ensures var target := cycle * def.phases + phase;
            AdvanceTime(def, tick, Request(None, None, None, Some(PhaseTarget(cycle, phase))), draw).Ok?
            <==>
            && 0 <= phase < def.phases && -1_000_000 <= cycle <= 1_000_000
            && (def.evolution.mode == Forward ==> tick <= target)
            && (def.evolution.mode == Backward ==> target <= tick)
            && -def.evolution.maxStep <= target - tick <= def.evolution.maxStep
  {
    var aim := Aim(def, PhaseTarget(cycle, phase)).value;
    if Accepted(aim) {
      ProductBounds(cycle, def.phases, 1_000_000);
    }
  }

  /** A destination comes alone, and is of the clock's own kind. */
  lemma TargetIsAlone(def: Definition, tick: int, request: Request, draw: int)
    requires Accepted(def) && Safe(tick) && def.evolution.mode != Random && request.target.Some?
    ensures request.amount.Some? || request.unit.Some? || request.direction.Some? ==>
              AdvanceTime(def, tick, request, draw) == Err(TargetOrDuration)
    ensures request.amount.None? && request.unit.None? && request.direction.None? ==>
              (request.target.value.PhaseTarget? != def.PhaseClock? ==>
                 AdvanceTime(def, tick, request, draw) == Err(NotATime))
  {
  }

  /** A request that names nothing is accepted exactly when the default step stays in the safe range. */
  lemma EmptyRequest(def: Definition, tick: int, draw: int)
    requires Accepted(def) && Safe(tick) && def.evolution.mode != Random
    ensures var delta := if def.evolution.mode == Backward then -def.evolution.defaultStep
                         else def.evolution.defaultStep;
            AdvanceTime(def, tick, EMPTY, draw) ==
            if Safe(tick + delta) then Ok(Step(tick + delta, delta)) else Err(NotSafe)
  {
    assert UnitSize(def, BaseUnit(def)) == Some(1);
  }

  /** Zero is accepted in any unit, even one this clock does not have, and moves nothing. */
  lemma ZeroInAnyUnit(def: Definition, tick: int, unit: Unit, draw: int)
    requires Accepted(def) && Safe(tick) && def.evolution.mode != Random
    ensures AdvanceTime(def, tick, Request(Some(0), Some(unit), None, None), draw) == Ok(Step(tick, 0))
  {
    var size := if UnitSize(def, unit).Some? then UnitSize(def, unit).value else 0;
    assert 0 * size == 0;
  }

  /** The same duration in the other direction is the opposite change. */
  lemma DurationTurned(def: Definition, amount: int, unit: Unit)
    requires Accepted(def) && def.evolution.mode == Bidirectional
    ensures var onward := DurationDelta(def, Request(Some(amount), Some(unit), Some(Onward), None));
            DurationDelta(def, Request(Some(amount), Some(unit), Some(Back), None))
            == if onward.Ok? then Ok(-onward.value) else onward
  {
    var size := if UnitSize(def, unit).Some? then UnitSize(def, unit).value else 0;
    assert amount * size * 1 == amount * size && amount * size * -1 == -(amount * size);
  }

  /** On a clock that runs both ways, an accepted duration is taken back by the opposite one. */
  lemma ThereAndBack(def: Definition, tick: int, amount: int, unit: Unit, onward: bool, draw: int)
    requires Accepted(def) && Safe(tick) && def.evolution.mode == Bidirectional
    ensures var (way, back) := if onward then (Onward, Back) else (Back, Onward);
            var there := AdvanceTime(def, tick, Request(Some(amount), Some(unit), Some(way), None), draw);
            there.Ok? ==>
              && Safe(there.value.tick)
              && AdvanceTime(def, there.value.tick, Request(Some(amount), Some(unit), Some(back), None), draw)
                 == Ok(Step(tick, -there.value.delta))
  {
    DurationTurned(def, amount, unit);
  }

  // ---------------------------------------------------------------- runs

  /** A request with the number the random source gave when it was made. */
  datatype Turn = Turn(request: Request, draw: int)

  predicate DrawsInRange(def: Definition, turns: seq<Turn>)
    requires Accepted(def)
  {
    def.evolution.mode == Random ==>
      forall i :: 0 <= i < |turns| ==>
        def.evolution.randomRange.value.min <= turns[i].draw <= def.evolution.randomRange.value.max
  }

  /** The clock after a run of turns; a refused request leaves it where it was. */
  function Run(def: Definition, tick: int, turns: seq<Turn>): int
    requires Accepted(def) && Safe(tick) && DrawsInRange(def, turns)
    decreases |turns|
  {
    if turns == [] then tick
    else
      var r := AdvanceTime(def, tick, turns[0].request, turns[0].draw);
      Run(def, if r.Ok? then r.value.tick else tick, turns[1..])
  }

  /** Over any run the clock moves at most `maxStep` a turn, only the permitted way, and stays safe. */
  lemma {:induction false} RunKeepsPolicy(def: Definition, tick: int, turns: seq<Turn>)
    requires Accepted(def) && Safe(tick) && DrawsInRange(def, turns)
    ensures var end := Run(def, tick, turns);
            && Safe(end)
            && Abs(end - tick) <= |turns| * def.evolution.maxStep
            && (def.evolution.mode == Forward ==> tick <= end)
            && (def.evolution.mode == Backward ==> end <= tick)
    decreases |turns|
  {
    if turns == [] {
    } else {
      var r := AdvanceTime(def, tick, turns[0].request, turns[0].draw);
      if r.Ok? {
        StepKeepsPolicy(def, tick, turns[0].request, turns[0].draw);
      }
      RunKeepsPolicy(def, if r.Ok? then r.value.tick else tick, turns[1..]);
      assert |turns| * def.evolution.maxStep == (|turns| - 1) * def.evolution.maxStep + def.evolution.maxStep;
    }
  }
}
