/** The workout records: the common fields of `Workout`, the two kinds
    `Running` and `Cycling` with their derived metric, the id taken from the
    clock and the human-readable description. A record is a tagged value:
    the constructor used is the record's `type`, so a record read back from
    storage and a freshly built one are the same kind of value. */
module Workouts {
  import opened JsNumbers
  import opened Decimal

  /** The values of the form's type selector. */
  datatype WorkoutType = Running | Cycling

  /** A map position `[lat, lng]`. */
  datatype Coords = Coords(lat: real, lng: real)

  /** What `getMonth()` returns: 0 for January up to 11 for December. */
  type MonthIndex = m: nat | m < 12

  /** What `getDate()` returns: the day of the month. */
  type DayOfMonth = d: nat | 1 <= d <= 31 witness 1

  /** The creation instant (`new Date()`), reduced to the parts the model reads. */
  datatype Date = Date(month: MonthIndex, day: DayOfMonth)

  datatype Workout =
    | RunningWorkout(id: string, date: Date, coords: Coords, distance: JsNumber, duration: JsNumber,
                     description: string, cadence: JsNumber, pace: JsNumber)
    | CyclingWorkout(id: string, date: Date, coords: Coords, distance: JsNumber, duration: JsNumber,
                     description: string, elevationGain: JsNumber, speed: JsNumber)
  {
    /** The record's `type` field. */
    function Kind(): WorkoutType {
      if RunningWorkout? then Running else Cycling
    }
  }

  /** The string stored in the `type` field. */
  function TypeName(kind: WorkoutType): string {
    match kind
    case Running => "running"
    case Cycling => "cycling"
  }

  const Months: seq<string> := ["January", "February", "March", "April", "May", "June", "July",
                                "August", "September", "October", "November", "December"]

  /** `toUpperCase` on the characters that occur in a type name. */
  function UpperCase(c: char): (u: char)
    ensures 'a' <= c <= 'z' ==> 'A' <= u <= 'Z' && u as int + 32 == c as int
    ensures !('a' <= c <= 'z') ==> u == c
  {
    if 'a' <= c <= 'z' then (c as int - 32) as char else c
  }

  /** The first character upper-cased, the rest kept. */
  function Capitalize(s: string): (r: string)
    requires |s| >= 1
    ensures |r| == |s| && r[0] == UpperCase(s[0]) && r[1..] == s[1..]
  {
    [UpperCase(s[0])] + s[1..]
  }

  /** `_setDescription`: the capitalised type, " on ", the month name, a space, the day. */
  function Description(kind: WorkoutType, date: Date): (d: string)
    ensures |d| > 11
    ensures d[..11] == (if kind == Running then "Running on " else "Cycling on ")
    ensures d[11..] == Months[date.month] + " " + DecimalString(date.day)
  {
    var head := Capitalize(TypeName(kind)) + " on ";
    assert |head| == 11;
    var d := head + (Months[date.month] + " " + DecimalString(date.day));
    assert d[..11] == head && d[11..] == Months[date.month] + " " + DecimalString(date.day);
    d
  }

  /** `s.slice(-k)` for `k >= 1`: the last `k` characters, or all of a shorter string. */
  function SliceFromEnd(s: string, k: nat): (r: string)
    requires k >= 1
    ensures |r| == if |s| <= k then |s| else k
    ensures r == s[|s| - |r|..]
  {
    if |s| <= k then s else s[|s| - k..]
  }

  /** `(Date.now() + '').slice(-10)` for the clock reading `now` in milliseconds. */
  function WorkoutId(now: nat): (id: string)
    ensures 1 <= |id| <= 10 && |id| <= |DecimalString(now)| && AllDigits(id)
    ensures id == DecimalString(now)[|DecimalString(now)| - |id|..]
    ensures |DecimalString(now)| <= 10 ==> id == DecimalString(now)
  {
    SliceFromEnd(DecimalString(now), 10)
  }

  /** `new Running(coords, distance, duration, cadence)`: no input is refused,
      and `pace` is `duration / distance` with JavaScript's division. */
  function NewRunning(coords: Coords, distance: JsNumber, duration: JsNumber, cadence: JsNumber,
                      date: Date, now: nat): (w: Workout)
    ensures w.Kind() == Running && w.RunningWorkout?
    ensures w.coords == coords && w.distance == distance && w.duration == duration && w.cadence == cadence
    ensures w.date == date && w.id == WorkoutId(now) && w.description == Description(Running, date)
    // pace is minutes per km: pace times distance is the duration
    ensures FinitePositive(distance) && duration.Finite? ==>
      w.pace.Finite? && w.pace.value * distance.value == duration.value
  {
    RunningWorkout(WorkoutId(now), date, coords, distance, duration, Description(Running, date),
                   cadence, Div(duration, distance))
  }

  /** `new Cycling(coords, distance, duration, elevationGain)`: no input is refused,
      and `speed` is `distance / (duration / 60)` with JavaScript's division. */
  function NewCycling(coords: Coords, distance: JsNumber, duration: JsNumber, elevationGain: JsNumber,
                      date: Date, now: nat): (w: Workout)
    ensures w.Kind() == Cycling && w.CyclingWorkout?
    ensures w.coords == coords && w.distance == distance && w.duration == duration
    ensures w.elevationGain == elevationGain
    ensures w.date == date && w.id == WorkoutId(now) && w.description == Description(Cycling, date)
    // speed is km per hour: speed times the duration in hours is the distance
    ensures FinitePositive(duration) && distance.Finite? ==>
      w.speed.Finite? && w.speed.value * (duration.value / 60.0) == distance.value
  {
    CyclingWorkout(WorkoutId(now), date, coords, distance, duration, Description(Cycling, date),
                   elevationGain, Div(distance, Div(duration, Finite(60.0))))
  }

  /** The invariants a workout built from accepted input satisfies. */
  predicate WellFormed(w: Workout) {
    && FinitePositive(w.distance) && FinitePositive(w.duration)
    && (match w
        case RunningWorkout(_, _, _, _, _, _, cadence, pace) => FinitePositive(cadence) && FinitePositive(pace)
        case CyclingWorkout(_, _, _, _, _, _, elevationGain, speed) => elevationGain.Finite? && FinitePositive(speed))
  }

  lemma NewRunningWellFormed(coords: Coords, distance: JsNumber, duration: JsNumber, cadence: JsNumber,
                             date: Date, now: nat)
    requires FinitePositive(distance) && FinitePositive(duration) && FinitePositive(cadence)
    ensures WellFormed(NewRunning(coords, distance, duration, cadence, date, now))
    ensures NewRunning(coords, distance, duration, cadence, date, now).pace
         == Finite(duration.value / distance.value)
  {
  }

  lemma NewCyclingWellFormed(coords: Coords, distance: JsNumber, duration: JsNumber, elevationGain: JsNumber,
                             date: Date, now: nat)
    requires FinitePositive(distance) && FinitePositive(duration) && elevationGain.Finite?
    ensures WellFormed(NewCycling(coords, distance, duration, elevationGain, date, now))
    ensures NewCycling(coords, distance, duration, elevationGain, date, now).speed
         == Finite(distance.value / (duration.value / 60.0))
  {
  }

  /** 5 km in 30 minutes is a pace of 6 minutes per km. */
  lemma RunningPaceExample(coords: Coords, date: Date, now: nat)
    ensures NewRunning(coords, Finite(5.0), Finite(30.0), Finite(150.0), date, now).pace == Finite(6.0)
  {
  }

  // ----- id -----

  /** The id has at most ten characters, and exactly ten once the clock reads 10^9 ms or more. */
  lemma IdLength(now: nat)
    ensures |WorkoutId(now)| <= 10
    ensures |WorkoutId(now)| == 10 <==> now >= Pow10(9)
  {
    DecimalLength(now, 9);
  }

  /** The id is all digits and reads back as the clock modulo 10^10. */
  lemma IdValue(now: nat)
    ensures AllDigits(WorkoutId(now)) && ParseDecimal(WorkoutId(now)) == now % Pow10(10)
  {
    var s := DecimalString(now);
    if |s| <= 10 {
      SuffixValue(now, |s|);
      assert s[|s| - |s|..] == s;
      DecimalLength(now, |s|);
      DecimalLength(now, 10);
      ModOfSmaller(now, Pow10(|s|));
      ModOfSmaller(now, Pow10(10));
    } else {
      SuffixValue(now, 10);
    }
  }

  /** Two clock readings less than 10^10 ms (about 115 days) apart give different ids. */
  lemma IdsDistinct(a: nat, b: nat)
    requires a < b < a + Pow10(10)
    ensures WorkoutId(a) != WorkoutId(b)
  {
    IdValue(a);
    IdValue(b);
    ModDistinct(a, b, Pow10(10));
  }

  // ----- description -----

  /** The month index that names a month, the inverse of `Months`. */
  function MonthNumber(name: string): (m: int)
    ensures 0 <= m < 12 ==> Months[m] == name
  {
    if name == "January" then 0 else if name == "February" then 1
    else if name == "March" then 2 else if name == "April" then 3
    else if name == "May" then 4 else if name == "June" then 5
    else if name == "July" then 6 else if name == "August" then 7
    else if name == "September" then 8 else if name == "October" then 9
    else if name == "November" then 10 else if name == "December" then 11
    else -1
  }

  lemma MonthNumberRoundTrip(m: MonthIndex)
    ensures MonthNumber(Months[m]) == m
  {
  }

  predicate NoSpace(s: string) {
    forall i :: 0 <= i < |s| ==> s[i] != ' '
  }

  lemma SplitAtSpace(a: string, b: string, c: string, e: string)
    requires NoSpace(a) && NoSpace(c) && a + " " + b == c + " " + e
    ensures a == c && b == e
  {
    var x := a + " " + b;
    var y := c + " " + e;
    assert x[|a|] == ' ' && y[|c|] == ' ';
    assert a == x[..|a|] && c == y[..|c|];
    assert b == x[|a| + 1..] && e == y[|c| + 1..];
  }

  lemma MonthNameNoSpace(m: MonthIndex)
    ensures NoSpace(Months[m])
  {
  }

  /** Different kinds or dates give different descriptions: the description
      names the type, the month and the day unambiguously. */
  lemma DescriptionInjective(k1: WorkoutType, d1: Date, k2: WorkoutType, d2: Date)
    requires Description(k1, d1) == Description(k2, d2)
    ensures k1 == k2 && d1.month == d2.month && d1.day == d2.day
  {
    var m1, m2 := Months[d1.month], Months[d2.month];
    var n1, n2 := DecimalString(d1.day), DecimalString(d2.day);
    assert m1 + " " + n1 == m2 + " " + n2;
    MonthNameNoSpace(d1.month);
    MonthNameNoSpace(d2.month);
    SplitAtSpace(m1, n1, m2, n2);
    MonthNumberRoundTrip(d1.month);
    MonthNumberRoundTrip(d2.month);
    DecimalStringInjective(d1.day, d2.day);
  }

  lemma DescriptionExample(date: Date)
    requires date.month == 0 && date.day == 5
    ensures Description(Running, date) == "Running on January 5"
  {
  }
}
