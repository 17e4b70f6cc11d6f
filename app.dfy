/** The application controller: the in-memory list of workouts, the submit
    handler that validates the form and appends one record, and the load
    step that restores the list from browser storage. Map, markers, list
    rendering and the form's DOM state are not part of this module. */
module AppController {
  import opened JsNumbers
  import opened Validation
  import opened Workouts

  datatype Option<T> = None | Some(value: T)

  /** The form as read by the submit handler: the selected type, the
      numbers produced by unary `+` on each input, and the clicked position. */
  datatype Submission = Submission(kind: WorkoutType, distance: JsNumber, duration: JsNumber,
                                   cadence: JsNumber, elevation: JsNumber, latlng: Coords)

  /** What a submit does: the alert path, or the record that was appended. */
  datatype SubmitOutcome = Rejected | Added(workout: Workout)

  /** The acceptance rule, stated field by field: distance and duration finite
      and above zero; for running the cadence too; for cycling the elevation
      gain finite but of any sign. */
  predicate Acceptable(s: Submission) {
    && FinitePositive(s.distance) && FinitePositive(s.duration)
    && (match s.kind
        case Running => FinitePositive(s.cadence)
        case Cycling => s.elevation.Finite?)
  }

  /** The record a submission builds once it is accepted. */
  function Built(s: Submission, date: Date, now: nat): Workout {
    match s.kind
    case Running => NewRunning(s.latlng, s.distance, s.duration, s.cadence, date, now)
    case Cycling => NewCycling(s.latlng, s.distance, s.duration, s.elevation, date, now)
  }

  predicate AllWellFormed(ws: seq<Workout>) {
    forall i :: 0 <= i < |ws| ==> WellFormed(ws[i])
  }

  /** An accepted submission builds a record that satisfies the workout
      invariants, and for cycling a negative or zero elevation gain is kept. */
  lemma AcceptedIsWellFormed(s: Submission, date: Date, now: nat)
    requires Acceptable(s)
    ensures WellFormed(Built(s, date, now))
    ensures Built(s, date, now).Kind() == s.kind
  {
  }

  /** The browser storage entry under the key 'workouts': absent, or the
      list last written there. */
  class Storage {
    var saved: Option<seq<Workout>>

    constructor (initial: Option<seq<Workout>>)
      ensures saved == initial
    {
      saved := initial;
    }
  }

  class App {
    var workouts: seq<Workout>
    const storage: Storage

    /** Builds the controller and loads what storage holds. */
    constructor (storage: Storage)
      ensures this.storage == storage
      ensures workouts == if storage.saved.Some? then storage.saved.value else []
    {
      this.storage := storage;
      workouts := [];
      new;
      LoadLocalStorage(storage.saved);
    }

    /** `_getLocalStorage`: an absent entry changes nothing; a present one
        replaces the list wholesale. */
    method LoadLocalStorage(data: Option<seq<Workout>>)
      modifies this
      ensures workouts == if data.Some? then data.value else old(workouts)
    {
      if data.None? {
        return;
      }
      workouts := data.value;
    }

    /** `_newWorkout`: validate the form; on failure change nothing, on
        success append exactly one record and write the list to storage. */
    method NewWorkout(s: Submission, date: Date, now: nat) returns (outcome: SubmitOutcome)
      modifies this, storage
      ensures outcome.Rejected? <==> !Acceptable(s)
      ensures outcome.Added? ==> outcome.workout == Built(s, date, now) && WellFormed(outcome.workout)
      ensures workouts == if outcome.Added? then old(workouts) + [outcome.workout] else old(workouts)
      ensures storage.saved == if outcome.Added? then Some(workouts) else old(storage.saved)
      ensures AllWellFormed(old(workouts)) ==> AllWellFormed(workouts)
    {
      var distance := s.distance;
      var duration := s.duration;
      var workout: Workout;
      if s.kind == Running {
        var cadence := s.cadence;
        if !AllNumbers([distance, duration, cadence]) || !AllPositive([distance, duration, cadence]) {
          return Rejected;
        }
        var inputs := [distance, duration, cadence];
        assert inputs[0] == distance && inputs[1] == duration && inputs[2] == cadence;
        workout := NewRunning(s.latlng, distance, duration, cadence, date, now);
      } else {
        var elevationGain := s.elevation;
        if !AllNumbers([distance, duration, elevationGain]) || !AllPositive([distance, duration]) {
          return Rejected;
        }
        var inputs := [distance, duration, elevationGain];
        assert inputs[0] == distance && inputs[1] == duration && inputs[2] == elevationGain;
        workout := NewCycling(s.latlng, distance, duration, elevationGain, date, now);
      }
      AcceptedIsWellFormed(s, date, now);
      workouts := workouts + [workout];
      storage.saved := Some(workouts);
      outcome := Added(workout);
    }
  }

  /** A 5 km run in 30 minutes is added with pace 6 and saved; a ride with
      distance 0 is then refused and changes nothing. */
  method SubmitScenario(here: Coords, date: Date, now: nat) {
    var store := new Storage(None);
    var app := new App(store);
    assert app.workouts == [];

    var run := app.NewWorkout(Submission(Running, Finite(5.0), Finite(30.0), Finite(150.0), NaN, here), date, now);
    assert Acceptable(Submission(Running, Finite(5.0), Finite(30.0), Finite(150.0), NaN, here));
    assert run.Added? && run.workout.pace == Finite(6.0);
    assert app.workouts == [run.workout] && store.saved == Some(app.workouts);

    var ride := app.NewWorkout(Submission(Cycling, Finite(0.0), Finite(20.0), NaN, Finite(100.0), here), date, now);
    assert ride.Rejected? && app.workouts == [run.workout];
  }

  /** A ride with a negative elevation gain is accepted after earlier records,
      and a controller built afresh on the same storage restores the list. */
  method ReloadScenario(earlier: seq<Workout>, here: Coords, date: Date, now: nat) {
    var store := new Storage(Some(earlier));
    var app := new App(store);
    assert app.workouts == earlier;

    var downhill := app.NewWorkout(Submission(Cycling, Finite(10.0), Finite(20.0), NaN, Finite(-50.0), here), date, now);
    assert Acceptable(Submission(Cycling, Finite(10.0), Finite(20.0), NaN, Finite(-50.0), here));
    assert downhill.Added? && downhill.workout.speed == Finite(30.0);
    assert app.workouts == earlier + [downhill.workout];

    var reloaded := new App(store);
    assert reloaded.workouts == earlier + [downhill.workout];
  }
}
