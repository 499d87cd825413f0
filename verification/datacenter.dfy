/**
  The exercise store of datacenter.cpp: a JSON document (`m_data`) whose
  `exercises` member is a list of exercise records, each with a `history` list.
  The store loads the document from exercises.json, repairs it, and changes it
  by list index. File access, the clock and the `dataChanged` signal are inputs
  or ghost state here.
 */
module DataStore {
  import opened Wrappers
  import opened JsonValues
  import opened DateTimes

  /** What reading exercises.json produced when the store loads. */
  datatype FileRead =
    | Missing                      // the file does not exist
    | Unopenable                   // it exists but cannot be opened for reading
    | Contents(doc: Option<Json>)  // its text, parsed; None when it is not well-formed JSON

  /** The top-level fields a history entry copies. */
  const SnapshotKeys: set<string> := {"lastUpdated", "currentValue", "unit", "repetitions"}

  /** The fields `updateExercise` assigns. */
  const UpdatedKeys: set<string> := {"currentValue", "repetitions", "lastUpdated", "history"}

  /** One history entry, in the shape every writer of the file uses. */
  function EntryJson(timestamp: string, value: real, unit: string, reps: int32): Json {
    JObj(map["timestamp" := JStr(timestamp), "value" := JNum(value), "unit" := JStr(unit),
             "repetitions" := IntJson(reps)])
  }

  /** One exercise record. */
  function ExerciseJson(name: string, muscleGroup: string, value: real, unit: string, reps: int32,
                        lastUpdated: string, history: seq<Json>): Json
  {
    JObj(map["name" := JStr(name), "muscleGroup" := JStr(muscleGroup), "currentValue" := JNum(value),
             "unit" := JStr(unit), "repetitions" := IntJson(reps), "lastUpdated" := JStr(lastUpdated),
             "history" := JArr(history)])
  }

  /** The history of an exercise value, as `toObject()["history"].toArray()` reads it. */
  function History(v: Json): seq<Json> {
    ToArray(Get(ToObject(v), "history"))
  }

  predicate HasHistory(v: Json) {
    History(v) != []
  }

  /**
    `entry` records the state held in the top-level fields of `ex`: read back
    through Qt's conversions, its timestamp, value, unit and repetitions equal
    ex's lastUpdated, currentValue, unit and repetitions.
   */
  predicate Records(entry: Json, ex: Object) {
    var e := ToObject(entry);
    ToText(Get(e, "timestamp")) == ToText(Get(ex, "lastUpdated")) &&
    ToDouble(Get(e, "value")) == ToDouble(Get(ex, "currentValue")) &&
    ToText(Get(e, "unit")) == ToText(Get(ex, "unit")) &&
    ToInt(Get(e, "repetitions")) == ToInt(Get(ex, "repetitions"))
  }

  /** The history entry built from an exercise's current top-level fields. */
  function Snapshot(ex: Object): (r: Json)
    ensures Records(r, ex)
    ensures Records(r, Touch(ex, SnapshotKeys))
  {
    IntJsonToInt(ToInt(Get(ex, "repetitions")));
    EntryJson(ToText(Get(ex, "lastUpdated")), ToDouble(Get(ex, "currentValue")),
              ToText(Get(ex, "unit")), ToInt(Get(ex, "repetitions")))
  }

  /**
    One step of `ensureHistoriesExist`: an exercise whose history is empty (or
    missing, or not an array) gets a one-entry history built from its top-level
    fields; any other exercise is left as it is. Reading the fields through the
    non-const `operator[]` inserts the ones that were missing as null.
   */
  function RepairedExercise(v: Json): (r: Json)
    ensures HasHistory(r)
    ensures HasHistory(v) ==> r == v
    ensures !HasHistory(v) ==> |History(r)| == 1 && Records(History(r)[0], ToObject(v))
                               && Records(History(r)[0], ToObject(r))
    ensures !HasHistory(v) ==> ToObject(r).Keys == ToObject(v).Keys + SnapshotKeys + {"history"}
    ensures forall k :: k in ToObject(v) && k != "history" ==> k in ToObject(r) && ToObject(r)[k] == ToObject(v)[k]
  {
    var ex := ToObject(v);
    if HasHistory(v) then v
    else JObj(Touch(ex, SnapshotKeys)["history" := JArr([Snapshot(ex)])])
  }

  /** The exercises after the repair pass, index by index. */
  function Repaired(exercises: seq<Json>): (r: seq<Json>)
    ensures |r| == |exercises|
    ensures forall i :: 0 <= i < |r| ==> HasHistory(r[i])
    ensures forall i :: 0 <= i < |r| && HasHistory(exercises[i]) ==> r[i] == exercises[i]
    ensures forall i :: 0 <= i < |r| && !HasHistory(exercises[i]) ==>
              |History(r[i])| == 1 && Records(History(r[i])[0], ToObject(exercises[i]))
  {
    seq(|exercises|, i requires 0 <= i < |exercises| => RepairedExercise(exercises[i]))
  }

  /** Some exercise lacks a history, so the repair pass writes the list back. */
  predicate NeedsRepair(exercises: seq<Json>) {
    exists i :: 0 <= i < |exercises| && !HasHistory(exercises[i])
  }

  /**
    The loop of `ensureHistoriesExist` over its local copy of the exercises:
    the repaired list, and whether any exercise was changed.
   */
  method RepairHistories(exercises: seq<Json>) returns (repaired: seq<Json>, modified: bool)
    ensures repaired == Repaired(exercises)
    ensures modified <==> NeedsRepair(exercises)
  {
    repaired := exercises;
    modified := false;
    var i := 0;
    while i < |repaired|
      invariant 0 <= i <= |repaired| == |exercises|
      invariant forall j :: 0 <= j < i ==> repaired[j] == RepairedExercise(exercises[j])
      invariant forall j :: i <= j < |repaired| ==> repaired[j] == exercises[j]
      invariant modified <==> exists j :: 0 <= j < i && !HasHistory(exercises[j])
    {
      var exercise := ToObject(repaired[i]);
      var history := ToArray(Get(exercise, "history"));
      if history == [] {
        exercise := Touch(exercise, SnapshotKeys);
        var record := EntryJson(ToText(exercise["lastUpdated"]), ToDouble(exercise["currentValue"]),
                                ToText(exercise["unit"]), ToInt(exercise["repetitions"]));
        exercise := exercise["history" := JArr([record])];
        repaired := repaired[i := JObj(exercise)];
        modified := true;
      }
      i := i + 1;
    }
  }

  /**
    `ensureHistoriesExist` on a whole document: the exercise list now reads as
    its repaired form; nothing but `exercises` changes, and when no exercise
    lacked a history only the null that `operator[]` inserts can appear.
   */
  function EnsureHistories(data: Object): (r: Object)
    ensures r.Keys == data.Keys + {"exercises"}
    ensures forall k :: k in data && k != "exercises" ==> r[k] == data[k]
    ensures ToArray(r["exercises"]) == Repaired(ToArray(Get(data, "exercises")))
    ensures !NeedsRepair(ToArray(Get(data, "exercises"))) ==> r == Touch(data, {"exercises"})
  {
    var d := Touch(data, {"exercises"});
    var exercises := ToArray(d["exercises"]);
    if NeedsRepair(exercises) then d["exercises" := JArr(Repaired(exercises))]
    else
      assert Repaired(exercises) == exercises;
      d
  }

  /**
    The shape every document the store holds after loading has: `exercises` is a
    non-empty array and every exercise in it has a non-empty history.
   */
  predicate Settled(d: Object) {
    "exercises" in d && d["exercises"].JArr? && |d["exercises"].items| > 0
    && forall i :: 0 <= i < |d["exercises"].items| ==> HasHistory(d["exercises"].items[i])
  }

  /** The repair pass leaves no exercise without history, and keeps the number and order of exercises. */
  lemma EnsureHistoriesSettles(data: Object)
    requires ToArray(Get(data, "exercises")) != []
    ensures Settled(EnsureHistories(data))
    ensures |ToArray(EnsureHistories(data)["exercises"])| == |ToArray(data["exercises"])|
  {
    var exercises := ToArray(data["exercises"]);
    assert Touch(data, {"exercises"}) == data;
    if !NeedsRepair(exercises) {
      assert forall i :: 0 <= i < |exercises| ==> HasHistory(exercises[i]);
    }
  }

  /** A second repair pass changes nothing. */
  lemma EnsureHistoriesIdempotent(data: Object)
    ensures EnsureHistories(EnsureHistories(data)) == EnsureHistories(data)
  {
    var d := Touch(data, {"exercises"});
    var exercises := ToArray(d["exercises"]);
    var once := EnsureHistories(data);
    assert Touch(once, {"exercises"}) == once;
    if NeedsRepair(exercises) {
      assert ToArray(once["exercises"]) == Repaired(exercises);
      assert !NeedsRepair(Repaired(exercises));
    } else {
      assert once == d;
    }
  }

  /** The built-in sample document of `loadDefaultData`, stamped with the current time. */
  function DefaultData(now: int): (d: Object)
    ensures Settled(d)
    ensures |d["exercises"].items| == 3
  {
    var today := IsoText(At(now));
    var yesterday := IsoText(AddDays(At(now), -1));
    var lastWeek := IsoText(AddDays(At(now), -7));
    map["exercises" := JArr([
      ExerciseJson("Bench Press", "Chest", 75.0, "kg", 8, today,
                   [EntryJson(yesterday, 70.0, "kg", 8), EntryJson(lastWeek, 65.0, "kg", 10)]),
      ExerciseJson("Squat", "Legs", 110.0, "kg", 5, today, [EntryJson(yesterday, 100.0, "kg", 6)]),
      ExerciseJson("Pull-up", "Back", 8.0, "reps", 3, today, [EntryJson(today, 8.0, "reps", 3)])
    ])]
  }

  /** The file held a well-formed JSON object. */
  predicate ReadsObject(file: FileRead) {
    file.Contents? && file.doc.Some? && file.doc.value.JObj?
  }

  /**
    The document `load` ends up with: the defaults when the file is missing,
    unopenable, not JSON or not a JSON object, or when its `exercises` member is
    missing, not an array or an empty array; otherwise the file's document after
    the repair pass.
   */
  function Loaded(file: FileRead, now: int): (d: Object)
    ensures Settled(d)
    ensures !ReadsObject(file) ==> d == DefaultData(now)
    ensures ReadsObject(file) && ToArray(Get(file.doc.value.fields, "exercises")) == [] ==> d == DefaultData(now)
    ensures ReadsObject(file) && ToArray(Get(file.doc.value.fields, "exercises")) != [] ==>
              d == EnsureHistories(file.doc.value.fields)
  {
    match file
    case Contents(Some(JObj(o))) =>
      if "exercises" !in o || ToArray(o["exercises"]) == [] then DefaultData(now)
      else
        EnsureHistoriesSettles(o);
        EnsureHistories(o)
    case _ => DefaultData(now)
  }

  /** A settled document is a fixed point of the repair pass and is loaded as it is. */
  lemma SettledLoadsUnchanged(d: Object, now: int)
    requires Settled(d)
    ensures EnsureHistories(d) == d
    ensures Loaded(Contents(Some(JObj(d))), now) == d
  {
    assert Touch(d, {"exercises"}) == d;
    assert !NeedsRepair(d["exercises"].items);
  }

  /**
    Loading is stable: reading back the document `load` saved gives the same
    document, whatever the time of the second load.
   */
  lemma LoadIsStable(file: FileRead, now: int, later: int)
    ensures Loaded(Contents(Some(JObj(Loaded(file, now)))), later) == Loaded(file, now)
  {
    SettledLoadsUnchanged(Loaded(file, now), later);
  }

  /** The record `addExercise` appends: its history is one entry holding its current fields, stamped now. */
  function NewExercise(name: string, muscleGroup: string, value: real, unit: string, reps: int32, now: int)
    : (r: Json)
    ensures |History(r)| == 1 && Records(History(r)[0], ToObject(r))
    ensures ToText(Get(ToObject(r), "name")) == name && ToText(Get(ToObject(r), "muscleGroup")) == muscleGroup
    ensures ToDouble(Get(ToObject(r), "currentValue")) == value && ToText(Get(ToObject(r), "unit")) == unit
    ensures ToInt(Get(ToObject(r), "repetitions")) == reps
    ensures FromIsoText(ToText(Get(ToObject(r), "lastUpdated"))) == At(now)
  {
    IsoTextRoundTrip(At(now));
    IntJsonToInt(reps);
    var stamp := IsoText(At(now));
    ExerciseJson(name, muscleGroup, value, unit, reps, stamp, [EntryJson(stamp, value, unit, reps)])
  }

  /**
    An exercise after `updateExercise`: its previous state is put in front of its
    history, then currentValue, repetitions and lastUpdated take the new values.
    Unit, name, muscle group and every other field stay as they were (a missing
    unit is inserted as null, which reads back the same).
   */
  function UpdatedExercise(v: Json, value: real, reps: int32, now: int): (r: Json)
    ensures |History(r)| == |History(v)| + 1 && History(r)[1..] == History(v)
    ensures Records(History(r)[0], ToObject(v))
    ensures ToDouble(Get(ToObject(r), "currentValue")) == value
    ensures ToInt(Get(ToObject(r), "repetitions")) == reps
    ensures FromIsoText(ToText(Get(ToObject(r), "lastUpdated"))) == At(now)
    ensures ToText(Get(ToObject(r), "unit")) == ToText(Get(ToObject(v), "unit"))
    ensures ToObject(r).Keys == ToObject(v).Keys + UpdatedKeys + {"unit"}
    ensures forall k :: k in ToObject(v) && k !in UpdatedKeys ==> ToObject(r)[k] == ToObject(v)[k]
  {
    IsoTextRoundTrip(At(now));
    IntJsonToInt(reps);
    var ex := ToObject(v);
    var history := [Snapshot(ex)] + History(v);
    var touched := Touch(ex, {"history"} + SnapshotKeys);
    var updated := touched["currentValue" := JNum(value)]["repetitions" := IntJson(reps)]
                          ["lastUpdated" := JStr(IsoText(At(now)))]["history" := JArr(history)];
    assert updated.Keys == ex.Keys + UpdatedKeys + {"unit"};
    assert Get(updated, "unit") == Get(touched, "unit");
    assert ToText(Get(touched, "unit")) == ToText(Get(ex, "unit"));
    JObj(updated)
  }

  /** The list without the exercise at `index`. */
  function Without(exercises: seq<Json>, index: nat): (r: seq<Json>)
    requires index < |exercises|
    ensures |r| == |exercises| - 1
    ensures forall i :: 0 <= i < index ==> r[i] == exercises[i]
    ensures forall i :: index <= i < |r| ==> r[i] == exercises[i + 1]
  {
    exercises[..index] + exercises[index + 1..]
  }

  /** The store object of datacenter.cpp. */
  class DataCenter {
    /** `m_data`. */
    var data: Object
    /** The document last handed to `save()` (whether the write succeeded is not modelled). */
    ghost var persisted: Option<Object>
    /** How many times `dataChanged` was emitted. */
    ghost var changes: nat

    /** Every reachable store holds an `exercises` array. */
    ghost predicate Valid()
      reads this
    {
      "exercises" in data && data["exercises"].JArr?
    }

    /** The exercise list, as `m_data["exercises"].toArray()` reads it. */
    function Exercises(): seq<Json>
      reads this
    {
      ToArray(Get(data, "exercises"))
    }

    /** The constructor loads the file. */
    constructor (file: FileRead, now: int)
      ensures Valid() && data == Loaded(file, now)
      ensures persisted == Some(data) && changes == 1
    {
      data := map[];
      persisted := None;
      changes := 0;
      new;
      Load(file, now);
    }

    /** `load`: decide between the file's document and the defaults, repair, save and notify. */
    method Load(file: FileRead, now: int)
      modifies this
      ensures Valid() && data == Loaded(file, now)
      ensures persisted == Some(data) && changes == old(changes) + 1
    {
      match file {
        case Contents(Some(JObj(o))) =>
          data := o;
          if "exercises" !in data || ToArray(data["exercises"]) == [] {
            LoadDefaultData(now);
          } else {
            EnsureHistoriesExist();
          }
        case _ =>
          LoadDefaultData(now);
      }
      Save();
      changes := changes + 1;
    }

    /** `ensureHistoriesExist`: backfill empty histories, writing the list back only when something changed. */
    method EnsureHistoriesExist()
      modifies this
      ensures data == EnsureHistories(old(data))
      ensures persisted == old(persisted) && changes == old(changes)
    {
      data := Touch(data, {"exercises"});
      var repaired, modified := RepairHistories(ToArray(data["exercises"]));
      if modified {
        data := data["exercises" := JArr(repaired)];
      }
    }

    /** `save`: the document is written to the file. */
    method Save()
      modifies this
      ensures data == old(data) && persisted == Some(data) && changes == old(changes)
    {
      persisted := Some(data);
    }

    /** `loadDefaultData`. */
    method LoadDefaultData(now: int)
      modifies this
      ensures data == DefaultData(now)
      ensures persisted == old(persisted) && changes == old(changes)
    {
      data := DefaultData(now);
    }

    /**
      `addExercise`: append a record (names are not checked for duplicates), save
      and notify. A missing or ill-typed `exercises` reads as the empty list, so
      the store holds an `exercises` array afterwards in every case.
     */
    method AddExercise(name: string, muscleGroup: string, value: real, unit: string, reps: int32, now: int)
      modifies this
      ensures Valid()
      ensures Exercises() == old(Exercises()) + [NewExercise(name, muscleGroup, value, unit, reps, now)]
      ensures data == old(data)["exercises" := JArr(Exercises())]
      ensures persisted == Some(data) && changes == old(changes) + 1
    {
      data := Touch(data, {"exercises"});
      var exercises := ToArray(data["exercises"]);
      exercises := exercises + [NewExercise(name, muscleGroup, value, unit, reps, now)];
      TouchThenSet(old(data), "exercises", JArr(exercises));
      data := data["exercises" := JArr(exercises)];
      Save();
      changes := changes + 1;
    }

    /**
      `updateExercise` by list index: outside [0, size) nothing happens but the
      null `operator[]` inserts when `exercises` is missing; otherwise the
      exercise at `index` is updated, the others stay, and the store saves and
      notifies.
     */
    method UpdateExercise(index: int, value: real, reps: int32, now: int)
      modifies this
      ensures old(Valid()) ==> Valid()
      ensures !(0 <= index < |old(Exercises())|) ==>
                data == Touch(old(data), {"exercises"}) && persisted == old(persisted) && changes == old(changes)
      ensures 0 <= index < |old(Exercises())| ==>
                Exercises() == old(Exercises())[index := UpdatedExercise(old(Exercises())[index], value, reps, now)]
                && data == old(data)["exercises" := JArr(Exercises())]
                && persisted == Some(data) && changes == old(changes) + 1
    {
      if "exercises" in data {
        TouchPresent(data, {"exercises"});
      }
      data := Touch(data, {"exercises"});
      var exercises := ToArray(data["exercises"]);
      if index < 0 || index >= |exercises| {
        return;
      }
      TouchThenSet(old(data), "exercises", JArr(exercises));
      exercises := exercises[index := UpdatedExercise(exercises[index], value, reps, now)];
      data := data["exercises" := JArr(exercises)];
      Save();
      changes := changes + 1;
    }

    /**
      `removeExercise` by list index: outside [0, size) nothing happens but the
      null `operator[]` inserts when `exercises` is missing; otherwise that one
      record goes.
     */
    method RemoveExercise(index: int)
      modifies this
      ensures old(Valid()) ==> Valid()
      ensures !(0 <= index < |old(Exercises())|) ==>
                data == Touch(old(data), {"exercises"}) && persisted == old(persisted) && changes == old(changes)
      ensures 0 <= index < |old(Exercises())| ==>
                Exercises() == Without(old(Exercises()), index)
                && data == old(data)["exercises" := JArr(Exercises())]
                && persisted == Some(data) && changes == old(changes) + 1
    {
      if "exercises" in data {
        TouchPresent(data, {"exercises"});
      }
      data := Touch(data, {"exercises"});
      var exercises := ToArray(data["exercises"]);
      if index < 0 || index >= |exercises| {
        return;
      }
      TouchThenSet(old(data), "exercises", JArr(exercises));
      exercises := exercises[..index] + exercises[index + 1..];
      data := data["exercises" := JArr(exercises)];
      Save();
      changes := changes + 1;
    }

    /**
      `deleteFile`: when the file existed and was removed, the defaults are loaded
      and saved (without a notification); otherwise nothing happens.
     */
    method DeleteFile(removed: bool, now: int)
      modifies this
      ensures removed ==> Valid() && data == DefaultData(now) && persisted == Some(data)
      ensures !removed ==> data == old(data) && persisted == old(persisted)
      ensures changes == old(changes)
    {
      if removed {
        LoadDefaultData(now);
        Save();
      }
    }
  }
}
