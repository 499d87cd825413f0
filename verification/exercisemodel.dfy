/**
  The list model of exercisemodel.cpp: typed `Exercise` records with their
  `HistoryRecord`s, their JSON form (an `exercises` object keyed by name), the
  list mutations and the role accessor a view reads.
 */
module ExerciseList {
  import opened JsonValues
  import opened DateTimes

  datatype HistoryRecord = HistoryRecord(timestamp: DateTime, value: real, unit: string, repetitions: int32)

  datatype Exercise = Exercise(
    name: string,
    muscleGroup: string,
    currentValue: real,
    unit: string,
    repetitions: int32,
    lastUpdated: DateTime,
    history: seq<HistoryRecord>)

  /** `HistoryRecord::toJson`: the four fields, the date as ISO text and the numbers as JSON numbers. */
  function RecordToJson(rec: HistoryRecord): (r: Object)
    ensures r.Keys == {"timestamp", "value", "unit", "repetitions"}
    ensures r["timestamp"].JStr? && r["value"].JNum? && r["unit"].JStr? && r["repetitions"].JNum?
  {
    map["timestamp" := JStr(IsoText(rec.timestamp)), "value" := JNum(rec.value), "unit" := JStr(rec.unit),
        "repetitions" := IntJson(rec.repetitions)]
  }

  /** `HistoryRecord::fromJson`: missing or ill-typed fields read as Qt's defaults. */
  function RecordFromJson(o: Object): (r: HistoryRecord)
    ensures "timestamp" !in o ==> r.timestamp == Invalid
    ensures "value" !in o ==> r.value == 0.0
    ensures "unit" !in o ==> r.unit == ""
    ensures "repetitions" !in o ==> r.repetitions == 0
  {
    HistoryRecord(FromIsoText(ToText(Get(o, "timestamp"))), ToDouble(Get(o, "value")),
                  ToText(Get(o, "unit")), ToInt(Get(o, "repetitions")))
  }

  /** A history record survives being written to JSON and read back. */
  lemma RecordRoundTrip(r: HistoryRecord)
    ensures RecordFromJson(RecordToJson(r)) == r
  {
    IsoTextRoundTrip(r.timestamp);
    IntJsonToInt(r.repetitions);
  }

  /** The object `Exercise::toJson` builds; the history array keeps the order of `history`. */
  function ExerciseJson(e: Exercise): (r: Object)
    ensures r.Keys == {"name", "muscleGroup", "currentValue", "unit", "repetitions", "lastUpdated", "history"}
    ensures r["history"].JArr? && |r["history"].items| == |e.history|
  {
    map["name" := JStr(e.name), "muscleGroup" := JStr(e.muscleGroup), "currentValue" := JNum(e.currentValue),
        "unit" := JStr(e.unit), "repetitions" := IntJson(e.repetitions),
        "lastUpdated" := JStr(IsoText(e.lastUpdated)),
        "history" := JArr(seq(|e.history|, i requires 0 <= i < |e.history| => JObj(RecordToJson(e.history[i]))))]
  }

  /**
    The exercise `Exercise::fromJson` reads: its name is the key, not the
    object's `name` field; it has one history record per element of the
    `history` array, and missing fields read as Qt's defaults.
   */
  function ExerciseOf(key: string, o: Object): (r: Exercise)
    ensures r.name == key
    ensures |r.history| == |ToArray(Get(o, "history"))|
    ensures "history" !in o ==> r.history == []
    ensures "muscleGroup" !in o ==> r.muscleGroup == ""
    ensures "currentValue" !in o ==> r.currentValue == 0.0
    ensures "unit" !in o ==> r.unit == ""
    ensures "repetitions" !in o ==> r.repetitions == 0
    ensures "lastUpdated" !in o ==> r.lastUpdated == Invalid
  {
    var items := ToArray(Get(o, "history"));
    Exercise(key, ToText(Get(o, "muscleGroup")), ToDouble(Get(o, "currentValue")), ToText(Get(o, "unit")),
             ToInt(Get(o, "repetitions")), FromIsoText(ToText(Get(o, "lastUpdated"))),
             seq(|items|, i requires 0 <= i < |items| => RecordFromJson(ToObject(items[i]))))
  }

  /** An exercise read back under its own name is the same exercise, history in the same order. */
  lemma ExerciseRoundTrip(e: Exercise)
    ensures ExerciseOf(e.name, ExerciseJson(e)) == e
  {
    IsoTextRoundTrip(e.lastUpdated);
    IntJsonToInt(e.repetitions);
    var back := ExerciseOf(e.name, ExerciseJson(e));
    forall i | 0 <= i < |e.history|
      ensures back.history[i] == e.history[i]
    {
      RecordRoundTrip(e.history[i]);
    }
  }

  /** `Exercise::toJson`, with its loop over the history. */
  method ExerciseToJson(e: Exercise) returns (obj: Object)
    ensures obj == ExerciseJson(e)
  {
    obj := map[];
    obj := obj["name" := JStr(e.name)];
    obj := obj["muscleGroup" := JStr(e.muscleGroup)];
    obj := obj["currentValue" := JNum(e.currentValue)];
    obj := obj["unit" := JStr(e.unit)];
    obj := obj["repetitions" := IntJson(e.repetitions)];
    obj := obj["lastUpdated" := JStr(IsoText(e.lastUpdated))];
    var historyArray: seq<Json> := [];
    for i := 0 to |e.history|
      invariant |historyArray| == i
      invariant forall j :: 0 <= j < i ==> historyArray[j] == JObj(RecordToJson(e.history[j]))
    {
      historyArray := historyArray + [JObj(RecordToJson(e.history[i]))];
    }
    assert historyArray == seq(|e.history|, i requires 0 <= i < |e.history| => JObj(RecordToJson(e.history[i])));
    obj := obj["history" := JArr(historyArray)];
  }

  /** `Exercise::fromJson`, with its loop over the history array. */
  method ExerciseFromJson(key: string, json: Object) returns (exercise: Exercise)
    ensures exercise == ExerciseOf(key, json)
  {
    exercise := Exercise(key, ToText(Get(json, "muscleGroup")), ToDouble(Get(json, "currentValue")),
                         ToText(Get(json, "unit")), ToInt(Get(json, "repetitions")),
                         FromIsoText(ToText(Get(json, "lastUpdated"))), []);
    var historyArray := ToArray(Get(json, "history"));
    for i := 0 to |historyArray|
      invariant |exercise.history| == i
      invariant forall j :: 0 <= j < i ==> exercise.history[j] == RecordFromJson(ToObject(historyArray[j]))
      invariant exercise == ExerciseOf(key, json).(history := exercise.history)
    {
      exercise := exercise.(history := exercise.history + [RecordFromJson(ToObject(historyArray[i]))]);
    }
  }

  /** The names in a list of exercises. */
  function Names(exercises: seq<Exercise>): set<string> {
    set i | 0 <= i < |exercises| :: exercises[i].name
  }

  predicate DistinctNames(exercises: seq<Exercise>) {
    forall i, j :: 0 <= i < j < |exercises| ==> exercises[i].name != exercises[j].name
  }

  /** No exercise after position `i` has the name of the one at `i`. */
  predicate IsLatest(exercises: seq<Exercise>, i: int)
    requires 0 <= i < |exercises|
  {
    forall j :: i < j < |exercises| ==> exercises[j].name != exercises[i].name
  }

  lemma NamesSnoc(exercises: seq<Exercise>)
    requires exercises != []
    ensures Names(exercises) == Names(exercises[..|exercises| - 1]) + {exercises[|exercises| - 1].name}
  {
    var n := |exercises| - 1;
    var front := exercises[..n];
    forall x | x in Names(exercises) ensures x in Names(front) + {exercises[n].name} {
      var i :| 0 <= i < |exercises| && exercises[i].name == x;
      if i < n {
        assert front[i].name == x;
      }
    }
    forall x | x in Names(front) ensures x in Names(exercises) {
      var i :| 0 <= i < |front| && front[i].name == x;
      assert exercises[i].name == x;
    }
  }

  /** The `exercises` object `ExerciseModel::toJson` builds: one entry per name, a later exercise overwriting an earlier one. */
  function NamedObjects(exercises: seq<Exercise>): (r: Object)
    ensures r.Keys == Names(exercises)
    decreases |exercises|
  {
    if exercises == [] then map[]
    else
      var last := exercises[|exercises| - 1];
      NamesSnoc(exercises);
      NamedObjects(exercises[..|exercises| - 1])[last.name := JObj(ExerciseJson(last))]
  }

  /** `ExerciseModel::toJson`: one key, `exercises`, holding an object keyed by the exercise names. */
  function ModelJson(exercises: seq<Exercise>): (r: Object)
    ensures r.Keys == {"exercises"}
    ensures r["exercises"].JObj? && r["exercises"].fields.Keys == Names(exercises)
  {
    map["exercises" := JObj(NamedObjects(exercises))]
  }

  lemma {:induction false} NamedObjectsHoldLatest(exercises: seq<Exercise>)
    ensures forall i :: 0 <= i < |exercises| && IsLatest(exercises, i) ==>
              exercises[i].name in NamedObjects(exercises) &&
              NamedObjects(exercises)[exercises[i].name] == JObj(ExerciseJson(exercises[i]))
  {
    forall i | 0 <= i < |exercises| && IsLatest(exercises, i)
      ensures exercises[i].name in NamedObjects(exercises) &&
              NamedObjects(exercises)[exercises[i].name] == JObj(ExerciseJson(exercises[i]))
    {
      NamedObjectHolds(exercises, i);
    }
  }

  /** The object stored under the name of the exercise at `i`, when no later exercise has that name. */
  lemma {:induction false} NamedObjectHolds(exercises: seq<Exercise>, i: nat)
    requires i < |exercises| && IsLatest(exercises, i)
    ensures exercises[i].name in NamedObjects(exercises)
    ensures NamedObjects(exercises)[exercises[i].name] == JObj(ExerciseJson(exercises[i]))
    decreases |exercises|
  {
    var n := |exercises| - 1;
    if i < n {
      var front := exercises[..n];
      assert front[i] == exercises[i];
      assert IsLatest(front, i);
      NamedObjectHolds(front, i);
      assert exercises[n].name != exercises[i].name;
    }
  }

  /** The exercises read under `keys`, in the order of `keys`. */
  function ReadAll(obj: Object, keys: seq<string>): (r: seq<Exercise>)
    ensures |r| == |keys|
    decreases |keys|
  {
    if keys == [] then []
    else
      var key := keys[|keys| - 1];
      ReadAll(obj, keys[..|keys| - 1]) + [ExerciseOf(key, ToObject(Get(obj, key)))]
  }

  lemma {:induction false} ReadAllAt(obj: Object, keys: seq<string>, i: nat)
    requires i < |keys|
    ensures ReadAll(obj, keys)[i] == ExerciseOf(keys[i], ToObject(Get(obj, keys[i])))
    decreases |keys|
  {
    var n := |keys| - 1;
    if i < n {
      ReadAllAt(obj, keys[..n], i);
    }
  }

  /** Reading one more key appends one exercise. */
  lemma ReadAllNext(obj: Object, keys: seq<string>, i: nat)
    requires i < |keys|
    ensures ReadAll(obj, keys[..i + 1]) == ReadAll(obj, keys[..i]) + [ExerciseOf(keys[i], ToObject(Get(obj, keys[i])))]
  {
    assert keys[..i + 1][..i] == keys[..i];
  }

  /**
    `ExerciseModel::loadFromJson`: one exercise per key of the `exercises`
    object, in the object's key order.
   */
  function LoadedExercises(json: Object): (r: seq<Exercise>)
    ensures |r| == |ToObject(Get(json, "exercises")).Keys|
  {
    var obj := ToObject(Get(json, "exercises"));
    ReadAll(obj, SortedKeys(obj.Keys))
  }

  /** The loaded exercises come in strictly ascending name order. */
  lemma LoadedInNameOrder(json: Object)
    ensures var r := LoadedExercises(json);
            forall i, j :: 0 <= i < j < |r| ==> Below(r[i].name, r[j].name)
  {
    var obj := ToObject(Get(json, "exercises"));
    var keys := SortedKeys(obj.Keys);
    SortedKeysAscending(obj.Keys);
    forall i | 0 <= i < |keys|
      ensures LoadedExercises(json)[i].name == keys[i]
    {
      ReadAllAt(obj, keys, i);
    }
  }

  /** The exercise loaded at position `i` is the one stored under the `i`-th key. */
  lemma LoadedAt(json: Object, i: nat)
    requires i < |LoadedExercises(json)|
    ensures var obj := ToObject(Get(json, "exercises"));
            var keys := SortedKeys(obj.Keys);
            keys[i] in obj && LoadedExercises(json)[i] == ExerciseOf(keys[i], ToObject(obj[keys[i]]))
  {
    var obj := ToObject(Get(json, "exercises"));
    var keys := SortedKeys(obj.Keys);
    assert keys[i] in keys;
    ReadAllAt(obj, keys, i);
  }

  /** Every name of a list has a latest exercise carrying it. */
  lemma {:induction false} LatestExists(exercises: seq<Exercise>, name: string)
    requires name in Names(exercises)
    ensures exists i :: 0 <= i < |exercises| && exercises[i].name == name && IsLatest(exercises, i)
    decreases |exercises|
  {
    var n := |exercises| - 1;
    if exercises[n].name != name {
      var front := exercises[..n];
      var k :| 0 <= k < |exercises| && exercises[k].name == name;
      assert front[k].name == name;
      LatestExists(front, name);
      var i :| 0 <= i < |front| && front[i].name == name && IsLatest(front, i);
      assert IsLatest(exercises, i);
    }
  }

  lemma {:induction false} DistinctNamesCount(exercises: seq<Exercise>)
    requires DistinctNames(exercises)
    ensures |Names(exercises)| == |exercises|
    decreases |exercises|
  {
    if exercises != [] {
      var n := |exercises| - 1;
      var front := exercises[..n];
      DistinctNamesCount(front);
      NamesSnoc(exercises);
      assert exercises[n].name !in Names(front);
    }
  }

  /** The exercise loaded at position `k` is the latest one of its name. */
  lemma LoadedIsLatest(exercises: seq<Exercise>, k: nat)
    requires k < |LoadedExercises(ModelJson(exercises))|
    ensures exists i :: 0 <= i < |exercises| && IsLatest(exercises, i)
                        && LoadedExercises(ModelJson(exercises))[k] == exercises[i]
  {
    var obj := NamedObjects(exercises);
    assert ToObject(Get(ModelJson(exercises), "exercises")) == obj;
    var keys := SortedKeys(obj.Keys);
    assert keys[k] in Names(exercises);
    LatestExists(exercises, keys[k]);
    var i :| 0 <= i < |exercises| && exercises[i].name == keys[k] && IsLatest(exercises, i);
    NamedObjectsHoldLatest(exercises);
    assert obj[keys[k]] == JObj(ExerciseJson(exercises[i]));
    LoadedAt(ModelJson(exercises), k);
    ExerciseRoundTrip(exercises[i]);
  }

  /** Every exercise loaded back from a saved model is the latest one of its name. */
  lemma LoadedAreLatest(exercises: seq<Exercise>)
    ensures forall x :: x in LoadedExercises(ModelJson(exercises)) ==>
              exists i :: 0 <= i < |exercises| && IsLatest(exercises, i) && x == exercises[i]
  {
    var r := LoadedExercises(ModelJson(exercises));
    forall x | x in r
      ensures exists i :: 0 <= i < |exercises| && IsLatest(exercises, i) && x == exercises[i]
    {
      var k :| 0 <= k < |r| && r[k] == x;
      LoadedIsLatest(exercises, k);
    }
  }

  /** The latest exercise of every name is loaded back from a saved model. */
  lemma LatestAreLoaded(exercises: seq<Exercise>)
    ensures forall i :: 0 <= i < |exercises| && IsLatest(exercises, i) ==>
              exercises[i] in LoadedExercises(ModelJson(exercises))
  {
    var r := LoadedExercises(ModelJson(exercises));
    var obj := NamedObjects(exercises);
    assert ToObject(Get(ModelJson(exercises), "exercises")) == obj;
    var keys := SortedKeys(obj.Keys);
    NamedObjectsHoldLatest(exercises);
    forall i | 0 <= i < |exercises| && IsLatest(exercises, i)
      ensures exercises[i] in r
    {
      assert exercises[i].name in Names(exercises);
      var k :| 0 <= k < |keys| && keys[k] == exercises[i].name;
      LoadedAt(ModelJson(exercises), k);
      ExerciseRoundTrip(exercises[i]);
      assert r[k] == exercises[i];
    }
  }

  /**
    Saving the model and loading the result back gives one exercise per name:
    the latest exercise with that name, unchanged.
   */
  lemma ModelRoundTrip(exercises: seq<Exercise>)
    ensures |LoadedExercises(ModelJson(exercises))| == |Names(exercises)|
    ensures forall x :: x in LoadedExercises(ModelJson(exercises)) ==>
              exists i :: 0 <= i < |exercises| && IsLatest(exercises, i) && x == exercises[i]
    ensures forall i :: 0 <= i < |exercises| && IsLatest(exercises, i) ==>
              exercises[i] in LoadedExercises(ModelJson(exercises))
  {
    assert ToObject(Get(ModelJson(exercises), "exercises")) == NamedObjects(exercises);
    LoadedAreLatest(exercises);
    LatestAreLoaded(exercises);
  }

  /** With distinct names, saving and loading back gives the same exercises, reordered by name. */
  lemma DistinctModelRoundTrip(exercises: seq<Exercise>)
    requires DistinctNames(exercises)
    ensures |LoadedExercises(ModelJson(exercises))| == |exercises|
    ensures forall x :: x in LoadedExercises(ModelJson(exercises)) <==> x in exercises
  {
    ModelRoundTrip(exercises);
    DistinctNamesCount(exercises);
  }

  /** `a` is strictly newer than `b` or the two are equal in time. */
  lemma NotBeforeTransitive(a: DateTime, b: DateTime, c: DateTime)
    requires !Before(a, b) && !Before(b, c)
    ensures !Before(a, c)
  {
  }

  /** History newest first: no record is earlier than one after it. */
  predicate NewestFirst(h: seq<HistoryRecord>) {
    forall i, j :: 0 <= i < j < |h| ==> !Before(h[i].timestamp, h[j].timestamp)
  }

  lemma ConsNewestFirst(x: HistoryRecord, h: seq<HistoryRecord>)
    requires NewestFirst(h)
    requires forall y :: y in h ==> !Before(x.timestamp, y.timestamp)
    ensures NewestFirst([x] + h)
  {
    forall i, j | 0 <= i < j < |[x] + h|
      ensures !Before(([x] + h)[i].timestamp, ([x] + h)[j].timestamp)
    {
      if i == 0 {
        assert ([x] + h)[j] == h[j - 1];
        assert h[j - 1] in h;
      }
    }
  }

  /** A record no older than the head of a newest-first history is no older than any of it. */
  lemma NewerThanAll(x: HistoryRecord, h: seq<HistoryRecord>)
    requires NewestFirst(h)
    requires h == [] || !Before(x.timestamp, h[0].timestamp)
    ensures forall y :: y in h ==> !Before(x.timestamp, y.timestamp)
  {
    forall y | y in h ensures !Before(x.timestamp, y.timestamp) {
      var j :| 0 <= j < |h| && h[j] == y;
      if j > 0 {
        NotBeforeTransitive(x.timestamp, h[0].timestamp, h[j].timestamp);
      }
    }
  }

  /** The head of a newest-first history is no older than its tail with an older record added. */
  lemma HeadNewerThanRest(x: HistoryRecord, h: seq<HistoryRecord>, rest: seq<HistoryRecord>)
    requires NewestFirst(h) && h != []
    requires Before(x.timestamp, h[0].timestamp)
    requires multiset(rest) == multiset(h[1..]) + multiset{x}
    ensures forall y :: y in rest ==> !Before(h[0].timestamp, y.timestamp)
  {
    forall y | y in rest ensures !Before(h[0].timestamp, y.timestamp) {
      assert y in multiset(rest);
      if y != x {
        assert y in multiset(h[1..]);
        var j :| 0 <= j < |h[1..]| && h[1..][j] == y;
        assert h[j + 1] == y;
      }
    }
  }

  function Insert(x: HistoryRecord, h: seq<HistoryRecord>): (r: seq<HistoryRecord>)
    requires NewestFirst(h)
    ensures NewestFirst(r)
    ensures multiset(r) == multiset(h) + multiset{x}
    decreases |h|
  {
    if h == [] || !Before(x.timestamp, h[0].timestamp) then
      NewerThanAll(x, h);
      ConsNewestFirst(x, h);
      [x] + h
    else
      assert h == [h[0]] + h[1..];
      var rest := Insert(x, h[1..]);
      HeadNewerThanRest(x, h, rest);
      ConsNewestFirst(h[0], rest);
      [h[0]] + rest
  }

  /**
    `std::sort` of the history with `a.timestamp > b.timestamp`: newest first,
    the same records. (Which order equal timestamps end up in is left open by
    `std::sort`; this insertion sort is one of the allowed outcomes.)
   */
  function SortNewestFirst(h: seq<HistoryRecord>): (r: seq<HistoryRecord>)
    ensures NewestFirst(r)
    ensures multiset(r) == multiset(h)
    decreases |h|
  {
    if h == [] then []
    else
      assert h == [h[0]] + h[1..];
      Insert(h[0], SortNewestFirst(h[1..]))
  }

  /** The record `updateExercise` saves: the exercise's current state. */
  function CurrentRecord(e: Exercise): HistoryRecord {
    HistoryRecord(e.lastUpdated, e.currentValue, e.unit, e.repetitions)
  }

  /**
    An exercise after `updateExercise`: the history holds the old records plus the
    previous state, newest first; value, repetitions and time are the new ones;
    name, muscle group and unit stay.
   */
  function Updated(e: Exercise, value: real, reps: int32, now: int): (r: Exercise)
    ensures r.name == e.name && r.muscleGroup == e.muscleGroup && r.unit == e.unit
    ensures r.currentValue == value && r.repetitions == reps && r.lastUpdated == At(now)
    ensures NewestFirst(r.history)
    ensures multiset(r.history) == multiset(e.history) + multiset{CurrentRecord(e)}
  {
    e.(currentValue := value, repetitions := reps, lastUpdated := At(now),
       history := SortNewestFirst([CurrentRecord(e)] + e.history))
  }

  /** A QModelIndex: valid when it has a model and a non-negative row and column. */
  datatype ModelIndex = ModelIndex(row: int, column: int, hasModel: bool) {
    predicate IsValid() {
      row >= 0 && column >= 0 && hasModel
    }
  }

  /** The QVariant values `data()` returns. */
  datatype Variant =
    | VNone
    | VText(s: string)
    | VReal(r: real)
    | VInt(i: int32)
    | VDateTime(d: DateTime)
    | VList(items: seq<Variant>)
    | VMap(entries: map<string, Variant>)

  /** `Qt::UserRole`, and the roles of the model after it. */
  const UserRole: int := 0x0100
  const NameRole: int := UserRole + 1
  const MuscleGroupRole: int := UserRole + 2
  const CurrentValueRole: int := UserRole + 3
  const UnitRole: int := UserRole + 4
  const RepetitionsRole: int := UserRole + 5
  const LastUpdatedRole: int := UserRole + 6
  const HistoryRole: int := UserRole + 7

  /** One history record as the history role shows it. */
  function RecordVariant(r: HistoryRecord): Variant {
    VMap(map["timestamp" := VDateTime(r.timestamp), "value" := VReal(r.value), "unit" := VText(r.unit),
             "repetitions" := VInt(r.repetitions)])
  }

  /** The exercise list model. */
  class ExerciseModel {
    /** `m_exercises`. */
    var exercises: seq<Exercise>

    constructor ()
      ensures exercises == []
    {
      exercises := [];
    }

    /** `rowCount`. */
    function RowCount(): nat
      reads this
    {
      |exercises|
    }

    /**
      `data`: nothing for an invalid or out-of-range index or an unknown role;
      otherwise the role's field of the exercise in that row, the history role as
      a list of records in history order.
     */
    method Data(index: ModelIndex, role: int) returns (v: Variant)
      ensures !index.IsValid() || index.row >= |exercises| ==> v == VNone
      ensures index.IsValid() && index.row < |exercises| ==>
                var e := exercises[index.row];
                (role == NameRole ==> v == VText(e.name))
                && (role == MuscleGroupRole ==> v == VText(e.muscleGroup))
                && (role == CurrentValueRole ==> v == VReal(e.currentValue))
                && (role == UnitRole ==> v == VText(e.unit))
                && (role == RepetitionsRole ==> v == VInt(e.repetitions))
                && (role == LastUpdatedRole ==> v == VDateTime(e.lastUpdated))
                && (role == HistoryRole ==>
                      v.VList? && |v.items| == |e.history|
                      && forall i :: 0 <= i < |e.history| ==> v.items[i] == RecordVariant(e.history[i]))
                && (!(NameRole <= role <= HistoryRole) ==> v == VNone)
    {
      if !index.IsValid() || index.row >= |exercises| {
        return VNone;
      }
      var exercise := exercises[index.row];
      if role == NameRole {
        v := VText(exercise.name);
      } else if role == MuscleGroupRole {
        v := VText(exercise.muscleGroup);
      } else if role == CurrentValueRole {
        v := VReal(exercise.currentValue);
      } else if role == UnitRole {
        v := VText(exercise.unit);
      } else if role == RepetitionsRole {
        v := VInt(exercise.repetitions);
      } else if role == LastUpdatedRole {
        v := VDateTime(exercise.lastUpdated);
      } else if role == HistoryRole {
        var history: seq<Variant> := [];
        for i := 0 to |exercise.history|
          invariant |history| == i
          invariant forall j :: 0 <= j < i ==> history[j] == RecordVariant(exercise.history[j])
        {
          history := history + [RecordVariant(exercise.history[i])];
        }
        v := VList(history);
      } else {
        v := VNone;
      }
    }

    /** `loadFromJson`: clear, then append one exercise per key of the `exercises` object. */
    method LoadFromJson(json: Object)
      modifies this
      ensures exercises == LoadedExercises(json)
    {
      exercises := [];
      var exercisesObj := ToObject(Get(json, "exercises"));
      var keys := SortedKeys(exercisesObj.Keys);
      for i := 0 to |keys|
        invariant exercises == ReadAll(exercisesObj, keys[..i])
      {
        ReadAllNext(exercisesObj, keys, i);
        assert keys[i] in keys;
        var exercise := ExerciseFromJson(keys[i], ToObject(exercisesObj[keys[i]]));
        exercises := exercises + [exercise];
      }
      assert keys[..|keys|] == keys;
    }

    /** `toJson`: the whole list as a document whose `exercises` object is keyed by name. */
    method ToJson() returns (root: Object)
      ensures root == ModelJson(exercises)
    {
      var exercisesObject: Object := map[];
      for i := 0 to |exercises|
        invariant exercisesObject == NamedObjects(exercises[..i])
      {
        var obj := ExerciseToJson(exercises[i]);
        assert exercises[..i + 1][..i] == exercises[..i];
        exercisesObject := exercisesObject[exercises[i].name := JObj(obj)];
      }
      assert exercises[..|exercises|] == exercises;
      root := map["exercises" := JObj(exercisesObject)];
    }

    /** `addExercise`: one more row at the end, stamped now, with an empty history. */
    method AddExercise(name: string, muscleGroup: string, value: real, unit: string, reps: int32, now: int)
      modifies this
      ensures RowCount() == old(RowCount()) + 1
      ensures exercises == old(exercises) + [Exercise(name, muscleGroup, value, unit, reps, At(now), [])]
    {
      var newExercise := Exercise(name, muscleGroup, value, unit, reps, At(now), []);
      exercises := exercises + [newExercise];
    }

    /**
      `updateExercise`: outside [0, rowCount) nothing happens; otherwise only the
      exercise at `index` changes.
     */
    method UpdateExercise(index: int, value: real, reps: int32, now: int)
      modifies this
      ensures !(0 <= index < |old(exercises)|) ==> exercises == old(exercises)
      ensures 0 <= index < |old(exercises)| ==>
                exercises == old(exercises)[index := Updated(old(exercises)[index], value, reps, now)]
    {
      if index < 0 || index >= |exercises| {
        return;
      }
      var exercise := exercises[index];
      var currentRecord := HistoryRecord(exercise.lastUpdated, exercise.currentValue, exercise.unit,
                                         exercise.repetitions);
      exercise := exercise.(history := [currentRecord] + exercise.history);
      exercise := exercise.(currentValue := value, repetitions := reps, lastUpdated := At(now));
      exercise := exercise.(history := SortNewestFirst(exercise.history));
      exercises := exercises[index := exercise];
    }

    /** `removeExercise`: outside [0, rowCount) nothing happens; otherwise that row goes and the rest keep their order. */
    method RemoveExercise(index: int)
      modifies this
      ensures !(0 <= index < |old(exercises)|) ==> exercises == old(exercises)
      ensures 0 <= index < |old(exercises)| ==>
                RowCount() == old(RowCount()) - 1
                && exercises == old(exercises)[..index] + old(exercises)[index + 1..]
    {
      if index < 0 || index >= |exercises| {
        return;
      }
      exercises := exercises[..index] + exercises[index + 1..];
    }
  }
}
