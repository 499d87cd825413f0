# WeightAndSee exercise store, modelled in Dafny

WeightAndSee is a Qt application that tracks gym exercises: for each exercise
its current weight (or repetitions), unit, repetitions, last update and a
history of earlier states. This project models its three in-memory components:

- **DataCenter** (`datacenter.cpp`, module `DataStore`). It holds the parsed
  `exercises.json` document as a JSON object. `load` decides between the file's
  document and a built-in default document. `ensureHistoriesExist` backfills an
  empty history from the exercise's top-level fields. Exercises are added,
  updated and removed by list index; each change is saved, then `dataChanged`
  is emitted.
- **ExerciseModel** (`exercisemodel.cpp`, module `ExerciseList`). It holds
  typed `Exercise` / `HistoryRecord` records. It provides their JSON form (an
  `exercises` object keyed by name), the list mutations (`updateExercise` sorts
  history newest first) and the `data()` role accessor.
- **ExerciseProvider** (`exerciseprovider.cpp`, module `ExerciseCatalog`). It
  reads the catalogue of `name|group` lines. A line is trimmed and must split
  on `|` into exactly two parts. Both parts are trimmed. An entry that
  case-insensitively equals one already listed is skipped.

Two support modules hold what Qt provides:

- `JsonValues` (`json.dfy`) holds the JSON tree and Qt's lenient conversions:
  `toArray`, `toObject`, `toString`, `toDouble`, and `toInt` (0 unless the
  number is whole and fits an `int`). It also models the null that the
  non-const `QJsonObject::operator[]` inserts for a missing key, and the sorted
  key order of `QJsonObject::keys()`.
- `DateTimes` (`datetime.dfy`) holds `QDateTime` as "invalid, or a number of
  seconds", with Qt 6's ordering, in which an invalid date time is earlier
  than any valid one.

The stores' state is Dafny class fields, and their methods are proved against
specification functions. The properties relating several calls are lemmas:
round trips, idempotence of the repair pass, stability of loading, and the
first-occurrence behaviour of the catalogue loader.

The clock is a parameter `now` (seconds). The result of reading the file is a
parameter (`FileRead`, or `Option<seq<string>>` of lines). Whether a delete
succeeded is a parameter. `save()` is a ghost record of the last document
handed to it. `dataChanged` is a ghost counter.

Where the header and the code disagree, the code is followed.
`datacenter.h:22-23` declares `updateExercise` and `removeExercise` taking an
exercise name. `datacenter.cpp:107,135` defines them taking a list index, and
the model takes the index.

## Model

| member | source | states |
|---|---|---|
| JsonValues.SortedKeys | exercisemodel.cpp:115 | `QJsonObject::keys()` lists every key of the object exactly once and no other string |
| JsonValues.SortedKeysAscending | exercisemodel.cpp:115 | the keys come in strictly ascending order, comparing Unicode code points |
| DateTimes.IsoTextRoundTrip | exercisemodel.cpp:43-52 | parsing the ISO text of a date time (`fromString(..., Qt::ISODate)`) gives back the same date time, invalid included |
| DataStore.Snapshot | datacenter.cpp:55-59 | the history entry built from an exercise reads back, through Qt's conversions, as its lastUpdated, currentValue, unit and repetitions; this holds before and after the lookups insert missing fields as null |
| DataStore.RepairedExercise | datacenter.cpp:50-65 | after one repair step the exercise has a non-empty history. An exercise that already had one is unchanged. Otherwise the history is exactly one entry recording the exercise's fields, the keys grow by exactly the looked-up fields, and every other field keeps its value |
| DataStore.Repaired | datacenter.cpp:47-66 | the repaired list has the same length and order. Every exercise has a history. Exercises that had one are unchanged. Backfilled ones hold one entry recording their own fields |
| DataStore.RepairHistories | datacenter.cpp:47-66 | the loop computes exactly `Repaired` of the list. `modified` is set if and only if some exercise lacked a history |
| DataStore.EnsureHistories | datacenter.cpp:46-71 | the `exercises` member reads as `Repaired` of the old list. The keys grow by `exercises` at most, and every other member keeps its value. When no exercise lacked a history, the only possible change is the null `operator[]` inserts for a missing `exercises` |
| DataStore.EnsureHistoriesSettles | datacenter.cpp:46-71 | on a document with a non-empty `exercises` array, the repair pass leaves every exercise with a history and keeps the number of exercises |
| DataStore.EnsureHistoriesIdempotent | datacenter.cpp:54-70 | a second repair pass leaves the document as the first one left it |
| DataStore.DefaultData | datacenter.cpp:157-220 | the default document holds three exercises, each with a non-empty history |
| DataStore.Loaded | datacenter.cpp:17-39 | `load` yields the defaults when the file is missing or unopenable, is not JSON or not an object, or has a missing, non-array or empty `exercises`. Otherwise it yields the file's document after the repair pass. Either way every exercise has a history |
| DataStore.SettledLoadsUnchanged | datacenter.cpp:29-33 | a document whose exercises all have histories is a fixed point of the repair pass, and `load` keeps it unchanged |
| DataStore.LoadIsStable | datacenter.cpp:17-44 | loading again the document that `load` saved gives the same document, at any later time |
| DataStore.NewExercise | datacenter.cpp:86-99 | the appended record carries the given name, group, value, unit and repetitions. Its lastUpdated parses back to now. Its history is one entry recording those current fields |
| DataStore.UpdatedExercise | datacenter.cpp:111-129 | the history grows by one: the old history is kept behind a new front entry that records the previous state. currentValue, repetitions and lastUpdated take the new values. The unit reads back the same. The only keys added are the assigned and looked-up ones, and no other field changes |
| DataStore.Without | datacenter.cpp:139 | removing index `i` shortens the list by one and keeps the order of the entries before and after `i` |
| DataStore.DataCenter.constructor | datacenter.cpp:9-11 | a new store holds `Loaded(file, now)`, has saved it, and has notified once |
| DataStore.DataCenter.Load | datacenter.cpp:17-44 | the store holds `Loaded(file, now)`, hands exactly that to save, and emits `dataChanged` once |
| DataStore.DataCenter.EnsureHistoriesExist | datacenter.cpp:46-71 | the document becomes `EnsureHistories` of the old one; nothing is saved or emitted |
| DataStore.DataCenter.Save | datacenter.cpp:73-79 | the current document becomes the persisted one, and the document itself does not change |
| DataStore.DataCenter.LoadDefaultData | datacenter.cpp:157-220 | the document is replaced by the default document for the current time |
| DataStore.DataCenter.AddExercise | datacenter.cpp:81-105 | the list grows by exactly one record at the end, with no check for duplicate names. A missing or non-array `exercises` counts as the empty list, so afterwards the store always holds an `exercises` array. Nothing else in the document changes. The store saves and notifies once |
| DataStore.DataCenter.UpdateExercise | datacenter.cpp:107-133 | outside [0, size), the only change is the null `operator[]` inserts for a missing `exercises`, and nothing is saved or emitted. Otherwise only the exercise at the index becomes `UpdatedExercise`, then the store saves and notifies once. A store holding an `exercises` array keeps holding one |
| DataStore.DataCenter.RemoveExercise | datacenter.cpp:135-143 | outside [0, size), the only change is the null `operator[]` inserts for a missing `exercises`, and nothing is saved or emitted. Otherwise exactly that index is removed, the rest keep their order, and the store saves and notifies once. A store holding an `exercises` array keeps holding one |
| DataStore.DataCenter.DeleteFile | datacenter.cpp:145-151 | when the file was removed, the defaults are loaded and saved without a notification, whatever the store held before. Otherwise nothing changes |
| ExerciseList.RecordToJson | exercisemodel.cpp:41-48 | the object has exactly the keys timestamp, value, unit and repetitions. Timestamp and unit are strings; value and repetitions are numbers |
| ExerciseList.RecordFromJson | exercisemodel.cpp:50-57 | a missing field reads as Qt's default: an invalid timestamp, value 0, an empty unit, 0 repetitions |
| ExerciseList.ExerciseJson | exercisemodel.cpp:6-22 | the object has exactly the keys name, muscleGroup, currentValue, unit, repetitions, lastUpdated and history. The history is an array with one element per record |
| ExerciseList.ExerciseOf | exercisemodel.cpp:24-39 | the exercise's name is the key, not the object's `name` field. It has one record per element of the `history` array. Missing fields read as Qt's defaults: empty texts, zero numbers, an invalid lastUpdated, an empty history |
| ExerciseList.RecordRoundTrip | exercisemodel.cpp:41-57 | `HistoryRecord::fromJson(r.toJson()) == r` |
| ExerciseList.ExerciseRoundTrip | exercisemodel.cpp:6-39 | `Exercise::fromJson(e.name, e.toJson()) == e`: the name comes from the key, and the history keeps its order |
| ExerciseList.ExerciseToJson | exercisemodel.cpp:6-22 | the loop builds the exercise object with one history entry per record, in order |
| ExerciseList.ExerciseFromJson | exercisemodel.cpp:24-39 | the loop reads the exercise under the given key, with one record per history entry, in order |
| ExerciseList.NamedObjects | exercisemodel.cpp:126-130 | the keys of the `exercises` object are exactly the names of the exercises |
| ExerciseList.ModelJson | exercisemodel.cpp:125-134 | the document has the single key `exercises`, holding an object whose keys are exactly the exercise names |
| ExerciseList.NamedObjectsHoldLatest | exercisemodel.cpp:128-130 | in the `exercises` object, each name holds the last exercise with that name |
| ExerciseList.LoadedExercises | exercisemodel.cpp:114-118 | `loadFromJson` reads exactly one exercise per key of the `exercises` object |
| ExerciseList.LoadedAt | exercisemodel.cpp:115-117 | the exercise at position `i` is the one `Exercise::fromJson` reads from the object stored under the `i`-th key, with that key as its name |
| ExerciseList.LoadedInNameOrder | exercisemodel.cpp:115-117 | the loaded exercises come in strictly ascending name order |
| ExerciseList.ModelRoundTrip | exercisemodel.cpp:107-134 | loading the saved model gives one exercise per distinct name. Each is the latest exercise with that name, unchanged, and every latest exercise is loaded back |
| ExerciseList.DistinctModelRoundTrip | exercisemodel.cpp:107-134 | with distinct names, loading the saved model gives back exactly the same exercises and the same number of them |
| ExerciseList.SortNewestFirst | exercisemodel.cpp:171-174 | the sorted history is non-increasing by timestamp and is a permutation of the input |
| ExerciseList.Updated | exercisemodel.cpp:157-174 | after an update, name, muscle group and unit are unchanged, and value, repetitions and time are the new ones. The history is newest first and is a permutation of the old history plus the previous state |
| ExerciseList.ExerciseModel.constructor | exercisemodel.cpp:59 | a new model has no rows |
| ExerciseList.ExerciseModel.Data | exercisemodel.cpp:66-93 | an invalid or out-of-range index, or an unknown role, gives an empty value. Each role gives its field. The history role gives a list of the same length and order as the history |
| ExerciseList.ExerciseModel.LoadFromJson | exercisemodel.cpp:107-123 | the list is replaced by one exercise per key of `exercises`, in key order |
| ExerciseList.ExerciseModel.ToJson | exercisemodel.cpp:125-134 | the document is `{"exercises": object keyed by name}`, where later exercises overwrite earlier ones with the same name |
| ExerciseList.ExerciseModel.AddExercise | exercisemodel.cpp:136-150 | the row count grows by one. The new last exercise has the given fields, time now and an empty history, and the other rows are untouched |
| ExerciseList.ExerciseModel.UpdateExercise | exercisemodel.cpp:152-177 | outside [0, rowCount) nothing changes. Otherwise only the exercise at the index changes, and it becomes `Updated` |
| ExerciseList.ExerciseModel.RemoveExercise | exercisemodel.cpp:179-186 | outside [0, rowCount) nothing changes. Otherwise the row count drops by one and the remaining rows keep their order |
| ExerciseCatalog.SpaceClasses | exerciseprovider.cpp:23 | the white space `trimmed` removes (`QChar::isSpace`) is, among ASCII characters, exactly space, tab, line feed, vertical tab, form feed and carriage return. No white space character is a letter or the bar separator |
| ExerciseCatalog.Trim | exerciseprovider.cpp:23 | the trimmed text neither starts nor ends with white space and is no longer than the input |
| ExerciseCatalog.TrimCuts | exerciseprovider.cpp:23 | trimming keeps one contiguous slice of the text. Everything cut before it and after it is white space |
| ExerciseCatalog.Split | exerciseprovider.cpp:24 | there is one more part than there are bar separators, and no part contains a bar |
| ExerciseCatalog.SplitJoin | exerciseprovider.cpp:24 | joining the parts with bars gives back the original text |
| ExerciseCatalog.ParseKeepsOneBarLines | exerciseprovider.cpp:23-25 | a line gives an entry if and only if it contains exactly one bar |
| ExerciseCatalog.ParseFields | exerciseprovider.cpp:26-27 | the entry of a line made of `a`, a bar, and `b`, where neither holds a bar, is the trimmed `a` and the trimmed `b` |
| ExerciseCatalog.Parse | exerciseprovider.cpp:23-27 | the name and group of an accepted line contain no bar, and neither starts nor ends with white space |
| ExerciseCatalog.SplitLine | exerciseprovider.cpp:23-27 | the trimmed line splits into exactly two parts if and only if `Parse` accepts it, and the two trimmed parts are `Parse`'s entry |
| ExerciseCatalog.Step | exerciseprovider.cpp:25-36 | one line keeps the list as a prefix and appends at most one entry. A list without case-insensitive duplicates stays without them |
| ExerciseCatalog.Accept | exerciseprovider.cpp:22-38 | during loading the list never shrinks, keeps what it held, and gains at most one entry per line |
| ExerciseCatalog.AcceptKeepsDistinct | exerciseprovider.cpp:29-35 | after every line, no two stored entries are case-insensitively equal on both name and group |
| ExerciseCatalog.AcceptKeepsFirstOccurrences | exerciseprovider.cpp:29-37 | from an empty list, loading keeps the first occurrence of each entry in file order and skips every later case-insensitive duplicate |
| ExerciseCatalog.SameText | exerciseprovider.cpp:50-51 | two texts compare equal ignoring case exactly when their case-folded forms are equal |
| ExerciseCatalog.ExerciseProvider.constructor | exerciseprovider.cpp:6-10 | a new catalogue is empty when the file cannot be opened. Otherwise it is the loading fold over the file's lines from an empty list |
| ExerciseCatalog.ExerciseProvider.ExistsExercise | exerciseprovider.cpp:44-56 | true if and only if some stored entry equals the given name and group, ignoring case |
| ExerciseCatalog.ExerciseProvider.LoadExercisesFromFile | exerciseprovider.cpp:12-42 | when the file cannot be opened the list is unchanged. Otherwise the list becomes the loading fold of its old value over the lines, in order |

## Left out

- File I/O is not modelled. This covers opening, reading, writing and removing files, `getFilePath`, `QStandardPaths`, and whether `save()`'s write succeeds. Read results and delete success are inputs; `save()` records the document in ghost state.
- JSON text parsing and printing (`QJsonDocument::fromJson` / `toJson`) are not modelled. The parsed tree is the input.
- `QDateTime::toString` / `fromString` with `Qt::ISODate` are modelled by a decimal rendering of seconds and its parser. Their round trip is proved. The loss of milliseconds in the real ISO format is not modelled.
- DateTimes.AddDays: adds whole days of 86400 seconds and ignores daylight-saving shifts.
- `QDateTime::currentDateTime` is the parameter `now`.
- Floating-point `double` is modelled as `real`. Values are only copied, never computed, so rounding and NaN are not modelled.
- Qt signals other than the `dataChanged` counter of `DataCenter` are not modelled. This covers `begin/endInsertRows`, `begin/endRemoveRows`, `begin/endResetModel`, the model's `dataChanged`, and `exercisesChanged`.
- `qDebug` logging is not modelled.
- `roleNames` is not modelled: it is a constant table. The role numbers themselves are modelled.
- The `data()` / `exercises()` getters that return the whole state are not modelled as separate members.
- ExerciseCatalog.SameText: `Qt::CaseInsensitive` is modelled by folding ASCII letters only; full Unicode case folding is not modelled.
- ExerciseList.SortNewestFirst: `std::sort` leaves the order of records with equal timestamps unspecified. The model picks one such order (insertion sort). Its contract states only what every outcome shares: newest first, and the same records.
- ExerciseList.ExerciseModel.RowCount: `rowCount` ignores its parent index, and the model has no row of its own for it. Its value is stated through the contracts of `AddExercise` and `RemoveExercise`.
- JsonValues.Below: keys are ordered by Unicode code point. QString compares UTF-16 code units, and the two orders differ when keys mix characters above U+FFFF with characters in U+E000 to U+FFFF.
- `ThemeUtils.java` (Android theming) and `main.cpp` (application start-up) are not part of this model.
