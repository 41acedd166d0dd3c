/**
 * The task store `TaskStorage`. The records live in a JSON file; every
 * operation loads the whole sequence, changes it, and writes it back. The
 * file is modelled as the JSON document it holds (`None` when it is missing,
 * unreadable or not JSON), and the clock as a `now` parameter.
 */
module Storage {
  import opened Wrappers
  import Text
  import SmartParser

  /** The struct `TaskItem`; `alarmTime` is in epoch milliseconds, 0 = no alarm. */
  datatype TaskItem = TaskItem(text: string, isCompleted: bool, alarmTime: int)

  /** A JSON value. Numbers are integers (the store only writes alarm times). */
  datatype Json =
    | JNull
    | JBool(b: bool)
    | JNumber(n: int)
    | JString(str: string)
    | JArray(items: seq<Json>)
    | JObject(fields: map<string, Json>)

  /** Snooze step: 30 minutes in milliseconds. */
  const SnoozeMs: int := 30 * 60 * 1000

  // ---------------------------------------------------------------------
  // Encoding and decoding

  /** A lookup `obj[key]`; a missing key reads as an undefined value. */
  function Field(fields: map<string, Json>, key: string): Option<Json>
  {
    if key in fields then Some(fields[key]) else None
  }

  /** `QJsonValue::toString()`: the string, or "" for any other value. */
  function AsString(v: Option<Json>): string
  {
    match v
    case Some(JString(str)) => str
    case _ => ""
  }

  /** `QJsonValue::toBool()`: the boolean, or false for any other value. */
  function AsBool(v: Option<Json>): bool
  {
    match v
    case Some(JBool(b)) => b
    case _ => false
  }

  /** `QJsonValue::toDouble(0)`: the number, or 0 for any other value. */
  function AsNumber(v: Option<Json>): int
  {
    match v
    case Some(JNumber(n)) => n
    case _ => 0
  }

  /** The record read from one JSON object, with the defaults for missing or
      mistyped fields. */
  function ItemOf(fields: map<string, Json>): TaskItem
  {
    TaskItem(AsString(Field(fields, "text")), AsBool(Field(fields, "isCompleted")),
             AsNumber(Field(fields, "alarmTime")))
  }

  /** The JSON object written for one record. */
  function EncodeItem(t: TaskItem): Json
  {
    JObject(map["text" := JString(t.text), "isCompleted" := JBool(t.isCompleted),
                "alarmTime" := JNumber(t.alarmTime)])
  }

  /** The document `saveInternal` writes: an array of one object per record. */
  function Encode(tasks: seq<TaskItem>): (doc: Json)
    ensures doc.JArray? && |doc.items| == |tasks|
    ensures forall i :: 0 <= i < |tasks| ==> doc.items[i] == EncodeItem(tasks[i])
  {
    JArray(seq(|tasks|, i requires 0 <= i < |tasks| => EncodeItem(tasks[i])))
  }

  /** The records read from an array: objects are decoded, anything else is
      skipped. */
  function DecodeArray(items: seq<Json>): (r: seq<TaskItem>)
    ensures |r| <= |items|
  {
    if items == [] then []
    else
      var last := items[|items| - 1];
      DecodeArray(items[..|items| - 1]) + (if last.JObject? then [ItemOf(last.fields)] else [])
  }

  /** What `load` returns for a file: nothing unless it holds an array. */
  function Decode(doc: Option<Json>): (r: seq<TaskItem>)
    ensures !(doc.Some? && doc.value.JArray?) ==> r == []
  {
    match doc
    case Some(JArray(items)) => DecodeArray(items)
    case _ => []
  }

  /** A record survives its own encoding. */
  lemma ItemRoundTrip(t: TaskItem)
    ensures EncodeItem(t).JObject? && ItemOf(EncodeItem(t).fields) == t
  {
    var f := EncodeItem(t).fields;
    assert Field(f, "text") == Some(JString(t.text));
    assert Field(f, "isCompleted") == Some(JBool(t.isCompleted));
    assert Field(f, "alarmTime") == Some(JNumber(t.alarmTime));
  }

  /** Decoding distributes over concatenation of arrays. */
  lemma {:induction false} DecodeAppend(a: seq<Json>, b: seq<Json>)
    ensures DecodeArray(a + b) == DecodeArray(a) + DecodeArray(b)
    decreases |b|
  {
    if b == [] {
      assert a + b == a;
    } else {
      var n := |b| - 1;
      assert (a + b)[..|a + b| - 1] == a + b[..n];
      assert (a + b)[|a + b| - 1] == b[n];
      DecodeAppend(a, b[..n]);
    }
  }

  /** A value that is not an object contributes no record, wherever it stands. */
  lemma DecodeSkipsNonObject(a: seq<Json>, v: Json, b: seq<Json>)
    requires !v.JObject?
    ensures DecodeArray(a + [v] + b) == DecodeArray(a + b)
  {
    DecodeAppend(a + [v], b);
    DecodeAppend(a, [v]);
    DecodeAppend(a, b);
    assert DecodeArray([v]) == DecodeArray([]) + [];
  }

  /** An object contributes exactly the record `ItemOf` reads from it. */
  lemma DecodeObject(a: seq<Json>, fields: map<string, Json>, b: seq<Json>)
    ensures DecodeArray(a + [JObject(fields)] + b) == DecodeArray(a) + [ItemOf(fields)] + DecodeArray(b)
  {
    DecodeAppend(a + [JObject(fields)], b);
    DecodeAppend(a, [JObject(fields)]);
    assert [JObject(fields)][..0] == [];
  }

  /** Each field is read on its own: a present field of the right JSON type
      gives its value, and a missing or mistyped one gives "", false or 0. */
  lemma ItemOfFields(f: map<string, Json>)
    ensures ("text" in f && f["text"].JString?) ==> ItemOf(f).text == f["text"].str
    ensures !("text" in f && f["text"].JString?) ==> ItemOf(f).text == ""
    ensures ("isCompleted" in f && f["isCompleted"].JBool?) ==> ItemOf(f).isCompleted == f["isCompleted"].b
    ensures !("isCompleted" in f && f["isCompleted"].JBool?) ==> !ItemOf(f).isCompleted
    ensures ("alarmTime" in f && f["alarmTime"].JNumber?) ==> ItemOf(f).alarmTime == f["alarmTime"].n
    ensures !("alarmTime" in f && f["alarmTime"].JNumber?) ==> ItemOf(f).alarmTime == 0
  {
  }

  /** `load` after `saveInternal(tasks)` returns `tasks`, field for field. */
  lemma {:induction false} RoundTrip(tasks: seq<TaskItem>)
    ensures Decode(Some(Encode(tasks))) == tasks
    decreases |tasks|
  {
    if tasks != [] {
      var n := |tasks| - 1;
      var items := Encode(tasks).items;
      assert items[..n] == Encode(tasks[..n]).items;
      RoundTrip(tasks[..n]);
      ItemRoundTrip(tasks[n]);
      assert tasks == tasks[..n] + [tasks[n]];
    }
  }

  // ---------------------------------------------------------------------
  // What each operation does to the sequence of records

  /** The record `add` appends for an already trimmed, non-empty text. */
  function NewItem(text: string, now: int): (t: TaskItem)
    ensures t.text == text && !t.isCompleted
    ensures t.alarmTime == 0 || t.alarmTime > now
  {
    var parsed := SmartParser.Parse(text, now);
    TaskItem(parsed.cleanText, false, parsed.alarmTime)
  }

  /** `add(task)`: a blank text changes nothing; otherwise one record is
      appended for the trimmed text. */
  function Added(tasks: seq<TaskItem>, task: string, now: int): (r: seq<TaskItem>)
    ensures Text.IsBlank(task) ==> r == tasks
    ensures !Text.IsBlank(task) ==> (|r| == |tasks| + 1 && r[..|tasks|] == tasks
      && r[|tasks|].text == Text.Trim(task) && !r[|tasks|].isCompleted
      && r[|tasks|].alarmTime == SmartParser.Parse(Text.Trim(task), now).alarmTime)
  {
    var t := Text.Trim(task);
    if t == [] then tasks else tasks + [NewItem(t, now)]
  }

  /** `update(index, newText)`: a blank text or an index out of range changes
      nothing; otherwise record `index` gets the trimmed text and the alarm
      parsed from it, and keeps its completion flag. */
  function Updated(tasks: seq<TaskItem>, index: int, newText: string, now: int): (r: seq<TaskItem>)
    ensures |r| == |tasks|
    ensures forall j :: 0 <= j < |tasks| && j != index ==> r[j] == tasks[j]
    ensures (Text.IsBlank(newText) || !(0 <= index < |tasks|)) ==> r == tasks
    ensures !Text.IsBlank(newText) && 0 <= index < |tasks| ==>
      && r[index].text == Text.Trim(newText)
      && r[index].isCompleted == tasks[index].isCompleted
      && r[index].alarmTime == SmartParser.Parse(Text.Trim(newText), now).alarmTime
  {
    var t := Text.Trim(newText);
    if t == [] || !(0 <= index < |tasks|) then tasks
    else
      var parsed := SmartParser.Parse(t, now);
      tasks[index := tasks[index].(text := parsed.cleanText, alarmTime := parsed.alarmTime)]
  }

  /** A record whose text and alarm are replaced by those parsed from the
      trimmed text, with nothing else changed, is what `Updated` gives. */
  lemma UpdatedAt(tasks: seq<TaskItem>, index: int, newText: string, now: int, r: seq<TaskItem>)
    requires Text.Trim(newText) != [] && 0 <= index < |tasks| && |r| == |tasks|
    requires forall j :: 0 <= j < |tasks| && j != index ==> r[j] == tasks[j]
    requires r[index] == tasks[index].(text := SmartParser.Parse(Text.Trim(newText), now).cleanText,
      alarmTime := SmartParser.Parse(Text.Trim(newText), now).alarmTime)
    ensures r == Updated(tasks, index, newText, now)
  {
  }

  /** `setCompleted(index, completed)`: only the flag of record `index` changes. */
  function WithCompleted(tasks: seq<TaskItem>, index: int, completed: bool): (r: seq<TaskItem>)
    ensures |r| == |tasks|
    ensures forall j :: 0 <= j < |tasks| && j != index ==> r[j] == tasks[j]
    ensures !(0 <= index < |tasks|) ==> r == tasks
    ensures 0 <= index < |tasks| ==> r[index] == tasks[index].(isCompleted := completed)
  {
    if 0 <= index < |tasks| then tasks[index := tasks[index].(isCompleted := completed)] else tasks
  }

  /** The later of two instants. */
  function Max(a: int, b: int): (m: int)
    ensures m >= a && m >= b && (m == a || m == b)
  {
    if a >= b then a else b
  }

  /** `snooze(index)`: a record with an alarm is pushed to 30 minutes after
      the later of its alarm and `now`; anything else changes nothing. */
  function Snoozed(tasks: seq<TaskItem>, index: int, now: int): (r: seq<TaskItem>)
    ensures |r| == |tasks|
    ensures forall j :: 0 <= j < |tasks| && j != index ==> r[j] == tasks[j]
    ensures !(0 <= index < |tasks| && tasks[index].alarmTime > 0) ==> r == tasks
    ensures 0 <= index < |tasks| && tasks[index].alarmTime > 0 ==>
      r[index] == tasks[index].(alarmTime := Max(tasks[index].alarmTime, now) + SnoozeMs)
  {
    if 0 <= index < |tasks| && tasks[index].alarmTime > 0 then
      tasks[index := tasks[index].(alarmTime := Max(tasks[index].alarmTime, now) + SnoozeMs)]
    else tasks
  }

  /** `remove(index)`: record `index` is dropped and the later ones move up. */
  function Removed(tasks: seq<TaskItem>, index: int): (r: seq<TaskItem>)
    ensures !(0 <= index < |tasks|) ==> r == tasks
    ensures 0 <= index < |tasks| ==> (|r| == |tasks| - 1
      && (forall j :: 0 <= j < index ==> r[j] == tasks[j])
      && (forall j :: index <= j < |r| ==> r[j] == tasks[j + 1]))
  {
    if 0 <= index < |tasks| then tasks[..index] + tasks[index + 1..] else tasks
  }

  // ---------------------------------------------------------------------
  // Properties of the operations

  /** A snoozed alarm lies in the future and at least 30 minutes after the
      old one. */
  lemma SnoozeBounds(tasks: seq<TaskItem>, index: int, now: int)
    requires 0 <= index < |tasks| && tasks[index].alarmTime > 0
    ensures var a := Snoozed(tasks, index, now)[index].alarmTime;
      a > now && a >= tasks[index].alarmTime + SnoozeMs
      && a - SnoozeMs in {tasks[index].alarmTime, now}
      && SameTextAndFlag(Snoozed(tasks, index, now)[index], tasks[index])
  {
  }

  /** Text and completion flag agree. */
  predicate SameTextAndFlag(a: TaskItem, b: TaskItem)
  {
    a.text == b.text && a.isCompleted == b.isCompleted
  }

  /** Setting the same completion flag twice is the same as setting it once. */
  lemma SetCompletedIdempotent(tasks: seq<TaskItem>, index: int, completed: bool)
    ensures WithCompleted(WithCompleted(tasks, index, completed), index, completed)
      == WithCompleted(tasks, index, completed)
  {
  }

  /** The store's texts are trimmed and non-empty. */
  predicate TextsTrimmed(tasks: seq<TaskItem>)
  {
    forall j :: 0 <= j < |tasks| ==> tasks[j].text != [] && Text.IsTrimmed(tasks[j].text)
  }

  /** Adding keeps the texts of the store trimmed and non-empty. */
  lemma AddKeepsTextsTrimmed(tasks: seq<TaskItem>, task: string, now: int)
    requires TextsTrimmed(tasks)
    ensures TextsTrimmed(Added(tasks, task, now))
  {
    var r := Added(tasks, task, now);
    if !Text.IsBlank(task) {
      assert r[|tasks|].text == Text.Trim(task) != [];
      forall j | 0 <= j < |tasks|
        ensures r[j] == tasks[j]
      {
        assert r[..|tasks|][j] == r[j];
      }
    }
  }

  /** Updating keeps the texts of the store trimmed and non-empty. */
  lemma UpdateKeepsTextsTrimmed(tasks: seq<TaskItem>, index: int, newText: string, now: int)
    requires TextsTrimmed(tasks)
    ensures TextsTrimmed(Updated(tasks, index, newText, now))
  {
  }

  /** The other three operations never touch a text. */
  lemma OthersKeepTextsTrimmed(tasks: seq<TaskItem>, index: int, completed: bool, now: int)
    requires TextsTrimmed(tasks)
    ensures TextsTrimmed(WithCompleted(tasks, index, completed))
    ensures TextsTrimmed(Snoozed(tasks, index, now))
    ensures TextsTrimmed(Removed(tasks, index))
  {
  }

  // ---------------------------------------------------------------------
  // The store object

  /** `TaskStorage`: the file it owns, and the read-modify-write operations. */
  class TaskStorage {
    /** The document in `tasks.json`; `None` when there is no readable JSON. */
    var file: Option<Json>

    constructor(contents: Option<Json>)
      ensures file == contents
    {
      file := contents;
    }

    /** The records the file currently holds. */
    function Tasks(): seq<TaskItem>
      reads this
    {
      Decode(file)
    }

    /** `load`: reads the records, skipping array elements that are not objects. */
    method Load() returns (tasks: seq<TaskItem>)
      ensures tasks == Tasks()
    {
      tasks := [];
      match file {
        case Some(JArray(items)) =>
          var i := 0;
          while i < |items|
            invariant 0 <= i <= |items|
            invariant tasks == DecodeArray(items[..i])
          {
            assert items[..i + 1][..i] == items[..i];
            var v := items[i];
            if v.JObject? {
              tasks := tasks + [ItemOf(v.fields)];
            }
            i := i + 1;
          }
          assert items[..i] == items;
        case _ =>
      }
    }

    /** `saveInternal`: writes one object per record, in order. */
    method SaveInternal(tasks: seq<TaskItem>)
      modifies this
      ensures file == Some(Encode(tasks))
      ensures Tasks() == tasks
    {
      var arr: seq<Json> := [];
      var i := 0;
      while i < |tasks|
        invariant 0 <= i <= |tasks|
        invariant |arr| == i
        invariant forall k :: 0 <= k < i ==> arr[k] == EncodeItem(tasks[k])
      {
        arr := arr + [EncodeItem(tasks[i])];
        i := i + 1;
      }
      file := Some(JArray(arr));
      assert JArray(arr) == Encode(tasks);
      RoundTrip(tasks);
    }

    /** `add(task)`: appends a record for the trimmed text unless it is blank;
        a blank text leaves the file untouched. */
    method Add(task: string, now: int)
      modifies this
      ensures Text.IsBlank(task) ==> file == old(file)
      ensures !Text.IsBlank(task) ==> file == Some(Encode(Added(old(Tasks()), task, now)))
      ensures Tasks() == Added(old(Tasks()), task, now)
    {
      var trimmed := Text.Trim(task);
      if trimmed == [] {
        return;
      }
      var parsed := SmartParser.Parse(trimmed, now);
      var tasks := Load();
      tasks := tasks + [TaskItem(parsed.cleanText, false, parsed.alarmTime)];
      SaveInternal(tasks);
    }

    /** `update(index, newText)`: replaces the text and re-derives the alarm of
        record `index`; a blank text or a bad index leaves the file untouched. */
    method Update(index: int, newText: string, now: int)
      modifies this
      ensures (Text.IsBlank(newText) || !(0 <= index < |old(Tasks())|)) ==> file == old(file)
      ensures !Text.IsBlank(newText) && 0 <= index < |old(Tasks())| ==>
        file == Some(Encode(Updated(old(Tasks()), index, newText, now)))
      ensures Tasks() == Updated(old(Tasks()), index, newText, now)
    {
      var trimmed := Text.Trim(newText);
      if trimmed == [] {
        return;
      }
      var tasks := Load();
      if index < 0 || index >= |tasks| {
        return;
      }
      ghost var before := tasks;
      var parsed := SmartParser.Parse(trimmed, now);
      tasks := tasks[index := tasks[index].(text := parsed.cleanText)];
      tasks := tasks[index := tasks[index].(alarmTime := parsed.alarmTime)];
      UpdatedAt(before, index, newText, now, tasks);
      SaveInternal(tasks);
    }

    /** `setCompleted(index, completed)`: sets the flag of record `index`; a
        bad index leaves the file untouched. */
    method SetCompleted(index: int, completed: bool)
      modifies this
      ensures !(0 <= index < |old(Tasks())|) ==> file == old(file)
      ensures 0 <= index < |old(Tasks())| ==>
        file == Some(Encode(WithCompleted(old(Tasks()), index, completed)))
      ensures Tasks() == WithCompleted(old(Tasks()), index, completed)
    {
      var tasks := Load();
      if index < 0 || index >= |tasks| {
        return;
      }
      tasks := tasks[index := tasks[index].(isCompleted := completed)];
      SaveInternal(tasks);
    }

    /** `snooze(index)`: moves the alarm of record `index` to 30 minutes after
        the later of the alarm and `now`; a bad index or a record without an
        alarm leaves the file untouched. */
    method Snooze(index: int, now: int)
      modifies this
      ensures !(0 <= index < |old(Tasks())| && old(Tasks())[index].alarmTime > 0) ==> file == old(file)
      ensures 0 <= index < |old(Tasks())| && old(Tasks())[index].alarmTime > 0 ==>
        file == Some(Encode(Snoozed(old(Tasks()), index, now)))
      ensures Tasks() == Snoozed(old(Tasks()), index, now)
    {
      var tasks := Load();
      if index < 0 || index >= |tasks| {
        return;
      }
      if tasks[index].alarmTime > 0 {
        var baseTime := Max(tasks[index].alarmTime, now);
        tasks := tasks[index := tasks[index].(alarmTime := baseTime + SnoozeMs)];
        SaveInternal(tasks);
      }
    }

    /** `remove(index)`: erases record `index`; a bad index leaves the file
        untouched. */
    method Remove(index: int)
      modifies this
      ensures !(0 <= index < |old(Tasks())|) ==> file == old(file)
      ensures 0 <= index < |old(Tasks())| ==> file == Some(Encode(Removed(old(Tasks()), index)))
      ensures Tasks() == Removed(old(Tasks()), index)
    {
      var tasks := Load();
      if index < 0 || index >= |tasks| {
        return;
      }
      tasks := tasks[..index] + tasks[index + 1..];
      SaveInternal(tasks);
    }
  }
}
