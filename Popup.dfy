/**
 * The task list of `TaskPopup`: the records are shown stable-sorted into
 * three tiers (urgent, pending, done); each row remembers the store index of
 * the first record equal to it, and long texts are shortened for display.
 */
module Popup {
  import opened Wrappers
  import opened Storage
  import Text

  /** Overdue: not done, has an alarm, and the alarm time has been reached. */
  predicate IsUrgent(t: TaskItem, now: int)
  {
    !t.isCompleted && t.alarmTime > 0 && now >= t.alarmTime
  }

  /** 0 for urgent, 1 for pending, 2 for done records. */
  function Tier(t: TaskItem, now: int): (r: nat)
    ensures r <= 2
    ensures r == 0 <==> IsUrgent(t, now)
    ensures r == 2 <==> t.isCompleted
  {
    if IsUrgent(t, now) then 0 else if !t.isCompleted then 1 else 2
  }

  /** The comparator handed to `std::stable_sort`, branch for branch: `a`
      comes first exactly when its tier is lower. */
  function Comes(a: TaskItem, b: TaskItem, now: int): (r: bool)
    ensures r <==> Tier(a, now) < Tier(b, now)
  {
    var aUrgent := IsUrgent(a, now);
    var bUrgent := IsUrgent(b, now);
    if aUrgent && !bUrgent then true
    else if !aUrgent && bUrgent then false
    else if !a.isCompleted && b.isCompleted then true
    else if a.isCompleted && !b.isCompleted then false
    else false
  }

  /** The records of tier `k`, in their original order. */
  function InTier(s: seq<TaskItem>, k: nat, now: int): (r: seq<TaskItem>)
    ensures |r| <= |s|
  {
    if s == [] then []
    else InTier(s[..|s| - 1], k, now) + (if Tier(s[|s| - 1], now) == k then [s[|s| - 1]] else [])
  }

  /** The display order: the urgent, then the pending, then the done records,
      each group in store order (what a stable sort by tier yields). */
  function Ordered(s: seq<TaskItem>, now: int): seq<TaskItem>
  {
    InTier(s, 0, now) + InTier(s, 1, now) + InTier(s, 2, now)
  }

  /** Nobody of a higher tier precedes anybody of a lower one. */
  predicate TierSorted(s: seq<TaskItem>, now: int)
  {
    forall i, j :: 0 <= i < j < |s| ==> Tier(s[i], now) <= Tier(s[j], now)
  }

  // ---------------------------------------------------------------------
  // Properties of the display order

  /** Every record of tier `k` has tier `k`. */
  lemma {:induction false} InTierTier(s: seq<TaskItem>, k: nat, now: int)
    ensures forall i :: 0 <= i < |InTier(s, k, now)| ==> Tier(InTier(s, k, now)[i], now) == k
  {
    if s != [] {
      InTierTier(s[..|s| - 1], k, now);
    }
  }

  /** The tiers of a single record. */
  lemma InTierSingle(x: TaskItem, k: nat, now: int)
    ensures InTier([x], k, now) == if Tier(x, now) == k then [x] else []
  {
    assert [x][..0] == [];
  }

  /** Filtering by tier distributes over concatenation. */
  lemma {:induction false} InTierAppend(a: seq<TaskItem>, b: seq<TaskItem>, k: nat, now: int)
    ensures InTier(a + b, k, now) == InTier(a, k, now) + InTier(b, k, now)
    decreases |b|
  {
    if b == [] {
      assert a + b == a;
    } else {
      var n := |b| - 1;
      assert (a + b)[..|a + b| - 1] == a + b[..n];
      assert (a + b)[|a + b| - 1] == b[n];
      InTierAppend(a, b[..n], k, now);
    }
  }

  /** A sequence without records of tier `k` has an empty tier `k`. */
  lemma {:induction false} InTierNone(s: seq<TaskItem>, k: nat, now: int)
    requires forall i :: 0 <= i < |s| ==> Tier(s[i], now) != k
    ensures InTier(s, k, now) == []
  {
    if s != [] {
      InTierNone(s[..|s| - 1], k, now);
    }
  }

  /** A tier filtered again: itself for the same tier, empty for another. */
  lemma InTierTwice(s: seq<TaskItem>, j: nat, k: nat, now: int)
    ensures InTier(InTier(s, j, now), k, now) == if j == k then InTier(s, k, now) else []
  {
    var t := InTier(s, j, now);
    InTierTier(s, j, now);
    if j == k {
      InTierAll(t, k, now);
    } else {
      InTierNone(t, k, now);
    }
  }

  /** A sequence wholly of tier `k` is its own tier `k`. */
  lemma {:induction false} InTierAll(s: seq<TaskItem>, k: nat, now: int)
    requires forall i :: 0 <= i < |s| ==> Tier(s[i], now) == k
    ensures InTier(s, k, now) == s
  {
    if s != [] {
      InTierAll(s[..|s| - 1], k, now);
    }
  }

  /** Stability: within each tier the display keeps the store's order. */
  lemma OrderedStable(s: seq<TaskItem>, k: nat, now: int)
    ensures InTier(Ordered(s, now), k, now) == InTier(s, k, now)
  {
    var g0, g1, g2 := InTier(s, 0, now), InTier(s, 1, now), InTier(s, 2, now);
    InTierAppend(g0 + g1, g2, k, now);
    InTierAppend(g0, g1, k, now);
    InTierTwice(s, 0, k, now);
    InTierTwice(s, 1, k, now);
    InTierTwice(s, 2, k, now);
    if k > 2 {
      InTierNone(s, k, now);
    }
  }

  /** Tier order: every urgent record precedes every pending one, and every
      pending one precedes every done one. */
  lemma OrderedSorted(s: seq<TaskItem>, now: int)
    ensures TierSorted(Ordered(s, now), now)
  {
    InTierTier(s, 0, now);
    InTierTier(s, 1, now);
    InTierTier(s, 2, now);
  }

  /** The records of a tier, counted with multiplicity. */
  lemma {:induction false} TiersPartition(s: seq<TaskItem>, now: int)
    ensures multiset(InTier(s, 0, now)) + multiset(InTier(s, 1, now)) + multiset(InTier(s, 2, now))
      == multiset(s)
  {
    if s != [] {
      var n := |s| - 1;
      TiersPartition(s[..n], now);
      assert s == s[..n] + [s[n]];
    }
  }

  /** The display shows every record exactly as often as the store holds it. */
  lemma OrderedPermutation(s: seq<TaskItem>, now: int)
    ensures multiset(Ordered(s, now)) == multiset(s)
  {
    TiersPartition(s, now);
  }

  /** Tier `k` of the store with one more record: `x` joins its own tier. */
  lemma InTierSnoc(s: seq<TaskItem>, x: TaskItem, k: nat, now: int)
    ensures InTier(s + [x], k, now) == InTier(s, k, now) + (if Tier(x, now) == k then [x] else [])
  {
    InTierAppend(s, [x], k, now);
    InTierSingle(x, k, now);
  }

  /** The display order with one more record: it joins the end of its tier. */
  lemma OrderedSnoc(s: seq<TaskItem>, x: TaskItem, now: int)
    ensures var g0, g1, g2 := InTier(s, 0, now), InTier(s, 1, now), InTier(s, 2, now);
      Ordered(s + [x], now) == match Tier(x, now)
        case 0 => (g0 + [x]) + g1 + g2
        case 1 => g0 + (g1 + [x]) + g2
        case _ => g0 + g1 + (g2 + [x])
  {
    InTierSnoc(s, x, 0, now);
    InTierSnoc(s, x, 1, now);
    InTierSnoc(s, x, 2, now);
    var t := Tier(x, now);
    if t == 0 {
      assert InTier(s + [x], 0, now) == InTier(s, 0, now) + [x];
      assert InTier(s + [x], 1, now) == InTier(s, 1, now);
      assert InTier(s + [x], 2, now) == InTier(s, 2, now);
    } else if t == 1 {
      assert InTier(s + [x], 0, now) == InTier(s, 0, now);
      assert InTier(s + [x], 1, now) == InTier(s, 1, now) + [x];
      assert InTier(s + [x], 2, now) == InTier(s, 2, now);
    } else {
      assert InTier(s + [x], 0, now) == InTier(s, 0, now);
      assert InTier(s + [x], 1, now) == InTier(s, 1, now);
      assert InTier(s + [x], 2, now) == InTier(s, 2, now) + [x];
    }
  }

  /** Where tier `t` ends in the display order. */
  function TierEnd(s: seq<TaskItem>, t: nat, now: int): (e: nat)
    ensures e <= |Ordered(s, now)|
  {
    |InTier(s, 0, now)| + (if t >= 1 then |InTier(s, 1, now)| else 0)
      + (if t >= 2 then |InTier(s, 2, now)| else 0)
  }

  /** Up to TierEnd the display shows tiers up to `t`, after it higher ones. */
  lemma TierEndSplits(s: seq<TaskItem>, t: nat, now: int)
    requires t <= 2
    ensures forall i :: 0 <= i < TierEnd(s, t, now) ==> Tier(Ordered(s, now)[i], now) <= t
    ensures forall i :: TierEnd(s, t, now) <= i < |Ordered(s, now)| ==> Tier(Ordered(s, now)[i], now) > t
  {
    InTierTier(s, 0, now);
    InTierTier(s, 1, now);
    InTierTier(s, 2, now);
  }

  /** Inserting `x` behind the last record of a tier not above its own
      extends the display order by `x`. */
  lemma InsertStep(s: seq<TaskItem>, x: TaskItem, j: nat, now: int)
    requires j <= |Ordered(s, now)|
    requires forall k :: j <= k < |Ordered(s, now)| ==> Tier(Ordered(s, now)[k], now) > Tier(x, now)
    requires j == 0 || Tier(Ordered(s, now)[j - 1], now) <= Tier(x, now)
    ensures Ordered(s, now)[..j] + [x] + Ordered(s, now)[j..] == Ordered(s + [x], now)
  {
    var p := Ordered(s, now);
    var t := Tier(x, now);
    TierEndSplits(s, t, now);
    var e := TierEnd(s, t, now);
    SplitUnique(p, t, e, j, now);
    OrderedSnoc(s, x, now);
    SpliceGroups(InTier(s, 0, now), InTier(s, 1, now), InTier(s, 2, now), x, t, j);
  }

  /** A sequence that splits into tiers up to `t` and tiers above `t` has one
      split point. */
  lemma SplitUnique(p: seq<TaskItem>, t: nat, e: nat, j: nat, now: int)
    requires e <= |p| && j <= |p|
    requires forall i :: 0 <= i < e ==> Tier(p[i], now) <= t
    requires forall i :: e <= i < |p| ==> Tier(p[i], now) > t
    requires forall k :: j <= k < |p| ==> Tier(p[k], now) > t
    requires j == 0 || Tier(p[j - 1], now) <= t
    ensures j < |p| ==> Tier(p[j], now) > t
    ensures j == e
  {
  }

  /** Splicing `x` in at the end of group `t` of three concatenated groups. */
  lemma SpliceGroups(g0: seq<TaskItem>, g1: seq<TaskItem>, g2: seq<TaskItem>, x: TaskItem, t: nat, j: nat)
    requires j == |g0| + (if t >= 1 then |g1| else 0) + (if t >= 2 then |g2| else 0)
    ensures var p := g0 + g1 + g2;
      p[..j] + [x] + p[j..] == match t
        case 0 => (g0 + [x]) + g1 + g2
        case 1 => g0 + (g1 + [x]) + g2
        case _ => g0 + g1 + (g2 + [x])
  {
    var p := g0 + g1 + g2;
    if t == 0 {
      assert p[..j] == g0 && p[j..] == g1 + g2;
    } else if t == 1 {
      assert p[..j] == g0 + g1 && p[j..] == g2;
    } else {
      assert p[..j] == p && p[j..] == [];
    }
  }

  /** One insertion step: `a[i]` moves left past every record it `Comes`
      before, and ends up behind the last record of a tier not above its own. */
  method InsertLast(a: array<TaskItem>, i: nat, now: int) returns (j: nat)
    requires i < a.Length
    modifies a
    ensures j <= i
    ensures a[..i + 1] == old(a[..i])[..j] + [old(a[i])] + old(a[..i])[j..]
    ensures a[i + 1..] == old(a[i + 1..])
    ensures forall k :: j <= k < i ==> Tier(old(a[k]), now) > Tier(old(a[i]), now)
    ensures j == 0 || Tier(old(a[j - 1]), now) <= Tier(old(a[i]), now)
  {
    ghost var p := a[..i];
    ghost var rest := a[i + 1..];
    var x := a[i];
    j := i;
    while j > 0 && Comes(x, a[j - 1], now)
      invariant 0 <= j <= i
      invariant forall k :: 0 <= k < j ==> a[k] == p[k]
      invariant a[j] == x
      invariant forall k :: j < k <= i ==> a[k] == p[k - 1]
      invariant forall k :: j <= k < i ==> Tier(p[k], now) > Tier(x, now)
      invariant a[i + 1..] == rest
    {
      a[j - 1], a[j] := a[j], a[j - 1];
      j := j - 1;
    }
    assert a[..i + 1] == p[..j] + [x] + p[j..];
  }

  /** `std::stable_sort` with the comparator `Comes`, done in place by
      insertion through adjacent swaps. */
  method StableSortByTier(a: array<TaskItem>, now: int)
    modifies a
    ensures a[..] == Ordered(old(a[..]), now)
  {
    ghost var s := a[..];
    var i := 0;
    while i < a.Length
      invariant 0 <= i <= a.Length
      invariant a[..i] == Ordered(s[..i], now)
      invariant a[i..] == s[i..]
    {
      ghost var p := a[..i];
      var x := a[i];
      var j := InsertLast(a, i, now);
      assert x == s[i];
      InsertStep(s[..i], x, j, now);
      assert s[..i + 1] == s[..i] + [x];
      i := i + 1;
    }
    assert a[..] == a[..a.Length];
    assert s == s[..a.Length];
  }

  /** The display order of [A pending, B urgent, C done] is [B, A, C]. */
  lemma ExampleOrder()
    ensures var a, b, c := TaskItem("A", false, 0), TaskItem("B", false, 50), TaskItem("C", true, 0);
      Ordered([a, b, c], 100) == [b, a, c]
  {
    var a, b, c := TaskItem("A", false, 0), TaskItem("B", false, 50), TaskItem("C", true, 0);
    InTierSnoc([a, b], c, 0, 100);
    InTierSnoc([a, b], c, 1, 100);
    InTierSnoc([a, b], c, 2, 100);
    InTierSnoc([a], b, 0, 100);
    InTierSnoc([a], b, 1, 100);
    InTierSnoc([a], b, 2, 100);
    InTierSingle(a, 0, 100);
    InTierSingle(a, 1, 100);
    InTierSingle(a, 2, 100);
    assert [a, b, c] == [a, b] + [c] && [a, b] == [a] + [b];
  }

  // ---------------------------------------------------------------------
  // Rows of the list

  /** Display text: more than 90 characters are shortened to the first 86
      followed by "...". */
  function Elide(text: string): (r: string)
    ensures |r| <= 90
    ensures |text| <= 90 ==> r == text
    ensures |text| > 90 ==> |r| == 89 && r[..86] == text[..86] && r[86..] == "..."
  {
    if |text| > 90 then text[..86] + "..." else text
  }

  /** The first position of `x` in `s`, or -1 when it does not occur. */
  function FirstIndexOf<T(==)>(s: seq<T>, x: T): (r: int)
    ensures r == -1 <==> forall k :: 0 <= k < |s| ==> s[k] != x
    ensures r != -1 ==> 0 <= r < |s| && s[r] == x && forall k :: 0 <= k < r ==> s[k] != x
  {
    if s == [] then -1
    else
      var r := FirstIndexOf(s[..|s| - 1], x);
      if r != -1 then r else if s[|s| - 1] == x then |s| - 1 else -1
  }

  /** One row of the list, as handed to its item widget. */
  datatype Row = Row(text: string, realIndex: int, isCompleted: bool, isUrgent: bool, displayText: string)

  /** The row for a record with back-reference `realIndex`. */
  function RowOf(t: TaskItem, realIndex: int, now: int): Row
  {
    Row(t.text, realIndex, t.isCompleted, IsUrgent(t, now), Elide(t.text))
  }

  /** The rows `reloadTasks` builds: the display order, each record tagged with
      the first store index holding an equal record. */
  function RowsFor(tasks: seq<TaskItem>, now: int): (rows: seq<Row>)
    ensures |rows| == |tasks|
  {
    var sorted := Ordered(tasks, now);
    OrderedPermutation(tasks, now);
    assert |sorted| == |multiset(sorted)| == |multiset(tasks)| == |tasks|;
    seq(|sorted|, i requires 0 <= i < |sorted| => RowOf(sorted[i], FirstIndexOf(tasks, sorted[i]), now))
  }

  /** Every row points at the record it displays, at the first index holding
      that record, so the -1 default never survives and duplicates share the
      first index; the
      urgency flag is the sort's predicate, and a done row is never urgent. */
  lemma RowsBackReference(tasks: seq<TaskItem>, now: int, i: nat)
    requires i < |RowsFor(tasks, now)|
    ensures var row, r := RowsFor(tasks, now)[i], RowsFor(tasks, now)[i].realIndex;
      && |Ordered(tasks, now)| == |tasks|
      && 0 <= r < |tasks|
      && tasks[r] == Ordered(tasks, now)[i]
      && r == FirstIndexOf(tasks, Ordered(tasks, now)[i])
      && TaskItem(row.text, row.isCompleted, tasks[r].alarmTime) == tasks[r]
      && row.isUrgent == IsUrgent(tasks[r], now)
      && (row.isCompleted ==> !row.isUrgent)
      && (forall k :: 0 <= k < r ==> tasks[k] != tasks[r])
  {
    var sorted := Ordered(tasks, now);
    OrderedPermutation(tasks, now);
    assert |sorted| == |multiset(sorted)| == |multiset(tasks)| == |tasks|;
    var t := sorted[i];
    assert t in multiset(tasks) by {
      assert t in multiset(sorted);
    }
    assert exists k :: 0 <= k < |tasks| && tasks[k] == t;
  }

  /** Rows built one by one from the display order are `RowsFor`. */
  lemma RowsForIs(tasks: seq<TaskItem>, now: int, rows: seq<Row>)
    requires |rows| == |Ordered(tasks, now)|
    requires forall m :: 0 <= m < |rows| ==>
      rows[m] == RowOf(Ordered(tasks, now)[m], FirstIndexOf(tasks, Ordered(tasks, now)[m]), now)
    ensures rows == RowsFor(tasks, now)
  {
  }

  /** The search `reloadTasks` runs for each row: the first index of a record
      equal field for field, -1 when there is none. */
  method FindRealIndex(tasks: seq<TaskItem>, task: TaskItem) returns (realIndex: int)
    ensures realIndex == FirstIndexOf(tasks, task)
  {
    realIndex := -1;
    var i := 0;
    while i < |tasks|
      invariant 0 <= i <= |tasks|
      invariant forall k :: 0 <= k < i ==> tasks[k] != task
    {
      if tasks[i].text == task.text && tasks[i].isCompleted == task.isCompleted
        && tasks[i].alarmTime == task.alarmTime {
        realIndex := i;
        break;
      }
      i := i + 1;
    }
  }

  /** `hit` is the first row whose back-reference is `targetIndex`, or none
      when no row carries it. */
  predicate ScrollsTo(rows: seq<Row>, targetIndex: int, hit: Option<nat>)
  {
    match hit
    case Some(i) =>
      && i < |rows| && rows[i].realIndex == targetIndex
      && forall k :: 0 <= k < i ==> rows[k].realIndex != targetIndex
    case None => forall k :: 0 <= k < |rows| ==> rows[k].realIndex != targetIndex
  }

  /** A copy of the records in display order. */
  method SortedCopy(tasks: seq<TaskItem>, now: int) returns (sortedTasks: array<TaskItem>)
    ensures fresh(sortedTasks)
    ensures sortedTasks[..] == Ordered(tasks, now)
  {
    sortedTasks := new TaskItem[|tasks|](i requires 0 <= i < |tasks| => tasks[i]);
    assert sortedTasks[..] == tasks;
    StableSortByTier(sortedTasks, now);
  }

  /** The body of `reloadTasks`: sort a copy, then one row per record with
      its back-reference looked up in the unsorted list. */
  method BuildRows(tasks: seq<TaskItem>, now: int) returns (rows: seq<Row>)
    ensures rows == RowsFor(tasks, now)
  {
    var sortedTasks := SortedCopy(tasks, now);
    ghost var sorted := sortedTasks[..];
    rows := [];
    var index := 0;
    while index < sortedTasks.Length
      invariant 0 <= index <= sortedTasks.Length
      invariant sortedTasks[..] == sorted
      invariant |rows| == index
      invariant forall m :: 0 <= m < index ==> rows[m] == RowOf(sorted[m], FirstIndexOf(tasks, sorted[m]), now)
    {
      var task := sortedTasks[index];
      var realIndex := FindRealIndex(tasks, task);
      rows := rows + [RowOf(task, realIndex, now)];
      index := index + 1;
    }
    RowsForIs(tasks, now, rows);
  }

  /** The list part of `TaskPopup`. */
  class TaskPopup {
    /** The rows of the list, top to bottom. */
    var rows: seq<Row>
    /** The text of the input field. */
    var input: string
    var visible: bool

    constructor()
      ensures rows == [] && input == [] && !visible
    {
      rows := [];
      input := [];
      visible := false;
    }

    /** `reloadTasks`: sorts a copy of the records and rebuilds the rows. */
    method ReloadTasks(tasks: seq<TaskItem>, now: int)
      modifies this
      ensures rows == RowsFor(tasks, now)
      ensures input == old(input) && visible == old(visible)
    {
      rows := BuildRows(tasks, now);
    }

    /** `scrollToTask(targetIndex)`: the first row carrying the back-reference
        `targetIndex`, or none; the list itself does not change. */
    method ScrollToTask(targetIndex: int) returns (hit: Option<nat>)
      ensures ScrollsTo(rows, targetIndex, hit)
    {
      hit := None;
      var i := 0;
      while i < |rows|
        invariant 0 <= i <= |rows|
        invariant forall k :: 0 <= k < i ==> rows[k].realIndex != targetIndex
      {
        if rows[i].realIndex == targetIndex {
          hit := Some(i);
          break;
        }
        i := i + 1;
      }
    }

    /** `onReturnPressed`: emits the trimmed input and clears the field, unless
        the input is blank. */
    method OnReturnPressed() returns (added: Option<string>)
      modifies this
      ensures Text.IsBlank(old(input)) ==> added == None && input == old(input)
      ensures !Text.IsBlank(old(input)) ==> added == Some(Text.Trim(old(input))) && input == []
      ensures added.Some? ==> added.value != [] && Text.IsTrimmed(added.value)
      ensures rows == old(rows) && visible == old(visible)
    {
      var text := Text.Trim(input);
      if text != [] {
        added := Some(text);
        input := [];
      } else {
        added := None;
      }
    }
  }
}
