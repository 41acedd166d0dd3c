/**
 * The side panel: the list of upcoming alarms, nearest first, each entry
 * remembering the store index of its record.
 */

module Schedule {
  import opened Storage
  import Popup

  /** A record kept for the schedule, paired with its index in the store. */
  datatype Entry = Entry(index: nat, task: TaskItem)

  /** Pending, with an alarm, and the alarm not yet in the past. */
  predicate IsUpcoming(t: TaskItem, now: int)
  {
    !t.isCompleted && t.alarmTime > 0 && t.alarmTime >= now
  }

  /** The upcoming records with their indices, in store order. */
  function Upcoming(tasks: seq<TaskItem>, now: int): (r: seq<Entry>)
    ensures |r| <= |tasks|
  {
    if tasks == [] then []
    else
      var n := |tasks| - 1;
      Upcoming(tasks[..n], now) + if IsUpcoming(tasks[n], now) then [Entry(n, tasks[n])] else []
  }

  /** An entry is selected exactly when it pairs an in-range index with the
      record stored there and that record is upcoming; completed, alarm-free
      and past records never appear. */
  lemma {:induction false} UpcomingMembers(tasks: seq<TaskItem>, now: int, e: Entry)
    ensures e in Upcoming(tasks, now) <==>
      (e.index < |tasks| && e.task == tasks[e.index] && IsUpcoming(e.task, now))
    decreases |tasks|
  {
    if tasks != [] {
      var n := |tasks| - 1;
      UpcomingMembers(tasks[..n], now, e);
    }
  }

  /** Each store index is selected at most once. */
  lemma {:induction false} UpcomingIndicesIncrease(tasks: seq<TaskItem>, now: int)
    ensures var r := Upcoming(tasks, now);
      forall i, j :: 0 <= i < j < |r| ==> r[i].index < r[j].index
    decreases |tasks|
  {
    if tasks != [] {
      var n := |tasks| - 1;
      UpcomingIndicesIncrease(tasks[..n], now);
      var p := Upcoming(tasks[..n], now);
      forall i | 0 <= i < |p|
        ensures p[i].index < n
      {
        UpcomingMembers(tasks[..n], now, p[i]);
      }
    }
  }

  /** The comparison key of the sort. */
  function Key(e: Entry): int
  {
    e.task.alarmTime
  }

  /** Non-decreasing by alarm time. */
  predicate AlarmSorted(s: seq<Entry>)
  {
    forall i, j :: 0 <= i < j < |s| ==> Key(s[i]) <= Key(s[j])
  }

  /** The first loop of `reloadSchedule`: collects the upcoming records. */
  method CollectUpcoming(tasks: seq<TaskItem>, now: int) returns (upcoming: seq<Entry>)
    ensures upcoming == Upcoming(tasks, now)
  {
    upcoming := [];
    var i := 0;
    while i < |tasks|
      invariant 0 <= i <= |tasks|
      invariant upcoming == Upcoming(tasks[..i], now)
    {
      assert tasks[..i + 1][..i] == tasks[..i];
      var t := tasks[i];
      if !t.isCompleted && t.alarmTime > 0 && t.alarmTime >= now {
        upcoming := upcoming + [Entry(i, t)];
      }
      i := i + 1;
    }
    assert tasks[..|tasks|] == tasks;
  }

  /** Moves `a[i]` down past every larger key before it, by adjacent swaps;
      `j` is where it lands. */
  method SinkLast(a: array<Entry>, i: nat) returns (j: nat)
    requires i < a.Length
    modifies a
    ensures j <= i
    ensures a[..i + 1] == old(a[..i])[..j] + [old(a[i])] + old(a[..i])[j..]
    ensures a[i + 1..] == old(a[i + 1..])
    ensures forall k :: j <= k < i ==> Key(old(a[k])) > Key(old(a[i]))
    ensures j == 0 || Key(old(a[j - 1])) <= Key(old(a[i]))
  {
    ghost var p := a[..i];
    ghost var rest := a[i + 1..];
    var x := a[i];
    j := i;
    while j > 0 && Key(a[j - 1]) > Key(x)
      invariant 0 <= j <= i
      invariant forall k :: 0 <= k < j ==> a[k] == p[k]
      invariant a[j] == x
      invariant forall k :: j < k <= i ==> a[k] == p[k - 1]
      invariant forall k :: j <= k < i ==> Key(p[k]) > Key(x)
      invariant a[i + 1..] == rest
    {
      a[j - 1], a[j] := a[j], a[j - 1];
      j := j - 1;
    }
    assert a[..i + 1] == p[..j] + [x] + p[j..];
  }

  /** Putting `x` after the keys not above it and before the larger ones keeps
      a sorted list sorted. */
  lemma SpliceSorted(p: seq<Entry>, x: Entry, j: nat)
    requires j <= |p| && AlarmSorted(p)
    requires forall k :: j <= k < |p| ==> Key(p[k]) > Key(x)
    requires j == 0 || Key(p[j - 1]) <= Key(x)
    ensures AlarmSorted(p[..j] + [x] + p[j..])
  {
    var q := p[..j] + [x] + p[j..];
    forall a, b | 0 <= a < b < |q|
      ensures Key(q[a]) <= Key(q[b])
    {
      if a < j && b == j {
        assert Key(q[a]) <= Key(p[j - 1]);
      }
    }
  }

  /** One round of the insertion sort: splicing the next entry `s[i]` into
      the sorted prefix keeps it sorted and adds exactly that entry. */
  lemma SortStep(s: seq<Entry>, p: seq<Entry>, i: nat, j: nat, q: seq<Entry>)
    requires i < |s| && |p| == i && j <= i
    requires AlarmSorted(p) && multiset(p) == multiset(s[..i])
    requires q == p[..j] + [s[i]] + p[j..]
    requires forall k :: j <= k < i ==> Key(p[k]) > Key(s[i])
    requires j == 0 || Key(p[j - 1]) <= Key(s[i])
    ensures AlarmSorted(q) && multiset(q) == multiset(s[..i + 1])
  {
    SpliceSorted(p, s[i], j);
    assert p == p[..j] + p[j..];
    assert s[..i + 1] == s[..i] + [s[i]];
  }

  /** The `std::sort` of `reloadSchedule`: afterwards the entries are ordered by
      alarm time and are the same entries; the order of equal alarm times is
      not promised, as `std::sort` is not stable. */
  method SortByAlarm(a: array<Entry>)
    modifies a
    ensures AlarmSorted(a[..])
    ensures multiset(a[..]) == multiset(old(a[..]))
  {
    ghost var s := a[..];
    var i := 0;
    while i < a.Length
      invariant 0 <= i <= a.Length
      invariant AlarmSorted(a[..i])
      invariant multiset(a[..i]) == multiset(s[..i])
      invariant forall k :: i <= k < a.Length ==> a[k] == s[k]
    {
      ghost var p := a[..i];
      var j := SinkLast(a, i);
      SortStep(s, p, i, j, a[..i + 1]);
      i := i + 1;
    }
    assert a[..a.Length] == a[..] && s[..a.Length] == s;
  }

  /** Any list holding the same entries as the selection holds exactly the
      upcoming records, each with its store index. */
  lemma ScheduleMembers(tasks: seq<TaskItem>, now: int, schedule: seq<Entry>, e: Entry)
    requires multiset(schedule) == multiset(Upcoming(tasks, now))
    ensures e in schedule <==>
      (e.index < |tasks| && e.task == tasks[e.index] && IsUpcoming(e.task, now))
  {
    UpcomingMembers(tasks, now, e);
    assert e in schedule <==> e in multiset(schedule);
    assert e in Upcoming(tasks, now) <==> e in multiset(Upcoming(tasks, now));
  }

  /** A record whose alarm is exactly `now` is listed here and is urgent in the
      popup: the two boundaries overlap at equality. */
  lemma BoundaryInBothLists(t: TaskItem, now: int)
    ensures (IsUpcoming(t, now) && Popup.IsUrgent(t, now)) <==>
      (!t.isCompleted && t.alarmTime > 0 && t.alarmTime == now)
  {
  }

  /** The list part of `SidePanel`. */
  class SidePanel {
    /** The entries of the list, top to bottom. */
    var schedule: seq<Entry>
    /** The records and the time of the last reload. */
    ghost var shownTasks: seq<TaskItem>
    ghost var shownNow: int

    /** The list holds exactly the upcoming entries of the last reload. */
    ghost predicate Consistent()
      reads this
    {
      multiset(schedule) == multiset(Upcoming(shownTasks, shownNow))
    }

    constructor()
      ensures schedule == [] && Consistent()
    {
      schedule := [];
      shownTasks := [];
      shownNow := 0;
    }

    /** `reloadSchedule`: the upcoming records, nearest alarm first. */
    method ReloadSchedule(tasks: seq<TaskItem>, now: int)
      modifies this
      ensures multiset(schedule) == multiset(Upcoming(tasks, now))
      ensures AlarmSorted(schedule)
      ensures shownTasks == tasks && shownNow == now && Consistent()
    {
      var upcoming := CollectUpcoming(tasks, now);
      var a := new Entry[|upcoming|](i requires 0 <= i < |upcoming| => upcoming[i]);
      assert a[..] == upcoming;
      SortByAlarm(a);
      schedule := a[..];
      shownTasks := tasks;
      shownNow := now;
    }

    /** A click on row `row`: the store index carried by that entry, which
        after a reload is the index of the clicked record in the records
        shown, and that record is upcoming. */
    method OnItemClicked(row: nat) returns (targetIndex: int)
      requires row < |schedule|
      ensures targetIndex == schedule[row].index
      ensures Consistent() ==>
        (&& 0 <= targetIndex < |shownTasks|
         && shownTasks[targetIndex] == schedule[row].task
         && IsUpcoming(shownTasks[targetIndex], shownNow))
    {
      targetIndex := schedule[row].index;
      if Consistent() {
        ScheduleMembers(shownTasks, shownNow, schedule, schedule[row]);
      }
    }
  }
}
