/**
 * The floating button: owns the store and both views, keeps the urgency
 * flag behind the icon, and runs every edit as store operation, reload,
 * view refresh and urgency check.
 */

module Button {
  import opened Wrappers
  import opened Storage
  import opened Popup
  import opened Schedule

  /** Some record is urgent at `now`. */
  predicate HasUrgent(tasks: seq<TaskItem>, now: int)
  {
    exists i :: 0 <= i < |tasks| && IsUrgent(tasks[i], now)
  }

  /** The loop of `checkAlarms`: looks for the first urgent record. */
  method ScanForUrgent(tasks: seq<TaskItem>, now: int) returns (hasUrgent: bool)
    ensures hasUrgent == HasUrgent(tasks, now)
  {
    hasUrgent := false;
    var i := 0;
    while i < |tasks|
      invariant 0 <= i <= |tasks|
      invariant forall k :: 0 <= k < i ==> !IsUrgent(tasks[k], now)
    {
      var t := tasks[i];
      if !t.isCompleted && t.alarmTime > 0 && now >= t.alarmTime {
        hasUrgent := true;
        break;
      }
      i := i + 1;
    }
  }

  /** The icon is urgent exactly when some record sorts into the popup's
      urgent group. */
  lemma UrgentIffTopTier(tasks: seq<TaskItem>, now: int)
    ensures HasUrgent(tasks, now) <==> InTier(tasks, 0, now) != []
  {
    if HasUrgent(tasks, now) {
      var i :| 0 <= i < |tasks| && IsUrgent(tasks[i], now);
      InTierContains(tasks, 0, now, i);
    } else {
      InTierNone(tasks, 0, now);
    }
  }

  /** A record of tier `k` at position `i` shows up in `InTier(tasks, k)`. */
  lemma {:induction false} InTierContains(tasks: seq<TaskItem>, k: nat, now: int, i: nat)
    requires i < |tasks| && Tier(tasks[i], now) == k
    ensures InTier(tasks, k, now) != []
    decreases |tasks|
  {
    var n := |tasks| - 1;
    if i < n {
      assert tasks[..n][i] == tasks[i];
      InTierContains(tasks[..n], k, now, i);
    }
  }

  class FloatingButton {
    const storage: TaskStorage
    const popup: TaskPopup
    const sidePanel: SidePanel
    /** Whether the icon shows the urgent state. */
    var isAlarmUrgent: bool
    /** How many times an icon has been loaded. */
    var iconLoads: nat

    /** The views show the stored records as of `now`, and the flag is the
        urgency of those records. */
    predicate Shows(now: int)
      reads this, storage, popup, sidePanel
    {
      && popup.rows == RowsFor(storage.Tasks(), now)
      && multiset(sidePanel.schedule) == multiset(Upcoming(storage.Tasks(), now))
      && AlarmSorted(sidePanel.schedule)
      && isAlarmUrgent == HasUrgent(storage.Tasks(), now)
    }

    /** The flag starts urgent so that the first `UpdateSvgState(false)`
        loads the normal icon; then the records are checked at once. */
    constructor(contents: Option<Json>, now: int)
      ensures storage.file == contents
      ensures fresh(storage) && fresh(popup) && fresh(sidePanel)
      ensures popup.rows == [] && popup.input == [] && !popup.visible
      ensures sidePanel.schedule == []
      ensures isAlarmUrgent == HasUrgent(storage.Tasks(), now)
      ensures iconLoads == if isAlarmUrgent then 2 else 1
    {
      storage := new TaskStorage(contents);
      popup := new TaskPopup();
      sidePanel := new SidePanel();
      isAlarmUrgent := true;
      iconLoads := 0;
      new;
      UpdateSvgState(false);
      CheckAlarms(now);
    }

    /** `updateSvgState`: sets the flag, loading the matching icon only when
        the flag changes. */
    method UpdateSvgState(urgent: bool)
      modifies this
      ensures isAlarmUrgent == urgent
      ensures iconLoads == if urgent == old(isAlarmUrgent) then old(iconLoads) else old(iconLoads) + 1
    {
      if urgent == isAlarmUrgent {
        return;
      }
      isAlarmUrgent := urgent;
      iconLoads := iconLoads + 1;
    }

    /** `checkAlarms`: the flag becomes the urgency of the stored records; the
        icon is reloaded only on a change, so a repeated check with the same
        records and clock changes nothing. */
    method CheckAlarms(now: int)
      modifies this
      ensures isAlarmUrgent == HasUrgent(storage.Tasks(), now)
      ensures iconLoads == if isAlarmUrgent == old(isAlarmUrgent) then old(iconLoads) else old(iconLoads) + 1
    {
      var tasks := storage.Load();
      var hasUrgent := ScanForUrgent(tasks, now);
      if hasUrgent != isAlarmUrgent {
        UpdateSvgState(hasUrgent);
      }
    }

    /** The tail shared by every edit handler: reload, refresh both views,
        check the alarms. */
    method Refresh(now: int)
      modifies this, popup, sidePanel
      ensures Shows(now)
      ensures iconLoads == if isAlarmUrgent == old(isAlarmUrgent) then old(iconLoads) else old(iconLoads) + 1
      ensures popup.input == old(popup.input) && popup.visible == old(popup.visible)
    {
      var tasks := storage.Load();
      popup.ReloadTasks(tasks, now);
      sidePanel.ReloadSchedule(tasks, now);
      CheckAlarms(now);
    }

    /** `handleTaskAdded`. */
    method HandleTaskAdded(task: string, now: int)
      modifies this, storage, popup, sidePanel
      ensures storage.Tasks() == Added(old(storage.Tasks()), task, now)
      ensures Shows(now)
      ensures iconLoads == if isAlarmUrgent == old(isAlarmUrgent) then old(iconLoads) else old(iconLoads) + 1
      ensures popup.input == old(popup.input) && popup.visible == old(popup.visible)
    {
      storage.Add(task, now);
      Refresh(now);
    }

    /** `handleTaskDeleted`. */
    method HandleTaskDeleted(index: int, now: int)
      modifies this, storage, popup, sidePanel
      ensures storage.Tasks() == Removed(old(storage.Tasks()), index)
      ensures Shows(now)
      ensures iconLoads == if isAlarmUrgent == old(isAlarmUrgent) then old(iconLoads) else old(iconLoads) + 1
      ensures popup.input == old(popup.input) && popup.visible == old(popup.visible)
    {
      storage.Remove(index);
      Refresh(now);
    }

    /** `handleTaskEdited`. */
    method HandleTaskEdited(index: int, newText: string, now: int)
      modifies this, storage, popup, sidePanel
      ensures storage.Tasks() == Updated(old(storage.Tasks()), index, newText, now)
      ensures Shows(now)
      ensures iconLoads == if isAlarmUrgent == old(isAlarmUrgent) then old(iconLoads) else old(iconLoads) + 1
      ensures popup.input == old(popup.input) && popup.visible == old(popup.visible)
    {
      storage.Update(index, newText, now);
      Refresh(now);
    }

    /** `handleTaskDone`. */
    method HandleTaskDone(index: int, completed: bool, now: int)
      modifies this, storage, popup, sidePanel
      ensures storage.Tasks() == WithCompleted(old(storage.Tasks()), index, completed)
      ensures Shows(now)
      ensures iconLoads == if isAlarmUrgent == old(isAlarmUrgent) then old(iconLoads) else old(iconLoads) + 1
      ensures popup.input == old(popup.input) && popup.visible == old(popup.visible)
    {
      storage.SetCompleted(index, completed);
      Refresh(now);
    }

    /** `handleTaskSnoozed`. */
    method HandleTaskSnoozed(index: int, now: int)
      modifies this, storage, popup, sidePanel
      ensures storage.Tasks() == Snoozed(old(storage.Tasks()), index, now)
      ensures Shows(now)
      ensures iconLoads == if isAlarmUrgent == old(isAlarmUrgent) then old(iconLoads) else old(iconLoads) + 1
      ensures popup.input == old(popup.input) && popup.visible == old(popup.visible)
    {
      storage.Snooze(index, now);
      Refresh(now);
    }

    /** A scroll request from the side panel reaches the popup only while the
        popup is shown. */
    method OnScrollTargetRequested(targetIndex: int) returns (hit: Option<nat>)
      ensures !popup.visible ==> hit == None
      ensures popup.visible ==> ScrollsTo(popup.rows, targetIndex, hit)
    {
      if popup.visible {
        hit := popup.ScrollToTask(targetIndex);
      } else {
        hit := None;
      }
    }
  }

  /** One overdue pending record: the button starts urgent; marking the record
      done turns it normal with exactly one more icon load, and a later check
      keeps it normal without loading again. */
  method MarkDoneScenario() returns (urgentAtStart: bool, urgentAfterDone: bool,
                                     urgentAfterRecheck: bool, extraLoads: nat)
    ensures urgentAtStart && !urgentAfterDone && !urgentAfterRecheck && extraLoads == 1
  {
    var overdue := TaskItem("Call Bob", false, 1000);
    RoundTrip([overdue]);
    var button := new FloatingButton(Some(Encode([overdue])), 2000);
    assert IsUrgent(button.storage.Tasks()[0], 2000);
    urgentAtStart := button.isAlarmUrgent;
    var loads := button.iconLoads;
    button.HandleTaskDone(0, true, 3000);
    assert button.storage.Tasks() == [TaskItem("Call Bob", true, 1000)];
    urgentAfterDone := button.isAlarmUrgent;
    button.CheckAlarms(4000);
    urgentAfterRecheck := button.isAlarmUrgent;
    extraLoads := button.iconLoads - loads;
  }

  /** With nothing urgent the button settles on the normal icon after exactly
      one load, and checking again loads nothing. */
  method QuietStartScenario(contents: Option<Json>, now: int) returns (urgent: bool, loads: nat, loadsAfterRecheck: nat)
    requires !HasUrgent(Decode(contents), now)
    ensures !urgent && loads == 1 && loadsAfterRecheck == 1
  {
    var button := new FloatingButton(contents, now);
    urgent := button.isAlarmUrgent;
    loads := button.iconLoads;
    button.CheckAlarms(now);
    loadsAfterRecheck := button.iconLoads;
  }
}
