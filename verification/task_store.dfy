/**
 * The activity's task store (MainActivity.java): the task map, the list of
 * dates that have tasks, and the preference store it is saved to, with the
 * operations the screen's handlers perform on them. Each handler's effect on
 * the map is the function of the same name in TaskMaps.
 */
module Store {
  import opened Wrappers
  import opened TaskMaps

  /** How a handler ended. The source has no such value: `Ignored` is a
      handler that did nothing by design, `NoSuchDate` and `IndexOutOfRange`
      are the NullPointerException and IndexOutOfBoundsException the source
      would throw before changing anything. */
  datatype Outcome = Done | Ignored | NoSuchDate | IndexOutOfRange

  class TaskStore {
    var taskMap: TaskMap
    var datesWithTasks: seq<string>
    /** The application's preference file, abstracted to its entries. */
    var prefs: Stored

    /** The dates list is exact for the map; every handler keeps it so. */
    ghost predicate Valid()
      reads this
    {
      DatesExact(taskMap, datesWithTasks)
    }

    /** Opening the screen: the store is whatever was saved, and the map is
        loaded from it (MainActivity.java:56-58). */
    constructor (stored: Stored)
      ensures prefs == stored
      ensures LoadedFrom(taskMap, stored) && Valid()
    {
      prefs := stored;
      taskMap := map[];
      datesWithTasks := [];
      new;
      Load();
    }

    /** `loadTaskMap` (MainActivity.java:112-127). */
    method Load()
      modifies this
      ensures prefs == old(prefs)
      ensures LoadedFrom(taskMap, prefs) && Valid()
    {
      taskMap := map[];
      datesWithTasks := [];
      var pending := prefs.Keys;
      while pending != {}
        invariant prefs == old(prefs)
        invariant pending <= prefs.Keys
        invariant forall k :: k in prefs && k !in pending && prefs[k].Some? ==> k in taskMap
        invariant forall k :: k in taskMap ==>
          k in prefs && k !in pending && prefs[k].Some? && Elements(taskMap[k]) == prefs[k].value
        invariant forall k :: k in taskMap ==> NoDuplicates(taskMap[k])
        invariant DatesExact(taskMap, datesWithTasks)
        decreases pending
      {
        var key :| key in pending;
        var taskSet := prefs[key];
        if taskSet.Some? {
          var tasks := ListOf(taskSet.value);
          taskMap := taskMap[key := tasks];
          if tasks != [] {
            datesWithTasks := datesWithTasks + [key];
          }
        }
        pending := pending - {key};
      }
    }

    /** `saveTaskMap` (MainActivity.java:101-110): clear, then write every
        date's tasks as a set. */
    method Save()
      modifies this`prefs
      ensures prefs == Saved(taskMap)
    {
      var editor: Stored := map[];
      var pending := taskMap.Keys;
      while pending != {}
        invariant pending <= taskMap.Keys
        invariant editor.Keys == taskMap.Keys - pending
        invariant forall k :: k in editor ==> editor[k] == Some(Elements(taskMap[k]))
        decreases pending
      {
        var key :| key in pending;
        editor := editor[key := Some(Elements(taskMap[key]))];
        pending := pending - {key};
      }
      prefs := editor;
    }

    /** `updateDatesWithTasks` (MainActivity.java:129-135): clear the list,
        then add every date whose list is non-empty. */
    method UpdateDatesWithTasks()
      modifies this`datesWithTasks
      ensures Valid()
    {
      datesWithTasks := [];
      var pending := taskMap.Keys;
      while pending != {}
        invariant pending <= taskMap.Keys
        invariant forall d :: d in datesWithTasks ==> d in taskMap && d !in pending && taskMap[d] != []
        invariant forall d :: d in taskMap && d !in pending && taskMap[d] != [] ==> d in datesWithTasks
        invariant NoDuplicates(datesWithTasks)
        decreases pending
      {
        var date :| date in pending;
        if taskMap[date] != [] {
          datesWithTasks := datesWithTasks + [date];
        }
        pending := pending - {date};
      }
    }

    /** The add button (MainActivity.java:68-79). */
    method Add(date: string, task: string)
      modifies this
      ensures task == "" ==>
        taskMap == old(taskMap) && datesWithTasks == old(datesWithTasks) && prefs == old(prefs)
      ensures task != "" ==> taskMap == Added(old(taskMap), date, task)
      ensures task != "" ==> prefs == Saved(taskMap) && Valid()
    {
      if task != "" {
        if date !in taskMap {
          taskMap := taskMap[date := []];
        }
        taskMap := taskMap[date := taskMap[date] + [task]];
        Save();
        UpdateDatesWithTasks();
      }
    }

    /** Editing a task: opening the dialog reads the task at `position`
        (MainActivity.java:169), which fails for an absent date or a bad
        position whatever is typed; the save button then ignores empty text
        and otherwise replaces the task (MainActivity.java:172-178). */
    method Edit(date: string, position: int, task: string) returns (outcome: Outcome)
      requires Valid()
      modifies this
      ensures Valid()
      ensures date !in old(taskMap) ==> outcome == NoSuchDate
      ensures date in old(taskMap) && !(0 <= position < |old(taskMap)[date]|) ==> outcome == IndexOutOfRange
      ensures date in old(taskMap) && 0 <= position < |old(taskMap)[date]| && task == "" ==> outcome == Ignored
      ensures date in old(taskMap) && 0 <= position < |old(taskMap)[date]| && task != "" ==> outcome == Done
      ensures outcome != Done ==>
        taskMap == old(taskMap) && datesWithTasks == old(datesWithTasks) && prefs == old(prefs)
      ensures outcome == Done ==>
        && date in old(taskMap) && 0 <= position < |old(taskMap)[date]|
        && taskMap == Edited(old(taskMap), date, position, task)
        && prefs == Saved(taskMap)
        && datesWithTasks == old(datesWithTasks)
    {
      if date !in taskMap {
        return NoSuchDate;
      }
      if position < 0 || position >= |taskMap[date]| {
        return IndexOutOfRange;
      }
      if task == "" {
        return Ignored;
      }
      EditKeepsDates(taskMap, datesWithTasks, date, position, task);
      taskMap := taskMap[date := taskMap[date][position := task]];
      Save();
      outcome := Done;
    }

    /** The delete choice of the long-press dialog (MainActivity.java:150-157). */
    method Delete(date: string, position: int) returns (outcome: Outcome)
      modifies this
      ensures date !in old(taskMap) ==> outcome == Ignored
      ensures date in old(taskMap) && !(0 <= position < |old(taskMap)[date]|) ==> outcome == IndexOutOfRange
      ensures date in old(taskMap) && 0 <= position < |old(taskMap)[date]| ==> outcome == Done
      ensures outcome != Done ==>
        taskMap == old(taskMap) && datesWithTasks == old(datesWithTasks) && prefs == old(prefs)
      ensures outcome == Done ==>
        && date in old(taskMap) && 0 <= position < |old(taskMap)[date]|
        && taskMap == Deleted(old(taskMap), date, position)
        && prefs == Saved(taskMap)
        && Valid()
    {
      if date !in taskMap {
        return Ignored;
      }
      var tasks := taskMap[date];
      if position < 0 || position >= |tasks| {
        return IndexOutOfRange;
      }
      taskMap := taskMap[date := tasks[..position] + tasks[position + 1..]];
      Save();
      UpdateDatesWithTasks();
      outcome := Done;
    }
  }

  /** Reopening the screen after a save (MainActivity.java:56-58 on the store
      that `saveTaskMap` wrote): the same dates come back with the same sets
      of tasks, and so the same dates with tasks up to order; a date's list
      comes back as a reordering of itself exactly when it had no repeated
      task. */
  method Reopen(s: TaskStore) returns (t: TaskStore)
    requires s.prefs == Saved(s.taskMap) && s.Valid()
    ensures t.taskMap.Keys == s.taskMap.Keys
    ensures forall k :: k in s.taskMap ==> Elements(t.taskMap[k]) == Elements(s.taskMap[k])
    ensures forall k :: k in s.taskMap ==>
      (multiset(t.taskMap[k]) == multiset(s.taskMap[k]) <==> NoDuplicates(s.taskMap[k]))
    ensures multiset(t.datesWithTasks) == multiset(s.datesWithTasks)
  {
    t := new TaskStore(s.prefs);
    SaveLoadRoundTrip(s.taskMap, t.taskMap);
    assert DatesExact(s.taskMap, t.datesWithTasks);
    DatesExactUpToOrder(s.taskMap, t.datesWithTasks, s.datesWithTasks);
  }

  /** A date with one task: editing it and then deleting it both succeed,
      and the date is left with an empty list. */
  method EditThenDeleteOnlyTask(s: TaskStore)
    requires s.Valid() && "d" in s.taskMap && |s.taskMap["d"]| == 1
    modifies s
  {
    var edited := s.Edit("d", 0, "x");
    assert edited == Done;
    var deleted := s.Delete("d", 0);
    assert deleted == Done;
    assert s.taskMap["d"] == [];
  }
}
