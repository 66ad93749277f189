/**
 * The task map as a value: date key to the ordered list of task strings
 * filed under it, the list of dates that have tasks, and the preference
 * store the map is saved to. The functions here specify what the store's
 * operations (task_store.dfy) do to these values; the lemmas state what the
 * application relies on.
 */
module TaskMaps {
  import opened Wrappers

  type TaskMap = map<string, seq<string>>

  /** The preference store: one entry per key. An entry whose value does not
      read back as a string set is None. */
  type Stored = map<string, Option<set<string>>>

  /** The tasks shown for a date: its list, or an empty one when the date has
      none (MainActivity.java:93-96). */
  function TasksFor(m: TaskMap, date: string): (shown: seq<string>)
    ensures date in m ==> shown == m[date]
    ensures shown != [] <==> date in m && m[date] != []
  {
    if date in m then m[date] else []
  }

  function Elements(s: seq<string>): set<string>
  {
    set x | x in s
  }

  predicate NoDuplicates<T(==)>(s: seq<T>)
  {
    forall i, j :: 0 <= i < j < |s| ==> s[i] != s[j]
  }

  /** `dates` names every date whose list is non-empty, each once, and
      nothing else. */
  predicate DatesExact(m: TaskMap, dates: seq<string>)
  {
    && (forall d :: d in dates ==> d in m && m[d] != [])
    && (forall d :: d in m && m[d] != [] ==> d in dates)
    && NoDuplicates(dates)
  }

  // ---------------------------------------------------------------- add

  /** The add button's effect on the map (MainActivity.java:69-74): empty
      text is ignored; otherwise the text goes to the end of the date's list,
      which is created when the date has none. */
  function Added(m: TaskMap, date: string, task: string): (r: TaskMap)
    ensures task == "" ==> r == m
    ensures task != "" ==> date in r && |r[date]| == |TasksFor(m, date)| + 1
    ensures task != "" ==> r[date][|r[date]| - 1] == task && r[date][..|r[date]| - 1] == TasksFor(m, date)
    ensures r.Keys == if task == "" then m.Keys else m.Keys + {date}
    ensures forall k :: k in m && k != date ==> r[k] == m[k]
  {
    if task == "" then m else m[date := TasksFor(m, date) + [task]]
  }

  // ---------------------------------------------------------------- edit

  /** The edit dialog's save (MainActivity.java:175): the task at `position`
      becomes `task`. */
  function Edited(m: TaskMap, date: string, position: nat, task: string): (r: TaskMap)
    requires date in m && position < |m[date]|
    ensures r.Keys == m.Keys
    ensures |r[date]| == |m[date]| && r[date][position] == task
    ensures forall i :: 0 <= i < |m[date]| && i != position ==> r[date][i] == m[date][i]
    ensures forall k :: k in m && k != date ==> r[k] == m[k]
  {
    m[date := m[date][position := task]]
  }

  // ---------------------------------------------------------------- delete

  /** The delete choice (MainActivity.java:153): the task at `position` goes,
      the ones after it move up by one, the date keeps its entry. */
  function Deleted(m: TaskMap, date: string, position: nat): (r: TaskMap)
    requires date in m && position < |m[date]|
    ensures r.Keys == m.Keys
    ensures |r[date]| == |m[date]| - 1
    ensures forall i :: 0 <= i < position ==> r[date][i] == m[date][i]
    ensures forall i :: position <= i < |r[date]| ==> r[date][i] == m[date][i + 1]
    ensures forall k :: k in m && k != date ==> r[k] == m[k]
  {
    m[date := m[date][..position] + m[date][position + 1..]]
  }

  // ---------------------------------------------------------------- save and load

  /** What saving writes (MainActivity.java:102-109): the store is cleared and
      then holds one entry per date, the set of that date's tasks. */
  function Saved(m: TaskMap): (stored: Stored)
  {
    map k | k in m :: Some(Elements(m[k]))
  }

  /** What loading may produce from `stored` (MainActivity.java:113-126): one
      list per entry that reads back as a set, holding that set's elements once
      each, in an order the set does not fix; unreadable entries are skipped. */
  predicate LoadedFrom(m: TaskMap, stored: Stored)
  {
    && (forall k :: k in stored && stored[k].Some? ==> k in m)
    && (forall k :: k in m ==> k in stored && stored[k].Some? && Elements(m[k]) == stored[k].value)
    && (forall k :: k in m ==> NoDuplicates(m[k]))
  }

  /** The copy of a set into a new list (`new ArrayList<>(taskSet)`,
      MainActivity.java:120): every element once, in the set's iteration
      order, which the model leaves open. */
  method ListOf(s: set<string>) returns (r: seq<string>)
    ensures Elements(r) == s && NoDuplicates(r) && |r| == |s|
  {
    r := [];
    var rest := s;
    while rest != {}
      invariant rest <= s
      invariant Elements(r) == s - rest && NoDuplicates(r) && |r| + |rest| == |s|
      decreases rest
    {
      var x :| x in rest;
      assert x !in Elements(r);
      assert Elements(r + [x]) == Elements(r) + {x};
      assert |rest - {x}| == |rest| - 1;
      r := r + [x];
      rest := rest - {x};
    }
  }

  // ---------------------------------------------------------------- lemmas on lists

  /** A list has at most as many distinct elements as entries, and exactly as
      many when it has no duplicates. */
  lemma {:induction false} ElementsCount(s: seq<string>)
    ensures |Elements(s)| <= |s|
    ensures |Elements(s)| == |s| <==> NoDuplicates(s)
  {
    if s != [] {
      var t := s[1..];
      ElementsCount(t);
      assert Elements(s) == {s[0]} + Elements(t);
      if s[0] in t {
        assert Elements(s) == Elements(t);
        RepeatedHead(s);
      } else {
        assert |Elements(s)| == |Elements(t)| + 1;
        if NoDuplicates(t) {
          forall i, j | 0 <= i < j < |s| ensures s[i] != s[j] {
            if i > 0 { assert s[i] == t[i - 1] && s[j] == t[j - 1]; } else { assert s[j] == t[j - 1]; }
          }
        }
        if NoDuplicates(s) {
          forall i, j | 0 <= i < j < |t| ensures t[i] != t[j] {
            assert t[i] == s[i + 1] && t[j] == s[j + 1];
          }
        }
      }
    }
  }

  lemma RepeatedHead(s: seq<string>)
    requires s != [] && s[0] in s[1..]
    ensures !NoDuplicates(s)
  {
  }

  /** A list without duplicates holds each of its elements exactly once. */
  lemma {:induction false} NoDuplicatesMultiset(s: seq<string>)
    requires NoDuplicates(s)
    ensures multiset(s) == multiset(Elements(s))
  {
    if s != [] {
      var t := s[1..];
      assert NoDuplicates(t) by {
        forall i, j | 0 <= i < j < |t| ensures t[i] != t[j] {
          assert t[i] == s[i + 1] && t[j] == s[j + 1];
        }
      }
      NoDuplicatesMultiset(t);
      assert s == [s[0]] + t;
      assert s[0] !in t by {
        if s[0] in t {
          RepeatedHead(s);
        }
      }
      assert Elements(s) == {s[0]} + Elements(t);
      assert s[0] !in Elements(t);
    }
  }

  /** Two duplicate-free lists with the same elements are permutations of
      each other. */
  lemma SameElementsPermutation(a: seq<string>, b: seq<string>)
    requires NoDuplicates(a) && NoDuplicates(b) && Elements(a) == Elements(b)
    ensures multiset(a) == multiset(b)
  {
    NoDuplicatesMultiset(a);
    NoDuplicatesMultiset(b);
  }

  // ---------------------------------------------------------------- lemmas on the store

  /** Any two lists of the dates with tasks differ only in order. */
  lemma DatesExactUpToOrder(m: TaskMap, a: seq<string>, b: seq<string>)
    requires DatesExact(m, a) && DatesExact(m, b)
    ensures multiset(a) == multiset(b)
  {
    assert Elements(a) == Elements(b);
    SameElementsPermutation(a, b);
  }

  /** Save then load keeps the dates and each date's set of tasks; a list
      comes back as a reordering of itself exactly when it had no duplicate
      tasks, and is otherwise shorter. */
  lemma SaveLoadRoundTrip(m: TaskMap, loaded: TaskMap)
    requires LoadedFrom(loaded, Saved(m))
    ensures loaded.Keys == m.Keys
    ensures forall k :: k in m ==> Elements(loaded[k]) == Elements(m[k])
    ensures forall k :: k in m ==> (loaded[k] == [] <==> m[k] == [])
    ensures forall k :: k in m ==> |loaded[k]| <= |m[k]|
    ensures forall k :: k in m ==> (multiset(loaded[k]) == multiset(m[k]) <==> NoDuplicates(m[k]))
  {
    forall k | k in m
      ensures Elements(loaded[k]) == Elements(m[k])
      ensures loaded[k] == [] <==> m[k] == []
      ensures |loaded[k]| <= |m[k]|
      ensures multiset(loaded[k]) == multiset(m[k]) <==> NoDuplicates(m[k])
    {
      var a, b := m[k], loaded[k];
      assert Elements(b) == Elements(a);
      ElementsCount(a);
      ElementsCount(b);
      if a == [] {
        assert Elements(b) == {};
      } else {
        assert a[0] in Elements(a);
      }
      if NoDuplicates(a) {
        SameElementsPermutation(a, b);
      }
      if multiset(b) == multiset(a) {
        assert |b| == |multiset(b)| == |multiset(a)| == |a|;
      }
    }
  }

  /** Load then save writes back exactly the readable entries: the set view of
      the store survives a round trip unchanged. */
  lemma LoadSaveRoundTrip(m: TaskMap, stored: Stored)
    requires LoadedFrom(m, stored)
    ensures Saved(m) == map k | k in stored && stored[k].Some? :: stored[k]
  {
  }

  /** Two saves of maps with the same dates and the same task sets write the
      same store: only sets are persisted. */
  lemma SavedForgetsOrder(m: TaskMap, n: TaskMap)
    requires m.Keys == n.Keys
    requires forall k :: k in m ==> Elements(m[k]) == Elements(n[k])
    ensures Saved(m) == Saved(n)
  {
  }

  /** Duplicate tasks collapse: a date with the same task twice reloads with
      it once. */
  lemma DuplicateTasksCollapse(date: string, task: string, loaded: TaskMap)
    requires LoadedFrom(loaded, Saved(map[date := [task, task]]))
    ensures loaded == map[date := [task]]
  {
    var b := loaded[date];
    assert Elements([task, task]) == {task};
    assert Elements(b) == {task};
    ElementsCount(b);
    assert |b| == 1;
    assert b[0] in Elements(b);
    assert b == [task];
  }

  /** Adding then deleting the last task restores the map, except that a date
      that had no entry keeps an empty one. */
  lemma AddThenDeleteLast(m: TaskMap, date: string, task: string)
    requires task != ""
    ensures var a := Added(m, date, task);
      Deleted(a, date, |a[date]| - 1) == if date in m then m else m[date := []]
  {
    var a := Added(m, date, task);
    var d := Deleted(a, date, |a[date]| - 1);
    assert a[date][..|a[date]| - 1] == TasksFor(m, date);
    assert d[date] == TasksFor(m, date);
  }

  /** Editing a task and editing it back restores the map. */
  lemma EditBack(m: TaskMap, date: string, position: nat, task: string)
    requires date in m && position < |m[date]|
    ensures Edited(Edited(m, date, position, task), date, position, m[date][position]) == m
  {
    var e := Edited(m, date, position, task);
    var r := Edited(e, date, position, m[date][position]);
    assert r[date] == m[date];
  }

  /** An edit never empties or fills a date's list, so the list of dates with
      tasks stays exact without being recomputed (the edit handler does not
      recompute it, MainActivity.java:172-178). */
  lemma EditKeepsDates(m: TaskMap, dates: seq<string>, date: string, position: nat, task: string)
    requires date in m && position < |m[date]|
    requires DatesExact(m, dates)
    ensures DatesExact(Edited(m, date, position, task), dates)
  {
  }

  /** Deleting a date's only task leaves the date in the map with an empty
      list, and out of any exact list of dates with tasks. */
  lemma DeleteOnlyTask(m: TaskMap, date: string, dates: seq<string>)
    requires date in m && |m[date]| == 1
    requires DatesExact(Deleted(m, date, 0), dates)
    ensures date in Deleted(m, date, 0) && Deleted(m, date, 0)[date] == []
    ensures date !in dates
  {
  }

  /** A date appears in an exact list of dates with tasks exactly when
      selecting it shows some tasks. */
  lemma ListedIffShown(m: TaskMap, dates: seq<string>, date: string)
    requires DatesExact(m, dates)
    ensures date in dates <==> TasksFor(m, date) != []
  {
  }

  /** After adding a non-empty task, its date is among the dates with tasks,
      and its list ends with that task. */
  lemma AddShowsDate(m: TaskMap, date: string, task: string, dates: seq<string>)
    requires task != ""
    requires DatesExact(Added(m, date, task), dates)
    ensures date in dates
    ensures TasksFor(Added(m, date, task), date)[|TasksFor(Added(m, date, task), date)| - 1] == task
  {
  }
}
