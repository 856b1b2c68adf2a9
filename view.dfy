/**
 * The list the component displays: the stored tasks filtered by the `filter`
 * setting, then a sorted copy of that by the `sort` setting.  Nothing here
 * changes the stored list.
 */
module View {
  import opened JsString
  import opened JsArray
  import opened Tasks

  /**
   * The callback of `tasks.filter`: "completed" passes completed tasks,
   * "pending" passes the others, and any other setting passes every task.
   */
  function Shows(filter: string): (p: Task -> bool)
    ensures forall t: Task :: !p(t) <==> (filter == "completed" && !t.completed) || (filter == "pending" && t.completed)
  {
    (t: Task) =>
      if filter == "completed" then t.completed
      else if filter == "pending" then !t.completed
      else true
  }

  /** `filteredTasks`. */
  function Filtered(tasks: seq<Task>, filter: string): (r: seq<Task>)
    ensures |r| <= |tasks|
    ensures forall i :: 0 <= i < |r| ==>
      (filter == "completed" ==> r[i].completed) && (filter == "pending" ==> !r[i].completed)
  {
    Keep(tasks, Shows(filter))
  }

  /**
   * The filtered view is an order-preserving subsequence of the stored list;
   * "completed" keeps every completed task (each as often as stored) and nothing else,
   * "pending" the same for the others, and any other setting keeps the list as it is.
   */
  lemma FilteredSpec(tasks: seq<Task>, filter: string)
    ensures IsSubsequence(Filtered(tasks, filter), tasks)
    ensures filter == "completed" ==>
      forall t :: multiset(Filtered(tasks, filter))[t] == if t.completed then multiset(tasks)[t] else 0
    ensures filter == "pending" ==>
      forall t :: multiset(Filtered(tasks, filter))[t] == if !t.completed then multiset(tasks)[t] else 0
    ensures filter != "completed" && filter != "pending" ==> Filtered(tasks, filter) == tasks
  {
    KeepIsSubsequence(tasks, Shows(filter));
    forall t {
      KeepMultiplicity(tasks, Shows(filter), t);
    }
    KeepAll(tasks, Shows(filter));
  }

  /** A task appended to the stored list shows up, if it passes the filter, at the end of the filtered view. */
  lemma FilteredAppend(tasks: seq<Task>, t: Task, filter: string)
    ensures Filtered(tasks + [t], filter) ==
      Filtered(tasks, filter) + (if Shows(filter)(t) then [t] else [])
  {
    KeepConcat(tasks, [t], Shows(filter));
    assert Keep([t], Shows(filter)) == (if Shows(filter)(t) then [t] else []) + Keep([], Shows(filter));
  }

  /**
   * The comparator passed to `sort`: by text ascending for "az", descending for
   * "za", and every pair equal for any other setting.
   */
  function Compare(sort: string, a: Task, b: Task): (r: int)
    ensures -1 <= r <= 1
    ensures r == 0 <==> (sort != "az" && sort != "za") || a.text == b.text
  {
    LocaleCompareZero(a.text, b.text);
    LocaleCompareZero(b.text, a.text);
    if sort == "az" then LocaleCompare(a.text, b.text)
    else if sort == "za" then LocaleCompare(b.text, a.text)
    else 0
  }

  /** The comparator is total: of two tasks, one sorts no later than the other. */
  lemma CompareTotal(sort: string, a: Task, b: Task)
    ensures Compare(sort, a, b) <= 0 || Compare(sort, b, a) <= 0
  {
    LocaleCompareAntisymmetric(a.text, b.text);
  }

  /** The comparator is transitive. */
  lemma CompareTransitive(sort: string, a: Task, b: Task, c: Task)
    requires Compare(sort, a, b) <= 0 && Compare(sort, b, c) <= 0
    ensures Compare(sort, a, c) <= 0
  {
    if sort == "az" {
      LocaleCompareTransitive(a.text, b.text, c.text);
    } else if sort == "za" {
      LocaleCompareTransitive(c.text, b.text, a.text);
    }
  }

  /** Every pair of tasks in `s` is in comparator order. */
  ghost predicate Ordered(s: seq<Task>, sort: string) {
    forall i, j :: 0 <= i < j < |s| ==> Compare(sort, s[i], s[j]) <= 0
  }

  /** Puts `x` into `ys` in front of the first task it does not sort after. */
  function Insert(x: Task, ys: seq<Task>, sort: string): (r: seq<Task>)
    ensures |r| == |ys| + 1
  {
    if ys == [] || Compare(sort, x, ys[0]) <= 0 then [x] + ys
    else [ys[0]] + Insert(x, ys[1..], sort)
  }

  /** `[...filtered].sort(comparator)`: a stable sort of a copy (insertion sort). */
  function Sorted(s: seq<Task>, sort: string): (r: seq<Task>)
    ensures |r| == |s|
  {
    if s == [] then [] else Insert(s[0], Sorted(s[1..], sort), sort)
  }

  /** Insertion adds exactly `x` to the list. */
  lemma {:induction false} InsertPermutation(x: Task, ys: seq<Task>, sort: string)
    ensures multiset(Insert(x, ys, sort)) == multiset(ys) + multiset{x}
  {
    if ys != [] && Compare(sort, x, ys[0]) > 0 {
      InsertPermutation(x, ys[1..], sort);
      assert ys == [ys[0]] + ys[1..];
    }
  }

  /** `x` sorts no later than any task of `s`. */
  ghost predicate SortsBefore(x: Task, s: seq<Task>, sort: string) {
    forall i :: 0 <= i < |s| ==> Compare(sort, x, s[i]) <= 0
  }

  /** A task that sorts before an ordered list, put in front of it, gives an ordered list. */
  lemma OrderedCons(x: Task, s: seq<Task>, sort: string)
    requires SortsBefore(x, s, sort) && Ordered(s, sort)
    ensures Ordered([x] + s, sort)
  {
    var r := [x] + s;
    forall i, j | 0 <= i < j < |r|
      ensures Compare(sort, r[i], r[j]) <= 0
    {
      assert r[j] == s[j - 1];
      if i > 0 {
        assert r[i] == s[i - 1];
      }
    }
  }

  /** Insertion keeps an ordered list ordered. */
  lemma {:induction false} InsertOrdered(x: Task, ys: seq<Task>, sort: string)
    requires Ordered(ys, sort)
    ensures Ordered(Insert(x, ys, sort), sort)
  {
    if ys == [] || Compare(sort, x, ys[0]) <= 0 {
      forall j | 0 <= j < |ys|
        ensures Compare(sort, x, ys[j]) <= 0
      {
        if j > 0 {
          CompareTransitive(sort, x, ys[0], ys[j]);
        }
      }
      OrderedCons(x, ys, sort);
    } else {
      var y := ys[0];
      var rest := Insert(x, ys[1..], sort);
      InsertOrdered(x, ys[1..], sort);
      InsertPermutation(x, ys[1..], sort);
      CompareTotal(sort, x, y);
      forall i | 0 <= i < |rest|
        ensures Compare(sort, y, rest[i]) <= 0
      {
        assert rest[i] in multiset(rest);
        if rest[i] != x {
          assert rest[i] in multiset(ys[1..]);
          var k :| 0 <= k < |ys[1..]| && ys[1..][k] == rest[i];
          assert ys[k + 1] == rest[i];
        }
      }
      OrderedCons(y, rest, sort);
    }
  }

  /** The sorted view is a permutation of its input. */
  lemma {:induction false} SortedIsPermutation(s: seq<Task>, sort: string)
    ensures multiset(Sorted(s, sort)) == multiset(s)
  {
    if s != [] {
      SortedIsPermutation(s[1..], sort);
      InsertPermutation(s[0], Sorted(s[1..], sort), sort);
      assert s == [s[0]] + s[1..];
    }
  }

  /** The sorted view is in comparator order. */
  lemma {:induction false} SortedIsOrdered(s: seq<Task>, sort: string)
    ensures Ordered(Sorted(s, sort), sort)
  {
    if s != [] {
      SortedIsOrdered(s[1..], sort);
      InsertOrdered(s[0], Sorted(s[1..], sort), sort);
    }
  }

  /** "az" orders the view by text, ascending. */
  lemma SortedAscending(s: seq<Task>)
    ensures var r := Sorted(s, "az");
      forall i, j :: 0 <= i < j < |r| ==> LocaleCompare(r[i].text, r[j].text) <= 0
  {
    SortedIsOrdered(s, "az");
  }

  /** "za" orders the view by text, descending. */
  lemma SortedDescending(s: seq<Task>)
    ensures var r := Sorted(s, "za");
      forall i, j :: 0 <= i < j < |r| ==> LocaleCompare(r[j].text, r[i].text) <= 0
  {
    SortedIsOrdered(s, "za");
  }

  /** Under any setting other than "az" and "za" the view keeps the filtered order. */
  lemma {:induction false} SortedDefaultKeepsOrder(s: seq<Task>, sort: string)
    requires sort != "az" && sort != "za"
    ensures Sorted(s, sort) == s
  {
    if s != [] {
      SortedDefaultKeepsOrder(s[1..], sort);
      assert s == [s[0]] + s[1..];
    }
  }

  /** The filter callback that selects the tasks whose text is `k`. */
  function HasText(k: string): Task -> bool {
    (t: Task) => t.text == k
  }

  /** Two tasks of different texts, at most one of which is selected, can swap places under a text filter. */
  lemma SwapDistinctTexts(x: Task, y: Task, rest: seq<Task>, k: string)
    requires x.text != y.text
    ensures Keep([y] + ([x] + rest), HasText(k)) == Keep([x] + ([y] + rest), HasText(k))
  {
    var p := HasText(k);
    KeepCons(y, [x] + rest, p);
    KeepCons(x, rest, p);
    KeepCons(x, [y] + rest, p);
    KeepCons(y, rest, p);
  }

  /** Inserting `x` changes nothing about the relative order of tasks with equal text. */
  lemma {:induction false} InsertStable(x: Task, ys: seq<Task>, sort: string, k: string)
    ensures Keep(Insert(x, ys, sort), HasText(k)) == Keep([x] + ys, HasText(k))
  {
    if ys != [] && Compare(sort, x, ys[0]) > 0 {
      var p := HasText(k);
      var y, tail := ys[0], ys[1..];
      var inserted := Insert(x, tail, sort);
      assert Insert(x, ys, sort) == [y] + inserted;
      assert ys == [y] + tail;
      InsertStable(x, tail, sort, k);
      calc {
        Keep([y] + inserted, p);
        { KeepCons(y, inserted, p); KeepCons(y, [x] + tail, p); }
        Keep([y] + ([x] + tail), p);
        { SwapDistinctTexts(x, y, tail, k); }
        Keep([x] + ([y] + tail), p);
      }
    }
  }

  /** The sort is stable: tasks with equal text appear in the view in their filtered order. */
  lemma {:induction false} SortedIsStable(s: seq<Task>, sort: string, k: string)
    ensures Keep(Sorted(s, sort), HasText(k)) == Keep(s, HasText(k))
  {
    if s != [] {
      var p := HasText(k);
      SortedIsStable(s[1..], sort, k);
      InsertStable(s[0], Sorted(s[1..], sort), sort, k);
      KeepCons(s[0], Sorted(s[1..], sort), p);
      KeepCons(s[0], s[1..], p);
      assert s == [s[0]] + s[1..];
    }
  }

  /** `sortedTasks`: what the component renders. */
  function Displayed(tasks: seq<Task>, filter: string, sort: string): (r: seq<Task>)
    ensures |r| <= |tasks|
    ensures filter != "completed" && filter != "pending" && sort != "az" && sort != "za" ==> r == tasks
  {
    var f := Filtered(tasks, filter);
    KeepAll(tasks, Shows(filter));
    if sort != "az" && sort != "za" then
      SortedDefaultKeepsOrder(f, sort);
      Sorted(f, sort)
    else
      Sorted(f, sort)
  }

  /**
   * The rendered list holds exactly the stored tasks that pass the filter,
   * each as often as it is stored, in comparator order.
   */
  lemma DisplayedSpec(tasks: seq<Task>, filter: string, sort: string)
    ensures forall t ::
      multiset(Displayed(tasks, filter, sort))[t] == if Shows(filter)(t) then multiset(tasks)[t] else 0
    ensures Ordered(Displayed(tasks, filter, sort), sort)
  {
    SortedIsPermutation(Filtered(tasks, filter), sort);
    SortedIsOrdered(Filtered(tasks, filter), sort);
    forall t {
      KeepMultiplicity(tasks, Shows(filter), t);
    }
  }
}
