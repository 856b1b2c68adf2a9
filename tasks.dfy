/**
 * The stored task list of the to-do component and the pure updates that the
 * delete and toggle handlers hand to `setTasks`.
 */
module Tasks {
  import opened JsString
  import opened JsArray

  /** One to-do entry, as stored in the `tasks` state and in local storage. */
  datatype Task = Task(id: int, text: string, completed: bool)

  /** A stored text is never empty and never starts or ends with white space. */
  predicate ValidText(text: string) {
    text != [] && !IsSpace(text[0]) && !IsSpace(text[|text| - 1])
  }

  /** The valid texts are exactly the non-empty strings that `trim` leaves unchanged. */
  lemma ValidTextIsTrimmed(text: string)
    ensures ValidText(text) <==> text != [] && Trim(text) == text
  {
    if ValidText(text) {
      assert TrimStart(text) == text;
      assert TrimEnd(text) == text;
    }
  }

  /** The invariant of the stored list: ids are pairwise distinct and every text is valid. */
  predicate WellFormed(tasks: seq<Task>) {
    && (forall i, j :: 0 <= i < j < |tasks| ==> tasks[i].id != tasks[j].id)
    && (forall i :: 0 <= i < |tasks| ==> ValidText(tasks[i].text))
  }

  /** No task of the list carries `id`. */
  predicate FreshId(tasks: seq<Task>, id: int) {
    forall i :: 0 <= i < |tasks| ==> tasks[i].id != id
  }

  /** Appending a task with a valid text under a fresh id keeps the list well formed. */
  lemma AppendPreservesWellFormed(tasks: seq<Task>, t: Task)
    ensures WellFormed(tasks) && FreshId(tasks, t.id) && ValidText(t.text) ==> WellFormed(tasks + [t])
  {
    var r := tasks + [t];
    if WellFormed(tasks) && FreshId(tasks, t.id) && ValidText(t.text) {
      forall i, j | 0 <= i < j < |r|
        ensures r[i].id != r[j].id
      {
        assert r[i] == tasks[i];
        if j < |tasks| {
          assert r[j] == tasks[j];
        }
      }
      forall i | 0 <= i < |r|
        ensures ValidText(r[i].text)
      {
        if i < |tasks| {
          assert r[i] == tasks[i];
        }
      }
    }
  }

  /** `trim` turns every non-blank input into a valid text. */
  lemma TrimmedIsValid(input: string)
    ensures ValidText(Trim(input)) <==> !Blank(input)
  {
    TrimEmptyIffBlank(input);
  }

  /** Any order-preserving subsequence of a well-formed list is well formed. */
  lemma SubsequencePreservesWellFormed(sub: seq<Task>, tasks: seq<Task>)
    requires WellFormed(tasks) && IsSubsequence(sub, tasks)
    ensures WellFormed(sub)
  {
    var idx :| Embedding(idx, sub, tasks);
    forall i, j | 0 <= i < j < |sub|
      ensures sub[i].id != sub[j].id
    {
      assert idx[i] < idx[j];
    }
  }

  /** The predicate passed to `filter` by the delete handler. */
  function Other(id: int): Task -> bool {
    (t: Task) => t.id != id
  }

  /** `prev.filter((task) => task.id !== id)`: the list without the tasks carrying `id`. */
  function Deleted(tasks: seq<Task>, id: int): (r: seq<Task>)
    ensures |r| <= |tasks|
    ensures FreshId(r, id)
  {
    Keep(tasks, Other(id))
  }

  /**
   * Delete keeps, in their original order, exactly the tasks whose id differs:
   * each such task as often as before, and no task carrying `id`.
   */
  lemma DeleteKeepsOthers(tasks: seq<Task>, id: int)
    ensures IsSubsequence(Deleted(tasks, id), tasks)
    ensures FreshId(Deleted(tasks, id), id)
    ensures forall t :: multiset(Deleted(tasks, id))[t] == if t.id != id then multiset(tasks)[t] else 0
  {
    KeepIsSubsequence(tasks, Other(id));
    forall t {
      KeepMultiplicity(tasks, Other(id), t);
    }
  }

  /** Deleting an id that no task carries leaves the list as it was, and only then. */
  lemma DeleteAbsentIsNoop(tasks: seq<Task>, id: int)
    ensures Deleted(tasks, id) == tasks <==> FreshId(tasks, id)
  {
    KeepAll(tasks, Other(id));
    if FreshId(tasks, id) {
      assert forall t :: t in tasks ==> Other(id)(t);
    }
  }

  /** Deleting the same id twice is deleting it once. */
  lemma DeleteIdempotent(tasks: seq<Task>, id: int)
    ensures Deleted(Deleted(tasks, id), id) == Deleted(tasks, id)
  {
    KeepIdempotent(tasks, Other(id));
  }

  /** Delete keeps the list well formed. */
  lemma DeletePreservesWellFormed(tasks: seq<Task>, id: int)
    requires WellFormed(tasks)
    ensures WellFormed(Deleted(tasks, id))
  {
    KeepIsSubsequence(tasks, Other(id));
    SubsequencePreservesWellFormed(Deleted(tasks, id), tasks);
  }

  /**
   * `prev.map((task) => task.id === id ? { ...task, completed: !task.completed } : task)`:
   * the same tasks in the same order with the same ids and texts, where
   * `completed` is flipped on exactly the tasks carrying `id`.
   */
  function Toggled(tasks: seq<Task>, id: int): (r: seq<Task>)
    ensures |r| == |tasks|
    ensures forall i :: 0 <= i < |tasks| ==>
      && r[i].id == tasks[i].id
      && r[i].text == tasks[i].text
      && r[i].completed == (tasks[i].completed != (tasks[i].id == id))
  {
    if tasks == [] then []
    else
      var t := tasks[0];
      [if t.id == id then t.(completed := !t.completed) else t] + Toggled(tasks[1..], id)
  }

  /** Toggling the same id twice restores the list. */
  lemma ToggleInvolution(tasks: seq<Task>, id: int)
    ensures Toggled(Toggled(tasks, id), id) == tasks
  {
    var r := Toggled(Toggled(tasks, id), id);
    assert forall i :: 0 <= i < |tasks| ==> r[i] == tasks[i];
  }

  /** Toggling leaves the list as it was exactly when no task carries the id. */
  lemma ToggleAbsentIsNoop(tasks: seq<Task>, id: int)
    ensures Toggled(tasks, id) == tasks <==> FreshId(tasks, id)
  {
    var r := Toggled(tasks, id);
    if FreshId(tasks, id) {
      assert forall i :: 0 <= i < |tasks| ==> r[i] == tasks[i];
    } else {
      var i :| 0 <= i < |tasks| && tasks[i].id == id;
      assert r[i].completed != tasks[i].completed;
    }
  }

  /** In a well-formed list at most one task carries a given id. */
  lemma AtMostOneWithId(tasks: seq<Task>, id: int, i: int, j: int)
    requires WellFormed(tasks) && 0 <= i < |tasks| && 0 <= j < |tasks|
    ensures tasks[i].id == id && tasks[j].id == id ==> i == j
  {
  }

  /** On a well-formed list delete removes exactly one task when some task carries the id, and none otherwise. */
  lemma {:induction false} DeleteRemovesAtMostOne(tasks: seq<Task>, id: int)
    requires WellFormed(tasks)
    ensures |Deleted(tasks, id)| == if FreshId(tasks, id) then |tasks| else |tasks| - 1
  {
    if tasks != [] {
      var rest := tasks[1..];
      assert tasks == [tasks[0]] + rest;
      KeepCons(tasks[0], rest, Other(id));
      assert forall i :: 0 <= i < |rest| ==> rest[i] == tasks[i + 1];
      DeleteRemovesAtMostOne(rest, id);
      if tasks[0].id == id {
        assert FreshId(rest, id);
      }
    }
  }

  /** On a well-formed list toggle changes at most one position. */
  lemma ToggleChangesAtMostOne(tasks: seq<Task>, id: int, i: int, j: int)
    requires WellFormed(tasks) && 0 <= i < |tasks| && 0 <= j < |tasks|
    requires Toggled(tasks, id)[i] != tasks[i] && Toggled(tasks, id)[j] != tasks[j]
    ensures i == j
  {
  }

  /** Toggle keeps the list well formed. */
  lemma TogglePreservesWellFormed(tasks: seq<Task>, id: int)
    requires WellFormed(tasks)
    ensures WellFormed(Toggled(tasks, id))
  {
  }
}
