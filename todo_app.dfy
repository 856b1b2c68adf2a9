/**
 * The `TodoApp` component's state and its event handlers.  The React state
 * hooks become fields that the handlers reassign; the derived `sortedTasks`
 * becomes a function that only reads them.
 */
module TodoApp {
  import opened JsString
  import opened Tasks
  import opened View

  /** What local storage yields at start-up: a decoded task list, or nothing. */
  datatype Option<T> = None | Some(value: T)

  class TodoState {
    /** The stored list (`tasks`), mirrored to local storage after every change. */
    var tasks: seq<Task>
    /** The text field (`taskInput`). */
    var input: string
    /** The filter selection: "all", "completed" or "pending". */
    var filter: string
    /** The sort selection: "default", "az" or "za". */
    var sort: string

    /** The stored list keeps distinct ids and valid texts. */
    ghost predicate Valid()
      reads this
    {
      WellFormed(tasks)
    }

    /** Start-up: the saved list if there is one, else the empty list; empty input, filter "all", sort "default". */
    constructor (saved: Option<seq<Task>>)
      ensures tasks == (if saved.Some? then saved.value else [])
      ensures input == "" && filter == "all" && sort == "default"
      ensures saved.None? ==> Valid()
    {
      tasks := if saved.Some? then saved.value else [];
      input, filter, sort := "", "all", "default";
    }

    /** Typing in the text field replaces the input and nothing else. */
    method SetInput(text: string)
      modifies this
      ensures input == text
      ensures tasks == old(tasks) && filter == old(filter) && sort == old(sort)
    {
      input := text;
    }

    /** Choosing a filter replaces the filter selection and nothing else. */
    method SetFilter(value: string)
      modifies this
      ensures filter == value
      ensures tasks == old(tasks) && input == old(input) && sort == old(sort)
    {
      filter := value;
    }

    /** Choosing a sort replaces the sort selection and nothing else. */
    method SetSort(value: string)
      modifies this
      ensures sort == value
      ensures tasks == old(tasks) && input == old(input) && filter == old(filter)
    {
      sort := value;
    }

    /**
     * `handleAddTask`, with `freshId` standing for `Date.now()`.  A blank input is
     * rejected (the alert) and changes nothing; otherwise the trimmed input is
     * appended as a pending task and the input is cleared.  With a fresh id the
     * stored list stays well formed.
     */
    method Add(freshId: int) returns (added: bool)
      modifies this
      ensures added <==> !Blank(old(input))
      ensures !added ==> tasks == old(tasks) && input == old(input)
      ensures added ==> tasks == old(tasks) + [Task(freshId, Trim(old(input)), false)] && input == ""
      ensures filter == old(filter) && sort == old(sort)
      ensures old(Valid()) && FreshId(old(tasks), freshId) ==> Valid()
    {
      var text := Trim(input);
      TrimmedIsValid(input);
      if text == [] {
        added := false;
      } else {
        var t := Task(freshId, text, false);
        AppendPreservesWellFormed(tasks, t);
        tasks := tasks + [t];
        input := "";
        added := true;
      }
    }

    /** `handleDeleteTask`: drops every task carrying `id`, keeping the list well formed. */
    method Delete(id: int)
      modifies this
      ensures tasks == Deleted(old(tasks), id)
      ensures input == old(input) && filter == old(filter) && sort == old(sort)
      ensures old(Valid()) ==> Valid()
    {
      if Valid() {
        DeletePreservesWellFormed(tasks, id);
      }
      tasks := Deleted(tasks, id);
    }

    /** `handleToggleComplete`: flips `completed` on the tasks carrying `id`, keeping the list well formed. */
    method Toggle(id: int)
      modifies this
      ensures tasks == Toggled(old(tasks), id)
      ensures input == old(input) && filter == old(filter) && sort == old(sort)
      ensures old(Valid()) ==> Valid()
    {
      if Valid() {
        TogglePreservesWellFormed(tasks, id);
      }
      tasks := Toggled(tasks, id);
    }

    /** `sortedTasks`: the rendered list, computed from a copy; it reads the state and changes none of it. */
    function Shown(): (r: seq<Task>)
      reads this
      ensures |r| <= |tasks|
      ensures filter == "all" && sort == "default" ==> r == tasks
    {
      Displayed(tasks, filter, sort)
    }
  }
}
