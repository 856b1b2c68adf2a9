/**
 * Concrete runs of the component: the filter and sort examples and a short
 * session of events, each with the outcome the component promises.
 */
module Scenarios {
  import opened JsString
  import opened JsArray
  import opened Tasks
  import opened View
  import opened TodoApp

  /** The texts of a rendered list, in order. */
  function Texts(view: seq<Task>): seq<string> {
    if view == [] then [] else [view[0].text] + Texts(view[1..])
  }

  /** Filter "completed" on one completed and one pending task keeps only the completed one. */
  lemma FilterCompletedExample()
    ensures Filtered([Task(1, "a", true), Task(2, "b", false)], "completed") == [Task(1, "a", true)]
  {
    var s := [Task(1, "a", true), Task(2, "b", false)];
    assert s[1..][1..] == [];
  }

  /** "az" puts "apple" before "banana", "za" the reverse, and "default" keeps the order. */
  lemma SortExample()
    ensures Texts(Sorted([Task(1, "banana", false), Task(2, "apple", false)], "az")) == ["apple", "banana"]
    ensures Texts(Sorted([Task(1, "banana", false), Task(2, "apple", false)], "za")) == ["banana", "apple"]
    ensures Texts(Sorted([Task(1, "banana", false), Task(2, "apple", false)], "default")) == ["banana", "apple"]
  {
    var s := [Task(1, "banana", false), Task(2, "apple", false)];
    assert s[1..][1..] == [];
    assert LocaleCompare("banana", "apple") == 1;
    assert LocaleCompare("apple", "banana") == -1;
  }

  /** Neither input of the session is blank, and trimming leaves both as they are. */
  lemma SessionInputs()
    ensures !Blank("Buy milk") && Trim("Buy milk") == "Buy milk"
    ensures !Blank("Walk dog") && Trim("Walk dog") == "Walk dog"
  {
    assert !IsSpace("Buy milk"[0]) && !IsSpace("Buy milk"[7]);
    assert !IsSpace("Walk dog"[0]) && !IsSpace("Walk dog"[7]);
  }

  /** What the session's toggle does to two pending tasks, and what it then renders with the "pending" filter. */
  lemma SessionView(a: string, b: string)
    ensures Toggled([Task(1, a, false), Task(2, b, false)], 1) == [Task(1, a, true), Task(2, b, false)]
    ensures Texts(Displayed([Task(1, a, true), Task(2, b, false)], "pending", "default")) == [b]
  {
    var s := [Task(1, a, true), Task(2, b, false)];
    KeepCons(Task(1, a, true), [Task(2, b, false)], Shows("pending"));
    KeepCons(Task(2, b, false), [], Shows("pending"));
    assert s == [Task(1, a, true)] + [Task(2, b, false)];
    assert Filtered(s, "pending") == [Task(2, b, false)];
    SortedDefaultKeepsOrder(Filtered(s, "pending"), "default");
  }

  /**
   * From an empty store: add two non-blank inputs (ids 1 and 2), toggle the first,
   * show only pending tasks; the rendered list is exactly the trimmed second input.
   */
  method PendingSession(first: string, second: string) returns (shown: seq<string>)
    requires !Blank(first) && !Blank(second)
    ensures shown == [Trim(second)]
  {
    SessionView(Trim(first), Trim(second));
    var app := new TodoState(None);
    app.SetInput(first);
    var added := app.Add(1);
    app.SetInput(second);
    added := app.Add(2);
    app.Toggle(1);
    app.SetFilter("pending");
    shown := Texts(app.Shown());
  }

  /** The session with the inputs "Buy milk" and "Walk dog": the rendered list is exactly "Walk dog". */
  method PendingAfterToggle() returns (shown: seq<string>)
    ensures shown == ["Walk dog"]
  {
    SessionInputs();
    shown := PendingSession("Buy milk", "Walk dog");
  }
}
