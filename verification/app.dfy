/**
 The state of the App component and its event handlers, as pure
 transitions from one state to the next.
 */
module App {
  import opened Wrappers
  import opened Text
  import opened Tasks
  import Seqs

  /** Everything the component keeps in React state. `filter` and `theme`
      are plain strings, as in the component. */
  datatype State = State(
    tasks: seq<Task>,
    theme: string,
    input: string,
    error: string,
    filter: string,
    editingId: Option<int>,
    editText: string)

  const AddError := "Task must be at least 5 characters."
  const EditError := "Edit must be at least 5 characters."

  /** The state's invariant: the task list is well-formed. */
  ghost predicate Valid(s: State) {
    WellFormed(s.tasks)
  }

  /** Initial state from what storage held: the already parsed task snapshot,
      if any, and the stored theme, if any. An absent or empty theme falls
      back to "light"; every other field starts empty, with filter "all".
      The snapshot is taken as stored, unchecked, so the state satisfies the
      invariant exactly when the snapshot does (an empty store always does). */
  function Init(saved: Option<seq<Task>>, savedTheme: Option<string>): (s: State)
    ensures s.tasks == (if saved.Some? then saved.value else [])
    ensures s.theme == (if savedTheme.Some? && savedTheme.value != "" then savedTheme.value else "light")
    ensures s.input == "" && s.error == "" && s.editText == ""
    ensures s.filter == "all" && s.editingId == None
    ensures Valid(s) <==> saved.None? || WellFormed(saved.value)
  {
    State(
      if saved.Some? then saved.value else [],
      if savedTheme.Some? && savedTheme.value != "" then savedTheme.value else "light",
      "", "", "all", None, "")
  }

  /** Adding from the input box. A trimmed input shorter than five code units
      only records the error message; otherwise a new open task with the
      trimmed text and id `newId` is appended, and input and error are cleared. */
  function HandleAddTask(s: State, newId: int): (r: State)
    ensures Utf16Length(Trim(s.input)) < MinTextLength ==> r == s.(error := AddError)
    ensures Utf16Length(Trim(s.input)) >= MinTextLength ==>
              && |r.tasks| == |s.tasks| + 1
              && r.tasks[..|s.tasks|] == s.tasks
              && r.tasks[|s.tasks|] == Task(newId, Trim(s.input), false)
              && r.input == "" && r.error == ""
              && r.(tasks := s.tasks, input := s.input, error := s.error) == s
    ensures Valid(s) && !HasId(s.tasks, newId) ==> Valid(r)
  {
    match Validate(s.input)
    case None => s.(error := AddError)
    case Some(text) =>
      var r := s.(tasks := s.tasks + [Task(newId, text, false)], input := "", error := "");
      assert Valid(s) && !HasId(s.tasks, newId) ==> Valid(r) by {
        if Valid(s) && !HasId(s.tasks, newId) {
          AppendPreservesWellFormed(s.tasks, Task(newId, text, false));
        }
      }
      r
  }

  /** Clicking a task's checkbox: `done` flips on the tasks with that id;
      nothing but the task list changes, and the invariant is kept. */
  function HandleToggle(s: State, id: int): (r: State)
    ensures r.(tasks := s.tasks) == s
    ensures |r.tasks| == |s.tasks|
    ensures forall i :: 0 <= i < |s.tasks| ==>
              && r.tasks[i].id == s.tasks[i].id
              && r.tasks[i].text == s.tasks[i].text
              && r.tasks[i].done == (s.tasks[i].done != (s.tasks[i].id == id))
    ensures Valid(s) ==> Valid(r)
  {
    var r := s.(tasks := Toggle(s.tasks, id));
    assert Valid(s) ==> Valid(r) by {
      if Valid(s) {
        TogglePreservesWellFormed(s.tasks, id);
      }
    }
    r
  }

  /** Deleting a task: the tasks with that id leave the list; nothing else
      changes (an open edit session on that id stays open), and the invariant
      is kept. */
  function HandleDelete(s: State, id: int): (r: State)
    ensures r.(tasks := s.tasks) == s
    ensures |r.tasks| <= |s.tasks|
    ensures !HasId(r.tasks, id)
    ensures forall t :: multiset(r.tasks)[t] == if t.id == id then 0 else multiset(s.tasks)[t]
    ensures Seqs.IsSubsequence(r.tasks, s.tasks)
    ensures Valid(s) ==> Valid(r)
  {
    var r := s.(tasks := Delete(s.tasks, id));
    assert Valid(s) ==> Valid(r) by {
      if Valid(s) {
        DeletePreservesWellFormed(s.tasks, id);
      }
    }
    assert |r.tasks| <= |s.tasks| by {
      assert |multiset(r.tasks)| <= |multiset(s.tasks)| by {
        assert multiset(r.tasks) <= multiset(s.tasks);
      }
    }
    r
  }

  /** Opening the editor on a task: the edit buffer is seeded with the text
      of the first task carrying `id`. The component reads the text of
      whatever `find` returns without checking it, so a task with that id
      must exist. */
  function HandleEdit(s: State, id: int): (r: State)
    requires HasId(s.tasks, id)
    ensures r.editingId == Some(id)
    ensures exists i :: && 0 <= i < |s.tasks|
                        && s.tasks[i].id == id
                        && r.editText == s.tasks[i].text
                        && forall j :: 0 <= j < i ==> s.tasks[j].id != id
    ensures r.(editingId := s.editingId, editText := s.editText) == s
  {
    var found := Seqs.Find(s.tasks, (t: Task) => t.id == id);
    s.(editingId := Some(id), editText := found.value.text)
  }

  /** With unique ids the edit buffer is seeded from the one task carrying `id`. */
  lemma EditSeedsMatchingText(s: State, i: int, id: int)
    requires UniqueIds(s.tasks) && 0 <= i < |s.tasks| && s.tasks[i].id == id
    ensures HasId(s.tasks, id)
    ensures HandleEdit(s, id).editText == s.tasks[i].text
  {
    var r := HandleEdit(s, id);
    var k :| && 0 <= k < |s.tasks| && s.tasks[k].id == id && r.editText == s.tasks[k].text
             && forall j :: 0 <= j < k ==> s.tasks[j].id != id;
  }

  /** Saving the edit buffer onto the tasks with id `id`. A trimmed buffer
      shorter than five code units is refused with the edit error and nothing
      changes, so the session stays open with its buffer. Otherwise the
      matching tasks get the trimmed text and the session closes. */
  function HandleSaveEdit(s: State, id: int): (r: Result<State, string>)
    ensures r.Failure? <==> Utf16Length(Trim(s.editText)) < MinTextLength
    ensures r.Failure? ==> r.error == EditError
    ensures r.Success? ==>
              && r.value.tasks == Rename(s.tasks, id, Trim(s.editText))
              && r.value.editingId == None && r.value.editText == ""
              && r.value.(tasks := s.tasks, editingId := s.editingId, editText := s.editText) == s
    ensures r.Success? && Valid(s) ==> Valid(r.value)
  {
    match Validate(s.editText)
    case None => Failure(EditError)
    case Some(text) =>
      var r := s.(tasks := Rename(s.tasks, id, text), editingId := None, editText := "");
      assert Valid(s) ==> Valid(r) by {
        if Valid(s) {
          RenamePreservesWellFormed(s.tasks, id, text);
        }
      }
      Success(r)
  }

  /** The tasks on screen: the list narrowed by the current filter mode. */
  function FilteredTasks(s: State): (r: seq<Task>)
    ensures Seqs.IsSubsequence(r, s.tasks)
    ensures forall i :: 0 <= i < |r| ==> Shown(s.filter, r[i])
    ensures forall t :: multiset(r)[t] == if Shown(s.filter, t) then multiset(s.tasks)[t] else 0
  {
    View(s.tasks, s.filter)
  }

  /** The theme button: "light" becomes "dark" and every other value,
      including one read back from storage, becomes "light". */
  function FlipTheme(theme: string): (r: string)
    ensures r == "light" || r == "dark"
    ensures r == "dark" <==> theme == "light"
  {
    if theme == "light" then "dark" else "light"
  }

  /** On the two themes the button flips between, flipping twice is the identity. */
  lemma FlipThemeTwice(theme: string)
    requires theme == "light" || theme == "dark"
    ensures FlipTheme(FlipTheme(theme)) == theme
  {
  }

  /** A session from an empty store: add a valid text, complete it, fail to
      add a too-short text, rename the task to another valid text, delete it.
      SessionAdd, SessionToggle, SessionEdit and SessionSave below are the
      steps of its proof. */
  lemma Session(text: string, short: string, renamed: string)
    returns (s1: State, s2: State, s3: State, s4: State, s5: State)
    requires IsValidText(text) && IsValidText(renamed)
    requires Utf16Length(Trim(short)) < MinTextLength
    ensures s1 == HandleAddTask(Init(None, None).(input := text), 1)
    ensures s1.tasks == [Task(1, text, false)]
    ensures s2 == HandleToggle(s1, 1)
    ensures s2.tasks == [Task(1, text, true)]
    ensures s3 == HandleAddTask(s2.(input := short), 2)
    ensures s3.tasks == s2.tasks && s3.error == AddError
    ensures HasId(s3.tasks, 1)
    ensures HandleSaveEdit(HandleEdit(s3, 1).(editText := renamed), 1) == Success(s4)
    ensures s4.tasks == [Task(1, renamed, true)]
    ensures s5 == HandleDelete(s4, 1)
    ensures s5.tasks == []
  {
    s1 := SessionAdd(text);
    s2 := SessionToggle(s1, text);
    s3 := HandleAddTask(s2.(input := short), 2);
    assert s3.tasks == s2.tasks;
    var e := SessionEdit(s3, text, renamed);
    s4 := SessionSave(e, text, renamed);
    s5 := HandleDelete(s4, 1);
  }

  lemma SessionAdd(text: string) returns (s1: State)
    requires IsValidText(text)
    ensures s1 == HandleAddTask(Init(None, None).(input := text), 1)
    ensures s1.tasks == [Task(1, text, false)]
  {
    TrimFixedPoints(text);
    s1 := HandleAddTask(Init(None, None).(input := text), 1);
  }

  lemma SessionToggle(s1: State, text: string) returns (s2: State)
    requires s1.tasks == [Task(1, text, false)]
    ensures s2 == HandleToggle(s1, 1)
    ensures s2.tasks == [Task(1, text, true)]
  {
    s2 := HandleToggle(s1, 1);
  }

  lemma SessionEdit(s3: State, text: string, renamed: string) returns (e: State)
    requires s3.tasks == [Task(1, text, true)]
    ensures HasId(s3.tasks, 1)
    ensures e == HandleEdit(s3, 1).(editText := renamed)
    ensures e.tasks == [Task(1, text, true)] && e.editText == renamed
  {
    assert s3.tasks[0].id == 1;
    e := HandleEdit(s3, 1).(editText := renamed);
  }

  lemma SessionSave(e: State, text: string, renamed: string) returns (s4: State)
    requires e.tasks == [Task(1, text, true)] && e.editText == renamed && IsValidText(renamed)
    ensures HandleSaveEdit(e, 1) == Success(s4)
    ensures s4.tasks == [Task(1, renamed, true)]
    ensures HandleDelete(s4, 1).tasks == []
  {
    TrimFixedPoints(renamed);
    s4 := HandleSaveEdit(e, 1).value;
  }

  /** "Buy milk" and "Buy oat milk" pass the validator unchanged and "no"
      is refused, so Session applies to those three texts. */
  lemma WalkthroughTexts(text: string, short: string, renamed: string)
    requires text == "Buy milk" && short == "no" && renamed == "Buy oat milk"
    ensures IsValidText(text) && IsValidText(renamed)
    ensures Utf16Length(Trim(short)) < MinTextLength
  {
  }
}
