/**
 The task list: an ordered sequence of task records and the list
 transformations the App handlers apply to it.
 */
module Tasks {
  import opened Wrappers
  import opened Seqs
  import opened Text

  /** One to-do entry. `id` is the creation timestamp in the application. */
  datatype Task = Task(id: int, text: string, done: bool)

  /** Fewest UTF-16 code units a trimmed task text may have. */
  const MinTextLength := 5

  /** A text the validator can store: already trimmed and long enough. */
  predicate IsValidText(t: string) {
    IsTrimmed(t) && Utf16Length(t) >= MinTextLength
  }

  /** The validator in front of add and save-edit: trims the raw input and
      accepts it exactly when the trimmed text is long enough. */
  function Validate(raw: string): (r: Option<string>)
    ensures r.Some? <==> Utf16Length(Trim(raw)) >= MinTextLength
    ensures r.Some? ==> r.value == Trim(raw) && IsValidText(r.value)
  {
    var trimmed := Trim(raw);
    if Utf16Length(trimmed) < MinTextLength then None
    else Some(trimmed)
  }

  predicate HasId(tasks: seq<Task>, id: int) {
    exists i :: 0 <= i < |tasks| && tasks[i].id == id
  }

  /** No two tasks share an id. */
  ghost predicate UniqueIds(tasks: seq<Task>) {
    forall i, j :: 0 <= i < j < |tasks| ==> tasks[i].id != tasks[j].id
  }

  /** Every stored text passed the validator. */
  ghost predicate ValidTexts(tasks: seq<Task>) {
    forall i :: 0 <= i < |tasks| ==> IsValidText(tasks[i].text)
  }

  /** The list invariant the handlers keep: unique ids and validated texts. */
  ghost predicate WellFormed(tasks: seq<Task>) {
    UniqueIds(tasks) && ValidTexts(tasks)
  }

  /** Flips `done` on every task whose id equals `id`; ids, texts, order and
      length stay as they were and tasks with other ids are untouched. */
  function Toggle(tasks: seq<Task>, id: int): (r: seq<Task>)
    ensures |r| == |tasks|
    ensures forall i :: 0 <= i < |tasks| ==>
              && r[i].id == tasks[i].id
              && r[i].text == tasks[i].text
              && r[i].done == (tasks[i].done != (tasks[i].id == id))
  {
    Map(tasks, (t: Task) => if t.id == id then t.(done := !t.done) else t)
  }

  /** Removes every task whose id equals `id`; every other task stays, as
      often as before and in its original relative order. */
  function Delete(tasks: seq<Task>, id: int): (r: seq<Task>)
    ensures forall i :: 0 <= i < |r| ==> r[i].id != id
    ensures forall t :: multiset(r)[t] == if t.id == id then 0 else multiset(tasks)[t]
    ensures IsSubsequence(r, tasks)
  {
    Filter(tasks, (t: Task) => t.id != id)
  }

  /** Replaces the text of every task whose id equals `id`; ids, completion
      flags, order and length stay as they were. */
  function Rename(tasks: seq<Task>, id: int, text: string): (r: seq<Task>)
    ensures |r| == |tasks|
    ensures forall i :: 0 <= i < |tasks| ==>
              && r[i].id == tasks[i].id
              && r[i].done == tasks[i].done
              && r[i].text == (if tasks[i].id == id then text else tasks[i].text)
  {
    Map(tasks, (t: Task) => if t.id == id then t.(text := text) else t)
  }

  /** Whether a task is shown under the filter mode `filter`: "active" shows
      open tasks, "done" completed ones, and every other value shows all. */
  predicate Shown(filter: string, t: Task) {
    if filter == "active" then !t.done
    else if filter == "done" then t.done
    else true
  }

  /** The filtered view: in list order, the tasks `filter` shows. */
  function View(tasks: seq<Task>, filter: string): (r: seq<Task>)
    ensures IsSubsequence(r, tasks)
    ensures forall i :: 0 <= i < |r| ==> Shown(filter, r[i])
    ensures forall t :: multiset(r)[t] == if Shown(filter, t) then multiset(tasks)[t] else 0
  {
    Filter(tasks, (t: Task) => Shown(filter, t))
  }

  /** Appending a task with a fresh id and a validated text keeps the list
      well-formed. */
  lemma AppendPreservesWellFormed(tasks: seq<Task>, t: Task)
    requires WellFormed(tasks) && !HasId(tasks, t.id) && IsValidText(t.text)
    ensures WellFormed(tasks + [t])
  {
    var r := tasks + [t];
    forall i, j | 0 <= i < j < |r| ensures r[i].id != r[j].id {
      if j == |tasks| {
        assert r[i] == tasks[i];
      } else {
        assert r[i] == tasks[i] && r[j] == tasks[j];
      }
    }
  }

  // ---------------------------------------------------------------------
  // Toggle

  /** Toggle is an involution: toggling the same id twice restores the list. */
  lemma ToggleTwice(tasks: seq<Task>, id: int)
    ensures Toggle(Toggle(tasks, id), id) == tasks
  {
  }

  /** Toggling two ids commutes. */
  lemma ToggleCommutes(tasks: seq<Task>, a: int, b: int)
    ensures Toggle(Toggle(tasks, a), b) == Toggle(Toggle(tasks, b), a)
  {
  }

  /** Toggling an id no task carries changes nothing. */
  lemma ToggleAbsent(tasks: seq<Task>, id: int)
    requires !HasId(tasks, id)
    ensures Toggle(tasks, id) == tasks
  {
  }

  lemma TogglePreservesWellFormed(tasks: seq<Task>, id: int)
    requires WellFormed(tasks)
    ensures WellFormed(Toggle(tasks, id))
  {
  }

  // ---------------------------------------------------------------------
  // Delete

  /** Deleting an id no task carries changes nothing. */
  lemma DeleteAbsent(tasks: seq<Task>, id: int)
    requires !HasId(tasks, id)
    ensures Delete(tasks, id) == tasks
  {
    FilterKeepsAll(tasks, (t: Task) => t.id != id);
  }

  /** Deleting the same id twice is deleting it once. */
  lemma DeleteIdempotent(tasks: seq<Task>, id: int)
    ensures Delete(Delete(tasks, id), id) == Delete(tasks, id)
  {
    DeleteAbsent(Delete(tasks, id), id);
  }

  /** With unique ids, deleting a present id removes exactly one task. */
  lemma {:induction false} DeleteRemovesOne(tasks: seq<Task>, id: int)
    requires UniqueIds(tasks) && HasId(tasks, id)
    ensures |Delete(tasks, id)| == |tasks| - 1
  {
    var rest := tasks[1..];
    assert tasks == [tasks[0]] + rest;
    if tasks[0].id == id {
      assert !HasId(rest, id) by {
        forall k | 0 <= k < |rest| ensures rest[k].id != id {
          assert tasks[0].id != tasks[k + 1].id;
        }
      }
      DeleteAbsent(rest, id);
      assert Delete(tasks, id) == Delete(rest, id);
    } else {
      assert HasId(rest, id) by {
        var k :| 0 <= k < |tasks| && tasks[k].id == id;
        assert rest[k - 1].id == id;
      }
      assert UniqueIds(rest) by {
        forall i, j | 0 <= i < j < |rest| ensures rest[i].id != rest[j].id {
          assert tasks[i + 1].id != tasks[j + 1].id;
        }
      }
      DeleteRemovesOne(rest, id);
      assert Delete(tasks, id) == [tasks[0]] + Delete(rest, id);
    }
  }

  /** A subsequence of a list with unique ids has unique ids. */
  lemma {:induction false} SubsequenceUniqueIds(a: seq<Task>, b: seq<Task>)
    requires IsSubsequence(a, b) && UniqueIds(b)
    ensures UniqueIds(a)
    decreases |b|
  {
    if |a| > 0 {
      var b' := b[1..];
      assert UniqueIds(b') by {
        forall i, j | 0 <= i < j < |b'| ensures b'[i].id != b'[j].id {
          assert b[i + 1].id != b[j + 1].id;
        }
      }
      if a[0] == b[0] && IsSubsequence(a[1..], b') {
        SubsequenceUniqueIds(a[1..], b');
        forall j | 0 < j < |a| ensures a[0].id != a[j].id {
          SubsequenceMember(a[1..], b', j - 1);
          var k :| 0 <= k < |b'| && b'[k] == a[1..][j - 1];
          assert b[0].id != b[k + 1].id;
        }
      } else {
        SubsequenceUniqueIds(a, b');
      }
    }
  }

  lemma DeletePreservesWellFormed(tasks: seq<Task>, id: int)
    requires WellFormed(tasks)
    ensures WellFormed(Delete(tasks, id))
  {
    var r := Delete(tasks, id);
    SubsequenceUniqueIds(r, tasks);
    forall k | 0 <= k < |r| ensures IsValidText(r[k].text) {
      SubsequenceMember(r, tasks, k);
    }
  }

  // ---------------------------------------------------------------------
  // Rename

  /** Renaming an id no task carries changes nothing. */
  lemma RenameAbsent(tasks: seq<Task>, id: int, text: string)
    requires !HasId(tasks, id)
    ensures Rename(tasks, id, text) == tasks
  {
  }

  /** Renaming with a validated text keeps the list well-formed. */
  lemma RenamePreservesWellFormed(tasks: seq<Task>, id: int, text: string)
    requires WellFormed(tasks) && IsValidText(text)
    ensures WellFormed(Rename(tasks, id, text))
  {
    var r := Rename(tasks, id, text);
    assert UniqueIds(r) by {
      forall i, j | 0 <= i < j < |r| ensures r[i].id != r[j].id {
        assert r[i].id == tasks[i].id && r[j].id == tasks[j].id;
      }
    }
    forall i | 0 <= i < |r| ensures IsValidText(r[i].text) {
      if tasks[i].id != id {
        assert r[i].text == tasks[i].text;
      }
    }
  }

  // ---------------------------------------------------------------------
  // View

  /** The "active" and "done" views split the list: together they hold every
      task exactly as often as the list does, and no task is in both. */
  lemma ViewPartition(tasks: seq<Task>)
    ensures multiset(View(tasks, "active")) + multiset(View(tasks, "done")) == multiset(tasks)
    ensures |View(tasks, "active")| + |View(tasks, "done")| == |tasks|
    ensures forall t :: !(t in View(tasks, "active") && t in View(tasks, "done"))
  {
    FilterComplement(tasks, (t: Task) => Shown("active", t), (t: Task) => Shown("done", t));
  }

  /** Any filter mode other than "active" and "done" shows the whole list. */
  lemma ViewShowsAll(tasks: seq<Task>, filter: string)
    requires filter != "active" && filter != "done"
    ensures View(tasks, filter) == tasks
  {
    FilterKeepsAll(tasks, (t: Task) => Shown(filter, t));
  }
}
