# To-do list state, modelled in Dafny

This project models the task-list logic of the `App` component in a
single-page to-do list (`src/App.jsx`). The React hooks are taken away. What
remains is an immutable `State` record and one pure transition function per
event handler:

- **add** (`handleAddTask`): trims the input box. A text shorter than five
  UTF-16 code units only records an error message. Otherwise a new open task
  is appended and the input and error are cleared.
- **toggle** (`handleToggle`): flips `done` on the tasks with the given id.
- **delete** (`handleDelete`): filters out the tasks with the given id.
- **begin edit** (`handleEdit`): seeds the edit buffer from the first task
  with the given id.
- **save edit** (`handleSaveEdit`): trims and validates the buffer. A valid
  buffer renames the tasks with the given id and closes the edit session.
- **filtered view** (`filteredTasks`): "active", "done" or everything.
- **theme button**: flips "light" and "dark".

Modules:

- `wrappers.dfy` – `Option` and `Result`.
- `seqs.dfy` – `map`, `filter` and `find` from `Array.prototype` on
  sequences, with an order-preserving subsequence relation.
- `text.dfy` – `String.prototype.trim`, using the ECMAScript WhiteSpace and
  LineTerminator code points, and `.length` as a count of UTF-16 code units.
- `tasks.dfy` – the `Task` record, the validator, the list transformations
  and the list invariant (unique ids, validated texts).
- `app.dfy` – the component `State`, its handlers and a whole-session lemma.

The id of a new task is a parameter. The component uses `Date.now()`, which
two quick adds can repeat. For this reason "ids are unique" is an invariant,
`Valid`. Every handler keeps it, and add keeps it only when the caller
supplies an id not already in the list. Toggle, delete and save edit are
specified for every task carrying the id, not for a single match, because
they are `map` and `filter` over the whole list.

The model keeps these details of the code:

- The length check counts UTF-16 code units, as JavaScript `.length` does.
  A character above U+FFFF therefore counts twice: three emoji pass the
  five-character minimum.
- Loading a stored snapshot does not recover from malformed data. `JSON.parse`
  runs unguarded, so `Init` takes the already-parsed snapshot.
- A stored theme is any string. The theme button sends every value other
  than "light" to "light".
- Deleting the task under edit leaves `editingId` as it was.

## Model

| member | source | states |
|---|---|---|
| Text.LeadingSpace | src/App.jsx:33 | the count of leading characters `trim` removes: all of them are whitespace, and the character after them is not |
| Text.TrailingSpace | src/App.jsx:33 | the count of trailing characters `trim` removes: all of them are whitespace, and the character before them is not |
| Text.Trim | src/App.jsx:33 | `trim` yields a slice of its input whose removed prefix and suffix are all whitespace and which neither starts nor ends with whitespace |
| Text.TrimPadded | src/App.jsx:33 | any split of a string into whitespace, a core that is not padded with whitespace, and whitespace trims to that core, so `trim` is fully determined |
| Text.TrimFixedPoints | src/App.jsx:71 | `trim` leaves a string unchanged exactly when the string neither starts nor ends with whitespace |
| Text.TrimIdempotent | src/App.jsx:75 | trimming an already trimmed text changes nothing |
| Text.TrimEmpty | src/App.jsx:33-34 | `trim` yields the empty string exactly when the input is all whitespace |
| Text.Utf16Length | src/App.jsx:34 | `.length` lies between the number of characters and twice that, equals it when no character lies above U+FFFF, and is two for a single character above U+FFFF (a surrogate pair) and one otherwise |
| Text.Utf16LengthAppend | src/App.jsx:34 | `.length` of a concatenation is the sum of the lengths, so with the one-character value it is fixed on every string |
| Text.AstralLength | src/App.jsx:34 | three characters above U+FFFF have `.length` six, enough for the five-unit minimum |
| Seqs.Map | src/App.jsx:44 | `map` keeps the length, and each element of the result is the function applied to the element at the same position |
| Seqs.Filter | src/App.jsx:61 | `filter` returns an order-preserving subsequence of elements that satisfy the predicate, each kept exactly as often as it occurs |
| Seqs.Find | src/App.jsx:66 | `find` returns nothing exactly when no element matches; otherwise it returns a matching element with no match before it |
| Seqs.FilterKeepsAll | src/App.jsx:83 | filtering with a predicate that every element satisfies returns the list unchanged |
| Seqs.FilterComplement | src/App.jsx:81-82 | filtering by a predicate and by its negation splits the list, and together the two parts hold every element exactly as often as the list |
| Tasks.Validate | src/App.jsx:33-34 | the validator accepts exactly when the trimmed text has at least five code units; an accepted text is the trimmed input, already trimmed and long enough |
| Tasks.AppendPreservesWellFormed | src/App.jsx:38 | appending a task with a fresh id and a validated text keeps ids unique and texts valid |
| Tasks.Toggle | src/App.jsx:43-56 | toggle keeps length, order, ids and texts; `done` flips exactly on the tasks whose id matches |
| Tasks.ToggleTwice | src/App.jsx:53 | toggling the same id twice restores the list |
| Tasks.ToggleCommutes | src/App.jsx:44-56 | toggles of two ids commute |
| Tasks.ToggleAbsent | src/App.jsx:45 | toggling an id that no task carries is a no-op |
| Tasks.TogglePreservesWellFormed | src/App.jsx:53 | toggle keeps ids unique and texts valid |
| Tasks.Delete | src/App.jsx:60-62 | delete leaves no task with the id; every other task stays, as often as before and in its original relative order |
| Tasks.DeleteAbsent | src/App.jsx:61 | deleting an id that no task carries is a no-op |
| Tasks.DeleteIdempotent | src/App.jsx:61 | deleting the same id twice equals deleting it once |
| Tasks.DeleteRemovesOne | src/App.jsx:61 | with unique ids, deleting a present id shortens the list by exactly one |
| Tasks.DeletePreservesWellFormed | src/App.jsx:61 | delete keeps ids unique and texts valid |
| Tasks.Rename | src/App.jsx:75 | save edit keeps length, order, ids and `done`; the text changes exactly on the tasks whose id matches |
| Tasks.RenameAbsent | src/App.jsx:75 | renaming an id that no task carries is a no-op |
| Tasks.RenamePreservesWellFormed | src/App.jsx:75 | renaming to a validated text keeps ids unique and texts valid |
| Tasks.View | src/App.jsx:80-84 | the filtered view is an order-preserving subsequence holding exactly the tasks the filter mode shows, with their multiplicity |
| Tasks.ViewPartition | src/App.jsx:81-82 | the "active" and "done" views share no task; together they hold every task exactly as often as the list, and their lengths add up to the list's |
| Tasks.ViewShowsAll | src/App.jsx:83 | every filter value other than "active" and "done" shows the whole list |
| App.Init | src/App.jsx:11-21 | the initial state holds the stored tasks (or none). The theme is the stored one, or "light" when it is absent or empty. Input, error and edit buffer are empty, the filter is "all" and nothing is being edited. The state satisfies the invariant exactly when there is no snapshot or the snapshot itself has unique ids and valid texts |
| App.HandleAddTask | src/App.jsx:32-41 | a too-short trimmed input sets only the error message; a valid one appends exactly one open task with the trimmed text, keeps earlier tasks, clears input and error, and keeps the invariant when the id is fresh |
| App.HandleToggle | src/App.jsx:43-58 | toggle changes only the task list; it keeps the list's length, order, ids and texts, flips `done` exactly on the tasks with the id, and keeps the invariant |
| App.HandleDelete | src/App.jsx:60-62 | delete changes only the task list; it removes every task with the id, keeps every other task as often as before and in order, never lengthens the list and keeps the invariant |
| App.HandleEdit | src/App.jsx:64-68 | begin edit records the id and seeds the buffer with the text of the first task carrying it; nothing else changes |
| App.EditSeedsMatchingText | src/App.jsx:66-67 | with unique ids, the buffer holds the text of the one task carrying the id |
| App.HandleSaveEdit | src/App.jsx:70-78 | a too-short trimmed buffer is refused with the edit message and nothing changes; otherwise only the matching tasks' texts change, to the trimmed buffer, the session closes and the invariant is kept |
| App.FilteredTasks | src/App.jsx:80-84 | the tasks on screen are an order-preserving subsequence of the list, holding each task the current filter shows exactly as often as the list does, and no other |
| App.FlipTheme | src/App.jsx:93 | the button always yields "light" or "dark", and yields "dark" exactly when the theme was "light" |
| App.FlipThemeTwice | src/App.jsx:93 | on "light" and "dark", pressing the button twice restores the theme |
| App.Session | src/App.jsx:32-78 | from an empty store: add a valid text, toggle it done, fail to add a short text, open the editor and save a valid rename, then delete. The list holds one open task, then one done task; it is unchanged by the refused add (which records the error), holds the renamed done task after the save, and is empty at the end |
| App.WalkthroughTexts | src/App.jsx:33-34 | "Buy milk" and "Buy oat milk" pass the validator unchanged and "no" is refused, so the session above applies to them |

## Left out

- Persistence: `localStorage` reads and writes and the `JSON.parse` and
  `JSON.stringify` calls (src/App.jsx:11-14, 16, 23-30) are browser I/O. `Init`
  receives the parsed snapshot and the stored theme as parameters. A malformed
  snapshot makes `JSON.parse` throw in the component, and that failure is not
  modelled.
- Id generation with `Date.now()` (src/App.jsx:38) reads the clock. The id is
  a parameter of `HandleAddTask`.
- Toast notifications (src/App.jsx:46-52, 72) and `document.body.className`
  (src/App.jsx:28) are presentation side effects. The save-edit toast appears
  as the `Failure` value of `HandleSaveEdit`. The toggle toast fires on every
  toggle, including true to false, and is not modelled.
- JSX rendering, animation and icons (src/App.jsx:86-146), and the child
  component `src/components/TaskItem.jsx`, which only renders a task or its
  edit box.
- The plain setters wired to the widgets (`setInput`, `setFilter`,
  `setEditText`) assign one field. They are written as record updates where
  needed, for example in `App.Session`.
- JavaScript strings can hold lone surrogate code units. Dafny `char` values
  are Unicode scalar values, so such strings cannot be represented.
- App.Init: the stored snapshot is not validated, as the component does not validate it either. A snapshot with repeated ids or short texts yields a state outside the invariant.
- App.HandleEdit: requires a task with the id to exist. The component reads
  `.text` from the result of `find` without a check and would throw; the
  interface only offers edit on rendered tasks.
