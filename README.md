# TodoMVC view model in Dafny

This project models the state logic of the TodoMVC template application
(`todomvc-app-template/js/app.js`): a single Vue instance that holds a list
of to-do items, the text of the new-todo input box and one edit session,
derives the views the page shows from that list, and offers the methods the
page calls to add, remove, clear, bulk-toggle and edit todos.

- `js_string.dfy`, module `JsString`: `String.prototype.trim`, as the
  white-space and line-terminator characters of ECMA-262 stripped from both
  ends.
- `js_array.dfy`, module `JsArray`: `Array.prototype.indexOf` (identity on
  objects) and `Array.prototype.splice` on sequences, their composition
  `splice(indexOf(x), 1)`, and the notions "distinct" and "subsequence".
- `todos.dfy`, module `Todos`: the to-do object (`class Todo` with mutable
  `title` and `completed`), the keys of the `filters` table, the three
  filters, a reference count of todos by flag, and the lemmas relating them.
- `app.dfy`, module `TodoApp`: `class App`, the Vue instance. Its fields are
  the instance's `data` (`todos`, `newTodo`, `editingTodo`, `titleBeforeEdit`,
  `todoType`). The computed views (`filteredTodo`, `remaining`, the `allDone`
  getter) and `pluralize` are functions that read the object. The `allDone`
  setter and the methods that change state are methods. `App.Valid()` says
  that no todo object is listed twice. Every method keeps it: the stored list
  is parsed into fresh objects, and `addTodo` pushes a new one.
- `scenarios.dfy`, module `Scenarios`: callers proved from the contracts of
  `App` alone. They cover the edit-then-cancel round trip, clearing completed
  todos twice, and worked examples: bulk toggle, blank input, an edit emptied
  to blanks, removing an unlisted todo, and a repeated id.

Behaviour kept as the code has it, including where it may surprise:

- Ids are `todos.length + 1` at the time of adding (line 105). After a
  removal a new todo can get the id of one still listed (shown by
  `Scenarios.RepeatedIdExample`). Id uniqueness is therefore not an invariant
  of the model.
- `removeTodo` of a todo that is not listed does not leave the list alone.
  `indexOf` gives -1 and `splice(-1, 1)` removes the last todo, if there is
  one (`JsArray.SpliceIndexOf`, `Scenarios.RemoveUnlistedExample`).
- `addTodo` takes no argument. It reads and clears the `newTodo` field.
- `cancelEdit` always ends the session and writes `titleBeforeEdit` back
  into the todo, whether or not an edit was in progress. `editTodo` replaces
  any session already open, and the edit changes the todo's title in place
  (the page binds the input to `todo.title`). There is no separate edit
  buffer.

## Model

| member | source | states |
|---|---|---|
| JsString.LeadingWhiteSpace | todomvc-app-template/js/app.js:103 | counts the white space `trim` strips at the front: all of it is white space and the next character is not |
| JsString.TrailingWhiteSpace | todomvc-app-template/js/app.js:103 | counts the white space `trim` strips at the end: all of it is white space and the character before it is not |
| JsString.Trim | todomvc-app-template/js/app.js:103 | `trim()` gives the piece of the string after its leading white space, with only white space after it; it neither starts nor ends with white space, and it is empty exactly when the string is all white space |
| JsString.TrimIdempotent | todomvc-app-template/js/app.js:136 | trimming an already trimmed title changes nothing |
| JsArray.IndexOf | todomvc-app-template/js/app.js:110 | `indexOf` gives the first index holding the element, or -1 exactly when it does not occur |
| JsArray.Splice | todomvc-app-template/js/app.js:111 | `splice(start, n)` with nothing to insert: the result is no longer than the list, holds no element more often than the list does, and is at most `n` shorter; a count of 0 or less, or a start at or past the end, leaves the list as it is; `splice(i, 1)` for an index `i` of the list removes just the element at `i`; a negative start `-k` with k up to the length removes the element `k` from the end, so `splice(-1, 1)` drops the last element, or nothing on an empty list |
| JsArray.SpliceIndexOf | todomvc-app-template/js/app.js:110-111 | `splice(indexOf(x), 1)`: for a listed `x`, exactly its first occurrence goes and the rest keep their order; for an unlisted `x`, the last element goes (nothing on an empty list); nothing new appears; on a list without repeats the result has none and no longer holds `x` |
| Todos.Todo.constructor | todomvc-app-template/js/app.js:105 | a todo object with the given id, title and flag |
| Todos.Select | todomvc-app-template/js/app.js:9-14 | `filter` by the `completed` flag: a subsequence of the list, every kept todo has the flag, every listed todo with the flag is kept, and no repeats are introduced |
| Todos.FilterAll | todomvc-app-template/js/app.js:6-8 | `filters.all` returns the list unchanged |
| Todos.FilterActive | todomvc-app-template/js/app.js:9-11 | `filters.active`: a subsequence of the list, all incomplete, holding every incomplete todo, as long as the number of incomplete todos |
| Todos.FilterCompleted | todomvc-app-template/js/app.js:12-14 | `filters.completed`: a subsequence of the list, all completed, holding every completed todo, as long as the number of completed todos |
| Todos.CountWhereLast | todomvc-app-template/js/app.js:65-67 | the count of todos with a flag, split into the count for all but the last todo plus the last one |
| Todos.SelectLength | todomvc-app-template/js/app.js:65-67 | the filtered list is exactly as long as the reference count of todos with that flag |
| Todos.FiltersPartition | todomvc-app-template/js/app.js:9-14 | the lengths of `active` and `completed` add up to the length of the list |
| Todos.SelectIdempotent | todomvc-app-template/js/app.js:114-116 | filtering twice by the same flag is filtering once |
| Todos.SelectUniform | todomvc-app-template/js/app.js:88-93 | when every todo has the same flag, a filter keeps all of them or none |
| Todos.SubsequenceBound | todomvc-app-template/js/app.js:9-14 | no subsequence of todos with a flag is longer than the filter for that flag |
| Todos.SelectUnique | todomvc-app-template/js/app.js:9-14 | the filter is the only subsequence whose todos all have the flag and whose length is the count: the contracts of `active` and `completed` determine their results (original order included) |
| TodoApp.App.constructor | todomvc-app-template/js/app.js:36-52 | the initial state: the stored todos, empty input, no edit session, empty saved title, filter `all` |
| TodoApp.App.FilteredTodo | todomvc-app-template/js/app.js:61-63 | the list under `all`; under `active` / `completed` the subsequence of incomplete / completed todos, as long as their count |
| TodoApp.App.Remaining | todomvc-app-template/js/app.js:65-67 | `remaining` is the number of todos not completed |
| TodoApp.App.AllDone | todomvc-app-template/js/app.js:85-87 | the `allDone` getter is true iff `remaining` is 0, iff every todo is completed |
| TodoApp.App.Pluralize | todomvc-app-template/js/app.js:98-100 | with exactly one remaining todo the word is returned as is, otherwise with "s" appended |
| TodoApp.App.SetAllDone | todomvc-app-template/js/app.js:88-93 | the `allDone` setter sets every todo's `completed` to the value; list, order, ids, titles and the other fields are unchanged; afterwards `remaining` is 0 for true and the length for false, so it is 0 iff the value is true or the list is empty |
| TodoApp.App.AddTodo | todomvc-app-template/js/app.js:102-107 | a blank trimmed input changes neither list nor input; otherwise exactly one fresh todo `{id: old length + 1, title: trimmed input, completed: false}` is appended, the todos before it stay, and the input becomes "" |
| TodoApp.App.RemoveTodo | todomvc-app-template/js/app.js:109-112 | the list becomes `splice(indexOf(todo), 1)` of the old one (see JsArray.SpliceIndexOf) and no longer holds the todo; the other fields are unchanged |
| TodoApp.App.RemoveCompleted | todomvc-app-template/js/app.js:114-116 | the list becomes its incomplete subsequence and `remaining` is unchanged |
| TodoApp.App.EditTodo | todomvc-app-template/js/app.js:123-126 | the session is the given todo (whatever was open before) and the saved title is its current title |
| TodoApp.App.CancelEdit | todomvc-app-template/js/app.js:128-131 | unconditionally: no session and the todo's title is the saved title; the list is unchanged |
| TodoApp.App.EditDone | todomvc-app-template/js/app.js:133-140 | without a session nothing changes; otherwise the session ends, the title is trimmed, and the todo is removed as by `removeTodo` exactly when the trimmed title is empty, so a listed todo stays listed iff its trimmed title is not empty |
| Scenarios.EditThenCancel | todomvc-app-template/js/app.js:123-131 | `editTodo(t)`, any change of `t.title`, then `cancelEdit(t)` leave `t.title` as before the edit and no session |
| Scenarios.RemoveCompletedTwice | todomvc-app-template/js/app.js:114-116 | `removeCompleted` twice leaves the same list as once |
| Scenarios.ToggleAllExample | todomvc-app-template/js/app.js:88-93 | toggling all to done on [open, done] gives [done, done] and `remaining` 0 |
| Scenarios.BlankInputExample | todomvc-app-template/js/app.js:102-104 | adding "" or "   " leaves the length of the list as it was |
| Scenarios.BlankEditExample | todomvc-app-template/js/app.js:133-140 | todo 2 "buy milk", edited to "   " and committed, is no longer listed |
| Scenarios.RemoveUnlistedExample | todomvc-app-template/js/app.js:109-112 | removing a todo that is not listed drops the last todo |
| Scenarios.RepeatedIdExample | todomvc-app-template/js/app.js:105 | from todos with ids 1 and 2, removing todo 1 and adding one gives two todos with id 2 |

## Left out

- `todoStorage.get` and `todoStorage.set` (lines 20-29) are not modelled. They
  are `localStorage` I/O through `JSON.parse` and `JSON.stringify`. The
  initial list is a constructor parameter: any list of distinct todo objects.
  A save/load round trip is not modelled for the same reason.
- The deep `watch` on `todos` (lines 53-58) is not modelled. It is Vue
  reactivity that calls `todoStorage.set` after each change.
- The `todo-focus` directive (lines 142-149) is not modelled. It only moves
  DOM focus.
- The Vue wiring (`el: '#app'`) and the surrounding function wrapper are not
  modelled. They are framework plumbing.
- The template's two-way bindings are left to callers. The input box writes
  `newTodo`, the edit box writes `todo.title`, the checkboxes write
  `todo.completed`, and the filter links write `todoType`. Callers assign
  these fields directly, as `Scenarios` does.
- `todoType` is one of the three keys of `filters`. An unknown key would make
  `filters[todoType]` undefined and throw. That case is not modelled.
- JavaScript strings are UTF-16. The model's strings are sequences of Unicode
  scalar values, so lone surrogates are not modelled. The white-space set
  is the fixed list in `JsString.IsWhiteSpace`, not a Unicode database lookup.
- JavaScript numbers are doubles. Ids and counts are unbounded integers,
  since lists never get near 2^53 elements.
