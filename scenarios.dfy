/**
 Callers of the view model: the edit-cancel round trip, clearing completed
 todos twice, and the worked examples of the application's behaviour (bulk
 toggle, blank input, an edit emptied to white space, removing an unlisted
 todo, repeated ids), each proved from the contracts of TodoApp.App alone.
 */
module Scenarios {
  import opened JsString
  import opened Todos
  import opened TodoApp

  /** Starting an edit, typing anything into the title, then cancelling leaves
      the title as it was and no edit in progress. */
  method EditThenCancel(app: App, todo: Todo, typed: string)
    requires app.Valid()
    modifies app, todo`title
    ensures app.Valid()
    ensures todo.title == old(todo.title) && app.editingTodo == null
    ensures app.todos == old(app.todos) && app.newTodo == old(app.newTodo)
  {
    app.EditTodo(todo);
    todo.title := typed;
    app.CancelEdit(todo);
  }

  /** Clearing completed todos a second time changes nothing more. */
  method RemoveCompletedTwice(app: App)
    requires app.Valid()
    modifies app
    ensures app.Valid()
    ensures app.todos == FilterActive(old(app.todos))
  {
    app.RemoveCompleted();
    app.RemoveCompleted();
    SelectIdempotent(old(app.todos), false);
  }

  /** Toggling all to done on [open, done] gives [done, done] and nothing left. */
  method ToggleAllExample() returns (flags: seq<bool>, remaining: nat)
    ensures flags == [true, true] && remaining == 0
  {
    var a := new Todo(1, "a", false);
    var b := new Todo(2, "b", true);
    var app := new App([a, b]);
    app.SetAllDone(true);
    flags := [app.todos[0].completed, app.todos[1].completed];
    remaining := app.Remaining();
  }

  /** An empty or all-blank input adds nothing. */
  method BlankInputExample() returns (before: nat, afterEmpty: nat, afterBlank: nat)
    ensures before == afterEmpty == afterBlank == 1
  {
    var a := new Todo(1, "a", false);
    var app := new App([a]);
    before := |app.todos|;
    app.newTodo := "";
    app.AddTodo();
    afterEmpty := |app.todos|;
    app.newTodo := "   ";
    assert WhiteSpaceBetween(app.newTodo, 0, 3);
    app.AddTodo();
    afterBlank := |app.todos|;
  }

  /** Editing the title of todo 2 ("buy milk") down to blanks and committing
      removes it. */
  method BlankEditExample() returns (ids: seq<int>, removedListed: bool)
    ensures ids == [1] && !removedListed
  {
    var first := new Todo(1, "call mum", false);
    var milk := new Todo(2, "buy milk", false);
    var app := new App([first, milk]);
    app.EditTodo(milk);
    milk.title := "   ";
    assert WhiteSpaceBetween(milk.title, 0, 3);
    app.EditDone(milk);
    ids := [app.todos[0].id];
    removedListed := milk in app.todos;
  }

  /** Removing a todo that is not in the list drops the last one. */
  method RemoveUnlistedExample() returns (ids: seq<int>)
    ensures ids == [1]
  {
    var a := new Todo(1, "a", false);
    var b := new Todo(2, "b", false);
    var stray := new Todo(3, "c", false);
    var app := new App([a, b]);
    app.RemoveTodo(stray);
    ids := [app.todos[0].id];
  }

  /** Ids come from the length of the list, so after a removal a new todo can
      get the id of one still listed. */
  method RepeatedIdExample() returns (ids: seq<int>)
    ensures ids == [2, 2]
  {
    var a := new Todo(1, "a", false);
    var b := new Todo(2, "b", false);
    var app := new App([a, b]);
    app.RemoveTodo(a);
    app.newTodo := "c";
    assert !IsWhiteSpace('c');
    app.AddTodo();
    ids := [app.todos[0].id, app.todos[1].id];
  }
}
