/**
 The view model of the to-do application: the state the Vue instance holds
 (its `data`), the views it computes from it (`computed`) and the methods the
 page calls (`methods`).
 */
module TodoApp {
  import opened JsString
  import opened JsArray
  import opened Todos

  class App {
    /** All todos, in the order they are shown. */
    var todos: seq<Todo>
    /** The text of the new-todo input box. */
    var newTodo: string
    /** The todo being edited, or null when no edit is in progress. */
    var editingTodo: Todo?
    /** The title of the edited todo as it was when the edit started. */
    var titleBeforeEdit: string
    /** Which filter of the `filters` table the list shows. */
    var todoType: FilterKind

    /** Every todo of the list is a different object: the stored list is parsed
        into fresh objects, and the only way in is `addTodo`, which pushes a new
        one. (Ids, on the other hand, may repeat.) */
    ghost predicate Valid()
      reads this
    {
      Distinct(todos)
    }

    /** The state the page starts from, given the todos read back from storage. */
    constructor (stored: seq<Todo>)
      requires Distinct(stored)
      ensures Valid()
      ensures todos == stored && newTodo == "" && editingTodo == null
      ensures titleBeforeEdit == "" && todoType == All
    {
      todos := stored;
      newTodo := "";
      editingTodo := null;
      titleBeforeEdit := "";
      todoType := All;
    }

    // ----- computed -----

    /** `filteredTodo`: the todos the current filter shows. Under `all` it is the
        whole list; under `active` (`completed`) it is the subsequence of the
        incomplete (completed) todos, and exactly as long as there are of them,
        which by Todos.SelectUnique pins it down. */
    function FilteredTodo(): (r: seq<Todo>)
      reads this, todos
      ensures todoType == All ==> r == todos
      ensures todoType != All ==>
                && IsSubsequence(r, todos)
                && (forall i :: 0 <= i < |r| ==> r[i].completed == (todoType == Completed))
                && |r| == CountWhere(todos, todoType == Completed)
    {
      match todoType
      case All => FilterAll(todos)
      case Active => FilterActive(todos)
      case Completed => FilterCompleted(todos)
    }

    /** `remaining`: how many todos are not completed. */
    function Remaining(): (n: nat)
      reads this, todos
      ensures n == CountWhere(todos, false)
    {
      |FilterActive(todos)|
    }

    /** The getter of `allDone`: true exactly when every todo is completed. */
    function AllDone(): (b: bool)
      reads this, todos
      ensures b <==> Remaining() == 0
      ensures b <==> forall i :: 0 <= i < |todos| ==> todos[i].completed
    {
      var active := FilterActive(todos);
      assert |active| != 0 ==> exists i :: 0 <= i < |todos| && !todos[i].completed by {
        if |active| != 0 {
          assert active[0] in todos;
        }
      }
      Remaining() == 0
    }

    /** `pluralize(word)`: the word as it is for exactly one remaining todo, and
        with an "s" appended for any other number. */
    function Pluralize(word: string): (r: string)
      reads this, todos
      ensures CountWhere(todos, false) == 1 ==> r == word
      ensures CountWhere(todos, false) != 1 ==> r == word + "s"
    {
      word + (if Remaining() == 1 then "" else "s")
    }

    /** The setter of `allDone`: sets the `completed` flag of every todo to
        `value`, and changes nothing else. */
    method SetAllDone(value: bool)
      modifies todos
      ensures unchanged(this)
      ensures forall i :: 0 <= i < |todos| ==> todos[i].completed == value
      ensures forall i :: 0 <= i < |todos| ==>
                todos[i].id == old(todos[i].id) && todos[i].title == old(todos[i].title)
      ensures Remaining() == if value then 0 else |todos|
      ensures Remaining() == 0 <==> value || todos == []
    {
      var i := 0;
      while i < |todos|
        invariant 0 <= i <= |todos|
        invariant forall j :: 0 <= j < i ==> todos[j].completed == value
        invariant forall j :: 0 <= j < |todos| ==>
                    todos[j].id == old(todos[j].id) && todos[j].title == old(todos[j].title)
      {
        todos[i].completed := value;
        i := i + 1;
      }
      SelectUniform(todos, false, value);
    }

    // ----- methods -----

    /** `addTodo`: when the trimmed input is empty nothing changes; otherwise a new
        incomplete todo with id `length + 1` and the trimmed text is appended,
        the todos already there stay as they are, and the input is cleared. */
    method AddTodo()
      requires Valid()
      modifies this
      ensures Valid()
      ensures editingTodo == old(editingTodo) && titleBeforeEdit == old(titleBeforeEdit)
      ensures todoType == old(todoType)
      ensures Trim(old(newTodo)) == [] ==> todos == old(todos) && newTodo == old(newTodo)
      ensures Trim(old(newTodo)) != [] ==>
                && |todos| == |old(todos)| + 1
                && todos[..|old(todos)|] == old(todos)
                && fresh(todos[|old(todos)|])
                && todos[|old(todos)|].id == |old(todos)| + 1
                && todos[|old(todos)|].title == Trim(old(newTodo))
                && !todos[|old(todos)|].completed
                && newTodo == ""
    {
      var value := Trim(newTodo);
      if value == [] {
        return;
      }
      var todo := new Todo(|todos| + 1, value, false);
      todos := todos + [todo];
      newTodo := "";
    }

    /** `removeTodo(todo)`: `splice(indexOf(todo), 1)`. See JsArray.SpliceIndexOf:
        a listed todo loses exactly its (first and only) occurrence and the others
        keep their order; for an unlisted one the last todo goes. */
    method RemoveTodo(todo: Todo)
      requires Valid()
      modifies this
      ensures Valid()
      ensures todos == SpliceIndexOf(old(todos), todo)
      ensures todo !in todos
      ensures newTodo == old(newTodo) && editingTodo == old(editingTodo)
      ensures titleBeforeEdit == old(titleBeforeEdit) && todoType == old(todoType)
    {
      todos := SpliceIndexOf(todos, todo);
    }

    /** `removeCompleted`: the list becomes its incomplete subsequence, which
        leaves the number of remaining todos as it was. */
    method RemoveCompleted()
      requires Valid()
      modifies this
      ensures Valid()
      ensures todos == FilterActive(old(todos))
      ensures Remaining() == old(Remaining())
      ensures newTodo == old(newTodo) && editingTodo == old(editingTodo)
      ensures titleBeforeEdit == old(titleBeforeEdit) && todoType == old(todoType)
    {
      todos := FilterActive(todos);
      SelectIdempotent(old(todos), false);
    }

    /** `editTodo(todo)`: starts an edit of `todo`, replacing any edit already in
        progress, and remembers its current title. */
    method EditTodo(todo: Todo)
      requires Valid()
      modifies this
      ensures Valid()
      ensures editingTodo == todo && titleBeforeEdit == todo.title
      ensures todos == old(todos) && newTodo == old(newTodo) && todoType == old(todoType)
    {
      editingTodo := todo;
      titleBeforeEdit := todo.title;
    }

    /** `cancelEdit(todo)`: ends the edit and puts back the remembered title, also
        when no edit was in progress. */
    method CancelEdit(todo: Todo)
      requires Valid()
      modifies this, todo`title
      ensures Valid()
      ensures editingTodo == null && todo.title == old(titleBeforeEdit)
      ensures todos == old(todos) && newTodo == old(newTodo)
      ensures titleBeforeEdit == old(titleBeforeEdit) && todoType == old(todoType)
    {
      editingTodo := null;
      todo.title := titleBeforeEdit;
    }

    /** `editDone(todo)`: without an edit in progress nothing changes. Otherwise the
        edit ends, the title is trimmed, and a todo whose trimmed title is empty is
        removed as by `removeTodo`; a listed todo thus stays listed exactly when
        its trimmed title is not empty. */
    method EditDone(todo: Todo)
      requires Valid()
      modifies this, todo`title
      ensures Valid()
      ensures old(editingTodo) == null ==> unchanged(this) && todo.title == old(todo.title)
      ensures old(editingTodo) != null ==>
                && editingTodo == null
                && todo.title == Trim(old(todo.title))
                && todos == if Trim(old(todo.title)) == [] then SpliceIndexOf(old(todos), todo)
                            else old(todos)
      ensures old(editingTodo) != null && todo in old(todos) ==>
                (todo in todos <==> Trim(old(todo.title)) != [])
      ensures newTodo == old(newTodo) && titleBeforeEdit == old(titleBeforeEdit)
      ensures todoType == old(todoType)
    {
      if editingTodo == null {
        return;
      }
      editingTodo := null;
      todo.title := Trim(todo.title);
      if todo.title == [] {
        RemoveTodo(todo);
      }
    }
  }
}
