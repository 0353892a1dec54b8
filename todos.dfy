/**
 The to-do items and the `filters` table of the view model: the three views
 `all`, `active` and `completed` over a list of to-do objects, and the counts
 they give.
 */
module Todos {
  import opened JsArray

  /** One to-do item. The view model shares these objects between the list, the
      edit session and the callers of its methods, and changes their fields in
      place, so they are objects and their identity is what `indexOf` compares. */
  class Todo {
    var id: int
    var title: string
    var completed: bool

    constructor (id: int, title: string, completed: bool)
      ensures this.id == id && this.title == title && this.completed == completed
    {
      this.id := id;
      this.title := title;
      this.completed := completed;
    }
  }

  /** The keys of the `filters` table, which `todoType` selects from. */
  datatype FilterKind = All | Active | Completed

  /** The todos whose `completed` flag is `want`, in list order (the common
      shape of `todos.filter(todo => !todo.completed)` and
      `todos.filter(todo => todo.completed)`). */
  function Select(s: seq<Todo>, want: bool): (r: seq<Todo>)
    reads s
    ensures |r| <= |s|
    ensures IsSubsequence(r, s)
    ensures forall i :: 0 <= i < |r| ==> r[i].completed == want
    ensures forall i :: 0 <= i < |r| ==> r[i] in s
    ensures forall i :: 0 <= i < |s| && s[i].completed == want ==> s[i] in r
    ensures Distinct(s) ==> Distinct(r)
    decreases |s|
  {
    if s == [] then []
    else
      var r := Select(s[..|s| - 1], want);
      var last := s[|s| - 1];
      assert s == s[..|s| - 1] + [last];
      if last.completed == want then
        assert (r + [last])[..|r|] == r;
        r + [last]
      else
        r
  }

  /** `filters.all`: the list itself. */
  function FilterAll(s: seq<Todo>): (r: seq<Todo>)
    ensures r == s
  {
    s
  }

  /** `filters.active`: the incomplete todos, in list order. */
  function FilterActive(s: seq<Todo>): (r: seq<Todo>)
    reads s
    ensures IsSubsequence(r, s)
    ensures forall i :: 0 <= i < |r| ==> !r[i].completed
    ensures forall i :: 0 <= i < |s| && !s[i].completed ==> s[i] in r
    ensures |r| == CountWhere(s, false)
  {
    SelectLength(s, false);
    Select(s, false)
  }

  /** `filters.completed`: the completed todos, in list order. */
  function FilterCompleted(s: seq<Todo>): (r: seq<Todo>)
    reads s
    ensures IsSubsequence(r, s)
    ensures forall i :: 0 <= i < |r| ==> r[i].completed
    ensures forall i :: 0 <= i < |s| && s[i].completed ==> s[i] in r
    ensures |r| == CountWhere(s, true)
  {
    SelectLength(s, true);
    Select(s, true)
  }

  /** Reference definition of a count: how many positions of the list hold a
      todo whose `completed` flag is `want`. */
  ghost function CountWhere(s: seq<Todo>, want: bool): nat
    reads s
  {
    |set i | 0 <= i < |s| && s[i].completed == want|
  }

  /** Counting a list is counting all but its last todo, plus that one. */
  lemma CountWhereLast(s: seq<Todo>, want: bool)
    requires s != []
    ensures CountWhere(s, want)
            == CountWhere(s[..|s| - 1], want) + if s[|s| - 1].completed == want then 1 else 0
  {
    var n := |s| - 1;
    var p := s[..n];
    var whole := set i | 0 <= i < |s| && s[i].completed == want;
    var front := set i | 0 <= i < |p| && p[i].completed == want;
    assert front == set i | 0 <= i < n && s[i].completed == want;
    if s[n].completed == want {
      assert whole == front + {n};
    } else {
      assert whole == front;
    }
  }

  /** Selecting keeps exactly as many todos as CountWhere counts. */
  lemma {:induction false} SelectLength(s: seq<Todo>, want: bool)
    ensures |Select(s, want)| == CountWhere(s, want)
    decreases |s|
  {
    if s != [] {
      SelectLength(s[..|s| - 1], want);
      CountWhereLast(s, want);
    }
  }

  /** `active` and `completed` split the list: their lengths add up to its length. */
  lemma {:induction false} FiltersPartition(s: seq<Todo>)
    ensures |FilterActive(s)| + |FilterCompleted(s)| == |s|
    decreases |s|
  {
    if s != [] {
      FiltersPartition(s[..|s| - 1]);
    }
  }

  /** Selecting twice by the same flag is selecting once. */
  lemma {:induction false} SelectIdempotent(s: seq<Todo>, want: bool)
    ensures Select(Select(s, want), want) == Select(s, want)
    decreases |s|
  {
    if s != [] {
      var p := s[..|s| - 1];
      var r := Select(p, want);
      SelectIdempotent(p, want);
      if s[|s| - 1].completed == want {
        assert (r + [s[|s| - 1]])[..|r|] == r;
      }
    }
  }

  /** When every todo has the same flag `v`, selecting by `want` keeps all of
      them if `v == want` and none otherwise. */
  lemma {:induction false} SelectUniform(s: seq<Todo>, want: bool, v: bool)
    requires forall i :: 0 <= i < |s| ==> s[i].completed == v
    ensures Select(s, want) == if v == want then s else []
    decreases |s|
  {
    if s != [] {
      SelectUniform(s[..|s| - 1], want, v);
      assert s == s[..|s| - 1] + [s[|s| - 1]];
    }
  }

  /** A subsequence made only of todos with flag `want` is no longer than what
      Select keeps. */
  lemma {:induction false} SubsequenceBound(r: seq<Todo>, s: seq<Todo>, want: bool)
    requires IsSubsequence(r, s)
    requires forall i :: 0 <= i < |r| ==> r[i].completed == want
    ensures |r| <= |Select(s, want)|
    decreases |s|
  {
    if r != [] {
      var p := s[..|s| - 1];
      if r[|r| - 1] == s[|s| - 1] && IsSubsequence(r[..|r| - 1], p) {
        SubsequenceBound(r[..|r| - 1], p, want);
      } else {
        SubsequenceBound(r, p, want);
      }
    }
  }

  /** The contract of FilterActive and FilterCompleted determines their result:
      any subsequence of the list whose todos all have flag `want` and whose
      length is CountWhere(s, want) is the selection itself. */
  lemma {:induction false} SelectUnique(r: seq<Todo>, s: seq<Todo>, want: bool)
    requires IsSubsequence(r, s)
    requires forall i :: 0 <= i < |r| ==> r[i].completed == want
    requires |r| == CountWhere(s, want)
    ensures r == Select(s, want)
    decreases |s|
  {
    SelectLength(s, want);
    if s != [] && r != [] {
      var p := s[..|s| - 1];
      var last := s[|s| - 1];
      SelectLength(p, want);
      if r[|r| - 1] == last && IsSubsequence(r[..|r| - 1], p) {
        SelectUnique(r[..|r| - 1], p, want);
        assert r == r[..|r| - 1] + [last];
      } else {
        SubsequenceBound(r, p, want);
        SelectUnique(r, p, want);
      }
    }
  }
}
