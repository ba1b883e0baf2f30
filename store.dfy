/**
 * The in-memory Todo store: the module-level list of records and the
 * handlers that change it (create, update, delete, toggle) or look a record
 * up by id (get). The state each handler leaves is specified by a function of
 * the state before it; the class `Store` holds the list and its methods are
 * proved to follow those functions.
 */
module MemoryStore {
  import opened Wrappers
  import opened Text
  import opened Todos

  /** The outcome of a handler that addresses one record by id. */
  datatype Outcome<T> = Ok(value: T) | NotFound

  /** Position of the first record with the given id, if any. */
  function FirstIndex(s: seq<Todo>, id: string): (r: Option<nat>)
    ensures r.None? <==> forall i :: 0 <= i < |s| ==> s[i].id != id
    ensures r.Some? ==> r.value < |s| && s[r.value].id == id
    ensures r.Some? ==> forall j :: 0 <= j < r.value ==> s[j].id != id
  {
    if s == [] then None
    else if s[0].id == id then Some(0)
    else
      match FirstIndex(s[1..], id)
      case None => assert forall i :: 1 <= i < |s| ==> s[i] == s[1..][i - 1]; None
      case Some(i) => Some(i + 1)
  }

  /** Records with the same ids in the same places have the same first match. */
  lemma FirstIndexSameIds(s: seq<Todo>, u: seq<Todo>, id: string)
    requires |s| == |u|
    requires forall i :: 0 <= i < |s| ==> s[i].id == u[i].id
    ensures FirstIndex(s, id) == FirstIndex(u, id)
  {
    var a, b := FirstIndex(s, id), FirstIndex(u, id);
    if a.Some? && b.Some? {
      assert !(a.value < b.value) && !(b.value < a.value);
    }
  }

  /** Get: the first record with the id, or NotFound. */
  function Lookup(s: seq<Todo>, id: string): (r: Outcome<Todo>)
    ensures r.NotFound? <==> forall i :: 0 <= i < |s| ==> s[i].id != id
    ensures r.Ok? ==> r.value in s && r.value.id == id
    ensures r.Ok? ==> exists i :: 0 <= i < |s| && s[i] == r.value && forall j :: 0 <= j < i ==> s[j].id != id
  {
    match FirstIndex(s, id)
    case None => NotFound
    case Some(i) => Ok(s[i])
  }

  /** Create: the id is the decimal form of the old length plus one. */
  function Created(s: seq<Todo>, body: NewTodo, createdAt: string): (r: seq<Todo>)
    ensures |r| == |s| + 1 && r[..|s|] == s
    ensures r[|s|] == Record(body, NatToString(|s| + 1), createdAt)
  {
    s + [Record(body, NatToString(|s| + 1), createdAt)]
  }

  /** Update: the first record with the id gets the patch; nothing else changes. */
  function Patched(s: seq<Todo>, id: string, p: Patch): (r: seq<Todo>)
    ensures |r| == |s|
    ensures FirstIndex(s, id).None? ==> r == s
    ensures FirstIndex(s, id).Some? ==> r[FirstIndex(s, id).value] == ApplyPatch(s[FirstIndex(s, id).value], p)
    ensures forall i :: 0 <= i < |s| && Some(i) != FirstIndex(s, id) ==> r[i] == s[i]
  {
    match FirstIndex(s, id)
    case None => s
    case Some(i) => s[i := ApplyPatch(s[i], p)]
  }

  /** The record a handler flips: `completed` negated, every other field kept. */
  function Flipped(t: Todo): (r: Todo)
    ensures r.completed != t.completed
    ensures r == t.(completed := r.completed)
  {
    t.(completed := !t.completed)
  }

  /** Toggle: the first record with the id is flipped; nothing else changes. */
  function Toggled(s: seq<Todo>, id: string): (r: seq<Todo>)
    ensures |r| == |s|
    ensures FirstIndex(s, id).None? ==> r == s
    ensures FirstIndex(s, id).Some? ==> r[FirstIndex(s, id).value] == Flipped(s[FirstIndex(s, id).value])
    ensures forall i :: 0 <= i < |s| && Some(i) != FirstIndex(s, id) ==> r[i] == s[i]
  {
    match FirstIndex(s, id)
    case None => s
    case Some(i) => s[i := Flipped(s[i])]
  }

  /** Delete: `[t for t in s if t["_id"] != id]`. */
  function Removed(s: seq<Todo>, id: string): (r: seq<Todo>)
    ensures |r| <= |s|
    ensures forall i :: 0 <= i < |r| ==> r[i] in s && r[i].id != id
  {
    if s == [] then []
    else if s[0].id == id then Removed(s[1..], id)
    else [s[0]] + Removed(s[1..], id)
  }

  /** Delete of a single record: it goes exactly when its id matches. */
  lemma RemovedSingle(t: Todo, id: string)
    ensures Removed([t], id) == if t.id == id then [] else [t]
  {
    assert [t][1..] == [];
  }

  /**
   * Delete works record by record over a concatenation; with `RemovedSingle`
   * this fixes the survivors' order and multiplicity.
   */
  lemma {:induction false} RemovedAppend(s: seq<Todo>, u: seq<Todo>, id: string)
    ensures Removed(s + u, id) == Removed(s, id) + Removed(u, id)
  {
    if s != [] {
      assert (s + u)[1..] == s[1..] + u;
      RemovedAppend(s[1..], u, id);
    } else {
      assert s + u == u;
    }
  }

  /** Delete keeps every record with another id. */
  lemma {:induction false} RemovedKeeps(s: seq<Todo>, id: string, t: Todo)
    requires t in s && t.id != id
    ensures t in Removed(s, id)
  {
    if s[0] != t {
      RemovedKeeps(s[1..], id, t);
    }
  }

  /** Delete shrinks the store exactly when some record has the id, and otherwise leaves it as it was. */
  lemma {:induction false} RemovedShrinks(s: seq<Todo>, id: string)
    ensures |Removed(s, id)| < |s| <==> exists i :: 0 <= i < |s| && s[i].id == id
    ensures (forall i :: 0 <= i < |s| ==> s[i].id != id) ==> Removed(s, id) == s
  {
    if s != [] {
      RemovedShrinks(s[1..], id);
      assert forall i :: 1 <= i < |s| ==> s[i] == s[1..][i - 1];
      if s[0].id != id && exists i :: 0 <= i < |s| && s[i].id == id {
        var i :| 0 <= i < |s| && s[i].id == id;
        assert s[1..][i - 1].id == id;
      }
    }
  }

  /** After a delete, get of that id finds nothing. */
  lemma GetAfterDelete(s: seq<Todo>, id: string)
    ensures Lookup(Removed(s, id), id) == NotFound
  {
  }

  /** Toggling the same id twice restores the store. */
  lemma ToggleTwice(s: seq<Todo>, id: string)
    ensures Toggled(Toggled(s, id), id) == s
  {
    FirstIndexSameIds(s, Toggled(s, id), id);
  }

  /** Patching with the empty patch leaves the store as it was, whether or not the id is present. */
  lemma EmptyPatchChangesNothing(s: seq<Todo>, id: string)
    ensures Patched(s, id, EmptyPatch) == s
  {
    match FirstIndex(s, id)
    case None =>
    case Some(i) => ApplyEmptyPatch(s[i]);
  }

  /** Create then get returns the new record, provided no older record already has its id. */
  lemma GetAfterCreate(s: seq<Todo>, body: NewTodo, createdAt: string)
    requires forall i :: 0 <= i < |s| ==> s[i].id != NatToString(|s| + 1)
    ensures Lookup(Created(s, body, createdAt), NatToString(|s| + 1))
         == Ok(Record(body, NatToString(|s| + 1), createdAt))
  {
    var r := Created(s, body, createdAt);
    var k := FirstIndex(r, NatToString(|s| + 1));
    assert r[|s|].id == NatToString(|s| + 1);
    assert k.Some? && !(k.value < |s|);
  }

  /**
   * Ids repeat: create, create, delete "1", create leaves two records with
   * id "2", and get "2" returns the older one rather than the one just created.
   */
  lemma IdsRepeatAfterDelete(a: NewTodo, b: NewTodo, c: NewTodo, t1: string, t2: string, t3: string)
    requires b.title != c.title
    ensures var s := Created(Removed(Created(Created([], a, t1), b, t2), "1"), c, t3);
      && |s| == 2 && s[0].id == "2" && s[1].id == "2"
      && Lookup(s, "2") == Ok(Record(b, "2", t2))
      && Lookup(s, "2") != Ok(s[1])
  {
    assert NatToString(1) == "1";
    assert NatToString(2) == "2";
    var s1 := Created([], a, t1);
    var s2 := Created(s1, b, t2);
    assert s2 == [Record(a, "1", t1), Record(b, "2", t2)];
    var s3 := Removed(s2, "1");
    assert s2[1..] == [Record(b, "2", t2)];
    assert s2[1..][1..] == [];
    assert Removed(s2[1..], "1") == [Record(b, "2", t2)] + Removed([], "1");
    assert s3 == [Record(b, "2", t2)];
  }

  /** The module-level list `todos_memory` and the handlers of its fallback branch. */
  class Store {
    var todos: seq<Todo>

    constructor ()
      ensures todos == []
    {
      todos := [];
    }

    /** POST /api/todos: append the new record and return it. */
    method Create(body: NewTodo, createdAt: string) returns (t: Todo)
      modifies this
      ensures todos == Created(old(todos), body, createdAt)
      ensures t == todos[|todos| - 1] && t.id == NatToString(|old(todos)| + 1)
    {
      t := Record(body, NatToString(|todos| + 1), createdAt);
      todos := todos + [t];
    }

    /** The scan shared by get, update and toggle: the position of the first record with the id. */
    method IndexOf(id: string) returns (k: Option<nat>)
      ensures k == FirstIndex(todos, id)
    {
      var i := 0;
      while i < |todos|
        invariant 0 <= i <= |todos|
        invariant forall j :: 0 <= j < i ==> todos[j].id != id
      {
        if todos[i].id == id {
          k := Some(i);
          assert FirstIndex(todos, id).Some?;
          return;
        }
        i := i + 1;
      }
      k := None;
    }

    /** GET /api/todos/{id}. */
    method Get(id: string) returns (r: Outcome<Todo>)
      ensures r == Lookup(todos, id)
    {
      var k := IndexOf(id);
      if k.Some? {
        r := Ok(todos[k.value]);
      } else {
        r := NotFound;
      }
    }

    /** PUT /api/todos/{id}: patch the first match in place and return it. */
    method Update(id: string, p: Patch) returns (r: Outcome<Todo>)
      modifies this
      ensures todos == Patched(old(todos), id, p)
      ensures r.NotFound? <==> FirstIndex(old(todos), id).None?
      ensures r.Ok? ==> r == Lookup(todos, id) && r.value == ApplyPatch(old(Lookup(todos, id)).value, p)
    {
      var k := IndexOf(id);
      if k.None? {
        return NotFound;
      }
      var i := k.value;
      todos := todos[i := ApplyPatch(todos[i], p)];
      FirstIndexSameIds(old(todos), todos, id);
      r := Ok(todos[i]);
    }

    /** DELETE /api/todos/{id}: drop every record with the id; success iff the list got shorter. */
    method Delete(id: string) returns (r: Outcome<()>)
      modifies this
      ensures todos == Removed(old(todos), id)
      ensures r.Ok? <==> |todos| < |old(todos)|
      ensures r.Ok? <==> exists i :: 0 <= i < |old(todos)| && old(todos)[i].id == id
      ensures r.NotFound? ==> todos == old(todos)
    {
      var initialLength := |todos|;
      RemovedShrinks(todos, id);
      todos := Removed(todos, id);
      if |todos| < initialLength {
        r := Ok(());
      } else {
        r := NotFound;
      }
    }

    /** PATCH /api/todos/{id}/toggle: flip `completed` on the first match and return it. */
    method Toggle(id: string) returns (r: Outcome<Todo>)
      modifies this
      ensures todos == Toggled(old(todos), id)
      ensures r.NotFound? <==> FirstIndex(old(todos), id).None?
      ensures r.Ok? ==> r == Lookup(todos, id) && r.value == Flipped(old(Lookup(todos, id)).value)
    {
      var k := IndexOf(id);
      if k.None? {
        return NotFound;
      }
      var i := k.value;
      todos := todos[i := Flipped(todos[i])];
      FirstIndexSameIds(old(todos), todos, id);
      r := Ok(todos[i]);
    }
  }
}
