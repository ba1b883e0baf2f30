/**
 * The Todo record as the in-memory store keeps it (the dict built from the
 * `Todo` request model plus `_id` and `created_at`), the body of a create
 * request with its field defaults, and the partial update of `TodoUpdate`.
 */
module Todos {
  import opened Wrappers

  /** A stored record. `priority` is free text; `createdAt` is an opaque timestamp. */
  datatype Todo = Todo(
    id: string,
    title: string,
    description: Option<string>,
    completed: bool,
    priority: string,
    createdAt: string)

  /**
   * The body of a create request. `None` means the client left the field out
   * (for `description`, also an explicit null); the title is required but may
   * be empty.
   */
  datatype NewTodo = NewTodo(
    title: string,
    description: Option<string>,
    completed: Option<bool>,
    priority: Option<string>)

  const DefaultPriority: string := "medium"

  /** The record that create stores for `body`, under the given id and timestamp. */
  function Record(body: NewTodo, id: string, createdAt: string): (t: Todo)
    ensures t.id == id && t.createdAt == createdAt
    ensures t.title == body.title && t.description == body.description
    ensures body.completed.None? ==> !t.completed
    ensures body.completed.Some? ==> t.completed == body.completed.value
    ensures body.priority.None? ==> t.priority == DefaultPriority
    ensures body.priority.Some? ==> t.priority == body.priority.value
  {
    Todo(id, body.title, body.description, body.completed.GetOr(false),
         body.priority.GetOr(DefaultPriority), createdAt)
  }

  /** A body that gives only a title yields a pending, medium-priority record without description. */
  lemma RecordDefaults(title: string, id: string, createdAt: string)
    ensures Record(NewTodo(title, None, None, None), id, createdAt)
         == Todo(id, title, None, false, "medium", createdAt)
  {
  }

  /** A partial update: `None` fields are dropped before the record is updated. */
  datatype Patch = Patch(
    title: Option<string>,
    description: Option<string>,
    completed: Option<bool>,
    priority: Option<string>)

  const EmptyPatch: Patch := Patch(None, None, None, None)

  /**
   * `record.update({k: v for k, v in patch if v is not None})`: every field
   * given in the patch is overwritten, every other field is kept.
   */
  function ApplyPatch(t: Todo, p: Patch): (r: Todo)
    ensures r.id == t.id && r.createdAt == t.createdAt
    ensures p.title.Some? ==> r.title == p.title.value
    ensures p.title.None? ==> r.title == t.title
    ensures p.description.Some? ==> r.description == p.description
    ensures p.description.None? ==> r.description == t.description
    ensures p.completed.Some? ==> r.completed == p.completed.value
    ensures p.completed.None? ==> r.completed == t.completed
    ensures p.priority.Some? ==> r.priority == p.priority.value
    ensures p.priority.None? ==> r.priority == t.priority
  {
    var t1 := if p.title.Some? then t.(title := p.title.value) else t;
    var t2 := if p.description.Some? then t1.(description := p.description) else t1;
    var t3 := if p.completed.Some? then t2.(completed := p.completed.value) else t2;
    if p.priority.Some? then t3.(priority := p.priority.value) else t3
  }

  /** The empty patch changes nothing. */
  lemma ApplyEmptyPatch(t: Todo)
    ensures ApplyPatch(t, EmptyPatch) == t
  {
  }

  /** Applying the same patch again changes nothing more. */
  lemma ApplyPatchIdempotent(t: Todo, p: Patch)
    ensures ApplyPatch(ApplyPatch(t, p), p) == ApplyPatch(t, p)
  {
  }
}
