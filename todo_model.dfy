/** The record types of src/app/models/todo.model.ts. */
module TodoModel {
  import opened Wrappers

  /** `number | string`, compared with `===`: a number never equals a string.
      Numbers are the integers `Date.now()` produces. */
  datatype TodoId = NumId(num: int) | StrId(str: string)

  /** A `Date`, kept only as the instant it stands for. */
  datatype Timestamp = Timestamp(epochMillis: int)

  /** `Todo`: exactly these five fields. */
  datatype Todo = Todo(
    id: TodoId,
    title: string,
    description: string,
    completed: bool,
    createdAt: Timestamp)

  /** `TodoCreate`: a caller chooses only the text of a new todo; `id`,
      `completed` and `createdAt` are not fields here. */
  datatype TodoCreate = TodoCreate(title: string, description: string)

  /** `TodoUpdate`: every field optional (`None` is a key left out of the
      object); there is no `id` and no `createdAt` field to change. */
  datatype TodoUpdate = TodoUpdate(
    title: Option<string>,
    description: Option<string>,
    completed: Option<bool>)

  /** The patch with no field given. */
  const NoChange := TodoUpdate(None, None, None)

  /** `{...t, ...u, id: t.id, createdAt: t.createdAt}`: every field the patch
      gives wins, every other field keeps its old value, and the identity
      fields are restored from the original record. */
  function Merge(t: Todo, u: TodoUpdate): (r: Todo)
    ensures r.id == t.id && r.createdAt == t.createdAt
    ensures u.title.Some? ==> r.title == u.title.value
    ensures u.title.None? ==> r.title == t.title
    ensures u.description.Some? ==> r.description == u.description.value
    ensures u.description.None? ==> r.description == t.description
    ensures u.completed.Some? ==> r.completed == u.completed.value
    ensures u.completed.None? ==> r.completed == t.completed
  {
    Todo(t.id, u.title.GetOr(t.title), u.description.GetOr(t.description),
         u.completed.GetOr(t.completed), t.createdAt)
  }

  /** The patch that has the effect of applying `a` and then `b`: a field of
      `b` overrides the same field of `a`. */
  function Then(a: TodoUpdate, b: TodoUpdate): TodoUpdate
  {
    TodoUpdate(if b.title.Some? then b.title else a.title,
               if b.description.Some? then b.description else a.description,
               if b.completed.Some? then b.completed else a.completed)
  }

  /** An empty patch changes nothing. */
  lemma MergeNoChange(t: Todo)
    ensures Merge(t, NoChange) == t
  {
  }

  /** Two successive updates of one record are one update with the combined
      patch; in particular applying the same patch twice is applying it once. */
  lemma MergeThen(t: Todo, a: TodoUpdate, b: TodoUpdate)
    ensures Merge(Merge(t, a), b) == Merge(t, Then(a, b))
    ensures Merge(Merge(t, a), a) == Merge(t, a)
  {
  }
}
