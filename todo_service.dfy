/** The store of src/app/services/todo.service.ts.

    Every operation runs when it is called and its result is returned
    directly: the Observable each method of the source returns is modelled as
    running its body once, synchronously, at the call. */
module TodoServices {
  import opened Wrappers
  import opened TodoModel
  import opened TodoLists

  /** What the store reads back from its `localStorage` slot: the saved list,
      or the empty list when nothing was ever saved under the key. */
  function SlotContents(slot: Option<seq<Todo>>): (r: seq<Todo>)
    ensures slot.Some? ==> r == slot.value
    ensures slot.None? ==> r == []
  {
    slot.GetOr([])
  }

  class TodoService {
    /** The current value of `todosSubject`. */
    var todos: seq<Todo>
    /** Every value `todosSubject` has held, oldest first: its initial `[]`
        and then one entry per call of `next`. Subscribers see these. */
    var published: seq<seq<Todo>>
    /** The `localStorage` item under the key `'todos'`; `None` when absent. */
    var stored: Option<seq<Todo>>

    /** The stream's latest value is the list held in memory, and reloading
        the slot would give that same list back. */
    ghost predicate Valid()
      reads this
    {
      |published| > 0 &&
      published[|published| - 1] == todos &&
      SlotContents(stored) == todos
    }

    /** Construction starts the subject at `[]` and then loads the slot. */
    constructor (slot: Option<seq<Todo>>)
      ensures Valid()
      ensures stored == slot && todos == SlotContents(slot)
      ensures published == [[], todos]
    {
      todos := [];
      published := [[]];
      stored := slot;
      new;
      LoadTodos();
    }

    /** `loadTodos`: publish the slot's list, or `[]` when there is none. */
    method LoadTodos()
      modifies this
      ensures stored == old(stored)
      ensures todos == SlotContents(stored)
      ensures published == old(published) + [todos]
    {
      match stored
      case Some(saved) => Publish(saved);
      case None => Publish([]);
    }

    /** `saveTodos`: overwrite the slot with the whole list. */
    method SaveTodos(list: seq<Todo>)
      modifies this`stored
      ensures stored == Some(list)
    {
      stored := Some(list);
    }

    /** `todosSubject.next(list)`. */
    method Publish(list: seq<Todo>)
      modifies this`todos, this`published
      ensures todos == list
      ensures published == old(published) + [list]
    {
      todos := list;
      published := published + [list];
    }

    /** `getTodos`: the stream, whose latest value is the current list. */
    method GetTodos() returns (r: seq<Todo>)
      requires Valid()
      ensures r == published[|published| - 1] && r == SlotContents(stored)
    {
      r := todos;
    }

    /** `getTodoById`: the first record with the id, or `undefined`. */
    method GetTodoById(id: TodoId) returns (r: Option<Todo>)
      ensures r == Find(todos, id)
    {
      r := Find(todos, id);
    }

    /** `createTodo`. `clockMillis` is the value of `Date.now()` that becomes
        the id and `now` the `new Date()` that becomes `createdAt`. */
    method CreateTodo(draft: TodoCreate, clockMillis: int, now: Timestamp) returns (t: Todo)
      requires Valid()
      modifies this
      ensures Valid()
      ensures t.id == NumId(clockMillis) && t.createdAt == now
      ensures t.title == draft.title && t.description == draft.description && !t.completed
      ensures todos == old(todos) + [t]
      ensures stored == Some(todos) && published == old(published) + [todos]
    {
      t := Todo(NumId(clockMillis), draft.title, draft.description, false, now);
      var list := todos + [t];
      SaveTodos(list);
      Publish(list);
    }

    /** `updateTodo`: merge the patch into the first record with the id.
        When there is none, answer `undefined` and neither save nor publish. */
    method UpdateTodo(id: TodoId, patch: TodoUpdate) returns (r: Option<Todo>)
      requires Valid()
      modifies this
      ensures Valid()
      ensures todos == Updated(old(todos), id, patch)
      ensures r.None? <==> !Contains(old(todos), id)
      ensures r.None? ==> stored == old(stored) && published == old(published)
      ensures r.Some? ==> r.value == Merge(Find(old(todos), id).value, patch)
      ensures r.Some? ==> r == Find(todos, id)
      ensures r.Some? ==> stored == Some(todos) && published == old(published) + [todos]
    {
      var i := FindIndex(todos, id);
      if i == -1 {
        return None;
      }
      var updated := Merge(todos[i], patch);
      var list := todos[i := updated];
      FindAfterUpdate(todos, id, patch);
      SaveTodos(list);
      Publish(list);
      r := Some(updated);
    }

    /** `deleteTodo`: drop every record with the id; save and publish only
        when that removed something, and answer whether it did. */
    method DeleteTodo(id: TodoId) returns (deleted: bool)
      requires Valid()
      modifies this
      ensures Valid()
      ensures deleted <==> Contains(old(todos), id)
      ensures todos == Without(old(todos), id)
      ensures deleted ==> stored == Some(todos) && published == old(published) + [todos]
      ensures !deleted ==> stored == old(stored) && published == old(published)
    {
      var initialLength := |todos|;
      var list := Without(todos, id);
      DeleteProperties(todos, id);
      deleted := |list| < initialLength;
      if deleted {
        SaveTodos(list);
        Publish(list);
      }
    }

    /** `toggleTodo`: flip `completed` of the first record with the id,
        through `updateTodo`; answer `undefined` with no effect when there is
        none. The source reads the record when `toggleTodo` is called and
        runs the update only when its result is subscribed to; here both
        happen at the call. */
    method ToggleTodo(id: TodoId) returns (r: Option<Todo>)
      requires Valid()
      modifies this
      ensures Valid()
      ensures todos == Toggled(old(todos), id)
      ensures r.None? <==> !Contains(old(todos), id)
      ensures r.None? ==> stored == old(stored) && published == old(published)
      ensures r.Some? ==> r == Find(todos, id) && r.value.completed == !Find(old(todos), id).value.completed
      ensures r.Some? ==> r.value == Find(old(todos), id).value.(completed := !Find(old(todos), id).value.completed)
      ensures r.Some? ==> stored == Some(todos) && published == old(published) + [todos]
    {
      var todo := Find(todos, id);
      if todo.None? {
        return None;
      }
      r := UpdateTodo(id, FlipCompleted(todo.value));
    }

    /** `deleteCompleted`: keep only the active records, always save and
        publish, and answer how many completed records there were. */
    method DeleteCompleted() returns (completedCount: nat)
      requires Valid()
      modifies this
      ensures Valid()
      ensures completedCount == |Completed(old(todos))|
      ensures todos == Active(old(todos))
      ensures completedCount + |todos| == |old(todos)|
      ensures stored == Some(todos) && published == old(published) + [todos]
    {
      completedCount := |Completed(todos)|;
      var list := Active(todos);
      ClearCompletedProperties(todos);
      SaveTodos(list);
      Publish(list);
    }

    /** `getActiveTodosCount`. */
    function GetActiveTodosCount(): (n: nat)
      reads this
      ensures n + |Completed(todos)| == |todos|
      ensures n == 0 <==> forall i :: 0 <= i < |todos| ==> todos[i].completed
    {
      ClearCompletedProperties(todos);
      Sequences.FilterKeepsNone(todos, IsActive);
      |Active(todos)|
    }

    /** `getCompletedTodosCount`. */
    function GetCompletedTodosCount(): (n: nat)
      reads this
      ensures n + GetActiveTodosCount() == |todos|
      ensures n == 0 <==> forall i :: 0 <= i < |todos| ==> !todos[i].completed
      ensures n == |todos| <==> forall i :: 0 <= i < |todos| ==> todos[i].completed
    {
      Sequences.FilterKeepsNone(todos, IsCompleted);
      Sequences.FilterKeepsAll(todos, IsCompleted);
      |Completed(todos)|
    }
  }

  /** A page reload: a new store over the same slot starts from the list the
      old store last saved and published. */
  method Reload(previous: TodoService) returns (r: TodoService)
    requires previous.Valid()
    ensures fresh(r) && r.Valid()
    ensures r.todos == previous.todos && r.stored == previous.stored
  {
    r := new TodoService(previous.stored);
  }

  /** Two toggles of one id through the store give back the list it had. */
  method ToggleTwiceRestores(store: TodoService, id: TodoId)
    requires store.Valid()
    modifies store
    ensures store.Valid()
    ensures store.todos == old(store.todos)
  {
    var first := store.ToggleTodo(id);
    var second := store.ToggleTodo(id);
    ToggleTwice(old(store.todos), id);
  }
}
