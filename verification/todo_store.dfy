/** The in-memory to-do store of the service and its five request handlers,
    each a pure function from the current collection (and the request's
    parsed inputs) to a reply and the collection it leaves behind. */
module TodoStore {
  import opened Replies
  import opened JsValues

  /** One to-do record. `task` and `priority` hold whatever JSON value the
      client sent: the handlers never insist on strings, and an update may
      store a falsy priority. `completed` is always a boolean. */
  datatype Todo = Todo(id: int, task: JsValue, completed: bool, priority: JsValue)

  /** The request-body fields the handlers read; create ignores `completed`. */
  datatype Body = Body(task: JsValue, priority: JsValue, completed: JsValue)

  /** A handler's reply together with the collection after the request. */
  datatype Step<+T> = Step(reply: Reply<T>, todos: seq<Todo>)

  /** The `:id` path parameter after `parseInt`; `None` is NaN. */
  type ParsedId = Option<int>

  /** The priorities a client may set, in the order the service lists them. */
  const AllowedPriorities: seq<JsValue> := [Str("high"), Str("medium"), Str("low")]

  /** The priority given to a new record whose request names none. */
  const DefaultPriority: JsValue := Str("medium")

  /** The collection the process starts with. */
  const Seed: seq<Todo> := [
    Todo(1, Str("Learn Node.js"), false, Str("medium")),
    Todo(2, Str("Build a REST API"), false, Str("medium"))
  ]

  /** `allowedPriorities.includes(v)`. */
  predicate AllowedPriority(v: JsValue) {
    v in AllowedPriorities
  }

  /** `v && !allowedPriorities.includes(v)`: the priority check shared by
      create and update. A falsy priority is never rejected. */
  predicate RejectsPriority(v: JsValue) {
    Truthy(v) && !AllowedPriority(v)
  }

  /** `t.id === id`; NaN equals nothing. */
  predicate Matches(t: Todo, id: ParsedId) {
    id == Some(t.id)
  }

  /** Some record of the collection carries `id`. */
  predicate HasId(todos: seq<Todo>, id: ParsedId) {
    exists i :: 0 <= i < |todos| && Matches(todos[i], id)
  }

  /** `i` is the position of the first record carrying `id`, the one that
      `find` and `findIndex` return. */
  predicate IsFirstMatch(todos: seq<Todo>, id: ParsedId, i: int) {
    && 0 <= i < |todos|
    && Matches(todos[i], id)
    && forall j :: 0 <= j < i ==> !Matches(todos[j], id)
  }

  /** `todos.findIndex(t => t.id === id)`, with `None` for -1. */
  function FindIndex(todos: seq<Todo>, id: ParsedId): (r: Option<nat>)
    ensures r.Some? ==> IsFirstMatch(todos, id, r.value)
    ensures r.None? <==> !HasId(todos, id)
  {
    if |todos| == 0 then None
    else if Matches(todos[0], id) then Some(0)
    else
      match FindIndex(todos[1..], id)
      case None => None
      case Some(k) => Some(k + 1)
  }

  /** `todos.filter(todo => todo.completed === want)`, written as the
      left-to-right scan that appends each matching record. Every record it
      returns matches and comes from the collection, and each matching record
      comes back as many times as the collection holds it, while every other
      record is dropped; `FilterIsOrderedSelection` adds that the original
      order is kept. */
  function Filter(todos: seq<Todo>, want: bool): (r: seq<Todo>)
    ensures |r| <= |todos|
    ensures forall k :: 0 <= k < |r| ==> r[k].completed == want && r[k] in todos
    ensures forall t :: t in todos && t.completed == want ==> t in r
    ensures forall t :: multiset(r)[t] == if t.completed == want then multiset(todos)[t] else 0
  {
    if |todos| == 0 then []
    else
      var init := todos[..|todos| - 1];
      var last := todos[|todos| - 1];
      assert todos == init + [last];
      assert forall t :: t in init ==> t in todos;
      if last.completed == want then Filter(init, want) + [last] else Filter(init, want)
  }

  /** GET /todos: the whole collection when the `completed` query parameter
      is absent, otherwise the records whose `completed` equals the query
      read as a boolean, each as many times as the collection holds it. */
  function List(todos: seq<Todo>, completed: Option<string>): (r: seq<Todo>)
    ensures completed.None? ==> r == todos
    ensures completed.Some? ==> forall t :: t in r ==> t in todos && t.completed == IsTrueText(completed.value)
    ensures completed.Some? ==> forall t :: t in todos && t.completed == IsTrueText(completed.value) ==> t in r
    ensures completed.Some? ==> forall t ::
      multiset(r)[t] == if t.completed == IsTrueText(completed.value) then multiset(todos)[t] else 0
  {
    match completed
    case None => todos
    case Some(q) => Filter(todos, IsTrueText(q))
  }

  /** POST /todos: validates the body, then appends a record numbered one
      past the current length. */
  function Create(todos: seq<Todo>, body: Body): (r: Step<Todo>)
    ensures !Truthy(body.task) ==> r == Step(BadRequest(TaskRequiredText), todos)
    ensures Truthy(body.task) && RejectsPriority(body.priority) ==> r == Step(BadRequest(InvalidPriorityText), todos)
    ensures r.reply.Ok? <==> Truthy(body.task) && !RejectsPriority(body.priority)
    ensures r.reply.Ok? ==>
      && r.todos == todos + [r.reply.value]
      && r.reply.value.id == |todos| + 1
      && r.reply.value.task == body.task
      && !r.reply.value.completed
      && AllowedPriority(r.reply.value.priority)
      && (Truthy(body.priority) ==> r.reply.value.priority == body.priority)
      && (!Truthy(body.priority) ==> r.reply.value.priority == DefaultPriority)
  {
    if !Truthy(body.task) then Step(BadRequest(TaskRequiredText), todos)
    else if RejectsPriority(body.priority) then Step(BadRequest(InvalidPriorityText), todos)
    else
      var t := Todo(|todos| + 1, body.task, false, Or(body.priority, DefaultPriority));
      Step(Ok(t), todos + [t])
  }

  /** The field assignments of PUT /todos/:id: each field the body supplies
      (is not `undefined`) is overwritten; `completed` becomes true exactly
      for the boolean `true` and the text "true". */
  function ApplyUpdate(t: Todo, body: Body): (r: Todo)
    ensures r.id == t.id
    ensures body.task == Undefined ==> r.task == t.task
    ensures body.task != Undefined ==> r.task == body.task
    ensures body.priority == Undefined ==> r.priority == t.priority
    ensures body.priority != Undefined ==> r.priority == body.priority
    ensures body.completed == Undefined ==> r.completed == t.completed
    ensures body.completed != Undefined ==> (r.completed <==> body.completed in {Bool(true), Str("true")})
  {
    var t1 := if body.task != Undefined then t.(task := body.task) else t;
    var t2 := if body.priority != Undefined then t1.(priority := body.priority) else t1;
    if body.completed != Undefined then
      t2.(completed := body.completed == Bool(true) || body.completed == Str("true"))
    else t2
  }

  /** PUT /todos/:id: 404 for an unknown id (checked before the priority),
      400 for a rejected priority, otherwise the first record with that id
      is updated in place. */
  function Update(todos: seq<Todo>, id: ParsedId, body: Body): (r: Step<Todo>)
    ensures !HasId(todos, id) ==> r == Step(NotFound(NotFoundText), todos)
    ensures HasId(todos, id) && RejectsPriority(body.priority) ==> r == Step(BadRequest(InvalidPriorityText), todos)
    ensures r.reply.Ok? <==> HasId(todos, id) && !RejectsPriority(body.priority)
    ensures r.reply.Ok? ==> |r.todos| == |todos|
    ensures forall i :: IsFirstMatch(todos, id, i) && r.reply.Ok? ==>
      && r.reply.value == ApplyUpdate(todos[i], body)
      && r.todos == todos[i := r.reply.value]
  {
    match FindIndex(todos, id)
    case None => Step(NotFound(NotFoundText), todos)
    case Some(i) =>
      if RejectsPriority(body.priority) then Step(BadRequest(InvalidPriorityText), todos)
      else
        var t := ApplyUpdate(todos[i], body);
        Step(Ok(t), todos[i := t])
  }

  /** PUT /todos/complete-all: every record is marked completed; nothing else
      about the collection changes. */
  function CompleteAll(todos: seq<Todo>): (r: seq<Todo>)
    ensures |r| == |todos|
    ensures forall i :: 0 <= i < |todos| ==>
      && r[i].completed
      && r[i].id == todos[i].id
      && r[i].task == todos[i].task
      && r[i].priority == todos[i].priority
  {
    if |todos| == 0 then []
    else [todos[0].(completed := true)] + CompleteAll(todos[1..])
  }

  /** DELETE /todos/:id: 404 for an unknown id, otherwise the first record
      with that id is spliced out. */
  function Delete(todos: seq<Todo>, id: ParsedId): (r: Step<()>)
    ensures !HasId(todos, id) ==> r == Step(NotFound(NotFoundText), todos)
    ensures r.reply.Ok? <==> HasId(todos, id)
    ensures r.reply.Ok? ==> |r.todos| == |todos| - 1
    ensures forall i :: IsFirstMatch(todos, id, i) ==>
      && r.todos == todos[..i] + todos[i + 1..]
      && multiset(r.todos) == multiset(todos) - multiset{todos[i]}
  {
    match FindIndex(todos, id)
    case None => Step(NotFound(NotFoundText), todos)
    case Some(i) =>
      assert todos == todos[..i] + [todos[i]] + todos[i + 1..];
      Step(Ok(()), todos[..i] + todos[i + 1..])
  }
}
