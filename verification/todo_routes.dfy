/** The service's request surface: one request of each route, a dispatcher
    that hands it to the matching handler, and runs of requests applied one
    after another to the shared collection. */
module TodoRoutes {
  import opened Replies
  import opened TodoStore

  /** A request after transport decoding. Each route is its own constructor,
      so the dispatch order of the underlying router plays no part here. */
  datatype Request =
    | GetTodos(completed: Option<string>)
    | PostTodo(body: Body)
    | PutTodo(id: ParsedId, body: Body)
    | PutCompleteAll
    | DeleteTodo(id: ParsedId)

  /** What a successful reply carries. */
  datatype Payload =
    | Items(items: seq<Todo>)
    | Item(item: Todo)
    | Message(text: string)
    | NoContent

  /** Handles one request against the collection. Failed requests never
      change the collection; only a successful create grows it and only a
      successful delete shrinks it. */
  function Handle(todos: seq<Todo>, req: Request): (r: Step<Payload>)
    ensures r.reply.IsError() ==> r.todos == todos
    ensures req.GetTodos? ==> r.reply.Ok? && r.todos == todos
    ensures req.PutCompleteAll? ==> r.reply == Ok(Message(CompletedAllText))
    ensures req.PostTodo? && r.reply.Ok? ==> |r.todos| == |todos| + 1
    ensures req.DeleteTodo? && r.reply.Ok? ==> |r.todos| == |todos| - 1
    ensures !req.PostTodo? && !req.DeleteTodo? ==> |r.todos| == |todos|
  {
    match req
    case GetTodos(q) => Step(Ok(Items(List(todos, q))), todos)
    case PostTodo(body) =>
      var s := Create(todos, body);
      Step(MapReply(s.reply, t => Item(t)), s.todos)
    case PutTodo(id, body) =>
      var s := Update(todos, id, body);
      Step(MapReply(s.reply, t => Item(t)), s.todos)
    case PutCompleteAll => Step(Ok(Message(CompletedAllText)), CompleteAll(todos))
    case DeleteTodo(id) =>
      var s := Delete(todos, id);
      Step(MapReply(s.reply, _ => NoContent), s.todos)
  }

  /** The collection after handling `reqs` in order, one at a time. */
  function Run(todos: seq<Todo>, reqs: seq<Request>): seq<Todo>
    decreases |reqs|
  {
    if |reqs| == 0 then todos else Run(Handle(todos, reqs[0]).todos, reqs[1..])
  }

  /** How many requests of `reqs`, handled in order from `todos`, are
      successful creates. */
  function CreatesIn(todos: seq<Todo>, reqs: seq<Request>): nat
    decreases |reqs|
  {
    if |reqs| == 0 then 0
    else
      var s := Handle(todos, reqs[0]);
      (if reqs[0].PostTodo? && s.reply.Ok? then 1 else 0) + CreatesIn(s.todos, reqs[1..])
  }

  /** How many requests of `reqs`, handled in order from `todos`, are
      successful deletes. */
  function DeletesIn(todos: seq<Todo>, reqs: seq<Request>): nat
    decreases |reqs|
  {
    if |reqs| == 0 then 0
    else
      var s := Handle(todos, reqs[0]);
      (if reqs[0].DeleteTodo? && s.reply.Ok? then 1 else 0) + DeletesIn(s.todos, reqs[1..])
  }
}
