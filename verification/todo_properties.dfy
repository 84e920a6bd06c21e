/** Properties of the to-do store: what listing selects, idempotence of
    filtering and of mark-all-complete, which operations keep the priority
    and id invariants, and the concrete runs in which the store's
    id-by-length numbering and first-match lookups show through. */
module TodoProperties {
  import opened Replies
  import opened JsValues
  import opened TodoStore
  import opened TodoRoutes

  // ---------------------------------------------------------------------
  // Listing
  // ---------------------------------------------------------------------

  /** The positions of `todos` whose record has `completed == want`, in
      increasing order. */
  ghost function MatchingIndices(todos: seq<Todo>, want: bool): seq<int> {
    if |todos| == 0 then []
    else
      var init := MatchingIndices(todos[..|todos| - 1], want);
      if todos[|todos| - 1].completed == want then init + [|todos| - 1] else init
  }

  ghost predicate StrictlyIncreasing(idx: seq<int>) {
    forall a, b :: 0 <= a < b < |idx| ==> idx[a] < idx[b]
  }

  /** `r` lists the records of `todos` at positions `idx`, in that order. */
  ghost predicate PicksAt(r: seq<Todo>, todos: seq<Todo>, idx: seq<int>) {
    && |idx| == |r|
    && forall k :: 0 <= k < |idx| ==> 0 <= idx[k] < |todos| && r[k] == todos[idx[k]]
  }

  /** Filtering picks, in their original order, exactly the records whose
      `completed` field equals `want`: the picked positions increase, and a
      position is picked if and only if its record matches. */
  lemma FilterIsOrderedSelection(todos: seq<Todo>, want: bool)
    ensures StrictlyIncreasing(MatchingIndices(todos, want))
    ensures PicksAt(Filter(todos, want), todos, MatchingIndices(todos, want))
    ensures forall i :: 0 <= i < |todos| ==> (i in MatchingIndices(todos, want) <==> todos[i].completed == want)
  {
    MatchingIndicesIncrease(todos, want);
    FilterPicksMatching(todos, want);
    MatchingIndicesExact(todos, want);
  }

  /** The matching positions lie inside the collection, in increasing order. */
  lemma {:induction false} MatchingIndicesIncrease(todos: seq<Todo>, want: bool)
    ensures forall k :: 0 <= k < |MatchingIndices(todos, want)| ==> 0 <= MatchingIndices(todos, want)[k] < |todos|
    ensures StrictlyIncreasing(MatchingIndices(todos, want))
  {
    if |todos| > 0 {
      MatchingIndicesIncrease(todos[..|todos| - 1], want);
    }
  }

  /** The filter's k-th record sits at the k-th matching position. */
  lemma {:induction false} FilterPicksMatching(todos: seq<Todo>, want: bool)
    ensures PicksAt(Filter(todos, want), todos, MatchingIndices(todos, want))
  {
    if |todos| > 0 {
      var n := |todos|;
      var init := todos[..n - 1];
      FilterPicksMatching(init, want);
      MatchingIndicesIncrease(init, want);
      var idx0 := MatchingIndices(init, want);
      var r0 := Filter(init, want);
      assert forall k :: 0 <= k < |idx0| ==> r0[k] == todos[idx0[k]];
      if todos[n - 1].completed == want {
        assert MatchingIndices(todos, want) == idx0 + [n - 1];
        assert Filter(todos, want) == r0 + [todos[n - 1]];
      }
    }
  }

  /** A position is among the matching positions iff its record matches. */
  lemma {:induction false} MatchingIndicesExact(todos: seq<Todo>, want: bool)
    ensures forall i :: 0 <= i < |todos| ==> (i in MatchingIndices(todos, want) <==> todos[i].completed == want)
  {
    if |todos| > 0 {
      var n := |todos|;
      var init := todos[..n - 1];
      MatchingIndicesExact(init, want);
      MatchingIndicesIncrease(init, want);
      var idx0 := MatchingIndices(init, want);
      assert n - 1 !in idx0;
      assert forall i :: 0 <= i < n - 1 ==> init[i] == todos[i];
    }
  }

  /** A collection whose records all match is kept whole by the filter. */
  lemma {:induction false} FilterKeepsAllMatching(todos: seq<Todo>, want: bool)
    requires forall i :: 0 <= i < |todos| ==> todos[i].completed == want
    ensures Filter(todos, want) == todos
  {
    if |todos| > 0 {
      var init := todos[..|todos| - 1];
      FilterKeepsAllMatching(init, want);
      assert todos == init + [todos[|todos| - 1]];
    }
  }

  /** A collection none of whose records match filters to nothing. */
  lemma {:induction false} FilterDropsAllOthers(todos: seq<Todo>, want: bool)
    requires forall i :: 0 <= i < |todos| ==> todos[i].completed != want
    ensures Filter(todos, want) == []
  {
    if |todos| > 0 {
      FilterDropsAllOthers(todos[..|todos| - 1], want);
    }
  }

  /** Listing with the same query twice in a row gives the same answer: a
      filtered list, listed again under the same filter, is unchanged. */
  lemma FilterIdempotent(todos: seq<Todo>, want: bool)
    ensures Filter(Filter(todos, want), want) == Filter(todos, want)
  {
    FilterKeepsAllMatching(Filter(todos, want), want);
  }

  /** A list request never changes the collection, and without a query it
      answers with the whole collection in order. */
  lemma ListLeavesCollection(todos: seq<Todo>, q: Option<string>)
    ensures Handle(todos, GetTodos(q)).todos == todos
    ensures q.None? ==> Handle(todos, GetTodos(q)).reply == Ok(Items(todos))
  {
  }

  // ---------------------------------------------------------------------
  // Mark all complete
  // ---------------------------------------------------------------------

  /** Marking everything complete twice is the same as doing it once. */
  lemma CompleteAllIdempotent(todos: seq<Todo>)
    ensures CompleteAll(CompleteAll(todos)) == CompleteAll(todos)
  {
    var once := CompleteAll(todos);
    var twice := CompleteAll(once);
    assert forall i :: 0 <= i < |todos| ==> twice[i] == once[i];
  }

  /** After mark-all-complete, listing `completed=true` returns the whole
      collection and any other query returns nothing. */
  lemma ListAfterCompleteAll(todos: seq<Todo>, q: string)
    ensures IsTrueText(q) ==> List(CompleteAll(todos), Some(q)) == CompleteAll(todos)
    ensures !IsTrueText(q) ==> List(CompleteAll(todos), Some(q)) == []
  {
    var all := CompleteAll(todos);
    if IsTrueText(q) {
      FilterKeepsAllMatching(all, true);
    } else {
      FilterDropsAllOthers(all, false);
    }
  }

  // ---------------------------------------------------------------------
  // The priority invariant
  // ---------------------------------------------------------------------

  /** Every record's priority is one of "high", "medium" and "low". */
  predicate PrioritiesAllowed(todos: seq<Todo>) {
    forall i :: 0 <= i < |todos| ==> AllowedPriority(todos[i].priority)
  }

  /** An allowed priority is always a truthy value. */
  lemma AllowedIsTruthy(v: JsValue)
    requires AllowedPriority(v)
    ensures Truthy(v)
  {
  }

  lemma SeedPrioritiesAllowed()
    ensures PrioritiesAllowed(Seed)
  {
  }

  /** Create cannot introduce a bad priority: a falsy one is replaced by
      "medium" and a truthy one must already be allowed. */
  lemma CreateKeepsPrioritiesAllowed(todos: seq<Todo>, body: Body)
    requires PrioritiesAllowed(todos)
    ensures PrioritiesAllowed(Create(todos, body).todos)
  {
  }

  /** A successful update keeps every priority allowed if and only if the
      body's priority is absent or truthy: a defined falsy priority (such as
      `""`, `null`, `0` or `false`) passes validation and is then stored. */
  lemma UpdateKeepsPrioritiesAllowedIff(todos: seq<Todo>, id: ParsedId, body: Body)
    requires PrioritiesAllowed(todos)
    requires Update(todos, id, body).reply.Ok?
    ensures PrioritiesAllowed(Update(todos, id, body).todos)
      <==> (body.priority == Undefined || Truthy(body.priority))
  {
    var i := FindIndex(todos, id).value;
    var after := Update(todos, id, body).todos;
    assert after[i].priority == ApplyUpdate(todos[i], body).priority;
    if body.priority != Undefined && !Truthy(body.priority) {
      if AllowedPriority(after[i].priority) {
        AllowedIsTruthy(after[i].priority);
      }
    }
  }

  /** Deleting the first record with an id shifts every later record down
      by one place and leaves the earlier ones where they were. */
  lemma DeleteShifts(todos: seq<Todo>, id: ParsedId, i: int)
    requires IsFirstMatch(todos, id, i)
    ensures |Delete(todos, id).todos| == |todos| - 1
    ensures forall k :: 0 <= k < |todos| - 1 ==>
      Delete(todos, id).todos[k] == todos[if k < i then k else k + 1]
  {
    var after := Delete(todos, id).todos;
    var front, back := todos[..i], todos[i + 1..];
    assert after == front + back;
    forall k | 0 <= k < |todos| - 1
      ensures after[k] == todos[if k < i then k else k + 1]
    {
      if k < i {
        assert after[k] == front[k];
      } else {
        assert after[k] == back[k - i];
      }
    }
  }

  lemma DeleteKeepsPrioritiesAllowed(todos: seq<Todo>, id: ParsedId)
    requires PrioritiesAllowed(todos)
    ensures PrioritiesAllowed(Delete(todos, id).todos)
  {
    if HasId(todos, id) {
      DeleteShifts(todos, id, FindIndex(todos, id).value);
    }
  }

  /** A request that cannot store a bad priority: anything but an update
      whose body supplies a defined falsy priority. */
  predicate SafeRequest(req: Request) {
    !(req.PutTodo? && req.body.priority != Undefined && !Truthy(req.body.priority))
  }

  lemma HandleKeepsPrioritiesAllowed(todos: seq<Todo>, req: Request)
    requires PrioritiesAllowed(todos)
    requires SafeRequest(req)
    ensures PrioritiesAllowed(Handle(todos, req).todos)
  {
    match req
    case GetTodos(_) =>
    case PostTodo(body) => CreateKeepsPrioritiesAllowed(todos, body);
    case PutTodo(id, body) =>
      if Update(todos, id, body).reply.Ok? {
        UpdateKeepsPrioritiesAllowedIff(todos, id, body);
      }
    case PutCompleteAll =>
    case DeleteTodo(id) => DeleteKeepsPrioritiesAllowed(todos, id);
  }

  /** Over any run of safe requests the priority invariant holds throughout. */
  lemma {:induction false} RunKeepsPrioritiesAllowed(todos: seq<Todo>, reqs: seq<Request>)
    requires PrioritiesAllowed(todos)
    requires forall k :: 0 <= k < |reqs| ==> SafeRequest(reqs[k])
    ensures PrioritiesAllowed(Run(todos, reqs))
    decreases |reqs|
  {
    if |reqs| > 0 {
      HandleKeepsPrioritiesAllowed(todos, reqs[0]);
      RunKeepsPrioritiesAllowed(Handle(todos, reqs[0]).todos, reqs[1..]);
    }
  }

  /** The seed's priorities are allowed, and a single unsafe update already
      stores the empty string as a priority. */
  lemma UpdateCanStoreEmptyPriority()
    ensures Update(Seed, Some(1), Body(Undefined, Str(""), Undefined)).reply.Ok?
    ensures !PrioritiesAllowed(Update(Seed, Some(1), Body(Undefined, Str(""), Undefined)).todos)
  {
    var body := Body(Undefined, Str(""), Undefined);
    assert IsFirstMatch(Seed, Some(1), 0);
    var after := Update(Seed, Some(1), body).todos;
    assert after[0].priority == Str("");
  }

  // ---------------------------------------------------------------------
  // Ids
  // ---------------------------------------------------------------------

  /** Every record's id is at least 1. */
  predicate IdsPositive(todos: seq<Todo>) {
    forall i :: 0 <= i < |todos| ==> todos[i].id >= 1
  }

  /** No two records share an id. */
  predicate IdsUnique(todos: seq<Todo>) {
    forall i, j :: 0 <= i < j < |todos| ==> todos[i].id != todos[j].id
  }

  lemma DeleteKeepsIdsPositive(todos: seq<Todo>, id: ParsedId)
    requires IdsPositive(todos)
    ensures IdsPositive(Delete(todos, id).todos)
  {
    if HasId(todos, id) {
      DeleteShifts(todos, id, FindIndex(todos, id).value);
    }
  }

  lemma HandleKeepsIdsPositive(todos: seq<Todo>, req: Request)
    requires IdsPositive(todos)
    ensures IdsPositive(Handle(todos, req).todos)
  {
    match req
    case GetTodos(_) =>
    case PostTodo(body) =>
    case PutTodo(id, body) =>
    case PutCompleteAll =>
    case DeleteTodo(id) => DeleteKeepsIdsPositive(todos, id);
  }

  /** Ids stay positive over every run of requests, whatever they are. */
  lemma {:induction false} RunKeepsIdsPositive(todos: seq<Todo>, reqs: seq<Request>)
    requires IdsPositive(todos)
    ensures IdsPositive(Run(todos, reqs))
    decreases |reqs|
  {
    if |reqs| > 0 {
      HandleKeepsIdsPositive(todos, reqs[0]);
      RunKeepsIdsPositive(Handle(todos, reqs[0]).todos, reqs[1..]);
    }
  }

  /** Every collection reachable from the seed has positive ids. */
  lemma SeedRunsKeepIdsPositive(reqs: seq<Request>)
    ensures IdsPositive(Run(Seed, reqs))
  {
    assert IdsPositive(Seed);
    RunKeepsIdsPositive(Seed, reqs);
  }

  /** Every run of safe requests from the seed keeps all priorities allowed. */
  lemma SeedRunsKeepPrioritiesAllowed(reqs: seq<Request>)
    requires forall k :: 0 <= k < |reqs| ==> SafeRequest(reqs[k])
    ensures PrioritiesAllowed(Run(Seed, reqs))
  {
    SeedPrioritiesAllowed();
    RunKeepsPrioritiesAllowed(Seed, reqs);
  }

  /** After any run, the collection holds the records it started with, plus
      one per successful create, minus one per successful delete. */
  lemma {:induction false} RunLength(todos: seq<Todo>, reqs: seq<Request>)
    ensures |Run(todos, reqs)| + DeletesIn(todos, reqs) == |todos| + CreatesIn(todos, reqs)
    decreases |reqs|
  {
    if |reqs| > 0 {
      RunLength(Handle(todos, reqs[0]).todos, reqs[1..]);
    }
  }

  /** A successful create keeps ids unique exactly when no live record
      already carries the new id `length + 1`. */
  lemma CreateKeepsIdsUniqueIff(todos: seq<Todo>, body: Body)
    requires IdsUnique(todos)
    requires Create(todos, body).reply.Ok?
    ensures IdsUnique(Create(todos, body).todos) <==> !HasId(todos, Some(|todos| + 1))
  {
    var after := Create(todos, body).todos;
    var n := |todos|;
    assert after[n].id == n + 1;
    if HasId(todos, Some(n + 1)) {
      var i :| 0 <= i < n && Matches(todos[i], Some(n + 1));
      assert after[i].id == after[n].id;
    }
  }

  /** With unique ids, a delete leaves no record with the deleted id. */
  lemma DeleteUniqueIdRemovesIt(todos: seq<Todo>, id: ParsedId)
    requires IdsUnique(todos)
    ensures !HasId(Delete(todos, id).todos, id)
  {
    if HasId(todos, id) {
      DeleteShifts(todos, id, FindIndex(todos, id).value);
    }
  }

  /** Deleting the record just created undoes the create, provided the new
      id was not already in use; otherwise the older record would go. */
  lemma CreateThenDeleteRestores(todos: seq<Todo>, body: Body)
    requires Create(todos, body).reply.Ok?
    requires !HasId(todos, Some(|todos| + 1))
    ensures Delete(Create(todos, body).todos, Some(|todos| + 1)) == Step(Ok(()), todos)
  {
    var after := Create(todos, body).todos;
    var n := |todos|;
    assert IsFirstMatch(after, Some(n + 1), n);
    assert after[..n] == todos;
  }

  /** From the seed, deleting id 1 leaves only the record with id 2 ... */
  lemma DeleteFirstSeed()
    ensures Delete(Seed, Some(1)) == Step(Ok(()), [Seed[1]])
  {
    assert IsFirstMatch(Seed, Some(1), 0);
  }

  /** ... and creating a record then numbers it 2 as well: ids are no longer
      unique. */
  lemma DeleteThenCreateDuplicatesId()
    ensures var created := Create(Delete(Seed, Some(1)).todos, Body(Str("Write docs"), Undefined, Undefined));
            && created.reply.Ok?
            && created.reply.value.id == 2
            && created.todos[0].id == 2
            && !IdsUnique(created.todos)
  {
    DeleteFirstSeed();
    CreateOnSurvivor();
    var created := Create([Seed[1]], Body(Str("Write docs"), Undefined, Undefined));
    assert created.todos[0].id == created.todos[1].id;
  }

  /** The create step of that run, on the one surviving seed record. */
  lemma CreateOnSurvivor()
    ensures Create([Seed[1]], Body(Str("Write docs"), Undefined, Undefined))
      == Step(Ok(Todo(2, Str("Write docs"), false, Str("medium"))), [Seed[1], Todo(2, Str("Write docs"), false, Str("medium"))])
  {
  }

  /** In that collection an update or a delete of id 2 reaches only the
      older record, the first one with that id. */
  lemma DuplicateIdReachesFirstOnly()
    ensures var dup := [Seed[1], Todo(2, Str("Write docs"), false, Str("medium"))];
            && Update(dup, Some(2), Body(Undefined, Undefined, Bool(true))).todos
               == [Seed[1].(completed := true), dup[1]]
            && Delete(dup, Some(2)).todos == [dup[1]]
  {
    var dup := [Seed[1], Todo(2, Str("Write docs"), false, Str("medium"))];
    assert IsFirstMatch(dup, Some(2), 0);
  }

  // ---------------------------------------------------------------------
  // An end-to-end run
  // ---------------------------------------------------------------------

  /** The first step of the end-to-end example below: "Buy milk" gets id 3
      and the default priority. */
  lemma WalkCreate()
    ensures Create(Seed, Body(Str("Buy milk"), Undefined, Undefined))
      == Step(Ok(Todo(3, Str("Buy milk"), false, Str("medium"))), Seed + [Todo(3, Str("Buy milk"), false, Str("medium"))])
  {
  }

  /** Completing id 3 and then deleting id 1. */
  lemma WalkUpdateDelete()
    ensures Update(Seed + [Todo(3, Str("Buy milk"), false, Str("medium"))], Some(3), Body(Undefined, Undefined, Bool(true)))
      == Step(Ok(Todo(3, Str("Buy milk"), true, Str("medium"))), Seed + [Todo(3, Str("Buy milk"), true, Str("medium"))])
    ensures Delete(Seed + [Todo(3, Str("Buy milk"), true, Str("medium"))], Some(1))
      == Step(Ok(()), [Seed[1], Todo(3, Str("Buy milk"), true, Str("medium"))])
  {
    var s1 := Seed + [Todo(3, Str("Buy milk"), false, Str("medium"))];
    assert IsFirstMatch(s1, Some(3), 2);
    var s2 := Seed + [Todo(3, Str("Buy milk"), true, Str("medium"))];
    assert IsFirstMatch(s2, Some(1), 0);
    assert s2[..0] + s2[1..] == [Seed[1], Todo(3, Str("Buy milk"), true, Str("medium"))];
  }

  /** Listing the open items after the create returns all three records. */
  lemma WalkListOpen()
    ensures List(Seed + [Todo(3, Str("Buy milk"), false, Str("medium"))], Some("false"))
      == Seed + [Todo(3, Str("Buy milk"), false, Str("medium"))]
  {
    IsTrueTextIff("false");
    FilterKeepsAllMatching(Seed + [Todo(3, Str("Buy milk"), false, Str("medium"))], false);
  }

  /** Listing the completed items at the end returns only the milk record. */
  lemma WalkListDone()
    ensures List([Seed[1], Todo(3, Str("Buy milk"), true, Str("medium"))], Some("true"))
      == [Todo(3, Str("Buy milk"), true, Str("medium"))]
  {
    IsTrueTextIff("true");
    var done := Todo(3, Str("Buy milk"), true, Str("medium"));
    var s3 := [Seed[1], done];
    assert s3[..1] == [Seed[1]];
    assert Filter([Seed[1]], true) == [] by {
      FilterDropsAllOthers([Seed[1]], true);
    }
    assert Filter(s3, true) == Filter([Seed[1]], true) + [done];
  }

  /** An end-to-end example: create "Buy milk" (id 3, priority medium),
      list the open items (ids 1, 2, 3), complete id 3, delete id 1, and list
      the completed items (only id 3). */
  lemma Walkthrough()
    ensures var s1 := Create(Seed, Body(Str("Buy milk"), Undefined, Undefined));
            var s2 := Update(s1.todos, Some(3), Body(Undefined, Undefined, Bool(true)));
            var s3 := Delete(s2.todos, Some(1));
            && s1.reply == Ok(Todo(3, Str("Buy milk"), false, Str("medium")))
            && List(s1.todos, Some("false")) == s1.todos
            && |s1.todos| == 3
            && s2.reply == Ok(Todo(3, Str("Buy milk"), true, Str("medium")))
            && s3.reply.Ok?
            && List(s3.todos, Some("true")) == [Todo(3, Str("Buy milk"), true, Str("medium"))]
  {
    WalkCreate();
    WalkUpdateDelete();
    WalkListOpen();
    WalkListDone();
  }
}
