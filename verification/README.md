# In-memory to-do store, modelled in Dafny

The service keeps an ordered, process-wide list of to-do records
`{id, task, completed, priority}`. It starts with two seed records, ids 1
and 2. It answers five routes:

- `GET /todos` lists the records, optionally filtered by a `completed`
  query parameter.
- `POST /todos` validates the body and appends a new record.
- `PUT /todos/:id` updates the first record with that id.
- `PUT /todos/complete-all` marks every record completed.
- `DELETE /todos/:id` removes the first record with that id.

The model drops the HTTP layer. Each handler becomes a pure function from
the current collection and the request's decoded inputs to a `Step`: a reply
(`Ok`, `BadRequest` or `NotFound`, with the service's message texts) plus the
collection after the request.

Files and modules:

- `replies.dfy` (`Replies`): `Option`, the `Reply` datatype and the message texts.
- `js_values.dfy` (`JsValues`): the JSON values a body field can hold, and
  JavaScript truthiness. Also `toLowerCase` as used on the query parameter.
- `todo_store.dfy` (`TodoStore`): the `Todo` record, the seed, the allowed
  priorities, and the five handlers `List`, `Create`, `Update`,
  `CompleteAll` and `Delete`.
- `todo_routes.dfy` (`TodoRoutes`): a `Request` per route, the dispatcher
  `Handle`, and `Run`, which applies a sequence of requests one after another.
- `todo_properties.dfy` (`TodoProperties`): lemmas about the handlers and
  about runs of requests.

The model keeps three behaviours of the code rather than correcting them.

- New ids are `length + 1`. After a delete, a create can reuse a live id
  (`DeleteThenCreateDuplicatesId`). Uniqueness holds only while the new id
  is unused (`CreateKeepsIdsUniqueIff`).
- Update rejects only a *truthy* priority outside high/medium/low. Any
  priority that is not `undefined` is then stored. So `""`, `null`, `0` or
  `false` can become a record's priority (`UpdateCanStoreEmptyPriority`,
  `UpdateKeepsPrioritiesAllowedIff`). Create is safe, because a falsy
  priority defaults to "medium".
- `find` and `findIndex` act on the first record with an id only
  (`FindIndex`, `DuplicateIdReachesFirstOnly`).

In three places the service evidently intends more than its code does. The
model follows the code in each case:

- Ids are meant to be unique at all times. In the code they are not.
- A priority is meant to always be one of the three allowed values. In the
  code, an update can break this.
- A task is meant to be non-empty text. The code accepts any truthy JSON value
  as a task, for example a number or an object. An update may then store any
  value that is not `undefined`, even an empty string or `null`.

A note on routing: the running application registers `PUT /todos/:id` before
`PUT /todos/complete-all`. So a request to `/todos/complete-all` is caught by
the `:id` route. `parseInt("complete-all")` is NaN, and the reply is 404. The
model gives mark-all-complete its own `Request` constructor (`PutCompleteAll`)
and models the handler body as written.

## Model

| member | source | states |
|---|---|---|
| JsValues.FalsyValues | index.js:31 | Of the values a JSON body can carry, exactly `undefined`, `null`, `false`, `0` and `""` fail the `!task` / `priority &&` tests. |
| JsValues.ToLower | index.js:22 | Lower-casing leaves no capital A-Z, and each one becomes its small letter. In the model the length and every other character are kept, a narrowing of JavaScript's full Unicode lower-casing that is recorded under Left out. |
| JsValues.ToLowerIdempotent | index.js:22 | Lower-casing an already lower-cased text changes nothing. |
| JsValues.IsTrueTextIff | index.js:22 | The `completed` query reads as true exactly when it spells "true" in any mix of upper and lower case. Every other text reads as false. |
| TodoStore.FindIndex | index.js:84 | The index returned holds the first record whose id equals the parsed id. No index is returned exactly when no record has that id. NaN never matches. |
| TodoStore.Filter | index.js:23 | The filter result is no longer than the collection. Every record in it is in the collection and has `completed` equal to the wanted value. Every record of the collection whose `completed` equals the wanted value is in the result, as many times as the collection holds it; every other record occurs zero times. |
| TodoStore.List | index.js:18-25 | With no query, the whole collection comes back in order. With a query, exactly the records of the collection whose `completed` matches the query read as a boolean come back, each as many times as the collection holds it. |
| TodoStore.Create | index.js:28-47 | A falsy task gives 400 "Task is required." A truthy priority outside the allowed set gives 400 "Invalid priority value." In both cases the collection is unchanged. Otherwise exactly one record is appended. It has id length+1, the given task, completed false, and the supplied priority if truthy, else "medium". Its priority is therefore always allowed. |
| TodoStore.ApplyUpdate | index.js:64-68 | The id is kept. Each of task, priority and completed is overwritten exactly when the body supplies it (it is not undefined). completed becomes true exactly for boolean true or the text "true". |
| TodoStore.Update | index.js:50-71 | An unknown id gives 404 and no change, even with a bad priority. A known id with a rejected priority gives 400 and no change. Success happens exactly in the remaining case. Then only the first record with the id is replaced, by its updated copy, and the length is kept. |
| TodoStore.CompleteAll | index.js:74-79 | Every record becomes completed. Length, order, ids, tasks and priorities are kept. |
| TodoStore.Delete | index.js:82-90 | An unknown id gives 404 and no change. A known id removes exactly the first record with that id. The collection shrinks by one, and the records before and after it keep their order. |
| TodoRoutes.Handle | index.js:18-90 | A failed request never changes the collection. A list request always succeeds and changes nothing. Mark-all-complete always answers with its confirmation. Only a successful create grows the collection (by one), and only a successful delete shrinks it (by one). |
| TodoProperties.FilterIsOrderedSelection | index.js:23 | The filtered list picks records at strictly increasing positions. A position is picked if and only if its record's `completed` equals the wanted value. |
| TodoProperties.FilterKeepsAllMatching | index.js:23 | If every record matches, the filter returns the collection unchanged. |
| TodoProperties.FilterDropsAllOthers | index.js:23 | If no record matches, the filter returns the empty list. |
| TodoProperties.FilterIdempotent | index.js:23 | Filtering an already filtered list by the same value changes nothing. |
| TodoProperties.ListLeavesCollection | index.js:19-20 | A list request leaves the collection as it was. Without a query, its reply is the whole collection. |
| TodoProperties.CompleteAllIdempotent | index.js:75-77 | Marking all complete twice gives the same collection as doing it once. |
| TodoProperties.ListAfterCompleteAll | index.js:75-77 | After mark-all-complete, listing with a "true" query returns the whole collection. Any other query returns nothing. |
| TodoProperties.AllowedIsTruthy | index.js:9 | Every allowed priority is truthy, so the "medium" default never replaces it. |
| TodoProperties.SeedPrioritiesAllowed | index.js:12-15 | Both seed records have an allowed priority. |
| TodoProperties.CreateKeepsPrioritiesAllowed | index.js:35-42 | Create never stores a priority outside high/medium/low. |
| TodoProperties.UpdateKeepsPrioritiesAllowedIff | index.js:60-65 | Assume every priority is allowed and the update succeeds. Then every priority is still allowed if and only if the body's priority is absent or truthy. |
| TodoProperties.UpdateCanStoreEmptyPriority | index.js:60-65 | Updating seed record 1 with priority "" succeeds and leaves a record whose priority is not allowed. |
| TodoProperties.DeleteShifts | index.js:84-88 | After deleting the record at the first matching position, the records before it keep their places. Each later record moves down by one. |
| TodoProperties.DeleteKeepsPrioritiesAllowed | index.js:84-88 | Delete never introduces a priority outside the allowed set. |
| TodoProperties.HandleKeepsPrioritiesAllowed | index.js:18-90 | Every request except an update with a defined falsy priority keeps all priorities allowed. |
| TodoProperties.RunKeepsPrioritiesAllowed | index.js:18-90 | Over any sequence of such requests, all priorities stay allowed. |
| TodoProperties.SeedRunsKeepPrioritiesAllowed | index.js:12-15 | Starting from the seed, every run of such requests leaves all priorities allowed. |
| TodoProperties.DeleteKeepsIdsPositive | index.js:84-88 | Delete keeps every id at least 1. |
| TodoProperties.HandleKeepsIdsPositive | index.js:18-90 | Every request keeps every id at least 1. |
| TodoProperties.RunKeepsIdsPositive | index.js:18-90 | Any sequence of requests keeps every id at least 1. |
| TodoProperties.SeedRunsKeepIdsPositive | index.js:12-15 | Every collection reachable from the seed has only positive ids. |
| TodoProperties.RunLength | index.js:18-90 | After any sequence of requests, the collection's size is its starting size plus the successful creates minus the successful deletes. |
| TodoProperties.CreateKeepsIdsUniqueIff | index.js:40 | Assume ids are unique and the create succeeds. Then ids are still unique if and only if no live record already has the id length+1. |
| TodoProperties.DeleteUniqueIdRemovesIt | index.js:84-88 | When ids are unique, no record with the deleted id remains afterwards. |
| TodoProperties.CreateThenDeleteRestores | index.js:39-45 | Suppose the new id was unused. Then deleting the record just created gives back the original collection. |
| TodoProperties.DeleteFirstSeed | index.js:82-90 | Deleting id 1 from the seed succeeds and leaves only the record with id 2. |
| TodoProperties.DeleteThenCreateDuplicatesId | index.js:40 | From the seed, delete id 1 and then create a record. The new record gets id 2, the id of the surviving record, so ids are no longer unique. |
| TodoProperties.DuplicateIdReachesFirstOnly | index.js:50-90 | Take a collection with two records of id 2. Updating id 2 changes only the first of them, and deleting id 2 removes only the first. |
| TodoProperties.Walkthrough | index.js:18-90 | An end-to-end example. From the seed, creating "Buy milk" gives id 3 with priority medium, and listing open items returns all three records. Completing id 3 succeeds, deleting id 1 succeeds, and listing completed items then returns only id 3. |

## Left out

- Express setup, JSON body parsing, `app.listen` and logging (index.js:1-6, 93-95). These are transport and I/O. A request arrives already decoded as a `Request`.
- HTTP status codes and response serialisation. The replies `Ok`, `BadRequest` (400) and `NotFound` (404) stand in for them. Serialisation copies every reply, so the in-place mutation of the JavaScript object that `PUT` returns cannot be observed. The model returns the updated record as a value.
- `parseInt` on the path parameter (index.js:51, 83). The model takes the parsed id as `Option<int>`, where `None` is NaN and matches no record. How a path text parses, for example `"3abc"` giving 3, belongs to the caller.
- Express route ordering. The shadowing of `PUT /todos/complete-all` by `PUT /todos/:id` is described above but not modelled.
- Query values sent as arrays or objects. On those, `toLowerCase` would throw. The query is modelled as an optional string.
- Concurrent requests. Requests are handled one at a time, as `Run` applies them.
- JsValues.ToLower: lower-cases the ASCII capitals A-Z only and keeps every other character unchanged. JavaScript's `toLowerCase` also lower-cases non-ASCII capitals ("É" becomes "é"), and it can lengthen the text ("İ" becomes "i" followed by a combining dot, two code units). `IsTrueText` and `IsTrueTextIff` are unaffected, because only T, R, U and E lower-case to t, r, u and e.
- JSON numbers are modelled as reals, not IEEE doubles. Only their truthiness and their inequality to strings and booleans matter to the handlers. `Num(n)` stands for the value JSON parsing produces, not the literal read as an exact real. For example, `1e-400` parses to 0, so `{"task": 1e-400}` is falsy and gets 400, and it must be given as `Num(0.0)`. How a numeric literal is rounded is left to the decoder.
- `Object` merges every JSON array and object into one constant that is truthy and unequal to any string or boolean. So the contents of an object-valued task or priority, which a later list request echoes back, are not modelled.
- TodoStore.Filter: its own contract states membership in both directions and the multiplicity of every record, but not order. That the original order is kept is stated by `FilterIsOrderedSelection`.
- TodoStore.List: with a query, its own contract states membership in both directions and the multiplicity of every record, but not order. That the original order is kept is stated by `FilterIsOrderedSelection`.
