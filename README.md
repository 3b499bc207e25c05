# User service store, modelled in Dafny

The User service answers four RPC calls (get the users, add a user, update a
user, delete a user) over an in-memory, ordered list of `User` records
(`id`, `name`, `email`, `status`, `created_at`). It is implemented twice with
the same semantics: the Python `UserServiceServicer` and the Node.js
`userService` object. This project models both servers and proves the
behaviour their calls promise.

- `user_store.dfy`, module `UserStore`: the record and reply types, and the
  rules both servers share:
  - creation defaults an empty status to `"active"`;
  - update merges field by field, where an empty incoming string keeps the
    old value and `id` and `created_at` are always kept;
  - the first-match search by id (`FindIndex`, with `-1` for "none");
  - the list each mutating call leaves behind (`Added`, `Updated`, `Deleted`).

  It also proves lemmas about these rules and about whole runs of calls.
- `python_server.dfy`, module `PythonServer`: the class
  `UserServiceServicer` with a `users: seq<User>` field. It holds the
  twelve-record seed, the four methods, and the enumerate-and-break scan as a
  loop method proved equal to `FindIndex`. It ends with the walk-through
  scenario (add "Zed", set user 2 inactive, delete user 2 twice).
- `node_server.dfy`, module `NodeServer`: the class `UserService`. Its field
  stands for the module-level `users` array. It holds the two-record seed and
  the four handlers, which use `FindIndex` the way the source uses
  `Array.prototype.findIndex`.
- `parity.dfy`, module `Parity`: client methods showing the two servers give
  the same reply and the same new list for every call, when they start from
  the same list.

Some values in the source come from outside the program:
- the generated id (`uuid.uuid4()`, `uuidv4()`);
- each clock reading (`time.time()`, `Date.now()`; one per seed record and one
  per add).

These are parameters here. `AddUser` does not require its id to be fresh.
Its contract says the no-duplicate-ids invariant (`Valid`) survives when the
id is fresh, and `RunKeepsIdsDistinct` extends that to any run of calls.

The Python servicer's comment calls its storage "same as Node.js version"
(python-server/server.py:28), but the two seeds differ, and the model keeps
each as written:
- the Python seed has twelve records (python-server/server.py:29-114), the
  Node.js seed two (nodejs-server/server.js:19-34);
- the first user is "John Dower" in the Python seed
  (python-server/server.py:32) and "John Doe" in the Node.js one
  (nodejs-server/server.js:22).

## Model

| member | source | states |
|---|---|---|
| UserStore.OrElse | nodejs-server/server.js:48 | a non-empty string wins and an empty one falls back; the result is empty only when both operands are |
| UserStore.NewUser | python-server/server.py:123-129 | the new record takes id and timestamp from the server, name and email from the request, and the request's status or "active" when it is empty; its status is never empty |
| UserStore.NewUserIgnoresClientIdentity | python-server/server.py:123-129 | the id and created_at a caller puts in an add request have no influence on the record created |
| UserStore.Merge | python-server/server.py:150-157 | the merged record keeps id and created_at; each of name, email and status is the request's if non-empty, else the existing one |
| UserStore.MergeBlankRequestIsIdentity | python-server/server.py:151-157 | an update carrying only empty fields leaves the record as it was |
| UserStore.MergeIdempotent | python-server/server.py:151-157 | applying the same update twice gives the same record as applying it once |
| UserStore.MergeStatusOnly | python-server/server.py:151-157 | an update with only a status changes the status and nothing else |
| UserStore.MergeNeverClears | python-server/server.py:153-155 | an update can never set a non-empty name, email or status to empty |
| UserStore.FindIndex | nodejs-server/server.js:58 | the result is -1 exactly when no record has the id; otherwise it is an in-range index whose record has the id, and no earlier record has it |
| UserStore.FindIndexOfUniqueId | python-server/server.py:138-142 | when ids are distinct, the search for a record's id finds exactly that record |
| UserStore.RemovedAt | python-server/server.py:177 | removing at i shortens the list by one, keeps the records before i, and shifts the records after i down by one, so their relative order is kept |
| UserStore.RemovedAtMultiset | python-server/server.py:177 | removing at i loses exactly the record at i and no other (as multisets) |
| UserStore.Added | python-server/server.py:131 | appending keeps the old list as a prefix, and the new record comes last |
| UserStore.AddedKeepsIdsDistinct | python-server/server.py:123-131 | appending a record whose id is not yet present keeps all ids distinct |
| UserStore.Updated | python-server/server.py:138-159 | the list after an update keeps its length; an unknown id leaves it unchanged; otherwise the first match holds its merge with the request, still with the requested id, and every other index is unchanged |
| UserStore.Deleted | python-server/server.py:166-177 | the list after a delete is unchanged for an unknown id; otherwise it is one shorter, with the records before the first match kept and the ones after it shifted down in order |
| UserStore.Step | python-server/server.py:116-179 | one served call: a get leaves the list alone, an add grows it by one keeping the old list as prefix, an update keeps its length, a delete shrinks it by one exactly when the id is present and otherwise leaves it unchanged |
| UserStore.RunAppend | python-server/server.py:116-179 | the composition law of serialised calls (the concatenation law of a left fold over Step): serving two batches one after the other gives the same list as serving their concatenation |
| UserStore.UpdatedFrame | python-server/server.py:150-159 | an update keeps the length and the ids; an unknown id changes nothing; only the first match is replaced, by its merge |
| UserStore.UpdatedKeepsIdsDistinct | python-server/server.py:150-159 | an update keeps all ids distinct |
| UserStore.RemovedAtKeepsIdsDistinct | python-server/server.py:177 | removing a record from a list with distinct ids keeps them distinct, and the removed id no longer occurs |
| UserStore.DeletedRemovesFirstMatch | python-server/server.py:166-177 | deleting a present id removes exactly the first match, with the rest in order; the list shrinks by one; with distinct ids, the id is then gone |
| UserStore.RunKeepsIdsDistinct | python-server/server.py:116-179 | any sequence of calls in which each add gets an id absent at that moment keeps all ids distinct |
| UserStore.RunOfAdds | python-server/server.py:121-133 | after N adds and nothing else, the earlier records come first and the N new records follow in the order added |
| PythonServer.Seed | python-server/server.py:29-114 | the seed has 12 records with ids "1" to "12" in order; each record's created_at is its own clock reading, and each status is "active" or "inactive" |
| PythonServer.SeedIdsDistinct | python-server/server.py:29-114 | the twelve seed ids are pairwise distinct |
| PythonServer.UserServiceServicer.constructor | python-server/server.py:27-114 | the servicer starts with the seed list, and its ids are distinct |
| PythonServer.UserServiceServicer.GetUsers | python-server/server.py:116-119 | returns the current list as it is, and changes nothing |
| PythonServer.UserServiceServicer.AddUser | python-server/server.py:121-133 | appends exactly one record (built by NewUser) at the end and returns it; with a fresh id the ids stay distinct |
| PythonServer.UserServiceServicer.FindUserIndex | python-server/server.py:138-142 | the loop (also run at lines 166-170 of the same file) returns the index of the first record with the id, or -1 when there is none |
| PythonServer.UserServiceServicer.UpdateUser | python-server/server.py:135-161 | unknown id: NOT_FOUND with "User not found", list unchanged; otherwise only the first match is replaced by its merge, the length stays the same, and the stored record is returned; distinct ids stay distinct |
| PythonServer.UserServiceServicer.DeleteUser | python-server/server.py:163-179 | unknown id: NOT_FOUND with "User not found", list unchanged; otherwise the first match is popped, the rest keep their order, and the length drops by one; with distinct ids, the id is then gone |
| PythonServer.Scenario | python-server/server.py:121-179 | walk-through: the added user is active with the given id; user 2 keeps "Jane Smith" and becomes inactive; the first delete succeeds, the second is NOT_FOUND; 12 records remain, without "2" and with the new user last |
| NodeServer.Seed | nodejs-server/server.js:19-34 | the array starts with two active records with distinct ids "1" and "2", each with its own clock reading |
| NodeServer.UserService.constructor | nodejs-server/server.js:19-34 | the service starts with the two-record seed, and its ids are distinct |
| NodeServer.UserService.GetUsers | nodejs-server/server.js:38-41 | answers with the current array, and changes nothing |
| NodeServer.UserService.AddUser | nodejs-server/server.js:43-55 | pushes exactly one record at the end, with the status the request's or else "active", and answers with it; with a fresh id the ids stay distinct |
| NodeServer.UserService.UpdateUser | nodejs-server/server.js:57-76 | no index found: NOT_FOUND, array untouched; otherwise only index `userIndex` is replaced by the spread-and-or merge, and that element is the answer |
| NodeServer.UserService.DeleteUser | nodejs-server/server.js:78-91 | no index found: NOT_FOUND, array untouched; otherwise exactly the first match is spliced out, and the rest keep their order |
| Parity.GetUsersAgree | python-server/server.py:116-119 | with nodejs-server/server.js:38-41: from the same list, both servers list the same records |
| Parity.AddUserAgrees | python-server/server.py:121-133 | with nodejs-server/server.js:43-55: from the same list and inputs, both servers create the same record, with the same "active" default, and hold the same list afterwards |
| Parity.UpdateUserAgrees | python-server/server.py:135-161 | with nodejs-server/server.js:57-76: from the same list, both servers give the same reply (NOT_FOUND exactly for an unknown id) and hold the same list afterwards |
| Parity.DeleteUserAgrees | python-server/server.py:163-179 | with nodejs-server/server.js:78-91: from the same list, both servers give the same reply (NOT_FOUND exactly for an unknown id) and hold the same list afterwards |

## Left out

- `serve()`, the thread-pool gRPC server, and the Node.js `grpc.Server` /
  `bindAsync` port binding: these are network I/O and concurrent dispatch.
  The model assumes calls are served one at a time, which is what `Run`
  describes.
- The id generators (`uuid.uuid4`, `uuidv4`) and the clocks (`time.time`,
  `Date.now`): their values are parameters. Randomness and wall-clock time
  are not modelled, and neither is the float-to-integer conversion
  `int(time.time() * 1000)`.
- Logging (`print`, `console.log`).
- gRPC status mechanics: `context.set_code` / `set_details` and the Node.js
  error callback become the `NotFound("User not found")` reply. On NOT_FOUND
  the Python handlers also return an empty `User()` / `Empty()` message; the
  caller never sees it, so it is not modelled.
- Protobuf messages and their wire encoding: a request is a `User` value, and
  a delete request is its id string. Fields absent from a request are empty
  strings, as proto3 defaults (and `defaults: true` in the Node.js loader)
  make them.
- `python-server/start_server.py`, `python-server/generate_protobuf.py`,
  `electron-client/main.js` and `electron-client/preload.js`: these are
  bootstrap, code generation and client glue with no store logic.
- JavaScript object identity: `getUsers` answers with the array itself, not a
  copy. Aliasing between the answer and later mutations is not modelled,
  because the answer is serialised before any other call runs.
