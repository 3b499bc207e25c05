/**
 * The state machine shared by both servers of the User service: the User
 * record, the rules for defaulting and merging its fields, the first-match
 * search by id, and the list each of the three mutating calls leaves behind.
 * The Python and the Node.js servers are both proved against these functions.
 */
module UserStore {

  /** One user record, as the RPC schema's `User` message carries it. */
  datatype User = User(id: string, name: string, email: string, status: string, createdAt: int)

  /** The reply of a call that can fail: the value, or the NOT_FOUND status with its details. */
  datatype Result<T> = Ok(value: T) | NotFound(details: string)

  /** The empty acknowledgement that a successful delete answers with. */
  datatype Empty = Empty

  /** The details text both servers attach to a NOT_FOUND status. */
  const NotFoundDetails: string := "User not found"

  /** The status a new user gets when the request leaves it empty. */
  const DefaultStatus: string := "active"

  /**
   * Python's `a or b` / `a if a else b` and JavaScript's `a || b` on
   * strings: the first operand unless it is the empty string.
   */
  function OrElse(value: string, fallback: string): (r: string)
    ensures value != "" ==> r == value
    ensures value == "" ==> r == fallback
    ensures r == "" <==> value == "" && fallback == ""
  {
    if value != "" then value else fallback
  }

  /** The ids of a list of users, in list order. */
  function Ids(users: seq<User>): (r: seq<string>)
    ensures |r| == |users|
    ensures forall i :: 0 <= i < |users| ==> r[i] == users[i].id
  {
    if users == [] then [] else [users[0].id] + Ids(users[1..])
  }

  /** No two records of the list share an id. */
  predicate AllIdsDistinct(users: seq<User>)
  {
    forall i, j :: 0 <= i < j < |users| ==> users[i].id != users[j].id
  }

  /**
   * The record AddUser creates: the id and the timestamp come from the server,
   * name and email are copied from the request, and the status is the
   * request's unless that is empty.
   */
  function NewUser(request: User, newId: string, now: int): (u: User)
    ensures u.id == newId && u.createdAt == now
    ensures u.name == request.name && u.email == request.email
    ensures u.status == (if request.status == "" then DefaultStatus else request.status)
    ensures u.status != ""
  {
    User(newId, request.name, request.email, OrElse(request.status, DefaultStatus), now)
  }

  /**
   * The record UpdateUser stores: id and creation time of the existing record,
   * and for each of name, email and status the request's value unless it is
   * empty, in which case the existing value stays.
   */
  function Merge(existing: User, request: User): (u: User)
    ensures u.id == existing.id && u.createdAt == existing.createdAt
    ensures u.name == (if request.name == "" then existing.name else request.name)
    ensures u.email == (if request.email == "" then existing.email else request.email)
    ensures u.status == (if request.status == "" then existing.status else request.status)
  {
    existing.(name := OrElse(request.name, existing.name),
              email := OrElse(request.email, existing.email),
              status := OrElse(request.status, existing.status))
  }

  /**
   * The index of the first record whose id equals `id`, or -1 when there is
   * none: Python's enumerate-and-break loop and JavaScript's `findIndex`.
   */
  function FindIndex(users: seq<User>, id: string): (r: int)
    ensures -1 <= r < |users|
    ensures r == -1 <==> id !in Ids(users)
    ensures r >= 0 ==> users[r].id == id
    ensures forall j :: 0 <= j < r ==> users[j].id != id
  {
    if users == [] then -1
    else if users[0].id == id then
      assert Ids(users)[0] == id;
      0
    else
      var k := FindIndex(users[1..], id);
      assert Ids(users) == [users[0].id] + Ids(users[1..]);
      assert forall j :: 1 <= j < |users| ==> users[j] == users[1..][j - 1];
      if k == -1 then -1 else k + 1
  }

  /**
   * The list with the record at index `i` taken out and the ones after it
   * shifted down by one: Python's `pop(i)` and JavaScript's `splice(i, 1)`.
   */
  function RemovedAt(users: seq<User>, i: int): (r: seq<User>)
    requires 0 <= i < |users|
    ensures |r| == |users| - 1
    ensures forall j :: 0 <= j < i ==> r[j] == users[j]
    ensures forall j :: i <= j < |r| ==> r[j] == users[j + 1]
  {
    users[..i] + users[i + 1..]
  }

  /** Removing at `i` loses exactly the record at `i` and keeps every other one. */
  lemma RemovedAtMultiset(users: seq<User>, i: int)
    requires 0 <= i < |users|
    ensures multiset(RemovedAt(users, i)) + multiset{users[i]} == multiset(users)
  {
    assert users == users[..i] + [users[i]] + users[i + 1..];
  }

  /** The list after AddUser: the new record appended at the end. */
  function Added(users: seq<User>, request: User, newId: string, now: int): (r: seq<User>)
    ensures |r| == |users| + 1 && r[..|users|] == users
    ensures r[|users|] == NewUser(request, newId, now)
  {
    users + [NewUser(request, newId, now)]
  }

  /**
   * The list after UpdateUser: the first record with the request's id
   * replaced, in place, by its merge with the request; unchanged when no
   * record has that id.
   */
  function Updated(users: seq<User>, request: User): (r: seq<User>)
    ensures |r| == |users|
    ensures request.id !in Ids(users) ==> r == users
    ensures request.id in Ids(users) ==>
      var i := FindIndex(users, request.id);
      r[i] == Merge(users[i], request) && r[i].id == request.id
    ensures forall j :: 0 <= j < |users| && j != FindIndex(users, request.id) ==> r[j] == users[j]
  {
    var i := FindIndex(users, request.id);
    if i == -1 then users else users[i := Merge(users[i], request)]
  }

  /**
   * The list after DeleteUser: the first record with the id removed;
   * unchanged when no record has that id.
   */
  function Deleted(users: seq<User>, id: string): (r: seq<User>)
    ensures id !in Ids(users) ==> r == users
    ensures id in Ids(users) ==> |r| == |users| - 1
    ensures id in Ids(users) ==>
      var i := FindIndex(users, id);
      (forall j :: 0 <= j < i ==> r[j] == users[j]) &&
      (forall j :: i <= j < |r| ==> r[j] == users[j + 1])
  {
    var i := FindIndex(users, id);
    if i == -1 then users else RemovedAt(users, i)
  }

  // ---------------------------------------------------------------------
  // Properties of the record rules

  /** The id and the timestamp of a new record never come from the caller. */
  lemma NewUserIgnoresClientIdentity(request: User, other: User, newId: string, now: int)
    requires request.name == other.name && request.email == other.email
    requires request.status == other.status
    ensures NewUser(request, newId, now) == NewUser(other, newId, now)
  {
  }

  /** An update whose name, email and status are all empty changes nothing. */
  lemma MergeBlankRequestIsIdentity(existing: User, request: User)
    requires request.name == "" && request.email == "" && request.status == ""
    ensures Merge(existing, request) == existing
  {
  }

  /** Applying the same update twice is the same as applying it once. */
  lemma MergeIdempotent(existing: User, request: User)
    ensures Merge(Merge(existing, request), request) == Merge(existing, request)
  {
  }

  /** An update that only carries a status changes only the status. */
  lemma MergeStatusOnly(existing: User, request: User)
    requires request.name == "" && request.email == "" && request.status != ""
    ensures Merge(existing, request) == existing.(status := request.status)
  {
  }

  /**
   * Empty means "keep": an update can never blank a field that was set.
   * This is the known limitation that no caller can clear name, email or
   * status through UpdateUser.
   */
  lemma MergeNeverClears(existing: User, request: User)
    ensures existing.name != "" ==> Merge(existing, request).name != ""
    ensures existing.email != "" ==> Merge(existing, request).email != ""
    ensures existing.status != "" ==> Merge(existing, request).status != ""
  {
  }

  // ---------------------------------------------------------------------
  // Properties of the search

  /** With distinct ids, the first match is the only match. */
  lemma FindIndexOfUniqueId(users: seq<User>, k: int)
    requires AllIdsDistinct(users)
    requires 0 <= k < |users|
    ensures FindIndex(users, users[k].id) == k
  {
  }

  // ---------------------------------------------------------------------
  // Properties of the three state changes

  /** An add with an id not yet present keeps the ids distinct. */
  lemma AddedKeepsIdsDistinct(users: seq<User>, request: User, newId: string, now: int)
    requires AllIdsDistinct(users)
    requires newId !in Ids(users)
    ensures AllIdsDistinct(Added(users, request, newId, now))
  {
    var r := Added(users, request, newId, now);
    forall i, j | 0 <= i < j < |r| ensures r[i].id != r[j].id {
      if j == |users| {
        assert Ids(users)[i] == users[i].id;
      }
    }
  }

  /**
   * An update keeps the length, the ids and every record other than the one
   * at the first match; that one becomes its merge with the request.
   */
  lemma UpdatedFrame(users: seq<User>, request: User)
    ensures |Updated(users, request)| == |users|
    ensures Ids(Updated(users, request)) == Ids(users)
    ensures FindIndex(users, request.id) == -1 ==> Updated(users, request) == users
    ensures var i := FindIndex(users, request.id);
      i >= 0 ==> Updated(users, request)[i] == Merge(users[i], request)
    ensures forall j :: 0 <= j < |users| && j != FindIndex(users, request.id) ==>
      Updated(users, request)[j] == users[j]
  {
    var r := Updated(users, request);
    assert |Ids(r)| == |Ids(users)|;
    forall j | 0 <= j < |users| ensures Ids(r)[j] == Ids(users)[j] {
    }
  }

  /** An update keeps the ids distinct. */
  lemma UpdatedKeepsIdsDistinct(users: seq<User>, request: User)
    requires AllIdsDistinct(users)
    ensures AllIdsDistinct(Updated(users, request))
  {
    UpdatedFrame(users, request);
    var r := Updated(users, request);
    forall i, j | 0 <= i < j < |r| ensures r[i].id != r[j].id {
      assert Ids(r)[i] == Ids(users)[i] && Ids(r)[j] == Ids(users)[j];
    }
  }

  /** Removing a record keeps the remaining ids distinct, and its id is gone. */
  lemma RemovedAtKeepsIdsDistinct(users: seq<User>, i: int)
    requires AllIdsDistinct(users)
    requires 0 <= i < |users|
    ensures AllIdsDistinct(RemovedAt(users, i))
    ensures users[i].id !in Ids(RemovedAt(users, i))
  {
    var r := RemovedAt(users, i);
    forall a, b | 0 <= a < b < |r| ensures r[a].id != r[b].id {
      var a' := if a < i then a else a + 1;
      var b' := if b < i then b else b + 1;
      assert r[a] == users[a'] && r[b] == users[b'];
    }
    forall k | 0 <= k < |r| ensures Ids(r)[k] != users[i].id {
      var k' := if k < i then k else k + 1;
      assert r[k] == users[k'];
    }
  }

  /**
   * A delete of a present id removes exactly the first match; the others keep
   * their relative order. With distinct ids, the id is then absent.
   */
  lemma DeletedRemovesFirstMatch(users: seq<User>, id: string)
    requires id in Ids(users)
    ensures var i := FindIndex(users, id);
      0 <= i < |users| && Deleted(users, id) == users[..i] + users[i + 1..]
    ensures |Deleted(users, id)| == |users| - 1
    ensures AllIdsDistinct(users) ==>
      AllIdsDistinct(Deleted(users, id)) && id !in Ids(Deleted(users, id))
  {
    var i := FindIndex(users, id);
    assert Deleted(users, id) == RemovedAt(users, i);
    if AllIdsDistinct(users) {
      RemovedAtKeepsIdsDistinct(users, i);
    }
  }

  // ---------------------------------------------------------------------
  // Runs of calls

  /** One call of the service, with the generated id and clock reading of an add. */
  datatype Call =
    | GetCall
    | AddCall(request: User, newId: string, now: int)
    | UpdateCall(request: User)
    | DeleteCall(id: string)

  /**
   * The list after one call: a get leaves it alone, an add grows it by one,
   * an update keeps its length and a delete shrinks it by one exactly when
   * the id is present, and otherwise leaves it alone.
   */
  function Step(users: seq<User>, call: Call): (r: seq<User>)
    ensures call.GetCall? ==> r == users
    ensures call.AddCall? ==> |r| == |users| + 1 && r[..|users|] == users
    ensures call.UpdateCall? ==> |r| == |users|
    ensures call.DeleteCall? ==> (|r| == |users| - 1 <==> call.id in Ids(users))
    ensures call.DeleteCall? ==> (r == users <==> call.id !in Ids(users))
  {
    match call
    case GetCall => users
    case AddCall(request, newId, now) => Added(users, request, newId, now)
    case UpdateCall(request) => Updated(users, request)
    case DeleteCall(id) => Deleted(users, id)
  }

  /** The list after a sequence of calls, served one after the other. */
  function Run(users: seq<User>, calls: seq<Call>): seq<User>
    decreases |calls|
  {
    if calls == [] then users else Run(Step(users, calls[0]), calls[1..])
  }

  /** Serving two batches of calls one after the other is serving their concatenation. */
  lemma {:induction false} RunAppend(users: seq<User>, first: seq<Call>, second: seq<Call>)
    ensures Run(users, first + second) == Run(Run(users, first), second)
    decreases |first|
  {
    if first != [] {
      assert (first + second)[0] == first[0];
      assert (first + second)[1..] == first[1..] + second;
      RunAppend(Step(users, first[0]), first[1..], second);
    } else {
      assert first + second == second;
    }
  }

  /** Every add of the run is given an id not present at the time of the call. */
  predicate FreshIds(users: seq<User>, calls: seq<Call>)
    decreases |calls|
  {
    calls == [] ||
    ((calls[0].AddCall? ==> calls[0].newId !in Ids(users)) &&
     FreshIds(Step(users, calls[0]), calls[1..]))
  }

  /** Whatever calls are served, ids stay distinct as long as each add's id is fresh. */
  lemma {:induction false} RunKeepsIdsDistinct(users: seq<User>, calls: seq<Call>)
    requires AllIdsDistinct(users)
    requires FreshIds(users, calls)
    ensures AllIdsDistinct(Run(users, calls))
    decreases |calls|
  {
    if calls != [] {
      match calls[0] {
      case GetCall =>
      case AddCall(request, newId, now) => AddedKeepsIdsDistinct(users, request, newId, now);
      case UpdateCall(request) => UpdatedKeepsIdsDistinct(users, request);
      case DeleteCall(id) =>
        if id in Ids(users) {
          DeletedRemovesFirstMatch(users, id);
        }
      }
      RunKeepsIdsDistinct(Step(users, calls[0]), calls[1..]);
    }
  }

  /** The records a sequence of adds creates, in call order. */
  function NewUsers(calls: seq<Call>): (r: seq<User>)
    requires forall k :: 0 <= k < |calls| ==> calls[k].AddCall?
    ensures |r| == |calls|
    ensures forall k :: 0 <= k < |calls| ==>
      r[k] == NewUser(calls[k].request, calls[k].newId, calls[k].now)
  {
    if calls == [] then []
    else [NewUser(calls[0].request, calls[0].newId, calls[0].now)] + NewUsers(calls[1..])
  }

  /** Concatenation of lists regroups freely. */
  lemma AppendAssociative(a: seq<User>, b: seq<User>, c: seq<User>)
    ensures (a + b) + c == a + (b + c)
  {
  }

  /** One add at the head of a run of adds: it appends its record and hands the rest on. */
  lemma RunOfAddsHead(users: seq<User>, calls: seq<Call>)
    requires calls != []
    requires forall k :: 0 <= k < |calls| ==> calls[k].AddCall?
    ensures var u := NewUser(calls[0].request, calls[0].newId, calls[0].now);
      Run(users, calls) == Run(users + [u], calls[1..]) &&
      NewUsers(calls) == [u] + NewUsers(calls[1..])
  {
  }

  /**
   * N adds and nothing else leave the earlier records first, followed by the
   * N new records in the order they were added.
   */
  lemma {:induction false} RunOfAdds(users: seq<User>, calls: seq<Call>)
    requires forall k :: 0 <= k < |calls| ==> calls[k].AddCall?
    ensures Run(users, calls) == users + NewUsers(calls)
    decreases |calls|
  {
    if calls != [] {
      var c, rest := calls[0], calls[1..];
      var u := NewUser(c.request, c.newId, c.now);
      RunOfAddsHead(users, calls);
      RunOfAdds(users + [u], rest);
      AppendAssociative(users, [u], NewUsers(rest));
    }
  }
}
