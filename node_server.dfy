/**
 * The Node.js server's `userService` and the module-level `users` array it
 * works on, held here as the field of one object: `addUser` pushes onto it,
 * `updateUser` assigns at the index `findIndex` returns and `deleteUser`
 * splices at that index. The generated id and the clock readings are
 * parameters.
 */
module NodeServer {
  import opened UserStore

  /**
   * The two records the array starts with; `stamps[k]` is the clock reading
   * taken for the k-th record.
   */
  function Seed(stamps: seq<int>): (r: seq<User>)
    requires |stamps| == 2
    ensures |r| == 2
    ensures Ids(r) == ["1", "2"]
    ensures AllIdsDistinct(r)
    ensures r[0].createdAt == stamps[0] && r[1].createdAt == stamps[1]
    ensures r[0].status == DefaultStatus && r[1].status == DefaultStatus
  {
    [ User("1", "John Doe", "john@example.com", "active", stamps[0]),
      User("2", "Jane Smith", "jane@example.com", "active", stamps[1]) ]
  }

  class UserService {
    /** The module-level `users` array, in insertion order. */
    var users: seq<User>

    /** The object invariant: no two stored records share an id. */
    predicate Valid()
      reads this
    {
      AllIdsDistinct(users)
    }

    constructor (stamps: seq<int>)
      requires |stamps| == 2
      ensures users == Seed(stamps)
      ensures Valid()
    {
      users := Seed(stamps);
    }

    /** The array itself, unchanged. */
    method GetUsers() returns (list: seq<User>)
      ensures list == users
    {
      list := users;
    }

    /**
     * Pushes a new record built from the request, the generated id and
     * the clock reading, and answers with it.
     */
    method AddUser(request: User, newId: string, now: int) returns (created: User)
      modifies this
      ensures created == NewUser(request, newId, now)
      ensures users == old(users) + [created]
      ensures users == Added(old(users), request, newId, now)
      ensures old(Valid()) && newId !in Ids(old(users)) ==> Valid()
    {
      created := NewUser(request, newId, now);
      users := users + [created];
      if old(Valid()) && newId !in Ids(old(users)) {
        AddedKeepsIdsDistinct(old(users), request, newId, now);
      }
    }

    /**
     * Overwrites the element at the first index with the request's id by a
     * copy of it whose name, email and status are merged with the request,
     * and answers with that element; NOT_FOUND, with the array untouched,
     * when `findIndex` finds nothing.
     */
    method UpdateUser(request: User) returns (r: Result<User>)
      modifies this
      ensures users == Updated(old(users), request)
      ensures request.id !in Ids(old(users)) ==>
        r == NotFound(NotFoundDetails) && users == old(users)
      ensures request.id in Ids(old(users)) ==>
        var i := FindIndex(old(users), request.id);
        && |users| == |old(users)|
        && users[i] == Merge(old(users)[i], request)
        && (forall j :: 0 <= j < |users| && j != i ==> users[j] == old(users)[j])
        && r == Ok(users[i])
      ensures old(Valid()) ==> Valid()
    {
      var userIndex := FindIndex(users, request.id);
      if userIndex == -1 {
        return NotFound(NotFoundDetails);
      }
      users := users[userIndex := Merge(users[userIndex], request)];
      r := Ok(users[userIndex]);
      if old(Valid()) {
        UpdatedKeepsIdsDistinct(old(users), request);
      }
    }

    /**
     * Splices out the element at the first index with the id; NOT_FOUND,
     * with the array untouched, when `findIndex` finds nothing.
     */
    method DeleteUser(id: string) returns (r: Result<Empty>)
      modifies this
      ensures users == Deleted(old(users), id)
      ensures id !in Ids(old(users)) ==> r == NotFound(NotFoundDetails) && users == old(users)
      ensures id in Ids(old(users)) ==>
        var i := FindIndex(old(users), id);
        && r == Ok(Empty)
        && users == old(users)[..i] + old(users)[i + 1..]
        && |users| == |old(users)| - 1
      ensures old(Valid()) ==> Valid()
      ensures old(Valid()) ==> id !in Ids(users)
    {
      var userIndex := FindIndex(users, id);
      if userIndex == -1 {
        return NotFound(NotFoundDetails);
      }
      DeletedRemovesFirstMatch(users, id);
      users := users[..userIndex] + users[userIndex + 1..];
      r := Ok(Empty);
    }
  }
}
