/**
 * The Python server's `UserServiceServicer`: the user list is a field that
 * AddUser appends to, UpdateUser assigns at an index and DeleteUser pops
 * from. The generated id and the clock readings are parameters.
 */
module PythonServer {
  import opened UserStore

  /** The ids of the seed records, in order. */
  const SeedIds: seq<string> := ["1", "2", "3", "4", "5", "6", "7", "8", "9", "10", "11", "12"]

  /** The names of the seed records, in order. */
  const SeedNames: seq<string> :=
    [ "John Dower", "Jane Smith", "Alice Johnson", "Bob Williams", "Charlie Brown", "Diana Prince",
      "Ethan Hunt", "Fiona Gallagher", "George Martin", "Hannah Lee", "Ian Wright", "Julia Roberts" ]

  /** The emails of the seed records, in order. */
  const SeedEmails: seq<string> :=
    [ "john@example.com", "jane@example.com", "alice.johnson@example.com",
      "bob.williams@example.com", "charlie.brown@example.com", "diana.prince@example.com",
      "ethan.hunt@example.com", "fiona.gallagher@example.com", "george.martin@example.com",
      "hannah.lee@example.com", "ian.wright@example.com", "julia.roberts@example.com" ]

  /** The statuses of the seed records, in order. */
  const SeedStatuses: seq<string> :=
    [ "active", "active", "active", "inactive", "active", "active",
      "inactive", "active", "active", "inactive", "active", "active" ]

  /**
   * The twelve records the servicer starts with; `stamps[k]` is the clock
   * reading taken for the k-th record.
   */
  function Seed(stamps: seq<int>): (r: seq<User>)
    requires |stamps| == 12
    ensures |r| == 12
    ensures forall k :: 0 <= k < 12 ==> r[k].id == SeedIds[k] && r[k].createdAt == stamps[k]
    ensures forall k :: 0 <= k < 12 ==> r[k].status == "active" || r[k].status == "inactive"
  {
    seq(12, k requires 0 <= k < 12 =>
      User(SeedIds[k], SeedNames[k], SeedEmails[k], SeedStatuses[k], stamps[k]))
  }

  /** The seed's ids "1" to "12" are pairwise different. */
  lemma SeedIdsDistinct(stamps: seq<int>)
    requires |stamps| == 12
    ensures AllIdsDistinct(Seed(stamps))
  {
    var r := Seed(stamps);
    forall i, j | 0 <= i < j < 12 ensures r[i].id != r[j].id {
      if j < 9 {
        assert SeedIds[i][0] != SeedIds[j][0];
      } else if i < 9 {
        assert |SeedIds[i]| != |SeedIds[j]|;
      } else {
        assert SeedIds[i][1] != SeedIds[j][1];
      }
    }
  }

  class UserServiceServicer {
    /** The in-memory user list, in insertion order. */
    var users: seq<User>

    /** The object invariant: no two stored records share an id. */
    predicate Valid()
      reads this
    {
      AllIdsDistinct(users)
    }

    constructor (stamps: seq<int>)
      requires |stamps| == 12
      ensures users == Seed(stamps)
      ensures Valid()
    {
      users := Seed(stamps);
      SeedIdsDistinct(stamps);
    }

    /** The whole list, in order; nothing changes. */
    method GetUsers() returns (list: seq<User>)
      ensures list == users
    {
      list := users;
    }

    /**
     * Appends a new record built from the request, the generated id and
     * the clock reading, and returns it.
     */
    method AddUser(request: User, newId: string, now: int) returns (created: User)
      modifies this
      ensures created == NewUser(request, newId, now)
      ensures users == old(users) + [created]
      ensures users == Added(old(users), request, newId, now)
      ensures old(Valid()) && newId !in Ids(old(users)) ==> Valid()
    {
      created := User(newId, request.name, request.email, OrElse(request.status, DefaultStatus), now);
      users := users + [created];
      if old(Valid()) && newId !in Ids(old(users)) {
        AddedKeepsIdsDistinct(old(users), request, newId, now);
      }
    }

    /**
     * The enumerate-and-break scan both UpdateUser and DeleteUser run:
     * the index of the first record with the id, or -1.
     */
    method FindUserIndex(id: string) returns (index: int)
      ensures index == FindIndex(users, id)
    {
      index := -1;
      var i := 0;
      while i < |users|
        invariant 0 <= i <= |users|
        invariant index == -1
        invariant forall j :: 0 <= j < i ==> users[j].id != id
      {
        if users[i].id == id {
          index := i;
          break;
        }
        i := i + 1;
      }
    }

    /**
     * Replaces the first record with the request's id by its merge with the
     * request and returns the stored record; NOT_FOUND, with nothing
     * changed, when no record has that id.
     */
    method UpdateUser(request: User) returns (r: Result<User>)
      modifies this
      ensures users == Updated(old(users), request)
      ensures request.id !in Ids(old(users)) ==>
        r == NotFound(NotFoundDetails) && users == old(users)
      ensures request.id in Ids(old(users)) ==>
        var i := FindIndex(old(users), request.id);
        && |users| == |old(users)|
        && users[i] == Merge(old(users)[i], request)
        && (forall j :: 0 <= j < |users| && j != i ==> users[j] == old(users)[j])
        && r == Ok(users[i])
      ensures old(Valid()) ==> Valid()
    {
      var userIndex := FindUserIndex(request.id);
      if userIndex == -1 {
        return NotFound(NotFoundDetails);
      }
      var existing := users[userIndex];
      var updated := User(existing.id,
                          if request.name != "" then request.name else existing.name,
                          if request.email != "" then request.email else existing.email,
                          if request.status != "" then request.status else existing.status,
                          existing.createdAt);
      users := users[userIndex := updated];
      r := Ok(updated);
      if old(Valid()) {
        UpdatedKeepsIdsDistinct(old(users), request);
      }
    }

    /**
     * Removes the first record with the id, shifting the later ones down;
     * NOT_FOUND, with nothing changed, when no record has that id.
     */
    method DeleteUser(id: string) returns (r: Result<Empty>)
      modifies this
      ensures users == Deleted(old(users), id)
      ensures id !in Ids(old(users)) ==> r == NotFound(NotFoundDetails) && users == old(users)
      ensures id in Ids(old(users)) ==>
        var i := FindIndex(old(users), id);
        && r == Ok(Empty)
        && users == old(users)[..i] + old(users)[i + 1..]
        && |users| == |old(users)| - 1
      ensures old(Valid()) ==> Valid()
      ensures old(Valid()) ==> id !in Ids(users)
    {
      var userIndex := FindUserIndex(id);
      if userIndex == -1 {
        return NotFound(NotFoundDetails);
      }
      DeletedRemovesFirstMatch(users, id);
      users := users[..userIndex] + users[userIndex + 1..];
      r := Ok(Empty);
    }
  }

  /**
   * The walk-through of the service: add "Zed" to the seed, set user 2's
   * status to "inactive", delete user 2, and delete it again.
   */
  method Scenario(stamps: seq<int>, zedId: string, now: int)
    returns (added: User, updated: Result<User>, deleted: Result<Empty>,
             deletedAgain: Result<Empty>, list: seq<User>)
    requires |stamps| == 12
    requires zedId != "" && zedId !in Ids(Seed(stamps))
    requires now > 0
    ensures added.id == zedId && added.id != "" && added.status == "active" && added.createdAt > 0
    ensures updated.Ok? && updated.value.id == "2" && updated.value.name == "Jane Smith"
    ensures updated.Ok? && updated.value.status == "inactive"
    ensures deleted == Ok(Empty)
    ensures deletedAgain == NotFound(NotFoundDetails)
    ensures |list| == 12 && "2" !in Ids(list) && list[11] == added
  {
    var service := new UserServiceServicer(stamps);
    ghost var seed := Seed(stamps);
    assert seed[1].id == Ids(seed)[1] == "2" && seed[1].name == SeedNames[1] == "Jane Smith";
    added := service.AddUser(User("", "Zed", "zed@x.com", "", 0), zedId, now);
    ghost var afterAdd := service.users;
    assert afterAdd[1] == seed[1] && afterAdd[12] == added;
    FindIndexOfUniqueId(afterAdd, 1);
    updated := service.UpdateUser(User("2", "", "", "inactive", 0));
    ghost var afterUpdate := service.users;
    assert Ids(afterAdd)[1] == "2";
    assert afterUpdate[12] == added && afterUpdate[1].id == "2";
    assert "2" in Ids(afterUpdate) by { assert Ids(afterUpdate)[1] == "2"; }
    FindIndexOfUniqueId(afterUpdate, 1);
    deleted := service.DeleteUser("2");
    deletedAgain := service.DeleteUser("2");
    list := service.GetUsers();
  }
}
