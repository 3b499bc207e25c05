/**
 * The two servers answer every call alike: started from the same list and
 * given the same request (and, for an add, the same generated id and clock
 * reading), they return the same reply and are left holding the same list.
 * Only their seed lists differ.
 */
module Parity {
  import opened UserStore
  import PythonServer
  import NodeServer

  /** Both servers list the same records. */
  method GetUsersAgree(python: PythonServer.UserServiceServicer, node: NodeServer.UserService)
    returns (fromPython: seq<User>, fromNode: seq<User>)
    requires python.users == node.users
    ensures fromPython == fromNode == python.users
  {
    fromPython := python.GetUsers();
    fromNode := node.GetUsers();
  }

  /** Both servers create the same record and append it the same way. */
  method AddUserAgrees(python: PythonServer.UserServiceServicer, node: NodeServer.UserService,
                       request: User, newId: string, now: int)
    returns (fromPython: User, fromNode: User)
    requires python.users == node.users
    modifies python, node
    ensures fromPython == fromNode && python.users == node.users
    ensures fromPython.status == (if request.status == "" then "active" else request.status)
  {
    fromPython := python.AddUser(request, newId, now);
    fromNode := node.AddUser(request, newId, now);
  }

  /** Both servers merge the same way and fail alike on an unknown id. */
  method UpdateUserAgrees(python: PythonServer.UserServiceServicer, node: NodeServer.UserService,
                          request: User)
    returns (fromPython: Result<User>, fromNode: Result<User>)
    requires python.users == node.users
    modifies python, node
    ensures fromPython == fromNode && python.users == node.users
    ensures fromPython.NotFound? <==> request.id !in Ids(old(python.users))
  {
    fromPython := python.UpdateUser(request);
    fromNode := node.UpdateUser(request);
  }

  /** Both servers remove the same record and fail alike on an unknown id. */
  method DeleteUserAgrees(python: PythonServer.UserServiceServicer, node: NodeServer.UserService,
                          id: string)
    returns (fromPython: Result<Empty>, fromNode: Result<Empty>)
    requires python.users == node.users
    modifies python, node
    ensures fromPython == fromNode && python.users == node.users
    ensures fromPython.NotFound? <==> id !in Ids(old(python.users))
  {
    fromPython := python.DeleteUser(id);
    fromNode := node.DeleteUser(id);
  }
}
