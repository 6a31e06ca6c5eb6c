/** The roster reducer of src/hooks/useSocket.ts: the state is the list of peer
    ids the relay reports, and each action is a pure transition to a new state. */
module SocketRoster {
  import opened Roster

  datatype SocketState = SocketState(users: seq<PeerId>)

  /** The three action creators `addUser`, `removeUser` and `updateUsers`, and
      `Other` for an action of any other type, which the reducer's default
      branch handles. */
  datatype SocketAction =
    | AddUser(user: PeerId)
    | RemoveUser(user: PeerId)
    | UpdateUsers(users: seq<PeerId>)
    | Other

  /** The state the hook starts from: nobody is online. */
  const InitialState: SocketState := SocketState([])

  function Reduce(state: SocketState, action: SocketAction): (r: SocketState)
    ensures action.AddUser? ==>
              (forall x :: x in r.users <==> x in state.users || x == action.user)
    ensures action.RemoveUser? ==>
              (forall x :: x in r.users <==> x in state.users && x != action.user)
    ensures action.UpdateUsers? ==> r.users == action.users
    ensures action.Other? ==> r == state
  {
    match action
    case AddUser(user) => state.(users := WithUser(state.users, user))
    case RemoveUser(user) => state.(users := WithoutUser(state.users, user))
    case UpdateUsers(users) => state.(users := users)
    case Other => state
  }

  /** Adding a user already listed changes nothing; adding a new one appends it
      at the end and moves nobody else; adding twice is adding once. */
  lemma AddUserIdempotent(state: SocketState, user: PeerId)
    ensures user in state.users ==> Reduce(state, AddUser(user)) == state
    ensures user !in state.users ==> Reduce(state, AddUser(user)).users == state.users + [user]
    ensures Reduce(Reduce(state, AddUser(user)), AddUser(user)) == Reduce(state, AddUser(user))
  {
    WithUserIdempotent(state.users, user);
  }

  /** Removing a user keeps exactly the other users, each as often as before and
      in the same relative order; removing an absent user changes nothing. */
  lemma RemoveUserFilters(state: SocketState, user: PeerId, x: PeerId)
    ensures multiset(Reduce(state, RemoveUser(user)).users)[x]
            == if x == user then 0 else multiset(state.users)[x]
    ensures forall a, b :: state.users == a + b ==>
              Reduce(state, RemoveUser(user)).users == WithoutUser(a, user) + WithoutUser(b, user)
    ensures user !in state.users ==> Reduce(state, RemoveUser(user)) == state
  {
    WithoutUserCounts(state.users, user, x);
    forall a, b | state.users == a + b
      ensures Reduce(state, RemoveUser(user)).users == WithoutUser(a, user) + WithoutUser(b, user)
    {
      WithoutUserConcat(a, b, user);
    }
  }

  /** Removing a user that was just added, and was not listed before, restores
      the state. */
  lemma RemoveUndoesAdd(state: SocketState, user: PeerId)
    requires user !in state.users
    ensures Reduce(Reduce(state, AddUser(user)), RemoveUser(user)) == state
  {
    RemoveAfterAdd(state.users, user);
  }

  /** Adding and removing keep a duplicate-free roster duplicate-free; a full
      update yields a duplicate-free roster exactly when its payload is one. */
  lemma ReduceKeepsNoDuplicates(state: SocketState, action: SocketAction)
    requires NoDuplicates(state.users)
    requires action.UpdateUsers? ==> NoDuplicates(action.users)
    ensures NoDuplicates(Reduce(state, action).users)
  {
    match action
    case AddUser(user) => WithUserKeepsNoDuplicates(state.users, user);
    case RemoveUser(user) => WithoutUserKeepsNoDuplicates(state.users, user);
    case UpdateUsers(_) =>
    case Other =>
  }

  /** A full update forgets the previous roster entirely. */
  lemma UpdateUsersReplaces(s1: SocketState, s2: SocketState, users: seq<PeerId>)
    ensures Reduce(s1, UpdateUsers(users)) == Reduce(s2, UpdateUsers(users)) == SocketState(users)
  {
  }

  /** The initial roster is empty, and an empty roster stays empty under
      removals and unrecognised actions. */
  lemma InitialStateEmpty(user: PeerId)
    ensures InitialState.users == []
    ensures Reduce(InitialState, RemoveUser(user)) == InitialState
    ensures Reduce(InitialState, Other) == InitialState
  {
  }
}
