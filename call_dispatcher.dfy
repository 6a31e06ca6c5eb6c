/** The reducer of src/hooks/useCallDispatcher.ts: the roster of peer ids plus
    `activeUser`, the peer of the current call, where "" means "no call". */
module CallDispatcher {
  import opened Roster

  /** The value `activeUser` takes when there is no call. */
  const NoCall: PeerId := ""

  datatype CallState = CallState(activeUser: PeerId, users: seq<PeerId>)

  /** The four action creators, and `Other` for an action of any other type,
      which the reducer's default branch handles. */
  datatype CallAction =
    | AddUser(user: PeerId)
    | RemoveUser(user: PeerId)
    | SetActiveUser(user: PeerId)
    | UpdateUsers(users: seq<PeerId>)
    | Other

  const InitialState: CallState := CallState(NoCall, [])

  /** The peer of the current call, if any, is on the roster. */
  predicate ActiveIsListed(state: CallState)
  {
    state.activeUser == NoCall || state.activeUser in state.users
  }

  function Reduce(state: CallState, action: CallAction): (r: CallState)
    // only SetActiveUser starts a call; the roster actions at most end one
    ensures !action.SetActiveUser? ==> r.activeUser in {state.activeUser, NoCall}
    ensures action.SetActiveUser? ==> r.users == state.users
    ensures action.UpdateUsers? ==> r.users == action.users && ActiveIsListed(r)
    ensures ActiveIsListed(state) && !action.SetActiveUser? ==> ActiveIsListed(r)
  {
    match action
    case AddUser(user) =>
      state.(users := WithUser(state.users, user))
    case RemoveUser(user) =>
      state.(activeUser := if state.activeUser == user then NoCall else state.activeUser,
             users := WithoutUser(state.users, user))
    case SetActiveUser(user) =>
      state.(activeUser := user)
    case UpdateUsers(users) =>
      state.(activeUser := if state.activeUser in users then state.activeUser else NoCall,
             users := users)
    case Other =>
      state
  }

  /** Adding a user appends it only when it is absent, and never touches the
      current call. */
  lemma AddUserKeepsCall(state: CallState, user: PeerId)
    ensures Reduce(state, AddUser(user)).activeUser == state.activeUser
    ensures Reduce(state, AddUser(user)).users
            == if user in state.users then state.users else state.users + [user]
    ensures Reduce(Reduce(state, AddUser(user)), AddUser(user)) == Reduce(state, AddUser(user))
  {
    WithUserIdempotent(state.users, user);
  }

  /** Removing a user filters it out of the roster, and ends the call exactly
      when that user is its peer. */
  lemma RemoveUserEndsItsCall(state: CallState, user: PeerId)
    ensures Reduce(state, RemoveUser(user)).users == WithoutUser(state.users, user)
    ensures user !in Reduce(state, RemoveUser(user)).users
    ensures forall x :: x != user && x in state.users ==> x in Reduce(state, RemoveUser(user)).users
    ensures Reduce(state, RemoveUser(user)).activeUser == NoCall
            <==> state.activeUser == user || state.activeUser == NoCall
    ensures state.activeUser != user ==>
              Reduce(state, RemoveUser(user)).activeUser == state.activeUser
  {
  }

  /** Setting the active user changes only the active user, whatever it was
      and whether or not the user is listed. */
  lemma SetActiveUserOnly(state: CallState, user: PeerId)
    ensures Reduce(state, SetActiveUser(user)) == CallState(user, state.users)
    ensures ActiveIsListed(Reduce(state, SetActiveUser(user))) <==> user == NoCall || user in state.users
  {
  }

  /** A full update replaces the roster and keeps the call exactly when its
      peer is still listed. */
  lemma UpdateUsersKeepsListedCall(state: CallState, users: seq<PeerId>)
    ensures Reduce(state, UpdateUsers(users)).users == users
    ensures state.activeUser != NoCall ==>
              (Reduce(state, UpdateUsers(users)).activeUser == state.activeUser <==> state.activeUser in users)
    ensures state.activeUser != NoCall ==>
              (Reduce(state, UpdateUsers(users)).activeUser == NoCall <==> state.activeUser !in users)
    ensures state.activeUser == NoCall ==> Reduce(state, UpdateUsers(users)).activeUser == NoCall
  {
  }

  /** The hook starts with no call and no roster; unrecognised actions change
      nothing. */
  lemma InitialAndOther(state: CallState)
    ensures InitialState.activeUser == NoCall && InitialState.users == []
    ensures ActiveIsListed(InitialState)
    ensures Reduce(state, Other) == state
  {
  }

  /** The roster actions keep the roster's no-duplicates invariant, as in the
      roster of src/hooks/useSocket.ts. */
  lemma ReduceKeepsNoDuplicates(state: CallState, action: CallAction)
    requires NoDuplicates(state.users)
    requires action.UpdateUsers? ==> NoDuplicates(action.users)
    ensures NoDuplicates(Reduce(state, action).users)
  {
    match action
    case AddUser(user) => WithUserKeepsNoDuplicates(state.users, user);
    case RemoveUser(user) => WithoutUserKeepsNoDuplicates(state.users, user);
    case SetActiveUser(_) =>
    case UpdateUsers(_) =>
    case Other =>
  }
}
