/** The socket events named by `SocketEvent` in src/consts/socketEvent.ts,
    tagged by their wire names. The answer event the signaling hook subscribes
    to is not among them. */
module SocketEvents {
  import opened Wrappers

  datatype SocketEvent =
    | AddUserToList
    | CallMade
    | CallUser
    | MakeAnswer
    | RemoveUserFromList
    | UpdateUsersList

  /** The event's name on the wire. */
  function Name(e: SocketEvent): string
  {
    match e
    case AddUserToList => "add-user-to-list"
    case CallMade => "call-made"
    case CallUser => "call-user"
    case MakeAnswer => "make-answer"
    case RemoveUserFromList => "remove-user-from-list"
    case UpdateUsersList => "update-users-list"
  }

  /** The event a wire name stands for, if any. */
  function Parse(name: string): (r: Option<SocketEvent>)
    ensures r.Some? ==> Name(r.value) == name
  {
    if name == "add-user-to-list" then Some(AddUserToList)
    else if name == "call-made" then Some(CallMade)
    else if name == "call-user" then Some(CallUser)
    else if name == "make-answer" then Some(MakeAnswer)
    else if name == "remove-user-from-list" then Some(RemoveUserFromList)
    else if name == "update-users-list" then Some(UpdateUsersList)
    else None
  }

  /** Every event is recovered from its wire name, so no two events share one. */
  lemma ParseName(e: SocketEvent)
    ensures Parse(Name(e)) == Some(e)
  {
  }

  /** The wire names are pairwise distinct. */
  lemma NamesDistinct(e1: SocketEvent, e2: SocketEvent)
    ensures Name(e1) == Name(e2) <==> e1 == e2
  {
    ParseName(e1);
    ParseName(e2);
  }
}
