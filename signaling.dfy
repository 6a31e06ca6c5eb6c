/** The signaling handlers of src/hooks/useCallDispatcher.ts: `sendOffer`,
    `callUser`, `onCallMade` and `onAnswerMade`. Each handler's chain of awaits
    is one sequential step; the descriptions `createOffer` and `createAnswer`
    would produce are parameters, and `socket.emit` appends to an outbox.

    The module first gives each step as a function on a dispatcher value, then
    the objects the source mutates (the peer connection, the module-level
    `isAlreadyCalling` latch and the hook) as classes whose methods are proved
    to perform exactly those steps. */
module Signaling {
  import opened Wrappers
  import opened Roster
  import opened CallDispatcher
  import SocketEvents

  /** A session description produced by the peer connection; the model never
      looks inside. */
  datatype Description = Description(sdp: string)

  /** A message emitted to the relay, with the payload fields of the source. */
  datatype Message =
    | CallUser(offer: Description, to: PeerId)
    | MakeAnswer(answer: Description, to: PeerId)

  /** The socket event a message is emitted under. */
  function EventOf(m: Message): (e: SocketEvents.SocketEvent)
    ensures e.CallUser? <==> m.CallUser?
    ensures e.MakeAnswer? <==> m.MakeAnswer?
  {
    match m
    case CallUser(_, _) => SocketEvents.CallUser
    case MakeAnswer(_, _) => SocketEvents.MakeAnswer
  }

  /** Everything the handlers read and write: the reducer state, the two
      descriptions of the peer connection, the outbox and the latch. */
  datatype DispatcherState = DispatcherState(
    state: CallState,
    localDesc: Option<Description>,
    remoteDesc: Option<Description>,
    outbox: seq<Message>,
    isAlreadyCalling: bool)

  /** A fresh hook with the latch as it currently is. */
  function Initial(isAlreadyCalling: bool): DispatcherState
  {
    DispatcherState(InitialState, None, None, [], isAlreadyCalling)
  }

  /** `sendOffer(user)` with `offer` the result of `createOffer()`: the offer
      becomes the local description and is sent to `user`. */
  function SendOfferStep(d: DispatcherState, user: PeerId, offer: Description): DispatcherState
  {
    d.(localDesc := Some(offer), outbox := d.outbox + [CallUser(offer, user)])
  }

  /** `callUser(user)`: mark `user` as the active user, then send it an offer.
      There is no check that a call is already going on. */
  function CallUserStep(d: DispatcherState, user: PeerId, offer: Description): DispatcherState
  {
    SendOfferStep(d.(state := Reduce(d.state, SetActiveUser(user))), user, offer)
  }

  /** `onCallMade({socket, offer})` with `answer` the result of `createAnswer()`. */
  function CallMadeStep(d: DispatcherState, socket: PeerId, offer: Description, answer: Description): DispatcherState
  {
    d.(state := Reduce(d.state, SetActiveUser(socket)),
       remoteDesc := Some(offer),
       localDesc := Some(answer),
       outbox := d.outbox + [MakeAnswer(answer, socket)])
  }

  /** `onAnswerMade({socket, answer})`, with `offer` what `createOffer()` would
      produce for the follow-up offer sent while the latch is still clear. */
  function AnswerMadeStep(d: DispatcherState, socket: PeerId, answer: Description, offer: Description): DispatcherState
  {
    var d1 := d.(remoteDesc := Some(answer));
    if !d1.isAlreadyCalling then SendOfferStep(d1.(isAlreadyCalling := true), socket, offer) else d1
  }

  /** A reducer action dispatched by a roster event or by `setActiveUser`. */
  function DispatchStep(d: DispatcherState, action: CallAction): DispatcherState
  {
    d.(state := Reduce(d.state, action))
  }

  /** The events a dispatcher reacts to, in the order they are processed. */
  datatype Event =
    | Call(user: PeerId, offer: Description)
    | CallMade(socket: PeerId, offer: Description, answer: Description)
    | AnswerMade(socket: PeerId, answer: Description, offer: Description)
    | Dispatch(action: CallAction)

  function Step(d: DispatcherState, e: Event): DispatcherState
  {
    match e
    case Call(user, offer) => CallUserStep(d, user, offer)
    case CallMade(socket, offer, answer) => CallMadeStep(d, socket, offer, answer)
    case AnswerMade(socket, answer, offer) => AnswerMadeStep(d, socket, answer, offer)
    case Dispatch(action) => DispatchStep(d, action)
  }

  function Run(d: DispatcherState, events: seq<Event>): DispatcherState
    decreases |events|
  {
    if events == [] then d else Run(Step(d, events[0]), events[1..])
  }

  /** The number of events that always emit one message: calls placed and
      offers received. */
  function Requests(events: seq<Event>): nat
  {
    if events == [] then 0
    else (if events[0].Call? || events[0].CallMade? then 1 else 0) + Requests(events[1..])
  }

  predicate AnswerArrives(events: seq<Event>)
  {
    exists i :: 0 <= i < |events| && events[i].AnswerMade?
  }

  /** `callUser(user)` makes `user` the active user whatever the current call,
      leaves the roster alone, sets the local description to the offer and
      emits exactly one `call-user` message, to `user`. */
  lemma CallUserSendsOneOffer(d: DispatcherState, user: PeerId, offer: Description)
    ensures CallUserStep(d, user, offer).state == CallState(user, d.state.users)
    ensures CallUserStep(d, user, offer).localDesc == Some(offer)
    ensures CallUserStep(d, user, offer).remoteDesc == d.remoteDesc
    ensures CallUserStep(d, user, offer).outbox == d.outbox + [CallUser(offer, user)]
    ensures CallUserStep(d, user, offer).isAlreadyCalling == d.isAlreadyCalling
  {
  }

  /** An offer from `socket` makes `socket` the active user, installs the offer
      as the remote and the answer as the local description, and emits exactly
      one `make-answer` message, back to `socket`. */
  lemma CallMadeAnswersSender(d: DispatcherState, socket: PeerId, offer: Description, answer: Description)
    ensures CallMadeStep(d, socket, offer, answer).state == CallState(socket, d.state.users)
    ensures CallMadeStep(d, socket, offer, answer).remoteDesc == Some(offer)
    ensures CallMadeStep(d, socket, offer, answer).localDesc == Some(answer)
    ensures CallMadeStep(d, socket, offer, answer).outbox == d.outbox + [MakeAnswer(answer, socket)]
    ensures CallMadeStep(d, socket, offer, answer).isAlreadyCalling == d.isAlreadyCalling
  {
  }

  /** An answer always becomes the remote description and never changes the
      reducer state, whoever sent it; a follow-up offer goes to its sender
      exactly when the latch was clear, and afterwards the latch is set. */
  lemma AnswerMadeFollowsUpOnce(d: DispatcherState, socket: PeerId, answer: Description, offer: Description)
    ensures AnswerMadeStep(d, socket, answer, offer).remoteDesc == Some(answer)
    ensures AnswerMadeStep(d, socket, answer, offer).state == d.state
    ensures AnswerMadeStep(d, socket, answer, offer).isAlreadyCalling
    ensures AnswerMadeStep(d, socket, answer, offer).outbox
            == if d.isAlreadyCalling then d.outbox else d.outbox + [CallUser(offer, socket)]
    ensures AnswerMadeStep(d, socket, answer, offer).localDesc
            == if d.isAlreadyCalling then d.localDesc else Some(offer)
  {
  }

  /** Over any sequence of events the outbox only grows; it gains one message
      per call placed or offer received, plus one follow-up offer when the latch
      was clear and some answer arrived, and never more than that one; the
      latch ends up set exactly when it was set or an answer arrived. */
  lemma {:induction false} RunOutbox(d: DispatcherState, events: seq<Event>)
    ensures d.outbox <= Run(d, events).outbox
    ensures Run(d, events).isAlreadyCalling == (d.isAlreadyCalling || AnswerArrives(events))
    ensures |Run(d, events).outbox|
            == |d.outbox| + Requests(events) + (if !d.isAlreadyCalling && AnswerArrives(events) then 1 else 0)
    decreases |events|
  {
    if events != [] {
      var d1 := Step(d, events[0]);
      RunOutbox(d1, events[1..]);
      assert AnswerArrives(events) <==> events[0].AnswerMade? || AnswerArrives(events[1..]) by {
        if AnswerArrives(events[1..]) {
          var i :| 0 <= i < |events[1..]| && events[1..][i].AnswerMade?;
          assert events[i + 1].AnswerMade?;
        }
        if AnswerArrives(events) && !events[0].AnswerMade? {
          var i :| 0 <= i < |events| && events[i].AnswerMade?;
          assert i != 0 && events[1..][i - 1].AnswerMade?;
        }
      }
    }
  }

  /** A peer connection; only its two descriptions are modelled. */
  class PeerConnection {
    var localDesc: Option<Description>
    var remoteDesc: Option<Description>

    constructor ()
      ensures localDesc == None && remoteDesc == None
    {
      localDesc := None;
      remoteDesc := None;
    }
  }

  /** The module-level `isAlreadyCalling` flag, shared by every hook instance
      and never reset. `followUps` counts the follow-up offers sent by every
      `onAnswerMade` that shares it. */
  class CallingLatch {
    var isAlreadyCalling: bool
    ghost var followUps: nat

    ghost predicate Valid()
      reads this
    {
      followUps == if isAlreadyCalling then 1 else 0
    }

    constructor ()
      ensures Valid() && !isAlreadyCalling && followUps == 0
    {
      isAlreadyCalling := false;
      followUps := 0;
    }
  }

  /** One instance of the hook: its reducer state, its own peer connection, the
      messages it has emitted, and the shared latch. */
  class Dispatcher {
    var state: CallState
    var outbox: seq<Message>
    const peerConnection: PeerConnection
    const latch: CallingLatch

    constructor (latch: CallingLatch)
      ensures this.latch == latch && fresh(peerConnection)
      ensures Value() == Initial(latch.isAlreadyCalling)
    {
      state := InitialState;
      outbox := [];
      peerConnection := new PeerConnection();
      this.latch := latch;
    }

    /** The dispatcher as a value of the step model. */
    function Value(): DispatcherState
      reads this, peerConnection, latch
    {
      DispatcherState(state, peerConnection.localDesc, peerConnection.remoteDesc, outbox, latch.isAlreadyCalling)
    }

    method SendOffer(user: PeerId, offer: Description)
      modifies this, peerConnection
      ensures state == old(state)
      ensures peerConnection.localDesc == Some(offer)
      ensures peerConnection.remoteDesc == old(peerConnection.remoteDesc)
      ensures outbox == old(outbox) + [Message.CallUser(offer, user)]
      ensures Value() == SendOfferStep(old(Value()), user, offer)
    {
      peerConnection.localDesc := Some(offer);
      outbox := outbox + [Message.CallUser(offer, user)];
    }

    method CallUser(user: PeerId, offer: Description)
      modifies this, peerConnection
      ensures state == CallState(user, old(state.users))
      ensures peerConnection.localDesc == Some(offer)
      ensures peerConnection.remoteDesc == old(peerConnection.remoteDesc)
      ensures outbox == old(outbox) + [Message.CallUser(offer, user)]
      ensures Value() == CallUserStep(old(Value()), user, offer)
    {
      state := Reduce(state, CallAction.SetActiveUser(user));
      SendOffer(user, offer);
    }

    method OnCallMade(socket: PeerId, offer: Description, answer: Description)
      modifies this, peerConnection
      ensures state == CallState(socket, old(state.users))
      ensures peerConnection.remoteDesc == Some(offer)
      ensures peerConnection.localDesc == Some(answer)
      ensures outbox == old(outbox) + [MakeAnswer(answer, socket)]
      ensures Value() == CallMadeStep(old(Value()), socket, offer, answer)
    {
      state := Reduce(state, CallAction.SetActiveUser(socket));
      peerConnection.remoteDesc := Some(offer);
      peerConnection.localDesc := Some(answer);
      outbox := outbox + [MakeAnswer(answer, socket)];
    }

    method OnAnswerMade(socket: PeerId, answer: Description, offer: Description)
      requires latch.Valid()
      modifies this, peerConnection, latch
      ensures latch.Valid() && latch.isAlreadyCalling && latch.followUps <= 1
      ensures latch.followUps == old(latch.followUps) + (if old(latch.isAlreadyCalling) then 0 else 1)
      ensures state == old(state)
      ensures peerConnection.remoteDesc == Some(answer)
      ensures outbox == if old(latch.isAlreadyCalling) then old(outbox)
                        else old(outbox) + [Message.CallUser(offer, socket)]
      ensures Value() == AnswerMadeStep(old(Value()), socket, answer, offer)
    {
      peerConnection.remoteDesc := Some(answer);
      if !latch.isAlreadyCalling {
        latch.isAlreadyCalling := true;
        latch.followUps := latch.followUps + 1;
        SendOffer(socket, offer);
      }
    }

    /** The `setActiveUser` the hook returns. */
    method SetActiveUser(user: PeerId)
      modifies this
      ensures state == CallState(user, old(state.users)) && outbox == old(outbox)
      ensures Value() == DispatchStep(old(Value()), CallAction.SetActiveUser(user))
    {
      state := Reduce(state, CallAction.SetActiveUser(user));
    }

    /** The reducer action a roster event (`add-user-to-list`,
        `remove-user-from-list`, `update-users-list`) dispatches. */
    method Dispatch(action: CallAction)
      modifies this
      ensures state == Reduce(old(state), action) && outbox == old(outbox)
      ensures Value() == DispatchStep(old(Value()), action)
    {
      state := Reduce(state, action);
    }
  }
}
