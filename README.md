# Roster-and-call dispatcher of react-webrtc-sample

This project models the client-side call dispatcher of a browser video-call
demo and proves properties of the model. The dispatcher has three parts:

- **Roster reducers.** Two pure reducers keep the list of peer ids the relay
  reports online. `useSocket` keeps only the list. `useCallDispatcher` also
  keeps `activeUser`, the peer of the current call, where `""` means "no call".
  Both use the same two list operations: an idempotent insert and a filter.
  These are modelled once, in module `Roster`.
- **Signaling handlers.** `sendOffer`, `callUser`, `onCallMade` and
  `onAnswerMade` drive an offer/answer exchange. Each handler's chain of awaits
  is one sequential step. `Signaling` gives each step first as a function on
  a `DispatcherState` value. It then gives the mutable objects as classes:
  the peer connection with its two descriptions, the module-level
  `isAlreadyCalling` latch (shared by every hook instance and never reset),
  and the hook, whose `outbox` collects what `socket.emit` sends. Each method
  is proved to perform exactly its step. `RunOutbox` counts what any sequence
  of events emits. In particular, `onAnswerMade` sends at most one follow-up
  offer over the whole run, and the ghost counter on the latch bounds it to
  one across all hook instances too.
- **The busy guard in the view.** `VideoCall` models the drawer flag, the
  existing-call notice flag, `handleSelectUser`, `handleEndCall` and the
  header title. The "already in a call" check lives here: `callUser` itself
  calls whoever it is given. `SelectionsFromIdle` and `SelectionsWhileBusy`
  prove that from an idle view, any run of selections whose first pick is a
  peer id sends exactly one offer, to that first user. Picking `""` would
  leave the view idle, and the next pick would call again.

The values `createOffer()` and `createAnswer()` would produce are parameters
(`offer`, `answer`). The model never looks inside a session description.

What the code does not do:
- It keeps no call phase: the only call state is `activeUser`.
- `callUser` does not reject a second call; only the view's guard does.
- `onCallMade` accepts an offer whatever the current call.
- `onAnswerMade` accepts an answer from any peer, not only the one being called,
  and always installs it as the remote description.
- The latch allows one follow-up offer per page load, not one per call.
- The hook has no end-call, ICE-candidate or call-ended handling.
- `onAnswerMade` is registered under `SocketEvent.AnswerMade`
  (src/hooks/useCallDispatcher.ts:175), a name the event enum in
  src/consts/socketEvent.ts does not define; at run time the subscription's
  event name is `undefined`, so the relay's answers need not reach the handler.
  The model assumes the handler runs once for each inbound answer.

## Model

| member | source | states |
|---|---|---|
| Roster.WithUser | src/hooks/useSocket.ts:50 | the insert contains exactly the old users plus `user`; it equals the old list iff `user` was listed; otherwise the old list is a prefix and `user` is the one element appended |
| Roster.WithoutUser | src/hooks/useSocket.ts:59 | the filter contains exactly the old users other than `user`, is no longer than the input, and is the input itself when `user` is absent |
| Roster.WithoutUserConcat | src/hooks/useSocket.ts:59 | filtering distributes over concatenation, so survivors keep their relative order |
| Roster.WithoutUserCounts | src/hooks/useSocket.ts:59 | the filter drops every occurrence of `user` and keeps every other element as many times as it occurred |
| Roster.RemoveAfterAdd | src/hooks/useSocket.ts:50-59 | for a user not listed, filtering it out after inserting it restores the list |
| Roster.WithUserIdempotent | src/hooks/useSocket.ts:50 | inserting twice is inserting once |
| Roster.WithoutUserIdempotent | src/hooks/useSocket.ts:59 | filtering twice is filtering once |
| Roster.WithUserKeepsNoDuplicates | src/hooks/useSocket.ts:50 | the insert keeps a duplicate-free list duplicate-free |
| Roster.WithoutUserKeepsNoDuplicates | src/hooks/useSocket.ts:59 | the filter keeps a duplicate-free list duplicate-free |
| SocketEvents.Parse | src/consts/socketEvent.ts:1-8 | a wire name that parses names the event parsed |
| SocketEvents.ParseName | src/consts/socketEvent.ts:1-8 | every event is recovered from its wire name |
| SocketEvents.NamesDistinct | src/consts/socketEvent.ts:1-8 | two events have the same wire name iff they are the same event |
| SocketRoster.Reduce | src/hooks/useSocket.ts:41-75 | AddUser yields the old users plus the user, RemoveUser the old users minus the user, UpdateUsers exactly the payload, any other action the unchanged state |
| SocketRoster.AddUserIdempotent | src/hooks/useSocket.ts:45-52 | adding a listed user changes nothing, adding an absent one appends it at the end, adding twice is adding once |
| SocketRoster.RemoveUserFilters | src/hooks/useSocket.ts:54-61 | removal keeps every other user with its multiplicity and relative order, and drops every occurrence of the removed one; removing an absent user changes nothing |
| SocketRoster.RemoveUndoesAdd | src/hooks/useSocket.ts:45-61 | for a user not listed, RemoveUser after AddUser restores the state |
| SocketRoster.ReduceKeepsNoDuplicates | src/hooks/useSocket.ts:41-75 | every action keeps the roster duplicate-free, a full update provided its payload is |
| SocketRoster.UpdateUsersReplaces | src/hooks/useSocket.ts:63-70 | a full update gives the payload whatever the previous roster |
| SocketRoster.InitialStateEmpty | src/hooks/useSocket.ts:72-79 | the initial roster is empty and unrecognised actions leave the state unchanged |
| CallDispatcher.Reduce | src/hooks/useCallDispatcher.ts:57-102 | only SetActiveUser can set a new active user (the others keep it or clear it); SetActiveUser keeps the roster; a full update makes the roster exactly the payload, after which a non-empty active user is listed; roster actions preserve "the active user is listed" |
| CallDispatcher.AddUserKeepsCall | src/hooks/useCallDispatcher.ts:61-67 | AddUser never changes the active user, appends only an absent user, and is idempotent |
| CallDispatcher.RemoveUserEndsItsCall | src/hooks/useCallDispatcher.ts:70-77 | RemoveUser's roster is exactly the filter of the old one (every other user with its multiplicity and order, the removed one gone), and the reducer clears the active user exactly when the removed user is the active one |
| CallDispatcher.SetActiveUserOnly | src/hooks/useCallDispatcher.ts:80-86 | SetActiveUser changes the active user and nothing else, listed or not |
| CallDispatcher.UpdateUsersKeepsListedCall | src/hooks/useCallDispatcher.ts:89-97 | a full update makes the roster exactly the payload whatever the state; a current call is kept exactly when its peer is in the new list and cleared otherwise; with no call it stays with no call |
| CallDispatcher.InitialAndOther | src/hooks/useCallDispatcher.ts:99-107 | the initial state has no call and no roster; an unrecognised action changes nothing |
| CallDispatcher.ReduceKeepsNoDuplicates | src/hooks/useCallDispatcher.ts:57-102 | every action keeps the roster duplicate-free, a full update provided its payload is |
| Signaling.EventOf | src/hooks/useCallDispatcher.ts:132-155 | each outbound message is emitted under its own event: call-user for offers, make-answer for answers |
| Signaling.CallUserSendsOneOffer | src/hooks/useCallDispatcher.ts:127-142 | callUser makes the user active whatever the current call, keeps the roster and remote description, sets the local description to the offer and emits exactly one call-user message to that user |
| Signaling.CallMadeAnswersSender | src/hooks/useCallDispatcher.ts:144-156 | an inbound offer makes its sender active, becomes the remote description, and the answer becomes the local one and is emitted once to the sender |
| Signaling.AnswerMadeFollowsUpOnce | src/hooks/useCallDispatcher.ts:158-168 | an answer always becomes the remote description and never changes the reducer state; a follow-up offer goes to the sender iff the latch was clear; the latch is set afterwards |
| Signaling.RunOutbox | src/hooks/useCallDispatcher.ts:109-168 | over any event sequence the outbox only grows, by one per call placed or offer received plus one follow-up iff the latch was clear and an answer arrived; the latch ends set iff it was set or an answer arrived |
| Signaling.PeerConnection.constructor | src/hooks/useCallDispatcher.ts:117-120 | a new peer connection has no descriptions |
| Signaling.CallingLatch.constructor | src/hooks/useCallDispatcher.ts:109 | the latch starts clear with no follow-up sent |
| Signaling.Dispatcher.constructor | src/hooks/useCallDispatcher.ts:112-125 | a hook starts from the initial reducer state with an empty outbox, its own fresh peer connection and the shared latch |
| Signaling.Dispatcher.SendOffer | src/hooks/useCallDispatcher.ts:127-136 | the offer becomes the local description and one call-user message to the user is appended; nothing else changes |
| Signaling.Dispatcher.CallUser | src/hooks/useCallDispatcher.ts:138-142 | the user becomes active, the offer becomes the local description, one call-user message to the user is appended |
| Signaling.Dispatcher.OnCallMade | src/hooks/useCallDispatcher.ts:144-156 | the sender becomes active, the offer becomes the remote description, the answer the local one, one make-answer message to the sender is appended |
| Signaling.Dispatcher.OnAnswerMade | src/hooks/useCallDispatcher.ts:158-168 | the answer becomes the remote description, the reducer state is kept, a follow-up offer is appended iff the latch was clear, the latch is set, and the follow-up count over all hooks sharing the latch stays at most one |
| Signaling.Dispatcher.SetActiveUser | src/hooks/useCallDispatcher.ts:191-193 | sets the active user and changes nothing else |
| Signaling.Dispatcher.Dispatch | src/hooks/useCallDispatcher.ts:171-185 | a roster event applies its reducer action and emits nothing |
| VideoCall.HeaderTitle | src/containers/VideoCall/VideoCall.tsx:103 | the title is "Start Call" iff there is no active user |
| VideoCall.TitleRoundTrip | src/containers/VideoCall/VideoCall.tsx:103 | the active user is read back from the title, so distinct calls show distinct titles |
| VideoCall.SelectionsWhileBusy | src/containers/VideoCall/VideoCall.tsx:75-91 | while a call is active, no selection reaches the dispatcher or the drawer, and any selection raises the notice |
| VideoCall.SelectionsFromIdle | src/containers/VideoCall/VideoCall.tsx:75-91 | from no call, any run of selections whose first pick is a peer id calls exactly that first user, sends exactly one offer, closes the drawer, and raises the notice iff there was a later pick |
| VideoCall.VideoCallView.constructor | src/containers/VideoCall/VideoCall.tsx:47-49 | both flags start false |
| VideoCall.VideoCallView.HandleUsersListOpen | src/containers/VideoCall/VideoCall.tsx:71-73 | the drawer flag becomes true (idempotently) and the notice flag is kept |
| VideoCall.VideoCallView.HandleUsersListClose | src/containers/VideoCall/VideoCall.tsx:67-69 | the drawer flag becomes false (idempotently) and the notice flag is kept |
| VideoCall.VideoCallView.HandleSelectUser | src/containers/VideoCall/VideoCall.tsx:75-91 | with no call: callUser runs once for the user and the drawer closes, the notice untouched; with a call: the dispatcher is untouched, the notice is raised and the drawer flag kept |
| VideoCall.VideoCallView.HandleEndCall | src/containers/VideoCall/VideoCall.tsx:93-95 | the argument passed to endCall is exactly the current active user |
| VideoCall.VideoCallView.HandleExistingCallNotificationClose | src/containers/VideoCall/VideoCall.tsx:97-99 | the notice flag becomes false and the drawer flag is kept |

## Left out

- Socket transport: `io(SOCKET_ENDPOINT)` and the `socket.on` registrations are network I/O. Inbound events are method calls, and `socket.emit` is an append to `outbox`.
- Peer-connection internals: SDP generation and the promise scheduling of `createOffer`, `createAnswer`, `setLocalDescription` and `setRemoteDescription` are browser APIs. Descriptions are opaque values and each await chain is one atomic step, so interleavings of two handlers suspended at an await are not modelled.
- Rejected promises: a failing `createOffer` or description call, and the `catch` in `handleSelectUser` that rethrows, are not modelled. Every step succeeds.
- VideoCall.VideoCallView.HandleSelectUser: reads the dispatcher's current `activeUser`. The component reads the value captured at its last render, which may be stale until React re-renders.
- VideoCall.VideoCallView.HandleEndCall: `endCall` is an opaque callback, and the method only yields the argument it receives. The hook's return value has no `endCall`, `localStream`, `remoteStream`, `currentId` or video-node members, so what ending a call does is not part of this model.
- End-call, ICE candidates, call-ended teardown and media streams: none of these exists in the hook or in the event list, so none is modelled.
- Media capture and playback (`getUserMedia`, `srcObject`, `track.stop()` in the VideoPreview container) are browser media I/O.
- Presentation: JSX, styles, the users list, the preview components, the App container and the entry point.
- Build configuration: the webpack files.
- Action tags: the reducers switch on a string `type`. The model has one constructor per action and `Other` for any other type, which reaches the default branch.

