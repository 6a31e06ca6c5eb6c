/** The call logic of the VideoCall container (src/containers/VideoCall/VideoCall.tsx):
    the users-list drawer flag, the "you have an existing call" notice flag,
    the busy guard in `handleSelectUser`, `handleEndCall`, and the header
    title. The guard is where "already in a call" is enforced: `callUser`
    itself does not check it. */
module VideoCall {
  import opened Roster
  import opened CallDispatcher
  import opened Signaling

  const StartCallTitle: string := "Start Call"
  const CallTitlePrefix: string := "Call with user \"#"
  const CallTitleSuffix: string := "\""

  /** `callHeaderTitle`: names the peer of the current call, if any. */
  function HeaderTitle(activeUser: PeerId): (title: string)
    ensures title == StartCallTitle <==> activeUser == NoCall
  {
    if activeUser != NoCall then CallTitlePrefix + activeUser + CallTitleSuffix else StartCallTitle
  }

  /** Reads the peer back from a header title; "" for the idle title. */
  function ActiveUserOfTitle(title: string): PeerId
  {
    var p, s := |CallTitlePrefix|, |CallTitleSuffix|;
    if |title| >= p + s && title[..p] == CallTitlePrefix && title[|title| - s..] == CallTitleSuffix
    then title[p..|title| - s]
    else NoCall
  }

  /** The title determines the active user: distinct calls show distinct
      titles, and the idle title is shown only when there is no call. */
  lemma TitleRoundTrip(activeUser: PeerId)
    ensures ActiveUserOfTitle(HeaderTitle(activeUser)) == activeUser
  {
    var title := HeaderTitle(activeUser);
    var p, s := |CallTitlePrefix|, |CallTitleSuffix|;
    if activeUser != NoCall {
      assert title[..p] == CallTitlePrefix;
      assert title[|title| - s..] == CallTitleSuffix;
      assert title[p..|title| - s] == activeUser;
    }
  }

  /** The view's two flags together with the dispatcher it renders. */
  datatype ViewState = ViewState(isUsersListOpen: bool, showExistingCall: bool, dispatcher: DispatcherState)

  /** `handleSelectUser(user)`, with `offer` what the call's `createOffer()`
      produces: call the user and close the drawer when there is no call,
      otherwise only raise the existing-call notice. */
  function SelectUserStep(v: ViewState, user: PeerId, offer: Description): ViewState
  {
    if v.dispatcher.state.activeUser == NoCall
    then v.(dispatcher := CallUserStep(v.dispatcher, user, offer), isUsersListOpen := false)
    else v.(showExistingCall := true)
  }

  /** A sequence of selections from the users list, each with its offer. */
  function SelectAll(v: ViewState, picks: seq<(PeerId, Description)>): ViewState
    decreases |picks|
  {
    if picks == [] then v else SelectAll(SelectUserStep(v, picks[0].0, picks[0].1), picks[1..])
  }

  /** While a call is going on, no selection reaches the dispatcher: nothing is
      sent, the drawer stays as it is, and the notice is raised. */
  lemma {:induction false} SelectionsWhileBusy(v: ViewState, picks: seq<(PeerId, Description)>)
    requires v.dispatcher.state.activeUser != NoCall
    ensures SelectAll(v, picks).dispatcher == v.dispatcher
    ensures SelectAll(v, picks).isUsersListOpen == v.isUsersListOpen
    ensures SelectAll(v, picks).showExistingCall == (v.showExistingCall || |picks| > 0)
    decreases |picks|
  {
    if picks != [] {
      SelectionsWhileBusy(SelectUserStep(v, picks[0].0, picks[0].1), picks[1..]);
    }
  }

  /** From no call, any sequence of selections calls exactly the first user
      picked and sends exactly one offer; every later pick only raises the
      notice. */
  lemma SelectionsFromIdle(v: ViewState, picks: seq<(PeerId, Description)>)
    requires v.dispatcher.state.activeUser == NoCall
    requires |picks| > 0 && picks[0].0 != NoCall
    ensures SelectAll(v, picks).dispatcher == CallUserStep(v.dispatcher, picks[0].0, picks[0].1)
    ensures |SelectAll(v, picks).dispatcher.outbox| == |v.dispatcher.outbox| + 1
    ensures !SelectAll(v, picks).isUsersListOpen
    ensures SelectAll(v, picks).showExistingCall == (v.showExistingCall || |picks| > 1)
  {
    var v1 := SelectUserStep(v, picks[0].0, picks[0].1);
    SelectionsWhileBusy(v1, picks[1..]);
  }

  /** The VideoCall component: its two `useState` flags and the hook it uses. */
  class VideoCallView {
    var isUsersListOpen: bool
    var showExistingCall: bool
    const dispatcher: Dispatcher

    constructor (dispatcher: Dispatcher)
      ensures !isUsersListOpen && !showExistingCall && this.dispatcher == dispatcher
    {
      isUsersListOpen := false;
      showExistingCall := false;
      this.dispatcher := dispatcher;
    }

    /** The view as a value of the step model. */
    function Value(): ViewState
      reads this, dispatcher, dispatcher.peerConnection, dispatcher.latch
    {
      ViewState(isUsersListOpen, showExistingCall, dispatcher.Value())
    }

    method HandleUsersListOpen()
      modifies this
      ensures isUsersListOpen && showExistingCall == old(showExistingCall)
    {
      isUsersListOpen := true;
    }

    method HandleUsersListClose()
      modifies this
      ensures !isUsersListOpen && showExistingCall == old(showExistingCall)
    {
      isUsersListOpen := false;
    }

    method HandleSelectUser(user: PeerId, offer: Description)
      modifies this, dispatcher, dispatcher.peerConnection
      ensures Value() == SelectUserStep(old(Value()), user, offer)
      ensures old(dispatcher.state.activeUser) == NoCall ==>
                !isUsersListOpen && showExistingCall == old(showExistingCall) &&
                dispatcher.state.activeUser == user &&
                dispatcher.outbox == old(dispatcher.outbox) + [Message.CallUser(offer, user)]
      ensures old(dispatcher.state.activeUser) != NoCall ==>
                showExistingCall && isUsersListOpen == old(isUsersListOpen) &&
                unchanged(dispatcher, dispatcher.peerConnection)
    {
      if dispatcher.state.activeUser == NoCall {
        dispatcher.CallUser(user, offer);
        HandleUsersListClose();
      } else {
        showExistingCall := true;
      }
    }

    /** The argument `handleEndCall` passes to the `endCall` callback. */
    method HandleEndCall() returns (endCallArg: PeerId)
      ensures endCallArg == dispatcher.state.activeUser
    {
      endCallArg := dispatcher.state.activeUser;
    }

    method HandleExistingCallNotificationClose()
      modifies this
      ensures !showExistingCall && isUsersListOpen == old(isUsersListOpen)
    {
      showExistingCall := false;
    }
  }
}
