/** The client's login / account-creation front end: three UI states, the
    panels each one shows, the messages the buttons send, and the feedback
    chosen for each reply the server sends back. Transport calls and UI
    widgets are reduced to values: a handler returns the new client, the
    text message it sends (if any) and whether it scheduled the timed
    return to the login screen. */
module NetworkClient {
  import opened Wrappers
  import opened Strings
  import opened Unicode
  import opened Framing

  datatype UIState = Login | AccountCreation | Feedback

  /** What the user sees: the current state, the active flag of the login
      panel, the account-creation panel and the feedback text, and that
      text's contents. */
  datatype Client = Client(
    currentState: UIState,
    loginPanelActive: bool,
    accountCreationPanelActive: bool,
    feedbackActive: bool,
    feedbackText: string)

  /** The effect of one event. */
  datatype Step = Step(client: Client, sent: Option<string>, returnScheduled: bool)

  /** What can go wrong while handling an event: a frame the reader cannot
      use, or `Split(':')[1]` on a reply without a ':'. */
  datatype Fault = BadFrame(frameError: FrameError) | SplitIndexOutOfRange

  /** The user-level events the client reacts to; text-field contents
      travel with the button clicks. */
  datatype Event =
    | LoginClicked(username: string, password: string)
    | CreateAccountClicked(username: string, password: string)
    | NewAccountClicked
    | DataReceived(data: seq<Byte>)
    | ReturnTimerFired

  const LoginSuccessTag := "LoginSuccess"
  const LoginFailedTag := "LoginFailed"
  const AccountCreatedTag := "AccountCreated"
  const AccountCreationFailedTag := "AccountCreationFailed"

  const MissingLoginFields := "Please enter both a username and password."
  const MissingAccountFields := "Please enter both a username and password to create an account."
  const LoginSucceededText := "Login successful!"
  const LoginFailedText := "Login failed: "
  const AccountCreatedText := "Account created successfully!"
  const AccountCreationFailedText := "Account creation failed: "
  const UnknownReplyText := "Unknown response from server."

  /** The four reply kinds the client tells apart, and everything else. */
  datatype ReplyKind = LoginSucceeded | LoginRejected | AccountMade | AccountRejected | Unrecognised

  /** Exactly the panel of the current state is active. */
  predicate PanelsMatchState(c: Client) {
    && (c.loginPanelActive <==> c.currentState == Login)
    && (c.accountCreationPanelActive <==> c.currentState == AccountCreation)
    && (c.feedbackActive <==> c.currentState == Feedback)
  }

  function ActivePanels(c: Client): nat {
    (if c.loginPanelActive then 1 else 0)
    + (if c.accountCreationPanelActive then 1 else 0)
    + (if c.feedbackActive then 1 else 0)
  }

  function ChangeUIState(c: Client, newState: UIState): (r: Client)
    ensures r.currentState == newState
    ensures PanelsMatchState(r)
    ensures ActivePanels(r) == 1
    ensures r.feedbackText == c.feedbackText
  {
    Client(newState, newState == Login, newState == AccountCreation, newState == Feedback, c.feedbackText)
  }

  /** Start, after connecting: the login screen. */
  function Start(c: Client): (r: Client)
    ensures r.currentState == Login && r.loginPanelActive
    ensures !r.accountCreationPanelActive && !r.feedbackActive
  {
    ChangeUIState(c, Login)
  }

  /** The timed return fires from whatever state the client is in. */
  function ReturnToLogin(c: Client): (r: Client)
    ensures r.currentState == Login && r.loginPanelActive
    ensures !r.accountCreationPanelActive && !r.feedbackActive
    ensures r.feedbackText == c.feedbackText
  {
    ChangeUIState(c, Login)
  }

  function OnNewAccountButtonClicked(c: Client): (r: Client)
    ensures r.currentState == AccountCreation && r.accountCreationPanelActive
    ensures !r.loginPanelActive && !r.feedbackActive
  {
    ChangeUIState(c, AccountCreation)
  }

  /** Shows message on the feedback panel and schedules ReturnToLogin. */
  function DisplayFeedback(c: Client, message: string): (s: Step)
    ensures s.client.currentState == Feedback && s.client.feedbackActive
    ensures !s.client.loginPanelActive && !s.client.accountCreationPanelActive
    ensures s.client.feedbackText == message
    ensures s.sent == None && s.returnScheduled
  {
    var shown := ChangeUIState(c, Feedback);
    Step(shown.(feedbackText := message), None, true)
  }

  /** The shared shape of both credential buttons: refuse locally when a
      field is empty, otherwise send tag:username:password and change
      nothing else. */
  function SubmitCredentials(c: Client, tag: string, refusal: string, username: string, password: string): (s: Step)
    ensures s.sent.Some? <==> username != [] && password != []
    ensures s.sent.Some? ==> s.sent.value == tag + ":" + username + ":" + password
    ensures s.sent.Some? ==> s.client == c && !s.returnScheduled
    ensures s.sent.None? ==> s == DisplayFeedback(c, refusal)
  {
    if username == [] || password == [] then DisplayFeedback(c, refusal)
    else Step(c, Some(tag + ":" + username + ":" + password), false)
  }

  function OnLoginButtonClicked(c: Client, username: string, password: string): (s: Step)
    ensures s.sent.Some? <==> username != [] && password != []
    ensures s.sent.Some? ==> s.sent.value == "Login:" + username + ":" + password && s.client == c
    ensures s.sent.None? ==> s.client.currentState == Feedback && s.client.feedbackText == MissingLoginFields
    ensures s.sent.None? ==> s == DisplayFeedback(c, MissingLoginFields)
    ensures s.sent.Some? ==> !s.returnScheduled
  {
    SubmitCredentials(c, "Login", MissingLoginFields, username, password)
  }

  function OnCreateAccountButtonClicked(c: Client, username: string, password: string): (s: Step)
    ensures s.sent.Some? <==> username != [] && password != []
    ensures s.sent.Some? ==> s.sent.value == "CreateAccount:" + username + ":" + password && s.client == c
    ensures s.sent.None? ==> s.client.currentState == Feedback && s.client.feedbackText == MissingAccountFields
    ensures s.sent.None? ==> s == DisplayFeedback(c, MissingAccountFields)
    ensures s.sent.Some? ==> !s.returnScheduled
  {
    SubmitCredentials(c, "CreateAccount", MissingAccountFields, username, password)
  }

  /** The first tag, in the order the client tests them, that msg starts with. */
  function Classify(msg: string): (k: ReplyKind)
    ensures k == LoginSucceeded ==> StartsWith(msg, LoginSuccessTag)
    ensures k == LoginRejected ==> StartsWith(msg, LoginFailedTag)
    ensures k == AccountMade ==> StartsWith(msg, AccountCreatedTag)
    ensures k == AccountRejected ==> StartsWith(msg, AccountCreationFailedTag)
    ensures k == Unrecognised <==>
      !StartsWith(msg, LoginSuccessTag) && !StartsWith(msg, LoginFailedTag)
      && !StartsWith(msg, AccountCreatedTag) && !StartsWith(msg, AccountCreationFailedTag)
  {
    if StartsWith(msg, LoginSuccessTag) then LoginSucceeded
    else if StartsWith(msg, LoginFailedTag) then LoginRejected
    else if StartsWith(msg, AccountCreatedTag) then AccountMade
    else if StartsWith(msg, AccountCreationFailedTag) then AccountRejected
    else Unrecognised
  }

  function ProcessReceivedMsg(c: Client, msg: string): (r: Result<Step, Fault>)
    ensures r.Success? ==> r.value.client.currentState == Feedback && PanelsMatchState(r.value.client)
    ensures r.Success? ==> r.value.sent == None && r.value.returnScheduled
    ensures r.Failure? <==> (Classify(msg) == LoginRejected || Classify(msg) == AccountRejected) && ':' !in msg
    ensures r.Failure? ==> r.error == SplitIndexOutOfRange
  {
    match Classify(msg)
    case LoginSucceeded => Success(DisplayFeedback(c, LoginSucceededText))
    case LoginRejected =>
      (match SplitField(msg, ':', 1)
       case Some(reason) => Success(DisplayFeedback(c, LoginFailedText + reason))
       case None => Failure(SplitIndexOutOfRange))
    case AccountMade => Success(DisplayFeedback(c, AccountCreatedText))
    case AccountRejected =>
      (match SplitField(msg, ':', 1)
       case Some(reason) => Success(DisplayFeedback(c, AccountCreationFailedText + reason))
       case None => Failure(SplitIndexOutOfRange))
    case Unrecognised => Success(DisplayFeedback(c, UnknownReplyText))
  }

  /** One Data event: read the frame, then process the message. */
  function OnDataReceived(c: Client, data: seq<Byte>): (r: Result<Step, Fault>)
    ensures r.Success? ==> r.value.client.currentState == Feedback
    ensures r.Failure? && r.error.BadFrame? <==> ReadFrame(data).Failure?
  {
    match ReadFrame(data)
    case Failure(e) => Failure(BadFrame(e))
    case Success(msg) => ProcessReceivedMsg(c, msg)
  }

  function Handle(c: Client, e: Event): Result<Step, Fault>
  {
    match e
    case LoginClicked(u, p) => Success(OnLoginButtonClicked(c, u, p))
    case CreateAccountClicked(u, p) => Success(OnCreateAccountButtonClicked(c, u, p))
    case NewAccountClicked => Success(Step(OnNewAccountButtonClicked(c), None, false))
    case DataReceived(data) => OnDataReceived(c, data)
    case ReturnTimerFired => Success(Step(ReturnToLogin(c), None, false))
  }

  /** The client after a sequence of events; an event whose handler throws
      leaves the client as it was. */
  function Run(c: Client, events: seq<Event>): Client
    decreases |events|
  {
    if |events| == 0 then c
    else
      match Handle(c, events[0])
      case Success(s) => Run(s.client, events[1..])
      case Failure(_) => Run(c, events[1..])
  }

  /* ---------------------------------------------------------------------
     Lemmas
     --------------------------------------------------------------------- */

  /** The four reply tags are pairwise incompatible as prefixes, so at most
      one matches: the order of the tests does not change the outcome. */
  lemma ClassifyByPrefix(msg: string)
    ensures Classify(msg) == LoginSucceeded <==> StartsWith(msg, LoginSuccessTag)
    ensures Classify(msg) == LoginRejected <==> StartsWith(msg, LoginFailedTag)
    ensures Classify(msg) == AccountMade <==> StartsWith(msg, AccountCreatedTag)
    ensures Classify(msg) == AccountRejected <==> StartsWith(msg, AccountCreationFailedTag)
    ensures Classify(msg) == Unrecognised <==>
      !StartsWith(msg, LoginSuccessTag) && !StartsWith(msg, LoginFailedTag)
      && !StartsWith(msg, AccountCreatedTag) && !StartsWith(msg, AccountCreationFailedTag)
  {
    if StartsWith(msg, LoginSuccessTag) {
      assert msg[5] == 'S';
    } else if StartsWith(msg, LoginFailedTag) {
      assert msg[5] == 'F';
    }
    if StartsWith(msg, AccountCreatedTag) {
      assert msg[0] == 'A' && msg[12] == 'e';
    } else if StartsWith(msg, AccountCreationFailedTag) {
      assert msg[0] == 'A' && msg[12] == 'i';
    }
  }

  /** A rejection shows the reason field: the text after the first ':' up
      to the next ':' or the end. */
  lemma RejectionShowsReason(c: Client, reason: string, rest: string)
    requires ':' !in reason
    requires rest == [] || rest[0] == ':'
    ensures ProcessReceivedMsg(c, LoginFailedTag + ":" + reason + rest)
         == Success(DisplayFeedback(c, LoginFailedText + reason))
    ensures ProcessReceivedMsg(c, AccountCreationFailedTag + ":" + reason + rest)
         == Success(DisplayFeedback(c, AccountCreationFailedText + reason))
  {
    var m1 := LoginFailedTag + ":" + reason + rest;
    var m2 := AccountCreationFailedTag + ":" + reason + rest;
    SecondField(LoginFailedTag, ':', reason, rest);
    SecondField(AccountCreationFailedTag, ':', reason, rest);
    assert StartsWith(m1, LoginFailedTag) by { assert m1[..|LoginFailedTag|] == LoginFailedTag; }
    assert StartsWith(m2, AccountCreationFailedTag) by { assert m2[..|AccountCreationFailedTag|] == AccountCreationFailedTag; }
    ClassifyByPrefix(m1);
    ClassifyByPrefix(m2);
  }

  /** The feedback for the replies that carry no reason, stated by which
      tag the reply starts with. */
  lemma AcceptedReplyFeedback(c: Client, msg: string)
    ensures StartsWith(msg, LoginSuccessTag) ==>
      ProcessReceivedMsg(c, msg) == Success(DisplayFeedback(c, LoginSucceededText))
    ensures StartsWith(msg, AccountCreatedTag) ==>
      ProcessReceivedMsg(c, msg) == Success(DisplayFeedback(c, AccountCreatedText))
    ensures (&& !StartsWith(msg, LoginSuccessTag) && !StartsWith(msg, LoginFailedTag)
             && !StartsWith(msg, AccountCreatedTag) && !StartsWith(msg, AccountCreationFailedTag)) ==>
      ProcessReceivedMsg(c, msg) == Success(DisplayFeedback(c, UnknownReplyText))
  {
    ClassifyByPrefix(msg);
  }

  /** The two failure replies show Split(':')[1], and throw without a ':'. */
  lemma RejectedReplyFeedback(c: Client, msg: string)
    ensures StartsWith(msg, LoginFailedTag) && ':' in msg ==>
      ProcessReceivedMsg(c, msg) == Success(DisplayFeedback(c, LoginFailedText + Split(msg, ':')[1]))
    ensures StartsWith(msg, AccountCreationFailedTag) && ':' in msg ==>
      ProcessReceivedMsg(c, msg) == Success(DisplayFeedback(c, AccountCreationFailedText + Split(msg, ':')[1]))
    ensures (StartsWith(msg, LoginFailedTag) || StartsWith(msg, AccountCreationFailedTag)) && ':' !in msg ==>
      ProcessReceivedMsg(c, msg) == Failure(SplitIndexOutOfRange)
  {
    ClassifyByPrefix(msg);
  }

  /** With d-free credentials the sent message splits back into exactly
      its tag, username and password. */
  lemma CredentialsSplitBack(c: Client, username: string, password: string)
    requires username != [] && password != []
    requires ':' !in username && ':' !in password
    ensures Split(OnLoginButtonClicked(c, username, password).sent.value, ':') == ["Login", username, password]
    ensures Split(OnCreateAccountButtonClicked(c, username, password).sent.value, ':') == ["CreateAccount", username, password]
  {
    JoinThree("Login", username, password, ':');
    SplitJoin(["Login", username, password], ':');
    JoinThree("CreateAccount", username, password, ':');
    SplitJoin(["CreateAccount", username, password], ':');
  }

  lemma JoinThree(a: string, b: string, c: string, d: char)
    ensures Join([a, b, c], d) == a + [d] + b + [d] + c
  {
    assert [a, b, c][1..] == [b, c];
    assert [b, c][1..] == [c];
    assert Join([b, c], d) == b + [d] + c;
    assert a + [d] + (b + [d] + c) == a + [d] + b + [d] + c;
  }

  /** Whatever a credential button sends reaches the reader unchanged. */
  lemma SentCredentialsArrive(c: Client, username: string, password: string, rest: seq<Byte>)
    requires username != [] && password != []
    requires |GetBytes("Login:" + username + ":" + password)| <= MaxInt32
    ensures ReadFrame(WriteFrame(OnLoginButtonClicked(c, username, password).sent.value) + rest)
         == Success("Login:" + username + ":" + password)
  {
    FrameRoundTrip("Login:" + username + ":" + password, rest);
  }

  /** A framed reply is processed as if the text had been handed over directly. */
  lemma FramedReplyIsProcessed(c: Client, msg: string, rest: seq<Byte>)
    requires |GetBytes(msg)| <= MaxInt32
    ensures OnDataReceived(c, WriteFrame(msg) + rest) == ProcessReceivedMsg(c, msg)
  {
    FrameRoundTrip(msg, rest);
  }

  /** Every handler keeps exactly the current state's panel active. */
  lemma HandleKeepsPanels(c: Client, e: Event)
    requires PanelsMatchState(c)
    ensures Handle(c, e).Success? ==> PanelsMatchState(Handle(c, e).value.client)
  {
  }

  /** From Start on, whatever events arrive, the panels match the state. */
  lemma {:induction false} RunKeepsPanels(c: Client, events: seq<Event>)
    requires PanelsMatchState(c)
    ensures PanelsMatchState(Run(c, events))
    ensures ActivePanels(Run(c, events)) == 1
    decreases |events|
  {
    if |events| > 0 {
      HandleKeepsPanels(c, events[0]);
      match Handle(c, events[0])
      case Success(s) => RunKeepsPanels(s.client, events[1..]);
      case Failure(_) => RunKeepsPanels(c, events[1..]);
    }
  }

  lemma StartThenRun(c: Client, events: seq<Event>)
    ensures PanelsMatchState(Run(Start(c), events))
  {
    RunKeepsPanels(Start(c), events);
  }
}
