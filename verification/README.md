# TicTacToeClient in Dafny

A model of the two sequential pieces of the Unity tic-tac-toe client:

* **The game engine** (`TicTacToe`): a nine-cell board of `None | X | O`,
  the player whose turn it is and a game-ended flag. `ResetBoard` restores
  the start position, `MakeMove` places the current player's mark, scans
  the eight winning triples and either ends the game (the winner stays
  current) or switches the player. The getters `GetBoard`,
  `GetCurrentPlayer` and `IsGameEnded` are the fields of the `Game` value.
* **The login front end** (`NetworkClient`): a three-state UI
  (`Login | AccountCreation | Feedback`) whose state decides which of
  three panels is active. The login and create-account buttons validate
  their two text fields and send `Login:<user>:<pass>` or
  `CreateAccount:<user>:<pass>`. Server replies are matched by prefix
  (`LoginSuccess`, `LoginFailed`, `AccountCreated`,
  `AccountCreationFailed`, anything else). Every reply the client handles
  without throwing ends on the feedback screen, with a timed return to
  login. A failure reply without ':' throws in `Split(':')[1]` and leaves
  the screen as it was. The model also rejects a frame that is truncated
  or not well-formed UTF-16LE (see "Left out").
* **The wire** (`Framing`, `Unicode`, `Strings`): every message travels as a
  4-byte int header holding the payload byte count, then the text in
  `Encoding.Unicode` (UTF-16, low byte first). `Strings` models the
  `StartsWith` and `Split(':')` the reply handling relies on.

Handlers are pure functions. Each takes the client value and returns the
new client, or a `Step` when it may send a message or schedule the return:
the new client, the text message sent (if any) and whether
`ReturnToLogin` was scheduled. An exception the source would throw is a
`Failure` of a `Result`. Field contents are passed as parameters of the
button events.

The client has three UI states and handles four reply tags; there are no
rooms, turns or board messages. The engine has no bounds check and no draw
detection.

## Model

| member | source | states |
|---|---|---|
| TicTacToe.ResetBoard | Assets/Scripts/TicTacToe.cs:10-23 | all nine cells are empty, X is to move and the game is not ended, whatever the game was before |
| TicTacToe.ResetBoardIdempotent | Assets/Scripts/TicTacToe.cs:15-23 | resetting twice equals resetting once, and the reset state satisfies the reachable-state invariant |
| TicTacToe.SwitchPlayer | Assets/Scripts/TicTacToe.cs:40-43 | the result is a real mark different from the input, and X when no player was set |
| TicTacToe.SwitchPlayerInvolution | Assets/Scripts/TicTacToe.cs:40-43 | switching a real mark twice gives back that mark |
| TicTacToe.ScanCombos | Assets/Scripts/TicTacToe.cs:54-62 | the scan from combo i on is true exactly when some later combo holds three equal marks |
| TicTacToe.CheckForWinner | Assets/Scripts/TicTacToe.cs:45-63 | the scan of the eight triples is true exactly when some player fills a row, a column or a diagonal |
| TicTacToe.CombosAreLines | Assets/Scripts/TicTacToe.cs:47-52 | the eight index triples are exactly the three rows, three columns and two diagonals of the board |
| TicTacToe.MakeMove | Assets/Scripts/TicTacToe.cs:25-38 | an occupied cell or an ended game changes nothing and returns false; a legal move writes only the target cell, with the mover's mark; it returns true exactly when the board then has a winning line; a win ends the game and keeps the mover current, any other move switches the player and leaves the game running |
| TicTacToe.NewLineIsMover | Assets/Scripts/TicTacToe.cs:29-30 | a line that did not exist before a write belongs to the player who wrote |
| TicTacToe.MakeMovePreservesValid | Assets/Scripts/TicTacToe.cs:25-43 | a move keeps the invariant: X has as many marks as O or one more; X is to move exactly when the counts are equal (one more after X wins); an ended game has a line of the current player, a running one has no line |
| TicTacToe.PlayPreservesValid | Assets/Scripts/TicTacToe.cs:25-43 | any sequence of moves keeps that invariant |
| TicTacToe.ReachableFromReset | Assets/Scripts/TicTacToe.cs:15-43 | after a reset and any moves, the X count minus the O count is 0 or 1, X is to move while running exactly when the counts are equal, and the game is ended only with a winning line of the current player |
| TicTacToe.LegalMoveFillsOneCell | Assets/Scripts/TicTacToe.cs:27-29 | a legal move takes exactly one empty cell and adds exactly one mark of the mover |
| TicTacToe.FullBoardIsFrozen | Assets/Scripts/TicTacToe.cs:27-37 | without draw detection, a full board without a winner is not ended, and every further move returns false and changes nothing |
| Strings.Split | Assets/Scripts/NetworkClient.cs:80 | a string with no delimiter is one part; every part is free of the delimiter; joining the parts with the delimiter gives the string back |
| Strings.SplitField | Assets/Scripts/NetworkClient.cs:80 | indexing the split result succeeds exactly when the index is in range, and then yields that part of the split, which holds no delimiter |
| Strings.SplitAfterPiece | Assets/Scripts/NetworkClient.cs:80 | a delimiter-free piece followed by the delimiter splits off as the first part |
| Strings.SplitJoin | Assets/Scripts/NetworkClient.cs:48 | splitting the join of delimiter-free parts gives back exactly those parts |
| Strings.SecondField | Assets/Scripts/NetworkClient.cs:88 | field 1 of tag:field:... is the text between the first and the second delimiter |
| Unicode.CharToUnits | Assets/Scripts/NetworkClient.cs:197 | a BMP character is the one code unit of its own value, any other character a high surrogate followed by a low surrogate |
| Unicode.ToUtf16 | Assets/Scripts/NetworkClient.cs:197 | a string takes between one and two code units per character; BMP text is exactly its characters' values |
| Unicode.FromUtf16 | Assets/Scripts/NetworkClient.cs:172 | code units outside the surrogate range decode one character each, to the character of that value |
| Unicode.UnitsToBytes | Assets/Scripts/NetworkClient.cs:197 | the encoding takes exactly two bytes per code unit |
| Unicode.UnitsToBytesLayout | Assets/Scripts/NetworkClient.cs:197 | code unit k is written as bytes 2k and 2k+1, low byte first |
| Unicode.BytesToUnits | Assets/Scripts/NetworkClient.cs:172 | byte pairs decode exactly when the byte count is even, and re-encode to the same bytes |
| Unicode.GetBytes | Assets/Scripts/NetworkClient.cs:197 | the encoding takes two bytes per code unit; for BMP text, bytes 2k and 2k+1 are character k's value, low byte first |
| Unicode.GetString | Assets/Scripts/NetworkClient.cs:172 | any decoded text re-encodes to exactly the bytes it came from |
| Unicode.FromUtf16OfChar | Assets/Scripts/NetworkClient.cs:172 | decoding the units of one character followed by more units yields that character in front of the rest |
| Unicode.FromUtf16ToUtf16 | Assets/Scripts/NetworkClient.cs:172 | decoding the UTF-16 units of any string gives the string back |
| Unicode.FromUtf16Inverse | Assets/Scripts/NetworkClient.cs:172 | units that decode are exactly the encoding of what they decode to |
| Unicode.BytesToUnitsOfUnits | Assets/Scripts/NetworkClient.cs:172 | reading back the little-endian bytes of code units gives the same units |
| Unicode.GetStringOfGetBytes | Assets/Scripts/NetworkClient.cs:172 | GetString undoes GetBytes for every string |
| Framing.ReadInt | Assets/Scripts/NetworkClient.cs:168 | the header read is a signed 32-bit value |
| Framing.WriteInt | Assets/Scripts/NetworkClient.cs:202 | four bytes, from which the reader gets the same int back whatever follows them |
| Framing.WriteFrame | Assets/Scripts/NetworkClient.cs:195-207 | the frame is a header holding the payload byte count, followed by exactly the encoded payload |
| Framing.ReadFrame | Assets/Scripts/NetworkClient.cs:167-175 | a frame shorter than its header, a negative header or a payload shorter than announced each fail with their own error; a decoded message re-encodes to exactly the announced payload bytes |
| Framing.FrameRoundTrip | Assets/Scripts/NetworkClient.cs:167-175 | reading a frame the writer produced gives back the original message, whatever follows it in the stream |
| Framing.BmpFrameSize | Assets/Scripts/NetworkClient.cs:197-203 | a BMP message of n characters has a header of 2n and a frame of 4 + 2n bytes |
| NetworkClient.ChangeUIState | Assets/Scripts/NetworkClient.cs:28-35 | the state becomes the new one and exactly one panel is active: login iff Login, account creation iff AccountCreation, feedback iff Feedback |
| NetworkClient.Start | Assets/Scripts/NetworkClient.cs:110-119 | the client starts on the login screen with only the login panel active |
| NetworkClient.ReturnToLogin | Assets/Scripts/NetworkClient.cs:104-107 | from any state, including account creation, the client returns to the login screen with only the login panel active |
| NetworkClient.OnNewAccountButtonClicked | Assets/Scripts/NetworkClient.cs:65-68 | the client shows the account-creation screen only |
| NetworkClient.DisplayFeedback | Assets/Scripts/NetworkClient.cs:96-101 | the feedback screen only is shown, holding the given text; nothing is sent and the return to login is scheduled |
| NetworkClient.SubmitCredentials | Assets/Scripts/NetworkClient.cs:37-63 | a message is sent exactly when both fields are non-empty, as tag:user:pass, leaving the client untouched; otherwise the refusal feedback is shown and nothing is sent |
| NetworkClient.OnLoginButtonClicked | Assets/Scripts/NetworkClient.cs:37-49 | with both fields filled, exactly `Login:user:pass` is sent, the screen is unchanged and no return is scheduled; with either field empty nothing is sent, only the feedback panel is shown asking for both fields, and the return to login is scheduled |
| NetworkClient.OnCreateAccountButtonClicked | Assets/Scripts/NetworkClient.cs:51-63 | with both fields filled, exactly `CreateAccount:user:pass` is sent, the screen is unchanged and no return is scheduled; with either field empty nothing is sent, only the feedback panel is shown asking for both fields, and the return to login is scheduled |
| NetworkClient.ProcessReceivedMsg | Assets/Scripts/NetworkClient.cs:70-94 | every reply handled ends on the feedback screen with the return scheduled and nothing sent; it fails (Split index out of range) exactly for a failure reply without ':' |
| NetworkClient.Classify | Assets/Scripts/NetworkClient.cs:74-93 | a reply is classed by a tag only if it starts with that tag, and is unrecognised exactly when it starts with none of the four |
| NetworkClient.ClassifyByPrefix | Assets/Scripts/NetworkClient.cs:74-93 | a reply is classed by tag T exactly when it starts with T; the four tags exclude each other, so the order of the tests does not matter |
| NetworkClient.AcceptedReplyFeedback | Assets/Scripts/NetworkClient.cs:74-93 | a reply starting with LoginSuccess or AccountCreated shows its success text, and one starting with none of the four tags shows "Unknown response from server." |
| NetworkClient.RejectedReplyFeedback | Assets/Scripts/NetworkClient.cs:78-89 | a LoginFailed or AccountCreationFailed reply shows its prefix text followed by Split(':')[1], and throws when it holds no ':' |
| NetworkClient.RejectionShowsReason | Assets/Scripts/NetworkClient.cs:80-88 | for LoginFailed:reason and AccountCreationFailed:reason the shown reason is the field up to the next ':' or the end |
| NetworkClient.CredentialsSplitBack | Assets/Scripts/NetworkClient.cs:48-62 | with ':'-free credentials, splitting the sent message on ':' gives exactly [tag, user, pass] |
| NetworkClient.SentCredentialsArrive | Assets/Scripts/NetworkClient.cs:48 | the framed login message reads back as the same text |
| NetworkClient.OnDataReceived | Assets/Scripts/NetworkClient.cs:167-175 | a Data event that is handled ends on the feedback screen; a frame error is reported exactly for a frame the reader rejects |
| NetworkClient.FramedReplyIsProcessed | Assets/Scripts/NetworkClient.cs:167-175 | a framed reply has exactly the effect of processing its text |
| NetworkClient.HandleKeepsPanels | Assets/Scripts/NetworkClient.cs:28-107 | every event handler keeps exactly the current state's panel active |
| NetworkClient.RunKeepsPanels | Assets/Scripts/NetworkClient.cs:28-107 | over any sequence of events, exactly one panel, the current state's, stays active |
| NetworkClient.StartThenRun | Assets/Scripts/NetworkClient.cs:110-119 | from Start on, the panels always match the state |

## Left out

- Unity Transport: creating the driver and pipelines, connecting to the fixed endpoint, popping events, Connect and Disconnect events, `OnDestroy`. These are foreign-library I/O; the model keeps only the bytes of a Data event and of a sent frame.
- Reliable versus unreliable pipelines: the client sends on the reliable one only; delivery is not modelled.
- The `Invoke("ReturnToLogin", 2.0f)` timer: the model records that the return was scheduled and treats its firing as an explicit event. Wall-clock time and several pending timers firing one after another are not modelled.
- `Debug.Log` lines and the debug key that sends a hello message.
- Unity widgets: panels are booleans, text fields are string parameters. `string.IsNullOrEmpty` is an emptiness test because input fields never hold null.
- `currentPlayer` is a public, writable field, so any caller can set it to any player mid-game. `MakeMove` is modelled for every current player, but the turn and count invariant (`Valid`, `PlayPreservesValid`, `ReachableFromReset`) assumes that only `ResetBoard` and `MakeMove` change the game.
- `GetBoard` hands out the engine's internal array, so callers can write through it. The model exposes the board as a value.
- MakeMove: an index outside 0..8 throws in the source; the model makes it a precondition.
- Unicode.GetString: ill-formed UTF-16 (an odd byte count or a lone surrogate) is reported as a failure. .NET substitutes U+FFFD instead.
- Framing.ReadFrame: a short header or payload fails in the model. What Unity's stream reader does then is outside this code.
- Framing.WriteInt: the header is written little-endian, as Unity's stream writer does on the platforms it targets. The round trip does not depend on the byte order.
- NetworkClient.ClassifyByPrefix: `StartsWith` is modelled as an ordinal prefix test. .NET's default culture-sensitive comparison can differ on ignorable characters.
- An exception in a handler is a `Failure` that leaves the client unchanged. The argument of `DisplayFeedback` is evaluated before the call, so nothing has changed yet. The rest of that frame's event loop is not modelled.
