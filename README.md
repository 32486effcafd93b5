# Mood-tagged chat session: a Dafny model

The client is one React component, `App`. It shows a camera preview. Once a second it
asks face-api for the faces in the current frame and picks a mood label for the first
face. It also keeps a chat history, sends each message to the server over socket.io as
an `ai-message` event with the mood appended, and appends every `ai-message-response`
event to the history as a bot message.

The four pieces of component state used by the handlers are modelled here:
- the message list;
- the input text;
- the mood (`""` until the first detection);
- whether the socket has been stored in state.

So are the handlers that change them:
- the input change handler;
- the socket mount effect;
- the send handler;
- the reply handler;
- the mood tick.

Files:
- `wrappers.dfy`: `Option`, used for "payload emitted or not".
- `jsstring.dfy`: ECMAScript `String.prototype.trim` over the WhiteSpace and LineTerminator code points. The send guard needs it.
- `expressions.dfy`: the face-api expression-score object (keys in `Object.keys` order plus a score map) and `ArgMax`. `ArgMax` is the seedless `reduce` with a strict `>`. Lemmas characterise its result exactly.
- `chat.dfy`: the session as a value, one pure transition per handler, and lemmas about single transitions and whole runs of handlers.
- `app.dfy`: the class `ChatApp`. Its fields are the component state. Each method updates them step by step in the order the component does, and is proved to perform the matching transition of `chat.dfy`.

Parameters stand in for outside values:
- The clock reading `Date.now()` is the integer `now`. A user message gets id `now`; a bot message gets id `now + 1`.
- The `toLocaleTimeString()` text is the string `clock`.
- What face-api returned is a sequence of detections.
- Whether `videoRef.current` is set is the flag `videoMounted`.

The unguarded `socket.emit` becomes a precondition of the non-blank send: `Trim(input) != "" ==> socketPresent`. A blank send returns before the emit, so it needs no socket.

Notes on what the code actually does:
- Ties in the mood arg-max go to the LAST maximal key in enumeration order, not the first. The `reduce` keeps its accumulator only when the accumulator's score is strictly greater.
- The connection is only "socket stored in state or not". The code has no Connecting or Disconnected state and no reconnect.
- A non-blank send without a socket is not rejected gracefully. Here it is excluded by the precondition.

## Model

| member | source | states |
|---|---|---|
| JsString.TrimStart | frontend/src/App.jsx:52 | the result is a suffix of the input; it is empty or starts with a non-white character; every dropped character is white space |
| JsString.TrimEnd | frontend/src/App.jsx:52 | the result is a prefix of the input; it is empty or ends with a non-white character; every dropped character is white space |
| JsString.Trim | frontend/src/App.jsx:52 | the trimmed text is the input with only leading and trailing white space cut off (some white prefix and white suffix are dropped, the rest is kept in place), and it is empty or has non-white characters at both ends |
| JsString.TrimEmptyIff | frontend/src/App.jsx:52 | `trim()` gives `''` exactly when every character is white space (both directions) |
| Expressions.ArgMax | frontend/src/App.jsx:42 | the reduce returns a scored key at a position that has a maximal score, with every later key scoring strictly less |
| Expressions.ArgMaxIsMaximal | frontend/src/App.jsx:42 | the chosen mood is one of the keys, and no key has a higher score |
| Expressions.ArgMaxPicksLastMaximum | frontend/src/App.jsx:42 | the last position holding a maximal score is the reduce's result (tie-break, one direction) |
| Expressions.ArgMaxSkipsEarlierTie | frontend/src/App.jsx:42 | with distinct keys, a key followed by a key of equal or higher score is never chosen (tie-break, other direction) |
| Expressions.TieGoesToLaterKey | frontend/src/App.jsx:42 | concrete tie: with happy and sad both at the top score, the later key, sad, is chosen |
| Chat.Initial | frontend/src/App.jsx:7-10 | the session starts with no messages, empty input, unset mood and no socket |
| Chat.Annotate | frontend/src/App.jsx:56 | the annotated text is the input, then " (Mood: ", then the mood, then ")", and its length is their sum |
| Chat.AnnotateInjective | frontend/src/App.jsx:56 | for a fixed mood, two annotated texts are equal exactly when the inputs are, so the stored and emitted text determines what was typed |
| Chat.AnnotateRecoversMood | frontend/src/App.jsx:56 | for a fixed input, two annotated texts are equal exactly when the moods are, so the stored and emitted text determines the mood it was sent with |
| Chat.MoodDisplay | frontend/src/App.jsx:85 | the header never shows an empty mood: the unset mood is shown as exactly "Detecting...", and a set mood is shown as it is |
| Chat.ChangeInput | frontend/src/App.jsx:111 | the input becomes the typed value; messages, mood and socket are unchanged |
| Chat.Connect | frontend/src/App.jsx:67-68 | storing the socket makes it present; messages, input and mood are unchanged |
| Chat.Send | frontend/src/App.jsx:51-64 | the old history stays a prefix and gains at most one message. A payload is emitted exactly when the input is not all white space. Without a payload the state is unchanged. With one, exactly one user message is appended, the payload equals its text, and the input is cleared. Mood and socket are kept. Exact contents are in SendNonBlank and SendBlankIsNoop |
| Chat.SendBlankIsNoop | frontend/src/App.jsx:52 | a white-space-only input leaves the whole state unchanged and emits nothing |
| Chat.SendBlankIdempotent | frontend/src/App.jsx:52 | two blank sends equal one, and the history length does not change |
| Chat.SendNonBlank | frontend/src/App.jsx:54-63 | a non-blank send appends exactly one user message with the untrimmed input annotated with the mood; it emits that text, clears the input and keeps the mood and the socket |
| Chat.Receive | frontend/src/App.jsx:70-77 | a reply appends exactly one message: a bot message with the response verbatim, id `now + 1` and the given time text. The old history stays a prefix. Input, mood and socket are unchanged |
| Chat.Tick | frontend/src/App.jsx:34-45 | a tick never changes the messages, the input or the socket. Without a mounted video or without a face it changes nothing, so a stale mood is kept. Otherwise the mood either stays or becomes one of the first face's keys; TickPicksDominantExpression says which |
| Chat.TickPicksDominantExpression | frontend/src/App.jsx:41-43 | with a face, the mood becomes one of the first face's keys with a maximal score; a key followed by an equal or higher one is never chosen |
| Chat.Step | frontend/src/App.jsx:51-111 | any one handler run keeps the old history as a prefix and adds at most one message; the socket becomes present only by the socket effect |
| Chat.Run | frontend/src/App.jsx:67-68 | nothing removes the socket from state: after a run of handlers it is present exactly when it was before or the socket effect ran |
| Chat.RunAppendOnly | frontend/src/App.jsx:61-77 | over any run of handlers, the old history stays a prefix and grows by at most one message per handler |
| Chat.RunMoodStaysLabel | frontend/src/App.jsx:40-43 | if face-api only reports keys from a label set, the mood is always unset or a label; once set to a non-empty label it never goes back to "" |
| Chat.SendHelloHappy | frontend/src/App.jsx:51-63 | sending "hello" with mood "happy" stores and emits exactly "hello (Mood: happy)" |
| Chat.SendBeforeDetection | frontend/src/App.jsx:56-62 | before any detection the mood part of the stored and emitted text is empty: "hi (Mood: )" |
| Chat.TwoTicksWithoutFaceKeepSad | frontend/src/App.jsx:40-44 | after "sad" was detected, two ticks with no face keep "sad" |
| App.ChatApp.constructor | frontend/src/App.jsx:7-10 | the object starts in the initial session state |
| App.ChatApp.Connect | frontend/src/App.jsx:67-68 | storing the socket sets the socket flag and nothing else |
| App.ChatApp.ChangeInput | frontend/src/App.jsx:111 | the input becomes the typed value and nothing else changes |
| App.ChatApp.SendMessage | frontend/src/App.jsx:51-64 | the step-by-step handler performs the pure send. A blank input changes nothing and emits nothing. Otherwise one annotated user message is appended, its text is emitted and the input is cleared |
| App.ChatApp.ReceiveReply | frontend/src/App.jsx:70-78 | the handler appends one bot message with the payload verbatim and id `now + 1`, and changes nothing else |
| App.ChatApp.DetectMood | frontend/src/App.jsx:34-45 | the tick performs the pure tick. Without a mounted video or without a face the mood is unchanged; otherwise it becomes the reduce's pick; nothing else changes |

## Left out

- Loading the face-api models and running detection (lines 16-17, 36-38) are foreign library calls. Their result comes in as a parameter.
- Camera acquisition and attaching the stream to the video element (lines 23-30) are browser I/O.
- The socket.io connection and transport (line 67) are network I/O. Only "socket stored in state or not" is kept. Registering the reply handler is modelled as the reply transition itself.
- The one-second `setInterval` and its cleanup (lines 47-48) are left out, and so are overlapping async ticks. Timing and concurrency are not modelled. A tick is one atomic transition.
- Expression scores are integers, not floating point, because only `>` is used. NaN scores are not modelled.
- Message ids and timestamps are opaque parameters. The model claims no uniqueness for ids, because the code does not ensure it.
- Rendering (lines 81-125) is left out, apart from the `mood || "Detecting..."` projection. This includes the "Start a conversation..." placeholder and the button's `disabled` attribute. That attribute uses the same `trim()` test as the send guard but only disables the button. Pressing Enter in the input (line 112) still reaches the handler, whose guard is modelled.
- A non-blank send without a socket throws at the emit. That case is excluded by a precondition rather than modelled.
- A detection whose score object has no keys makes the seedless `reduce` throw before `setMood`. The model treats that tick as leaving the state unchanged.
