/**
 * The chat session of the App component as a value, with one pure transition per
 * handler. The class in module App performs the same transitions step by step on
 * mutable fields and is proved against these functions.
 */
module Chat {
  import opened Wrappers
  import opened JsString
  import opened Expressions

  datatype Sender = User | Bot

  /** A rendered chat line. `id` stands for the `Date.now()` number (not unique in
      general) and `timestamp` for `toLocaleTimeString()`; both come in as parameters. */
  datatype Message = Message(id: int, text: string, timestamp: string, sender: Sender)

  /** The component state: the message list, the input box, the last detected mood
      ("" before any detection) and whether the socket state has been set. */
  datatype Session = Session(messages: seq<Message>, inputText: string, mood: string, socketPresent: bool)

  /** The state right after the first render: every useState initial value. */
  function Initial(): (s: Session)
    ensures s.messages == [] && s.inputText == "" && s.mood == "" && !s.socketPresent
  {
    Session([], "", "", false)
  }

  /** The template `${input} (Mood: ${mood})`: the input, the fixed separator, the mood
      and a closing parenthesis, in that order. */
  function Annotate(input: string, mood: string): (r: string)
    ensures |r| == |input| + |mood| + 9
    ensures r[..|input|] == input
    ensures r[|input|..|input| + 8] == " (Mood: "
    ensures r[|input| + 8..|r| - 1] == mood && r[|r| - 1] == ')'
  {
    input + " (Mood: " + mood + ")"
  }

  /** For a given mood, the annotated text determines the input. */
  lemma AnnotateInjective(a: string, b: string, mood: string)
    ensures Annotate(a, mood) == Annotate(b, mood) <==> a == b
  {
    if Annotate(a, mood) == Annotate(b, mood) {
      assert a == Annotate(a, mood)[..|a|] == Annotate(b, mood)[..|b|] == b;
    }
  }

  /** For a given input, the annotated text determines the mood. */
  lemma AnnotateRecoversMood(input: string, m1: string, m2: string)
    ensures Annotate(input, m1) == Annotate(input, m2) <==> m1 == m2
  {
    if Annotate(input, m1) == Annotate(input, m2) {
      var t := Annotate(input, m1);
      assert m1 == t[|input| + 8..|t| - 1] == m2;
    }
  }

  /** The header line's `mood || "Detecting..."`. */
  function MoodDisplay(mood: string): (r: string)
    ensures r != ""
    ensures mood == "" ==> r == "Detecting..."
    ensures mood != "" ==> r == mood
  {
    if mood == "" then "Detecting..." else mood
  }

  /** What a send produces: the new state and the `ai-message` payload, if one was emitted. */
  datatype SendResult = SendResult(session: Session, emitted: Option<string>)

  /** The input box change handler: the input becomes the typed value, nothing else moves. */
  function ChangeInput(s: Session, text: string): (r: Session)
    ensures r.inputText == text
    ensures r.messages == s.messages && r.mood == s.mood && r.socketPresent == s.socketPresent
  {
    s.(inputText := text)
  }

  /** The socket effect storing the freshly created socket in state. */
  function Connect(s: Session): (r: Session)
    ensures r.socketPresent
    ensures r.messages == s.messages && r.inputText == s.inputText && r.mood == s.mood
  {
    s.(socketPresent := true)
  }

  /** `a` is an initial segment of `b`. */
  predicate IsPrefix(a: seq<Message>, b: seq<Message>) {
    |a| <= |b| && b[..|a|] == a
  }

  /** The send handler (button click or Enter). A blank input returns at once. Otherwise
      a user message with the annotated text is appended, the annotated text is emitted
      as `ai-message` and the input is cleared. The emit does not check for the socket,
      so a non-blank send needs one. */
  function Send(s: Session, now: int, clock: string): (r: SendResult)
    requires Trim(s.inputText) != "" ==> s.socketPresent
    ensures IsPrefix(s.messages, r.session.messages)
    ensures |r.session.messages| <= |s.messages| + 1
    ensures r.emitted.Some? <==> !AllWhitespace(s.inputText)
    ensures r.emitted.None? ==> r.session == s
    ensures r.emitted.Some? ==>
      && |r.session.messages| == |s.messages| + 1
      && r.session.messages[|s.messages|].sender == User
      && r.emitted.value == r.session.messages[|s.messages|].text
      && r.session.inputText == ""
    ensures r.session.mood == s.mood && r.session.socketPresent == s.socketPresent
  {
    TrimEmptyIff(s.inputText);
    if Trim(s.inputText) == "" then SendResult(s, None)
    else
      var userMessage := Message(now, Annotate(s.inputText, s.mood), clock, User);
      var messages := s.messages + [userMessage];
      var payload := Annotate(s.inputText, s.mood);
      SendResult(s.(messages := messages, inputText := ""), Some(payload))
  }

  /** The `ai-message-response` handler: one bot message with the payload verbatim,
      whose id is the clock reading plus one. */
  function Receive(s: Session, response: string, now: int, clock: string): (r: Session)
    ensures |r.messages| == |s.messages| + 1 && IsPrefix(s.messages, r.messages)
    ensures r.messages[|s.messages|].sender == Bot && r.messages[|s.messages|].text == response
    ensures r.messages[|s.messages|].id == now + 1 && r.messages[|s.messages|].timestamp == clock
    ensures r.inputText == s.inputText && r.mood == s.mood && r.socketPresent == s.socketPresent
  {
    s.(messages := s.messages + [Message(now + 1, response, clock, Bot)])
  }

  /** One mood tick. Nothing happens when the video element is not mounted, when no
      face is found, or when the first face's score object has no keys (there the
      seedless reduce throws before the mood is set). Otherwise the mood becomes the
      reduce's pick among the first face's expressions. */
  function Tick(s: Session, videoMounted: bool, detections: seq<Detection>): (r: Session)
    requires DetectionsWellFormed(detections)
    ensures r.messages == s.messages && r.inputText == s.inputText && r.socketPresent == s.socketPresent
    ensures !videoMounted || |detections| == 0 ==> r == s
    ensures r.mood == s.mood || (|detections| > 0 && r.mood in detections[0].expressions.keys)
  {
    if !videoMounted || |detections| == 0 then s
    else
      var expressions := detections[0].expressions;
      if |expressions.keys| == 0 then s
      else
        ArgMaxIsMaximal(expressions.keys, expressions.scores);
        s.(mood := ArgMax(expressions.keys, expressions.scores))
  }

  // ---------------------------------------------------------------------------
  // Properties of single transitions

  /** A blank input makes the send change nothing and emit nothing. */
  lemma SendBlankIsNoop(s: Session, now: int, clock: string)
    requires AllWhitespace(s.inputText)
    ensures Send(s, now, clock) == SendResult(s, None)
  {
    TrimEmptyIff(s.inputText);
  }

  /** Sending with a blank input twice is the same as once: the history length does not move. */
  lemma SendBlankIdempotent(s: Session, now1: int, clock1: string, now2: int, clock2: string)
    requires AllWhitespace(s.inputText)
    ensures Send(Send(s, now1, clock1).session, now2, clock2) == Send(s, now1, clock1)
    ensures |Send(Send(s, now1, clock1).session, now2, clock2).session.messages| == |s.messages|
  {
    SendBlankIsNoop(s, now1, clock1);
    SendBlankIsNoop(s, now2, clock2);
  }

  /** A send with some non-white character appends exactly one user message carrying
      the untrimmed input annotated with the mood, emits exactly that text, clears the
      input and keeps the mood and the socket. */
  lemma SendNonBlank(s: Session, now: int, clock: string)
    requires !AllWhitespace(s.inputText) && s.socketPresent
    ensures var r := Send(s, now, clock);
      && |r.session.messages| == |s.messages| + 1
      && r.session.messages[..|s.messages|] == s.messages
      && r.session.messages[|s.messages|] == Message(now, Annotate(s.inputText, s.mood), clock, User)
      && r.emitted == Some(Annotate(s.inputText, s.mood))
      && r.session.inputText == ""
      && r.session.mood == s.mood && r.session.socketPresent == s.socketPresent
  {
    TrimEmptyIff(s.inputText);
  }

  /** With a face whose score object has keys, the new mood is one of the first face's
      expression keys, its score is at least every other one, and it is the last key in
      enumeration order among those with the top score. */
  lemma TickPicksDominantExpression(s: Session, detections: seq<Detection>)
    requires DetectionsWellFormed(detections)
    requires |detections| > 0 && |detections[0].expressions.keys| > 0
    ensures var e := detections[0].expressions;
      var m := Tick(s, true, detections).mood;
      && m in e.keys && m in e.scores
      && (forall k :: k in e.scores ==> e.scores[k] <= e.scores[m])
      && (forall i, j :: 0 <= i < j < |e.keys| && e.scores[e.keys[i]] <= e.scores[e.keys[j]] ==> m != e.keys[i])
  {
    var e := detections[0].expressions;
    ArgMaxIsMaximal(e.keys, e.scores);
    var m := ArgMax(e.keys, e.scores);
    forall k | k in e.scores ensures e.scores[k] <= e.scores[m] {
      var i :| 0 <= i < |e.keys| && e.keys[i] == k;
    }
    forall i, j | 0 <= i < j < |e.keys| && e.scores[e.keys[i]] <= e.scores[e.keys[j]]
      ensures m != e.keys[i]
    {
      ArgMaxSkipsEarlierTie(e.keys, e.scores, i, j);
    }
  }

  // ---------------------------------------------------------------------------
  // Sessions as sequences of handler runs

  /** One handler run, with the values the handler reads from outside. */
  datatype Event =
    | TypeText(text: string)
    | SocketCreated
    | SendAction(now: int, clock: string)
    | Reply(response: string, now: int, clock: string)
    | MoodTick(videoMounted: bool, detections: seq<Detection>)

  /** The handler can run in `s` without failing. */
  predicate Allowed(s: Session, e: Event) {
    match e
    case SendAction(_, _) => Trim(s.inputText) != "" ==> s.socketPresent
    case MoodTick(_, detections) => DetectionsWellFormed(detections)
    case _ => true
  }

  /** Every handler keeps the old history as a prefix and adds at most one message. */
  function Step(s: Session, e: Event): (r: Session)
    requires Allowed(s, e)
    ensures IsPrefix(s.messages, r.messages)
    ensures |r.messages| <= |s.messages| + 1
    ensures r.socketPresent == (s.socketPresent || e == SocketCreated)
  {
    match e
    case TypeText(text) => ChangeInput(s, text)
    case SocketCreated => Connect(s)
    case SendAction(now, clock) => Send(s, now, clock).session
    case Reply(response, now, clock) => Receive(s, response, now, clock)
    case MoodTick(videoMounted, detections) => Tick(s, videoMounted, detections)
  }

  predicate Admissible(s: Session, events: seq<Event>)
    decreases |events|
  {
    events == [] || (Allowed(s, events[0]) && Admissible(Step(s, events[0]), events[1..]))
  }

  /** Nothing ever takes the socket out of state: after a run it is present exactly
      when it was before or some handler run stored it. */
  function Run(s: Session, events: seq<Event>): (r: Session)
    requires Admissible(s, events)
    ensures r.socketPresent <==> s.socketPresent || SocketCreated in events
    decreases |events|
  {
    if events == [] then s else Run(Step(s, events[0]), events[1..])
  }

  /** Over any run of handlers the history only grows at its end, by at most one
      message per handler. */
  lemma {:induction false} RunAppendOnly(s: Session, events: seq<Event>)
    requires Admissible(s, events)
    ensures IsPrefix(s.messages, Run(s, events).messages)
    ensures |Run(s, events).messages| <= |s.messages| + |events|
    decreases |events|
  {
    if events != [] {
      var t := Step(s, events[0]);
      RunAppendOnly(t, events[1..]);
      var final := Run(t, events[1..]).messages;
      assert final[..|s.messages|] == final[..|t.messages|][..|s.messages|];
    }
  }

  /** Every expression key any tick of the run could read belongs to `labels`. */
  predicate TickKeysIn(events: seq<Event>, labels: set<string>) {
    forall i :: 0 <= i < |events| && events[i].MoodTick? ==>
      forall d :: d in events[i].detections ==> forall k :: k in d.expressions.keys ==> k in labels
  }

  /** If the face detector only reports keys from `labels`, the mood is always either
      unset or one of `labels`; and once set to a non-empty label it never becomes "" again. */
  lemma {:induction false} RunMoodStaysLabel(s: Session, events: seq<Event>, labels: set<string>)
    requires Admissible(s, events) && TickKeysIn(events, labels)
    requires s.mood == "" || s.mood in labels
    ensures var m := Run(s, events).mood; m == "" || m in labels
    ensures s.mood != "" && "" !in labels ==> Run(s, events).mood != ""
    decreases |events|
  {
    if events != [] {
      var e := events[0];
      var t := Step(s, e);
      if e.MoodTick? && e.videoMounted && |e.detections| > 0 && |e.detections[0].expressions.keys| > 0 {
        var x := e.detections[0].expressions;
        ArgMaxIsMaximal(x.keys, x.scores);
        assert e.detections[0] in e.detections;
        assert t.mood in labels;
      }
      assert TickKeysIn(events[1..], labels) by {
        forall i | 0 <= i < |events[1..]| ensures events[1..][i] == events[i + 1] { }
      }
      RunMoodStaysLabel(t, events[1..], labels);
    }
  }

  // ---------------------------------------------------------------------------
  // Scenarios

  /** Sending "hello" while the mood is "happy" stores and emits "hello (Mood: happy)". */
  lemma SendHelloHappy(now: int, clock: string)
    ensures var r := Send(Session([], "hello", "happy", true), now, clock);
      && r.session.messages == [Message(now, "hello (Mood: happy)", clock, User)]
      && r.emitted == Some("hello (Mood: happy)")
  {
    var s := Session([], "hello", "happy", true);
    assert !IsWhitespace(s.inputText[0]);
    TrimEmptyIff(s.inputText);
    assert Annotate("hello", "happy") == "hello (Mood: happy)";
  }

  /** Before any detection the mood part is empty. */
  lemma SendBeforeDetection(now: int, clock: string)
    ensures var r := Send(Session([], "hi", "", true), now, clock);
      && r.session.messages == [Message(now, "hi (Mood: )", clock, User)]
      && r.emitted == Some("hi (Mood: )")
  {
    var s := Session([], "hi", "", true);
    assert !IsWhitespace(s.inputText[0]);
    TrimEmptyIff(s.inputText);
    assert Annotate("hi", "") == "hi (Mood: )";
  }

  /** After "sad" was detected, two ticks without a face leave it "sad". */
  lemma TwoTicksWithoutFaceKeepSad(s: Session)
    requires s.mood == "sad"
    ensures Tick(Tick(s, true, []), true, []).mood == "sad"
  {
  }
}
