/**
 * The App component's chat state as an object: the four pieces of React state are
 * fields, and each handler updates them in the order the component does. Every method
 * is proved to perform the matching pure transition of module Chat.
 */
module App {
  import opened Wrappers
  import opened JsString
  import opened Expressions
  import opened Chat

  class ChatApp {
    var messages: seq<Message>
    var inputText: string
    var mood: string
    var socketPresent: bool

    /** The state as a value. */
    function Model(): Session
      reads this
    {
      Session(messages, inputText, mood, socketPresent)
    }

    /** First render: every useState starts at its initial value. */
    constructor ()
      ensures Model() == Initial()
    {
      messages := [];
      inputText := "";
      mood := "";
      socketPresent := false;
    }

    /** The mount effect that creates the socket and stores it in state. */
    method Connect()
      modifies this
      ensures Model() == Chat.Connect(old(Model()))
      ensures socketPresent
      ensures messages == old(messages) && inputText == old(inputText) && mood == old(mood)
    {
      socketPresent := true;
    }

    /** The input box's change handler. */
    method ChangeInput(text: string)
      modifies this
      ensures Model() == Chat.ChangeInput(old(Model()), text)
      ensures inputText == text
      ensures messages == old(messages) && mood == old(mood) && socketPresent == old(socketPresent)
    {
      inputText := text;
    }

    /** The send handler: guard, build the user message, append it, emit, clear. */
    method SendMessage(now: int, clock: string) returns (emitted: Option<string>)
      requires Trim(inputText) != "" ==> socketPresent
      modifies this
      ensures Send(old(Model()), now, clock) == SendResult(Model(), emitted)
      ensures Trim(old(inputText)) == "" ==> emitted == None && Model() == old(Model())
      ensures Trim(old(inputText)) != "" ==>
        && messages == old(messages) + [Message(now, Annotate(old(inputText), old(mood)), clock, User)]
        && emitted == Some(messages[|messages| - 1].text)
        && inputText == ""
      ensures mood == old(mood) && socketPresent == old(socketPresent)
    {
      if Trim(inputText) == "" {
        return None;
      }
      var userMessage := Message(now, Annotate(inputText, mood), clock, User);
      messages := messages + [userMessage];
      emitted := Some(Annotate(inputText, mood));
      inputText := "";
    }

    /** The `ai-message-response` handler. */
    method ReceiveReply(response: string, now: int, clock: string)
      modifies this
      ensures Model() == Receive(old(Model()), response, now, clock)
      ensures messages == old(messages) + [Message(now + 1, response, clock, Bot)]
      ensures inputText == old(inputText) && mood == old(mood) && socketPresent == old(socketPresent)
    {
      var botMessage := Message(now + 1, response, clock, Bot);
      messages := messages + [botMessage];
    }

    /** One run of the interval's mood detection, given what face-api returned. */
    method DetectMood(videoMounted: bool, detections: seq<Detection>)
      requires DetectionsWellFormed(detections)
      modifies this
      ensures Model() == Tick(old(Model()), videoMounted, detections)
      ensures messages == old(messages) && inputText == old(inputText) && socketPresent == old(socketPresent)
      ensures (!videoMounted || |detections| == 0) ==> mood == old(mood)
      ensures videoMounted && |detections| > 0 && |detections[0].expressions.keys| > 0 ==>
        mood == ArgMax(detections[0].expressions.keys, detections[0].expressions.scores)
    {
      if !videoMounted {
        return;
      }
      if |detections| > 0 {
        var expressions := detections[0].expressions;
        if |expressions.keys| == 0 {
          // The seedless reduce throws on an empty key list; setMood is not reached.
          return;
        }
        var detectedMood := ArgMax(expressions.keys, expressions.scores);
        mood := detectedMood;
      }
    }
  }

  /** A session driven through the object: create, connect, type, send before any
      mood was detected, then get a reply. */
  method Conversation(now: int, clock: string)
  {
    var app := new ChatApp();
    app.Connect();
    app.ChangeInput("hi");
    assert app.Model() == Session([], "hi", "", true);
    SendBeforeDetection(now, clock);
    var emitted := app.SendMessage(now, clock);
    assert emitted == Some("hi (Mood: )");
    app.ReceiveReply("Hi there!", now, clock);
    assert |app.messages| == 2 && app.messages[1].sender == Bot && app.messages[1].text == "Hi there!";
    assert app.inputText == "";
  }

  /** Mood ticks driven through the object: a happy face, then a tick with no face. */
  method MoodTicks()
  {
    var app := new ChatApp();
    var keys, scores := ["happy", "sad"], map["happy" := 9, "sad" := 1];
    app.DetectMood(true, [Detection(ExpressionScores(keys, scores))]);
    assert app.mood == "happy" by {
      ArgMaxPicksLastMaximum(keys, scores, 0);
    }
    app.DetectMood(true, []);
    assert app.mood == "happy" && app.messages == [];
  }
}
