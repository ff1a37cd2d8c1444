/** `src/app/page.tsx`: the chat page's state (the message list, the single
    canvas slot and the loading flag) and `handleSendMessage`, which drives
    one request per submitted prompt. The intent comes from
    `Gemini.AnalyzePromptIntent` on the given text outcome; the `fetch` to the
    generation route is an input outcome; message ids are parameters. */
module Page {
  import opened Wrappers
  import opened Text
  import Gemini

  datatype Role = User | Assistant

  /** What a successful send attaches to its reply. `url` is `data.url`,
      which the response may lack. */
  datatype GeneratedContent = GeneratedContent(kind: Gemini.Intent, url: Option<string>, description: string)

  /** A chat message (its timestamp is left out). */
  datatype Message = Message(id: string, content: string, role: Role, generatedContent: Option<GeneratedContent>)

  /** The canvas slot: every field is null until the first success. */
  datatype CanvasSlot = CanvasSlot(kind: Option<Gemini.Intent>, url: Option<string>, description: Option<string>)

  /** The page's state as a value. */
  datatype PageState = PageState(messages: seq<Message>, canvas: CanvasSlot, isLoading: bool)

  /** The request `handleSendMessage` posts: a route and the body `{prompt}`. */
  datatype Request = Request(endpoint: string, prompt: string)

  /** What `response.json()` gave: an object with a possibly absent `url`,
      or an error (not JSON, or not an object). */
  datatype ResponseBody = JsonBody(url: Option<string>) | BodyThrew

  /** What `fetch` did: it threw, or it answered with `ok` and a body. */
  datatype FetchOutcome = FetchThrew | Response(ok: bool, body: ResponseBody)

  const WelcomeText: string :=
    "Welcome to Easy Video! I can help you create images and videos using natural language. " +
    "Try saying something like \"Create an image of a sunset over mountains\" or " +
    "\"Generate a video of a cat playing with a ball\"."
  const ApologyText: string :=
    "Sorry, I encountered an error while generating your content. Please try again."
  const DownloadNote: string := " The video file will be automatically downloaded to your computer."
  const VideoEndpoint: string := "/api/generate-video"
  const ImageEndpoint: string := "/api/generate-image"

  const Welcome: Message := Message("1", WelcomeText, Assistant, None)
  const EmptyCanvas: CanvasSlot := CanvasSlot(None, None, None)

  /** The state the `useState` calls start from. */
  function InitialState(): (s: PageState)
    ensures s.messages == [Welcome] && s.canvas == EmptyCanvas && !s.isLoading
  {
    PageState([Welcome], EmptyCanvas, false)
  }

  /** The request for a prompt: the video route exactly for a video intent,
      and a body holding the prompt and nothing else. */
  function RequestFor(content: string, intent: Gemini.Intent): (r: Request)
    ensures r.endpoint == VideoEndpoint <==> intent == Gemini.Video
    ensures r.endpoint == ImageEndpoint <==> intent == Gemini.Image
    ensures r.prompt == content
  {
    Request(if intent == Gemini.Video then VideoEndpoint else ImageEndpoint, content)
  }

  function KindName(intent: Gemini.Intent): string
  {
    if intent == Gemini.Video then "video" else "image"
  }

  /** The reply text after a success. */
  function SuccessText(content: string, intent: Gemini.Intent): string
  {
    "I've generated a " + KindName(intent) + " for you: \"" + content + "\". You can see it on the canvas!" +
    (if intent == Gemini.Video then DownloadNote else "")
  }

  /** The reply text mentions the automatic download exactly for a video:
      only a video reply ends with the download note. */
  lemma SuccessTextMentionsDownloadIffVideo(content: string, intent: Gemini.Intent)
    ensures EndsWith(SuccessText(content, intent), DownloadNote) <==> intent == Gemini.Video
  {
    var t := SuccessText(content, intent);
    var body := "I've generated a " + KindName(intent) + " for you: \"" + content + "\". You can see it on the canvas!";
    if intent == Gemini.Video {
      assert t == body + DownloadNote;
      assert t[|t| - |DownloadNote|..] == DownloadNote;
    } else {
      assert t == body + "";
      assert t[|t| - 1] == '!';
      assert DownloadNote[|DownloadNote| - 1] == '.';
      EndsWithLastChar(t, DownloadNote);
    }
  }

  /** The fetch answered `ok` with a readable body. */
  predicate Succeeded(fetch: FetchOutcome)
  {
    fetch.Response? && fetch.ok && fetch.body.JsonBody?
  }

  /** The content a successful send shows and attaches. */
  function GeneratedFor(content: string, intent: Gemini.Intent, fetch: FetchOutcome): GeneratedContent
    requires Succeeded(fetch)
  {
    GeneratedContent(intent, fetch.body.url, content)
  }

  /** The canvas slot showing a piece of generated content. */
  function CanvasOf(g: GeneratedContent): CanvasSlot
  {
    CanvasSlot(Some(g.kind), g.url, Some(g.description))
  }

  /** The assistant message that closes a send. */
  function ReplyFor(content: string, intent: Gemini.Intent, fetch: FetchOutcome, replyId: string): Message
  {
    if Succeeded(fetch) then
      Message(replyId, SuccessText(content, intent), Assistant, Some(GeneratedFor(content, intent, fetch)))
    else Message(replyId, ApologyText, Assistant, None)
  }

  /** The state after a whole send: the user message, then the reply; the
      canvas is replaced on success and kept on failure; not loading. */
  function SendStep(s: PageState, content: string, textOutcome: Gemini.TextOutcome,
                    fetch: FetchOutcome, userId: string, replyId: string): PageState
  {
    var intent := Gemini.AnalyzePromptIntent(content, textOutcome);
    PageState(
      s.messages + [Message(userId, content, User, None)] + [ReplyFor(content, intent, fetch, replyId)],
      if Succeeded(fetch) then CanvasOf(GeneratedFor(content, intent, fetch)) else s.canvas,
      false)
  }

  /** Each send adds exactly two messages, the user's and one assistant
      reply, keeping every earlier message in place, and ends not loading. */
  lemma SendAppendsTwo(s: PageState, content: string, textOutcome: Gemini.TextOutcome,
                       fetch: FetchOutcome, userId: string, replyId: string)
    ensures var t := SendStep(s, content, textOutcome, fetch, userId, replyId);
      |t.messages| == |s.messages| + 2 && t.messages[..|s.messages|] == s.messages &&
      t.messages[|s.messages|] == Message(userId, content, User, None) &&
      t.messages[|s.messages| + 1].role == Assistant && !t.isLoading
  {
  }

  /** A send that succeeds replaces the canvas with what its reply carries,
      of the analysed type and described by the user's words. */
  lemma SendSuccess(s: PageState, content: string, textOutcome: Gemini.TextOutcome,
                    fetch: FetchOutcome, userId: string, replyId: string)
    requires Succeeded(fetch)
    ensures var t := SendStep(s, content, textOutcome, fetch, userId, replyId);
      var reply := t.messages[|t.messages| - 1];
      reply.generatedContent.Some? &&
      t.canvas == CanvasOf(reply.generatedContent.value) &&
      t.canvas.kind == Some(Gemini.AnalyzePromptIntent(content, textOutcome)) &&
      t.canvas.url == fetch.body.url && t.canvas.description == Some(content)
  {
  }

  /** A send that fails apologises without content and leaves the canvas. */
  lemma SendFailure(s: PageState, content: string, textOutcome: Gemini.TextOutcome,
                    fetch: FetchOutcome, userId: string, replyId: string)
    requires !Succeeded(fetch)
    ensures var t := SendStep(s, content, textOutcome, fetch, userId, replyId);
      t.canvas == s.canvas &&
      t.messages[|t.messages| - 1] == Message(replyId, ApologyText, Assistant, None)
  {
  }

  // ---------------------------------------------------------------------
  // The invariant between sends
  // ---------------------------------------------------------------------

  /** The content of the latest message that carries any. */
  function LastGenerated(messages: seq<Message>): Option<GeneratedContent>
  {
    if messages == [] then None
    else if messages[|messages| - 1].generatedContent.Some? then messages[|messages| - 1].generatedContent
    else LastGenerated(messages[..|messages| - 1])
  }

  /** What the canvas must show for a message list. */
  function CanvasFor(messages: seq<Message>): CanvasSlot
  {
    match LastGenerated(messages)
    case None => EmptyCanvas
    case Some(g) => CanvasOf(g)
  }

  /** Between sends: the welcome message opens the list, user messages and
      replies alternate after it, only replies carry content, the canvas
      shows the latest content carried, and nothing is loading. */
  ghost predicate Idle(s: PageState)
  {
    |s.messages| % 2 == 1 && s.messages[0] == Welcome &&
    (forall i :: 1 <= i < |s.messages| ==>
       s.messages[i].role == (if i % 2 == 1 then User else Assistant)) &&
    (forall i :: 0 <= i < |s.messages| && s.messages[i].role == User ==>
       s.messages[i].generatedContent.None?) &&
    s.canvas == CanvasFor(s.messages) &&
    !s.isLoading
  }

  lemma InitialIsIdle()
    ensures Idle(InitialState())
  {
  }

  /** Appending a message without content keeps the latest content. */
  lemma LastGeneratedSkipsPlain(messages: seq<Message>, m: Message)
    requires m.generatedContent.None?
    ensures LastGenerated(messages + [m]) == LastGenerated(messages)
  {
    assert (messages + [m])[..|messages|] == messages;
  }

  /** Appending a user message and a reply keeps the message-shape part
      of `Idle`. */
  lemma AppendPairKeepsShape(messages: seq<Message>, user: Message, reply: Message)
    requires |messages| % 2 == 1 && messages[0] == Welcome
    requires forall i :: 1 <= i < |messages| ==> messages[i].role == (if i % 2 == 1 then User else Assistant)
    requires forall i :: 0 <= i < |messages| && messages[i].role == User ==> messages[i].generatedContent.None?
    requires user.role == User && user.generatedContent.None? && reply.role == Assistant
    ensures var t := messages + [user] + [reply];
      |t| % 2 == 1 && t[0] == Welcome &&
      (forall i :: 1 <= i < |t| ==> t[i].role == (if i % 2 == 1 then User else Assistant)) &&
      (forall i :: 0 <= i < |t| && t[i].role == User ==> t[i].generatedContent.None?)
  {
    var t := messages + [user] + [reply];
    var n := |messages|;
    assert n % 2 == 1 && (n + 1) % 2 == 0;
    assert forall i :: 0 <= i < n ==> t[i] == messages[i];
    assert t[n] == user && t[n + 1] == reply;
  }

  /** Every send from an idle state ends in an idle state. */
  lemma SendKeepsIdle(s: PageState, content: string, textOutcome: Gemini.TextOutcome,
                      fetch: FetchOutcome, userId: string, replyId: string)
    requires Idle(s)
    ensures Idle(SendStep(s, content, textOutcome, fetch, userId, replyId))
  {
    var intent := Gemini.AnalyzePromptIntent(content, textOutcome);
    var user := Message(userId, content, User, None);
    var reply := ReplyFor(content, intent, fetch, replyId);
    var t := SendStep(s, content, textOutcome, fetch, userId, replyId);
    assert t.messages == s.messages + [user] + [reply];
    AppendPairKeepsShape(s.messages, user, reply);
    LastGeneratedSkipsPlain(s.messages, user);
    if Succeeded(fetch) {
      assert (s.messages + [user] + [reply])[|s.messages| + 1] == reply;
    } else {
      LastGeneratedSkipsPlain(s.messages + [user], reply);
    }
  }

  // ---------------------------------------------------------------------
  // The component
  // ---------------------------------------------------------------------

  /** The `Home` component's state and its send handler. */
  class ChatPage {
    var messages: seq<Message>
    var canvasContent: CanvasSlot
    var isLoading: bool

    function State(): PageState
      reads this
    {
      PageState(messages, canvasContent, isLoading)
    }

    /** The initial `useState` values. */
    constructor ()
      ensures State() == InitialState()
      ensures Idle(State())
    {
      messages := [Welcome];
      canvasContent := EmptyCanvas;
      isLoading := false;
      new;
      InitialIsIdle();
    }

    /** Appends the user's message and raises the loading flag. */
    method BeginSend(content: string, userId: string)
      modifies this
      ensures messages == old(messages) + [Message(userId, content, User, None)]
      ensures canvasContent == old(canvasContent) && isLoading
    {
      messages := messages + [Message(userId, content, User, None)];
      isLoading := true;
    }

    /** `handleSendMessage(content)`. The submit gate admits only trimmed,
        non-empty text while nothing is loading. Returns the request posted. */
    method HandleSendMessage(content: string, textOutcome: Gemini.TextOutcome, fetch: FetchOutcome,
                             userId: string, replyId: string) returns (request: Request)
      requires content != "" && Trim(content) == content && !isLoading
      modifies this
      ensures request == RequestFor(content, Gemini.AnalyzePromptIntent(content, textOutcome))
      ensures State() == SendStep(old(State()), content, textOutcome, fetch, userId, replyId)
      ensures old(Idle(State())) ==> Idle(State())
    {
      ghost var before := State();
      BeginSend(content, userId);
      var contentType := Gemini.AnalyzePromptIntent(content, textOutcome);
      var isVideo := contentType == Gemini.Video;
      request := RequestFor(content, contentType);
      if fetch.Response? && fetch.ok && fetch.body.JsonBody? {
        var kind := if isVideo then Gemini.Video else Gemini.Image;
        canvasContent := CanvasSlot(Some(kind), fetch.body.url, Some(content));
        var generated := GeneratedContent(kind, fetch.body.url, content);
        messages := messages + [Message(replyId, SuccessText(content, contentType), Assistant, Some(generated))];
      } else {
        messages := messages + [Message(replyId, ApologyText, Assistant, None)];
      }
      isLoading := false;
      if Idle(before) {
        SendKeepsIdle(before, content, textOutcome, fetch, userId, replyId);
      }
    }
  }
}
