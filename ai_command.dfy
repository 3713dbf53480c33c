/**
 * The `ai` command (commands/ai.js): the prompt it builds, the image it
 * attaches, the per-sender conversation history it keeps, the tool calls it
 * honours and the messages it sends back.  The chat service's answer and the
 * Graph API's attachment listings are parameters.
 */
module AiCommand {
  import opened Wrappers
  import opened Text
  import opened Events
  import opened Caches
  import opened AiText

  /** A stored conversation longer than this is cut back before the next exchange. */
  const MaxHistory: nat := 20
  /** How many of the most recent turns the cut keeps. */
  const KeepRecent: nat := 12
  /** A cached image is attached while it is younger than five minutes. */
  const ImageTtl: int := 300000

  const DefaultPrompt: string := "Hello"
  const ImageLabel: string := "\n\nImage URL: "
  /** The notice sent when the exchange fails. */
  const ErrorNotice: string := "❎ | " + "An error occurred. Please try again later."
  const Header: string := "💬 | 𝙼𝚊𝚗𝚐𝚊𝚂𝚎𝚊𝚛𝚌𝚑\n・───────────・\n"
  const Footer: string := "\n・──── >ᴗ< ────・"
  const GeneratedLabel: string := "🖼️ Generated Image:\n"
  const BrowseLabel: string := "\n\n🌐 Browse result:\n"
  const NoInfo: string := "No relevant info found."

  // ------------------------------------------------------------------ prompt

  /**
   * `args.join(' ').trim() || 'Hello'`: never empty, never padded with white
   * space, and the greeting exactly when the arguments are blank.
   */
  function RawPrompt(args: seq<string>): (r: string)
    ensures r != [] && !IsWhitespace(r[0]) && !IsWhitespace(r[|r| - 1])
    ensures IsBlank(Join(args, " ")) ==> r == DefaultPrompt
    ensures !IsBlank(Join(args, " ")) ==> r == Trim(Join(args, " "))
  {
    var t := Trim(Join(args, " "));
    if t == [] then DefaultPrompt else t
  }

  /**
   * The prompt sent to the service: the raw prompt, followed by the image URL
   * exactly when one was found and it is not empty.
   */
  function Prompt(raw: string, image: Option<string>): (r: string)
    ensures |r| >= |raw| && r[..|raw|] == raw
    ensures r == raw <==> !Truthy(image)
    ensures Truthy(image) ==> r[|raw|..] == ImageLabel + image.value
  {
    if Truthy(image) then raw + ImageLabel + image.value else raw
  }

  // ------------------------------------------------------------- getImageUrl

  /**
   * `message?.reply_to?.mid ?? message?.mid`: only a missing reply mid falls
   * through, so an empty one is kept (and then nothing is looked up).
   */
  function PromptMid(e: Event): (r: Option<string>)
    ensures ReplyMidOf(e).Some? ==> r == ReplyMidOf(e)
    ensures ReplyMidOf(e).None? ==> r == MidOf(e)
  {
    if ReplyMidOf(e).Some? then ReplyMidOf(e) else MidOf(e)
  }

  /**
   * `data?.data?.[0]?.image_data?.url ?? data?.data?.[0]?.file_url ?? null`:
   * only the first listed item is read, and its image URL, even an empty one,
   * wins over its file URL.
   */
  function ListedImageUrl(r: GraphReply): (u: Option<string>)
    ensures FirstItem(r).None? ==> u.None?
    ensures FirstItem(r).Some? ==> var item := FirstItem(r).value;
      u == if item.imageData.Some? && item.imageData.value.url.Some? then item.imageData.value.url else item.fileUrl
  {
    match FirstItem(r)
    case None => None
    case Some(item) =>
      if item.imageData.Some? && item.imageData.value.url.Some? then item.imageData.value.url else item.fileUrl
  }

  /** Where `getImageUrl` found its answer. */
  datatype ImageSource = Cached(url: string) | Fetched(mid: string, listed: Option<string>) | NoMid {
    /** The URL `getImageUrl` resolves to; `None` is `null`. */
    function Url(): Option<string> {
      match this
      case Cached(u) => Some(u)
      case Fetched(_, u) => u
      case NoMid => None
    }
  }

  /**
   * `getImageUrl(event, token, imageCache)`, with `graph` answering the
   * attachment listing of a message id: a cached image younger than
   * `ImageTtl` wins; otherwise the listing of the replied-to (or the current)
   * message is consulted, when there is a message id at all.
   */
  function FindImageSource(id: string, e: Event, now: int, cache: ImageCache, graph: string -> GraphReply): (r: ImageSource)
    ensures r.Cached? <==> id in cache && now - cache[id].timestamp < ImageTtl
    ensures r.Cached? ==> r.url == cache[id].value
    ensures r.Fetched? ==> Truthy(PromptMid(e)) && r.mid == PromptMid(e).value && r.listed == ListedImageUrl(graph(r.mid))
    ensures r.NoMid? ==> !Truthy(PromptMid(e)) && r.Url() == None
  {
    if id in cache && now - cache[id].timestamp < ImageTtl then Cached(cache[id].value)
    else
      var mid := PromptMid(e);
      if Truthy(mid) then Fetched(mid.value, ListedImageUrl(graph(mid.value))) else NoMid
  }

  /**
   * The cached image expires strictly at five minutes: an entry exactly
   * `ImageTtl` old sends the lookup to the Graph API (or nowhere).
   */
  lemma CachedImageExpiry(id: string, e: Event, now: int, cache: ImageCache, graph: string -> GraphReply)
    requires id in cache && now - cache[id].timestamp == ImageTtl
    ensures FindImageSource(id, e, now, cache, graph).Url() ==
      (if Truthy(PromptMid(e)) then ListedImageUrl(graph(PromptMid(e).value)) else None)
  {
    var r := FindImageSource(id, e, now, cache, graph);
    if r.Fetched? {
      assert r.Url() == r.listed;
    }
  }

  // --------------------------------------------------------- handleToolCalls

  /**
   * A truthy tool `result`: how a template string renders it, its
   * `answerBox?.answer`, and its `organic[i].snippet` values (empty for a
   * missing or empty snippet).
   */
  datatype ToolResult = ToolResult(shown: string, answer: Option<string>, organic: Option<seq<string>>)

  /** One entry of `toolInvocations`; a falsy `result` is `None`. */
  datatype ToolCall = ToolCall(toolName: string, state: string, result: Option<ToolResult>)

  /** What `handleToolCalls` reports: an image notice was sent, extra text to append, or nothing. */
  datatype ToolOutcome = Handled(notice: string) | Additional(text: string) | NotHandled

  /** A call `handleToolCalls` acts on: finished, with a truthy result, of a known tool. */
  predicate Honoured(c: ToolCall) {
    c.state == "result" && c.result.Some? && (c.toolName == "generateImage" || c.toolName == "browseWeb")
  }

  /** `.filter(Boolean)` over snippet strings: the non-empty ones, in order. */
  function NonEmpty(parts: seq<string>): (r: seq<string>)
    ensures |r| <= |parts|
    ensures forall i :: 0 <= i < |r| ==> r[i] != []
    ensures forall p :: p in r <==> p in parts && p != []
    ensures |parts| == 1 ==> r == (if parts[0] == [] then [] else parts)
  {
    if parts == [] then []
    else
      var rest := NonEmpty(parts[1..]);
      assert forall p :: p in parts <==> p == parts[0] || p in parts[1..];
      if parts[0] == [] then rest else [parts[0]] + rest
  }

  /**
   * The filter works piecewise: filtering two runs of snippets one after the
   * other keeps the survivors of each, in order.  With the one-snippet case
   * in `NonEmpty`'s contract this fixes the result, order and repeats included.
   */
  lemma {:induction false} NonEmptyAppend(a: seq<string>, b: seq<string>)
    ensures NonEmpty(a + b) == NonEmpty(a) + NonEmpty(b)
  {
    if a == [] {
      assert a + b == b;
    } else {
      NonEmptyAppend(a[1..], b);
      NonEmptyAppendStep(a[0], a[1..], b);
      assert a == [a[0]] + a[1..];
      assert a + b == [a[0]] + (a[1..] + b);
    }
  }

  /** The inductive step of `NonEmptyAppend`: one more snippet in front of the first run. */
  lemma NonEmptyAppendStep(h: string, t: seq<string>, b: seq<string>)
    requires NonEmpty(t + b) == NonEmpty(t) + NonEmpty(b)
    ensures NonEmpty([h] + (t + b)) == NonEmpty([h] + t) + NonEmpty(b)
  {
    NonEmptyCons(h, t);
    NonEmptyCons(h, t + b);
    SeqAssoc(if h == [] then [] else [h], NonEmpty(t), NonEmpty(b));
  }

  /** One snippet in front: it is kept exactly when it is not empty. */
  lemma NonEmptyCons(h: string, t: seq<string>)
    ensures NonEmpty([h] + t) == (if h == [] then [] else [h]) + NonEmpty(t)
  {
    assert ([h] + t)[0] == h && ([h] + t)[1..] == t;
  }

  /**
   * The `browseWeb` snippets: the answer box, else the organic snippets that
   * are not empty, separated by blank lines, else a fixed notice.  An organic
   * list whose snippets are all empty gives the empty text, not the notice.
   */
  function Snippets(r: ToolResult): (t: string)
    ensures r.answer.Some? ==> t == r.answer.value
    ensures r.answer.None? && r.organic.Some? ==> t == Join(NonEmpty(r.organic.value), "\n\n")
    ensures r.answer.None? && r.organic.Some? && (forall i :: 0 <= i < |r.organic.value| ==> r.organic.value[i] == []) ==> t == []
    ensures r.answer.None? && r.organic.None? ==> t == NoInfo
  {
    if r.answer.Some? then r.answer.value
    else if r.organic.Some? then
      var kept := NonEmpty(r.organic.value);
      assert (forall i :: 0 <= i < |r.organic.value| ==> r.organic.value[i] == []) ==> kept == [] by {
        if kept != [] { assert kept[0] in r.organic.value; }
      }
      Join(kept, "\n\n")
    else NoInfo
  }

  /** What one honoured call does. */
  function Outcome(c: ToolCall): (r: ToolOutcome)
    requires Honoured(c)
    ensures r.Handled? <==> c.toolName == "generateImage"
    ensures r.Handled? ==> r.notice == GeneratedLabel + c.result.value.shown
    ensures r.Additional? ==> r.text == BrowseLabel + Snippets(c.result.value)
    ensures !r.NotHandled?
  {
    if c.toolName == "generateImage" then Handled(GeneratedLabel + c.result.value.shown)
    else Additional(BrowseLabel + Snippets(c.result.value))
  }

  /** `calls[i]` is the first call acted on. */
  predicate FirstHonoured(calls: seq<ToolCall>, i: int) {
    0 <= i < |calls| && Honoured(calls[i]) && forall j :: 0 <= j < i ==> !Honoured(calls[j])
  }

  /**
   * The outcome of `handleToolCalls`: that of the first honoured call, and
   * nothing when no call is honoured; later calls are never looked at.
   */
  function SelectTool(calls: seq<ToolCall>): (r: ToolOutcome)
    ensures r.NotHandled? <==> forall i :: 0 <= i < |calls| ==> !Honoured(calls[i])
    ensures !r.NotHandled? ==> exists i :: FirstHonoured(calls, i) && r == Outcome(calls[i])
  {
    if calls == [] then NotHandled
    else if Honoured(calls[0]) then Outcome(calls[0])
    else
      var r := SelectTool(calls[1..]);
      SelectToolShift(calls, r);
      r
  }

  lemma SelectToolShift(calls: seq<ToolCall>, r: ToolOutcome)
    requires calls != [] && !Honoured(calls[0])
    requires r.NotHandled? <==> forall i :: 0 <= i < |calls| - 1 ==> !Honoured(calls[1..][i])
    requires !r.NotHandled? ==> exists i :: FirstHonoured(calls[1..], i) && r == Outcome(calls[1..][i])
    ensures r.NotHandled? <==> forall i :: 0 <= i < |calls| ==> !Honoured(calls[i])
    ensures !r.NotHandled? ==> exists i :: FirstHonoured(calls, i) && r == Outcome(calls[i])
  {
    if !r.NotHandled? {
      var i :| FirstHonoured(calls[1..], i) && r == Outcome(calls[1..][i]);
      assert calls[i + 1] == calls[1..][i];
      forall j | 0 <= j < i + 1 ensures !Honoured(calls[j]) {
        if j > 0 { assert calls[j] == calls[1..][j - 1]; }
      }
      assert FirstHonoured(calls, i + 1);
    } else {
      forall i | 0 <= i < |calls| ensures !Honoured(calls[i]) {
        if i > 0 { assert calls[i] == calls[1..][i - 1]; }
      }
    }
  }

  /**
   * `handleToolCalls`: scans the calls in order and stops at the first it acts
   * on; a generated image is announced to the sender right away.
   */
  method HandleToolCalls(calls: seq<ToolCall>) returns (outcome: ToolOutcome, sent: seq<Outgoing>)
    ensures outcome == SelectTool(calls)
    ensures sent == (if outcome.Handled? then [TextReply(outcome.notice)] else [])
  {
    var i := 0;
    while i < |calls|
      invariant 0 <= i <= |calls|
      invariant SelectTool(calls[i..]) == SelectTool(calls)
    {
      var c := calls[i];
      assert calls[i..][0] == c && calls[i..][1..] == calls[i + 1..];
      if c.state == "result" && c.result.Some? {
        if c.toolName == "generateImage" {
          outcome := Handled(GeneratedLabel + c.result.value.shown);
          sent := [TextReply(outcome.notice)];
          return;
        } else if c.toolName == "browseWeb" {
          outcome := Additional(BrowseLabel + Snippets(c.result.value));
          sent := [];
          return;
        }
      }
      i := i + 1;
    }
    outcome, sent := NotHandled, [];
  }

  // -------------------------------------------------------------- the answer

  /** How the chat service answered the request: it failed, or it sent a body and tool invocations. */
  datatype ApiReply = Unreachable | Reply(body: string, toolCalls: seq<ToolCall>)

  /**
   * The full reply text after the tool calls: the parsed body, followed by the
   * browse text when a `browseWeb` call was acted on; `None` when a generated
   * image ended the exchange.
   */
  function ReplyText(body: string, calls: seq<ToolCall>): (r: Option<string>)
    ensures r.None? <==> SelectTool(calls).Handled?
    ensures SelectTool(calls).Additional? ==> r == Some(ParseResponse(body) + SelectTool(calls).text)
    ensures SelectTool(calls).NotHandled? ==> r == Some(ParseResponse(body))
  {
    match SelectTool(calls)
    case Handled(_) => None
    case Additional(t) => Some(ParseResponse(body) + t)
    case NotHandled => Some(ParseResponse(body))
  }

  /** The reply as sent: header, bold-formatted text, footer. */
  function Formatted(full: string): string {
    Header + FormatBold(full) + Footer
  }

  /** One text message per chunk, in order. */
  function Texts(chunks: seq<string>): (r: seq<Outgoing>)
    ensures |r| == |chunks|
    ensures forall i :: 0 <= i < |r| ==> r[i] == TextReply(chunks[i])
  {
    seq(|chunks|, i requires 0 <= i < |chunks| => TextReply(chunks[i]))
  }

  /** The text the sender reads, messages concatenated in order (an image contributes none). */
  function Transcript(msgs: seq<Outgoing>): string {
    if msgs == [] then []
    else (if msgs[0].TextReply? then msgs[0].text else []) + Transcript(msgs[1..])
  }

  /**
   * What the sender receives once the service has answered: the error notice
   * when it failed or the reply is empty, the image notice of a generated
   * image, the first image URL of the reply as an attachment, or else the
   * formatted reply in chunks.  Something is always sent.
   */
  function Deliver(reply: ApiReply): (r: seq<Outgoing>)
    ensures |r| >= 1
    ensures reply.Unreachable? ==> r == [TextReply(ErrorNotice)]
    ensures reply.Reply? && SelectTool(reply.toolCalls).Handled? ==> r == [TextReply(SelectTool(reply.toolCalls).notice)]
    ensures reply.Reply? && ReplyText(reply.body, reply.toolCalls).Some? && ImageUrl(ReplyText(reply.body, reply.toolCalls).value).Some? ==>
      r == [ImageReply(ImageUrl(ReplyText(reply.body, reply.toolCalls).value).value)]
  {
    match reply
    case Unreachable => [TextReply(ErrorNotice)]
    case Reply(body, calls) =>
      match ReplyText(body, calls)
      case None => [TextReply(SelectTool(calls).notice)]
      case Some(full) =>
        match ImageUrl(full)
        case Some(u) => [ImageReply(u)]
        case None =>
          if full == [] then [TextReply(ErrorNotice)]
          else
            ChunkSizes(Formatted(full), MaxChunk);
            Texts(ChunkMessage(Formatted(full), MaxChunk))
  }

  lemma {:induction false} TranscriptTexts(chunks: seq<string>)
    ensures Transcript(Texts(chunks)) == Concat(chunks)
  {
    if chunks != [] {
      TranscriptTexts(chunks[1..]);
      assert Texts(chunks)[1..] == Texts(chunks[1..]);
    }
  }

  /**
   * A non-empty reply without an image URL reaches the sender whole and in
   * order: the messages are text, each at most `MaxChunk` long, there are
   * as many as `MaxChunk`-sized pieces of the formatted reply, and together
   * they read as that reply.
   */
  lemma DeliverFormatted(reply: ApiReply, full: string)
    requires reply.Reply? && ReplyText(reply.body, reply.toolCalls) == Some(full)
    requires full != [] && ImageUrl(full).None?
    ensures var r := Deliver(reply);
      && (forall i :: 0 <= i < |r| ==> r[i].TextReply? && 0 < |r[i].text| <= MaxChunk)
      && Transcript(r) == Formatted(full)
      && |r| == CeilDiv(|Formatted(full)|, MaxChunk)
      && r == Texts(ChunkMessage(Formatted(full), MaxChunk))
  {
    var chunks := ChunkMessage(Formatted(full), MaxChunk);
    assert Deliver(reply) == Texts(chunks);
    ChunkSizes(Formatted(full), MaxChunk);
    ChunksConcat(Formatted(full), MaxChunk);
    TranscriptTexts(chunks);
  }

  /**
   * The error notice is sent exactly when the service could not be reached or
   * its reply came to nothing; a generated image, an image URL or a formatted
   * reply never reads as the error notice.
   */
  lemma DeliverErrorIff(reply: ApiReply)
    ensures Deliver(reply) == [TextReply(ErrorNotice)] <==>
      reply.Unreachable? || ReplyText(reply.body, reply.toolCalls) == Some([])
  {
    if reply.Reply? {
      var calls := reply.toolCalls;
      match ReplyText(reply.body, calls)
      case None =>
        HandledNotError(calls);
      case Some(full) =>
        if full != [] && ImageUrl(full).None? {
          FormattedNotError(full);
        }
    }
  }

  /** The notice of a generated image is not the error notice. */
  lemma HandledNotError(calls: seq<ToolCall>)
    requires SelectTool(calls).Handled?
    ensures SelectTool(calls).notice != ErrorNotice
  {
    var i :| FirstHonoured(calls, i) && SelectTool(calls) == Outcome(calls[i]);
    var notice := SelectTool(calls).notice;
    assert notice == GeneratedLabel + calls[i].result.value.shown;
    assert GeneratedLabel[0] == '\U{1F5BC}' && ErrorNotice[0] == '\U{274E}';
    assert notice[0] == GeneratedLabel[0];
  }

  /** The first chunk of a formatted reply starts with the header, so it is not the error notice. */
  lemma FormattedNotError(full: string)
    ensures Texts(ChunkMessage(Formatted(full), MaxChunk)) != [TextReply(ErrorNotice)]
  {
    var text := Formatted(full);
    var chunks := ChunkMessage(text, MaxChunk);
    ChunkSizes(text, MaxChunk);
    assert chunks[0] == text[0 .. Min(MaxChunk, |text|)];
    assert text[0] == Header[0] == '\U{1F4AC}';
    assert ErrorNotice[0] == '\U{274E}';
    assert chunks[0][0] != ErrorNotice[0];
  }

  // ----------------------------------------------------------------- history

  datatype Role = User | Assistant

  /** `{ role, content }` */
  datatype Turn = Turn(role: Role, content: string)

  /** The assistant turn recorded for a reply: its full text, when the exchange got one and it is not empty. */
  function AssistantTurns(reply: ApiReply): (r: seq<Turn>)
    ensures |r| <= 1
    ensures r != [] ==> r[0].role == Assistant && r[0].content != []
    ensures r != [] ==>
      (reply.Reply? && ReplyText(reply.body, reply.toolCalls).Some?
       && r == [Turn(Assistant, ReplyText(reply.body, reply.toolCalls).value)])
    ensures r != [] <==> reply.Reply? && ReplyText(reply.body, reply.toolCalls).Some? && ReplyText(reply.body, reply.toolCalls).value != []
  {
    if reply.Reply? then
      match ReplyText(reply.body, reply.toolCalls)
      case Some(full) => if full != [] then [Turn(Assistant, full)] else []
      case None => []
    else []
  }

  /**
   * A reply is remembered exactly when the sender gets an answer from it: an
   * image or the formatted reply, and not the error notice or the notice of a
   * generated image.
   */
  lemma AssistantTurnIffAnswered(reply: ApiReply)
    ensures AssistantTurns(reply) != [] <==>
      !(reply.Reply? && SelectTool(reply.toolCalls).Handled?) && Deliver(reply) != [TextReply(ErrorNotice)]
  {
    DeliverErrorIff(reply);
  }

  /**
   * The turns stored for a sender after one exchange, from those stored
   * before.  A long history is cut to its `KeepRecent` latest turns and the
   * exchange itself is not kept (the pushes go to the array the cut replaced);
   * otherwise the prompt and the reply, if any, are appended.
   */
  function NextStored(before: seq<Turn>, prompt: string, reply: ApiReply): (r: seq<Turn>)
    ensures |before| > MaxHistory ==> |r| == KeepRecent && r == before[|before| - KeepRecent..]
    ensures |before| <= MaxHistory ==>
      (|before| < |r| <= |before| + 2 && r[..|before|] == before && r[|before|] == Turn(User, prompt))
    ensures |before| <= MaxHistory ==> (|r| == |before| + 2 <==> AssistantTurns(reply) != [])
    ensures |before| <= MaxHistory && AssistantTurns(reply) != [] ==> r[|before| + 1] == AssistantTurns(reply)[0]
  {
    if |before| > MaxHistory then before[|before| - KeepRecent..]
    else before + [Turn(User, prompt)] + AssistantTurns(reply)
  }

  /** A stored history never grows past `MaxHistory + 2` turns, whatever the exchanges. */
  lemma {:induction false} StoredBounded(before: seq<Turn>, prompts: seq<string>, replies: seq<ApiReply>)
    requires |before| <= MaxHistory + 2 && |prompts| == |replies|
    ensures |StoredAfter(before, prompts, replies)| <= MaxHistory + 2
    decreases |prompts|
  {
    if prompts != [] {
      StoredBounded(NextStored(before, prompts[0], replies[0]), prompts[1..], replies[1..]);
    }
  }

  /** The turns stored after a series of exchanges. */
  function StoredAfter(before: seq<Turn>, prompts: seq<string>, replies: seq<ApiReply>): seq<Turn>
    requires |prompts| == |replies|
    decreases |prompts|
  {
    if prompts == [] then before
    else StoredAfter(NextStored(before, prompts[0], replies[0]), prompts[1..], replies[1..])
  }

  /** A JavaScript array of turns, held by reference. */
  class Conversation {
    var turns: seq<Turn>

    constructor (initial: seq<Turn>)
      ensures turns == initial
    {
      turns := initial;
    }

    /** `push` */
    method Push(t: Turn)
      modifies this
      ensures turns == old(turns) + [t]
    {
      turns := turns + [t];
    }
  }

  /** `conversationHistory`: the conversation of each sender. */
  class History {
    var conversations: map<string, Conversation>

    /** Senders do not share arrays, and no stored history exceeds `MaxHistory + 2` turns. */
    ghost predicate Valid()
      reads this, conversations.Values
    {
      && (forall a, b :: a in conversations && b in conversations && a != b ==> conversations[a] != conversations[b])
      && (forall k :: k in conversations ==> |conversations[k].turns| <= MaxHistory + 2)
    }

    constructor ()
      ensures Valid() && conversations == map[]
    {
      conversations := map[];
    }

    /** The turns stored for `id` (none when the sender is new). */
    function Stored(id: string): seq<Turn>
      reads this, conversations.Values
    {
      if id in conversations then conversations[id].turns else []
    }

    /**
     * `execute(senderId, args, token, event, sendMessage, imageCache)`: builds
     * the prompt, records it, posts the stored turns to the service (whose
     * answer is `reply`), and returns the turns posted and the messages sent.
     * The stored history of `senderId` becomes `NextStored` of the old one;
     * other senders' histories are untouched.
     */
    method Execute(senderId: string, args: seq<string>, event: Event, now: int, imageCache: ImageCache,
                   graph: string -> GraphReply, reply: ApiReply)
      returns (request: seq<Turn>, sent: seq<Outgoing>)
      requires Valid()
      modifies this, conversations.Values
      ensures Valid()
      ensures var prompt := Prompt(RawPrompt(args), FindImageSource(senderId, event, now, imageCache, graph).Url());
        && request == old(Stored(senderId)) + [Turn(User, prompt)]
        && Stored(senderId) == NextStored(old(Stored(senderId)), prompt, reply)
      ensures sent == Deliver(reply)
      ensures conversations.Keys == old(conversations.Keys) + {senderId}
      ensures forall k :: k in old(conversations) && k != senderId ==>
        conversations[k] == old(conversations[k]) && conversations[k].turns == old(conversations[k].turns)
    {
      var source := FindImageSource(senderId, event, now, imageCache, graph);
      var prompt := Prompt(RawPrompt(args), source.Url());
      request, sent := Exchange(senderId, prompt, reply);
    }

    /**
     * One exchange for a built prompt: the prompt is recorded, the stored
     * turns are posted, and the assistant's answer, if any, is recorded.
     */
    method Exchange(senderId: string, prompt: string, reply: ApiReply)
      returns (request: seq<Turn>, sent: seq<Outgoing>)
      requires Valid()
      modifies this, conversations.Values
      ensures Valid()
      ensures request == old(Stored(senderId)) + [Turn(User, prompt)]
      ensures Stored(senderId) == NextStored(old(Stored(senderId)), prompt, reply)
      ensures sent == Deliver(reply)
      ensures conversations.Keys == old(conversations.Keys) + {senderId}
      ensures forall k :: k in old(conversations) && k != senderId ==>
        conversations[k] == old(conversations[k]) && conversations[k].turns == old(conversations[k].turns)
    {
      ghost var before := Stored(senderId);
      var conv := Prepare(senderId, prompt);
      request := conv.turns;
      var recorded;
      sent, recorded := Respond(reply);
      ghost var cut := |before| > MaxHistory;
      ghost var kept := conversations[senderId].turns;
      Remember(senderId, conv, recorded);
      if cut {
        assert conversations[senderId].turns == kept == NextStored(before, prompt, reply);
      } else {
        assert conversations[senderId].turns == before + [Turn(User, prompt)] + recorded;
      }
    }

    /** Pushes the assistant turn, if any, onto `conv`, which only `senderId` may share. */
    method Remember(senderId: string, conv: Conversation, recorded: seq<Turn>)
      requires Valid() && senderId in conversations && |recorded| <= 1
      requires conversations[senderId] == conv ==> |conv.turns| <= MaxHistory + 1
      requires forall k :: k in conversations && k != senderId ==> conversations[k] != conv
      modifies conv
      ensures Valid()
      ensures conv.turns == old(conv.turns) + recorded
      ensures forall k :: k in conversations && k != senderId ==> conversations[k].turns == old(conversations[k].turns)
      ensures conversations[senderId] != conv ==> conversations[senderId].turns == old(conversations[senderId].turns)
    {
      if recorded != [] {
        conv.Push(recorded[0]);
      } else {
        assert conv.turns == conv.turns + recorded;
      }
    }

    /**
     * Finds or creates the sender's array, cuts a long stored history back to
     * its latest turns (installing a new array, while `conv` stays the old
     * one), and pushes the prompt onto `conv`.
     */
    method Prepare(senderId: string, prompt: string) returns (conv: Conversation)
      requires Valid()
      modifies this, conversations.Values
      ensures fresh(conv) || conv in old(conversations.Values)
      ensures conv.turns == old(Stored(senderId)) + [Turn(User, prompt)]
      ensures senderId in conversations
      ensures |old(Stored(senderId))| > MaxHistory ==>
        conversations[senderId] != conv && conversations[senderId].turns == NextStored(old(Stored(senderId)), prompt, Unreachable)
      ensures |old(Stored(senderId))| <= MaxHistory ==> conversations[senderId] == conv
      ensures forall k :: k in conversations && k != senderId ==> conversations[k] != conv
      ensures conversations.Keys == old(conversations.Keys) + {senderId}
      ensures forall k :: k in old(conversations) && k != senderId ==>
        conversations[k] == old(conversations[k]) && conversations[k].turns == old(conversations[k].turns)
      ensures Valid()
    {
      if senderId !in conversations {
        var created := new Conversation([]);
        conversations := conversations[senderId := created];
      }
      conv := conversations[senderId];
      if |conv.turns| > MaxHistory {
        var recent := new Conversation(conv.turns[|conv.turns| - KeepRecent..]);
        conversations := conversations[senderId := recent];
      }
      conv.Push(Turn(User, prompt));
    }
  }

  /**
   * The part of `execute` after the service answered: tool calls, then the
   * image, error or chunked reply; also returns the assistant turn to record.
   */
  method Respond(reply: ApiReply) returns (sent: seq<Outgoing>, recorded: seq<Turn>)
    ensures sent == Deliver(reply)
    ensures recorded == AssistantTurns(reply)
  {
    recorded := [];
    if reply.Unreachable? {
      sent := [TextReply(ErrorNotice)];
      return;
    }
    var full := ParseResponse(reply.body);
    var outcome, toolSent := HandleToolCalls(reply.toolCalls);
    if outcome.Handled? {
      sent := toolSent;
      return;
    }
    if outcome.Additional? {
      full := full + outcome.text;
    }
    if full != [] {
      recorded := [Turn(Assistant, full)];
    }
    var image := ImageUrl(full);
    if image.Some? {
      sent := [ImageReply(image.value)];
      return;
    }
    if full == [] {
      sent := [TextReply(ErrorNotice)];
      return;
    }
    sent := Texts(ChunkMessage(Formatted(full), MaxChunk));
  }
}
