/**
 * The chat endpoint: it builds the system prompt and the upstream request
 * from the posted body, relays a streamed completion as newline-delimited
 * JSON records, or answers with the whole reply at once.
 */
module ChatRoute {
  import opened Common
  import opened Strings
  import opened Json
  import opened Streams

  /**
   * `getClientIP`: the first comma-separated entry of x-forwarded-for,
   * trimmed; else x-real-ip; else unknown. An empty header counts as absent.
   */
  function GetClientIP(forwarded: Option<string>, realIP: Option<string>): string {
    if forwarded.Some? && forwarded.value != [] then Trim(Split(forwarded.value, ',')[0])
    else if realIP.Some? && realIP.value != [] then realIP.value
    else "unknown"
  }

  lemma ClientIPChoice(forwarded: Option<string>, realIP: Option<string>)
    ensures forwarded.Some? && forwarded.value != [] ==>
      var f := forwarded.value;
      var ip := GetClientIP(forwarded, realIP);
      exists n :: 0 <= n <= |f| && ',' !in f[..n] && (n == |f| || f[n] == ',') && ip == Trim(f[..n])
    ensures forwarded.Some? && forwarded.value != [] ==> Trimmed(GetClientIP(forwarded, realIP))
    ensures (forwarded.None? || forwarded.value == []) && realIP.Some? && realIP.value != [] ==>
      GetClientIP(forwarded, realIP) == realIP.value
    ensures (forwarded.None? || forwarded.value == []) && (realIP.None? || realIP.value == []) ==>
      GetClientIP(forwarded, realIP) == "unknown"
  {
    if forwarded.Some? && forwarded.value != [] {
      var f := forwarded.value;
      SplitFirst(f, ',');
      var n := |Split(f, ',')[0]|;
      assert ',' !in Split(f, ',')[0];
      TrimIsTrimmed(Split(f, ',')[0]);
    }
  }

  // ---------------------------------------------------------------------
  // The system prompt and the upstream request
  // ---------------------------------------------------------------------

  const BasePrompt: string := "You are an expert UI/UX designer and full-stack developer. Generate clean, modern React components using Tailwind CSS and Next.js best practices."

  const ArtistePrompt: string := "\n      \n      \U{1F3A8} AI ARTISTE MODE ACTIVATED:\n      - You are a world-class creative technologist.\n      - PRIORITY: VISUAL AESTHETICS & ANIMATION.\n      - Use \"Glassmorphism\" (backdrop-blur, white/10 borders), \"Neumorphism\", or \"Aurora Gradients\".\n      - ALWAYS use 'lucide-react' for icons.\n      - ALWAYS use 'framer-motion' for animations if appropriate.\n      - When asked to build a specific component (like a \"Landing Page\" or \"Dashboard\"), generate a COMPLETE, SINGLE-FILE React component that can run in a Sandpack preview.\n      - The user can see your code running LIVE. Make it pop!\n      "

  const QuebecPrompt: string := " \n\nIMPORTANT: Tu es Qu\U{00E9}b\U{00E9}cois. Utilise des expressions qu\U{00E9}b\U{00E9}coises authentiques (ex: 'C'est tiguidou', 'Aweille', 'Jaser de code'). Sois amical, professionnel mais avec une bonne touche locale."

  /** The system prompt: the base text, the Artiste block if asked for, then the Quebec French instruction. */
  function SystemPrompt(artisteMode: bool, language: Option<string>): string {
    Compose(BasePrompt, ArtistePrompt, QuebecPrompt, artisteMode, language == Some("fr-QC"))
  }

  /** The three blocks of a prompt, the last two each present or not. */
  function Compose(base: string, artiste: string, quebec: string, withArtiste: bool, withQuebec: bool): string {
    var head := if withArtiste then base + artiste else base;
    if withQuebec then head + quebec else head
  }

  predicate EndsWith(s: string, t: string) {
    |t| <= |s| && s[|s| - |t|..] == t
  }

  /**
   * The prompt always opens with the base text, and the Artiste block
   * follows it exactly when Artiste mode is on.
   */
  lemma SystemPromptOpening(artisteMode: bool, language: Option<string>)
    ensures StartsWith(SystemPrompt(artisteMode, language), BasePrompt)
    ensures artisteMode ==> StartsWith(SystemPrompt(artisteMode, language), BasePrompt + ArtistePrompt)
    ensures !artisteMode && language != Some("fr-QC") ==> SystemPrompt(artisteMode, language) == BasePrompt
  {
    ComposeOpening(BasePrompt, ArtistePrompt, QuebecPrompt, artisteMode, language == Some("fr-QC"));
  }

  lemma ComposeOpening(base: string, artiste: string, quebec: string, withArtiste: bool, withQuebec: bool)
    ensures StartsWith(Compose(base, artiste, quebec, withArtiste, withQuebec), base)
    ensures withArtiste ==> StartsWith(Compose(base, artiste, quebec, withArtiste, withQuebec), base + artiste)
    ensures !withArtiste && !withQuebec ==> Compose(base, artiste, quebec, withArtiste, withQuebec) == base
  {
    var w := if withArtiste then base + artiste else base;
    assert (w + quebec)[..|base|] == w[..|base|];
    if withArtiste {
      assert (w + quebec)[..|w|] == w;
    }
  }

  /** The prompt ends with the Quebec French instruction exactly when the language is fr-QC. */
  lemma SystemPromptClosing(artisteMode: bool, language: Option<string>)
    ensures EndsWith(SystemPrompt(artisteMode, language), QuebecPrompt) <==> language == Some("fr-QC")
  {
    PromptEnds();
    ComposeClosing(BasePrompt, ArtistePrompt, QuebecPrompt, artisteMode, language == Some("fr-QC"));
  }

  /** The facts about the three texts that tell the Quebec block apart from what precedes it. */
  lemma PromptEnds()
    ensures |BasePrompt| < |QuebecPrompt| && ArtistePrompt != [] && QuebecPrompt != []
    ensures ArtistePrompt[|ArtistePrompt| - 1] != QuebecPrompt[|QuebecPrompt| - 1]
  {
  }

  lemma ComposeClosing(base: string, artiste: string, quebec: string, withArtiste: bool, withQuebec: bool)
    requires |base| < |quebec| && artiste != [] && quebec != []
    requires artiste[|artiste| - 1] != quebec[|quebec| - 1]
    ensures EndsWith(Compose(base, artiste, quebec, withArtiste, withQuebec), quebec) <==> withQuebec
  {
    var p := Compose(base, artiste, quebec, withArtiste, withQuebec);
    var w := if withArtiste then base + artiste else base;
    if withQuebec {
      assert (w + quebec)[|w|..] == quebec;
    } else if withArtiste {
      assert p[|p| - 1] == artiste[|artiste| - 1];
    }
  }

  datatype Message = Message(role: string, content: string)

  /** The posted body, with `temperature` in tenths and the two flags by truthiness. */
  datatype ChatRequest = ChatRequest(
    message: string, chatId: Option<string>, streaming: bool,
    temperature: Option<nat>, maxTokens: Option<nat>,
    language: Option<string>, artisteMode: bool)

  /** What is sent upstream, with `temperature` in tenths. */
  datatype UpstreamRequest = UpstreamRequest(
    model: string, messages: seq<Message>, temperature: nat, maxTokens: nat, stream: bool)

  /** `value || fallback` for a number: zero and absence both fall back. */
  function OrDefault(value: Option<nat>, fallback: nat): nat {
    if value.Some? && value.value != 0 then value.value else fallback
  }

  const RouteModel: string := "llama-3.1-sonar-large-128k-online"

  function BuildRequest(req: ChatRequest): UpstreamRequest {
    UpstreamRequest(
      RouteModel,
      [Message("system", SystemPrompt(req.artisteMode, req.language)), Message("user", req.message)],
      OrDefault(req.temperature, 7),
      OrDefault(req.maxTokens, 1000),
      req.streaming)
  }

  /**
   * Upstream gets exactly the system prompt and the one user message, no
   * history; temperature falls back to 0.7 and max_tokens to 1000 when
   * missing or zero; any other value is passed through.
   */
  lemma RequestDefaults(req: ChatRequest)
    ensures BuildRequest(req).messages ==
      [Message("system", SystemPrompt(req.artisteMode, req.language)), Message("user", req.message)]
    ensures BuildRequest(req).temperature == 7 <==> req.temperature.None? || req.temperature.value in {0, 7}
    ensures req.temperature.Some? && req.temperature.value != 0 ==> BuildRequest(req).temperature == req.temperature.value
    ensures BuildRequest(req).maxTokens == 1000 <==> req.maxTokens.None? || req.maxTokens.value in {0, 1000}
    ensures req.maxTokens.Some? && req.maxTokens.value != 0 ==> BuildRequest(req).maxTokens == req.maxTokens.value
    ensures BuildRequest(req).stream == req.streaming && BuildRequest(req).model == RouteModel
  {
  }

  // ---------------------------------------------------------------------
  // The streamed reply
  // ---------------------------------------------------------------------

  /** The frames written for a run of deltas: one per non-empty delta, in order. */
  function Frames(deltas: seq<Option<string>>): seq<string> {
    if deltas == [] then []
    else (if DeltaText(deltas[0]) == [] then [] else [Frame(DeltaText(deltas[0]))]) + Frames(deltas[1..])
  }

  lemma FramesStep(deltas: seq<Option<string>>, i: nat)
    requires i < |deltas|
    ensures Frames(deltas[i..]) ==
      (if DeltaText(deltas[i]) == [] then [] else [Frame(DeltaText(deltas[i]))]) + Frames(deltas[i + 1..])
  {
    assert deltas[i..][1..] == deltas[i + 1..];
  }

  /** The `start` callback of the relay stream. */
  method Relay(controller: StreamController, upstream: Upstream)
    requires controller.state == Open && controller.chunks == []
    modifies controller
    ensures controller.chunks == Frames(upstream.deltas)
    ensures controller.state == (if upstream.fails then Errored else Closed)
  {
    var i := 0;
    while i < |upstream.deltas|
      invariant 0 <= i <= |upstream.deltas|
      invariant controller.state == Open
      invariant controller.chunks + Frames(upstream.deltas[i..]) == Frames(upstream.deltas)
    {
      var content := DeltaText(upstream.deltas[i]);
      ghost var before := controller.chunks;
      ghost var produced := if content == [] then [] else [Frame(content)];
      FramesStep(upstream.deltas, i);
      if content != [] {
        controller.Enqueue(Frame(content));
      }
      assert controller.chunks == before + produced;
      AppendAssoc(before, produced, Frames(upstream.deltas[i + 1..]));
      i := i + 1;
    }
    if upstream.fails {
      controller.Error();
    } else {
      controller.Close();
    }
  }

  /** Each frame is the record of one non-empty delta, in order, and there are as many frames as such deltas. */
  lemma {:induction false} FramesAreRecords(deltas: seq<Option<string>>)
    ensures |Frames(deltas)| == |Fragments(deltas)|
    ensures forall i :: 0 <= i < |Frames(deltas)| ==>
      Frames(deltas)[i] == Frame(Fragments(deltas)[i]) && Fragments(deltas)[i] != []
  {
    if deltas != [] {
      FramesAreRecords(deltas[1..]);
    }
  }

  // ---------------------------------------------------------------------
  // The reply sent at once
  // ---------------------------------------------------------------------

  datatype ReplyMessage = ReplyMessage(role: string, content: string, id: string, createdAt: string)

  datatype Response =
    | Reply(id: string, messages: seq<ReplyMessage>)
    | ServerError(error: string, details: string)

  /** The upstream call: its choices' message contents, or the error it threw. */
  datatype Completion = Completed(choices: seq<Option<string>>) | Threw(details: string)

  /** The chat id of the reply: the posted one, else `chat-<now>-<suffix>`. */
  function ReplyChatId(chatId: Option<string>, now: nat, suffix: string): string {
    if chatId.Some? && chatId.value != [] then chatId.value
    else "chat-" + IntToString(now) + "-" + suffix
  }

  /** The record written about a new chat: by the signed-in user, else by address. */
  datatype ChatLog = NoLog | Ownership(chatId: string, userId: string) | AnonymousLog(ipAddress: string, chatId: string)

  function LogFor(chatId: Option<string>, generated: string, userId: Option<string>, ip: string): ChatLog {
    if chatId.Some? && chatId.value != [] then NoLog
    else if userId.Some? && userId.value != [] then Ownership(generated, userId.value)
    else AnonymousLog(ip, generated)
  }

  /**
   * The answer without streaming. `now`, `suffix` and `createdAt` stand for
   * the clock and the random id part; writing the log never fails it, so the
   * log's outcome is not an input.
   */
  function NonStreaming(req: ChatRequest, completion: Completion, now: nat, suffix: string, createdAt: string): Response {
    match completion
    case Threw(details) => ServerError("Failed to process request", details)
    case Completed(choices) =>
      Reply(ReplyChatId(req.chatId, now, suffix), [
        ReplyMessage("user", req.message, "msg-" + IntToString(now) + "-1", createdAt),
        ReplyMessage("assistant", FirstChoice(choices), "msg-" + IntToString(now) + "-2", createdAt)])
  }

  /**
   * The reply keeps a posted chat id and otherwise makes a `chat-` one; it
   * holds the request message as user and then the reply; a log is written
   * only for a chat without an id, and only a throwing upstream fails it.
   */
  lemma NonStreamingReply(req: ChatRequest, completion: Completion, now: nat, suffix: string, createdAt: string,
      userId: Option<string>, ip: string)
    ensures NonStreaming(req, completion, now, suffix, createdAt).ServerError? <==> completion.Threw?
    ensures completion.Completed? ==>
      var r := NonStreaming(req, completion, now, suffix, createdAt);
      |r.messages| == 2 && r.messages[0].role == "user" && r.messages[0].content == req.message &&
      r.messages[1].role == "assistant" && r.messages[1].content == FirstChoice(completion.choices) &&
      (req.chatId.Some? && req.chatId.value != [] ==> r.id == req.chatId.value) &&
      (req.chatId.None? || req.chatId.value == [] ==> StartsWith(r.id, "chat-"))
    ensures LogFor(req.chatId, ReplyChatId(req.chatId, now, suffix), userId, ip).NoLog? <==>
      req.chatId.Some? && req.chatId.value != []
  {
    var id := "chat-" + IntToString(now) + "-" + suffix;
    assert id[..5] == "chat-";
  }
}
