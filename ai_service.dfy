/**
 * The AI service: vendor clients made on first use and kept, the choice of
 * client and model for a provider, the relay of streamed deltas, and the
 * messages of the code-generation, refactoring, test and review requests.
 */
module AiService {
  import opened Common
  import opened Strings
  import opened Streams

  datatype Message = Message(role: string, content: string)

  datatype ClientKind = DeepSeekClient | OpenAIClient | PerplexityClient

  /** A vendor client; `serial` tells one construction from another. */
  datatype Client = Client(kind: ClientKind, apiKey: string, baseURL: Option<string>, serial: nat)

  /** The three API keys of the environment, each possibly unset. */
  datatype ApiKeys = ApiKeys(deepseek: Option<string>, openai: Option<string>, perplexity: Option<string>)

  /** `process.env.X || 'sk-placeholder'`. */
  function KeyOr(key: Option<string>): string {
    if key.Some? && key.value != [] then key.value else "sk-placeholder"
  }

  /** The options of a streamed completion; `temperature` in tenths. */
  datatype StreamOptions = StreamOptions(
    provider: Option<string>, model: Option<string>, temperature: Option<nat>,
    maxTokens: Option<nat>, stream: Option<bool>)

  /** What is asked of a client; `temperature` in tenths. */
  datatype CompletionRequest = CompletionRequest(
    client: ClientKind, model: string, messages: seq<Message>, temperature: nat, maxTokens: nat, stream: bool)

  /** The `switch (provider)`: the client and the default model. Unknown providers fall to DeepSeek. */
  function ProviderRoute(provider: string): (ClientKind, string) {
    if provider == "perplexity" then (PerplexityClient, "llama-3.1-sonar-large-128k-online")
    else if provider == "openai" then (OpenAIClient, "gpt-4-turbo-preview")
    else if provider == "claude" then (OpenAIClient, "claude-3-5-sonnet-20241022")
    else (DeepSeekClient, "deepseek-chat")
  }

  /** `options.model || fallback`. */
  function ModelOr(model: Option<string>, fallback: string): string {
    if model.Some? && model.value != [] then model.value else fallback
  }

  /**
   * The request `streamChatCompletion` makes. The destructuring defaults
   * apply only to absent options, so a temperature of 0 is kept.
   */
  function Resolve(messages: seq<Message>, options: StreamOptions): CompletionRequest {
    var route := ProviderRoute(options.provider.GetOr("deepseek"));
    CompletionRequest(
      route.0, ModelOr(options.model, route.1), messages,
      options.temperature.GetOr(7), options.maxTokens.GetOr(4096), options.stream.GetOr(true))
  }

  /**
   * The provider table: perplexity, openai and claude get their own default
   * model, claude on the OpenAI client; every other provider, and none, gets
   * DeepSeek; a non-empty model option wins in every case; the other options
   * default only when absent.
   */
  lemma ResolveTable(messages: seq<Message>, options: StreamOptions)
    ensures var r := Resolve(messages, options);
      var p := options.provider.GetOr("deepseek");
      var overridden := options.model.Some? && options.model.value != [];
      r.messages == messages &&
      (overridden ==> r.model == options.model.value) &&
      (p == "perplexity" ==> r.client == PerplexityClient && (!overridden ==> r.model == "llama-3.1-sonar-large-128k-online")) &&
      (p == "openai" ==> r.client == OpenAIClient && (!overridden ==> r.model == "gpt-4-turbo-preview")) &&
      (p == "claude" ==> r.client == OpenAIClient && (!overridden ==> r.model == "claude-3-5-sonnet-20241022")) &&
      (p !in {"perplexity", "openai", "claude"} ==> r.client == DeepSeekClient && (!overridden ==> r.model == "deepseek-chat")) &&
      (r.client == PerplexityClient <==> p == "perplexity") &&
      (options.temperature.Some? ==> r.temperature == options.temperature.value) &&
      (options.temperature.None? ==> r.temperature == 7) &&
      (options.maxTokens.Some? ==> r.maxTokens == options.maxTokens.value) &&
      (options.maxTokens.None? ==> r.maxTokens == 4096) &&
      (options.stream.Some? ==> r.stream == options.stream.value) &&
      (options.stream.None? ==> r.stream)
  {
  }

  /** The streaming `start` callback: it passes on the non-empty deltas as they are. */
  method RelayDeltas(controller: StreamController, upstream: Upstream)
    requires controller.state == Open && controller.chunks == []
    modifies controller
    ensures controller.chunks == Fragments(upstream.deltas)
    ensures controller.state == (if upstream.fails then Errored else Closed)
  {
    var i := 0;
    while i < |upstream.deltas|
      invariant 0 <= i <= |upstream.deltas|
      invariant controller.state == Open
      invariant controller.chunks + Fragments(upstream.deltas[i..]) == Fragments(upstream.deltas)
    {
      var content := DeltaText(upstream.deltas[i]);
      ghost var before := controller.chunks;
      ghost var produced := if content == [] then [] else [content];
      FragmentsStep(upstream.deltas, i);
      if content != [] {
        controller.Enqueue(content);
      }
      assert controller.chunks == before + produced;
      AppendAssoc(before, produced, Fragments(upstream.deltas[i + 1..]));
      i := i + 1;
    }
    if upstream.fails {
      controller.Error();
    } else {
      controller.Close();
    }
  }

  /** What passes the relay is the deltas with the empty and missing ones dropped, none changed. */
  lemma {:induction false} FragmentsAreDeltas(deltas: seq<Option<string>>)
    ensures forall f :: f in Fragments(deltas) ==> f != [] && Some(f) in deltas
    ensures |Fragments(deltas)| <= |deltas|
    ensures (forall k :: 0 <= k < |deltas| ==> DeltaText(deltas[k]) != []) ==> |Fragments(deltas)| == |deltas|
  {
    if deltas != [] {
      FragmentsAreDeltas(deltas[1..]);
      assert forall f :: f in Fragments(deltas[1..]) ==> Some(f) in deltas[1..];
    }
  }

  // ---------------------------------------------------------------------
  // Messages of the other requests
  // ---------------------------------------------------------------------

  const GenerationPrompt: string := "You are an expert React/TypeScript developer and code generation assistant for Comet Studio.\n\nYour task is to generate high-quality, production-ready code that follows best practices:\n- Write clean, idiomatic React code with TypeScript\n- Use modern React patterns (hooks, functional components)\n- Include proper type definitions\n- Follow accessibility standards (WCAG)\n- Add inline comments for complex logic\n- Use Tailwind CSS for styling\n- Generate responsive, mobile-first designs\n"

  /** The messages of `streamCodeGeneration`: the system prompt, with the project context when one is given, and the prompt. */
  function GenerationMessages(prompt: string, context: Option<string>): seq<Message> {
    var system := if context.Some? && context.value != [] then
      GenerationPrompt + "\n\nProject Context:\n" + context.value
    else GenerationPrompt;
    [Message("system", system), Message("user", prompt)]
  }

  /**
   * Exactly a system and a user message; the user message is the prompt; the
   * system message is the fixed prompt, followed by the context section only
   * when a context is given.
   */
  lemma GenerationMessagesShape(prompt: string, context: Option<string>)
    ensures var m := GenerationMessages(prompt, context);
      |m| == 2 && m[0].role == "system" && m[1] == Message("user", prompt) &&
      StartsWith(m[0].content, GenerationPrompt) &&
      (context.None? || context.value == [] <==> m[0].content == GenerationPrompt) &&
      (context.Some? && context.value != [] ==>
        m[0].content[|GenerationPrompt|..] == "\n\nProject Context:\n" + context.value)
  {
    var m := GenerationMessages(prompt, context);
    var ctx := "\n\nProject Context:\n";
    if context.Some? && context.value != [] {
      var s := GenerationPrompt + ctx + context.value;
      assert s == GenerationPrompt + (ctx + context.value);
      assert s[..|GenerationPrompt|] == GenerationPrompt;
      assert s[|GenerationPrompt|..] == ctx + context.value;
    }
  }

  const RefactorSystem: string := "You are an expert code refactoring assistant. Analyze the code and apply the requested changes while maintaining functionality and improving quality."

  /** The user message of `refactorCode`: the code in a fence, then the instructions. */
  function RefactorUser(code: string, instructions: string): string {
    "Original Code:\n```\n" + code + "\n```\n\nRefactoring Instructions: " + instructions + "\n\nProvide the refactored code."
  }

  /** `refactorCode`'s request: DeepSeek, with `||` defaults so 0 falls back too. */
  function RefactorRequest(code: string, instructions: string, options: StreamOptions): CompletionRequest {
    CompletionRequest(
      DeepSeekClient, ModelOr(options.model, "deepseek-chat"),
      [Message("system", RefactorSystem), Message("user", RefactorUser(code, instructions))],
      if options.temperature.Some? && options.temperature.value != 0 then options.temperature.value else 3,
      if options.maxTokens.Some? && options.maxTokens.value != 0 then options.maxTokens.value else 4096,
      false)
  }

  datatype TestFramework = Jest | Vitest

  function FrameworkName(f: TestFramework): string {
    match f
    case Jest => "jest"
    case Vitest => "vitest"
  }

  /** `generateTests`' request; the framework defaults to jest. */
  function TestsRequest(code: string, framework: Option<TestFramework>, options: StreamOptions): CompletionRequest {
    var name := FrameworkName(framework.GetOr(Jest));
    CompletionRequest(
      DeepSeekClient, ModelOr(options.model, "deepseek-chat"),
      [Message("system", "You are an expert at writing " + name + " tests. Generate comprehensive unit tests with good coverage."),
       Message("user", "Generate " + name + " tests for this code:\n```\n" + code + "\n```")],
      3, 2048, false)
  }

  datatype AnalysisType = Performance | Security | Accessibility | Quality

  function AnalysisPrompt(t: AnalysisType): string {
    match t
    case Performance => "Analyze this code for performance issues and suggest optimizations (memoization, lazy loading, etc.)"
    case Security => "Analyze this code for security vulnerabilities and suggest fixes"
    case Accessibility => "Analyze this code for accessibility issues (WCAG compliance) and suggest improvements"
    case Quality => "Analyze this code quality, identify code smells, and suggest refactoring opportunities"
  }

  const ReviewSystem: string := "You are an expert code reviewer with deep knowledge of best practices, performance, security, and accessibility."

  /** `analyzeCode`'s request; the analysis defaults to quality, and the model is fixed. */
  function AnalyzeRequest(code: string, analysisType: Option<AnalysisType>): CompletionRequest {
    CompletionRequest(
      DeepSeekClient, "deepseek-chat",
      [Message("system", ReviewSystem),
       Message("user", AnalysisPrompt(analysisType.GetOr(Quality)) + ":\n```\n" + code + "\n```")],
      3, 2048, false)
  }

  /**
   * The three one-shot requests all go to DeepSeek as a system and a user
   * message, without streaming; the refactoring falls back to 0.3 and 4096
   * for missing or zero values, tests and reviews use 0.3 and 2048; only the
   * review ignores a model option.
   */
  lemma OneShotRequests(code: string, instructions: string, options: StreamOptions,
      framework: Option<TestFramework>, analysisType: Option<AnalysisType>)
    ensures var r := RefactorRequest(code, instructions, options);
      r.client == DeepSeekClient && !r.stream && |r.messages| == 2 &&
      r.messages[0].role == "system" && r.messages[1].role == "user" &&
      (options.temperature.None? || options.temperature.value == 0 ==> r.temperature == 3) &&
      (options.maxTokens.None? || options.maxTokens.value == 0 ==> r.maxTokens == 4096) &&
      (options.model.None? || options.model.value == [] ==> r.model == "deepseek-chat")
    ensures var r := TestsRequest(code, framework, options);
      r.client == DeepSeekClient && !r.stream && r.temperature == 3 && r.maxTokens == 2048 &&
      |r.messages| == 2 && r.messages[0].role == "system" && r.messages[1].role == "user" &&
      (options.model.Some? && options.model.value != [] ==> r.model == options.model.value)
    ensures var r := AnalyzeRequest(code, analysisType);
      r.client == DeepSeekClient && !r.stream && r.temperature == 3 && r.maxTokens == 2048 &&
      r.model == "deepseek-chat" && |r.messages| == 2 && r.messages[0] == Message("system", ReviewSystem)
  {
  }

  // ---------------------------------------------------------------------
  // The service object
  // ---------------------------------------------------------------------

  class Service {
    var deepseekClient: Option<Client>
    var openaiClient: Option<Client>
    var perplexityClient: Option<Client>
    /** How many clients have been constructed so far. */
    var created: nat

    /** Each kept client is of its own kind and was constructed earlier. */
    predicate Valid()
      reads this
    {
      (deepseekClient.Some? ==> deepseekClient.value.kind == DeepSeekClient && deepseekClient.value.serial < created) &&
      (openaiClient.Some? ==> openaiClient.value.kind == OpenAIClient && openaiClient.value.serial < created) &&
      (perplexityClient.Some? ==> perplexityClient.value.kind == PerplexityClient && perplexityClient.value.serial < created)
    }

    /** The client kept for a kind, if it was made. */
    function Kept(kind: ClientKind): Option<Client>
      reads this
    {
      match kind
      case DeepSeekClient => deepseekClient
      case OpenAIClient => openaiClient
      case PerplexityClient => perplexityClient
    }

    constructor()
      ensures Valid()
      ensures deepseekClient.None? && openaiClient.None? && perplexityClient.None? && created == 0
    {
      deepseekClient, openaiClient, perplexityClient := None, None, None;
      created := 0;
    }

    /** `getDeepSeekClient`: made on first use, then the same client every time. */
    method GetDeepSeekClient(keys: ApiKeys) returns (c: Client)
      requires Valid()
      modifies this
      ensures Valid() && deepseekClient == Some(c) && c.kind == DeepSeekClient
      ensures old(deepseekClient).Some? ==> c == old(deepseekClient).value && created == old(created)
      ensures old(deepseekClient).None? ==>
        c == Client(DeepSeekClient, KeyOr(keys.deepseek), Some("https://api.deepseek.com"), old(created)) &&
        created == old(created) + 1
      ensures openaiClient == old(openaiClient) && perplexityClient == old(perplexityClient)
    {
      if deepseekClient.None? {
        deepseekClient := Some(Client(DeepSeekClient, KeyOr(keys.deepseek), Some("https://api.deepseek.com"), created));
        created := created + 1;
      }
      c := deepseekClient.value;
    }

    /** `getOpenAIClient`: made on first use, then the same client every time. */
    method GetOpenAIClient(keys: ApiKeys) returns (c: Client)
      requires Valid()
      modifies this
      ensures Valid() && openaiClient == Some(c) && c.kind == OpenAIClient
      ensures old(openaiClient).Some? ==> c == old(openaiClient).value && created == old(created)
      ensures old(openaiClient).None? ==>
        c == Client(OpenAIClient, KeyOr(keys.openai), None, old(created)) && created == old(created) + 1
      ensures deepseekClient == old(deepseekClient) && perplexityClient == old(perplexityClient)
    {
      if openaiClient.None? {
        openaiClient := Some(Client(OpenAIClient, KeyOr(keys.openai), None, created));
        created := created + 1;
      }
      c := openaiClient.value;
    }

    /** `getPerplexityClient`: made on first use, then the same client every time. */
    method GetPerplexityClient(keys: ApiKeys) returns (c: Client)
      requires Valid()
      modifies this
      ensures Valid() && perplexityClient == Some(c) && c.kind == PerplexityClient
      ensures old(perplexityClient).Some? ==> c == old(perplexityClient).value && created == old(created)
      ensures old(perplexityClient).None? ==>
        c == Client(PerplexityClient, KeyOr(keys.perplexity), Some("https://api.perplexity.ai"), old(created)) &&
        created == old(created) + 1
      ensures deepseekClient == old(deepseekClient) && openaiClient == old(openaiClient)
    {
      if perplexityClient.None? {
        perplexityClient := Some(Client(PerplexityClient, KeyOr(keys.perplexity), Some("https://api.perplexity.ai"), created));
        created := created + 1;
      }
      c := perplexityClient.value;
    }

    /** The client a request goes to, through its getter. */
    method ClientFor(kind: ClientKind, keys: ApiKeys) returns (c: Client)
      requires Valid()
      modifies this
      ensures Valid() && c.kind == kind
      ensures kind == DeepSeekClient ==> deepseekClient == Some(c) && (old(deepseekClient).Some? ==> c == old(deepseekClient).value)
      ensures kind == OpenAIClient ==> openaiClient == Some(c) && (old(openaiClient).Some? ==> c == old(openaiClient).value)
      ensures kind == PerplexityClient ==> perplexityClient == Some(c) && (old(perplexityClient).Some? ==> c == old(perplexityClient).value)
      ensures kind != DeepSeekClient ==> deepseekClient == old(deepseekClient)
      ensures kind != OpenAIClient ==> openaiClient == old(openaiClient)
      ensures kind != PerplexityClient ==> perplexityClient == old(perplexityClient)
      ensures created == old(created) + (if old(Kept(kind)).None? then 1 else 0)
    {
      match kind
      case DeepSeekClient => c := GetDeepSeekClient(keys);
      case OpenAIClient => c := GetOpenAIClient(keys);
      case PerplexityClient => c := GetPerplexityClient(keys);
    }

    /**
     * `streamChatCompletion`: resolves the client and the model through the
     * getters, asks the client with `upstream` standing for its answer, and
     * relays the deltas. Without `stream` the answer is one completion object,
     * which the `for await` cannot iterate, so the stream errors at once.
     */
    method StreamChatCompletion(messages: seq<Message>, options: StreamOptions, keys: ApiKeys,
        upstream: Upstream, controller: StreamController)
      returns (request: CompletionRequest, client: Client)
      requires Valid() && controller.state == Open && controller.chunks == []
      modifies this, controller
      ensures Valid()
      ensures request == Resolve(messages, options) && client.kind == request.client
      ensures Kept(request.client) == Some(client)
      ensures old(Kept(request.client)).Some? ==> client == old(Kept(request.client)).value
      ensures forall k :: k != request.client ==> Kept(k) == old(Kept(k))
      ensures created == old(created) + (if old(Kept(request.client)).None? then 1 else 0)
      ensures request.stream ==>
        controller.chunks == Fragments(upstream.deltas) &&
        controller.state == (if upstream.fails then Errored else Closed)
      ensures !request.stream ==> controller.chunks == [] && controller.state == Errored
    {
      request := Resolve(messages, options);
      client := ClientFor(request.client, keys);
      if request.stream {
        RelayDeltas(controller, upstream);
      } else {
        controller.Error();
      }
    }

    /** `streamCodeGeneration`: the generation messages through `streamChatCompletion`. */
    method StreamCodeGeneration(prompt: string, context: Option<string>, options: StreamOptions, keys: ApiKeys,
        upstream: Upstream, controller: StreamController)
      returns (request: CompletionRequest, client: Client)
      requires Valid() && controller.state == Open && controller.chunks == []
      modifies this, controller
      ensures Valid()
      ensures request == Resolve(GenerationMessages(prompt, context), options) && client.kind == request.client
      ensures Kept(request.client) == Some(client)
      ensures old(Kept(request.client)).Some? ==> client == old(Kept(request.client)).value
      ensures forall k :: k != request.client ==> Kept(k) == old(Kept(k))
      ensures created == old(created) + (if old(Kept(request.client)).None? then 1 else 0)
      ensures request.stream ==>
        controller.chunks == Fragments(upstream.deltas) &&
        controller.state == (if upstream.fails then Errored else Closed)
      ensures !request.stream ==> controller.chunks == [] && controller.state == Errored
    {
      request, client := StreamChatCompletion(GenerationMessages(prompt, context), options, keys, upstream, controller);
    }

    /** `refactorCode`: the first answer of the DeepSeek client, or empty. */
    method RefactorCode(code: string, instructions: string, options: StreamOptions, keys: ApiKeys,
        choices: seq<Option<string>>)
      returns (request: CompletionRequest, reply: string)
      requires Valid()
      modifies this
      ensures Valid() && openaiClient == old(openaiClient) && perplexityClient == old(perplexityClient)
      ensures old(deepseekClient).Some? ==> deepseekClient == old(deepseekClient) && created == old(created)
      ensures old(deepseekClient).None? ==>
        created == old(created) + 1 &&
        deepseekClient == Some(Client(DeepSeekClient, KeyOr(keys.deepseek), Some("https://api.deepseek.com"), old(created)))
      ensures request == RefactorRequest(code, instructions, options) && reply == FirstChoice(choices)
    {
      var client := GetDeepSeekClient(keys);
      request := RefactorRequest(code, instructions, options);
      reply := FirstChoice(choices);
    }

    /** `generateTests`: the first answer of the DeepSeek client, or empty. */
    method GenerateTests(code: string, framework: Option<TestFramework>, options: StreamOptions, keys: ApiKeys,
        choices: seq<Option<string>>)
      returns (request: CompletionRequest, reply: string)
      requires Valid()
      modifies this
      ensures Valid() && openaiClient == old(openaiClient) && perplexityClient == old(perplexityClient)
      ensures old(deepseekClient).Some? ==> deepseekClient == old(deepseekClient) && created == old(created)
      ensures old(deepseekClient).None? ==>
        created == old(created) + 1 &&
        deepseekClient == Some(Client(DeepSeekClient, KeyOr(keys.deepseek), Some("https://api.deepseek.com"), old(created)))
      ensures request == TestsRequest(code, framework, options) && reply == FirstChoice(choices)
    {
      var client := GetDeepSeekClient(keys);
      request := TestsRequest(code, framework, options);
      reply := FirstChoice(choices);
    }

    /** `analyzeCode`: the first answer of the DeepSeek client, or empty. */
    method AnalyzeCode(code: string, analysisType: Option<AnalysisType>, keys: ApiKeys, choices: seq<Option<string>>)
      returns (request: CompletionRequest, reply: string)
      requires Valid()
      modifies this
      ensures Valid() && openaiClient == old(openaiClient) && perplexityClient == old(perplexityClient)
      ensures old(deepseekClient).Some? ==> deepseekClient == old(deepseekClient) && created == old(created)
      ensures old(deepseekClient).None? ==>
        created == old(created) + 1 &&
        deepseekClient == Some(Client(DeepSeekClient, KeyOr(keys.deepseek), Some("https://api.deepseek.com"), old(created)))
      ensures request == AnalyzeRequest(code, analysisType) && reply == FirstChoice(choices)
    {
      var client := GetDeepSeekClient(keys);
      request := AnalyzeRequest(code, analysisType);
      reply := FirstChoice(choices);
    }
  }

  /**
   * A scenario over a fresh service: asking for a client twice constructs it
   * once and gives the same client both times.
   */
  method ClientsAreKept(keys: ApiKeys, kind: ClientKind) returns (first: Client, second: Client, constructions: nat)
    ensures first == second && constructions == 1
  {
    var service := new Service();
    first := service.ClientFor(kind, keys);
    second := service.ClientFor(kind, keys);
    constructions := service.created;
  }
}
