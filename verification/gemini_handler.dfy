/** Model of `GeminiHandler`: construction, the client rebuild after a
    rotation, the retry and event shaping of `createMessage`, and `getModel`.

    The provider SDK is replaced by a script: one `AttemptScript` per
    `generateContentStream` call, saying whether the call is rejected or
    which chunks the stream delivers and how it ends. The client built by
    `new GoogleGenerativeAI(key)` is represented by the key it was built
    with. The async generator's output is the finite sequence of events it
    yields, and a thrown error is the `Thrown` status. */
module GeminiHandler {
  import opened Results
  import KeyRotator
  import opened ErrorClassification

  /** The text of the error raised when no primary key is configured. */
  const MissingKeyMessage: string := "Primary API key is required for Google Gemini"

  /** The handler options this core reads. */
  datatype Options = Options(
    geminiApiKey: Option<string>,
    geminiApiKeys: Option<seq<string>>,
    apiModelId: Option<string>)

  /** The handler's fields; `clientKey` is the key the current client was
      built with. */
  datatype Handler = Handler(options: Options, rotator: KeyRotator.State, clientKey: string)

  /** An error as the handler sees it: only its optional `message` matters. */
  datatype ThrownError = ThrownError(message: Option<string>)

  /** The model registry: model ids with their metadata, and the default id. */
  datatype Registry<Info> = Registry(models: map<string, Info>, defaultId: string)

  /** What `getModel` returns. */
  datatype ModelChoice<Info> = ModelChoice(id: string, info: Info)

  /** The parameters of one `generateContentStream` call. */
  datatype Message = Message(role: string, content: string)
  datatype Request = Request(
    apiKey: string,
    modelId: string,
    systemInstruction: string,
    contents: seq<Message>,
    temperature: int)

  /** How an opened stream ends: the final response with its optional token
      counts, or an error after the chunks already delivered. */
  datatype StreamEnd =
    | Finished(promptTokenCount: Option<int>, candidatesTokenCount: Option<int>)
    | Broken(message: Option<string>)

  /** The scripted outcome of one `generateContentStream` call. */
  datatype AttemptScript =
    | RejectedAtOpen(message: Option<string>)
    | Opened(chunks: seq<string>, end: StreamEnd)

  /** The events `createMessage` yields. */
  datatype Event = Text(text: string) | Usage(inputTokens: int, outputTokens: int)

  /** How a `createMessage` run ends. `ScriptExhausted` means the script has
      no outcome for a further call. */
  datatype Status = Completed | Thrown(error: ThrownError) | ScriptExhausted

  /** One attempt: the events it yielded, the rotator after it, and the
      error it ended with, if any. */
  datatype AttemptResult = AttemptResult(events: seq<Event>, rotator: KeyRotator.State, error: Option<ThrownError>)

  /** A whole `createMessage` run: the events yielded, how it ended, the
      handler after it, and the requests it issued, one per attempt. */
  datatype Reply = Reply(events: seq<Event>, status: Status, handler: Handler, requests: seq<Request>)

  /** The handler invariant: a valid rotator with at least one key, and a
      client built with one of the rotator's keys. */
  ghost predicate Valid(h: Handler) {
    && KeyRotator.Valid(h.rotator)
    && |h.rotator.keys| > 0
    && h.clientKey in h.rotator.keys
  }

  /** The `message` field of the rotator's own errors. */
  function RotatorErrorToThrown(e: KeyRotator.RotatorError): ThrownError {
    ThrownError(Some(KeyRotator.NoKeysMessage))
  }

  // ---------------------------------------------------------------------
  // Construction and the client rebuild
  // ---------------------------------------------------------------------

  /** The constructor: a missing or empty primary key is an error; otherwise
      the rotator is built from the primary and additional keys and the
      client from the rotator's current key, which is the primary. */
  function New(options: Options): (r: Result<Handler, ThrownError>)
    ensures r.Failure? <==> (options.geminiApiKey.None? || options.geminiApiKey.value == "")
    ensures r.Failure? ==> r.error == ThrownError(Some(MissingKeyMessage))
    ensures r.Success? ==> Valid(r.value) && r.value.options == options
    ensures r.Success? ==> r.value.clientKey == options.geminiApiKey.value
    ensures r.Success? ==>
      r.value.rotator == KeyRotator.Create(options.geminiApiKey.value, options.geminiApiKeys.GetOr([]))
    ensures r.Success? ==> KeyRotator.GetCurrentKey(r.value.rotator) == Success(r.value.clientKey)
  {
    match options.geminiApiKey
    case None => Failure(ThrownError(Some(MissingKeyMessage)))
    case Some(primary) =>
      if primary == "" then Failure(ThrownError(Some(MissingKeyMessage)))
      else
        var rotator := KeyRotator.Create(primary, options.geminiApiKeys.GetOr([]));
        KeyRotator.KeyListPrimaryFirst(primary, options.geminiApiKeys.GetOr([]));
        match KeyRotator.GetCurrentKey(rotator)
        case Success(key) => Success(Handler(options, rotator, key))
        case Failure(e) => Failure(RotatorErrorToThrown(e))
  }

  /** `updateClientWithRotatedKey`: rotate, then rebuild the client with the
      key the rotation returned. */
  function UpdateClientWithRotatedKey(h: Handler): (r: Result<Handler, ThrownError>)
    requires KeyRotator.CursorInRange(h.rotator)
    ensures r.Failure? <==> |h.rotator.keys| == 0
    ensures r.Success? ==> r.value.options == h.options
    ensures r.Success? ==> r.value.rotator == KeyRotator.RotateKey(h.rotator).value.state
    ensures r.Success? ==> KeyRotator.GetCurrentKey(r.value.rotator) == Success(r.value.clientKey)
    ensures r.Success? && KeyRotator.Valid(h.rotator) ==> Valid(r.value)
  {
    match KeyRotator.RotateKey(h.rotator)
    case Success(rotation) => Success(Handler(h.options, rotation.state, rotation.key))
    case Failure(e) => Failure(RotatorErrorToThrown(e))
  }

  // ---------------------------------------------------------------------
  // getModel
  // ---------------------------------------------------------------------

  /** `modelId && modelId in geminiModels`: a configured, non-empty id that
      the registry knows. */
  predicate UsableModelId<Info>(options: Options, registry: Registry<Info>) {
    options.apiModelId.Some? && options.apiModelId.value != "" && options.apiModelId.value in registry.models
  }

  /** `getModel`: the configured model id with its metadata when it is a
      non-empty registry id, otherwise the default id with its metadata. */
  function GetModel<Info>(options: Options, registry: Registry<Info>): (m: ModelChoice<Info>)
    requires registry.defaultId in registry.models
    ensures m.id in registry.models && m.info == registry.models[m.id]
    ensures UsableModelId(options, registry) ==> m.id == options.apiModelId.value
    ensures !UsableModelId(options, registry) ==> m.id == registry.defaultId
  {
    match options.apiModelId
    case Some(id) =>
      if id != "" && id in registry.models then ModelChoice(id, registry.models[id])
      else ModelChoice(registry.defaultId, registry.models[registry.defaultId])
    case None => ModelChoice(registry.defaultId, registry.models[registry.defaultId])
  }

  // ---------------------------------------------------------------------
  // createMessage
  // ---------------------------------------------------------------------

  /** One `text` event per chunk, in arrival order. */
  function TextEvents(chunks: seq<string>): (r: seq<Event>)
    ensures |r| == |chunks|
    ensures forall i :: 0 <= i < |r| ==> r[i] == Text(chunks[i])
  {
    seq(|chunks|, i requires 0 <= i < |chunks| => Text(chunks[i]))
  }

  /** The body of the `try` block for one scripted call: a rejected call
      yields nothing and records no usage; an opened stream records one
      request on the rotator before any chunk, yields one `text` event per
      chunk, and, if it finishes, one `usage` event with missing counts
      reported as 0. */
  function RunAttempt(rotator: KeyRotator.State, outcome: AttemptScript): (a: AttemptResult)
    requires KeyRotator.CursorInRange(rotator)
    ensures KeyRotator.CursorInRange(a.rotator) && a.rotator.keys == rotator.keys
    ensures KeyRotator.Valid(rotator) ==> KeyRotator.Valid(a.rotator)
    // a call rejected when opening the stream leaves the counters alone
    ensures outcome.RejectedAtOpen? ==>
      a.events == [] && a.rotator == rotator && a.error == Some(ThrownError(outcome.message))
    // an opened stream is counted exactly once, however it goes on
    ensures outcome.Opened? && |rotator.keys| > 0 ==>
      a.rotator == KeyRotator.IncrementRequestCount(rotator).value
    ensures outcome.Opened? && |rotator.keys| > 0 ==>
      |a.events| >= |outcome.chunks| &&
      forall i :: 0 <= i < |outcome.chunks| ==> a.events[i] == Text(outcome.chunks[i])
    ensures a.error.None? <==> (outcome.Opened? && outcome.end.Finished? && |rotator.keys| > 0)
    ensures a.error.None? ==>
      a.events == TextEvents(outcome.chunks) +
        [Usage(outcome.end.promptTokenCount.GetOr(0), outcome.end.candidatesTokenCount.GetOr(0))]
    ensures a.error.Some? ==> forall i :: 0 <= i < |a.events| ==> a.events[i].Text?
    ensures outcome.Opened? && outcome.end.Broken? && |rotator.keys| > 0 ==>
      a.events == TextEvents(outcome.chunks) && a.error == Some(ThrownError(outcome.end.message))
  {
    match outcome
    case RejectedAtOpen(message) => AttemptResult([], rotator, Some(ThrownError(message)))
    case Opened(chunks, end) =>
      match KeyRotator.IncrementRequestCount(rotator)
      case Failure(e) => AttemptResult([], rotator, Some(RotatorErrorToThrown(e)))
      case Success(counted) =>
        match end
        case Finished(prompt, candidates) =>
          AttemptResult(TextEvents(chunks) + [Usage(prompt.GetOr(0), candidates.GetOr(0))], counted, None)
        case Broken(message) =>
          AttemptResult(TextEvents(chunks), counted, Some(ThrownError(message)))
  }

  /** The request a `createMessage` call issues with the current client. */
  function RequestFor<Info>(h: Handler, registry: Registry<Info>, systemPrompt: string, messages: seq<Message>): (q: Request)
    requires registry.defaultId in registry.models
    ensures q.apiKey == h.clientKey
    ensures q.modelId in registry.models
    ensures SameRequest(q, registry, h.options, systemPrompt, messages)
  {
    Request(h.clientKey, GetModel(h.options, registry).id, systemPrompt, messages, 0)
  }

  /** The request is the same for every attempt apart from the key. */
  ghost predicate SameRequest<Info>(q: Request, registry: Registry<Info>, options: Options,
                                    systemPrompt: string, messages: seq<Message>)
    requires registry.defaultId in registry.models
  {
    && q.modelId == GetModel(options, registry).id
    && q.systemInstruction == systemPrompt
    && q.contents == messages
    && q.temperature == 0
  }

  /** `createMessage` against a scripted provider. An attempt that ends
      without error completes the run. An error whose message marks a quota
      or rate-limit failure rotates the key, rebuilds the client and reissues
      the whole request, appending the retry's events to those already
      yielded; any other error ends the run with that error unchanged. */
  function CreateMessage<Info>(h: Handler, registry: Registry<Info>, systemPrompt: string,
                               messages: seq<Message>, script: seq<AttemptScript>): (reply: Reply)
    requires registry.defaultId in registry.models
    requires KeyRotator.CursorInRange(h.rotator)
    ensures reply.handler.options == h.options
    ensures reply.handler.rotator.keys == h.rotator.keys
    ensures KeyRotator.CursorInRange(reply.handler.rotator)
    ensures Valid(h) ==> Valid(reply.handler)
    ensures |reply.requests| <= |script|
    ensures reply.status.ScriptExhausted? ==> |reply.requests| == |script|
    decreases |script|
  {
    if |script| == 0 then Reply([], ScriptExhausted, h, [])
    else
      var request := RequestFor(h, registry, systemPrompt, messages);
      var attempt := RunAttempt(h.rotator, script[0]);
      var after := h.(rotator := attempt.rotator);
      match attempt.error
      case None => Reply(attempt.events, Completed, after, [request])
      case Some(error) =>
        if !IsQuotaError(error.message) then
          Reply(attempt.events, Thrown(error), after, [request])
        else
          match UpdateClientWithRotatedKey(after)
          case Failure(rotationError) => Reply(attempt.events, Thrown(rotationError), after, [request])
          case Success(rotated) =>
            var retry := CreateMessage(rotated, registry, systemPrompt, messages, script[1..]);
            Reply(attempt.events + retry.events, retry.status, retry.handler, [request] + retry.requests)
  }
}
