/** Properties of `GeminiHandler.createMessage` over whole scripted runs:
    the order of events, the reissued requests, the retry on quota errors,
    the pass-through of every other error, and concrete scenarios. */
module GeminiHandlerProperties {
  import opened Results
  import KeyRotator
  import opened ErrorClassification
  import opened GeminiHandler

  /** Only `text` events. */
  ghost predicate AllText(events: seq<Event>) {
    forall i :: 0 <= i < |events| ==> events[i].Text?
  }

  /** `text` events followed by exactly one `usage` event. */
  ghost predicate TextsThenUsage(events: seq<Event>) {
    && |events| > 0
    && events[|events| - 1].Usage?
    && AllText(events[..|events| - 1])
  }

  /** Putting `text` events in front keeps either shape. */
  lemma PrependTexts(texts: seq<Event>, events: seq<Event>)
    requires AllText(texts)
    ensures AllText(events) ==> AllText(texts + events)
    ensures TextsThenUsage(events) ==> TextsThenUsage(texts + events)
  {
    if |events| > 0 {
      assert (texts + events)[..|texts + events| - 1] == texts + events[..|events| - 1];
    }
  }

  /** A run yields only `text` events, followed, when it completes, by
      exactly one `usage` event, which is the last event. */
  lemma {:induction false} EventOrder<Info>(h: Handler, registry: Registry<Info>, systemPrompt: string,
                                            messages: seq<Message>, script: seq<AttemptScript>)
    requires registry.defaultId in registry.models
    requires KeyRotator.CursorInRange(h.rotator)
    ensures var reply := CreateMessage(h, registry, systemPrompt, messages, script);
      && (reply.status.Completed? ==> TextsThenUsage(reply.events))
      && (!reply.status.Completed? ==> AllText(reply.events))
    decreases |script|
  {
    if |script| > 0 {
      var attempt := RunAttempt(h.rotator, script[0]);
      if attempt.error.None? {
        assert attempt.events[..|attempt.events| - 1] == TextEvents(script[0].chunks);
      } else if IsQuotaError(attempt.error.value.message) && |h.rotator.keys| > 0 {
        var rotated := UpdateClientWithRotatedKey(h.(rotator := attempt.rotator)).value;
        EventOrder(rotated, registry, systemPrompt, messages, script[1..]);
        var retry := CreateMessage(rotated, registry, systemPrompt, messages, script[1..]);
        PrependTexts(attempt.events, retry.events);
      }
    }
  }

  /** Every attempt reissues the same request (model id, system prompt,
      messages, temperature 0); the first one goes out with the client the
      handler had. */
  lemma {:induction false} RequestsReissued<Info>(h: Handler, registry: Registry<Info>, systemPrompt: string,
                                                  messages: seq<Message>, script: seq<AttemptScript>)
    requires registry.defaultId in registry.models
    requires KeyRotator.CursorInRange(h.rotator)
    ensures var reply := CreateMessage(h, registry, systemPrompt, messages, script);
      && (|script| > 0 ==> |reply.requests| > 0 && reply.requests[0].apiKey == h.clientKey)
      && forall i :: 0 <= i < |reply.requests| ==>
           SameRequest(reply.requests[i], registry, h.options, systemPrompt, messages)
    decreases |script|
  {
    if |script| > 0 {
      var attempt := RunAttempt(h.rotator, script[0]);
      var after := h.(rotator := attempt.rotator);
      if attempt.error.Some? && IsQuotaError(attempt.error.value.message) && |h.rotator.keys| > 0 {
        var rotated := UpdateClientWithRotatedKey(after).value;
        RequestsReissued(rotated, registry, systemPrompt, messages, script[1..]);
      }
    }
  }

  /** A quota or rate-limit error rotates the key once, rebuilds the client
      with the key the rotation returned, and reissues the request; the
      retry's events come after the events the failed attempt had already
      yielded, and the retry decides how the run ends. */
  lemma QuotaErrorRetries<Info>(h: Handler, registry: Registry<Info>, systemPrompt: string,
                                messages: seq<Message>, script: seq<AttemptScript>)
    requires registry.defaultId in registry.models
    requires Valid(h) && |script| > 0
    requires var a := RunAttempt(h.rotator, script[0]);
      a.error.Some? && IsQuotaError(a.error.value.message)
    ensures var a := RunAttempt(h.rotator, script[0]);
      var rotation := KeyRotator.RotateKey(a.rotator).value;
      var rotated := Handler(h.options, rotation.state, rotation.key);
      var retry := CreateMessage(rotated, registry, systemPrompt, messages, script[1..]);
      var reply := CreateMessage(h, registry, systemPrompt, messages, script);
      && reply.events == a.events + retry.events
      && reply.status == retry.status
      && reply.handler == retry.handler
      && reply.requests == [RequestFor(h, registry, systemPrompt, messages)] + retry.requests
  {
  }

  /** A call rejected with a quota error before the stream opened leaves no
      trace in the output: the run yields exactly what the reissued request
      alone would have yielded after the rotation. */
  lemma QuotaAtOpenIsInvisible<Info>(h: Handler, registry: Registry<Info>, systemPrompt: string,
                                     messages: seq<Message>, script: seq<AttemptScript>)
    requires registry.defaultId in registry.models
    requires Valid(h) && |script| > 0
    requires script[0].RejectedAtOpen? && IsQuotaError(script[0].message)
    ensures var rotated := UpdateClientWithRotatedKey(h).value;
      var retry := CreateMessage(rotated, registry, systemPrompt, messages, script[1..]);
      var reply := CreateMessage(h, registry, systemPrompt, messages, script);
      reply.events == retry.events && reply.status == retry.status && reply.handler == retry.handler
  {
    QuotaErrorRetries(h, registry, systemPrompt, messages, script);
  }

  /** Any other error, whether the request is rejected at open or the
      stream breaks, ends the run with that same error: no rotation, no new
      client, no retry. */
  lemma OtherErrorPropagates<Info>(h: Handler, registry: Registry<Info>, systemPrompt: string,
                                   messages: seq<Message>, script: seq<AttemptScript>)
    requires registry.defaultId in registry.models
    requires KeyRotator.CursorInRange(h.rotator) && |script| > 0
    requires match script[0]
      case RejectedAtOpen(message) => !IsQuotaError(message)
      case Opened(_, end) => |h.rotator.keys| > 0 && end.Broken? && !IsQuotaError(end.message)
    ensures var a := RunAttempt(h.rotator, script[0]);
      var reply := CreateMessage(h, registry, systemPrompt, messages, script);
      && reply.status == Thrown(a.error.value)
      && reply.events == a.events
      && reply.handler == h.(rotator := a.rotator)
      && |reply.requests| == 1
  {
  }

  /** A stream that opens and finishes completes the run: one `text` event
      per chunk, then the usage event with missing counts as 0; the request
      is counted once and the client is kept. */
  lemma FinishedStreamCompletes<Info>(h: Handler, registry: Registry<Info>, systemPrompt: string,
                                      messages: seq<Message>, script: seq<AttemptScript>)
    requires registry.defaultId in registry.models
    requires Valid(h) && |script| > 0
    requires script[0].Opened? && script[0].end.Finished?
    ensures var out := script[0];
      var reply := CreateMessage(h, registry, systemPrompt, messages, script);
      && reply.status == Completed
      && reply.events == TextEvents(out.chunks) +
           [Usage(out.end.promptTokenCount.GetOr(0), out.end.candidatesTokenCount.GetOr(0))]
      && reply.handler.rotator == KeyRotator.IncrementRequestCount(h.rotator).value
      && reply.handler.clientKey == h.clientKey
  {
  }

  /** There is no retry cap: while every call fails with a quota error the
      handler keeps rotating and reissuing, one request per scripted call,
      until the script runs out. */
  lemma {:induction false} QuotaFailuresRetryWithoutCap<Info>(h: Handler, registry: Registry<Info>, systemPrompt: string,
                                                              messages: seq<Message>, script: seq<AttemptScript>)
    requires registry.defaultId in registry.models
    requires Valid(h)
    requires forall i :: 0 <= i < |script| ==> script[i].RejectedAtOpen? && IsQuotaError(script[i].message)
    ensures var reply := CreateMessage(h, registry, systemPrompt, messages, script);
      && reply.status == ScriptExhausted
      && reply.events == []
      && |reply.requests| == |script|
    decreases |script|
  {
    if |script| > 0 {
      var rotated := UpdateClientWithRotatedKey(h).value;
      assert forall i :: 0 <= i < |script[1..]| ==> script[1..][i] == script[i + 1];
      QuotaFailuresRetryWithoutCap(rotated, registry, systemPrompt, messages, script[1..]);
    }
  }

  // ---------------------------------------------------------------------
  // Scenarios
  // ---------------------------------------------------------------------

  /** Construction fails without a primary key, and with an empty one. */
  lemma MissingPrimaryKeyScenario(additional: Option<seq<string>>, model: Option<string>)
    ensures New(Options(None, additional, model)) == Failure(ThrownError(Some(MissingKeyMessage)))
    ensures New(Options(Some(""), additional, model)) == Failure(ThrownError(Some(MissingKeyMessage)))
  {
  }

  /** Keys `[A, B]`: the first call is rejected with "quota exceeded", the
      reissued one streams "Hello" and finishes with 12 prompt tokens and no
      candidate count. The caller sees only the second call's events, the
      second request goes out with `B`, and the request is counted on `B`. */
  lemma QuotaExceededScenario<Info>(registry: Registry<Info>, systemPrompt: string, messages: seq<Message>)
    requires registry.defaultId in registry.models
    ensures var h := New(Options(Some("A"), Some(["B"]), None)).value;
      var script := [RejectedAtOpen(Some("quota exceeded")), Opened(["Hello"], Finished(Some(12), None))];
      var reply := CreateMessage(h, registry, systemPrompt, messages, script);
      && reply.status == Completed
      && reply.events == [Text("Hello"), Usage(12, 0)]
      && |reply.requests| == 2
      && reply.requests[0].apiKey == "A" && reply.requests[1].apiKey == "B"
      && reply.handler.clientKey == "B"
      && KeyRotator.CountOf(reply.handler.rotator.counts, "B") == 1
      && KeyRotator.CountOf(reply.handler.rotator.counts, "A") == 0
  {
    var options := Options(Some("A"), Some(["B"]), None);
    KeyRotator.KeyListPrimaryFirst("A", ["B"]);
    var h := New(options).value;
    assert h.rotator.keys == ["A", "B"];
    QuotaExceededIsQuota();
    var script := [RejectedAtOpen(Some("quota exceeded")), Opened(["Hello"], Finished(Some(12), None))];
    QuotaErrorRetries(h, registry, systemPrompt, messages, script);
    KeyRotator.RotateKeyRoundRobin(h.rotator);
    var rotated := KeyRotator.RotateKey(h.rotator).value;
    assert KeyRotator.KeyAt(h.rotator.keys, 0, 1) == "B";
    assert KeyRotator.Offset(2, 0, rotated.state.idx) == 1;
    assert rotated.key == "B";
    assert script[1..] == [Opened(["Hello"], Finished(Some(12), None))];
    assert TextEvents(["Hello"]) == [Text("Hello")];
  }

  /** An "invalid argument" rejection is rethrown as it is: nothing is
      yielded, and the handler, its rotator and its client are unchanged. */
  lemma InvalidArgumentScenario<Info>(h: Handler, registry: Registry<Info>, systemPrompt: string,
                                      messages: seq<Message>, rest: seq<AttemptScript>)
    requires registry.defaultId in registry.models
    requires KeyRotator.CursorInRange(h.rotator)
    ensures var reply := CreateMessage(h, registry, systemPrompt, messages, [RejectedAtOpen(Some("invalid argument"))] + rest);
      && reply.status == Thrown(ThrownError(Some("invalid argument")))
      && reply.events == []
      && reply.handler == h
      && |reply.requests| == 1
  {
    InvalidArgumentIsNotQuota();
  }

  /** The rotation that `incrementRequestCount` performs by itself when a
      key reaches the cap does not rebuild the client: after the tenth
      counted request on `A`, the rotator's current key is `B` but the next
      request still goes out with `A`. */
  lemma AutoRotationKeepsClient<Info>(a: string, b: string, registry: Registry<Info>, systemPrompt: string,
                                      messages: seq<Message>, next: seq<AttemptScript>)
    requires a != "" && b != "" && a != b
    requires registry.defaultId in registry.models
    requires |next| > 0
    ensures var h := Handler(Options(Some(a), Some([b]), None),
                             KeyRotator.State([a, b], 0, map[a := 9, b := 0]), a);
      var first := CreateMessage(h, registry, systemPrompt, messages, [Opened([], Finished(None, None))]);
      var second := CreateMessage(first.handler, registry, systemPrompt, messages, next);
      && Valid(h)
      && first.status == Completed
      && KeyRotator.GetCurrentKey(first.handler.rotator) == Success(b)
      && first.handler.clientKey == a
      && second.requests[0].apiKey == a
  {
    var h := Handler(Options(Some(a), Some([b]), None),
                     KeyRotator.State([a, b], 0, map[a := 9, b := 0]), a);
    assert KeyRotator.KeySet(h.rotator.keys) == {a, b};
    assert Valid(h);
    var script := [Opened([], Finished(None, None))];
    FinishedStreamCompletes(h, registry, systemPrompt, messages, script);
    KeyRotator.IncrementRequestCountEffect(h.rotator);
    var first := CreateMessage(h, registry, systemPrompt, messages, script);
    var r := first.handler.rotator;
    assert KeyRotator.KeyAt(h.rotator.keys, 0, 1) == b;
    assert KeyRotator.CountOf(r.counts, b) == 0;
    assert KeyRotator.Offset(2, 0, r.idx) == 1;
    RequestsReissued(first.handler, registry, systemPrompt, messages, next);
  }
}
