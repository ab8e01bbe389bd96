# Gemini key rotation and the Gemini handler, in Dafny

This project models how the Roo-Cline extension spreads Google Gemini
requests over several API keys:

- `GeminiKeyRotator` holds an ordered list of keys, a cursor, and a per-key
  request counter capped at 10 (`MAX_REQUESTS_PER_KEY`). Empty keys are
  dropped when the list is built. The primary key comes first.
- `getCurrentKey` returns the key under the cursor.
- `rotateKey` puts a maxed-out current key's counter back to 0, then moves
  the cursor round the ring to the next key that is under the cap.
- `incrementRequestCount` counts one request against the current key and
  rotates on its own when that key reaches the cap.
- `updateKeys` rebuilds the list and starts again from a clean state.
- `GeminiHandler` refuses to start without a primary key. It builds its
  client from the rotator's current key. `createMessage` opens a stream,
  counts the request, and emits one text event per chunk and then a usage
  event. It catches errors whose message contains `quota` or `rate limit`,
  rotates the key, rebuilds the client and sends the same request again.
  Any other error is rethrown. `getModel` picks the configured model when the
  registry knows it and the default model otherwise.

Each operation is modelled as a pure function on an immutable state. A
thrown error becomes a `Failure`. The Gemini SDK is replaced by a script: a
list with one outcome per request the handler sends, written in the order the
requests are sent. An outcome is one of these:

- the request is rejected when it opens;
- the stream delivers some chunks and then finishes, with optional token
  counts;
- the stream delivers some chunks and then breaks.

Modules:

| file | module | contents |
|---|---|---|
| `results.dfy` | `Results` | `Option` and `Result` |
| `key_rotator.dfy` | `KeyRotator` | the rotator's state, operations and one-call properties, and a loop version of `rotateKey` |
| `key_rotator_properties.dfy` | `KeyRotatorProperties` | properties over many calls: repeated increments, round-robin order, the two-key and one-key scenarios |
| `error_classification.dfy` | `ErrorClassification` | the case-sensitive substring test behind the quota check |
| `gemini_handler.dfy` | `GeminiHandler` | construction, the client refresh, `getModel`, a single stream attempt, and `createMessage` with its retries |
| `gemini_handler_properties.dfy` | `GeminiHandlerProperties` | event order, what the retries send, how errors propagate, and scenarios |

Some behaviours that the properties make explicit:

- **The full-reset branch of `rotateKey` cannot run.** The key under the
  cursor is looked at last, on the ring's final step, and its counter has
  just been cleared if it was maxed. So the scan always finds a key under the
  cap (`KeyRotator.FullResetUnreachable`). The statements after the loop are
  unreachable in the loop model too (`KeyRotator.RotateKeyLoop`).
- **Duplicate keys share a counter.** The counters are keyed by key text,
  and the list is not de-duplicated: `filter(Boolean)` only drops empty
  strings. A key listed twice therefore has requests from both positions
  counted together.
- **The automatic rotation in `incrementRequestCount` does not rebuild the
  client.** Only the quota path calls `updateClientWithRotatedKey`. After a
  key reaches its cap, the rotator's current key moves on, but the next
  request still goes out with the old client's key
  (`GeminiHandlerProperties.AutoRotationKeepsClient`).
- **Quota errors are retried with no limit.** `retryCount` and `maxRetries`
  are computed but never read. With only quota errors, the handler keeps
  sending the request until the outcomes run out
  (`GeminiHandlerProperties.QuotaFailuresRetryWithoutCap`).

## Model

Rotator rows cite `src/api/providers/key-rotation/gemini-key-rotator.ts`; handler rows cite `src/api/providers/gemini.ts`.

| member | source | states |
|---|---|---|
| KeyRotator.NonEmptyKeys | src/api/providers/key-rotation/gemini-key-rotator.ts:9 | the filtered list is no longer than its input and contains no empty key |
| KeyRotator.NonEmptyKeysConcat | src/api/providers/key-rotation/gemini-key-rotator.ts:9 | filtering a concatenation filters each part and keeps the parts in order |
| KeyRotator.NonEmptyKeysMembers | src/api/providers/key-rotation/gemini-key-rotator.ts:9 | a key is in the filtered list exactly when it is non-empty and in the input |
| KeyRotator.NonEmptyKeysOfClean | src/api/providers/key-rotation/gemini-key-rotator.ts:9 | a list with no empty key is unchanged by filtering |
| KeyRotator.KeyListPrimaryFirst | src/api/providers/key-rotation/gemini-key-rotator.ts:8-9 | a non-empty primary key comes first in the list, followed by the filtered additional keys |
| KeyRotator.CountOf | src/api/providers/key-rotation/gemini-key-rotator.ts:32 | the `get(key) \|\| 0` fallback used at lines 32, 42 and 59: a key with an entry counts as its stored value, a key without one counts as 0 |
| KeyRotator.CountOfAfterSet | src/api/providers/key-rotation/gemini-key-rotator.ts:59-60 | setting one key's counter changes what that key counts as, and leaves every other key's count as it was |
| KeyRotator.ZeroCounts | src/api/providers/key-rotation/gemini-key-rotator.ts:13-16 | `resetRequestCounts` leaves exactly one counter per listed key, and every one of them is 0 |
| KeyRotator.Create | src/api/providers/key-rotation/gemini-key-rotator.ts:2-16 | a new rotator satisfies the invariant, holds the filtered list, has its cursor at 0 and a 0 counter for every key |
| KeyRotator.GetCurrentKey | src/api/providers/key-rotation/gemini-key-rotator.ts:18-23 | fails with "No API keys available" exactly when the list is empty; otherwise returns the key under the cursor, which is in the list |
| KeyRotator.UpdateKeys | src/api/providers/key-rotation/gemini-key-rotator.ts:68-72 | whatever the earlier state, the result is that of constructing afresh from the new keys: cursor 0, every counter 0, invariant holds |
| KeyRotator.ScanFrom | src/api/providers/key-rotation/gemini-key-rotator.ts:37-49 | the scan returns the first ring step at or after the starting step whose key is under the cap; it finds nothing only when every remaining step's key is at or over the cap |
| KeyRotator.ScanFromStopsAt | src/api/providers/key-rotation/gemini-key-rotator.ts:39-46 | if a step's key is under the cap and every step before it is maxed, the scan stops at that step |
| KeyRotator.ClearIfMaxed | src/api/providers/key-rotation/gemini-key-rotator.ts:30-35 | a current key at or over the cap has its counter set to 0; a key under the cap leaves the counters untouched; no other key's entry or count changes |
| KeyRotator.RotateKey | src/api/providers/key-rotation/gemini-key-rotator.ts:25-55 | fails exactly when the list is empty; otherwise keeps the list, leaves the cursor in range, returns the key under the new cursor, whose counter is under the cap, and preserves the invariant |
| KeyRotator.FullResetUnreachable | src/api/providers/key-rotation/gemini-key-rotator.ts:30-54 | after the current key is cleared, the scan always finds a key under the cap, so the reset at lines 51-54 never runs |
| KeyRotator.RotateKeyRoundRobin | src/api/providers/key-rotation/gemini-key-rotator.ts:30-49 | the new cursor is the first key after the old one, going round the ring, that is under the cap; only the old current key's counter may change, and it drops to 0 exactly when it was maxed |
| KeyRotator.RotateKeyStopsAt | src/api/providers/key-rotation/gemini-key-rotator.ts:37-46 | when every key between the cursor and a given step is maxed and that step's key is not, rotation lands on that step |
| KeyRotator.RotateKeyLoop | src/api/providers/key-rotation/gemini-key-rotator.ts:25-55 | the loop with the modulo step computes the same state and key as the functional scan |
| KeyRotator.IncrementRequestCount | src/api/providers/key-rotation/gemini-key-rotator.ts:57-66 | fails exactly when the list is empty; otherwise keeps the list and the cursor range, and preserves the invariant that every counter is in [0, 10) |
| KeyRotator.IncrementRequestCountEffect | src/api/providers/key-rotation/gemini-key-rotator.ts:57-66 | below the cap the cursor stays and the current counter goes up by one; at the cap that counter is 0 and the cursor moves to the next key under the cap; other counters never change |
| KeyRotatorProperties.IncrementTimes | src/api/providers/key-rotation/gemini-key-rotator.ts:57-66 | any number of increments keeps the invariant and the list |
| KeyRotatorProperties.RotateOnce | src/api/providers/key-rotation/gemini-key-rotator.ts:25-55 | on a valid rotator one rotation keeps the invariant and the list, changes no counter, and moves the cursor exactly one step round the ring |
| KeyRotatorProperties.RotateTimes | src/api/providers/key-rotation/gemini-key-rotator.ts:25-55 | any number of rotations keeps the invariant, the list and every counter; k rotations, for k up to the number of keys, put the cursor k steps round the ring |
| KeyRotatorProperties.IncrementsBelowCap | src/api/providers/key-rotation/gemini-key-rotator.ts:57-66 | k increments that stay below the cap add k to the current counter, keep the cursor, and leave every other counter alone |
| KeyRotatorProperties.IncrementsToCap | src/api/providers/key-rotation/gemini-key-rotator.ts:57-66 | the increment that reaches the cap resets the current counter to 0 and moves to the next key under the cap; other counters are unchanged |
| KeyRotatorProperties.RotateUnderCapStepsOnce | src/api/providers/key-rotation/gemini-key-rotator.ts:37-46 | on a valid rotator, rotating moves the cursor exactly one step round the ring and changes no counter |
| KeyRotatorProperties.RepeatedRotationVisitsInOrder | src/api/providers/key-rotation/gemini-key-rotator.ts:37-49 | k rotations, for k up to the number of keys, put the cursor k steps round the ring from where it started, change no counter, and never come back to the starting key short of a full turn |
| KeyRotatorProperties.RotationsDoNotRepeat | src/api/providers/key-rotation/gemini-key-rotator.ts:37-49 | two rotation counts less than a full turn apart land on different keys, so no key comes up twice before every other key has had its turn |
| KeyRotatorProperties.EveryKeyComesUp | src/api/providers/key-rotation/gemini-key-rotator.ts:37-49 | every position of the list becomes current after between 1 and n rotations |
| KeyRotatorProperties.TwoKeysNineRequests | src/api/providers/key-rotation/gemini-key-rotator.ts:57-66 | with keys [A, B], after nine requests A is still current with 9 on its counter |
| KeyRotatorProperties.TwoKeysTenthRequest | src/api/providers/key-rotation/gemini-key-rotator.ts:57-66 | with keys [A, B], the tenth request makes B current and puts A's counter back to 0 |
| KeyRotatorProperties.OneKeyScenario | src/api/providers/key-rotation/gemini-key-rotator.ts:30-49 | with a single key, the tenth request rotates back to the same key, with its counter at 0 |
| KeyRotatorProperties.UpdateKeysScenario | src/api/providers/key-rotation/gemini-key-rotator.ts:68-72 | after any history, `updateKeys("X", ["Y","Z"])` makes X current, with the cursor at 0 and every counter at 0 |
| ErrorClassification.Includes | src/api/providers/gemini.ts:68 | true exactly when the pattern occurs at some position of the text |
| ErrorClassification.IsQuotaError | src/api/providers/gemini.ts:68 | an error counts as a quota error exactly when it has a message and that message contains "quota" or "rate limit" |
| ErrorClassification.QuotaExceededIsQuota | src/api/providers/gemini.ts:68 | "quota exceeded" is a quota error |
| ErrorClassification.RateLimitIsQuota | src/api/providers/gemini.ts:68 | "429: rate limit reached" is a quota error |
| ErrorClassification.InvalidArgumentIsNotQuota | src/api/providers/gemini.ts:68 | "invalid argument" is not a quota error |
| ErrorClassification.CapitalisedRateLimitIsNotQuota | src/api/providers/gemini.ts:68 | matching is case-sensitive: "Rate Limit" is not a quota error |
| GeminiHandler.New | src/api/providers/gemini.ts:15-27 | fails with "Primary API key is required for Google Gemini" exactly when the primary key is absent or empty; otherwise the rotator is built from the primary and additional keys, the handler invariant holds, and the client key is the rotator's current key, which is the primary key |
| GeminiHandler.UpdateClientWithRotatedKey | src/api/providers/gemini.ts:29-32 | fails exactly when the rotator has no keys; otherwise the rotator has rotated once and the client key is the rotator's new current key |
| GeminiHandler.GetModel | src/api/providers/gemini.ts:79-86 | the chosen id is always in the registry and its info is the registry's entry; a non-empty configured id known to the registry is chosen, and anything else falls back to the default |
| GeminiHandler.TextEvents | src/api/providers/gemini.ts:54-59 | one text event per chunk, in chunk order, carrying that chunk's text |
| GeminiHandler.RunAttempt | src/api/providers/gemini.ts:38-66 | a rejection at open emits nothing and counts nothing; an opened stream counts one request, emits the chunks' texts, and either emits a usage event (0 for a missing count) and succeeds, or stops with the stream's error and no usage event |
| GeminiHandler.RequestFor | src/api/providers/gemini.ts:39-49 | the request goes out with the current client's key and the model that `getModel` picks, which is in the registry; it carries the system prompt, the messages and temperature 0 |
| GeminiHandler.CreateMessage | src/api/providers/gemini.ts:34-77 | keeps the options and the key list, preserves the handler invariant, and sends at most one request per scripted outcome |
| GeminiHandlerProperties.EventOrder | src/api/providers/gemini.ts:54-66 | a completed call emits only text events followed by exactly one usage event; a failed call emits only text events |
| GeminiHandlerProperties.RequestsReissued | src/api/providers/gemini.ts:39-49 | the first request uses the handler's client key, and every retry sends the same model, system prompt, messages and temperature 0 |
| GeminiHandlerProperties.QuotaErrorRetries | src/api/providers/gemini.ts:67-74 | after a quota error the call's output is the events already emitted followed by everything the retry, on the rotated client, emits; the final status and handler are the retry's |
| GeminiHandlerProperties.QuotaAtOpenIsInvisible | src/api/providers/gemini.ts:67-74 | a quota rejection when the stream opens emits nothing; the caller sees only the retry's events |
| GeminiHandlerProperties.OtherErrorPropagates | src/api/providers/gemini.ts:67-76 | any other error, whether a rejection at open or a stream that breaks, is rethrown unchanged after the events already emitted, with no retry and no key change beyond the counted request |
| GeminiHandlerProperties.FinishedStreamCompletes | src/api/providers/gemini.ts:51-66 | a stream that finishes on the first request completes with its texts and usage, and counts exactly one request |
| GeminiHandlerProperties.QuotaFailuresRetryWithoutCap | src/api/providers/gemini.ts:67-74 | when every outcome is a quota rejection, the handler sends one request per outcome, emits nothing and never gives up by itself |
| GeminiHandlerProperties.MissingPrimaryKeyScenario | src/api/providers/gemini.ts:18-20 | a handler without a primary key, or with an empty one, is refused with the required-key message, even when additional keys are given |
| GeminiHandlerProperties.QuotaExceededScenario | src/api/providers/gemini.ts:44-74 | keys [A, B], first a "quota exceeded" rejection and then a finished stream: the events are "Hello" and usage (12, 0), the requests go out with A then B, the client ends on B, and B has counted one request |
| GeminiHandlerProperties.InvalidArgumentScenario | src/api/providers/gemini.ts:67-76 | an "invalid argument" rejection at open is thrown to the caller unchanged after a single request, with nothing emitted and the handler, its rotator and its client left as they were |
| GeminiHandlerProperties.AutoRotationKeepsClient | src/api/providers/gemini.ts:44-52 | the request that brings the current key to its cap moves the rotator to the next key, but the client, and so the next request, keeps the old key |

## Left out

- The Google SDK (`GoogleGenerativeAI`, `getGenerativeModel`, `generateContentStream`) is not modelled. Its behaviour is the scripted outcome list. A request is a value holding the key, model id, system prompt, messages and temperature.
- `convertAnthropicMessageToGemini` is not part of this model. Messages go into the request unconverted. The conversion is a fixed per-message map, so equal inputs give equal converted requests.
- The contents of `geminiModels` and `geminiDefaultModelId` are not part of this model. The registry is a parameter with the one requirement that the default id is in it. JavaScript's `in` also accepts inherited property names such as `toString`; the model treats the registry as a plain map.
- A `chunk.text()` call that throws, or a `result.response` that rejects, is modelled as a stream that breaks with that error's message.
- An error's message is either absent or a string. Non-`Error` throwables and non-string messages are not modelled.
- A `null` list of additional keys makes the spread at line 9 throw. It is not modelled: the list is either absent or a list of strings.
- `retryCount` and `maxRetries` are not modelled because they are never read.
- The vscode import, the async-generator mechanics (await, a consumer that stops early), cancellation, timeouts and concurrent calls on one handler are left out. Each call runs to its end before the next one starts.
- GeminiHandler.CreateMessage: the `ScriptExhausted` status has no counterpart in the source. It marks a call whose outcomes ran out before the call ended, which is the only way the model bounds the source's unbounded retries.
- KeyRotator.GetCurrentKey, KeyRotator.RotateKey, KeyRotator.IncrementRequestCount, GeminiHandler.UpdateClientWithRotatedKey, GeminiHandler.CreateMessage: each requires the cursor to be within the key list whenever the list is non-empty. Every reachable state meets this: construction and `updateKeys` set the cursor to 0, and every operation keeps it in range. The `undefined` that an out-of-range read would give is not modelled.
- Counters are unbounded integers. JavaScript numbers are doubles, but a counter never goes above 10, so the difference cannot show.
- The handler's invariant that the client key is one of the rotator's keys is stated for the model. The source keeps only the `GoogleGenerativeAI` object built from that key.
