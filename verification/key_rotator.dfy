/** Model of `GeminiKeyRotator`: an ordered list of API keys, a cursor into
    it, and a per-key request counter capped at `MaxRequestsPerKey`.

    The mutable class is modelled as an immutable `State` and each public
    method as a pure transition returning the new state (and, for the
    methods that return a key, that key). A thrown "No API keys available"
    error is the `Failure(NoApiKeys)` result. */
module KeyRotator {
  import opened Results

  /** The fixed cap on requests per key (`MAX_REQUESTS_PER_KEY`). */
  const MaxRequestsPerKey: int := 10

  /** The text of the error raised when the key list is empty. */
  const NoKeysMessage: string := "No API keys available"

  /** The one error the rotator raises: the key list is empty. */
  datatype RotatorError = NoApiKeys

  /** The rotator's fields: `keys`, `currentKeyIndex` and `requestCounts`.
      Counters are keyed by the key string, so duplicate keys share one. */
  datatype State = State(keys: seq<string>, idx: nat, counts: map<string, int>)

  /** What `rotateKey` leaves behind and returns. */
  datatype Rotation = Rotation(state: State, key: string)

  // ---------------------------------------------------------------------
  // Building the key list: `[primaryKey, ...additionalKeys].filter(Boolean)`
  // ---------------------------------------------------------------------

  /** The keys of `s` that are not the empty string (the only falsy
      string), in their original order. */
  function NonEmptyKeys(s: seq<string>): (r: seq<string>)
    ensures |r| <= |s|
    ensures forall i :: 0 <= i < |r| ==> r[i] != ""
  {
    if |s| == 0 then []
    else if s[0] == "" then NonEmptyKeys(s[1..])
    else [s[0]] + NonEmptyKeys(s[1..])
  }

  /** The key list built from a primary key and the additional keys. */
  function KeyList(primary: string, additional: seq<string>): seq<string> {
    NonEmptyKeys([primary] + additional)
  }

  /** Filtering distributes over concatenation, so order is preserved. */
  lemma {:induction false} NonEmptyKeysConcat(a: seq<string>, b: seq<string>)
    ensures NonEmptyKeys(a + b) == NonEmptyKeys(a) + NonEmptyKeys(b)
    decreases |a|
  {
    if |a| == 0 {
      assert a + b == b;
    } else {
      assert (a + b)[1..] == a[1..] + b;
      NonEmptyKeysConcat(a[1..], b);
    }
  }

  /** A key survives filtering exactly when it was present and non-empty. */
  lemma {:induction false} NonEmptyKeysMembers(s: seq<string>)
    ensures forall k :: k in NonEmptyKeys(s) <==> k in s && k != ""
    decreases |s|
  {
    if |s| > 0 {
      NonEmptyKeysMembers(s[1..]);
      assert s == [s[0]] + s[1..];
    }
  }

  /** Filtering leaves a list without empty keys unchanged. */
  lemma {:induction false} NonEmptyKeysOfClean(s: seq<string>)
    requires forall i :: 0 <= i < |s| ==> s[i] != ""
    ensures NonEmptyKeys(s) == s
    decreases |s|
  {
    if |s| > 0 {
      NonEmptyKeysOfClean(s[1..]);
    }
  }

  /** A non-empty primary key heads the key list, followed by the
      surviving additional keys. */
  lemma KeyListPrimaryFirst(primary: string, additional: seq<string>)
    requires primary != ""
    ensures KeyList(primary, additional) == [primary] + NonEmptyKeys(additional)
    ensures |KeyList(primary, additional)| > 0
    ensures KeyList(primary, additional)[0] == primary
  {
    NonEmptyKeysConcat([primary], additional);
  }

  // ---------------------------------------------------------------------
  // Counters and the state invariant
  // ---------------------------------------------------------------------

  /** `requestCounts.get(key) || 0`: a key without an entry counts as 0. */
  function CountOf(counts: map<string, int>, key: string): (c: int)
    ensures key in counts ==> c == counts[key]
    ensures key !in counts ==> c == 0
  {
    if key in counts then counts[key] else 0
  }

  /** Setting one key's counter changes what that key counts as and nothing
      else. */
  lemma CountOfAfterSet(counts: map<string, int>, key: string, value: int, other: string)
    ensures CountOf(counts[key := value], key) == value
    ensures other != key ==> CountOf(counts[key := value], other) == CountOf(counts, other)
  {
  }

  /** `resetRequestCounts`: one zero counter per listed key, nothing else. */
  function ZeroCounts(keys: seq<string>): (r: map<string, int>)
    ensures r.Keys == KeySet(keys)
    ensures forall k :: k in r ==> r[k] == 0
    ensures forall k :: CountOf(r, k) == 0
  {
    map k | k in keys :: 0
  }

  /** The set of keys in the list. */
  function KeySet(keys: seq<string>): set<string> {
    set k | k in keys
  }

  /** The cursor points into a non-empty key list. */
  predicate CursorInRange(s: State) {
    |s.keys| > 0 ==> s.idx < |s.keys|
  }

  /** The invariant every public operation keeps: the cursor is in range,
      the counters are exactly those of the listed keys, and every counter
      lies in `[0, MaxRequestsPerKey)`. */
  ghost predicate Valid(s: State) {
    && CursorInRange(s)
    && s.counts.Keys == KeySet(s.keys)
    && forall k :: k in s.counts ==> 0 <= s.counts[k] < MaxRequestsPerKey
  }

  // ---------------------------------------------------------------------
  // Construction, getCurrentKey, updateKeys
  // ---------------------------------------------------------------------

  /** The constructor: filtered key list, cursor 0, every counter 0. */
  function Create(primary: string, additional: seq<string>): (s: State)
    ensures Valid(s)
    ensures s.keys == KeyList(primary, additional)
    ensures s.idx == 0
    ensures forall k :: k in s.keys ==> k in s.counts && s.counts[k] == 0
  {
    var keys := KeyList(primary, additional);
    State(keys, 0, ZeroCounts(keys))
  }

  /** `getCurrentKey`: the key under the cursor, or the empty-list error. */
  function GetCurrentKey(s: State): (r: Result<string, RotatorError>)
    requires CursorInRange(s)
    ensures r.Failure? <==> |s.keys| == 0
    ensures r.Failure? ==> r.error == NoApiKeys
    ensures r.Success? ==> r.value in s.keys && r.value == s.keys[s.idx]
  {
    if |s.keys| == 0 then Failure(NoApiKeys) else Success(s.keys[s.idx])
  }

  /** `updateKeys`: the same state a fresh rotator would have, whatever
      the prior state was. */
  function UpdateKeys(s: State, primary: string, additional: seq<string>): (r: State)
    ensures r == Create(primary, additional)
    ensures Valid(r) && r.idx == 0
    ensures forall k :: k in r.counts ==> r.counts[k] == 0
  {
    var keys := KeyList(primary, additional);
    State(keys, 0, ZeroCounts(keys))
  }

  // ---------------------------------------------------------------------
  // The round-robin scan of `rotateKey`
  // ---------------------------------------------------------------------

  /** The position `d` steps after `from` in a ring of `n` positions:
      `(from + d) % n`, which for at most one full turn is a single
      subtraction. */
  function Ahead(n: nat, from: nat, d: nat): (r: nat)
    requires from < n && d <= n
    ensures r < n
  {
    if from + d < n then from + d else from + d - n
  }

  /** One more step of the cursor, `(cursor + 1) % n`, is one more step ahead. */
  lemma AheadStep(n: nat, from: nat, d: nat)
    requires from < n && d < n
    ensures (Ahead(n, from, d) + 1) % n == Ahead(n, from, d + 1)
  {
    var c := Ahead(n, from, d);
    if c + 1 < n {
      assert (c + 1) % n == c + 1;
    } else {
      assert c + 1 == n;
    }
  }

  /** The key `d` steps after position `from`. */
  function KeyAt(keys: seq<string>, from: nat, d: nat): string
    requires from < |keys| && d <= |keys|
  {
    keys[Ahead(|keys|, from, d)]
  }

  /** How many steps forward, between 1 and `n`, lead from `from` to `to`;
      a full turn when they are equal. */
  function Offset(n: nat, from: nat, to: nat): (d: nat)
    requires from < n && to < n
    ensures 1 <= d <= n
    ensures Ahead(n, from, d) == to
  {
    if from < to then to - from else to + n - from
  }

  lemma OffsetOfAhead(n: nat, from: nat, d: nat)
    requires from < n && 1 <= d <= n
    ensures Offset(n, from, Ahead(n, from, d)) == d
  {
  }

  /** `to` is the first position after `from`, going round the list, whose
      key is under the cap; `from` itself is the last position looked at. */
  ghost predicate FirstAvailableAfter(keys: seq<string>, counts: map<string, int>, from: nat, to: nat) {
    && from < |keys| && to < |keys|
    && CountOf(counts, keys[to]) < MaxRequestsPerKey
    && forall e :: 1 <= e < Offset(|keys|, from, to) ==>
         CountOf(counts, KeyAt(keys, from, e)) >= MaxRequestsPerKey
  }

  /** The scan loop from its `d`-th step on: the number of steps after
      `from` at which the first key under the cap sits, if any within one
      full turn. */
  function ScanFrom(keys: seq<string>, counts: map<string, int>, from: nat, d: nat): (r: Option<nat>)
    requires from < |keys| && 1 <= d <= |keys| + 1
    ensures r.Some? ==> d <= r.value <= |keys|
    ensures r.Some? ==> CountOf(counts, KeyAt(keys, from, r.value)) < MaxRequestsPerKey
    ensures r.Some? ==> forall e :: d <= e < r.value ==>
              CountOf(counts, KeyAt(keys, from, e)) >= MaxRequestsPerKey
    ensures r.None? ==> forall e :: d <= e <= |keys| ==>
              CountOf(counts, KeyAt(keys, from, e)) >= MaxRequestsPerKey
    decreases |keys| + 1 - d
  {
    if d > |keys| then None
    else if CountOf(counts, KeyAt(keys, from, d)) < MaxRequestsPerKey then Some(d)
    else ScanFrom(keys, counts, from, d + 1)
  }

  /** The scan stops at the first step whose key is under the cap. */
  lemma {:induction false} ScanFromStopsAt(keys: seq<string>, counts: map<string, int>, from: nat, d: nat, hit: nat)
    requires from < |keys| && 1 <= d <= hit <= |keys|
    requires forall e :: d <= e < hit ==> CountOf(counts, KeyAt(keys, from, e)) >= MaxRequestsPerKey
    requires CountOf(counts, KeyAt(keys, from, hit)) < MaxRequestsPerKey
    ensures ScanFrom(keys, counts, from, d) == Some(hit)
    decreases hit - d
  {
    if d < hit {
      ScanFromStopsAt(keys, counts, from, d + 1, hit);
    }
  }

  /** The first step of `rotateKey`: a maxed-out current key is reset to 0. */
  function ClearIfMaxed(counts: map<string, int>, key: string): (r: map<string, int>)
    ensures CountOf(counts, key) >= MaxRequestsPerKey ==> key in r && r[key] == 0
    ensures CountOf(counts, key) < MaxRequestsPerKey ==> r == counts
    ensures forall k :: k != key ==> (k in r <==> k in counts) && CountOf(r, k) == CountOf(counts, k)
    ensures r.Keys <= counts.Keys + {key}
  {
    if CountOf(counts, key) >= MaxRequestsPerKey then counts[key := 0] else counts
  }

  /** `rotateKey`: reset the current key's counter if it is maxed out, then
      move the cursor to the next key under the cap, wrapping round; if the
      scan finds none, zero every counter and go back to the first key. */
  function RotateKey(s: State): (r: Result<Rotation, RotatorError>)
    requires CursorInRange(s)
    ensures r.Failure? <==> |s.keys| == 0
    ensures r.Failure? ==> r.error == NoApiKeys
    ensures r.Success? ==> r.value.state.keys == s.keys
    ensures r.Success? ==> r.value.state.idx < |s.keys|
    ensures r.Success? ==> r.value.key == s.keys[r.value.state.idx]
    ensures r.Success? ==> CountOf(r.value.state.counts, r.value.key) < MaxRequestsPerKey
    ensures r.Success? && Valid(s) ==> Valid(r.value.state)
  {
    if |s.keys| == 0 then Failure(NoApiKeys)
    else
      var counts := ClearIfMaxed(s.counts, s.keys[s.idx]);
      match ScanFrom(s.keys, counts, s.idx, 1)
      case Some(d) =>
        var i := Ahead(|s.keys|, s.idx, d);
        Success(Rotation(State(s.keys, i, counts), s.keys[i]))
      case None =>
        Success(Rotation(State(s.keys, 0, ZeroCounts(s.keys)), s.keys[0]))
  }

  /** On a non-empty list the scan always finds a key, so the full-reset
      branch of `rotateKey` is never taken: the old cursor position is the
      last one the scan checks, and its counter is below the cap once the
      reset step has run. */
  lemma FullResetUnreachable(s: State)
    requires CursorInRange(s) && |s.keys| > 0
    ensures ScanFrom(s.keys, ClearIfMaxed(s.counts, s.keys[s.idx]), s.idx, 1).Some?
  {
    var n := |s.keys|;
    assert KeyAt(s.keys, s.idx, n) == s.keys[s.idx];
    assert CountOf(ClearIfMaxed(s.counts, s.keys[s.idx]), s.keys[s.idx]) < MaxRequestsPerKey;
  }

  /** `rotateKey` on a non-empty list moves the cursor to the first position
      after the old one, wrapping, whose key is under the cap, and the only
      counter it may change is the old current key's, zeroed when it was at
      or above the cap. */
  lemma RotateKeyRoundRobin(s: State)
    requires CursorInRange(s) && |s.keys| > 0
    ensures var r := RotateKey(s).value.state;
      && FirstAvailableAfter(s.keys, r.counts, s.idx, r.idx)
      && r.counts.Keys == s.counts.Keys + (if CountOf(s.counts, s.keys[s.idx]) >= MaxRequestsPerKey then {s.keys[s.idx]} else {})
      && (forall k :: k != s.keys[s.idx] ==> CountOf(r.counts, k) == CountOf(s.counts, k))
      && CountOf(r.counts, s.keys[s.idx]) ==
           (if CountOf(s.counts, s.keys[s.idx]) >= MaxRequestsPerKey then 0 else CountOf(s.counts, s.keys[s.idx]))
  {
    var counts := ClearIfMaxed(s.counts, s.keys[s.idx]);
    FullResetUnreachable(s);
    var d := ScanFrom(s.keys, counts, s.idx, 1).value;
    OffsetOfAhead(|s.keys|, s.idx, d);
  }

  /** `rotateKey` stops at the first step `hit` whose key is under the cap. */
  lemma RotateKeyStopsAt(s: State, hit: nat)
    requires CursorInRange(s) && |s.keys| > 0 && 1 <= hit <= |s.keys|
    requires var counts := ClearIfMaxed(s.counts, s.keys[s.idx]);
      && (forall e :: 1 <= e < hit ==> CountOf(counts, KeyAt(s.keys, s.idx, e)) >= MaxRequestsPerKey)
      && CountOf(counts, KeyAt(s.keys, s.idx, hit)) < MaxRequestsPerKey
    ensures var i := Ahead(|s.keys|, s.idx, hit);
      RotateKey(s) == Success(Rotation(State(s.keys, i, ClearIfMaxed(s.counts, s.keys[s.idx])), s.keys[i]))
  {
    ScanFromStopsAt(s.keys, ClearIfMaxed(s.counts, s.keys[s.idx]), s.idx, 1, hit);
  }

  /** The `while` loop of `rotateKey` as written: the cursor steps forward
      `(cursor + 1) % length` until a key under the cap turns up. The
      statement after the loop, where the source resets every counter, is
      proved unreachable. */
  method RotateKeyLoop(s: State) returns (r: Result<Rotation, RotatorError>)
    requires CursorInRange(s)
    ensures r == RotateKey(s)
  {
    if |s.keys| == 0 {
      return Failure(NoApiKeys);
    }
    var n := |s.keys|;
    var current := s.keys[s.idx];
    var counts := ClearIfMaxed(s.counts, current);
    var cursor := s.idx;
    var checked := 0;
    while checked < n
      invariant 0 <= checked < n
      invariant cursor == Ahead(n, s.idx, checked)
      invariant forall e :: 1 <= e <= checked ==> CountOf(counts, KeyAt(s.keys, s.idx, e)) >= MaxRequestsPerKey
    {
      AheadStep(n, s.idx, checked);
      cursor := (cursor + 1) % n;
      var next := s.keys[cursor];
      if CountOf(counts, next) < MaxRequestsPerKey {
        RotateKeyStopsAt(s, checked + 1);
        return Success(Rotation(State(s.keys, cursor, counts), next));
      }
      assert checked + 1 < n by {
        assert KeyAt(s.keys, s.idx, n) == current;
      }
      checked := checked + 1;
    }
    assert false;
  }

  // ---------------------------------------------------------------------
  // incrementRequestCount
  // ---------------------------------------------------------------------

  /** `incrementRequestCount`: add one to the current key's counter and, if
      that brings it to the cap, run `rotateKey`. */
  function IncrementRequestCount(s: State): (r: Result<State, RotatorError>)
    requires CursorInRange(s)
    ensures r.Failure? <==> |s.keys| == 0
    ensures r.Failure? ==> r.error == NoApiKeys
    ensures r.Success? ==> r.value.keys == s.keys && CursorInRange(r.value)
    ensures r.Success? && Valid(s) ==> Valid(r.value)
  {
    if |s.keys| == 0 then Failure(NoApiKeys)
    else
      var current := s.keys[s.idx];
      var count := CountOf(s.counts, current);
      var bumped := State(s.keys, s.idx, s.counts[current := count + 1]);
      if count + 1 >= MaxRequestsPerKey then
        RotateKeyRoundRobin(bumped);
        Success(RotateKey(bumped).value.state)
      else
        Success(bumped)
  }

  /** What one `incrementRequestCount` does to the counters and the cursor.
      Below the cap: one more request on the current key, nothing else
      moves. Reaching the cap: that key's counter goes back to 0, the other
      counters stay, and the cursor moves on as `rotateKey` moves it. */
  lemma IncrementRequestCountEffect(s: State)
    requires CursorInRange(s) && |s.keys| > 0
    ensures var r := IncrementRequestCount(s).value;
      var current := s.keys[s.idx];
      && (forall k :: k != current ==> CountOf(r.counts, k) == CountOf(s.counts, k))
      && (CountOf(s.counts, current) + 1 < MaxRequestsPerKey ==>
            r.idx == s.idx && CountOf(r.counts, current) == CountOf(s.counts, current) + 1)
      && (CountOf(s.counts, current) + 1 >= MaxRequestsPerKey ==>
            FirstAvailableAfter(s.keys, r.counts, s.idx, r.idx) && CountOf(r.counts, current) == 0)
  {
    var current := s.keys[s.idx];
    var count := CountOf(s.counts, current);
    if count + 1 >= MaxRequestsPerKey {
      RotateKeyRoundRobin(State(s.keys, s.idx, s.counts[current := count + 1]));
    }
  }
}
