/** Properties of `GeminiKeyRotator` over several calls: repeated
    increments, repeated rotations, and the two-key and one-key scenarios. */
module KeyRotatorProperties {
  import opened Results
  import opened KeyRotator

  /** `k` calls of `incrementRequestCount` on a valid rotator with keys. */
  function IncrementTimes(s: State, k: nat): (r: State)
    requires Valid(s) && |s.keys| > 0
    ensures Valid(r) && r.keys == s.keys
    decreases k
  {
    if k == 0 then s else IncrementRequestCount(IncrementTimes(s, k - 1)).value
  }

  /** One call of `rotateKey` on a valid rotator with keys: no key is at
      the cap, so the cursor moves exactly one step and no counter changes. */
  function RotateOnce(s: State): (r: State)
    requires Valid(s) && |s.keys| > 0
    ensures Valid(r) && r.keys == s.keys
    ensures r.idx == Ahead(|s.keys|, s.idx, 1) && r.counts == s.counts
  {
    RotateUnderCapStepsOnce(s);
    RotateKey(s).value.state
  }

  /** `k` calls of `rotateKey` on a valid rotator with keys. */
  function RotateTimes(s: State, k: nat): (r: State)
    requires Valid(s) && |s.keys| > 0
    ensures Valid(r) && r.keys == s.keys && r.counts == s.counts
    ensures k <= |s.keys| ==> r.idx == Ahead(|s.keys|, s.idx, k)
    decreases k
  {
    if k == 0 then s
    else
      var before := RotateTimes(s, k - 1);
      assert k <= |s.keys| ==> Ahead(|s.keys|, before.idx, 1) == Ahead(|s.keys|, s.idx, k) by {
        if k <= |s.keys| { AheadAgain(|s.keys|, s.idx, k - 1); }
      }
      RotateOnce(before)
  }

  /** While the current key stays below the cap, increments pile up on it:
      the cursor does not move and no other counter changes. */
  lemma {:induction false} IncrementsBelowCap(s: State, k: nat)
    requires Valid(s) && |s.keys| > 0
    requires CountOf(s.counts, s.keys[s.idx]) + k < MaxRequestsPerKey
    ensures IncrementTimes(s, k).idx == s.idx
    ensures CountOf(IncrementTimes(s, k).counts, s.keys[s.idx]) == CountOf(s.counts, s.keys[s.idx]) + k
    ensures forall key :: key != s.keys[s.idx] ==>
      CountOf(IncrementTimes(s, k).counts, key) == CountOf(s.counts, key)
    decreases k
  {
    if k > 0 {
      IncrementsBelowCap(s, k - 1);
      IncrementRequestCountEffect(IncrementTimes(s, k - 1));
    }
  }

  /** The increment that brings the current key to the cap rotates on its
      own: that key's counter is back at 0, the other counters are as they
      were, and the cursor is at the first key after it under the cap. */
  lemma IncrementsToCap(s: State, k: nat)
    requires Valid(s) && |s.keys| > 0 && k > 0
    requires CountOf(s.counts, s.keys[s.idx]) + k == MaxRequestsPerKey
    ensures var r := IncrementTimes(s, k);
      && FirstAvailableAfter(s.keys, r.counts, s.idx, r.idx)
      && CountOf(r.counts, s.keys[s.idx]) == 0
      && forall key :: key != s.keys[s.idx] ==> CountOf(r.counts, key) == CountOf(s.counts, key)
  {
    IncrementsBelowCap(s, k - 1);
    IncrementRequestCountEffect(IncrementTimes(s, k - 1));
  }

  /** On a valid rotator no key is at the cap, so `rotateKey` changes no
      counter and moves the cursor exactly one step forward. */
  lemma RotateUnderCapStepsOnce(s: State)
    requires Valid(s) && |s.keys| > 0
    ensures RotateKey(s).value.state.idx == Ahead(|s.keys|, s.idx, 1)
    ensures RotateKey(s).value.state.counts == s.counts
  {
    RotateKeyRoundRobin(s);
    var r := RotateKey(s).value.state;
    assert r.counts == s.counts;
    assert KeyAt(s.keys, s.idx, 1) in s.counts;
    assert Offset(|s.keys|, s.idx, r.idx) == 1;
  }

  /** Round robin: starting from cursor `i`, the first `n` rotations visit
      positions `i+1, i+2, ...` in order, wrapping round, so no rotation
      short of a full turn comes back to `i`, and no counter changes. */
  lemma RepeatedRotationVisitsInOrder(s: State, k: nat)
    requires Valid(s) && |s.keys| > 0 && k <= |s.keys|
    ensures RotateTimes(s, k).idx == Ahead(|s.keys|, s.idx, k)
    ensures RotateTimes(s, k).counts == s.counts
    ensures 0 < k < |s.keys| ==> RotateTimes(s, k).idx != s.idx
  {
    AheadMoves(|s.keys|, s.idx, k);
  }

  /** Within one turn of the ring no position comes up twice: rotations
      `j` and `k` land on different keys unless they are a full turn apart. */
  lemma RotationsDoNotRepeat(s: State, j: nat, k: nat)
    requires Valid(s) && |s.keys| > 0
    requires j < k <= |s.keys| && k - j < |s.keys|
    ensures RotateTimes(s, j).idx != RotateTimes(s, k).idx
  {
    RepeatedRotationVisitsInOrder(s, j);
    RepeatedRotationVisitsInOrder(s, k);
  }

  /** Every position comes up within one turn: after `Offset(n, i, p)`
      rotations, at most `n`, the cursor is on position `p`. */
  lemma EveryKeyComesUp(s: State, p: nat)
    requires Valid(s) && p < |s.keys|
    ensures var d := Offset(|s.keys|, s.idx, p);
      1 <= d <= |s.keys| && RotateTimes(s, d).idx == p
  {
    RepeatedRotationVisitsInOrder(s, Offset(|s.keys|, s.idx, p));
  }

  /** Fewer than `n` steps round a ring of `n` never return to the start. */
  lemma AheadMoves(n: nat, from: nat, d: nat)
    requires from < n && d <= n
    ensures 0 < d < n ==> Ahead(n, from, d) != from
  {
  }

  /** One more step after `d` steps is `d + 1` steps. */
  lemma AheadAgain(n: nat, from: nat, d: nat)
    requires from < n && d < n
    ensures Ahead(n, Ahead(n, from, d), 1) == Ahead(n, from, d + 1)
  {
  }

  /** Two keys `[A, B]`: nine requests keep `A` current, with 9 on its
      counter. */
  lemma TwoKeysNineRequests(a: string, b: string)
    requires a != "" && b != ""
    ensures var r := IncrementTimes(Create(a, [b]), 9);
      GetCurrentKey(r) == Success(a) && CountOf(r.counts, a) == 9
  {
    var s := Create(a, [b]);
    KeyListPrimaryFirst(a, [b]);
    IncrementsBelowCap(s, 9);
  }

  /** With the cursor on the first of two keys, the next key under the cap
      is the second one whenever the second one is under the cap. */
  lemma NextOfTwo(keys: seq<string>, counts: map<string, int>, to: nat)
    requires |keys| == 2 && FirstAvailableAfter(keys, counts, 0, to)
    requires CountOf(counts, keys[1]) < MaxRequestsPerKey
    ensures to == 1
  {
    assert KeyAt(keys, 0, 1) == keys[1];
  }

  /** Two keys `[A, B]`: the tenth request rotates to `B` and puts `A`'s
      counter back to 0. */
  lemma TwoKeysTenthRequest(a: string, b: string)
    requires a != "" && b != ""
    ensures var r := IncrementTimes(Create(a, [b]), 10);
      GetCurrentKey(r) == Success(b) && CountOf(r.counts, a) == 0
  {
    var s := Create(a, [b]);
    KeyListPrimaryFirst(a, [b]);
    NonEmptyKeysOfClean([b]);
    assert s.keys == [a, b];
    assert CountOf(s.counts, b) == 0;
    IncrementsToCap(s, 10);
    var r := IncrementTimes(s, 10);
    assert CountOf(r.counts, b) == 0 by {
      if b != a {
        assert CountOf(r.counts, b) == CountOf(s.counts, b);
      }
    }
    NextOfTwo(s.keys, r.counts, r.idx);
  }

  /** One key `[A]`: ten requests rotate, the only key comes back, and its
      counter is 0 again. */
  lemma OneKeyScenario(a: string)
    requires a != ""
    ensures var s := Create(a, []);
      && GetCurrentKey(IncrementTimes(s, 10)) == Success(a)
      && CountOf(IncrementTimes(s, 10).counts, a) == 0
  {
    var s := Create(a, []);
    KeyListPrimaryFirst(a, []);
    assert s.keys == [a];
    IncrementsToCap(s, 10);
  }

  /** `updateKeys("X", ["Y", "Z"])` after any history: `X` is current, the
      cursor is at 0 and every counter is 0. */
  lemma UpdateKeysScenario(s: State)
    ensures var r := UpdateKeys(s, "X", ["Y", "Z"]);
      && r.keys == ["X", "Y", "Z"]
      && GetCurrentKey(r) == Success("X")
      && r.idx == 0
      && forall k :: k in r.keys ==> CountOf(r.counts, k) == 0
  {
    KeyListPrimaryFirst("X", ["Y", "Z"]);
    NonEmptyKeysOfClean(["Y", "Z"]);
  }
}
