/** The quota / rate-limit test the handler applies to an error's message:
    a case-sensitive substring search, as `String.prototype.includes` does. */
module ErrorClassification {
  import opened Results

  /** `sub` occurs in `s` starting at position `i`. */
  ghost predicate OccursAt(s: string, sub: string, i: int) {
    0 <= i && i + |sub| <= |s| && s[i..i + |sub|] == sub
  }

  /** `sub` occurs somewhere in `s`. */
  ghost predicate HasSubstring(s: string, sub: string) {
    exists i :: OccursAt(s, sub, i)
  }

  /** `s.includes(sub)`: tries each start position from the left. */
  function Includes(s: string, sub: string): (b: bool)
    ensures b <==> HasSubstring(s, sub)
    decreases |s|
  {
    if |sub| <= |s| && s[..|sub|] == sub then
      assert OccursAt(s, sub, 0);
      true
    else if |s| == 0 then
      false
    else
      var rest := Includes(s[1..], sub);
      assert rest ==> OccursAt(s, sub, 1 + (var i :| OccursAt(s[1..], sub, i); i));
      assert forall i :: OccursAt(s, sub, i) && i > 0 ==> OccursAt(s[1..], sub, i - 1);
      rest
  }

  /** The substrings that mark a quota or rate-limit error. */
  const QuotaMarker: string := "quota"
  const RateLimitMarker: string := "rate limit"

  /** `error.message?.includes('quota') || error.message?.includes('rate limit')`:
      an error without a message is never a quota error. */
  function IsQuotaError(message: Option<string>): (b: bool)
    ensures b <==> (message.Some? &&
      (HasSubstring(message.value, QuotaMarker) || HasSubstring(message.value, RateLimitMarker)))
  {
    match message
    case None => false
    case Some(m) => Includes(m, QuotaMarker) || Includes(m, RateLimitMarker)
  }

  /** `sub` cannot occur in `s` when no position where it could start
      holds its first character. */
  lemma NoOccurrenceWithoutFirstChar(s: string, sub: string)
    requires 0 < |sub|
    requires |sub| <= |s| ==> sub[0] !in s[..|s| - |sub| + 1]
    ensures !HasSubstring(s, sub)
  {
    forall i | 0 <= i && i + |sub| <= |s|
      ensures !OccursAt(s, sub, i)
    {
      assert s[..|s| - |sub| + 1][i] == s[i] == s[i..i + |sub|][0];
    }
  }

  /** A message containing "quota" is a quota error. */
  lemma QuotaExceededIsQuota()
    ensures IsQuotaError(Some("quota exceeded"))
  {
    assert OccursAt("quota exceeded", QuotaMarker, 0);
  }

  /** A message containing "rate limit" anywhere is a quota error. */
  lemma RateLimitIsQuota()
    ensures IsQuotaError(Some("429: rate limit reached"))
  {
    assert "429: rate limit reached"[5..15] == RateLimitMarker;
    assert OccursAt("429: rate limit reached", RateLimitMarker, 5);
  }

  /** "invalid argument" is not a quota error. */
  lemma InvalidArgumentIsNotQuota()
    ensures !IsQuotaError(Some("invalid argument"))
  {
    var m := "invalid argument";
    assert m[..12] == "invalid argu";
    NoOccurrenceWithoutFirstChar(m, QuotaMarker);
    assert m[..7] == "invalid";
    NoOccurrenceWithoutFirstChar(m, RateLimitMarker);
  }

  /** The match is case-sensitive: "Rate Limit" is not a quota error. */
  lemma CapitalisedRateLimitIsNotQuota()
    ensures !IsQuotaError(Some("Rate Limit"))
  {
    var m := "Rate Limit";
    assert m[..6] == "Rate L";
    NoOccurrenceWithoutFirstChar(m, QuotaMarker);
    assert m[..1] == "R";
    NoOccurrenceWithoutFirstChar(m, RateLimitMarker);
  }
}
