/** The retry loop around every provider call, and what it takes an error for (core/provider-retry.ts). */
module ProviderRetry {
  import opened Prelude
  import opened Folds
  import opened HexCodec

  /** The texts of a thrown error and of its nested cause; empty when there is none. */
  datatype ProviderError = ProviderError(message: string, cause: string)

  datatype CallOutcome = Fine | RateLimited | QuotaExceeded | OtherFailure

  const TRANSIENT_MARKERS: seq<string> := [
    "fetch failed", "econnreset", "econnrefused", "etimedout", "epipe", "socket hang up", "network error", "timed out",
    "timeout", "enotfound", "eai_again", "too many requests", "service unavailable", "bad gateway", "gateway timeout"]

  // ----- classification

  predicate OccursAt(text: string, part: string, i: int) {
    0 <= i <= |text| - |part| && text[i..i + |part|] == part
  }

  predicate Includes(text: string, part: string) {
    exists i :: 0 <= i <= |text| - |part| && OccursAt(text, part, i)
  }

  function Haystack(e: ProviderError): string {
    Lower(e.message + " " + e.cause)
  }

  predicate IsTransient(e: ProviderError) {
    exists m :: m in TRANSIENT_MARKERS && Includes(Haystack(e), m)
  }

  predicate IsQuota(e: ProviderError) {
    Includes(Haystack(e), "payment required") || Includes(Haystack(e), " 402") || Includes(Haystack(e), "402 ")
  }

  predicate IsRateLimit(e: ProviderError) {
    || Includes(Haystack(e), "too many requests") || Includes(Haystack(e), "rate limit")
    || Includes(Haystack(e), " 429") || Includes(Haystack(e), "429 ")
  }

  function Classify(e: ProviderError): CallOutcome {
    if IsQuota(e) then QuotaExceeded else if IsRateLimit(e) then RateLimited else OtherFailure
  }

  function Reported<T>(r: Result<T, ProviderError>): CallOutcome {
    if r.Ok? then Fine else Classify(r.error)
  }

  lemma IncludesAt(text: string, before: string, part: string, after: string)
    requires text == before + part + after
    ensures Includes(text, part)
  {
    assert OccursAt(text, part, |before|);
  }

  lemma IncludedCharacters(text: string, part: string, c: char)
    requires Includes(text, part) && c in part
    ensures c in text
  {
    var i :| 0 <= i <= |text| - |part| && OccursAt(text, part, i);
    assert c in text[i..i + |part|];
  }

  /** `part` stands somewhere in `text`. */
  ghost predicate Mentions(text: string, part: string) {
    exists before, after :: text == before + part + after
  }

  lemma IncludesIsMentions(text: string, part: string)
    ensures Includes(text, part) <==> Mentions(text, part)
  {
    if Includes(text, part) {
      var i :| 0 <= i <= |text| - |part| && OccursAt(text, part, i);
      assert text == text[..i] + part + text[i + |part|..];
    }
    if before, after :| text == before + part + after {
      IncludesAt(text, before, part, after);
    }
  }

  ghost predicate MentionsAny(text: string, parts: seq<string>) {
    exists k :: 0 <= k < |parts| && Mentions(text, parts[k])
  }

  /** How an error is counted, from the lower-case text of the error and its cause; quota texts go first. */
  lemma ClassifiedExactly(e: ProviderError)
    ensures var text := Lower(e.message + " " + e.cause);
      var quota := MentionsAny(text, ["payment required", " 402", "402 "]);
      && (Classify(e) == QuotaExceeded <==> quota)
      && (Classify(e) == RateLimited <==>
            !quota && MentionsAny(text, ["too many requests", "rate limit", " 429", "429 "]))
      && (Classify(e) == OtherFailure <==> Classify(e) != QuotaExceeded && Classify(e) != RateLimited)
  {
    hide Includes, Mentions, Lower;
    var text := Lower(e.message + " " + e.cause);
    var quota, rate := ["payment required", " 402", "402 "], ["too many requests", "rate limit", " 429", "429 "];
    IncludesOneOf(text, quota);
    IncludesOneOf(text, rate);
    assert quota[0] == "payment required" && quota[1] == " 402" && quota[2] == "402 ";
    assert rate[0] == "too many requests" && rate[1] == "rate limit" && rate[2] == " 429" && rate[3] == "429 ";
  }

  lemma IncludesOneOf(text: string, parts: seq<string>)
    ensures MentionsAny(text, parts) <==> exists k :: 0 <= k < |parts| && Includes(text, parts[k])
  {
    forall k | 0 <= k < |parts|
      ensures Includes(text, parts[k]) <==> Mentions(text, parts[k])
    {
      IncludesIsMentions(text, parts[k]);
    }
  }

  lemma LowerAppend(a: string, b: string)
    ensures Lower(a + b) == Lower(a) + Lower(b)
  {
  }

  lemma LowerFixes(s: string)
    requires forall i :: 0 <= i < |s| ==> !('A' <= s[i] <= 'Z')
    ensures Lower(s) == s
  {
  }

  const MIXED_TEXT: string := "402 epipe"

  lemma MixedTextIsQuota(e: ProviderError)
    requires Haystack(e) == MIXED_TEXT
    ensures IsQuota(e)
  {
    IncludesAt(MIXED_TEXT, "", "402 ", "epipe");
  }

  lemma MixedTextIsTransient(e: ProviderError)
    requires Haystack(e) == MIXED_TEXT
    ensures IsTransient(e)
  {
    IncludesAt(MIXED_TEXT, "402 ", "epipe", "");
    assert TRANSIENT_MARKERS[4] == "epipe";
  }

  /** Contrary to the header comment, a quota error is retried if its text also carries a transient marker. */
  lemma QuotaErrorCanBeRetried(e: ProviderError)
    requires e.message == "402" && e.cause == "epipe"
    ensures IsQuota(e) && IsTransient(e)
  {
    assert Haystack(e) == MIXED_TEXT by {
      LowerFixes(MIXED_TEXT);
      assert e.message + " " + e.cause == MIXED_TEXT;
    }
    MixedTextIsQuota(e);
    MixedTextIsTransient(e);
  }

  const RATE_LIMIT_TEXT: string := "rate limit "

  /** Every marker has a character that the text lacks. */
  lemma MarkerCharacter(i: nat) returns (c: char)
    requires i < |TRANSIENT_MARKERS|
    ensures c in TRANSIENT_MARKERS[i] && c !in RATE_LIMIT_TEXT
  {
    c := TRANSIENT_MARKERS[i][[3, 1, 1, 5, 1, 2, 0, 4, 4, 1, 8, 1, 3, 0, 6][i]];
  }

  lemma NoMarkerInRateLimitText(m: string)
    requires m in TRANSIENT_MARKERS
    ensures !Includes(RATE_LIMIT_TEXT, m)
  {
    var i: nat :| i < |TRANSIENT_MARKERS| && TRANSIENT_MARKERS[i] == m;
    var c := MarkerCharacter(i);
    if Includes(RATE_LIMIT_TEXT, m) {
      IncludedCharacters(RATE_LIMIT_TEXT, m, c);
    }
  }

  lemma RateLimitTextIsNotTransient(e: ProviderError)
    requires Haystack(e) == RATE_LIMIT_TEXT
    ensures !IsTransient(e)
  {
    forall m | m in TRANSIENT_MARKERS
      ensures !Includes(Haystack(e), m)
    {
      NoMarkerInRateLimitText(m);
    }
  }

  lemma RateLimitTextIsNotQuota(e: ProviderError)
    requires Haystack(e) == RATE_LIMIT_TEXT
    ensures !IsQuota(e)
  {
    assert 'p' == "payment required"[0] && '0' == " 402"[2] && '0' == "402 "[1];
    if Includes(RATE_LIMIT_TEXT, "payment required") {
      IncludedCharacters(RATE_LIMIT_TEXT, "payment required", 'p');
    } else if Includes(RATE_LIMIT_TEXT, " 402") {
      IncludedCharacters(RATE_LIMIT_TEXT, " 402", '0');
    } else if Includes(RATE_LIMIT_TEXT, "402 ") {
      IncludedCharacters(RATE_LIMIT_TEXT, "402 ", '0');
    }
  }

  lemma RateLimitTextIsRateLimit(e: ProviderError)
    requires Haystack(e) == RATE_LIMIT_TEXT
    ensures IsRateLimit(e)
  {
    IncludesAt(RATE_LIMIT_TEXT, "", "rate limit", " ");
  }

  /** An error counted as rate limiting is not always one that is retried. */
  lemma RateLimitTextIsNotRetried(e: ProviderError)
    requires e.message == "rate limit" && e.cause == ""
    ensures Classify(e) == RateLimited && !IsTransient(e)
  {
    assert Haystack(e) == RATE_LIMIT_TEXT by {
      LowerFixes(RATE_LIMIT_TEXT);
      assert e.message + " " + e.cause == RATE_LIMIT_TEXT;
    }
    RateLimitTextIsNotTransient(e);
    RateLimitTextIsNotQuota(e);
    RateLimitTextIsRateLimit(e);
  }

  /** A message that ends in a hash ending in 402 counts as a quota error, since a blank follows every message. */
  lemma HashEndingIn402LooksLikeQuota(prefix: string, cause: string)
    ensures Classify(ProviderError(prefix + "402", cause)) == QuotaExceeded
  {
    var e := ProviderError(prefix + "402", cause);
    LowerAppend(prefix, "402 " + cause);
    LowerAppend("402 ", cause);
    assert e.message + " " + e.cause == prefix + ("402 " + cause);
    assert Lower("402 ") == "402 ";
    IncludesAt(Haystack(e), Lower(prefix), "402 ", Lower(cause));
  }

  /** A message that is a hash and nothing else counts by its last three digits: 402 as quota, 429 as rate limiting. */
  lemma HashCountsByItsEnding(hash: string)
    requires forall i :: 0 <= i < |hash| ==> IsHexDigit(hash[i])
    ensures var outcome := Classify(ProviderError(hash, ""));
      && (outcome == QuotaExceeded <==> |hash| >= 3 && hash[|hash| - 3..] == "402")
      && (outcome == RateLimited <==> |hash| >= 3 && hash[|hash| - 3..] == "429")
  {
    var e := ProviderError(hash, "");
    var h := hash + " ";
    LowerFixes(h);
    assert Haystack(e) == h by {
      assert e.message + " " + e.cause == h;
    }
    NoWords(hash);
    OnlyAtTheEnd(hash, "402", " 402", "402 ");
    OnlyAtTheEnd(hash, "429", " 429", "429 ");
  }

  lemma NoWords(hash: string)
    requires forall i :: 0 <= i < |hash| ==> IsHexDigit(hash[i])
    ensures var h := hash + " ";
      !Includes(h, "payment required") && !Includes(h, "too many requests") && !Includes(h, "rate limit")
  {
    var h := hash + " ";
    assert 'p' == "payment required"[0] && 'o' == "too many requests"[1] && 'r' == "rate limit"[0];
    if Includes(h, "payment required") {
      IncludedCharacters(h, "payment required", 'p');
    }
    if Includes(h, "too many requests") {
      IncludedCharacters(h, "too many requests", 'o');
    }
    if Includes(h, "rate limit") {
      IncludedCharacters(h, "rate limit", 'r');
    }
  }

  lemma OnlyAtTheEnd(hash: string, code: string, before: string, after: string)
    requires forall i :: 0 <= i < |hash| ==> IsHexDigit(hash[i])
    requires |code| == 3 && before == " " + code && after == code + " "
    ensures var h := hash + " ";
      && !Includes(h, before)
      && (Includes(h, after) <==> |hash| >= 3 && hash[|hash| - 3..] == code)
  {
    var h := hash + " ";
    if |hash| >= 3 && hash[|hash| - 3..] == code {
      IncludesAt(h, hash[..|hash| - 3], after, "");
    }
    forall i | 0 <= i <= |h| - 4
      ensures !OccursAt(h, before, i)
      ensures OccursAt(h, after, i) ==> |hash| >= 3 && hash[|hash| - 3..] == code
    {
      assert h[i] != ' ';
      assert h[i..i + 4][0] == h[i] && h[i..i + 4][3] == h[i + 3];
      if OccursAt(h, after, i) {
        assert after[3] == ' ' && i + 3 == |hash|;
        assert h[i..i + 4][..3] == h[i..i + 3] && after[..3] == code;
        assert h[i..i + 3] == hash[|hash| - 3..];
      }
    }
  }

  // ----- the loop

  function Pow2(n: nat): nat {
    if n == 0 then 1 else 2 * Pow2(n - 1)
  }

  /** The pause after failed attempt `i`, counted from 0. No cap means infinity. */
  function Backoff(delay: int, cap: Option<int>, i: nat): int {
    if cap.Some? then Min(delay * Pow2(i), cap.value) else delay * Pow2(i)
  }

  function Backoffs(delay: int, cap: Option<int>, n: nat): (s: seq<int>)
    ensures |s| == n
  {
    seq(n, i requires 0 <= i < n => Backoff(delay, cap, i))
  }

  datatype ConfigError = BadAttempts

  /** The wrapper refuses a budget without any attempt. */
  function CheckOptions(attempts: int): Result<(), ConfigError> {
    if attempts < 1 then Err(BadAttempts) else Ok(())
  }

  /**
    How often a call is made: every attempt but the last failed with a transient error, and the last one succeeded,
    failed for good or used up the attempts.
   */
  ghost predicate CallsMade<T>(run: nat -> Result<T, ProviderError>, attempts: int, calls: int) {
    && 1 <= calls <= attempts
    && (forall i :: 0 <= i < calls - 1 ==> run(i).Err? && IsTransient(run(i).error))
    && (run(calls - 1).Ok? || !IsTransient(run(calls - 1).error) || calls == attempts)
  }

  /** One event per underlying call, the last result handed on, and pauses that double up to the cap in between. */
  method WithRetry<T>(run: nat -> Result<T, ProviderError>, attempts: int, delay: int, cap: Option<int>)
    returns (r: Result<T, ProviderError>, events: seq<CallOutcome>, sleeps: seq<int>)
    requires CheckOptions(attempts).Ok?
    ensures CallsMade(run, attempts, |events|)
    ensures forall i :: 0 <= i < |events| ==> events[i] == Reported(run(i))
    ensures r == run(|events| - 1)
    ensures sleeps == Backoffs(delay, cap, |events| - 1)
    ensures forall i :: 0 <= i < |sleeps| ==>
      sleeps[i] == if cap.Some? && cap.value < delay * Pow2(i) then cap.value else delay * Pow2(i)
  {
    events, sleeps := [], [];
    var attempt := 1;
    while true
      invariant 1 <= attempt <= attempts && |events| == attempt - 1
      invariant forall i :: 0 <= i < |events| ==> events[i] == Reported(run(i))
      invariant forall i :: 0 <= i < |events| ==> run(i).Err? && IsTransient(run(i).error)
      invariant sleeps == Backoffs(delay, cap, |events|)
      decreases attempts - attempt
    {
      r := run(attempt - 1);
      events := events + [Reported(r)];
      if r.Ok? || !IsTransient(r.error) || attempt >= attempts {
        return;
      }
      sleeps := sleeps + [Backoff(delay, cap, attempt - 1)];
      attempt := attempt + 1;
    }
  }

  /** An error, quota errors included, is retried exactly when its text carries a transient marker. */
  lemma RetriedExactlyWhenMarked<T>(run: nat -> Result<T, ProviderError>, attempts: int, calls: int)
    requires attempts >= 2 && run(0).Err? && CallsMade(run, attempts, calls)
    ensures calls > 1 <==>
      MentionsAny(Lower(run(0).error.message + " " + run(0).error.cause), [
        "fetch failed", "econnreset", "econnrefused", "etimedout", "epipe", "socket hang up", "network error",
        "timed out", "timeout", "enotfound", "eai_again", "too many requests", "service unavailable", "bad gateway",
        "gateway timeout"])
  {
    hide Includes, Mentions, Lower;
    assert calls > 1 <==> IsTransient(run(0).error);
    IncludesOneOf(Haystack(run(0).error), TRANSIENT_MARKERS);
  }

  function Milliseconds(): int -> int {
    x => x
  }

  /** n uncapped pauses take d * (2^n - 1) in all; with a cap, no more than that and no more than n * cap. */
  lemma {:induction false} TotalBackoff(delay: int, cap: Option<int>, n: nat)
    ensures var total := Sum(Backoffs(delay, cap, n), Milliseconds());
      && (cap.None? ==> total == delay * (Pow2(n) - 1))
      && (cap.Some? ==> total <= delay * (Pow2(n) - 1) && total <= n * cap.value)
  {
    if n > 0 {
      TotalBackoff(delay, cap, n - 1);
      var front, last := Backoffs(delay, cap, n - 1), Backoff(delay, cap, n - 1);
      assert Backoffs(delay, cap, n) == front + [last];
      SumAppend(front, [last], Milliseconds());
      assert [last][1..] == [];
      Doubling(delay, Pow2(n - 1));
      if cap.Some? {
        OneMore(n, cap.value);
      }
    }
  }

  lemma Doubling(delay: int, p: int)
    ensures delay * (2 * p - 1) == delay * (p - 1) + delay * p
  {
  }

  lemma OneMore(n: int, c: int)
    ensures n * c == (n - 1) * c + c
  {
  }
}
