/** Fetching one source: which failures are retried, how long to wait, and how often to try. */
module Retry {
  import opened Wrappers
  import opened Basics
  import opened Text

  datatype Failure =
    | NetworkError | Http4xx | Http5xx | YoutubeQuota | YoutubeNotFound | TimedOut | ParserError | UnknownError

  /** The value of a Retry-After header; date is what the text means as a date, in milliseconds. */
  datatype Header = Absent | Seconds(value: real) | Written(text: string, date: Option<int>)

  datatype Fetch =
    | Fetched(stored: bool)
    | Broken(failure: Failure, status: Option<int>, suggested: Option<int>, header: Header)

  datatype Verdict = Transient | Permanent | Exhausted

  const BASE := 1

  // ----- the Retry-After header (section 10.2.3 of RFC 9110)

  function CeilDiv(n: int, d: nat): int
    requires d > 0
  {
    -((-n) / d)
  }

  function Ceil(x: real): int {
    -((-x).Floor)
  }

  function AtLeastZero(n: int): nat {
    if n < 0 then 0 else n
  }

  predicate IsDigit(c: char) {
    '0' <= c <= '9'
  }

  function DigitValue(c: char): (d: nat)
    requires IsDigit(c)
    ensures d < 10
  {
    c as int - '0' as int
  }

  /** How many digits s starts with. */
  function DigitPrefix(s: string): (n: nat)
    ensures n <= |s| && (forall i | 0 <= i < n :: IsDigit(s[i])) && (n < |s| ==> !IsDigit(s[n]))
  {
    if s == "" || !IsDigit(s[0]) then 0 else 1 + DigitPrefix(s[1..])
  }

  function ValueOf(digits: string): nat
    requires forall i | 0 <= i < |digits| :: IsDigit(digits[i])
  {
    if digits == "" then 0 else 10 * ValueOf(digits[..|digits| - 1]) + DigitValue(digits[|digits| - 1])
  }

  /** parseInt with radix 10 on trimmed text: an optional sign and as many digits as there are. */
  function ParseInt(s: string): Option<int> {
    var signed := s != "" && (s[0] == '-' || s[0] == '+');
    var digits := if signed then s[1..] else s;
    var n := DigitPrefix(digits);
    if n == 0 then None
    else
      var value: int := ValueOf(digits[..n]);
      Some(if s[0] == '-' then -value else value)
  }

  function RetryAfterMinutes(header: Header, now: int): (minutes: Option<nat>)
    ensures header == Absent ==> minutes == None
  {
    match header
    case Absent => None
    case Seconds(value) => Some(AtLeastZero(Ceil(value / 60.0)))
    case Written(text, date) =>
      var trimmed := Trim(text);
      if trimmed == "" then None
      else
        var seconds := ParseInt(trimmed);
        if seconds.Some? then Some(AtLeastZero(CeilDiv(seconds.value, 60)))
        else if date.Some? then Some(AtLeastZero(CeilDiv(date.value - now, 60000)))
        else None
  }

  lemma CeilDivIsLeast(n: int, d: nat)
    requires d > 0
    ensures d * (CeilDiv(n, d) - 1) < n <= d * CeilDiv(n, d)
  {
  }

  lemma {:induction false} DecimalDigits(n: nat)
    ensures (forall i | 0 <= i < |Decimal(n)| :: IsDigit(Decimal(n)[i])) && ValueOf(Decimal(n)) == n
    decreases n
  {
    if n < 10 {
      DigitIs(n);
      assert Decimal(n)[..0] == "";
    } else {
      DecimalDigits(n / 10);
      DigitIs(n % 10);
      var s := Decimal(n);
      assert s[..|s| - 1] == Decimal(n / 10) && s[|s| - 1] == Digit(n % 10);
    }
  }

  lemma DigitIs(d: nat)
    requires d < 10
    ensures IsDigit(Digit(d)) && DigitValue(Digit(d)) == d
  {
  }

  lemma WholePrefix(s: string)
    requires forall i | 0 <= i < |s| :: IsDigit(s[i])
    ensures DigitPrefix(s) == |s|
  {
  }

  lemma ParseIntOfDecimal(n: nat)
    ensures ParseInt(Decimal(n)) == Some(n)
  {
    DecimalDigits(n);
    var s := Decimal(n);
    WholePrefix(s);
    assert s[..|s|] == s;
    assert IsDigit(s[0]);
  }

  lemma DecimalIsTrimmed(n: nat)
    ensures Trim(Decimal(n)) == Decimal(n) && Decimal(n) != ""
  {
    hide Trim, Decimal;
    TrimIsTrimmed(Decimal(n));
  }

  /** Delay-seconds are rounded up to the least number of minutes that covers them. */
  lemma DelaySecondsAreCovered(n: nat, now: int, date: Option<int>)
    ensures var minutes := RetryAfterMinutes(Written(Decimal(n), date), now);
            minutes.Some? && 60 * (minutes.value - 1) < n <= 60 * minutes.value
  {
    hide Trim;
    DecimalIsTrimmed(n);
    ParseIntOfDecimal(n);
    hide ParseInt, Decimal;
    CeilDivIsLeast(n, 60);
  }

  lemma PrefixBefore(digits: string, rest: string)
    requires (forall i | 0 <= i < |digits| :: IsDigit(digits[i])) && (rest != "" ==> !IsDigit(rest[0]))
    ensures DigitPrefix(digits + rest) == |digits|
  {
    var s := digits + rest;
    assert forall i | 0 <= i < |digits| :: s[i] == digits[i];
    assert rest != "" ==> s[|digits|] == rest[0];
  }

  lemma ParseIntReadsDigits(n: nat, rest: string)
    requires rest != "" ==> !IsDigit(rest[0])
    ensures ParseInt(Decimal(n) + rest) == Some(n) && ParseInt("-" + (Decimal(n) + rest)) == Some(0 - n as int)
  {
    var s := Decimal(n) + rest;
    DecimalDigits(n);
    hide Decimal, DigitPrefix;
    PrefixBefore(Decimal(n), rest);
    assert IsDigit(s[0]) && s[..|Decimal(n)|] == Decimal(n);
    assert ("-" + s)[1..] == s;
  }

  lemma NumberFirst(text: string, seconds: int, now: int, date: Option<int>)
    requires IsTrimmed(text) && text != "" && ParseInt(text) == Some(seconds)
    ensures RetryAfterMinutes(Written(text, date), now) == Some(AtLeastZero(CeilDiv(seconds, 60)))
  {
    TrimIsTrimmed(text);
    hide Trim, ParseInt;
  }

  lemma DigitsAreTrimmed(digits: string, rest: string)
    requires digits != "" && (forall i | 0 <= i < |digits| :: IsDigit(digits[i])) && IsTrimmed(rest)
    ensures IsTrimmed(digits) && IsTrimmed(digits + rest) && IsTrimmed("-" + (digits + rest))
  {
    var s := digits + rest;
    assert IsDigit(digits[0]) && IsDigit(digits[|digits| - 1]);
    assert s[|s| - 1] == if rest == "" then digits[|digits| - 1] else rest[|rest| - 1];
    assert ("-" + s)[|s|] == s[|s| - 1] && s[0] == digits[0];
  }

  lemma SolidText(n: nat, rest: string)
    requires IsTrimmed(rest)
    ensures var d := Decimal(n); IsTrimmed(d) && IsTrimmed(d + rest) && IsTrimmed("-" + (d + rest))
  {
    DecimalDigits(n);
    hide Decimal, IsTrimmed;
    DigitsAreTrimmed(Decimal(n), rest);
  }

  /** Text after the number is not looked at. */
  lemma NumbersAreReadFirst(n: nat, rest: string, now: int, date: Option<int>)
    requires IsTrimmed(rest) && (rest != "" ==> !IsDigit(rest[0]))
    ensures RetryAfterMinutes(Written(Decimal(n) + rest, date), now)
            == RetryAfterMinutes(Written(Decimal(n), date), now)
  {
    hide *;
    SolidText(n, rest);
    ParseIntOfDecimal(n);
    ParseIntReadsDigits(n, rest);
    NumberFirst(Decimal(n), n, now, date);
    NumberFirst(Decimal(n) + rest, n, now, date);
  }

  /** A negative number means no wait. */
  lemma NegativeMeansNoWait(n: nat, rest: string, now: int, date: Option<int>)
    requires IsTrimmed(rest) && (rest != "" ==> !IsDigit(rest[0]))
    ensures RetryAfterMinutes(Written("-" + (Decimal(n) + rest), date), now) == Some(0)
  {
    hide *;
    SolidText(n, rest);
    ParseIntReadsDigits(n, rest);
    NumberFirst("-" + (Decimal(n) + rest), 0 - n as int, now, date);
    NoneBelowZero(n);
  }

  lemma NoneBelowZero(n: nat)
    ensures AtLeastZero(CeilDiv(0 - n as int, 60)) == 0
  {
  }

  /** A number of seconds is rounded up to whole minutes, and never below zero. */
  lemma SecondsAreCovered(value: real, now: int)
    ensures var minutes := RetryAfterMinutes(Seconds(value), now);
            && minutes.Some? && value <= 60.0 * minutes.value as real
            && (minutes.value > 0 ==> 60.0 * (minutes.value - 1) as real < value)
  {
    var q := value / 60.0;
    assert q * 60.0 == value;
    assert (Ceil(q) - 1) as real < q <= Ceil(q) as real;
  }

  /** Nothing is suggested exactly by no header, a blank one, or one that is neither a number nor a date. */
  lemma NothingSuggestedIff(header: Header, now: int)
    ensures RetryAfterMinutes(header, now) == None
            <==> header == Absent
                 || (header.Written? && (Trim(header.text) == ""
                                         || (ParseInt(Trim(header.text)) == None && header.date == None)))
  {
  }

  /** A date that does not start like a number is waited for, rounded up to a minute; past dates mean no wait. */
  lemma DatesAreCovered(text: string, date: int, now: int)
    requires Trim(text) != "" && ParseInt(Trim(text)) == None
    ensures var minutes := RetryAfterMinutes(Written(text, Some(date)), now);
            && minutes.Some? && date <= now + 60000 * minutes.value
            && (date > now ==> now + 60000 * (minutes.value - 1) < date)
            && (date <= now ==> minutes.value == 0)
  {
  }

  // ----- delays

  function Pow2(n: nat): (p: nat)
    ensures p >= 1
  {
    if n == 0 then 1 else 2 * Pow2(n - 1)
  }

  function Min(a: int, b: int): int {
    if a <= b then a else b
  }

  function BaseDelay(attempt: nat, cap: nat): nat
    requires attempt >= 1
  {
    Min(Pow2(attempt - 1) * BASE, cap)
  }

  function Delay(attempt: nat, cap: nat, suggested: Option<int>, retryAfter: Option<nat>): int
    requires attempt >= 1
  {
    var a := BaseDelay(attempt, cap);
    var b := if suggested.Some? && suggested.value >= 0 then Max(a, suggested.value) else a;
    var c := if retryAfter.Some? then Max(b, retryAfter.value) else b;
    Max(BASE, Min(cap, c))
  }

  /** The delay is at least the capped back-off, suggestion and header, one of them, or the cap when one exceeds it. */
  lemma DelayBounds(attempt: nat, cap: nat, suggested: Option<int>, retryAfter: Option<nat>)
    requires attempt >= 1 && cap >= 1
    ensures var d := Delay(attempt, cap, suggested, retryAfter);
            && 1 <= d <= cap
            && d >= Min(Pow2(attempt - 1), cap)
            && (suggested.Some? ==> d >= Min(suggested.value, cap))
            && (retryAfter.Some? ==> d >= Min(retryAfter.value, cap))
            && (d == Pow2(attempt - 1) || suggested == Some(d) || retryAfter == Some(d)
                || (d == cap && (Pow2(attempt - 1) > cap || suggested.GetOr(0) > cap || retryAfter.GetOr(0) > cap)))
  {
  }

  /** Without other suggestions the delay starts at a minute and doubles with each attempt, up to the cap. */
  lemma BackoffDoubles(attempt: nat, cap: nat)
    requires attempt >= 1 && cap >= 1
    ensures Delay(1, cap, None, None) == 1
    ensures var d := Delay(attempt, cap, None, None);
            Delay(attempt + 1, cap, None, None) == if 2 * d <= cap then 2 * d else cap
  {
  }

  predicate IsRetryable(failure: Failure, status: Option<int>) {
    || failure == NetworkError || failure == TimedOut || failure == Http5xx || failure == YoutubeQuota
    || (failure == Http4xx && status == Some(429))
  }

  function VerdictOn(f: Fetch, attempt: nat, maxAttempts: nat): Verdict
    requires f.Broken?
  {
    if !IsRetryable(f.failure, f.status) then Permanent
    else if attempt >= maxAttempts then Exhausted
    else Transient
  }

  function DelayAfter(f: Fetch, attempt: nat, maxAttempts: nat, cap: nat, now: int): Option<int>
    requires f.Broken? && attempt >= 1
  {
    if VerdictOn(f, attempt, maxAttempts) == Permanent then None
    else Some(Delay(attempt, cap, f.suggested, RetryAfterMinutes(f.header, now)))
  }

  // ----- the loop

  datatype Attempt = Attempt(number: nat, failure: Option<Failure>, verdict: Option<Verdict>, retry: Option<int>)

  /** Items that cannot be stored are a failure of unknown kind. */
  function Effective(f: Fetch): Fetch {
    if f == Fetched(false) then Broken(UnknownError, None, None, Absent) else f
  }

  /** What attempt k leaves in the log. */
  function AttemptOf(f: Fetch, k: nat, maxAttempts: nat, cap: nat, now: int): Attempt
    requires k >= 1
  {
    var e := Effective(f);
    if e.Fetched? then Attempt(k, None, None, None)
    else Attempt(k, Some(e.failure), Some(VerdictOn(e, k, maxAttempts)), DelayAfter(e, k, maxAttempts, cap, now))
  }

  function Total(waits: seq<int>): int {
    if waits == [] then 0 else Total(waits[..|waits| - 1]) + waits[|waits| - 1]
  }

  lemma {:induction false} TotalIsBounded(waits: seq<int>, cap: int)
    requires forall i | 0 <= i < |waits| :: waits[i] <= cap
    ensures Total(waits) <= |waits| * cap
    decreases waits
  {
    if waits == [] {
    } else {
      TotalIsBounded(waits[..|waits| - 1], cap);
      assert |waits| * cap == (|waits| - 1) * cap + cap;
    }
  }

  /** The wait after attempt k, in minutes. */
  ghost predicate WaitFits(wait: int, f: Fetch, k: nat, cap: nat, now: int)
    requires k >= 1
  {
    && IsTransient(f)
    && 1 <= wait <= cap
    && wait >= Min(Pow2(k - 1), cap)
    && (RetryAfterMinutes(f.header, now).Some? ==> wait >= Min(RetryAfterMinutes(f.header, now).value, cap))
  }

  ghost predicate WaitsFit(waits: seq<int>, fetches: nat -> Fetch, clock: nat -> int, cap: nat) {
    forall i | 0 <= i < |waits| :: WaitFits(waits[i], fetches(i + 1), i + 1, cap, clock(i + 1))
  }

  predicate IsTransient(f: Fetch) {
    f.Broken? && IsRetryable(f.failure, f.status)
  }

  ghost predicate Logged(attempts: seq<Attempt>, fetches: nat -> Fetch, clock: nat -> int, maxAttempts: nat, cap: nat) {
    forall k | 1 <= k <= |attempts| :: attempts[k - 1] == AttemptOf(fetches(k), k, maxAttempts, cap, clock(k))
  }

  /** A failure that passes: of the network or the server, a time-out, or too many requests. */
  ghost predicate Passes(f: Fetch) {
    && f.Broken?
    && (f.failure in {NetworkError, TimedOut, Http5xx, YoutubeQuota} || (f.failure == Http4xx && f.status == Some(429)))
  }

  lemma TransientPasses()
    ensures forall f :: IsTransient(f) <==> Passes(f)
  {
  }

  /** What the log says of one attempt: its number, how it failed, and a retry exactly for a failure that passes. */
  lemma AttemptsTell(f: Fetch, k: nat, maxAttempts: nat, cap: nat, now: int)
    requires k >= 1
    ensures var attempt := AttemptOf(f, k, maxAttempts, cap, now);
            && attempt.number == k
            && (attempt.failure == None <==> f == Fetched(true))
            && (f == Fetched(false) ==> attempt.failure == Some(UnknownError))
            && (f.Broken? ==> attempt.failure == Some(f.failure))
            && (attempt.retry.Some? <==> Passes(f))
            && (attempt.verdict == Some(Transient) <==> Passes(f) && k < maxAttempts)
            && (attempt.verdict == Some(Exhausted) <==> Passes(f) && k >= maxAttempts)
  {
    hide Delay, RetryAfterMinutes;
  }

  /**
    Attempt k meets fetches(k) at time clock(k). Every attempt but the last is a transient failure
    followed by a wait; the last is a success, a permanent failure, or the last one allowed.
   */
  method FetchWithRetries(fetches: nat -> Fetch, clock: nat -> int, maxAttempts: nat, cap: nat)
    returns (success: bool, failure: Option<Failure>, retryInMinutes: Option<int>, attempts: seq<Attempt>,
            waits: seq<int>)
    requires 1 <= maxAttempts && 1 <= cap
    ensures 1 <= |attempts| <= maxAttempts && |waits| == |attempts| - 1
    ensures Logged(attempts, fetches, clock, maxAttempts, cap)
    ensures WaitsFit(waits, fetches, clock, cap)
    ensures var last := fetches(|attempts|);
            && success == (last == Fetched(true))
            && (success || !IsTransient(last) || |attempts| == maxAttempts)
            && failure == attempts[|attempts| - 1].failure && (failure.None? <==> success)
            && retryInMinutes == attempts[|attempts| - 1].retry
    ensures forall k | 1 <= k <= |attempts| :: k < |attempts| <==> k < maxAttempts && Passes(fetches(k))
    ensures Total(waits) <= (maxAttempts - 1) * cap
  {
    success, failure, retryInMinutes, attempts, waits := false, None, None, [], [];
    hide RetryAfterMinutes, Delay, WaitFits, Total;
    var attempt := 1;
    while attempt <= maxAttempts
      invariant 1 <= attempt <= maxAttempts && |attempts| == |waits| == attempt - 1 && !success
      invariant Logged(attempts, fetches, clock, maxAttempts, cap)
      invariant WaitsFit(waits, fetches, clock, cap)
      decreases maxAttempts - attempt
    {
      var result := fetches(attempt);
      if result.Fetched? && !result.stored {
        result := Broken(UnknownError, None, None, Absent);
      }
      if result.Fetched? {
        success, failure, retryInMinutes := true, None, None;
        attempts := attempts + [Attempt(attempt, None, None, None)];
        break;
      }
      failure := Some(result.failure);
      var verdict := VerdictOn(result, attempt, maxAttempts);
      retryInMinutes := DelayAfter(result, attempt, maxAttempts, cap, clock(attempt));
      attempts := attempts + [Attempt(attempt, failure, Some(verdict), retryInMinutes)];
      if verdict != Transient {
        break;
      }
      DelayFits(result, attempt, maxAttempts, cap, clock(attempt));
      waits := waits + [retryInMinutes.value];
      attempt := attempt + 1;
    }
    TransientPasses();
    FittingWaitsAreTransient(waits, fetches, clock, cap);
    hide Passes, IsTransient;
    FittingWaitsAreCapped(waits, fetches, clock, cap);
    TotalIsBounded(waits, cap);
    MoreWaits(|waits|, maxAttempts - 1, cap);
  }

  lemma DelayFits(f: Fetch, k: nat, maxAttempts: nat, cap: nat, now: int)
    requires f.Broken? && k >= 1 && cap >= 1 && VerdictOn(f, k, maxAttempts) == Transient
    ensures WaitFits(DelayAfter(f, k, maxAttempts, cap, now).value, f, k, cap, now)
  {
  }

  lemma FittingWaitsAreCapped(waits: seq<int>, fetches: nat -> Fetch, clock: nat -> int, cap: nat)
    requires WaitsFit(waits, fetches, clock, cap)
    ensures forall i | 0 <= i < |waits| :: waits[i] <= cap
  {
  }

  lemma FittingWaitsAreTransient(waits: seq<int>, fetches: nat -> Fetch, clock: nat -> int, cap: nat)
    requires WaitsFit(waits, fetches, clock, cap)
    ensures forall k | 1 <= k <= |waits| :: IsTransient(fetches(k))
  {
    forall k | 1 <= k <= |waits| ensures IsTransient(fetches(k)) {
      assert WaitFits(waits[k - 1], fetches(k - 1 + 1), k - 1 + 1, cap, clock(k - 1 + 1));
    }
  }

  lemma MoreWaits(few: nat, many: nat, cap: nat)
    requires few <= many
    ensures few * cap <= many * cap
  {
  }
}
