/** Retry delays: the doubling cap, Retry-After, and the remaining time. */
module Backoff {
  import opened Bytes
  import opened Int64
  import opened Wrappers

  const NANOS_PER_MILLI: Int64 := 1_000_000
  const NANOS_PER_SECOND: Int64 := 1_000_000_000
  const RETRY_AFTER_CAP: Int64 := 60_000

  /** The base delay doubled a number of times. */
  function Doubled(base: int, times: nat): int {
    if times == 0 then base else 2 * Doubled(base, times - 1)
  }

  function Power2(n: nat): nat {
    if n == 0 then 1 else 2 * Power2(n - 1)
  }

  lemma {:induction false} DoubledIsPower(base: int, times: nat)
    ensures Doubled(base, times) == base * Power2(times)
  {
    if times > 0 { DoubledIsPower(base, times - 1); }
  }

  lemma {:induction false} DoubledGrows(base: int, i: nat, j: nat)
    requires base >= 0 && i <= j
    ensures 0 <= Doubled(base, i) <= Doubled(base, j)
    decreases j
  {
    if i < j {
      DoubledGrows(base, i, j - 1);
    } else if i > 0 {
      DoubledGrows(base, i - 1, j - 1);
    }
  }

  function Least(a: int, b: int, c: int): (least: int)
    ensures least <= a && least <= b && least <= c && (least == a || least == b || least == c)
  {
    if a <= b && a <= c then a else if b <= c then b else c
  }

  /** The cap for an attempt, computed without leaving the 64-bit range. */
  method RetryCap(base: Int64, maximum: Int64, attempt: nat, remaining: Int64) returns (cap: Int64)
    requires base >= 0 && maximum >= 0 && attempt >= 1
    ensures cap as int == Least(base as int * Power2(attempt - 1), maximum as int, remaining as int)
  {
    ghost var whole := Doubled(base as int, attempt - 1);
    DoubledIsPower(base as int, attempt - 1);
    cap := base;
    var i := 0;
    while i < attempt - 1
      invariant 0 <= i <= attempt - 1
      invariant cap as int == Doubled(base as int, i) && cap >= 0
    {
      if cap > maximum - cap {
        DoubledGrows(base as int, i + 1, attempt - 1);
        cap := maximum;
        assert whole > maximum as int;
        break;
      }
      cap := cap * 2;
      i := i + 1;
    }
    var bounded := if cap < maximum then cap else maximum;
    cap := if bounded < remaining then bounded else remaining;
  }

  // ----- Retry-After -----

  datatype Delta = NotDigits | Unusable | Delta(nanos: Int64)

  predicate AllDigits(v: Text) {
    v != [] && forall i | 0 <= i < |v| :: IsDigit(v[i])
  }

  /** A number of seconds that a duration can hold; anything but digits may still be a date. */
  function DeltaOf(value: Text): (r: Delta)
    ensures r.Delta? ==> r.nanos > 0
  {
    if !AllDigits(value) then NotDigits
    else if 1 <= DecimalValue(value) <= (MAX / NANOS_PER_SECOND) as int then
      Delta(DecimalValue(value) as Int64 * NANOS_PER_SECOND)
    else Unusable
  }

  /** So many seconds are asked for by exactly that number in digits, from 1 s to what nanoseconds can hold. */
  lemma DeltaExactly(value: Text, seconds: nat)
    ensures DeltaOf(value).Delta? && DeltaOf(value).nanos as int == seconds * 1_000_000_000 <==>
              && value != [] && (forall i | 0 <= i < |value| :: 0x30 <= value[i] <= 0x39)
              && DecimalValue(value) == seconds && 1 <= seconds <= 9_223_372_036
    ensures DeltaOf(value) == NotDigits <==> value == [] || exists i | 0 <= i < |value| :: !(0x30 <= value[i] <= 0x39)
  {
  }

  method ParseRetryAfterDelta(value: Text) returns (r: Delta)
    ensures r == DeltaOf(value)
  {
    var allDigits := value != [];
    var i := 0;
    while i < |value|
      invariant 0 <= i <= |value|
      invariant allDigits <==> value != [] && forall j | 0 <= j < i :: IsDigit(value[j])
    {
      allDigits := allDigits && IsDigit(value[i]);
      i := i + 1;
    }
    if !allDigits { return NotDigits; }
    var seconds := DecimalValue(value);
    if seconds > MAX as int { return Unusable; }
    if seconds == 0 || seconds > (MAX / NANOS_PER_SECOND) as int { return Unusable; }
    return Delta(seconds as Int64 * NANOS_PER_SECOND);
  }

  /** The one Retry-After value, if there is one and repetitions agree. */
  function RetryAfterValue(values: seq<Text>): Option<Text> {
    if values == [] || values[0] == [] || exists i | 0 <= i < |values| :: values[i] != values[0] then None
    else Some(values[0])
  }

  /** There is a value exactly when there is a field, it is not empty, and all fields say the same. */
  lemma RetryAfterExactly(values: seq<Text>, value: Text)
    ensures RetryAfterValue(values) == Some(value) <==>
              values != [] && value != [] && forall i | 0 <= i < |values| :: values[i] == value
  {
  }

  method OneRetryAfter(values: seq<Text>) returns (r: Option<Text>)
    ensures r == RetryAfterValue(values)
  {
    if values == [] || values[0] == [] { return None; }
    var i := 1;
    while i < |values|
      invariant 1 <= i <= |values| && forall j | 0 <= j < i :: values[j] == values[0]
    {
      if values[i] != values[0] { return None; }
      i := i + 1;
    }
    return Some(values[0]);
  }

  // ----- the delay -----

  /** The delay in milliseconds: the jitter, or a longer Retry-After within its cap and the time left. */
  function Delay(jitter: Int64, retryAfter: Option<Int64>, remaining: Int64): Int64 {
    match retryAfter
    case None => jitter
    case Some(nanos) =>
      var asked := nanos / NANOS_PER_MILLI;
      var capped := if asked < RETRY_AFTER_CAP then asked else RETRY_AFTER_CAP;
      var bounded := if capped < remaining then capped else remaining;
      if jitter > bounded then jitter else bounded
  }

  /** Milliseconds that a request to wait allows: not more than asked for, than 60 s, or than the time left. */
  predicate Allowed(millis: int, nanos: Int64, remaining: Int64) {
    millis * 1_000_000 <= nanos as int && millis <= 60_000 && millis <= remaining as int
  }

  /** The delay is the longest one allowed, unless the jitter is longer. */
  lemma DelayExactly(jitter: Int64, nanos: Int64, remaining: Int64, millis: int)
    ensures Delay(jitter, None, remaining) == jitter
    ensures var d := Delay(jitter, Some(nanos), remaining) as int;
            && jitter as int <= d && (d == jitter as int || Allowed(d, nanos, remaining))
            && (Allowed(millis, nanos, remaining) ==> millis <= d)
  {
  }
}
