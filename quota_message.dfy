/**
 * How the pipeline reads a failed remote call's message: the substring test
 * for the GPU-quota error and the search for the wait time that the
 * pattern `Try again in (\d+:\d+:\d+)` captures.
 */
module QuotaMessage {
  import opened Wrappers

  /** The text that marks a message as a quota error. */
  const QuotaMarker := "exceeded your GPU quota"

  /** The literal text the wait-time pattern starts with. */
  const RetryPrefix := "Try again in "

  /** The wait time reported when the message carries none. */
  const DefaultWait := "some time"

  /** How a failed remote call is reported: as a quota error with a wait time, or by its own message. */
  datatype RemoteError =
    | QuotaExceeded(waitTime: string)
    | RequestFailed(message: string)

  /** `t` occurs in `s` starting at index `k`. */
  predicate OccursAt(s: string, t: string, k: int)
  {
    0 <= k && k + |t| <= |s| && s[k..k + |t|] == t
  }

  /** Whether `t` occurs in `s` at index `i` or later. */
  function ContainsFrom(s: string, t: string, i: nat): (r: bool)
    requires i <= |s|
    ensures r <==> exists k :: i <= k && OccursAt(s, t, k)
    decreases |s| - i
  {
    if i + |t| > |s| then false
    else if s[i..i + |t|] == t then assert OccursAt(s, t, i); true
    else i < |s| && ContainsFrom(s, t, i + 1)
  }

  /** Python's `t in s` on strings. */
  function Contains(s: string, t: string): (r: bool)
    ensures r <==> exists k :: OccursAt(s, t, k)
  {
    ContainsFrom(s, t, 0)
  }

  predicate IsDigit(c: char)
  {
    '0' <= c <= '9'
  }

  /** Every character of `s` from index `lo` up to `hi` is a digit. */
  predicate DigitsIn(s: string, lo: nat, hi: nat)
  {
    hi <= |s| && forall k :: lo <= k < hi ==> IsDigit(s[k])
  }

  /** Every character of `w` is a digit. */
  predicate AllDigits(w: string)
  {
    DigitsIn(w, 0, |w|)
  }

  /** The length of the longest run of digits in `s` starting at index `i`. */
  function DigitRun(s: string, i: nat): (n: nat)
    requires i <= |s|
    ensures i + n <= |s|
    ensures DigitsIn(s, i, i + n)
    ensures i + n == |s| || !IsDigit(s[i + n])
    decreases |s| - i
  {
    if i < |s| && IsDigit(s[i]) then 1 + DigitRun(s, i + 1) else 0
  }

  /** A run of digits of length `n` that nothing else follows is what DigitRun measures. */
  lemma {:induction false} DigitRunOf(s: string, i: nat, n: nat)
    requires i + n <= |s|
    requires DigitsIn(s, i, i + n)
    requires i + n == |s| || !IsDigit(s[i + n])
    ensures DigitRun(s, i) == n
    decreases n
  {
    if n > 0 {
      DigitRunOf(s, i + 1, n - 1);
    }
  }

  /** `w` is `H:M:S`: three non-empty groups of digits joined by ':'. */
  predicate IsClock(w: string)
  {
    exists p, q :: 0 < p && p + 1 < q && q + 1 < |w| && w[p] == ':' && w[q] == ':' &&
      DigitsIn(w, 0, p) && DigitsIn(w, p + 1, q) && DigitsIn(w, q + 1, |w|)
  }

  /** An occurrence of `x + y` is an occurrence of `x` followed by one of `y`. */
  lemma OccursAtConcat(s: string, x: string, y: string, i: nat)
    requires OccursAt(s, x + y, i)
    ensures OccursAt(s, x, i) && OccursAt(s, y, i + |x|)
  {
    assert s[i..i + |x|] == (x + y)[..|x|];
    assert s[i + |x|..i + |x| + |y|] == (x + y)[|x|..];
  }

  /** An occurrence of a one-character string is that character. */
  lemma OccursAtChar(s: string, c: char, i: nat)
    requires OccursAt(s, [c], i)
    ensures i < |s| && s[i] == c
  {
    assert s[i..i + 1][0] == s[i];
  }

  /**
   * One `\d+:` at index `j`: the index just past the ':', or None. The
   * `\d+` takes the longest run of digits, as backing off would leave a
   * digit where ':' is needed.
   */
  function GroupThenColon(s: string, j: nat): (r: Option<nat>)
    requires j <= |s|
    ensures r.Some? ==> j + 1 < r.value <= |s| && DigitsIn(s, j, r.value - 1) && s[r.value - 1] == ':'
  {
    var n := DigitRun(s, j);
    if n == 0 || j + n == |s| || s[j + n] != ':' then None else Some(j + n + 1)
  }

  /**
   * `\d+:\d+:\d+` at index `h`: the index where the match ends, or None.
   * The last `\d+` is greedy, so no digit follows the match.
   */
  function ClockEnd(s: string, h: nat): (r: Option<nat>)
    requires h <= |s|
    ensures r.Some? ==> h + 5 <= r.value <= |s|
    ensures r.Some? ==> r.value == |s| || !IsDigit(s[r.value])
  {
    match GroupThenColon(s, h)
    case None => None
    case Some(m) =>
      match GroupThenColon(s, m)
      case None => None
      case Some(e) =>
        var n := DigitRun(s, e);
        if n == 0 then None else Some(e + n)
  }

  /** What ClockEnd finds has the form H:M:S. */
  lemma ClockEndIsClock(s: string, h: nat)
    requires h <= |s| && ClockEnd(s, h).Some?
    ensures IsClock(s[h..ClockEnd(s, h).value])
  {
    var m := GroupThenColon(s, h).value;
    var e := GroupThenColon(s, m).value;
    ClockFromGroups(s, h, m, e, ClockEnd(s, h).value);
  }

  /** Three digit groups separated by ':' at `m - 1` and `e - 1` form a clock. */
  lemma ClockFromGroups(s: string, h: nat, m: nat, e: nat, f: nat)
    requires h + 1 < m && m + 1 < e && e < f <= |s|
    requires DigitsIn(s, h, m - 1) && s[m - 1] == ':'
    requires DigitsIn(s, m, e - 1) && s[e - 1] == ':'
    requires DigitsIn(s, e, f)
    ensures IsClock(s[h..f])
  {
    var w := s[h..f];
    var p, q := m - 1 - h, e - 1 - h;
    assert w[p] == ':' && w[q] == ':';
    assert DigitsIn(w, 0, p) by {
      forall k | 0 <= k < p ensures IsDigit(w[k]) { assert w[k] == s[h + k]; }
    }
    assert DigitsIn(w, p + 1, q) by {
      forall k | p + 1 <= k < q ensures IsDigit(w[k]) { assert w[k] == s[h + k]; }
    }
    assert DigitsIn(w, q + 1, |w|) by {
      forall k | q + 1 <= k < |w| ensures IsDigit(w[k]) { assert w[k] == s[h + k]; }
    }
  }

  /**
   * What `Try again in (\d+:\d+:\d+)` captures when a match starts at
   * index `i`, or None when none starts there.
   */
  function MatchAt(s: string, i: nat): (r: Option<string>)
    requires i <= |s|
    ensures r.Some? ==> OccursAt(s, RetryPrefix, i) && |r.value| >= 5
    ensures r.Some? ==> OccursAt(s, r.value, i + |RetryPrefix|)
    ensures r.Some? ==> var e := i + |RetryPrefix| + |r.value|; e == |s| || !IsDigit(s[e])
  {
    var h := i + |RetryPrefix|;
    if !(h <= |s| && s[i..h] == RetryPrefix) then None
    else
      match ClockEnd(s, h)
      case None => None
      case Some(f) => Some(s[h..f])
  }

  /** What MatchAt captures has the form H:M:S. */
  lemma MatchAtIsClock(s: string, i: nat)
    requires i <= |s| && MatchAt(s, i).Some?
    ensures IsClock(MatchAt(s, i).value)
  {
    ClockEndIsClock(s, i + |RetryPrefix|);
  }

  /** An occurrence of `x + y + z` is one of each part, in order. */
  lemma OccursAtSplit3(s: string, x: string, y: string, z: string, i: nat)
    requires OccursAt(s, x + y + z, i)
    ensures OccursAt(s, x, i) && OccursAt(s, y, i + |x|) && OccursAt(s, z, i + |x| + |y|)
  {
    OccursAtConcat(s, x + y, z, i);
    OccursAtConcat(s, x, y, i);
  }

  /** A non-empty run of digits `g` at index `j`, then ':', is one `\d+:`. */
  lemma GroupThenColonOf(s: string, j: nat, g: string)
    requires g != "" && AllDigits(g)
    requires OccursAt(s, g, j) && OccursAt(s, ":", j + |g|)
    ensures GroupThenColon(s, j) == Some(j + |g| + 1)
  {
    OccursAtChar(s, ':', j + |g|);
    DigitsOfOccurrence(s, g, j);
    DigitRunOf(s, j, |g|);
  }

  /** Where a string of digits occurs, `s` holds digits. */
  lemma DigitsOfOccurrence(s: string, g: string, j: nat)
    requires AllDigits(g) && OccursAt(s, g, j)
    ensures DigitsIn(s, j, j + |g|)
  {
    forall k | j <= k < j + |g| ensures IsDigit(s[k]) {
      assert s[k] == s[j..j + |g|][k - j];
    }
  }

  /** Two `\d+:` groups and a digit run make the clock ClockEnd finds. */
  lemma ClockEndOf(s: string, h: nat, m: nat, e: nat, n: nat)
    requires h <= |s| && GroupThenColon(s, h) == Some(m)
    requires m <= |s| && GroupThenColon(s, m) == Some(e)
    requires e <= |s| && DigitRun(s, e) == n && n > 0
    ensures ClockEnd(s, h) == Some(e + n)
  {
  }

  /** The prefix at `i` and a clock right after it make the match MatchAt finds. */
  lemma MatchAtOf(s: string, i: nat, f: nat)
    requires OccursAt(s, RetryPrefix, i)
    requires ClockEnd(s, i + |RetryPrefix|) == Some(f)
    ensures MatchAt(s, i) == Some(s[i + |RetryPrefix|..f])
  {
  }

  /** `a:b:c` at index `h`, piece by piece. */
  predicate ClockTextAt(s: string, h: nat, a: string, b: string, c: string)
  {
    && OccursAt(s, a, h) && OccursAt(s, ":", h + |a|)
    && OccursAt(s, b, h + |a| + 1) && OccursAt(s, ":", h + |a| + 1 + |b|)
    && OccursAt(s, c, h + |a| + |b| + 2)
  }

  /** An occurrence of `a:b:c` is one of each of its five pieces. */
  lemma ClockTextPieces(s: string, h: nat, a: string, b: string, c: string)
    requires OccursAt(s, a + ":" + b + ":" + c, h)
    ensures ClockTextAt(s, h, a, b, c)
  {
    OccursAtSplit3(s, a + ":" + b, ":", c, h);
    OccursAtSplit3(s, a, ":", b, h);
  }

  /** Digit groups written out piece by piece at `h` are the clock ClockEnd finds. */
  lemma ClockEndOfText(s: string, h: nat, a: string, b: string, c: string)
    requires a != "" && b != "" && c != ""
    requires AllDigits(a) && AllDigits(b) && AllDigits(c)
    requires ClockTextAt(s, h, a, b, c)
    requires var f := h + |a| + |b| + |c| + 2; f == |s| || !IsDigit(s[f])
    ensures ClockEnd(s, h) == Some(h + |a| + |b| + |c| + 2)
  {
    var m := h + |a| + 1;
    var e := m + |b| + 1;
    GroupThenColonOf(s, h, a);
    GroupThenColonOf(s, m, b);
    DigitsOfOccurrence(s, c, e);
    DigitRunOf(s, e, |c|);
    ClockEndOf(s, h, m, e, |c|);
  }

  /**
   * Conversely, a message that holds `Try again in a:b:c` at index `i`, with
   * digit groups `a`, `b`, `c` and no further digit after `c`, matches
   * there and captures exactly `a:b:c`.
   */
  lemma MatchAtClock(s: string, i: nat, a: string, b: string, c: string)
    requires a != "" && b != "" && c != ""
    requires AllDigits(a) && AllDigits(b) && AllDigits(c)
    requires OccursAt(s, RetryPrefix, i)
    requires OccursAt(s, a + ":" + b + ":" + c, i + |RetryPrefix|)
    requires var f := i + |RetryPrefix| + |a| + |b| + |c| + 2; f == |s| || !IsDigit(s[f])
    ensures MatchAt(s, i) == Some(a + ":" + b + ":" + c)
  {
    var h := i + |RetryPrefix|;
    var f := h + |a| + |b| + |c| + 2;
    var w := a + ":" + b + ":" + c;
    assert |w| == f - h;
    assert s[h..f] == w;
    ClockTextPieces(s, h, a, b, c);
    ClockEndOfText(s, h, a, b, c);
    MatchAtOf(s, i, f);
  }

  /**
   * `re.search`: the leftmost index from `i` on where a match starts, with
   * no match starting at any index before it.
   */
  function FirstMatch(s: string, i: nat): (r: Option<nat>)
    requires i <= |s|
    ensures r.Some? ==> i <= r.value <= |s| && MatchAt(s, r.value).Some?
    ensures r.Some? ==> forall q :: i <= q < r.value ==> MatchAt(s, q).None?
    ensures r.None? ==> forall q :: i <= q <= |s| ==> MatchAt(s, q).None?
    decreases |s| - i
  {
    if MatchAt(s, i).Some? then Some(i)
    else if i == |s| then None
    else FirstMatch(s, i + 1)
  }

  /** The wait time `wait_time_match.group(1)`, or "some time" without a match. */
  function WaitTime(msg: string): string
  {
    match FirstMatch(msg, 0)
    case Some(p) => MatchAt(msg, p).value
    case None => DefaultWait
  }

  /** "some time" is not of the form H:M:S, so it never stands for a parsed wait time. */
  lemma DefaultWaitIsNotClock()
    ensures !IsClock(DefaultWait)
  {
    assert ':' !in DefaultWait;
  }

  /** The reported wait time is "some time" exactly when no match exists. */
  lemma WaitTimeDefaultIff(msg: string)
    ensures WaitTime(msg) == DefaultWait <==> forall q :: 0 <= q <= |msg| ==> MatchAt(msg, q).None?
  {
    match FirstMatch(msg, 0)
    case Some(p) =>
      MatchAtIsClock(msg, p);
      DefaultWaitIsNotClock();
    case None =>
  }

  /** The reported wait time is either "some time" or of the form H:M:S. */
  lemma WaitTimeShape(msg: string)
    ensures WaitTime(msg) == DefaultWait || IsClock(WaitTime(msg))
  {
    if FirstMatch(msg, 0).Some? {
      MatchAtIsClock(msg, FirstMatch(msg, 0).value);
    }
  }

  /** When a match exists, the reported wait time is the capture of the leftmost one. */
  lemma WaitTimeIsLeftmost(msg: string, p: nat)
    requires p <= |msg| && MatchAt(msg, p).Some?
    requires forall q :: 0 <= q < p ==> MatchAt(msg, q).None?
    ensures WaitTime(msg) == MatchAt(msg, p).value
  {
    assert FirstMatch(msg, 0) == Some(p);
  }

  /**
   * The error classification of a failed remote call: a quota error iff the
   * message holds "exceeded your GPU quota", carrying the parsed wait time;
   * otherwise the message itself is passed on.
   */
  function ClassifyRemoteError(msg: string): (r: RemoteError)
    ensures r.QuotaExceeded? <==> exists k :: OccursAt(msg, QuotaMarker, k)
    ensures r.QuotaExceeded? ==> r.waitTime == DefaultWait || IsClock(r.waitTime)
    ensures r.RequestFailed? ==> r.message == msg
  {
    if Contains(msg, QuotaMarker) then
      WaitTimeShape(msg);
      QuotaExceeded(WaitTime(msg))
    else RequestFailed(msg)
  }

  /**
   * A message whose text before "Try again in a:b:c" holds no 'T' (so no
   * match can start there) reports exactly `a:b:c`.
   */
  lemma WaitTimeAfterText(pre: string, a: string, b: string, c: string)
    requires a != "" && b != "" && c != ""
    requires AllDigits(a) && AllDigits(b) && AllDigits(c)
    requires 'T' !in pre
    ensures WaitTime(pre + RetryPrefix + a + ":" + b + ":" + c) == a + ":" + b + ":" + c
  {
    var msg := pre + RetryPrefix + a + ":" + b + ":" + c;
    assert msg == pre + RetryPrefix + (a + ":" + b + ":" + c);
    OccursAtSplit3(msg, pre, RetryPrefix, a + ":" + b + ":" + c, 0);
    MatchAtClock(msg, |pre|, a, b, c);
    forall q | 0 <= q < |pre|
      ensures MatchAt(msg, q).None?
    {
      assert msg[q] == msg[0..|pre|][q];
      NoMatchWithoutT(msg, q);
    }
    WaitTimeIsLeftmost(msg, |pre|);
  }

  /** No match starts at a character other than 'T'. */
  lemma NoMatchWithoutT(s: string, q: nat)
    requires q < |s| && s[q] != 'T'
    ensures MatchAt(s, q).None?
  {
    if q + |RetryPrefix| <= |s| {
      assert s[q..q + |RetryPrefix|][0] == s[q];
    }
  }

  /**
   * A quota error whose text before "Try again in a:b:c" holds no 'T' (so
   * no match can start there) is reported with the wait time `a:b:c`.
   */
  lemma QuotaErrorWithWaitTime(pre: string, a: string, b: string, c: string)
    requires a != "" && b != "" && c != ""
    requires AllDigits(a) && AllDigits(b) && AllDigits(c)
    requires 'T' !in pre && Contains(pre, QuotaMarker)
    ensures ClassifyRemoteError(pre + RetryPrefix + a + ":" + b + ":" + c)
      == QuotaExceeded(a + ":" + b + ":" + c)
  {
    var msg := pre + RetryPrefix + a + ":" + b + ":" + c;
    var k :| OccursAt(pre, QuotaMarker, k);
    assert msg == pre + (RetryPrefix + a + ":" + b + ":" + c);
    OccursAtConcat(msg, pre, RetryPrefix + a + ":" + b + ":" + c, 0);
    assert msg[k..k + |QuotaMarker|] == pre[k..k + |QuotaMarker|];
    assert OccursAt(msg, QuotaMarker, k);
    WaitTimeAfterText(pre, a, b, c);
  }

  /** A quota error that never says "Try again in " is reported with "some time". */
  lemma QuotaErrorWithoutWaitTime(msg: string)
    requires Contains(msg, QuotaMarker) && !Contains(msg, RetryPrefix)
    ensures ClassifyRemoteError(msg) == QuotaExceeded(DefaultWait)
  {
    WaitTimeDefaultIff(msg);
  }
}
