/**
 * Latency extraction from the text that `ping` prints (`ping_server`).
 * Windows: `re.search(r"Average = (\d+)", output)`; macOS and Linux:
 * `re.search(r"time=([\d.]+)", output)`. The captured group is returned
 * as text; its conversion to a number is not part of this model.
 */
module PingOutput {
  import opened Wrappers

  /** The result of `platform.system()` as far as `ping_server` distinguishes it. */
  datatype Os = Windows | Darwin | Linux

  /** The character class after the literal: `\d` or `[\d.]`. */
  datatype CharClass = Digits | DigitsOrDot

  predicate IsDigit(c: char) { '0' <= c <= '9' }

  predicate InClass(c: char, cls: CharClass)
  {
    match cls
    case Digits => IsDigit(c)
    case DigitsOrDot => IsDigit(c) || c == '.'
  }

  /** The pattern `literal` + `cls+` can start matching at position `p` of `s`. */
  predicate MatchesAt(s: string, literal: string, cls: CharClass, p: nat)
  {
    p + |literal| < |s| && s[p..p + |literal|] == literal && InClass(s[p + |literal|], cls)
  }

  /** Length of the longest run of `cls` characters starting at `start` (the greedy `+`). */
  function RunLength(s: string, start: nat, cls: CharClass): (n: nat)
    requires start <= |s|
    ensures start + n <= |s|
    ensures forall i :: start <= i < start + n ==> InClass(s[i], cls)
    ensures start + n == |s| || !InClass(s[start + n], cls)
    decreases |s| - start
  {
    if start == |s| || !InClass(s[start], cls) then 0
    else 1 + RunLength(s, start + 1, cls)
  }

  /** The leftmost position at or after `from` where the pattern matches. */
  function Search(s: string, literal: string, cls: CharClass, from: nat): (r: Option<nat>)
    ensures r.Some? ==> from <= r.value && MatchesAt(s, literal, cls, r.value)
    ensures r.Some? ==> forall q :: from <= q < r.value ==> !MatchesAt(s, literal, cls, q)
    ensures r.None? ==> forall q :: from <= q ==> !MatchesAt(s, literal, cls, q)
    decreases |s| - from
  {
    if from + |literal| >= |s| then None
    else if MatchesAt(s, literal, cls, from) then Some(from)
    else Search(s, literal, cls, from + 1)
  }

  /**
   * `re.search(literal + "(" + cls + "+)", s).group(1)`, or `None` when
   * there is no match: the maximal run of `cls` characters after the
   * leftmost occurrence of `literal` that is followed by at least one.
   */
  function Extract(s: string, literal: string, cls: CharClass): (r: Option<string>)
    ensures r.None? <==> forall p :: !MatchesAt(s, literal, cls, p)
    ensures r.Some? ==> exists p :: FirstMatch(s, literal, cls, p) && IsGroupAt(s, literal, cls, p, r.value)
  {
    match Search(s, literal, cls, 0)
    case None => None
    case Some(p) =>
      var start := p + |literal|;
      var g := s[start..start + RunLength(s, start, cls)];
      assert FirstMatch(s, literal, cls, p);
      assert IsGroupAt(s, literal, cls, p, g);
      Some(g)
  }

  /** `p` is the leftmost position where the pattern matches. */
  ghost predicate FirstMatch(s: string, literal: string, cls: CharClass, p: nat)
  {
    MatchesAt(s, literal, cls, p) && forall q :: 0 <= q < p ==> !MatchesAt(s, literal, cls, q)
  }

  /** `g` is the non-empty, maximal run of `cls` characters right after `literal` at `p`. */
  ghost predicate IsGroupAt(s: string, literal: string, cls: CharClass, p: nat, g: string)
  {
    var start := p + |literal|;
    && |g| > 0
    && start + |g| <= |s|
    && g == s[start..start + |g|]
    && (forall i :: 0 <= i < |g| ==> InClass(g[i], cls))
    && (start + |g| == |s| || !InClass(s[start + |g|], cls))
  }

  /** The latency text `ping_server` would convert, for the given platform. */
  function ParseLatency(os: Os, output: string): Option<string>
  {
    if os == Windows then Extract(output, "Average = ", Digits)
    else Extract(output, "time=", DigitsOrDot)
  }

  /**
   * On macOS and Linux the extracted text is the maximal run of digits and
   * dots after the first `time=` that is followed by one; it holds only
   * digits and dots, and there is none exactly when no `time=` is
   * followed by a digit or a dot.
   */
  lemma ParseLatencyUnix(os: Os, output: string)
    requires os != Windows
    ensures var r := ParseLatency(os, output);
      && (r.None? <==> forall p :: !MatchesAt(output, "time=", DigitsOrDot, p))
      && (r.Some? ==> |r.value| > 0 && forall i :: 0 <= i < |r.value| ==> IsDigit(r.value[i]) || r.value[i] == '.')
      && (r.Some? ==> exists p :: FirstMatch(output, "time=", DigitsOrDot, p) && IsGroupAt(output, "time=", DigitsOrDot, p, r.value))
  {
  }

  /** On Windows the extracted text is the digits after the first `Average = ` followed by one. */
  lemma ParseLatencyWindows(output: string)
    ensures var r := ParseLatency(Windows, output);
      && (r.None? <==> forall p :: !MatchesAt(output, "Average = ", Digits, p))
      && (r.Some? ==> |r.value| > 0 && forall i :: 0 <= i < |r.value| ==> IsDigit(r.value[i]))
      && (r.Some? ==> exists p :: FirstMatch(output, "Average = ", Digits, p) && IsGroupAt(output, "Average = ", Digits, p, r.value))
  {
  }
}
