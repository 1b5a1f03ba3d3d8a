/**
 * The JavaScript built-ins the license manager relies on, with their semantics
 * written out: ASCII case mapping, `String.prototype.includes`,
 * `Array.prototype.join`, `Array.prototype.slice` (negative indices included),
 * `Math.ceil(a / b)` on integers and the `parseInt(x) || d` defaulting idiom.
 */
module Js {
  import opened Options

  /** `toLowerCase` restricted to ASCII letters. */
  function LowerChar(c: char): char {
    if 'A' <= c <= 'Z' then (c as int + 32) as char else c
  }

  /** `toUpperCase` restricted to ASCII letters. */
  function UpperChar(c: char): char {
    if 'a' <= c <= 'z' then (c as int - 32) as char else c
  }

  function ToLowerCase(s: string): (r: string)
    ensures |r| == |s|
    ensures forall i :: 0 <= i < |s| ==> r[i] == LowerChar(s[i])
    ensures forall i :: 0 <= i < |r| ==> !('A' <= r[i] <= 'Z')
  {
    seq(|s|, i requires 0 <= i < |s| => LowerChar(s[i]))
  }

  function ToUpperCase(s: string): (r: string)
    ensures |r| == |s|
    ensures forall i :: 0 <= i < |s| ==> r[i] == UpperChar(s[i])
    ensures forall i :: 0 <= i < |r| ==> !('a' <= r[i] <= 'z')
  {
    seq(|s|, i requires 0 <= i < |s| => UpperChar(s[i]))
  }

  /** `needle` occurs in `hay` starting at index `k`. */
  predicate OccursAt(hay: string, needle: string, k: int) {
    0 <= k && k + |needle| <= |hay| && hay[k..k + |needle|] == needle
  }

  /** An occurrence in `hay` after its first character is one in `hay[1..]`, one index earlier. */
  lemma OccursShift(hay: string, needle: string, k: int)
    requires |hay| > 0 && k >= 0
    ensures OccursAt(hay[1..], needle, k) <==> OccursAt(hay, needle, k + 1)
  {
    if 0 <= k && k + |needle| <= |hay| - 1 {
      assert hay[1..][k..k + |needle|] == hay[k + 1..k + 1 + |needle|];
    }
  }

  /** `hay.includes(needle)`: a left-to-right scan for an occurrence. */
  function Includes(hay: string, needle: string): (r: bool)
    ensures r <==> exists k :: OccursAt(hay, needle, k)
    decreases |hay|
  {
    if |needle| > |hay| then
      assert forall k :: !OccursAt(hay, needle, k);
      false
    else if hay[..|needle|] == needle then
      assert OccursAt(hay, needle, 0);
      true
    else
      var rest := Includes(hay[1..], needle);
      assert forall k :: OccursAt(hay, needle, k) ==> OccursAt(hay[1..], needle, k - 1) by {
        forall k | OccursAt(hay, needle, k) ensures OccursAt(hay[1..], needle, k - 1) {
          assert k > 0;
          OccursShift(hay, needle, k - 1);
        }
      }
      assert forall k :: OccursAt(hay[1..], needle, k) ==> OccursAt(hay, needle, k + 1) by {
        forall k | OccursAt(hay[1..], needle, k) ensures OccursAt(hay, needle, k + 1) {
          OccursShift(hay, needle, k);
        }
      }
      rest
  }

  /** `parts.join(sep)` for a one-character separator. */
  function Join(parts: seq<string>, sep: char): string {
    if |parts| == 0 then ""
    else if |parts| == 1 then parts[0]
    else parts[0] + [sep] + Join(parts[1..], sep)
  }

  /** The index `Array.prototype.slice` uses for an argument `k` on a list of length `n`. */
  function SliceIndex(k: int, n: nat): (r: nat)
    ensures r <= n
    ensures 0 <= k <= n ==> r == k
    ensures k > n ==> r == n
    ensures k < 0 ==> r == if n + k < 0 then 0 else n + k
  {
    if k < 0 then (if n + k < 0 then 0 else n + k)
    else if k > n then n
    else k
  }

  /** `s.slice(start, end)`, negative arguments counting from the end. */
  function Slice<T>(s: seq<T>, start: int, end: int): (r: seq<T>)
    ensures |r| <= |s|
    ensures 0 <= start && start <= end ==> |r| <= end - start
  {
    var lo, hi := SliceIndex(start, |s|), SliceIndex(end, |s|);
    if lo < hi then s[lo..hi] else []
  }

  /**
   * `Math.ceil(a / b)` for a non-zero integer divisor: the least integer `q`
   * with `a <= q * b` when `b` is positive, and with `q * b <= a` when `b` is
   * negative.
   */
  function CeilDiv(a: int, b: int): (q: int)
    requires b != 0
    ensures b > 0 ==> (q - 1) * b < a <= q * b
    ensures b < 0 ==> q * b <= a < (q - 1) * b
  {
    if b > 0 then -((-a) / b) else -(a / (-b))
  }

  /** `parseInt(x) || d`: `d` when the parse gave NaN (`None`) or 0. */
  function OrDefault(parsed: Option<int>, d: int): (r: int)
    ensures parsed.None? ==> r == d
    ensures parsed.Some? ==> r == if parsed.value == 0 then d else parsed.value
    ensures d != 0 ==> r != 0
  {
    if parsed.None? || parsed.value == 0 then d else parsed.value
  }
}
