/**
 * Small pieces of JavaScript semantics that the Hyper runtime relies on:
 * reading a string outside its bounds yields `undefined`, `String.prototype.slice`
 * accepts negative and out-of-range indices, and `String.prototype.repeat`.
 */
module Common {

  datatype Option<+T> = None | Some(value: T)

  datatype Result<+T, +E> = Ok(value: T) | Err(error: E)

  /** `s[k]` in JavaScript: the character at `k`, or `undefined` (None) outside the string. */
  function At(s: string, k: int): Option<char>
  {
    if 0 <= k < |s| then Some(s[k]) else None
  }

  /** How `slice` turns one of its arguments into a position: negative counts from the end. */
  function Clip(k: int, len: nat): (p: nat)
    ensures p <= len
    ensures 0 <= k <= len ==> p == k
  {
    if k < 0 then (if len + k < 0 then 0 else len + k)
    else if k > len then len
    else k
  }

  /** `s.slice(start, end)` in JavaScript. */
  function Slice(s: string, start: int, end: int): (r: string)
    ensures 0 <= start <= end <= |s| ==> r == s[start..end]
  {
    var a, b := Clip(start, |s|), Clip(end, |s|);
    if a < b then s[a..b] else ""
  }

  /** `s.repeat(n)` in JavaScript for a non-negative count (a negative one throws a RangeError). */
  function Repeat(s: string, n: nat): string
  {
    if n == 0 then "" else s + Repeat(s, n - 1)
  }

  lemma {:induction false} RepeatLength(s: string, n: nat)
    ensures |Repeat(s, n)| == |s| * n
  {
    if n > 0 {
      RepeatLength(s, n - 1);
      calc {
        |Repeat(s, n)|;
        |s| + |Repeat(s, n - 1)|;
        |s| + |s| * (n - 1);
        { assert |s| * (n - 1) == |s| * n - |s|; }
        |s| * n;
      }
    }
  }

  /** A repetition of strings that contain some character never contains another one. */
  lemma {:induction false} RepeatAvoids(s: string, n: nat, c: char)
    requires c !in s
    ensures c !in Repeat(s, n)
  {
    if n > 0 {
      RepeatAvoids(s, n - 1, c);
    }
  }

  /** Every character of a repetition is a character of the repeated string. */
  lemma {:induction false} RepeatOf(s: string, n: nat, k: nat)
    requires |s| == 1 && k < n
    ensures |Repeat(s, n)| == n && Repeat(s, n)[k] == s[0]
  {
    RepeatLength(s, n);
    if k > 0 {
      RepeatOf(s, n - 1, k - 1);
    }
  }
}
