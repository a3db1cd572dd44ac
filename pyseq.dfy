/** Python's slice semantics for `s[lo:hi]` and `s[:hi]`, where a negative
    bound counts from the end and every bound is clamped to the sequence. */
module PySeq {

  /** The position a Python slice bound `i` denotes in a sequence of length `n`. */
  function Bound(i: int, n: nat): (k: nat)
    ensures k <= n
    ensures 0 <= i <= n ==> k == i
    ensures i > n ==> k == n
    ensures i < 0 && 0 <= n + i ==> k == n + i
    ensures n + i < 0 ==> k == 0
  {
    if i < 0 then (if n + i < 0 then 0 else n + i)
    else if i > n then n
    else i
  }

  /** `s[lo:hi]`. */
  function Slice<T>(s: seq<T>, lo: int, hi: int): (r: seq<T>)
    ensures 0 <= lo <= hi <= |s| ==> r == s[lo..hi]
    ensures |r| <= |s|
  {
    var a, b := Bound(lo, |s|), Bound(hi, |s|);
    if a < b then s[a..b] else []
  }

  /** `s[:hi]`. */
  function Take<T>(s: seq<T>, hi: int): (r: seq<T>)
    ensures 0 <= hi ==> r == s[..if hi < |s| then hi else |s|]
    ensures hi < 0 ==> r == s[..if |s| + hi < 0 then 0 else |s| + hi]
  {
    Slice(s, 0, hi)
  }
}
