/** Python's slice `s[:n]` and two facts about concatenation used by the list-building loops. */
module Sequences {

  /** Python's `s[:n]`: a negative `n` counts from the end. */
  function SliceTo<T>(s: seq<T>, n: int): (r: seq<T>)
    ensures r <= s
    ensures 0 <= n ==> |r| == if n < |s| then n else |s|
    ensures n < 0 ==> |r| == if 0 <= |s| + n then |s| + n else 0
  {
    if 0 <= n then (if n < |s| then s[..n] else s)
    else if 0 <= |s| + n then s[..|s| + n]
    else []
  }

  lemma AppendAssoc<T>(a: seq<T>, b: seq<T>, c: seq<T>)
    ensures (a + b) + c == a + (b + c)
  {
  }

  lemma AppendThree<T>(s: seq<T>, a: T, b: T, c: T)
    ensures s + [a] + [b] + [c] == s + [a, b, c]
  {
  }
}
