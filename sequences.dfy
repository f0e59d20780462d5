/** Counting occurrences in a sequence, as Python's `list.count` and
    `str.count` do. */
module Sequences {

  /** How many times `x` occurs in `s`. */
  function Count<T(==)>(s: seq<T>, x: T): (r: nat)
    ensures r <= |s|
    ensures r == 0 <==> x !in s
  {
    if s == [] then 0
    else
      assert x in s <==> s[0] == x || x in s[1..];
      (if s[0] == x then 1 else 0) + Count(s[1..], x)
  }

  /** Counting over a concatenation adds the counts of its parts. */
  lemma {:induction false} CountAppend<T>(a: seq<T>, b: seq<T>, x: T)
    ensures Count(a + b, x) == Count(a, x) + Count(b, x)
    decreases |a|
  {
    if a == [] {
      assert a + b == b;
    } else {
      assert (a + b)[1..] == a[1..] + b;
      CountAppend(a[1..], b, x);
    }
  }
}
