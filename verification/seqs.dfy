/** Sequence operations the queries are built from, each characterised
    element by element. */
module Seqs {

  function Min(a: int, b: int): (m: int)
    ensures m <= a && m <= b
    ensures m == a || m == b
  {
    if a <= b then a else b
  }

  /** The sequence read back to front (Python's `reversed`). */
  function Reverse<T>(s: seq<T>): (r: seq<T>)
    ensures |r| == |s|
    ensures forall i :: 0 <= i < |s| ==> r[i] == s[|s| - 1 - i]
  {
    if |s| == 0 then [] else Reverse(s[1..]) + [s[0]]
  }

  /** The first `n` elements, or all of them when there are fewer (SQL `LIMIT n`). */
  function Take<T>(s: seq<T>, n: nat): (r: seq<T>)
    ensures |r| == Min(n, |s|)
    ensures forall i :: 0 <= i < |r| ==> r[i] == s[i]
  {
    if n <= |s| then s[..n] else s
  }

  /** The last `n` elements, or all of them when there are fewer. */
  function Last<T>(s: seq<T>, n: nat): (r: seq<T>)
    ensures |r| == Min(n, |s|)
    ensures forall i :: 0 <= i < |r| ==> r[i] == s[|s| - |r| + i]
  {
    s[|s| - Min(n, |s|)..]
  }

  /** Reading the newest-first order, keeping `n`, and reading it back again
      leaves exactly the last `n` elements in their original order. */
  lemma ReverseTakeReverse<T>(s: seq<T>, n: nat)
    ensures Reverse(Take(Reverse(s), n)) == Last(s, n)
  {
    var a := Reverse(Take(Reverse(s), n));
    var b := Last(s, n);
    assert |a| == |b|;
    forall i | 0 <= i < |a|
      ensures a[i] == b[i]
    {
      var k := |a|;
      assert a[i] == Take(Reverse(s), n)[k - 1 - i];
      assert Take(Reverse(s), n)[k - 1 - i] == Reverse(s)[k - 1 - i];
    }
  }

  /** Appending one element and keeping the last `n` (n > 0) slides the window:
      it is the old window with the new element added, trimmed to `n`. */
  lemma LastOfSnoc<T>(s: seq<T>, x: T, n: nat)
    requires n > 0
    ensures Last(s + [x], n) == Last(Last(s, n) + [x], n)
  {
    if |s| >= n {
      assert Last(s + [x], n) == s[|s| + 1 - n..] + [x];
      assert Last(s, n) + [x] == s[|s| - n..] + [x];
      assert (s[|s| - n..] + [x])[1..] == s[|s| + 1 - n..] + [x];
    } else {
      assert Last(s, n) == s;
    }
  }
}
