/** Byte strings and their concatenation. */
module Bytes {

  type Byte = b: int | 0 <= b < 256

  type Bytes = seq<Byte>

  /** The joined bytes of a list of pieces. */
  function Concat(pieces: seq<Bytes>): Bytes {
    if pieces == [] then [] else pieces[0] + Concat(pieces[1..])
  }

  lemma {:induction false} ConcatAppend(xs: seq<Bytes>, ys: seq<Bytes>)
    ensures Concat(xs + ys) == Concat(xs) + Concat(ys)
  {
    if xs == [] {
      assert xs + ys == ys;
    } else {
      assert (xs + ys)[1..] == xs[1..] + ys;
      ConcatAppend(xs[1..], ys);
    }
  }

  /** At most the first `n` elements, as a slice with an upper bound past the end gives. */
  function Take<T>(s: seq<T>, n: nat): (r: seq<T>)
    ensures r <= s && |r| <= n
    ensures |r| == n || r == s
  {
    if |s| <= n then s else s[..n]
  }

  /** All but the first `n` elements, empty when there are fewer. */
  function Drop<T>(s: seq<T>, n: nat): seq<T> {
    if |s| <= n then [] else s[n..]
  }
}
