/** The random source of the quiz: the successive values `Math.random()`
    returns, supplied up front as a finite prefix. */
module Randomness {

  /** The values `Math.random()` will return, in call order. */
  type Stream = seq<real>

  /** A value `Math.random()` can return. */
  predicate IsUnit(x: real) {
    0.0 <= x < 1.0
  }

  predicate Valid(rs: Stream) {
    forall i :: 0 <= i < |rs| ==> IsUnit(rs[i])
  }

  /** A value drawn together with the part of the stream not yet consumed. */
  datatype Drawn<+T> = Drawn(got: T, rest: Stream)

  /** `rest` is what is left of `rs` after some values were consumed. */
  predicate SuffixOf(rest: Stream, rs: Stream) {
    |rest| <= |rs| && rest == rs[|rs| - |rest|..]
  }

  lemma ValidTail(rs: Stream)
    requires Valid(rs) && |rs| > 0
    ensures Valid(rs[1..])
  {
    forall i | 0 <= i < |rs| - 1
      ensures IsUnit(rs[1..][i])
    {
      assert rs[1..][i] == rs[i + 1];
    }
  }

  lemma ValidSuffix(rest: Stream, rs: Stream)
    requires Valid(rs) && SuffixOf(rest, rs)
    ensures Valid(rest)
  {
    forall i | 0 <= i < |rest|
      ensures IsUnit(rest[i])
    {
      assert rest[i] == rs[|rs| - |rest| + i];
    }
  }

  lemma SuffixTrans(a: Stream, b: Stream, c: Stream)
    requires SuffixOf(a, b) && SuffixOf(b, c)
    ensures SuffixOf(a, c)
  {
  }

  lemma SuffixTail(rest: Stream, rs: Stream)
    requires |rs| > 0 && SuffixOf(rest, rs[1..])
    ensures SuffixOf(rest, rs)
  {
  }

  lemma ScaledProduct(x: real, n: nat)
    requires IsUnit(x)
    ensures 0.0 <= x * n as real
    ensures n > 0 ==> x * n as real < n as real
  {
    if n > 0 {
      assert x * n as real < 1.0 * n as real;
    }
  }

  /** `Math.floor(x * n)`: the index the source picks from a collection
      of length `n`, or the swap partner below `n`. It is in range exactly
      when there is something to pick from. */
  function ScaledIndex(x: real, n: nat): (k: nat)
    requires IsUnit(x)
    ensures n > 0 ==> k < n
    ensures n == 0 ==> k == 0
  {
    ScaledProduct(x, n);
    (x * n as real).Floor
  }

  /** `Math.random() < 0.5` */
  function Coin(x: real): bool {
    x < 0.5
  }
}
