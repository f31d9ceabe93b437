/** `shuffleArray`: the Fisher–Yates shuffle, walking `i` from the last
    position down to 1 and swapping position `i` with a random position
    `j` in `[0, i]`. */
module Shuffling {
  import opened Outcomes
  import opened Randomness
  import opened Sequences

  /** The swap partner of position `i`: `Math.floor(Math.random() * (i + 1))`. */
  function SwapPartner(x: real, i: nat): (j: nat)
    requires IsUnit(x)
    ensures j <= i
  {
    ScaledIndex(x, i + 1)
  }

  /** The loop from position `i` down to 1: one random value per step. */
  function ShuffleDown<T(==)>(a: seq<T>, i: nat, rs: Stream): Result<Drawn<seq<T>>>
    requires i < |a| && Valid(rs)
    decreases i
  {
    if i == 0 then Ok(Drawn(a, rs))
    else if |rs| == 0 then Err(RandomnessExhausted)
    else
      ValidTail(rs);
      ShuffleDown(Swap(a, i, SwapPartner(rs[0], i)), i - 1, rs[1..])
  }

  /** The loop finishes exactly when the stream holds a value for each of
      the `i` remaining steps, consumes exactly those values, and only
      ever rearranges `a`. */
  lemma {:induction false} ShuffleDownPermutes<T>(a: seq<T>, i: nat, rs: Stream)
    requires i < |a| && Valid(rs)
    ensures ShuffleDown(a, i, rs).Ok? <==> i <= |rs|
    ensures ShuffleDown(a, i, rs).Ok? ==> ShuffleDown(a, i, rs).value.rest == rs[i..]
    ensures ShuffleDown(a, i, rs).Ok? ==>
      |ShuffleDown(a, i, rs).value.got| == |a| &&
      multiset(ShuffleDown(a, i, rs).value.got) == multiset(a)
    ensures ShuffleDown(a, i, rs).Ok? && Distinct(a) ==> Distinct(ShuffleDown(a, i, rs).value.got)
    decreases i
  {
    if i > 0 && |rs| > 0 {
      var b := Swap(a, i, SwapPartner(rs[0], i));
      ValidTail(rs);
      SwapPermutes(a, i, SwapPartner(rs[0], i));
      ShuffleDownPermutes(b, i - 1, rs[1..]);
      assert ShuffleDown(a, i, rs) == ShuffleDown(b, i - 1, rs[1..]);
      if i <= |rs| {
        assert rs[1..][i - 1..] == rs[i..];
      }
    }
  }

  /** The whole shuffle: a permutation of its input that consumes one
      random value per position after the first. */
  function Shuffle<T(==)>(a: seq<T>, rs: Stream): (r: Result<Drawn<seq<T>>>)
    requires Valid(rs)
    ensures r.Ok? <==> |a| <= |rs| + 1
    ensures r.Ok? ==> |r.value.got| == |a| && multiset(r.value.got) == multiset(a)
    ensures r.Ok? && Distinct(a) ==> Distinct(r.value.got)
    ensures r.Ok? ==> SuffixOf(r.value.rest, rs) && |r.value.rest| + |a| == |rs| + (if |a| == 0 then 0 else 1)
  {
    if |a| == 0 then Ok(Drawn(a, rs))
    else
      ShuffleDownPermutes(a, |a| - 1, rs);
      ShuffleDown(a, |a| - 1, rs)
  }

  /** One iteration of the loop. */
  lemma ShuffleStep<T>(a: seq<T>, i: nat, rs: Stream)
    requires 0 < i < |a| && Valid(rs) && |rs| > 0
    ensures Valid(rs[1..])
    ensures ShuffleDown(a, i, rs) == ShuffleDown(Swap(a, i, SwapPartner(rs[0], i)), i - 1, rs[1..])
  {
    ValidTail(rs);
  }

  /** The source's in-place loop over an array, returning the shuffled
      contents; it computes exactly `Shuffle`. */
  method ShuffleArray<T(==)>(s: seq<T>, rs: Stream) returns (r: Result<Drawn<seq<T>>>)
    requires Valid(rs)
    ensures r == Shuffle(s, rs)
    ensures r.Ok? ==> multiset(r.value.got) == multiset(s)
  {
    if |s| == 0 {
      return Ok(Drawn(s, rs));
    }
    var a := new T[|s|](k requires 0 <= k < |s| => s[k]);
    var i: nat := |s| - 1;
    var rest := rs;
    ghost var goal := Shuffle(s, rs);
    ghost var cur := s;
    assert a[..] == s;
    assert ShuffleDown(cur, i, rest) == goal;
    while i > 0
      invariant i < a.Length == |cur|
      invariant a[..] == cur
      invariant Valid(rest)
      invariant ShuffleDown(cur, i, rest) == goal
      decreases i
    {
      if |rest| == 0 {
        return Err(RandomnessExhausted);
      }
      var j := SwapPartner(rest[0], i);
      ShuffleStep(cur, i, rest);
      a[i], a[j] := a[j], a[i];
      cur := Swap(cur, i, j);
      rest := rest[1..];
      i := i - 1;
    }
    return Ok(Drawn(a[..], rest));
  }
}
