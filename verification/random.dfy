/** Python's `random` module, as the generator uses it. Each draw is taken from
    a stream the caller supplies (a draw out of range is replaced by the lower
    bound). The contracts promise only what Python promises, so everything
    proved about a caller holds for every possible outcome of the draws. */
module Random {

  class Rng {
    var stream: seq<int>

    constructor (draws: seq<int>)
      ensures stream == draws
    {
      stream := draws;
    }

    /** `random.randint(lo, hi)`: an integer of the closed range [lo, hi].
        Python raises ValueError when the range is empty. */
    method RandInt(lo: int, hi: int) returns (r: int)
      requires lo <= hi
      modifies this
      ensures lo <= r <= hi
    {
      r := lo;
      if stream != [] {
        if lo <= stream[0] <= hi {
          r := stream[0];
        }
        stream := stream[1..];
      }
    }

    /** `random.random()`: a float of [0, 1). */
    method Random() returns (r: real)
      modifies this
      ensures 0.0 <= r < 1.0
    {
      var k := RandInt(0, 999);
      r := k as real / 1000.0;
    }

    /** `random.sample(population, k)`: k elements taken at distinct positions
        of the population, in random order. Python raises ValueError when k is
        larger than the population. */
    method Sample<T(==)>(population: seq<T>, k: nat) returns (s: seq<T>)
      requires k <= |population|
      modifies this
      ensures |s| == k
      ensures forall i :: 0 <= i < k ==> s[i] in population
      ensures (forall i, j :: 0 <= i < j < |population| ==> population[i] != population[j]) ==>
                (forall i, j :: 0 <= i < j < k ==> s[i] != s[j])
    {
      // pool holds the positions not taken yet
      var pool: seq<nat> := seq(|population|, i => i);
      var idx: seq<nat> := [];
      s := [];
      while |s| < k
        invariant |s| == |idx| <= k
        invariant |pool| + |idx| == |population|
        invariant forall i :: 0 <= i < |pool| ==> pool[i] < |population|
        invariant forall i :: 0 <= i < |idx| ==> idx[i] < |population| && s[i] == population[idx[i]]
        invariant forall i, j :: 0 <= i < j < |idx| ==> idx[i] != idx[j]
        invariant forall i, j :: 0 <= i < j < |pool| ==> pool[i] != pool[j]
        invariant forall i, j :: 0 <= i < |idx| && 0 <= j < |pool| ==> idx[i] != pool[j]
      {
        var p := RandInt(0, |pool| - 1);
        idx := idx + [pool[p]];
        s := s + [population[pool[p]]];
        pool := pool[..p] + pool[p + 1..];
      }
    }
  }
}
