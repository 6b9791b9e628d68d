/** The random stream. std::default_random_engine is minstd_rand0 in
    libstdc++; std::shuffle is a Fisher-Yates pass over the vector. Callers
    rely only on a shuffle producing a permutation. */
module Random {

  /** minstd_rand0: x' = 16807 * x mod (2^31 - 1). */
  const Modulus: nat := 2147483647
  const Multiplier: nat := 16807

  class Engine {
    var x: nat

    /** engine.seed(s): s mod m, with 0 replaced by 1 (also the default seed). */
    constructor (seed: nat)
      ensures x == (if seed % Modulus == 0 then 1 else seed % Modulus)
    {
      x := if seed % Modulus == 0 then 1 else seed % Modulus;
    }

    /** Draws a value below n. */
    method Below(n: nat) returns (r: nat)
      requires n > 0
      modifies this
      ensures r < n
      ensures x == old(x) * Multiplier % Modulus
    {
      x := x * Multiplier % Modulus;
      r := x % n;
    }
  }

  /** std::shuffle: some permutation of s, chosen by the engine. */
  method Shuffle<T>(s: seq<T>, engine: Engine) returns (r: seq<T>)
    modifies engine
    ensures |r| == |s| && multiset(r) == multiset(s)
  {
    r := s;
    var i := |r|;
    while i > 1
      invariant 0 <= i <= |r| == |s|
      invariant multiset(r) == multiset(s)
    {
      var j := engine.Below(i);
      i := i - 1;
      r := r[i := r[j]][j := r[i]];
    }
  }
}
