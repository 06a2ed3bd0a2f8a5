/**
 * `hash_combine` from src/Utilities.h.
 *
 * `size_t` is 64 bits wide on the platforms the viewer targets, so seeds are
 * `bv64` and every `+`, `<<` and `>>` wraps exactly as the C++ unsigned
 * arithmetic does. `std::hash<T>` is library code whose values the program
 * never inspects; it is a parameter of every hashing function here.
 */
module Utilities {

  /** The additive constant of the combiner (the 32-bit golden ratio). */
  const GoldenRatio: bv64 := 0x9e3779b9

  /** The term folded into the seed: hash, constant and two shifts of the seed, all mod 2^64. */
  function Mix(seed: bv64, hv: bv64): bv64 {
    hv + GoldenRatio + (seed << 6) + (seed >> 2)
  }

  /**
   * One combining step: the new seed is the old one XOR-ed with a mix of the
   * hashed value and the old seed.
   */
  function HashCombine<T>(seed: bv64, v: T, hasher: T -> bv64): bv64
  {
    seed ^ Mix(seed, hasher(v))
  }

  /** From a zero seed one step yields the value's hash plus the constant. */
  lemma CombineFromZero<T>(v: T, hasher: T -> bv64)
    ensures HashCombine(0, v, hasher) == hasher(v) + GoldenRatio
  {
  }

  /**
   * Combining a whole sequence of values, first element first, as the
   * canonical hashes and the file-name hasher do with their components.
   */
  function CombineAll<T>(seed: bv64, vs: seq<T>, hasher: T -> bv64): bv64
    decreases |vs|
  {
    if |vs| == 0 then seed
    else CombineAll(HashCombine(seed, vs[0], hasher), vs[1..], hasher)
  }

  /** The fold combines the last value last: it is a left fold of `HashCombine`. */
  lemma {:induction false} CombineAllSnoc<T>(seed: bv64, vs: seq<T>, v: T, hasher: T -> bv64)
    ensures CombineAll(seed, vs + [v], hasher) == HashCombine(CombineAll(seed, vs, hasher), v, hasher)
    decreases |vs|
  {
    if |vs| == 0 {
      assert (vs + [v])[1..] == [];
    } else {
      assert (vs + [v])[1..] == vs[1..] + [v];
      CombineAllSnoc(HashCombine(seed, vs[0], hasher), vs[1..], v, hasher);
    }
  }

  /**
   * `hash_combine` reads the value only through its hasher: two sequences
   * whose elements hash alike, position by position, give the same seed.
   */
  lemma {:induction false} CombineAllThroughHasher<T, U>(
    seed: bv64, a: seq<T>, ha: T -> bv64, b: seq<U>, hb: U -> bv64)
    requires |a| == |b|
    requires forall i :: 0 <= i < |a| ==> ha(a[i]) == hb(b[i])
    ensures CombineAll(seed, a, ha) == CombineAll(seed, b, hb)
    decreases |a|
  {
    if |a| > 0 {
      CombineAllThroughHasher(HashCombine(seed, a[0], ha), a[1..], ha, b[1..], hb);
    }
  }
}
