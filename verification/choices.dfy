/** The generators' `java.util.Random` (and `Math.random()`) as an explicit
    choice input. A `Random` is an arbitrary oracle: `draw(k)` is the raw
    value of the k-th draw and `next` counts the draws made so far, so every
    property proved about a generator holds for every sequence of choices. */
module Choices {

  datatype Random = Random(draw: nat -> nat, next: nat)

  /** The stream after one more draw. */
  function Advance(rng: Random): (r: Random)
    ensures r.draw == rng.draw && r.next == rng.next + 1
  {
    Random(rng.draw, rng.next + 1)
  }

  /** `random.nextInt(bound)`: a value in [0, bound); a non-positive bound
      throws in Java, so it is excluded. */
  function NextInt(rng: Random, bound: int): (r: (nat, Random))
    requires bound > 0
    ensures r.0 < bound
    ensures r.1 == Advance(rng)
  {
    (rng.draw(rng.next) % bound, Advance(rng))
  }

  /** `random.nextBoolean()`, and also the comparisons `nextDouble() < p` and
      `Math.random() < p`: only which branch is taken is modelled, not its odds. */
  function NextBool(rng: Random): (r: (bool, Random))
    ensures r.1 == Advance(rng) && r.1.draw == rng.draw && r.1.next == rng.next + 1
  {
    (rng.draw(rng.next) % 2 == 0, Advance(rng))
  }

  /** Every value below the bound is the outcome of some oracle, so the
      model does not rule out any choice the source could make. */
  lemma NextIntCoversRange(bound: int, v: nat)
    requires 0 <= v < bound
    ensures NextInt(Random(k => v, 0), bound).0 == v
  {
  }

  lemma NextBoolCoversBoth(b: bool)
    ensures NextBool(Random(k => if b then 0 else 1, 0)).0 == b
  {
  }

  function Swap<T>(s: seq<T>, a: int, b: int): (r: seq<T>)
    requires 0 <= a < |s| && 0 <= b < |s|
    ensures |r| == |s| && r[a] == s[b] && r[b] == s[a]
    ensures forall k :: 0 <= k < |s| && k != a && k != b ==> r[k] == s[k]
    ensures multiset(r) == multiset(s)
  {
    s[a := s[b]][b := s[a]]
  }

  /** The loop of `Collections.shuffle` from its counter `i` down:
      `for (i = size; i > 1; i--) swap(list, i - 1, rnd.nextInt(i))`. */
  function ShuffleFrom<T>(s: seq<T>, i: nat, rng: Random): (r: (seq<T>, Random))
    requires i <= |s|
    ensures multiset(r.0) == multiset(s) && |r.0| == |s|
    ensures r.1.draw == rng.draw && r.1.next == rng.next + (if i <= 1 then 0 else i - 1)
    decreases i
  {
    if i <= 1 then (s, rng)
    else
      var (j, rng1) := NextInt(rng, i);
      ShuffleFrom(Swap(s, i - 1, j), i - 1, rng1)
  }

  /** `Collections.shuffle(list, random)`: a permutation of the list. */
  function Shuffle<T>(s: seq<T>, rng: Random): (r: (seq<T>, Random))
    ensures multiset(r.0) == multiset(s) && |r.0| == |s|
    ensures r.1.draw == rng.draw && r.1.next >= rng.next
  {
    ShuffleFrom(s, |s|, rng)
  }
}
