// The generator's random source: a seeded engine (std::mt19937 in the
// original) read through uniform integer distributions on closed ranges.
// The engine's bits are not modelled: the k-th draw of a seeded source is
// an arbitrary function of the seed, of k and of the requested range,
// folded into that range.  Every law proved about the dungeon therefore
// holds for every engine, and UniformCovers shows that no in-range value
// is ruled out by the abstraction.

module Random {

  newtype uint32 = x: int | 0 <= x < 0x1_0000_0000

  /** Raw output of the engine for (seed, draw index, low, high). */
  type Oracle = (uint32, nat, int, int) -> nat

  /** Engine state: which engine, how it was seeded and how many draws
      have been taken from it since. */
  datatype Rng = Rng(oracle: Oracle, seed: uint32, draws: nat)

  /** `rng.seed(seed)`: a fresh state for the given seed. */
  function Seeded(oracle: Oracle, seed: uint32): (g: Rng)
    ensures g.draws == 0 && g.seed == seed
  {
    Rng(oracle, seed, 0)
  }

  /** `std::uniform_int_distribution<int>(lo, hi)(rng)`: a value in the
      closed range [lo, hi]; the state advances by one draw. */
  function Uniform(g: Rng, lo: int, hi: int): (r: (int, Rng))
    requires lo <= hi
    ensures lo <= r.0 <= hi
    ensures r.1 == Rng(g.oracle, g.seed, g.draws + 1)
  {
    (lo + g.oracle(g.seed, g.draws, lo, hi) % (hi - lo + 1), g.(draws := g.draws + 1))
  }

  /** `RandomBool()`: a draw from [0, 1] compared with 1. */
  function Bool(g: Rng): (r: (bool, Rng))
    ensures r.0 == (Uniform(g, 0, 1).0 == 1)
    ensures r.1 == Uniform(g, 0, 1).1
  {
    var (v, g') := Uniform(g, 0, 1);
    (v == 1, g')
  }

  /** Every value of the range is the outcome of some engine. */
  lemma UniformCovers(g: Rng, lo: int, hi: int, v: int)
    requires lo <= v <= hi
    ensures exists o: Oracle :: Uniform(g.(oracle := o), lo, hi).0 == v
  {
    var o: Oracle := (s: uint32, k: nat, l: int, h: int) => (v - lo) as nat;
    assert Uniform(g.(oracle := o), lo, hi).0 == v;
  }

  /** Both outcomes of a coin are possible. */
  lemma BoolCovers(g: Rng, b: bool)
    ensures exists o: Oracle :: Bool(g.(oracle := o)).0 == b
  {
    UniformCovers(g, 0, 1, if b then 1 else 0);
    var o: Oracle :| Uniform(g.(oracle := o), 0, 1).0 == (if b then 1 else 0);
    assert Bool(g.(oracle := o)).0 == b;
  }
}
