/** The linear congruential generator shared by the piece sequence
    (GenBricks in tetris_common.h) and the genetic driver (rand in
    genetic.py): both start from 12358 and step c := (c * 27073 + 17713) mod 32749. */
module Lcg {
  const Seed: nat := 12358
  const Multiplier: nat := 27073
  const Increment: nat := 17713
  const Modulus: nat := 32749

  /** One step of the generator; the result is always below the modulus. */
  function Next(c: nat): (r: nat)
    ensures r < Modulus
  {
    (c * Multiplier + Increment) % Modulus
  }

  /** The generator state after n steps from the seed. */
  function After(n: nat): (r: nat)
    ensures n > 0 ==> r < Modulus
  {
    if n == 0 then Seed else Next(After(n - 1))
  }

  /** Every state the generator reaches fits a 32-bit unsigned word, and so
      does the intermediate product c * 27073 + 17713 of the next step. */
  lemma {:induction false} NoOverflow(n: nat)
    ensures After(n) < 0x1_0000_0000
    ensures After(n) * Multiplier + Increment < 0x1_0000_0000
  {
    if n > 0 {
      assert After(n) < Modulus;
    }
  }
}
