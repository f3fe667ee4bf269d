/** Unsigned 64-bit integers. */
module Words {

  type Word = n: nat | n < 0x1_0000_0000_0000_0000

  /** What 64 bits keep of a number. */
  function Wrap(n: nat): Word {
    n % 0x1_0000_0000_0000_0000
  }

  lemma WrapTwice(a: nat, b: nat)
    ensures Wrap(Wrap(a) + b) == Wrap(a + b)
  {
  }
}
