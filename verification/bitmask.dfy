/** A 256-bit mask in four 64-bit words. */
module Bitmask {

  type Mask = m: seq<bv64> | |m| == 4 witness [0, 0, 0, 0]

  const NO_BITS: Mask := [0, 0, 0, 0]

  function Bit(n: nat): bv64
    requires n < 64
  {
    (1 as bv64) << (n as bv6)
  }

  predicate Meets(word: bv64, bit: bv64) {
    word & bit != 0
  }

  predicate HasBit(m: Mask, bit: nat)
    requires bit < 256
  {
    Meets(m[bit / 64], Bit(bit % 64))
  }

  function WithBit(m: Mask, bit: nat): Mask
    requires bit < 256
  {
    m[bit / 64 := m[bit / 64] | Bit(bit % 64)]
  }

  lemma ShiftsDiffer(a: bv6, b: bv6)
    ensures a != b ==> ((1 as bv64) << a) & ((1 as bv64) << b) == 0
    ensures ((1 as bv64) << a) != 0
  {
  }

  lemma BackAndForth(n: nat)
    requires n < 64
    ensures (n as bv6) as int == n
  {
  }

  lemma BitsDiffer(a: nat, b: nat)
    requires a < 64 && b < 64
    ensures a != b ==> Bit(a) & Bit(b) == 0
    ensures Bit(a) != 0
  {
    BackAndForth(a);
    BackAndForth(b);
    var x, y := a as bv6, b as bv6;
    ShiftsDiffer(x, y);
  }

  lemma OrOther(word: bv64, a: bv64, b: bv64)
    requires a & b == 0
    ensures Meets(word | a, b) <==> Meets(word, b)
  {
  }

  lemma OrSelf(word: bv64, a: bv64)
    requires a != 0
    ensures Meets(word | a, a)
  {
  }

  lemma WordWithBit(word: bv64, a: nat, b: nat)
    requires a < 64 && b < 64
    ensures Meets(word | Bit(a), Bit(b)) <==> a == b || Meets(word, Bit(b))
  {
    BitsDiffer(a, b);
    var x, y := Bit(a), Bit(b);
    if a == b {
      OrSelf(word, x);
    } else {
      OrOther(word, x, y);
    }
  }

  /** Setting one bit sets that bit and no other, across all four words. */
  lemma WithBitExact(m: Mask, a: nat, b: nat)
    requires a < 256 && b < 256
    ensures HasBit(WithBit(m, a), b) <==> a == b || HasBit(m, b)
  {
    hide Bit, Meets;
    if a / 64 == b / 64 {
      WordWithBit(m[a / 64], a % 64, b % 64);
      assert a == b <==> a % 64 == b % 64;
    }
  }

  lemma ZeroMeetsNothing(bit: bv64)
    ensures !Meets(0, bit)
  {
  }

  lemma NoBitsIsEmpty(bit: nat)
    requires bit < 256
    ensures !HasBit(NO_BITS, bit)
  {
    ZeroMeetsNothing(Bit(bit % 64));
  }
}
