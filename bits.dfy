/** Bit helpers of utils.h: ctz, popcnt, blsr and the set-bit iterator.
    Unsigned machine words are modelled as unbounded naturals; the bitwise
    operators are defined digit by digit, so every statement here holds for
    every word width wide enough to hold the operands. */
module Bits {

  function Pow2(n: nat): (r: nat)
    ensures r >= 1
  {
    if n == 0 then 1 else 2 * Pow2(n - 1)
  }

  lemma Pow2Values()
    ensures Pow2(4) == 16 && Pow2(10) == 1024 && Pow2(16) == 0x1_0000
    ensures Pow2(20) == 0x10_0000 && Pow2(32) == 0x1_0000_0000
  {
    assert Pow2(4) == 16;
    assert Pow2(8) == 256;
    assert Pow2(10) == 1024;
    assert Pow2(12) == 4096;
    assert Pow2(16) == 0x1_0000;
    assert Pow2(20) == 0x10_0000;
    assert Pow2(24) == 0x100_0000;
    assert Pow2(28) == 0x1000_0000;
  }

  /** Bit i of v (bit 0 is the least significant one). */
  predicate Bit(v: nat, i: nat)
  {
    if i == 0 then v % 2 == 1 else Bit(v / 2, i - 1)
  }

  /** a & b */
  function And(a: nat, b: nat): nat
  {
    if a == 0 || b == 0 then 0 else 2 * And(a / 2, b / 2) + (a % 2) * (b % 2)
  }

  /** 2^n - 1 has exactly the bits below n. */
  lemma {:induction false} LowMaskBit(n: nat, x: nat)
    ensures Bit(Pow2(n) - 1, x) == (x < n)
    decreases n
  {
    if n == 0 {
      BitZero(x);
    } else {
      assert (Pow2(n) - 1) / 2 == Pow2(n - 1) - 1;
      if x > 0 {
        LowMaskBit(n - 1, x - 1);
      }
    }
  }

  /** Masking with 1 and with 3 keeps the remainder modulo 2 and 4. */
  lemma AndLowMasks(x: nat)
    ensures And(x, 0) == 0 && And(x, 1) == x % 2 && And(x, 3) == x % 4
  {
    AndOne(x);
    AndThree(x);
  }

  lemma AndThree(x: nat)
    ensures And(x, 3) == x % 4
  {
    if x > 0 {
      var q := x / 2;
      AndOne(q);
      var t := 2 * (q % 2) + x % 2;
      assert And(x, 3) == t;
      FourModulus(x, q / 2, t);
    }
  }

  lemma FourModulus(x: nat, k: nat, t: nat)
    requires x == 4 * k + t && t < 4
    ensures x % 4 == t
  {
  }

  lemma AndOne(x: nat)
    ensures And(x, 1) == x % 2
  {
    if x > 0 {
      assert And(x / 2, 0) == 0;
    }
  }

  /** a | b */
  function Or(a: nat, b: nat): nat
  {
    if a == 0 then b
    else if b == 0 then a
    else 2 * Or(a / 2, b / 2) + (if a % 2 == 1 || b % 2 == 1 then 1 else 0)
  }

  /** a ^ b */
  function Xor(a: nat, b: nat): nat
  {
    if a == 0 then b
    else if b == 0 then a
    else 2 * Xor(a / 2, b / 2) + (if a % 2 != b % 2 then 1 else 0)
  }

  /** a & ~b */
  function AndNot(a: nat, b: nat): nat
  {
    if a == 0 then 0
    else if b == 0 then a
    else 2 * AndNot(a / 2, b / 2) + (if a % 2 == 1 && b % 2 == 0 then 1 else 0)
  }

  // ---------------------------------------------------------------------
  // Bit-level characterisations of the operators

  lemma {:induction false} BitZero(i: nat)
    ensures !Bit(0, i)
  {
    if i > 0 { BitZero(i - 1); }
  }

  /** Two naturals with the same bits are equal. */
  lemma {:induction false} BitsExt(a: nat, b: nat)
    requires forall i: nat :: Bit(a, i) == Bit(b, i)
    ensures a == b
    decreases a + b
  {
    assert Bit(a, 0) == Bit(b, 0);
    if a != 0 || b != 0 {
      forall i: nat ensures Bit(a / 2, i) == Bit(b / 2, i) {
        assert Bit(a, i + 1) == Bit(b, i + 1);
      }
      BitsExt(a / 2, b / 2);
    }
  }

  lemma {:induction false} AndBit(a: nat, b: nat, i: nat)
    ensures Bit(And(a, b), i) == (Bit(a, i) && Bit(b, i))
    decreases i
  {
    if a == 0 || b == 0 {
      BitZero(i);
    } else if i > 0 {
      AndBit(a / 2, b / 2, i - 1);
    }
  }

  lemma {:induction false} OrBit(a: nat, b: nat, i: nat)
    ensures Bit(Or(a, b), i) == (Bit(a, i) || Bit(b, i))
    decreases i
  {
    if a == 0 {
      BitZero(i);
    } else if b == 0 {
      BitZero(i);
    } else if i > 0 {
      OrBit(a / 2, b / 2, i - 1);
    }
  }

  lemma {:induction false} XorBit(a: nat, b: nat, i: nat)
    ensures Bit(Xor(a, b), i) == (Bit(a, i) != Bit(b, i))
    decreases i
  {
    if a == 0 {
      BitZero(i);
    } else if b == 0 {
      BitZero(i);
    } else if i > 0 {
      XorBit(a / 2, b / 2, i - 1);
    }
  }

  lemma {:induction false} AndNotBit(a: nat, b: nat, i: nat)
    ensures Bit(AndNot(a, b), i) == (Bit(a, i) && !Bit(b, i))
    decreases i
  {
    if a == 0 {
      BitZero(i);
    } else if b == 0 {
      BitZero(i);
    } else if i > 0 {
      AndNotBit(a / 2, b / 2, i - 1);
    }
  }

  lemma {:induction false} Pow2Bit(k: nat, i: nat)
    ensures Bit(Pow2(k), i) == (i == k)
    decreases i
  {
    if i == 0 {
    } else if k == 0 {
      BitZero(i - 1);
    } else {
      Pow2Bit(k - 1, i - 1);
    }
  }

  /** A value below 2^w has no bit at or above position w. */
  lemma {:induction false} BitBelowPow2(v: nat, w: nat, i: nat)
    requires v < Pow2(w) && i >= w
    ensures !Bit(v, i)
    decreases i
  {
    if w == 0 {
      BitZero(i);
    } else {
      BitBelowPow2(v / 2, w - 1, i - 1);
    }
  }

  /** A value whose bits all lie below position w is below 2^w. */
  lemma {:induction false} BoundFromBits(v: nat, w: nat)
    requires forall i: nat :: i >= w ==> !Bit(v, i)
    ensures v < Pow2(w)
    decreases w
  {
    if w == 0 {
      forall i: nat ensures Bit(v, i) == Bit(0, i) { BitZero(i); }
      BitsExt(v, 0);
    } else {
      forall i: nat | i >= w - 1 ensures !Bit(v / 2, i) {
        assert !Bit(v, i + 1);
      }
      BoundFromBits(v / 2, w - 1);
    }
  }

  lemma AndBound(a: nat, b: nat, w: nat)
    requires a < Pow2(w) || b < Pow2(w)
    ensures And(a, b) < Pow2(w)
  {
    forall i: nat | i >= w ensures !Bit(And(a, b), i) {
      AndBit(a, b, i);
      if a < Pow2(w) { BitBelowPow2(a, w, i); } else { BitBelowPow2(b, w, i); }
    }
    BoundFromBits(And(a, b), w);
  }

  lemma OrBound(a: nat, b: nat, w: nat)
    requires a < Pow2(w) && b < Pow2(w)
    ensures Or(a, b) < Pow2(w)
  {
    forall i: nat | i >= w ensures !Bit(Or(a, b), i) {
      OrBit(a, b, i);
      BitBelowPow2(a, w, i);
      BitBelowPow2(b, w, i);
    }
    BoundFromBits(Or(a, b), w);
  }

  lemma XorBound(a: nat, b: nat, w: nat)
    requires a < Pow2(w) && b < Pow2(w)
    ensures Xor(a, b) < Pow2(w)
  {
    forall i: nat | i >= w ensures !Bit(Xor(a, b), i) {
      XorBit(a, b, i);
      BitBelowPow2(a, w, i);
      BitBelowPow2(b, w, i);
    }
    BoundFromBits(Xor(a, b), w);
  }

  lemma AndNotBound(a: nat, b: nat, w: nat)
    requires a < Pow2(w)
    ensures AndNot(a, b) < Pow2(w)
  {
    forall i: nat | i >= w ensures !Bit(AndNot(a, b), i) {
      AndNotBit(a, b, i);
      BitBelowPow2(a, w, i);
    }
    BoundFromBits(AndNot(a, b), w);
  }

  /** The bits of a + 2^n * b, for a below 2^n: those of a below position n,
      those of b shifted up by n from there on. */
  lemma {:induction false} BitConcat(a: nat, b: nat, n: nat, i: nat)
    requires a < Pow2(n)
    ensures Bit(a + Pow2(n) * b, i) == if i < n then Bit(a, i) else Bit(b, i - n)
    decreases n
  {
    if n > 0 {
      var k := Pow2(n - 1) * b;
      assert Pow2(n) * b == 2 * k;
      assert (a + 2 * k) / 2 == a / 2 + k;
      assert (a + 2 * k) % 2 == a % 2;
      if i > 0 {
        BitConcat(a / 2, b, n - 1, i - 1);
      }
    }
  }

  /** v | (1 << n) adds 2^n when v lies below 2^n. */
  lemma OrTop(a: nat, n: nat)
    requires a < Pow2(n)
    ensures Or(a, Pow2(n)) == a + Pow2(n)
  {
    forall i: nat ensures Bit(Or(a, Pow2(n)), i) == Bit(a + Pow2(n) * 1, i) {
      OrBit(a, Pow2(n), i);
      Pow2Bit(n, i);
      BitConcat(a, 1, n, i);
      if i >= n {
        BitBelowPow2(a, n, i);
        Pow2Bit(0, i - n);
      }
    }
    BitsExt(Or(a, Pow2(n)), a + Pow2(n) * 1);
  }

  /** v & (1 << i) is non-zero exactly when bit i of v is set. */
  lemma AndPow2(v: nat, i: nat)
    ensures (And(v, Pow2(i)) != 0) == Bit(v, i)
  {
    AndBit(v, Pow2(i), i);
    Pow2Bit(i, i);
    if And(v, Pow2(i)) == 0 {
      BitZero(i);
    }
  }

  // ---------------------------------------------------------------------
  // popcnt (utils.h:26-37)

  /** Number of set bits of v. */
  function Popcnt(v: nat): nat
  {
    if v == 0 then 0 else v % 2 + Popcnt(v / 2)
  }

  /** popcnt of a w-bit word lies in [0, w]. */
  lemma {:induction false} PopcntBound(v: nat, w: nat)
    requires v < Pow2(w)
    ensures Popcnt(v) <= w
    decreases w
  {
    if w > 0 && v > 0 {
      PopcntBound(v / 2, w - 1);
    }
  }

  /** popcnt is zero exactly for zero. */
  lemma PopcntZero(v: nat)
    ensures (Popcnt(v) == 0) == (v == 0)
  {
    if v != 0 && v % 2 == 0 {
      assert v / 2 != 0;
      PopcntZero(v / 2);
    }
  }

  /** Adding a bit above all set bits adds one to popcnt. */
  lemma {:induction false} PopcntAddTop(a: nat, n: nat)
    requires a < Pow2(n)
    ensures Popcnt(a + Pow2(n)) == Popcnt(a) + 1
    decreases n
  {
    if n > 0 {
      var p := Pow2(n - 1);
      PopcntAddTop(a / 2, n - 1);
      assert a + Pow2(n) == 2 * (a / 2 + p) + a % 2;
      assert (a + Pow2(n)) / 2 == a / 2 + p && (a + Pow2(n)) % 2 == a % 2;
    }
  }

  /** popcnt of a + 2^n * b, for a below 2^n, counts the bits of both. */
  lemma {:induction false} PopcntConcat(a: nat, b: nat, n: nat)
    requires a < Pow2(n)
    ensures Popcnt(a + Pow2(n) * b) == Popcnt(a) + Popcnt(b)
    decreases n
  {
    if n > 0 {
      var k := Pow2(n - 1) * b;
      var m := a + Pow2(n) * b;
      assert m == a % 2 + 2 * (a / 2 + k);
      assert m / 2 == a / 2 + k && m % 2 == a % 2;
      PopcntConcat(a / 2, b, n - 1);
      if m == 0 {
        assert b == 0;
      }
    }
  }

  // ---------------------------------------------------------------------
  // ctz (utils.h:7-16) and blsr (utils.h:39-41)

  /** Index of the lowest set bit; the argument must be non-zero. */
  function Ctz(v: nat): (r: nat)
    requires v != 0
    ensures Bit(v, r)
    ensures forall i: nat :: i < r ==> !Bit(v, i)
  {
    if v % 2 == 1 then 0 else
      assert v / 2 != 0;
      var c := Ctz(v / 2);
      1 + c
  }

  /** The lowest set bit of a + 2^n * b, for a below 2^n: the lowest bit of
      a when a has one, otherwise n above the lowest bit of b. */
  lemma CtzConcat(a: nat, b: nat, n: nat)
    requires a < Pow2(n) && a + Pow2(n) * b != 0
    ensures a != 0 ==> Ctz(a + Pow2(n) * b) == Ctz(a) && Ctz(a) < n
    ensures a == 0 ==> b != 0 && Ctz(a + Pow2(n) * b) == n + Ctz(b)
  {
    var v := a + Pow2(n) * b;
    var c := Ctz(v);
    BitConcat(a, b, n, c);
    if a != 0 {
      var ca := Ctz(a);
      if ca >= n { BitBelowPow2(a, n, ca); }
      BitConcat(a, b, n, ca);
    } else {
      assert b != 0;
      var cb := Ctz(b);
      BitConcat(a, b, n, n + cb);
      if c < n { BitZero(c); }
    }
  }

  /** x & (x - 1) on an unsigned word: 0 stays 0, since 0 - 1 wraps to all ones. */
  function Blsr(v: nat): nat
  {
    if v == 0 then 0 else And(v, v - 1)
  }

  lemma {:induction false} AndOddPredecessor(w: nat)
    ensures And(2 * w + 1, 2 * w) == 2 * w
  {
    AndSelf(w);
  }

  lemma {:induction false} AndSelf(w: nat)
    ensures And(w, w) == w
  {
    if w != 0 { AndSelf(w / 2); }
  }

  /** blsr halves with its argument: blsr(2w) = 2 blsr(w) and blsr(2w+1) = 2w. */
  lemma BlsrStep(v: nat)
    requires v != 0
    ensures v % 2 == 1 ==> Blsr(v) == v - 1
    ensures v % 2 == 0 ==> Blsr(v) == 2 * Blsr(v / 2)
  {
    if v % 2 == 1 {
      AndOddPredecessor(v / 2);
    } else {
      assert v - 1 == 2 * (v / 2 - 1) + 1;
      assert (v - 1) / 2 == v / 2 - 1;
    }
  }

  /** blsr clears exactly the lowest set bit. */
  lemma {:induction false} BlsrBit(v: nat, i: nat)
    requires v != 0
    ensures Bit(Blsr(v), i) == (Bit(v, i) && i != Ctz(v))
    decreases v
  {
    BlsrStep(v);
    if v % 2 == 1 {
      if i > 0 {
        assert (v - 1) / 2 == v / 2;
      }
    } else {
      assert v / 2 != 0;
      if i > 0 {
        BlsrBit(v / 2, i - 1);
        assert (2 * Blsr(v / 2)) / 2 == Blsr(v / 2);
      }
    }
  }

  /** blsr removes one set bit and lowers the value. */
  lemma {:induction false} BlsrPopcnt(v: nat)
    requires v != 0
    ensures Popcnt(Blsr(v)) == Popcnt(v) - 1
    ensures Blsr(v) < v
    decreases v
  {
    BlsrStep(v);
    if v % 2 == 0 {
      assert v / 2 != 0;
      BlsrPopcnt(v / 2);
      assert (2 * Blsr(v / 2)) / 2 == Blsr(v / 2);
    } else {
      assert (v - 1) / 2 == v / 2;
    }
  }

  // ---------------------------------------------------------------------
  // set_bits (utils.h:67-104)

  /** The values an iterator over the set bits of v yields, in order. */
  function SetBits(v: nat): seq<nat>
    decreases v
  {
    if v == 0 then [] else
      BlsrPopcnt(v);
      [Ctz(v)] + SetBits(Blsr(v))
  }

  /** set_bits(v) yields exactly the indices of the set bits of v, in
      strictly ascending order, popcnt(v) of them. */
  lemma {:induction false} SetBitsSpec(v: nat)
    ensures forall i: nat :: i in SetBits(v) <==> Bit(v, i)
    ensures forall j, k :: 0 <= j < k < |SetBits(v)| ==> SetBits(v)[j] < SetBits(v)[k]
    ensures |SetBits(v)| == Popcnt(v)
    decreases v
  {
    if v == 0 {
      forall i: nat ensures !Bit(v, i) { BitZero(i); }
    } else {
      BlsrPopcnt(v);
      SetBitsSpec(Blsr(v));
      forall i: nat ensures i in SetBits(v) <==> Bit(v, i) {
        BlsrBit(v, i);
      }
      forall k | 0 < k < |SetBits(v)| ensures Ctz(v) < SetBits(v)[k] {
        var x := SetBits(Blsr(v))[k - 1];
        assert x in SetBits(Blsr(v));
        BlsrBit(v, x);
      }
    }
  }

  /** The iterator object over set bits (BitIterator in utils.h). */
  class BitIterator {
    var v: nat

    constructor (v0: nat)
      ensures v == v0
    {
      v := v0;
    }

    /** operator*: the index of the lowest remaining set bit. */
    function Current(): (r: nat)
      reads this
      requires v != 0
      ensures r == SetBits(v)[0]
    {
      Ctz(v)
    }

    /** operator++: drop the lowest remaining set bit. */
    method Advance()
      requires v != 0
      modifies this
      ensures v == Blsr(old(v))
      ensures SetBits(old(v)) == [old(Current())] + SetBits(v)
    {
      v := Blsr(v);
    }
  }

  // ---------------------------------------------------------------------
  // IteratorRange<BitIterator> (utils.h:44-65)

  /** A pair of iterator positions, each standing for the word still to scan. */
  datatype BitRange = BitRange(lo: nat, hi: nat)
  {
    /** std::distance(lo, hi): the number of increments from lo to hi
        (hi must be reachable, as it is for set_bits, whose hi is 0). */
    function Size(): (r: nat)
      requires hi == 0
      ensures r == Popcnt(lo)
      ensures r == |SetBits(lo)|
      decreases lo
    {
      if lo == hi then 0 else
        BlsrPopcnt(lo);
        SetBitsSpec(lo);
        1 + BitRange(Blsr(lo), hi).Size()
    }

    predicate Empty()
    {
      lo == hi
    }
  }

  /** set_bits(v): the range from an iterator at v to the end iterator at 0. */
  function SetBitsRange(v: nat): (r: BitRange)
    ensures r.hi == 0
    ensures r.Empty() <==> r.Size() == 0
  {
    PopcntZero(v);
    BitRange(v, 0)
  }
}
