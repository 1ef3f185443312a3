/** Sets of small numbers kept as the bits of one 64-bit word, as the cron fields are. */
module Bits {
  const WIDTH: nat := 64

  function Double(x: bv64): bv64 {
    x << 1
  }

  function Doubled(value: nat): bv64 {
    if value == 0 then 1 else Double(Doubled(value - 1))
  }

  /** 1 << value */
  function Bit(value: nat): bv64 {
    Doubled(value)
  }

  predicate Meets(x: bv64, y: bv64) {
    x & y != 0
  }

  predicate BitSet(mask: bv64, value: nat) {
    Meets(mask, Bit(value))
  }

  // ---------------------------------------------------------------- facts about single words

  lemma DoubleClearsLow(x: bv64)
    ensures 1 & Double(x) == 0
  {
  }

  lemma DoubleDistributes(x: bv64, y: bv64)
    ensures Double(x) & Double(y) == Double(x & y)
  {
  }

  lemma EightDoublings(x: bv64)
    ensures Double(Double(Double(Double(Double(Double(Double(Double(x)))))))) == x << 8
  {
  }

  lemma OrDistributes(mask: bv64, x: bv64, y: bv64)
    ensures (mask | x) & y == (mask & y) | (x & y)
  {
  }

  lemma OrNonZero(x: bv64, y: bv64)
    ensures x | y != 0 <==> x != 0 || y != 0
  {
  }

  lemma OrMeets(mask: bv64, x: bv64, y: bv64)
    ensures Meets(mask | x, y) <==> Meets(mask, y) || Meets(x, y)
  {
    OrDistributes(mask, x, y);
    var a, b := mask & y, x & y;
    OrNonZero(a, b);
  }

  lemma AndNotKeeps(mask: bv64, x: bv64, y: bv64)
    requires x & y == 0
    ensures (mask & !x) & y == mask & y
  {
  }

  lemma AndNotMeets(mask: bv64, x: bv64, y: bv64)
    ensures !Meets(x, y) ==> (Meets(mask & !x, y) <==> Meets(mask, y))
    ensures !Meets(mask & !x, x)
  {
    if !Meets(x, y) {
      AndNotKeeps(mask, x, y);
    }
  }

  lemma AndIdempotent(x: bv64)
    ensures x & x == x
  {
  }

  lemma AndCommutes(x: bv64, y: bv64)
    ensures x & y == y & x
  {
  }

  // ---------------------------------------------------------------- distinct, non-zero bits

  lemma {:induction false} LowerBitDisjoint(a: nat, b: nat)
    requires a < b
    ensures Bit(a) & Bit(b) == 0
  {
    if a == 0 {
      DoubleClearsLow(Bit(b - 1));
    } else {
      LowerBitDisjoint(a - 1, b - 1);
      DoubleDistributes(Bit(a - 1), Bit(b - 1));
    }
  }

  lemma BitsDisjoint(a: nat, b: nat)
    requires a != b
    ensures Bit(a) & Bit(b) == 0
  {
    if a < b {
      LowerBitDisjoint(a, b);
    } else {
      LowerBitDisjoint(b, a);
      AndCommutes(Bit(a), Bit(b));
    }
  }

  lemma TwoUp(a: nat)
    ensures Doubled(a + 2) == Double(Double(Doubled(a)))
  {
    assert Doubled(a + 1) == Double(Doubled(a));
  }

  lemma EightUp(a: nat)
    ensures Doubled(a + 8) == Double(Double(Double(Double(Double(Double(Double(Double(Doubled(a)))))))))
  {
    TwoUp(a);
    TwoUp(a + 2);
    TwoUp(a + 4);
    TwoUp(a + 6);
  }

  lemma ByteUp(a: nat)
    ensures Doubled(a + 8) == Doubled(a) << 8
  {
    EightUp(a);
    EightDoublings(Doubled(a));
  }

  lemma TopBitNonZero()
    ensures Doubled(WIDTH - 1) != 0
  {
    assert Doubled(7) == 0x80;
    ByteUp(7);
    ByteUp(15);
    ByteUp(23);
    ByteUp(31);
    ByteUp(39);
    ByteUp(47);
    ByteUp(55);
  }

  lemma {:induction false} BitNonZero(a: nat)
    requires a < WIDTH
    ensures Doubled(a) != 0
    decreases WIDTH - a
  {
    if a == WIDTH - 1 {
      TopBitNonZero();
    } else {
      BitNonZero(a + 1);
    }
  }

  lemma BitMeetsOnlyItself(a: nat, b: nat)
    requires a < WIDTH
    ensures Meets(Bit(a), Bit(b)) <==> a == b
  {
    if a == b {
      BitNonZero(a);
      AndIdempotent(Bit(a));
    } else {
      BitsDisjoint(a, b);
    }
  }

  // ---------------------------------------------------------------- words as sets

  lemma OrMeetsBit(mask: bv64, a: nat, x: bv64, b: nat, y: bv64)
    requires a < WIDTH && x == Bit(a) && y == Bit(b)
    ensures Meets(mask | x, y) <==> a == b || Meets(mask, y)
  {
    BitMeetsOnlyItself(a, b);
    OrMeets(mask, x, y);
  }

  lemma AndNotMeetsBit(mask: bv64, a: nat, x: bv64, b: nat, y: bv64)
    requires a < WIDTH && x == Bit(a) && y == Bit(b)
    ensures Meets(mask & !x, y) <==> a != b && Meets(mask, y)
  {
    BitMeetsOnlyItself(a, b);
    AndNotMeets(mask, x, y);
  }

  lemma OrAdds(mask: bv64, a: nat, bit: bv64, b: nat)
    requires a < WIDTH && bit == Bit(a)
    ensures BitSet(mask | bit, b) <==> a == b || BitSet(mask, b)
  {
    OrMeetsBit(mask, a, bit, b, Bit(b));
  }

  lemma OrBit(mask: bv64, value: nat, bit: bv64)
    requires value < WIDTH && bit == Bit(value)
    ensures forall v: nat :: BitSet(mask | bit, v) <==> v == value || BitSet(mask, v)
  {
    forall v: nat
      ensures BitSet(mask | bit, v) <==> v == value || BitSet(mask, v)
    {
      OrAdds(mask, value, bit, v);
    }
  }

  lemma AndNotRemoves(mask: bv64, a: nat, bit: bv64, b: nat)
    requires a < WIDTH && bit == Bit(a)
    ensures BitSet(mask & !bit, b) <==> a != b && BitSet(mask, b)
  {
    AndNotMeetsBit(mask, a, bit, b, Bit(b));
  }
}
