/** The integer mixing behind the CRC in `__hashmap_hash_int` of `tuya_hashmap.c`. */
module Mixing {
  import opened Crc

  // The 32-bit operations, named so that a proof can treat them as given where only their laws matter.

  function Down2(x: bv32): bv32 { x >> 2 }
  function Down4(x: bv32): bv32 { x >> 4 }
  function Down8(x: bv32): bv32 { x >> 8 }
  function Down9(x: bv32): bv32 { x >> 9 }
  function Down12(x: bv32): bv32 { x >> 12 }
  function Down16(x: bv32): bv32 { x >> 16 }
  function Down22(x: bv32): bv32 { x >> 22 }

  // Multiplication modulo 2^32.
  function Times4097(k: bv32): bv32 { k * 4097 }
  function Times17(k: bv32): bv32 { k * 17 }
  function Times1025(k: bv32): bv32 { k * 1025 }
  function Times129(k: bv32): bv32 { k * 129 }
  function EighthTimesKnuth(k: bv32): bv32 { (k / 8) * 2654435761 }

  function ShiftAdd12(k: bv32): bv32 { k + (k << 12) }
  function ShiftXor22(k: bv32): bv32 { Xor(k, Down22(k)) }
  function ShiftAdd4(k: bv32): bv32 { k + (k << 4) }
  function ShiftXor9(k: bv32): bv32 { Xor(k, Down9(k)) }
  function ShiftAdd10(k: bv32): bv32 { k + (k << 10) }
  function ShiftXor2(k: bv32): bv32 { Xor(k, Down2(k)) }
  function ShiftAdd7(k: bv32): bv32 { k + (k << 7) }
  function ShiftXor12(k: bv32): bv32 { Xor(k, Down12(k)) }
  function Knuth(k: bv32): bv32 { (k >> 3) * 2654435761 }

  /** Robert Jenkins' mix, then Knuth's multiplication; everything wraps at 32 bits. */
  function Mix(k: bv32): bv32 {
    Knuth(ShiftXor12(ShiftAdd7(ShiftXor2(ShiftAdd10(ShiftXor9(ShiftAdd4(ShiftXor22(ShiftAdd12(k)))))))))
  }

  // ---------- What the steps are ----------

  function Low(x: bv32): bool { x & 1 == 1 }

  lemma LowOfXor(x: bv32, y: bv32)
    ensures Low(Xor(x, y)) <==> Low(x) != Low(y)
  {
    LowBitXor(x, y);
    LowBitXor(y, x);
  }

  /** Bit i of a number; from bit 32 on there is none. */
  function Bit(x: bv32, i: nat): bool {
    if i == 0 then Low(x) else Bit(Half(x), i - 1)
  }

  lemma {:induction false} BitsOfXor(x: bv32, y: bv32, i: nat)
    ensures Bit(Xor(x, y), i) <==> Bit(x, i) != Bit(y, i)
    decreases i
  {
    hide Low, Xor, Half;
    HalfXor(x, y);
    LowOfXor(x, y);
    if i > 0 { BitsOfXor(Half(x), Half(y), i - 1); }
  }

  lemma Down2Is(x: bv32)
    ensures Down2(x) == Half(Half(x))
  {
  }

  lemma Down4Is(x: bv32)
    ensures Down4(x) == Down2(Down2(x))
  {
  }

  lemma Down8Is(x: bv32)
    ensures Down8(x) == Down4(Down4(x))
  {
  }

  lemma Down9Is(x: bv32)
    ensures Down9(x) == Half(Down8(x))
  {
  }

  lemma Down12Is(x: bv32)
    ensures Down12(x) == Down4(Down8(x))
  {
  }

  lemma Down16Is(x: bv32)
    ensures Down16(x) == Down8(Down8(x))
  {
  }

  lemma Down22Is(x: bv32)
    ensures Down22(x) == Down2(Down4(Down16(x)))
  {
  }

  lemma BitOfHalf(x: bv32, i: nat)
    ensures Bit(Half(x), i) == Bit(x, i + 1)
  {
  }

  lemma BitsOfDown2(x: bv32, i: nat)
    ensures Bit(Down2(x), i) == Bit(x, i + 2)
  {
    hide Down2, Half, Low;
    Down2Is(x);
    BitOfHalf(Half(x), i);
    BitOfHalf(x, i + 1);
  }

  lemma BitsOfDown4(x: bv32, i: nat)
    ensures Bit(Down4(x), i) == Bit(x, i + 4)
  {
    hide Bit, Down4, Down2;
    Down4Is(x);
    BitsOfDown2(Down2(x), i);
    BitsOfDown2(x, i + 2);
  }

  lemma BitsOfDown8(x: bv32, i: nat)
    ensures Bit(Down8(x), i) == Bit(x, i + 8)
  {
    hide Bit, Down8, Down4;
    Down8Is(x);
    BitsOfDown4(Down4(x), i);
    BitsOfDown4(x, i + 4);
  }

  lemma BitsOfDown9(x: bv32, i: nat)
    ensures Bit(Down9(x), i) == Bit(x, i + 9)
  {
    hide Bit, Down9, Half, Down8;
    Down9Is(x);
    BitOfHalf(Down8(x), i);
    BitsOfDown8(x, i + 1);
  }

  lemma BitsOfDown12(x: bv32, i: nat)
    ensures Bit(Down12(x), i) == Bit(x, i + 12)
  {
    hide Bit, Down12, Down4, Down8;
    Down12Is(x);
    BitsOfDown4(Down8(x), i);
    BitsOfDown8(x, i + 4);
  }

  lemma BitsOfDown16(x: bv32, i: nat)
    ensures Bit(Down16(x), i) == Bit(x, i + 16)
  {
    hide Bit, Down16, Down8;
    Down16Is(x);
    BitsOfDown8(Down8(x), i);
    BitsOfDown8(x, i + 8);
  }

  lemma BitsOfDown22(x: bv32, i: nat)
    ensures Bit(Down22(x), i) == Bit(x, i + 22)
  {
    hide Bit, Down22, Down2, Down4, Down16;
    Down22Is(x);
    BitsOfDown2(Down4(Down16(x)), i);
    BitsOfDown4(Down16(x), i + 2);
    BitsOfDown16(x, i + 6);
  }

  lemma Xor22Bits(k: bv32, i: nat)
    ensures Bit(ShiftXor22(k), i) <==> Bit(k, i) != Bit(k, i + 22)
  {
    hide Bit, Xor, Down22;
    BitsOfDown22(k, i);
    BitsOfXor(k, Down22(k), i);
  }

  lemma Xor9Bits(k: bv32, i: nat)
    ensures Bit(ShiftXor9(k), i) <==> Bit(k, i) != Bit(k, i + 9)
  {
    hide Bit, Xor, Down9;
    BitsOfDown9(k, i);
    BitsOfXor(k, Down9(k), i);
  }

  lemma Xor2Bits(k: bv32, i: nat)
    ensures Bit(ShiftXor2(k), i) <==> Bit(k, i) != Bit(k, i + 2)
  {
    hide Bit, Xor, Down2;
    BitsOfDown2(k, i);
    BitsOfXor(k, Down2(k), i);
  }

  lemma Xor12Bits(k: bv32, i: nat)
    ensures Bit(ShiftXor12(k), i) <==> Bit(k, i) != Bit(k, i + 12)
  {
    hide Bit, Xor, Down12;
    BitsOfDown12(k, i);
    BitsOfXor(k, Down12(k), i);
  }

  lemma Add12IsTimes(k: bv32)
    ensures ShiftAdd12(k) == Times4097(k) == k * 4097
  {
  }

  lemma Add4IsTimes(k: bv32)
    ensures ShiftAdd4(k) == Times17(k) == k * 17
  {
  }

  lemma Add10IsTimes(k: bv32)
    ensures ShiftAdd10(k) == Times1025(k) == k * 1025
  {
  }

  lemma Add7IsTimes(k: bv32)
    ensures ShiftAdd7(k) == Times129(k) == k * 129
  {
  }

  lemma KnuthIs(k: bv32)
    ensures Knuth(k) == EighthTimesKnuth(k) == (k / 8) * 2654435761
  {
  }

  /** The mix told without its own steps: four multiplications modulo 2^32 in turn with four exclusive
      ors, in which bit i of the result is bit i xor bit i + s; and then an eighth of that, multiplied by
      Knuth's constant. */
  lemma MixSteps(k: bv32) returns (a: bv32, a': bv32, b: bv32, b': bv32, c: bv32, c': bv32, d: bv32, d': bv32)
    ensures a == Times4097(k) && b == Times17(a') && c == Times1025(b') && d == Times129(c')
    ensures forall i: nat :: Bit(a', i) <==> Bit(a, i) != Bit(a, i + 22)
    ensures forall i: nat :: Bit(b', i) <==> Bit(b, i) != Bit(b, i + 9)
    ensures forall i: nat :: Bit(c', i) <==> Bit(c, i) != Bit(c, i + 2)
    ensures forall i: nat :: Bit(d', i) <==> Bit(d, i) != Bit(d, i + 12)
    ensures Mix(k) == EighthTimesKnuth(d')
  {
    hide ShiftAdd12, ShiftXor22, ShiftAdd4, ShiftXor9, ShiftAdd10, ShiftXor2, ShiftAdd7, ShiftXor12, Knuth, Bit, Times4097, Times17, Times1025, Times129, EighthTimesKnuth;
    a, a' := ShiftAdd12(k), ShiftXor22(ShiftAdd12(k));
    Add12IsTimes(k);
    forall i: nat ensures Bit(a', i) <==> Bit(a, i) != Bit(a, i + 22) { Xor22Bits(a, i); }
    b, b' := ShiftAdd4(a'), ShiftXor9(ShiftAdd4(a'));
    Add4IsTimes(a');
    forall i: nat ensures Bit(b', i) <==> Bit(b, i) != Bit(b, i + 9) { Xor9Bits(b, i); }
    c, c' := ShiftAdd10(b'), ShiftXor2(ShiftAdd10(b'));
    Add10IsTimes(b');
    forall i: nat ensures Bit(c', i) <==> Bit(c, i) != Bit(c, i + 2) { Xor2Bits(c, i); }
    d, d' := ShiftAdd7(c'), ShiftXor12(ShiftAdd7(c'));
    Add7IsTimes(c');
    forall i: nat ensures Bit(d', i) <==> Bit(d, i) != Bit(d, i + 12) { Xor12Bits(d, i); }
    KnuthIs(d');
  }
}
