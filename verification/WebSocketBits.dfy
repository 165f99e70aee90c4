/** The single-bit tests, masks and exclusive or that the client computes on machine bytes are the
    operations on numbers and binary digits that the wire format is written in. */
module WebSocketBits {
  import opened WebSocketFrames

  function Number(b: bv8): Byte {
    b as int
  }

  /** What the masks 0x80, 0x7F and 0x0F select, and what 0x80 adds. */
  lemma BitsAreDigits(b: bv8)
    ensures HighBit(Number(b)) <==> b & 0x80 != 0
    ensures LowSeven(Number(b)) == Number(b & 0x7F)
    ensures LowFour(Number(b)) == Number(b & 0x0F)
    ensures b < 128 ==> WithHighBit(true, Number(b)) == Number(0x80 | b)
  {
    assert b & 0x7F == b % 128 && b & 0x0F == b % 16;
    assert b < 128 ==> 0x80 | b == 128 + b;
  }

  // ----- exclusive or, digit by digit

  function Half(b: bv8): bv8 {
    b / 2
  }

  function BitwiseXor(a: bv8, b: bv8): bv8 {
    a ^ b
  }

  lemma XorByHalves(a: bv8, b: bv8)
    ensures a ^ b == (if a % 2 == b % 2 then 0 else 1) + 2 * ((a / 2) ^ (b / 2))
    ensures (a / 2) ^ (b / 2) < 128
  {}

  lemma NumbersHalve(b: bv8)
    ensures Number(Half(b)) == Number(b) / 2 && Number(b % 2) == Number(b) % 2
  {}

  lemma NumbersDouble(d: bv8, h: bv8)
    requires d < 2 && h < 128
    ensures Number(d + 2 * h) == Number(d) + 2 * Number(h)
  {}

  lemma NumbersAreEqual(a: bv8, b: bv8)
    ensures a == b <==> Number(a) == Number(b)
  {}

  lemma ParitiesAreEqual(a: bv8, b: bv8)
    ensures a % 2 == b % 2 <==> Number(a) % 2 == Number(b) % 2
  {
    hide Number;
    NumbersHalve(a);
    NumbersHalve(b);
    NumbersAreEqual(a % 2, b % 2);
  }

  lemma XorStep(a: bv8, b: bv8)
    ensures Number(BitwiseXor(a, b))
         == (if Number(a) % 2 == Number(b) % 2 then 0 else 1) + 2 * Number(BitwiseXor(Half(a), Half(b)))
  {
    var digit: bv8 := if a % 2 == b % 2 then 0 else 1;
    assert Number(digit) == if a % 2 == b % 2 then 0 else 1;
    hide Number;
    XorByHalves(a, b);
    NumbersDouble(digit, (a / 2) ^ (b / 2));
    ParitiesAreEqual(a, b);
  }

  lemma XorOfZeros(a: bv8, b: bv8)
    requires Number(a) == 0 && Number(b) == 0
    ensures Number(BitwiseXor(a, b)) == 0
  {
    assert a == 0 && b == 0;
  }

  lemma {:induction false} XorDigitsAreBitwise(a: bv8, b: bv8, width: nat)
    requires Number(a) < Power2(width) && Number(b) < Power2(width)
    ensures XorDigits(Number(a), Number(b), width) == Number(BitwiseXor(a, b))
    decreases width
  {
    hide Number, Half, BitwiseXor;
    if width == 0 {
      XorOfZeros(a, b);
    } else {
      NumbersHalve(a);
      NumbersHalve(b);
      XorDigitsAreBitwise(Half(a), Half(b), width - 1);
      XorStep(a, b);
    }
  }

  /** Masking a byte is the machine's exclusive or. */
  lemma XorIsBitwise(a: bv8, b: bv8)
    ensures Xor(Number(a), Number(b)) == Number(a ^ b)
  {
    hide Number;
    EightDigits();
    XorDigitsAreBitwise(a, b, 8);
  }
}
