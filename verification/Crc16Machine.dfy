/** The source's word-level loop is the bit-serial shift register, for data of any length. */
module Crc16Machine {
  import opened Words
  import opened BitStrings
  import opened ShiftRegister
  import opened Crc16

  lemma TapBits(i: nat)
    requires i < 16
    ensures Bit(POLYNOMIAL, i) == TAPS[i]
  {
  }

  lemma PolynomialBits()
    ensures WordBits(POLYNOMIAL) == TAPS
  {
    forall i | 0 <= i < 16
      ensures WordBits(POLYNOMIAL)[i] == TAPS[i]
    {
      TapBits(i);
    }
  }

  lemma StepIsFeed(r: u16)
    ensures WordBits(Step(r)) == Feed(WordBits(r), false)
  {
    WordBitsShift(r);
    if Bit(r, 0) {
      WordBitsXor(r << 1, POLYNOMIAL);
      PolynomialBits();
    }
  }

  lemma {:induction false} StepsAdvance(r: u16, n: nat)
    ensures WordBits(Steps(r, n)) == Advance(WordBits(r), Zeros(n))
  {
    if n > 0 {
      StepsAdvance(r, n - 1);
      StepIsFeed(Steps(r, n - 1));
      assert Zeros(n) == Zeros(n - 1) + [false];
      AdvanceSnoc(WordBits(r), Zeros(n - 1), false);
    }
  }

  lemma ByteAdvances(r: u16, b: byte)
    ensures WordBits(Steps(Load(r, b), 8)) == Advance(WordBits(r), ByteBits(b))
  {
    StepsAdvance(Load(r, b), 8);
    WordBitsXor(r, (b as u16) << 8);
    WordBitsOfLoadedByte(b);
    LoadAtOnce(WordBits(r), ByteBits(b));
  }

  lemma {:induction false} RunAdvances(r: u16, data: seq<byte>)
    ensures WordBits(Run(r, data)) == Advance(WordBits(r), Bits(data))
  {
    if data != [] {
      var last := |data| - 1;
      RunAdvances(r, data[..last]);
      ByteAdvances(Run(r, data[..last]), data[last]);
      AdvanceConcat(WordBits(r), Bits(data[..last]), ByteBits(data[last]));
    }
  }
}
