/** The CRC is the remainder of a polynomial division, and no other word is. */
module Crc16Division {
  import opened Words
  import opened BitStrings
  import opened ShiftRegister
  import opened Polynomials
  import opened Crc16
  import opened Crc16Machine

  /**
   With M the data read most significant bit first, the CRC of n bytes is the one word whose polynomial is the
   remainder of 0xFFFF x^(8n) + M x^16 by x^16 + x^12 + x^5 + 1.
   */
  lemma CrcIsTheRemainder(data: seq<byte>, word: u16)
    ensures word == Crc(data) <==>
            IsRemainder(Add(Shift(PolyOf(WordBits(0xFFFF)), 8 * |data|), Shift(PolyOf(Bits(data)), 16)), PolyOf(WordBits(word)))
  {
    var dividend := Dividend(WordBits(SEED), Bits(data));
    RunAdvances(SEED, data);
    AdvanceDivides(WordBits(SEED), Bits(data));
    if IsRemainder(dividend, PolyOf(WordBits(word))) {
      RemainderUnique(dividend, PolyOf(WordBits(word)), PolyOf(WordBits(Crc(data))));
      RegisterFromPoly(WordBits(word), WordBits(Crc(data)));
      WordBitsInjective(word, Crc(data));
    }
  }
}
