/** Bit strings, most significant bit first, and the bits of the machine words the source works on. */
module BitStrings {
  import opened Words

  type bits = seq<bool>

  function Zeros(n: nat): (s: bits)
    ensures |s| == n
  {
    seq(n, _ => false)
  }

  function Xor(s: bits, t: bits): (u: bits)
    requires |s| == |t|
    ensures |u| == |s|
  {
    seq(|s|, i requires 0 <= i < |s| => s[i] != t[i])
  }

  function Ones(s: bits): nat {
    if s == [] then 0 else Ones(s[..|s| - 1]) + (if s[|s| - 1] then 1 else 0)
  }

  lemma {:induction false} OnesConcat(s: bits, t: bits)
    ensures Ones(s + t) == Ones(s) + Ones(t)
  {
    if t == [] {
      assert s + t == s;
    } else {
      var last := |t| - 1;
      assert (s + t)[..|s| + last] == s + t[..last];
      OnesConcat(s, t[..last]);
    }
  }

  lemma {:induction false} OnesZeros(n: nat)
    ensures Ones(Zeros(n)) == 0
  {
    if n > 0 {
      assert Zeros(n)[..n - 1] == Zeros(n - 1);
      OnesZeros(n - 1);
    }
  }

  lemma {:induction false} OnesXor(s: bits, t: bits)
    requires |s| == |t|
    ensures Ones(Xor(s, t)) % 2 == (Ones(s) + Ones(t)) % 2
  {
    if s != [] {
      var last := |s| - 1;
      assert Xor(s, t)[..last] == Xor(s[..last], t[..last]);
      OnesXor(s[..last], t[..last]);
    }
  }

  /** A string without ones is all zeros; otherwise it has a last one. */
  lemma {:induction false} NoOnes(s: bits)
    ensures Ones(s) == 0 <==> s == Zeros(|s|)
  {
    if s != [] {
      var last := |s| - 1;
      NoOnes(s[..last]);
      assert s == s[..last] + [s[last]];
      assert Zeros(|s|) == Zeros(last) + [false];
    }
  }

  // ---- words ----

  /** The mask of bit `i`, counted from the most significant end of a 16-bit word. */
  function Mask(i: nat): (m: u16)
    requires i < 16
    ensures m != 0 && m & (m - 1) == 0
  {
    [0x8000, 0x4000, 0x2000, 0x1000, 0x800, 0x400, 0x200, 0x100, 0x80, 0x40, 0x20, 0x10, 8, 4, 2, 1][i]
  }

  predicate Bit(w: u16, i: nat)
    requires i < 16
  {
    w & Mask(i) != 0
  }

  function WordBits(w: u16): (s: bits)
    ensures |s| == 16
  {
    seq(16, i requires 0 <= i < 16 => Bit(w, i))
  }

  predicate ByteBit(b: byte, i: nat)
    requires i < 8
  {
    Bit(b as u16, 8 + i)
  }

  function ByteBits(b: byte): (s: bits)
    ensures |s| == 8
  {
    seq(8, i requires 0 <= i < 8 => ByteBit(b, i))
  }

  function Bits(data: seq<byte>): (s: bits)
    ensures |s| == 8 * |data|
  {
    if data == [] then [] else Bits(data[..|data| - 1]) + ByteBits(data[|data| - 1])
  }

  lemma MaskedXor(v: u16, w: u16, m: u16)
    requires m & (m - 1) == 0
    ensures (v ^ w) & m != 0 <==> (v & m != 0) != (w & m != 0)
  {
  }

  lemma WordBitsXor(v: u16, w: u16)
    ensures WordBits(v ^ w) == Xor(WordBits(v), WordBits(w))
  {
    forall i | 0 <= i < 16
      ensures WordBits(v ^ w)[i] == Xor(WordBits(v), WordBits(w))[i]
    {
      MaskedXor(v, w, Mask(i));
    }
  }

  lemma MaskedShift(w: u16, m: u16)
    requires m & (m - 1) == 0 && m != 0x8000
    ensures (w << 1) & (m << 1) != 0 <==> w & m != 0
  {
  }

  lemma NextMask(i: nat)
    requires i < 15
    ensures Mask(i) == Mask(i + 1) << 1 && Mask(i + 1) != 0x8000
  {
  }

  lemma LowBitOfShift(w: u16)
    ensures !Bit(w << 1, 15)
  {
  }

  lemma WordBitsShift(w: u16)
    ensures WordBits(w << 1) == WordBits(w)[1..] + [false]
  {
    forall i | 0 <= i < 16
      ensures WordBits(w << 1)[i] == (WordBits(w)[1..] + [false])[i]
    {
      if i < 15 {
        NextMask(i);
        MaskedShift(w, Mask(i + 1));
      } else {
        LowBitOfShift(w);
      }
    }
  }

  lemma MaskedByteShift(w: u16, m: u16)
    requires w < 0x100 && m < 0x100
    ensures (w << 8) & (m << 8) != 0 <==> w & m != 0
  {
  }

  lemma MaskedByteShiftLow(w: u16, m: u16)
    requires m < 0x100
    ensures (w << 8) & m == 0
  {
  }

  lemma ByteMask(i: nat)
    requires i < 8
    ensures Mask(i) == Mask(i + 8) << 8 && Mask(i + 8) < 0x100
  {
  }

  lemma WordBitsOfLoadedByte(b: byte)
    ensures WordBits((b as u16) << 8) == ByteBits(b) + Zeros(8)
  {
    forall i | 0 <= i < 16
      ensures WordBits((b as u16) << 8)[i] == (ByteBits(b) + Zeros(8))[i]
    {
      if i < 8 {
        ByteMask(i);
        MaskedByteShift(b as u16, Mask(i + 8));
      } else {
        ByteMask(i - 8);
        MaskedByteShiftLow(b as u16, Mask(i));
      }
    }
  }

  lemma MaskedHigh(w: u16, m: u16)
    requires m < 0x100
    ensures (w >> 8) & m != 0 <==> w & (m << 8) != 0
    ensures (w & 0xFF) & m == w & m
  {
  }

  lemma HighBit(w: u16, i: nat)
    requires i < 8
    ensures ByteBit(High(w), i) == Bit(w, i)
  {
    assert High(w) as u16 == w >> 8;
    ByteMask(i);
    MaskedHigh(w, Mask(i + 8));
  }

  lemma LowBit(w: u16, i: nat)
    requires i < 8
    ensures ByteBit(Low(w), i) == Bit(w, i + 8)
  {
    assert Low(w) as u16 == w & 0xFF;
    ByteMask(i);
    MaskedHigh(w, Mask(i + 8));
  }

  lemma WordBitsSplit(w: u16)
    ensures WordBits(w) == ByteBits(High(w)) + ByteBits(Low(w))
  {
    forall i | 0 <= i < 16
      ensures WordBits(w)[i] == (ByteBits(High(w)) + ByteBits(Low(w)))[i]
    {
      if i < 8 {
        HighBit(w, i);
      } else {
        LowBit(w, i - 8);
      }
    }
  }

  // ---- a word is determined by its bits ----

  lemma NoBitSet(w: u16)
    requires w & 0x8000 == 0 && w & 0x4000 == 0 && w & 0x2000 == 0 && w & 0x1000 == 0
    requires w & 0x800 == 0 && w & 0x400 == 0 && w & 0x200 == 0 && w & 0x100 == 0
    requires w & 0x80 == 0 && w & 0x40 == 0 && w & 0x20 == 0 && w & 0x10 == 0
    requires w & 8 == 0 && w & 4 == 0 && w & 2 == 0 && w & 1 == 0
    ensures w == 0
  {
  }

  lemma ZeroWord(w: u16)
    requires forall i :: 0 <= i < 16 ==> !Bit(w, i)
    ensures w == 0
  {
    assert !Bit(w, 0) && !Bit(w, 1) && !Bit(w, 2) && !Bit(w, 3);
    assert !Bit(w, 4) && !Bit(w, 5) && !Bit(w, 6) && !Bit(w, 7);
    assert !Bit(w, 8) && !Bit(w, 9) && !Bit(w, 10) && !Bit(w, 11);
    assert !Bit(w, 12) && !Bit(w, 13) && !Bit(w, 14) && !Bit(w, 15);
    NoBitSet(w);
  }

  lemma EqualWords(v: u16, w: u16)
    requires v ^ w == 0
    ensures v == w
  {
  }

  lemma WordBitsInjective(v: u16, w: u16)
    requires WordBits(v) == WordBits(w)
    ensures v == w
  {
    var difference := v ^ w;
    WordBitsXor(v, w);
    forall i | 0 <= i < 16
      ensures !Bit(difference, i)
    {
      assert WordBits(difference)[i] == (WordBits(v)[i] != WordBits(w)[i]);
    }
    ZeroWord(difference);
    EqualWords(v, w);
  }

  lemma {:induction false} BitsConcat(d: seq<byte>, e: seq<byte>)
    ensures Bits(d + e) == Bits(d) + Bits(e)
  {
    if e == [] {
      assert d + e == d;
    } else {
      var last := |e| - 1;
      assert (d + e)[..|d| + last] == d + e[..last];
      BitsConcat(d, e[..last]);
    }
  }

  lemma ByteBitsInjective(b: byte, c: byte)
    requires ByteBits(b) == ByteBits(c)
    ensures b == c
  {
    WordBitsOfLoadedByte(b);
    WordBitsOfLoadedByte(c);
    WordBitsInjective((b as u16) << 8, (c as u16) << 8);
    LoadedBytesDiffer(b, c);
  }

  lemma LoadedBytesDiffer(b: byte, c: byte)
    requires (b as u16) << 8 == (c as u16) << 8
    ensures b == c
  {
  }

  lemma {:induction false} BitsInjective(d: seq<byte>, e: seq<byte>)
    requires |d| == |e| && Bits(d) == Bits(e)
    ensures d == e
  {
    if d != [] {
      var last := |d| - 1;
      var u, v := Bits(d), Bits(e);
      assert Bits(d[..last]) == u[..8 * last] == v[..8 * last] == Bits(e[..last]);
      assert ByteBits(d[last]) == u[8 * last..] == v[8 * last..] == ByteBits(e[last]);
      BitsInjective(d[..last], e[..last]);
      ByteBitsInjective(d[last], e[last]);
      assert d == d[..last] + [d[last]] && e == e[..last] + [e[last]];
    }
  }
}
