/** Damage to a response frame: which changes the parser is guaranteed to reject, and which it lets through. */
module FrameCheck {
  import opened Words
  import opened BitStrings
  import opened ShiftRegister
  import opened Polynomials
  import opened Crc16
  import opened ErrorDetection
  import opened WireBursts
  import opened Protocol

  /** Two byte strings with the same SOF and LEN, long enough for the frame that LEN announces. */
  predicate SameHeader(f: seq<byte>, g: seq<byte>) {
    && |f| == |g| >= 2
    && f[0] == g[0]
    && f[1] == g[1]
    && |f| >= RESPONSE_OVERHEAD + Length(f)
  }

  function Length(f: seq<byte>): nat
    requires |f| >= 2
  {
    f[1] as nat
  }

  function Covered(f: seq<byte>): (c: seq<byte>)
    requires |f| >= 2 && |f| >= RESPONSE_OVERHEAD + Length(f)
    ensures |c| == 1 + Length(f)
  {
    f[1..2 + Length(f)]
  }

  function Check(f: seq<byte>): u16
    requires |f| >= 2 && |f| >= RESPONSE_OVERHEAD + Length(f)
  {
    FromLe16(f[2 + Length(f)], f[3 + Length(f)])
  }

  /** ACK, DATA and CRC as they stand on the wire. */
  function Guarded(f: seq<byte>): seq<byte>
    requires |f| >= 2 && |f| >= RESPONSE_OVERHEAD + Length(f)
  {
    f[2..RESPONSE_OVERHEAD + Length(f)]
  }

  /** Which bits of ACK, DATA and CRC differ, in the order they stand on the wire. */
  function Wire(f: seq<byte>, g: seq<byte>): (w: bits)
    requires SameHeader(f, g)
    ensures |w| == 8 * Length(f) + 16
  {
    Xor(Bits(Guarded(f)), Bits(Guarded(g)))
  }

  lemma OneByte(b: byte)
    ensures Bits([b]) == ByteBits(b)
  {
    assert [b][..0] == [];
  }

  lemma CheckBits(low: byte, high: byte)
    ensures WordBits(FromLe16(low, high)) == ByteBits(high) + ByteBits(low)
  {
    FromLe16RoundTrip(low, high);
    WordBitsSplit(FromLe16(low, high));
  }

  lemma WireOrder(body: seq<byte>, low: byte, high: byte)
    ensures Bits(body + [low, high]) == Bits(body) + (ByteBits(low) + ByteBits(high))
  {
    BitsConcat(body, [low, high]);
    BitsConcat([low], [high]);
    assert [low] + [high] == [low, high];
    OneByte(low);
    OneByte(high);
  }

  lemma FrameParts(s: seq<byte>, n: nat)
    requires |s| >= 4 + n
    ensures s[2..4 + n] == s[2..2 + n] + [s[2 + n], s[3 + n]]
    ensures s[1..2 + n] == [s[1]] + s[2..2 + n]
  {
  }

  /** A frame with `n` bytes of ACK and DATA, in the order of the division and in the order of the wire. */
  lemma TwoOrders(s: seq<byte>, n: nat)
    requires |s| >= 4 + n
    ensures Codeword(s[1..2 + n], FromLe16(s[2 + n], s[3 + n])) ==
            Bits([s[1]]) + Bits(s[2..2 + n]) + (ByteBits(s[3 + n]) + ByteBits(s[2 + n]))
    ensures Bits(s[2..4 + n]) == Bits(s[2..2 + n]) + (ByteBits(s[2 + n]) + ByteBits(s[3 + n]))
  {
    hide Bits, ByteBits, WordBits, FromLe16;
    FrameParts(s, n);
    BitsConcat([s[1]], s[2..2 + n]);
    CheckBits(s[2 + n], s[3 + n]);
    WireOrder(s[2..2 + n], s[2 + n], s[3 + n]);
  }

  lemma DifferenceSwapped(f: seq<byte>, g: seq<byte>, n: nat)
    requires |f| == |g| >= 4 + n && f[1] == g[1]
    ensures Xor(Codeword(f[1..2 + n], FromLe16(f[2 + n], f[3 + n])), Codeword(g[1..2 + n], FromLe16(g[2 + n], g[3 + n]))) ==
            Zeros(8) + Swapped(Xor(Bits(f[2..4 + n]), Bits(g[2..4 + n])))
  {
    hide Bits, ByteBits, Codeword, Swapped, FromLe16, Xor, Zeros;
    TwoOrders(f, n);
    TwoOrders(g, n);
    SwappedDifference(Bits([f[1]]), Bits(f[2..2 + n]), Bits(g[2..2 + n]),
                      ByteBits(f[2 + n]), ByteBits(f[3 + n]), ByteBits(g[2 + n]), ByteBits(g[3 + n]));
  }

  /** With the header of an accepted frame, only the comparison of the CRC is left to fail. */
  lemma AcceptedByCheck(f: seq<byte>, g: seq<byte>)
    requires ParseReply(f).Some? && SameHeader(f, g)
    ensures MIN_RESPONSE_LEN <= Length(f) <= MAX_RESPONSE_LEN
    ensures Crc(Covered(f)) == Check(f)
    ensures ParseReply(g).Some? <==> Crc(Covered(g)) == Check(g)
  {
    hide Crc, FromLe16;
  }

  /**
   Change any ACK, DATA and CRC bits of a frame the parser accepts: it accepts the result exactly when the changed
   bits, with the two CRC bytes put back in order, are a multiple of the generator.
   */
  lemma AcceptedExactly(f: seq<byte>, g: seq<byte>)
    requires ParseReply(f).Some? && SameHeader(f, g)
    ensures ParseReply(g).Some? <==> Advance(ZERO, Swapped(Wire(f, g))) == ZERO
    ensures ParseReply(g).Some? <==> IsRemainder(PolyOf(Swapped(Wire(f, g))), {})
  {
    hide Crc, FromLe16, Swapped, Advance, Codeword, ParseReply, Bits, Xor;
    AcceptedByCheck(f, g);
    ChangePasses(Covered(f), Covered(g), Check(g));
    DifferenceSwapped(f, g, Length(f));
    ZeroStaysZero(8);
    AdvanceConcat(ZERO, Zeros(8), Swapped(Wire(f, g)));
    ClearsExactlyMultiples(Swapped(Wire(f, g)));
  }

  /** Hamming distance four on the wire: one, two or three flips among ACK, DATA and CRC are always rejected. */
  lemma FewFlipsRejected(f: seq<byte>, g: seq<byte>)
    requires ParseReply(f).Some? && SameHeader(f, g) && 1 <= Ones(Wire(f, g)) <= 3
    ensures ParseReply(g).None?
  {
    hide Wire, Swapped, Ones, Advance;
    AcceptedByCheck(f, g);
    AcceptedExactly(f, g);
    OnesSwapped(Wire(f, g));
    FewFlipsLeaveResidue(Swapped(Wire(f, g)));
  }

  /** So is any odd number of flips. */
  lemma OddFlipsRejected(f: seq<byte>, g: seq<byte>)
    requires ParseReply(f).Some? && SameHeader(f, g) && Ones(Wire(f, g)) % 2 == 1
    ensures ParseReply(g).None?
  {
    hide Wire, Swapped, Ones, Advance;
    AcceptedExactly(f, g);
    OnesSwapped(Wire(f, g));
    OddFlipsLeaveResidue(Swapped(Wire(f, g)));
  }

  // ---- bursts ----

  lemma SomethingChanged(f: seq<byte>, g: seq<byte>)
    requires SameHeader(f, g) && Guarded(f) != Guarded(g)
    ensures Wire(f, g) != Zeros(|Wire(f, g)|)
  {
    DifferentBytesDifferentBits(Guarded(f), Guarded(g));
  }

  /**
   A burst of at most 16 wire bits, wherever it lies in ACK, DATA and CRC, is accepted exactly when it is one of twelve
   patterns at fixed distances from the end of the frame.
   */
  lemma BurstAcceptedExactly(f: seq<byte>, g: seq<byte>, at: nat)
    requires ParseReply(f).Some? && SameHeader(f, g) && Guarded(f) != Guarded(g)
    requires Burst(Wire(f, g), at, 16)
    ensures ParseReply(g).Some? <==> PolyOf(Wire(f, g)) in ESCAPES
  {
    hide Wire, Swapped, Advance, ESCAPES, Burst, Guarded, PolyOf;
    AcceptedExactly(f, g);
    SomethingChanged(f, g);
    BurstPassesExactly(Wire(f, g), at);
  }

  /** A burst of at most 12 wire bits anywhere in ACK, DATA and CRC is rejected. */
  lemma ShortBurstRejected(f: seq<byte>, g: seq<byte>, at: nat)
    requires ParseReply(f).Some? && SameHeader(f, g) && Guarded(f) != Guarded(g)
    requires Burst(Wire(f, g), at, 12)
    ensures ParseReply(g).None?
  {
    hide Wire, Swapped, Advance, Burst, Guarded;
    AcceptedExactly(f, g);
    SomethingChanged(f, g);
    ShortBurstNeverPasses(Wire(f, g), at);
  }

  /** A burst of at most 16 bits confined to ACK and DATA, with the CRC bytes as sent, is rejected. */
  lemma BurstRejected(f: seq<byte>, g: seq<byte>, at: nat)
    requires ParseReply(f).Some? && SameHeader(f, g)
    requires f[2..2 + Length(f)] != g[2..2 + Length(f)]
    requires f[2 + Length(f)] == g[2 + Length(f)] && f[3 + Length(f)] == g[3 + Length(f)]
    requires Burst(Xor(Bits(f[2..2 + Length(f)]), Bits(g[2..2 + Length(f)])), at, 16)
    ensures ParseReply(g).None?
  {
    hide Crc, FromLe16, Bits;
    AcceptedByCheck(f, g);
    var n := Length(f);
    var b, c := f[2..2 + n], g[2..2 + n];
    FrameParts(f, n);
    FrameParts(g, n);
    BitsConcat([f[1]], b);
    BitsConcat([f[1]], c);
    XorConcat(Bits([f[1]]), Bits(b), Bits([f[1]]), Bits(c));
    assert Covered(f)[1..] == b && Covered(g)[1..] == c;
    BurstsChangeCrc(Covered(f), Covered(g), at + 8);
  }

  /** Any damage confined to the two CRC bytes is rejected. */
  lemma CheckDamageRejected(f: seq<byte>, g: seq<byte>)
    requires ParseReply(f).Some? && SameHeader(f, g)
    requires f[2..2 + Length(f)] == g[2..2 + Length(f)]
    requires f[2 + Length(f)] != g[2 + Length(f)] || f[3 + Length(f)] != g[3 + Length(f)]
    ensures ParseReply(g).None?
  {
    hide Crc, FromLe16;
    AcceptedByCheck(f, g);
    var n := Length(f);
    FrameParts(f, n);
    FrameParts(g, n);
    FromLe16RoundTrip(f[2 + n], f[3 + n]);
    FromLe16RoundTrip(g[2 + n], g[3 + n]);
  }
}
