/** Worked frames: the published one, and a pair that shows how far the frame check reaches. */
module WorkedFrames {
  import opened Words
  import opened Crc16
  import opened BitStrings
  import opened Crc16Order
  import opened ErrorDetection
  import opened FrameCheck
  import opened Protocol

  function FourTimes(r: u16): u16 {
    Step(Step(Step(Step(r))))
  }

  lemma TwoSteps(r: u16)
    ensures Steps(r, 2) == Step(Step(r))
  {
    assert Steps(r, 0) == r;
    assert Steps(r, 1) == Step(Steps(r, 0));
  }

  lemma FourSteps(r: u16)
    ensures Steps(r, 4) == FourTimes(r)
  {
    StepsAdd(r, 2, 2);
    TwoSteps(r);
    TwoSteps(Steps(r, 2));
  }

  /** One byte of a worked CRC: from `before`, by way of the register `middle` half a byte on. */
  lemma Absorb(data: seq<byte>, before: u16, b: byte, middle: u16, after: u16, longer: seq<byte>)
    requires Crc(data) == before && longer == data + [b]
    requires FourTimes(Load(before, b)) == middle && FourTimes(middle) == after
    ensures Crc(longer) == after
  {
    hide FourTimes, Load;
    assert longer[..|data|] == data;
    StepsAdd(Load(before, b), 4, 4);
    FourSteps(Load(before, b));
    FourSteps(middle);
  }

  lemma CrcOfNothing()
    ensures Crc([]) == 0xFFFF
  {
  }

  lemma CrcOfAck()
    ensures Crc([0x01, 0x01]) == 0x3E1F
  {
    hide Crc;
    CrcOfNothing();
    Absorb([], 0xFFFF, 0x01, 0x1E1F, 0xF1D1, [0x01]);
    Absorb([0x01], 0xF1D1, 0x01, 0xFCFF, 0x3E1F, [0x01, 0x01]);
  }

  lemma CrcOfNack()
    ensures Crc([0x01, 0x00]) == 0x2E3E
  {
    hide Crc;
    CrcOfNothing();
    Absorb([], 0xFFFF, 0x01, 0x1E1F, 0xF1D1, [0x01]);
    Absorb([0x01], 0xF1D1, 0x00, 0xECFF, 0x2E3E, [0x01, 0x00]);
  }

  lemma CrcOfGpioCfg()
    ensures Crc([0x30, 0x03, 0x01, 0x00, 0x05]) == 0xE1AB
  {
    hide Crc;
    CrcOfNothing();
    Absorb([], 0xFFFF, 0x30, 0x3E7C, 0xD7A3, [0x30]);
    Absorb([0x30], 0xD7A3, 0x03, 0x9B9D, 0x28F9, [0x30, 0x03]);
    Absorb([0x30, 0x03], 0x28F9, 0x01, 0xBFD2, 0x4C4B, [0x30, 0x03, 0x01]);
    Absorb([0x30, 0x03, 0x01], 0x4C4B, 0x00, 0x8434, 0xC248, [0x30, 0x03, 0x01, 0x00]);
    Absorb([0x30, 0x03, 0x01, 0x00], 0xC248, 0x05, 0xB50C, 0xE1AB, [0x30, 0x03, 0x01, 0x00, 0x05]);
  }

  lemma CrcOfGpioSet()
    ensures Crc([0x31, 0x03, 0x01, 0x00, 0x05]) == 0x4BFA
  {
    hide Crc;
    CrcOfNothing();
    Absorb([], 0xFFFF, 0x31, 0x2E7C, 0xC782, [0x31]);
    Absorb([0x31], 0xC782, 0x03, 0x89AC, 0x1BC8, [0x31, 0x03]);
    Absorb([0x31, 0x03], 0x1BC8, 0x01, 0xBCA1, 0x7B7B, [0x31, 0x03, 0x01]);
    Absorb([0x31, 0x03, 0x01], 0x7B7B, 0x00, 0xC757, 0xB4FC, [0x31, 0x03, 0x01, 0x00]);
    Absorb([0x31, 0x03, 0x01, 0x00], 0xB4FC, 0x05, 0xAEAB, 0x4BFA, [0x31, 0x03, 0x01, 0x00, 0x05]);
  }

  /** The frames the protocol document works through: "gpio cfg output A 5", "gpio set high A 5" and a bare ACK. */
  lemma PublishedFrames()
    ensures CommandFrame(GpioCfg(1, 0, 5)) == [0xA5, 0x30, 0x03, 0x01, 0x00, 0x05, 0xAB, 0xE1]
    ensures CommandFrame(GpioSet(1, 0, 5)) == [0xA5, 0x31, 0x03, 0x01, 0x00, 0x05, 0xFA, 0x4B]
    ensures ReplyFrame(1, []) == [0xA5, 0x01, 0x01, 0x1F, 0x3E]
  {
    hide Crc, ByteOf;
    CrcOfGpioCfg();
    CrcOfGpioSet();
    CrcOfAck();
    SmallBytes();
    var cfg: seq<byte> := [0x30, 0x03] + [0x01, 0x00, 0x05];
    var set_: seq<byte> := [0x31, 0x03] + [0x01, 0x00, 0x05];
    var ack: seq<byte> := [0x01, 0x01] + [];
    assert cfg == [0x30, 0x03, 0x01, 0x00, 0x05];
    assert set_ == [0x31, 0x03, 0x01, 0x00, 0x05];
    assert ack == [0x01, 0x01];
  }

  lemma SmallBytes()
    ensures ByteOf(1) == 1 && ByteOf(3) == 3
  {
    assert ByteOf(0) == 0;
    assert ByteOf(1) == 1;
    assert ByteOf(2) == 2;
  }

  lemma Widened(b: byte, m: byte)
    ensures (b as u16) & (m as u16) != 0 <==> b & m != 0
  {
  }

  lemma ByteBitIs(b: byte, i: nat, m: byte)
    requires i < 8 && Mask(8 + i) == m as u16
    ensures ByteBit(b, i) <==> b & m != 0
  {
    Widened(b, m);
  }

  lemma ByteMasks()
    ensures Mask(8) == 0x80 as byte as u16 && Mask(9) == 0x40 as byte as u16
    ensures Mask(10) == 0x20 as byte as u16 && Mask(11) == 0x10 as byte as u16
    ensures Mask(12) == 8 as byte as u16 && Mask(13) == 4 as byte as u16
    ensures Mask(14) == 2 as byte as u16 && Mask(15) == 1 as byte as u16
  {
  }

  lemma ByteBitsAre(b: byte)
    ensures ByteBits(b) == [b & 0x80 != 0, b & 0x40 != 0, b & 0x20 != 0, b & 0x10 != 0,
                            b & 8 != 0, b & 4 != 0, b & 2 != 0, b & 1 != 0]
  {
    hide ByteBit, Mask;
    ByteMasks();
    ByteBitIs(b, 0, 0x80);
    ByteBitIs(b, 1, 0x40);
    ByteBitIs(b, 2, 0x20);
    ByteBitIs(b, 3, 0x10);
    ByteBitIs(b, 4, 8);
    ByteBitIs(b, 5, 4);
    ByteBitIs(b, 6, 2);
    ByteBitIs(b, 7, 1);
  }

  /** The wire difference of an ACK and a NACK, both without data. */
  lemma PairDifference(f: seq<byte>, g: seq<byte>)
    requires f == [0xA5, 0x01, 0x01, 0x1F, 0x3E] && g == [0xA5, 0x01, 0x00, 0x3E, 0x2E]
    ensures SameHeader(f, g) && |Wire(f, g)| == 24
    ensures forall i :: 0 <= i < 24 ==> (Wire(f, g)[i] <==> i in {7, 10, 15, 19})
  {
    hide ByteBits, Bits;
    assert Guarded(f) == [0x01] + [0x1F, 0x3E] && Guarded(g) == [0x00] + [0x3E, 0x2E];
    WireOrder([0x01], 0x1F, 0x3E);
    WireOrder([0x00], 0x3E, 0x2E);
    OneByte(0x01);
    OneByte(0x00);
    ByteBitsAre(0x01);
    ByteBitsAre(0x1F);
    ByteBitsAre(0x3E);
    ByteBitsAre(0x00);
    ByteBitsAre(0x2E);
  }

  /**
   A burst across the boundary between DATA and CRC can pass, because the CRC goes out low byte first: these two
   frames differ only within 13 consecutive bits of the wire, and an ACK has become a NACK.
   */
  lemma BurstIntoTheCheckCanPass(f: seq<byte>, g: seq<byte>)
    requires f == [0xA5, 0x01, 0x01, 0x1F, 0x3E] && g == [0xA5, 0x01, 0x00, 0x3E, 0x2E]
    ensures ParseReply(f) == Some(Reply(true, [])) && ParseReply(g) == Some(Reply(false, []))
    ensures SameHeader(f, g) && Burst(Wire(f, g), 7, 13) && Wire(f, g)[7] && Wire(f, g)[19]
  {
    hide Crc, Wire;
    PairDifference(f, g);
    CrcOfAck();
    CrcOfNack();
    assert f[1..3] == [0x01, 0x01] && g[1..3] == [0x01, 0x00];
    assert f[3..3] == [] && g[3..3] == [];
    assert FromLe16(0x1F, 0x3E) == 0x3E1F && FromLe16(0x3E, 0x2E) == 0x2E3E;
  }
}
