/** The frames that the repository's tests take from the protocol document, bytes and CRC included. */
module PublishedVectors {
  import opened Words
  import opened Crc16
  import opened Status
  import opened Protocol
  import opened Codec
  import opened Reception
  import opened Mcuco
  import opened CallLaws
  import opened WorkedFrames

  lemma SmallLengths()
    ensures ByteOf(0) == 0 && ByteOf(1) == 1 && ByteOf(2) == 2 && ByteOf(3) == 3 && ByteOf(4) == 4 && ByteOf(5) == 5 && ByteOf(6) == 6
  {
    assert ByteOf(3) == 3;
    assert ByteOf(5) == 5;
  }

  lemma Assembled(opcode: byte, p: seq<byte>, length: byte, covered: seq<byte>, crc: u16, low: byte, high: byte)
    requires |p| <= MAX_PAYLOAD && ByteOf(|p|) == length && covered == [opcode, length] + p
    requires Crc(covered) == crc && Low(crc) == low && High(crc) == high
    ensures Frame(opcode, p) == [SOF] + covered + [low, high]
  {
    hide Crc, ByteOf, Low, High;
  }

  lemma ReplyAssembled(ack: byte, data: seq<byte>, length: byte, covered: seq<byte>, crc: u16, low: byte, high: byte)
    requires |data| <= MAX_RESPONSE_DATA && ByteOf(|data| + 1) == length && covered == [length, ack] + data
    requires Crc(covered) == crc && Low(crc) == low && High(crc) == high
    ensures ReplyFrame(ack, data) == [SOF] + covered + [low, high]
  {
    hide Crc, ByteOf, Low, High;
  }

  // ---- commands ----

  lemma ProbeFrame()
    ensures Frame(0x10, []) == [0xA5, 0x10, 0x00, 0x7C, 0x1E]
  {
    hide Crc, ByteOf;
    CrcOfNothing();
    Absorb([], 0xFFFF, 0x10, 0x1E3E, 0xF3C1, [0x10]);
    Absorb([0x10], 0xF3C1, 0x00, 0xCDFF, 0x1E7C, [0x10, 0x00]);
    SmallLengths();
    Assembled(0x10, [], 0x00, [0x10, 0x00], 0x1E7C, 0x7C, 0x1E);
  }

  lemma ResetFrame()
    ensures Frame(0x11, []) == [0xA5, 0x11, 0x00, 0x4D, 0x2D]
  {
    hide Crc, ByteOf;
    CrcOfNothing();
    Absorb([], 0xFFFF, 0x11, 0x0E3E, 0xE3E0, [0x11]);
    Absorb([0x11], 0xE3E0, 0x00, 0xDFCE, 0x2D4D, [0x11, 0x00]);
    SmallLengths();
    Assembled(0x11, [], 0x00, [0x11, 0x00], 0x2D4D, 0x4D, 0x2D);
  }

  lemma GpioCfgFrame()
    ensures Frame(0x30, [0x01, 0x00, 0x05]) == [0xA5, 0x30, 0x03, 0x01, 0x00, 0x05, 0xAB, 0xE1]
  {
    hide Crc, ByteOf;
    CrcOfNothing();
    Absorb([], 0xFFFF, 0x30, 0x3E7C, 0xD7A3, [0x30]);
    Absorb([0x30], 0xD7A3, 0x03, 0x9B9D, 0x28F9, [0x30, 0x03]);
    Absorb([0x30, 0x03], 0x28F9, 0x01, 0xBFD2, 0x4C4B, [0x30, 0x03, 0x01]);
    Absorb([0x30, 0x03, 0x01], 0x4C4B, 0x00, 0x8434, 0xC248, [0x30, 0x03, 0x01, 0x00]);
    Absorb([0x30, 0x03, 0x01, 0x00], 0xC248, 0x05, 0xB50C, 0xE1AB, [0x30, 0x03, 0x01, 0x00, 0x05]);
    SmallLengths();
    Assembled(0x30, [0x01, 0x00, 0x05], 0x03, [0x30, 0x03, 0x01, 0x00, 0x05], 0xE1AB, 0xAB, 0xE1);
  }

  lemma GpioSetFrame()
    ensures Frame(0x31, [0x01, 0x00, 0x05]) == [0xA5, 0x31, 0x03, 0x01, 0x00, 0x05, 0xFA, 0x4B]
  {
    hide Crc, ByteOf;
    CrcOfNothing();
    Absorb([], 0xFFFF, 0x31, 0x2E7C, 0xC782, [0x31]);
    Absorb([0x31], 0xC782, 0x03, 0x89AC, 0x1BC8, [0x31, 0x03]);
    Absorb([0x31, 0x03], 0x1BC8, 0x01, 0xBCA1, 0x7B7B, [0x31, 0x03, 0x01]);
    Absorb([0x31, 0x03, 0x01], 0x7B7B, 0x00, 0xC757, 0xB4FC, [0x31, 0x03, 0x01, 0x00]);
    Absorb([0x31, 0x03, 0x01, 0x00], 0xB4FC, 0x05, 0xAEAB, 0x4BFA, [0x31, 0x03, 0x01, 0x00, 0x05]);
    SmallLengths();
    Assembled(0x31, [0x01, 0x00, 0x05], 0x03, [0x31, 0x03, 0x01, 0x00, 0x05], 0x4BFA, 0xFA, 0x4B);
  }

  lemma GpioGetFrame()
    ensures Frame(0x32, [0x00, 0x05]) == [0xA5, 0x32, 0x02, 0x00, 0x05, 0x84, 0x7B]
  {
    hide Crc, ByteOf;
    CrcOfNothing();
    Absorb([], 0xFFFF, 0x32, 0x1E7C, 0xF7E1, [0x32]);
    Absorb([0x32], 0xF7E1, 0x02, 0xAFFF, 0x5EBA, [0x32, 0x02]);
    Absorb([0x32, 0x02], 0x5EBA, 0x00, 0xBB05, 0x013B, [0x32, 0x02, 0x00]);
    Absorb([0x32, 0x02, 0x00], 0x013B, 0x05, 0x43B0, 0x7B84, [0x32, 0x02, 0x00, 0x05]);
    SmallLengths();
    Assembled(0x32, [0x00, 0x05], 0x02, [0x32, 0x02, 0x00, 0x05], 0x7B84, 0x84, 0x7B);
  }

  lemma GpioToggleFrame()
    ensures Frame(0x36, [0x00, 0x05]) == [0xA5, 0x36, 0x02, 0x00, 0x05, 0x75, 0xB1]
  {
    hide Crc, ByteOf;
    CrcOfNothing();
    Absorb([], 0xFFFF, 0x36, 0x5E7C, 0xB765, [0x36]);
    Absorb([0x36], 0xB765, 0x02, 0xE73B, 0x927E, [0x36, 0x02]);
    Absorb([0x36, 0x02], 0x927E, 0x00, 0xB6C9, 0xDDFB, [0x36, 0x02, 0x00]);
    Absorb([0x36, 0x02, 0x00], 0xDDFB, 0x05, 0x5E1D, 0xB175, [0x36, 0x02, 0x00, 0x05]);
    SmallLengths();
    Assembled(0x36, [0x00, 0x05], 0x02, [0x36, 0x02, 0x00, 0x05], 0xB175, 0x75, 0xB1);
  }

  lemma GroupCfgFrame()
    ensures Frame(0x40, [0xE8, 0x03, 0x00, 0x00, 0x00]) == [0xA5, 0x40, 0x05, 0xE8, 0x03, 0x00, 0x00, 0x00, 0xDE, 0xCD]
  {
    hide Crc, ByteOf;
    CrcOfNothing();
    Absorb([], 0xFFFF, 0x40, 0x4E9B, 0xA934, [0x40]);
    Absorb([0x40], 0xA934, 0x05, 0x620A, 0x4066, [0x40, 0x05]);
    Absorb([0x40, 0x05], 0x4066, 0xE8, 0x272A, 0x52E2, [0x40, 0x05, 0xE8]);
    Absorb([0x40, 0x05, 0xE8], 0x52E2, 0x03, 0x4E85, 0xA8D4, [0x40, 0x05, 0xE8, 0x03]);
    Absorb([0x40, 0x05, 0xE8, 0x03], 0xA8D4, 0x00, 0x2C0A, 0xE0E2, [0x40, 0x05, 0xE8, 0x03, 0x00]);
    Absorb([0x40, 0x05, 0xE8, 0x03, 0x00], 0xE0E2, 0x00, 0xEFEE, 0x1F2E, [0x40, 0x05, 0xE8, 0x03, 0x00, 0x00]);
    Absorb([0x40, 0x05, 0xE8, 0x03, 0x00, 0x00], 0x1F2E, 0x00, 0xE2C1, 0xCDDE, [0x40, 0x05, 0xE8, 0x03, 0x00, 0x00, 0x00]);
    SmallLengths();
    Assembled(0x40, [0xE8, 0x03, 0x00, 0x00, 0x00], 0x05, [0x40, 0x05, 0xE8, 0x03, 0x00, 0x00, 0x00], 0xCDDE, 0xDE, 0xCD);
  }

  lemma GroupGetFrame()
    ensures Frame(0x45, [0x00]) == [0xA5, 0x45, 0x01, 0x00, 0xF0, 0x09]
  {
    hide Crc, ByteOf;
    CrcOfNothing();
    Absorb([], 0xFFFF, 0x45, 0x1E9B, 0xF991, [0x45]);
    Absorb([0x45], 0xF991, 0x01, 0x78FF, 0xFF17, [0x45, 0x01]);
    Absorb([0x45, 0x01], 0xFF17, 0x00, 0x009F, 0x09F0, [0x45, 0x01, 0x00]);
    SmallLengths();
    Assembled(0x45, [0x00], 0x01, [0x45, 0x01, 0x00], 0x09F0, 0xF0, 0x09);
  }

  lemma GroupReleaseFrame()
    ensures Frame(0x46, [0x00]) == [0xA5, 0x46, 0x01, 0x00, 0xA0, 0x50]
  {
    hide Crc, ByteOf;
    CrcOfNothing();
    Absorb([], 0xFFFF, 0x46, 0x2E9B, 0xC9F2, [0x46]);
    Absorb([0x46], 0xC9F2, 0x01, 0x4EAC, 0xAA44, [0x46, 0x01]);
    Absorb([0x46, 0x01], 0xAA44, 0x00, 0x050A, 0x50A0, [0x46, 0x01, 0x00]);
    SmallLengths();
    Assembled(0x46, [0x00], 0x01, [0x46, 0x01, 0x00], 0x50A0, 0xA0, 0x50);
  }

  lemma ChannelCfgFrame()
    ensures Frame(0x41, [0x00, 0x00, 0x05]) == [0xA5, 0x41, 0x03, 0x00, 0x00, 0x05, 0x4C, 0x61]
  {
    hide Crc, ByteOf;
    CrcOfNothing();
    Absorb([], 0xFFFF, 0x41, 0x5E9B, 0xB915, [0x41]);
    Absorb([0x41], 0xB915, 0x03, 0x103B, 0x1391, [0x41, 0x03]);
    Absorb([0x41, 0x03], 0x1391, 0x00, 0x2931, 0xB352, [0x41, 0x03, 0x00]);
    Absorb([0x41, 0x03, 0x00], 0xB352, 0x00, 0x844B, 0xC5B8, [0x41, 0x03, 0x00, 0x00]);
    Absorb([0x41, 0x03, 0x00, 0x00], 0xC5B8, 0x05, 0xCA0C, 0x614C, [0x41, 0x03, 0x00, 0x00, 0x05]);
    SmallLengths();
    Assembled(0x41, [0x00, 0x00, 0x05], 0x03, [0x41, 0x03, 0x00, 0x00, 0x05], 0x614C, 0x4C, 0x61);
  }

  lemma ChannelSetFrame()
    ensures Frame(0x42, [0xFA, 0x00, 0x00, 0x05]) == [0xA5, 0x42, 0x04, 0xFA, 0x00, 0x00, 0x05, 0x05, 0xC1]
  {
    hide Crc, ByteOf;
    CrcOfNothing();
    Absorb([], 0xFFFF, 0x42, 0x6E9B, 0x8976, [0x42]);
    Absorb([0x42], 0x8976, 0x04, 0x5668, 0x3625, [0x42, 0x04]);
    Absorb([0x42, 0x04], 0x3625, 0xFA, 0x03DC, 0x3DC0, [0x42, 0x04, 0xFA]);
    Absorb([0x42, 0x04, 0xFA], 0x3DC0, 0x00, 0xEC63, 0x27FE, [0x42, 0x04, 0xFA, 0x00]);
    Absorb([0x42, 0x04, 0xFA, 0x00], 0x27FE, 0x00, 0x5FA2, 0xAA85, [0x42, 0x04, 0xFA, 0x00, 0x00]);
    Absorb([0x42, 0x04, 0xFA, 0x00, 0x00], 0xAA85, 0x05, 0x591A, 0xC105, [0x42, 0x04, 0xFA, 0x00, 0x00, 0x05]);
    SmallLengths();
    Assembled(0x42, [0xFA, 0x00, 0x00, 0x05], 0x04, [0x42, 0x04, 0xFA, 0x00, 0x00, 0x05], 0xC105, 0x05, 0xC1);
  }

  lemma ChannelGetFrame()
    ensures Frame(0x44, [0x00, 0x05]) == [0xA5, 0x44, 0x02, 0x00, 0x05, 0x68, 0x1E]
  {
    hide Crc, ByteOf;
    CrcOfNothing();
    Absorb([], 0xFFFF, 0x44, 0x0E9B, 0xE9B0, [0x44]);
    Absorb([0x44], 0xE9B0, 0x02, 0x5ACE, 0xFC45, [0x44, 0x02]);
    Absorb([0x44, 0x02], 0xFC45, 0x00, 0x35BF, 0x6B93, [0x44, 0x02, 0x00]);
    Absorb([0x44, 0x02, 0x00], 0x6B93, 0x05, 0x89F6, 0x1E68, [0x44, 0x02, 0x00, 0x05]);
    SmallLengths();
    Assembled(0x44, [0x00, 0x05], 0x02, [0x44, 0x02, 0x00, 0x05], 0x1E68, 0x68, 0x1E);
  }

  lemma ChannelReleaseFrame()
    ensures Frame(0x43, [0x00, 0x05]) == [0xA5, 0x43, 0x02, 0x00, 0x05, 0x45, 0x4F]
  {
    hide Crc, ByteOf;
    CrcOfNothing();
    Absorb([], 0xFFFF, 0x43, 0x7E9B, 0x9957, [0x43]);
    Absorb([0x43], 0x9957, 0x02, 0x2459, 0x65D2, [0x43, 0x02]);
    Absorb([0x43, 0x02], 0x65D2, 0x00, 0x3DE6, 0xEE03, [0x43, 0x02, 0x00]);
    Absorb([0x43, 0x02, 0x00], 0xEE03, 0x05, 0x51FE, 0x4F45, [0x43, 0x02, 0x00, 0x05]);
    SmallLengths();
    Assembled(0x43, [0x00, 0x05], 0x02, [0x43, 0x02, 0x00, 0x05], 0x4F45, 0x45, 0x4F);
  }

  lemma IrqCfgBothFrame()
    ensures Frame(0x34, [0x03, 0x00, 0x05]) == [0xA5, 0x34, 0x03, 0x03, 0x00, 0x05, 0xCD, 0x06]
  {
    hide Crc, ByteOf;
    CrcOfNothing();
    Absorb([], 0xFFFF, 0x34, 0x7E7C, 0x9727, [0x34]);
    Absorb([0x34], 0x9727, 0x03, 0xD359, 0xE43D, [0x34, 0x03]);
    Absorb([0x34, 0x03], 0xE43D, 0x03, 0x921E, 0xB0C9, [0x34, 0x03, 0x03]);
    Absorb([0x34, 0x03, 0x03], 0xB0C9, 0x00, 0xBDFB, 0x6EDB, [0x34, 0x03, 0x03, 0x00]);
    Absorb([0x34, 0x03, 0x03, 0x00], 0x6EDB, 0x05, 0xDD76, 0x06CD, [0x34, 0x03, 0x03, 0x00, 0x05]);
    SmallLengths();
    Assembled(0x34, [0x03, 0x00, 0x05], 0x03, [0x34, 0x03, 0x03, 0x00, 0x05], 0x06CD, 0xCD, 0x06);
  }

  lemma IrqCfgOffFrame()
    ensures Frame(0x34, [0x00, 0x00, 0x05]) == [0xA5, 0x34, 0x03, 0x00, 0x00, 0x05, 0x9D, 0x5F]
  {
    hide Crc, ByteOf;
    CrcOfNothing();
    Absorb([], 0xFFFF, 0x34, 0x7E7C, 0x9727, [0x34]);
    Absorb([0x34], 0x9727, 0x03, 0xD359, 0xE43D, [0x34, 0x03]);
    Absorb([0x34, 0x03], 0xE43D, 0x00, 0xA21E, 0x80AA, [0x34, 0x03, 0x00]);
    Absorb([0x34, 0x03, 0x00], 0x80AA, 0x00, 0x8BA8, 0x3B88, [0x34, 0x03, 0x00, 0x00]);
    Absorb([0x34, 0x03, 0x00, 0x00], 0x3B88, 0x05, 0xD8E3, 0x5F9D, [0x34, 0x03, 0x00, 0x00, 0x05]);
    SmallLengths();
    Assembled(0x34, [0x00, 0x00, 0x05], 0x03, [0x34, 0x03, 0x00, 0x00, 0x05], 0x5F9D, 0x9D, 0x5F);
  }

  lemma IrqBindFrame()
    ensures Frame(0x33, [0x03, 0x02, 0x0D, 0x02, 0x00, 0x05]) == [0xA5, 0x33, 0x06, 0x03, 0x02, 0x0D, 0x02, 0x00, 0x05, 0x92, 0x93]
  {
    hide Crc, ByteOf;
    CrcOfNothing();
    Absorb([], 0xFFFF, 0x33, 0x0E7C, 0xE7C0, [0x33]);
    Absorb([0x33], 0xE7C0, 0x06, 0xFDCE, 0x2D0F, [0x33, 0x06]);
    Absorb([0x33, 0x06], 0x2D0F, 0x03, 0xC0B2, 0xCAAC, [0x33, 0x06, 0x03]);
    Absorb([0x33, 0x06, 0x03], 0xCAAC, 0x02, 0x4B4C, 0xF444, [0x33, 0x06, 0x03, 0x02]);
    Absorb([0x33, 0x06, 0x03, 0x02], 0xF444, 0x0D, 0x65AF, 0x3A36, [0x33, 0x06, 0x03, 0x02, 0x0D]);
    Absorb([0x33, 0x06, 0x03, 0x02, 0x0D], 0x3A36, 0x02, 0xB303, 0x815B, [0x33, 0x06, 0x03, 0x02, 0x0D, 0x02]);
    Absorb([0x33, 0x06, 0x03, 0x02, 0x0D, 0x02], 0x815B, 0x00, 0x94B8, 0xDAA9, [0x33, 0x06, 0x03, 0x02, 0x0D, 0x02, 0x00]);
    Absorb([0x33, 0x06, 0x03, 0x02, 0x0D, 0x02, 0x00], 0xDAA9, 0x05, 0x2B3D, 0x9392, [0x33, 0x06, 0x03, 0x02, 0x0D, 0x02, 0x00, 0x05]);
    SmallLengths();
    Assembled(0x33, [0x03, 0x02, 0x0D, 0x02, 0x00, 0x05], 0x06, [0x33, 0x06, 0x03, 0x02, 0x0D, 0x02, 0x00, 0x05], 0x9392, 0x92, 0x93);
  }

  lemma IrqUnbindFrame()
    ensures Frame(0x35, [0x00, 0x05]) == [0xA5, 0x35, 0x02, 0x00, 0x05, 0xA9, 0x2A]
  {
    hide Crc, ByteOf;
    CrcOfNothing();
    Absorb([], 0xFFFF, 0x35, 0x6E7C, 0x8706, [0x35]);
    Absorb([0x35], 0x8706, 0x02, 0xD168, 0xC72D, [0x35, 0x02]);
    Absorb([0x35, 0x02], 0xC72D, 0x00, 0xB35C, 0x84AB, [0x35, 0x02, 0x00]);
    Absorb([0x35, 0x02, 0x00], 0x84AB, 0x05, 0x9BB8, 0x2AA9, [0x35, 0x02, 0x00, 0x05]);
    SmallLengths();
    Assembled(0x35, [0x00, 0x05], 0x02, [0x35, 0x02, 0x00, 0x05], 0x2AA9, 0xA9, 0x2A);
  }

  // ---- responses ----

  lemma LevelHighReply()
    ensures ReplyFrame(0x01, [0x01]) == [0xA5, 0x02, 0x01, 0x01, 0xEC, 0x81]
  {
    hide Crc, ByteOf;
    CrcOfNothing();
    Absorb([], 0xFFFF, 0x02, 0x2E1F, 0xC1B2, [0x02]);
    Absorb([0x02], 0xC1B2, 0x01, 0xCAAC, 0x6B4C, [0x02, 0x01]);
    Absorb([0x02, 0x01], 0x6B4C, 0x01, 0xC406, 0x81EC, [0x02, 0x01, 0x01]);
    SmallLengths();
    ReplyAssembled(0x01, [0x01], 0x02, [0x02, 0x01, 0x01], 0x81EC, 0xEC, 0x81);
  }

  lemma LevelLowReply()
    ensures ReplyFrame(0x01, [0x00]) == [0xA5, 0x02, 0x01, 0x00, 0xCD, 0x91]
  {
    hide Crc, ByteOf;
    CrcOfNothing();
    Absorb([], 0xFFFF, 0x02, 0x2E1F, 0xC1B2, [0x02]);
    Absorb([0x02], 0xC1B2, 0x01, 0xCAAC, 0x6B4C, [0x02, 0x01]);
    Absorb([0x02, 0x01], 0x6B4C, 0x00, 0xD406, 0x91CD, [0x02, 0x01, 0x00]);
    SmallLengths();
    ReplyAssembled(0x01, [0x00], 0x02, [0x02, 0x01, 0x00], 0x91CD, 0xCD, 0x91);
  }

  lemma DutyReply()
    ensures ReplyFrame(0x01, [0xFA, 0x00]) == [0xA5, 0x03, 0x01, 0xFA, 0x00, 0x26, 0xD4]
  {
    hide Crc, ByteOf;
    CrcOfNothing();
    Absorb([], 0xFFFF, 0x03, 0x3E1F, 0xD193, [0x03]);
    Absorb([0x03], 0xD193, 0x01, 0xD89D, 0x587D, [0x03, 0x01]);
    Absorb([0x03, 0x01], 0x587D, 0xFA, 0x869A, 0xE8A8, [0x03, 0x01, 0xFA]);
    Absorb([0x03, 0x01, 0xFA], 0xE8A8, 0x00, 0x6B4E, 0xD426, [0x03, 0x01, 0xFA, 0x00]);
    SmallLengths();
    ReplyAssembled(0x01, [0xFA, 0x00], 0x03, [0x03, 0x01, 0xFA, 0x00], 0xD426, 0x26, 0xD4);
  }

  lemma FrequencyReply()
    ensures ReplyFrame(0x01, [0xE8, 0x03, 0x00, 0x00]) == [0xA5, 0x05, 0x01, 0xE8, 0x03, 0x00, 0x00, 0x39, 0xBF]
  {
    hide Crc, ByteOf;
    CrcOfNothing();
    Absorb([], 0xFFFF, 0x05, 0x5E1F, 0xB155, [0x05]);
    Absorb([0x05], 0xB155, 0x01, 0xB43B, 0xF2DB, [0x05, 0x01]);
    Absorb([0x05, 0x01], 0xF2DB, 0xE8, 0xBD91, 0x687B, [0x05, 0x01, 0xE8]);
    Absorb([0x05, 0x01, 0xE8], 0x687B, 0x03, 0xD776, 0xA6CD, [0x05, 0x01, 0xE8, 0x03]);
    Absorb([0x05, 0x01, 0xE8, 0x03], 0xA6CD, 0x00, 0xCD9A, 0x182C, [0x05, 0x01, 0xE8, 0x03, 0x00]);
    Absorb([0x05, 0x01, 0xE8, 0x03, 0x00], 0x182C, 0x00, 0x92E1, 0xBF39, [0x05, 0x01, 0xE8, 0x03, 0x00, 0x00]);
    SmallLengths();
    ReplyAssembled(0x01, [0xE8, 0x03, 0x00, 0x00], 0x05, [0x05, 0x01, 0xE8, 0x03, 0x00, 0x00], 0xBF39, 0x39, 0xBF);
  }

  lemma BusyReply()
    ensures ReplyFrame(0x00, [0x06]) == [0xA5, 0x02, 0x00, 0x06, 0x3A, 0xC2]
  {
    hide Crc, ByteOf;
    CrcOfNothing();
    Absorb([], 0xFFFF, 0x02, 0x2E1F, 0xC1B2, [0x02]);
    Absorb([0x02], 0xC1B2, 0x00, 0xDAAC, 0x7B6D, [0x02, 0x00]);
    Absorb([0x02, 0x00], 0x7B6D, 0x06, 0xA637, 0xC23A, [0x02, 0x00, 0x06]);
    SmallLengths();
    ReplyAssembled(0x00, [0x06], 0x02, [0x02, 0x00, 0x06], 0xC23A, 0x3A, 0xC2);
  }

  lemma MagicReply()
    ensures ReplyFrame(0x01, [0x4D, 0x43, 0x55, 0x4F]) == [0xA5, 0x05, 0x01, 0x4D, 0x43, 0x55, 0x4F, 0xC6, 0xBC]
  {
    hide Crc, ByteOf;
    CrcOfNothing();
    Absorb([], 0xFFFF, 0x05, 0x5E1F, 0xB155, [0x05]);
    Absorb([0x05], 0xB155, 0x01, 0xB43B, 0xF2DB, [0x05, 0x01]);
    Absorb([0x05, 0x01], 0xF2DB, 0x4D, 0x4CDB, 0x8D34, [0x05, 0x01, 0x4D]);
    Absorb([0x05, 0x01, 0x4D], 0x8D34, 0x43, 0x22CC, 0x0C82, [0x05, 0x01, 0x4D, 0x43]);
    Absorb([0x05, 0x01, 0x4D, 0x43], 0x0C82, 0x55, 0xC885, 0x49DC, [0x05, 0x01, 0x4D, 0x43, 0x55]);
    Absorb([0x05, 0x01, 0x4D, 0x43, 0x55], 0x49DC, 0x4F, 0x6DC0, 0xBCC6, [0x05, 0x01, 0x4D, 0x43, 0x55, 0x4F]);
    SmallLengths();
    ReplyAssembled(0x01, [0x4D, 0x43, 0x55, 0x4F], 0x05, [0x05, 0x01, 0x4D, 0x43, 0x55, 0x4F], 0xBCC6, 0xC6, 0xBC);
  }

  lemma WrongMagicReply()
    ensures ReplyFrame(0x01, [0x4D, 0x43, 0x55, 0x50]) == [0xA5, 0x05, 0x01, 0x4D, 0x43, 0x55, 0x50, 0x18, 0x5F]
  {
    hide Crc, ByteOf;
    CrcOfNothing();
    Absorb([], 0xFFFF, 0x05, 0x5E1F, 0xB155, [0x05]);
    Absorb([0x05], 0xB155, 0x01, 0xB43B, 0xF2DB, [0x05, 0x01]);
    Absorb([0x05, 0x01], 0xF2DB, 0x4D, 0x4CDB, 0x8D34, [0x05, 0x01, 0x4D]);
    Absorb([0x05, 0x01, 0x4D], 0x8D34, 0x43, 0x22CC, 0x0C82, [0x05, 0x01, 0x4D, 0x43]);
    Absorb([0x05, 0x01, 0x4D, 0x43], 0x0C82, 0x55, 0xC885, 0x49DC, [0x05, 0x01, 0x4D, 0x43, 0x55]);
    Absorb([0x05, 0x01, 0x4D, 0x43, 0x55], 0x49DC, 0x50, 0x8DE1, 0x5F18, [0x05, 0x01, 0x4D, 0x43, 0x55, 0x50]);
    SmallLengths();
    ReplyAssembled(0x01, [0x4D, 0x43, 0x55, 0x50], 0x05, [0x05, 0x01, 0x4D, 0x43, 0x55, 0x50], 0x5F18, 0x18, 0x5F);
  }

  // ---- received ----
  /** Every published response is received as what it says, and the published malformed ones are not. */
  lemma PublishedResponses()
    ensures Receive([0xA5, 0x01, 0x01, 0x1F, 0x3E]) == Accepted(5, Reply(true, []))
    ensures Receive([0xA5, 0x02, 0x01, 0x01, 0xEC, 0x81]) == Accepted(6, Reply(true, [0x01]))
    ensures Receive([0xA5, 0x02, 0x01, 0x00, 0xCD, 0x91]) == Accepted(6, Reply(true, [0x00]))
    ensures Receive([0xA5, 0x03, 0x01, 0xFA, 0x00, 0x26, 0xD4]) == Accepted(7, Reply(true, [0xFA, 0x00]))
    ensures Receive([0xA5, 0x05, 0x01, 0xE8, 0x03, 0x00, 0x00, 0x39, 0xBF]) == Accepted(9, Reply(true, [0xE8, 0x03, 0x00, 0x00]))
    ensures Receive([0xA5, 0x02, 0x00, 0x06, 0x3A, 0xC2]) == Accepted(6, Reply(false, [0x06]))
    ensures Receive([0xA5, 0x05, 0x01, 0x4D, 0x43, 0x55, 0x4F, 0xC6, 0xBC]) == Accepted(9, Reply(true, [0x4D, 0x43, 0x55, 0x4F]))
    ensures Receive([0xA5, 0x05, 0x01, 0x4D, 0x43, 0x55, 0x50, 0x18, 0x5F]) == Accepted(9, Reply(true, [0x4D, 0x43, 0x55, 0x50]))
  {
    hide Receive, ReplyFrame;
    PublishedFrames();
    LevelHighReply();
    LevelLowReply();
    DutyReply();
    FrequencyReply();
    BusyReply();
    MagicReply();
    WrongMagicReply();
    ReceivedAs(0x01, []);
    ReceivedAs(0x01, [0x01]);
    ReceivedAs(0x01, [0x00]);
    ReceivedAs(0x01, [0xFA, 0x00]);
    ReceivedAs(0x01, [0xE8, 0x03, 0x00, 0x00]);
    ReceivedAs(0x00, [0x06]);
    ReceivedAs(0x01, [0x4D, 0x43, 0x55, 0x4F]);
    ReceivedAs(0x01, [0x4D, 0x43, 0x55, 0x50]);
  }

  lemma ReceivedAs(ack: byte, data: seq<byte>)
    requires |data| <= 4
    ensures Receive(ReplyFrame(ack, data)) == Accepted(5 + |data|, Reply(ack != 0, data))
  {
    hide Receive, ReplyFrame;
    EncodedIsAccepted(ack, data, []);
    assert ReplyFrame(ack, data) + [] == ReplyFrame(ack, data);
  }

  /** A wrong start byte, a LEN of zero or above five, and a frame cut short are no responses. */
  lemma MalformedResponses(s: seq<byte>)
    ensures ParseReply(s).Some? ==> |s| >= 5 && s[0] == 0xA5 && 1 <= s[1] <= 5 && |s| >= 4 + s[1] as nat
    ensures |s| >= 2 && s[0] == 0xA5 && (s[1] < 1 || s[1] > 5) ==> Receive(s) == Rejected(2)
  {
    if |s| >= 2 {
      LengthByte(s[1]);
    }
  }

  lemma LengthByte(b: byte)
    ensures 1 <= b <= 5 <==> 1 <= b as nat <= 5
  {
  }

  // ---- what the calls make of them ----

  /** The busy NACK makes every call report status 6. */
  lemma BusyIsReported(c: Command, e: Expectation, status: int)
    requires InRange(c) && Called(c, e, CommandFrame(c), [0xA5, 0x02, 0x00, 0x06, 0x3A, 0xC2], status)
    ensures status == 6
  {
    hide InRange, CommandFrame, Receive;
    PublishedResponses();
    ReasonReachesCaller(c, e, CommandFrame(c), [0xA5, 0x02, 0x00, 0x06, 0x3A, 0xC2], status);
  }

  /** The probe takes the published answer for the right device, and one with a wrong last letter for another. */
  lemma ProbeTellsDevices(got: seq<byte>, status: int)
    requires Called(Command.Probe, ProbeMagic, CommandFrame(Command.Probe), got, status)
    ensures got == [0xA5, 0x05, 0x01, 0x4D, 0x43, 0x55, 0x4F, 0xC6, 0xBC] ==> status == 0
    ensures got == [0xA5, 0x05, 0x01, 0x4D, 0x43, 0x55, 0x50, 0x18, 0x5F] ==> status == 0x83
  {
    hide CommandFrame, Receive, Meets;
    PublishedResponses();
    if Receive(got) != Incomplete {
      ReasonReachesCaller(Command.Probe, ProbeMagic, CommandFrame(Command.Probe), got, status);
    }
    ProbeWants([0x4D, 0x43, 0x55, 0x4F]);
    ProbeWants([0x4D, 0x43, 0x55, 0x50]);
  }

  lemma ProbeWants(data: seq<byte>)
    requires |data| == 4
    ensures Meets(ProbeMagic, data) <==> data == MAGIC
  {
    MagicSpells(data);
  }
}
