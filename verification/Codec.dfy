/** The codec's round trips: commands survive the wire, and the response parser accepts exactly the encoded responses. */
module Codec {
  import opened Words
  import opened Crc16
  import opened Protocol

  // ---- commands ----

  lemma PortSurvives(port: u32)
    requires IsPort(port)
    ensures Widen(Truncate(port)) == port
  {
    TruncateRoundTrip(port);
  }

  lemma ChoiceSurvives(choice: u32)
    requires choice <= 3
    ensures Widen(Truncate(choice)) == choice
  {
    TruncateRoundTrip(choice);
  }

  lemma ChoicePortPinFields(c: Command)
    requires InRange(c) && (c.GpioCfg? || c.GpioSet? || c.IrqCfg? || c.ChannelCfg?)
    ensures Fields(Opcode(c), Payload(c)) == Some(c)
  {
    hide IsPort, IsPin, IsGroup, Truncate, Widen, FromLe32, FromLe16, Low, High;
    PortSurvives(c.port);
    match c
    case GpioCfg(direction, _, _) => ChoiceSurvives(direction);
    case GpioSet(level, _, _) => ChoiceSurvives(level);
    case IrqCfg(edge, _, _) => ChoiceSurvives(edge);
    case ChannelCfg(polarity, _, _) => ChoiceSurvives(polarity);
  }

  lemma PortPinFields(c: Command)
    requires InRange(c) && (c.GpioGet? || c.GpioToggle? || c.IrqUnbind? || c.ChannelGet? || c.ChannelRelease?)
    ensures Fields(Opcode(c), Payload(c)) == Some(c)
  {
    hide IsPort, IsPin, IsGroup, Truncate, Widen, FromLe32, FromLe16, Low, High;
    PortSurvives(c.port);
  }

  lemma SixFields(p: seq<byte>)
    requires |p| == 6
    ensures Fields(0x33, p) == Some(IrqBind(Widen(p[0]), Widen(p[1]), p[2], Widen(p[3]), Widen(p[4]), p[5]))
  {
    hide Widen;
  }

  lemma IrqBindFields(c: Command)
    requires InRange(c) && c.IrqBind?
    ensures Fields(Opcode(c), Payload(c)) == Some(c)
  {
    hide Fields, IsPort, IsPin, IsGroup, Truncate, Widen, FromLe32, FromLe16, Low, High;
    ChoiceSurvives(c.edge);
    PortSurvives(c.port);
    ChoiceSurvives(c.action);
    PortSurvives(c.outPort);
    SixFields(Payload(c));
  }

  lemma GroupFields(c: Command)
    requires InRange(c) && (c.Probe? || c.Reset? || c.GroupCfg? || c.GroupGet? || c.GroupRelease?)
    ensures Fields(Opcode(c), Payload(c)) == Some(c)
  {
    hide IsPort, IsPin, IsGroup, Truncate, Widen, FromLe32, FromLe16, Low, High;
    if c.GroupCfg? {
      Le32RoundTrip(c.frequency);
    }
  }

  lemma ChannelSetFields(c: Command)
    requires InRange(c) && c.ChannelSet?
    ensures Fields(Opcode(c), Payload(c)) == Some(c)
  {
    hide IsPort, IsPin, IsGroup, Truncate, Widen, FromLe32, FromLe16, Low, High;
    Le16RoundTrip(c.duty);
    PortSurvives(c.port);
  }

  lemma FieldsOfPayload(c: Command)
    requires InRange(c)
    ensures Fields(Opcode(c), Payload(c)) == Some(c)
  {
    hide Fields, Opcode, Payload, InRange;
    if c.GpioCfg? || c.GpioSet? || c.IrqCfg? || c.ChannelCfg? {
      ChoicePortPinFields(c);
    } else if c.GpioGet? || c.GpioToggle? || c.IrqUnbind? || c.ChannelGet? || c.ChannelRelease? {
      PortPinFields(c);
    } else if c.IrqBind? {
      IrqBindFields(c);
    } else if c.ChannelSet? {
      ChannelSetFields(c);
    } else {
      GroupFields(c);
    }
  }

  lemma FramePieces(opcode: byte, length: byte, p: seq<byte>, low: byte, high: byte, tail: seq<byte>)
    ensures var s := [SOF] + ([opcode, length] + p) + [low, high] + tail;
            && |s| == 5 + |p| + |tail| && s[0] == SOF && s[1] == opcode && s[2] == length
            && s[1..3 + |p|] == [opcode, length] + p && s[3..3 + |p|] == p
            && s[3 + |p|] == low && s[4 + |p|] == high
  {
    var s := [SOF] + ([opcode, length] + p) + [low, high] + tail;
    Middle([SOF], [opcode, length] + p, [low, high] + tail);
    Middle([SOF, opcode, length], p, [low, high] + tail);
    assert s == [SOF] + ([opcode, length] + p) + ([low, high] + tail);
    assert s == [SOF, opcode, length] + p + ([low, high] + tail);
  }

  /** Whatever follows it on the wire, a frame is read back as the command it was built from, to its last byte. */
  lemma CommandSurvives(c: Command, tail: seq<byte>)
    requires InRange(c)
    ensures DecodeCommand(CommandFrame(c) + tail) == Some(Decoded(c, |CommandFrame(c)|))
  {
    hide Crc, Fields, Payload, Opcode, InRange, Low, High, FromLe16, ByteOf;
    var p := Payload(c);
    var crc := Crc([Opcode(c), ByteOf(|p|)] + p);
    Le16RoundTrip(crc);
    ByteOfLength(|p|);
    FieldsOfPayload(c);
    FramePieces(Opcode(c), ByteOf(|p|), p, Low(crc), High(crc), tail);
  }

  /** No command's frame begins another's: the sixteen builders' frames are told apart by their bytes. */
  lemma FramesAreInjective(c: Command, d: Command)
    requires InRange(c) && InRange(d)
    requires CommandFrame(c) <= CommandFrame(d)
    ensures c == d
  {
    hide CommandFrame, DecodeCommand, InRange;
    CommandSurvives(c, CommandFrame(d)[|CommandFrame(c)|..]);
    CommandSurvives(d, []);
    assert CommandFrame(c) + CommandFrame(d)[|CommandFrame(c)|..] == CommandFrame(d);
    assert CommandFrame(d) + [] == CommandFrame(d);
  }

  /** Frames delimit themselves: a wire log is read back as exactly the commands that were written to it. */
  lemma {:induction false} CommandsSurvive(cs: seq<Command>)
    requires forall c :: c in cs ==> InRange(c)
    ensures DecodeCommands(Frames(cs)) == cs
  {
    hide CommandFrame, DecodeCommand, InRange;
    if cs == [] {
      NothingDecodes();
    } else {
      var rest := Frames(cs[1..]);
      CommandSurvives(cs[0], rest);
      assert (CommandFrame(cs[0]) + rest)[|CommandFrame(cs[0])|..] == rest;
      CommandsSurvive(cs[1..]);
    }
  }

  lemma NothingDecodes()
    ensures DecodeCommand([]).None?
  {
  }

  lemma {:induction false} FramesSnoc(cs: seq<Command>, c: Command)
    ensures Frames(cs + [c]) == Frames(cs) + CommandFrame(c)
  {
    hide CommandFrame;
    if cs == [] {
      assert cs + [c] == [c] && [c][1..] == [];
    } else {
      FramesSnoc(cs[1..], c);
      assert (cs + [c])[1..] == cs[1..] + [c];
    }
  }

  // ---- responses ----

  predicate Encodes(s: seq<byte>, ack: byte, data: seq<byte>) {
    |data| <= MAX_RESPONSE_DATA && ReplyFrame(ack, data) <= s
  }

  lemma ReplySurvives(ack: byte, data: seq<byte>, tail: seq<byte>)
    requires |data| <= MAX_RESPONSE_DATA
    ensures ParseReply(ReplyFrame(ack, data) + tail) == Some(Reply(ack != 0, data))
  {
    hide Crc, Low, High, FromLe16, ByteOf;
    var length := |data| + 1;
    var crc := Crc([ByteOf(length), ack] + data);
    Le16RoundTrip(crc);
    ByteOfLength(length);
    FramePieces(ByteOf(length), ack, data, Low(crc), High(crc), tail);
  }

  lemma ReplyParts(s: seq<byte>, n: nat)
    requires n >= 1 && |s| >= 4 + n
    ensures s[..4 + n] == [s[0]] + s[1..2 + n] + [s[2 + n], s[3 + n]]
    ensures s[1..2 + n] == [s[1], s[2]] + s[3..2 + n]
  {
  }

  lemma ParsedIsEncoded(s: seq<byte>)
    requires ParseReply(s).Some?
    ensures Encodes(s, s[2], ParseReply(s).value.data)
    ensures ParseReply(s).value.ack == (s[2] != 0)
  {
    hide Crc, Low, High, FromLe16, ByteOf;
    var length := s[1] as nat;
    ReplyParts(s, length);
    LengthByte(s[1]);
    FromLe16RoundTrip(s[2 + length], s[3 + length]);
    assert s[..4 + length] == ReplyFrame(s[2], s[3..2 + length]);
  }

  lemma LengthByte(b: byte)
    ensures ByteOf(b as nat) == b
  {
    hide ByteOf;
    ByteOfLength(b as nat);
    SameByte(ByteOf(b as nat), b);
  }

  /** The parser accepts exactly the inputs that begin with an encoded response, and returns what was encoded. */
  lemma ParserCharacterised(s: seq<byte>, r: Reply)
    ensures ParseReply(s) == Some(r) <==>
            exists ack: byte, data: seq<byte> :: Encodes(s, ack, data) && r == Reply(ack != 0, data)
  {
    hide ParseReply, ReplyFrame;
    if ParseReply(s) == Some(r) {
      ParsedIsEncoded(s);
      assert Encodes(s, s[2], r.data) && r == Reply(s[2] != 0, r.data);
    }
    if exists ack: byte, data: seq<byte> :: Encodes(s, ack, data) && r == Reply(ack != 0, data) {
      var ack: byte, data: seq<byte> :| Encodes(s, ack, data) && r == Reply(ack != 0, data);
      var f := ReplyFrame(ack, data);
      ReplySurvives(ack, data, s[|f|..]);
      assert f + s[|f|..] == s;
    }
  }
}
