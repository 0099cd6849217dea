/** The command framer and the sixteen builders over it. */
module CommandBuilders {
  import opened Words
  import Crc16
  import opened Protocol
  import opened Status
  import opened Codec
  import opened Endianess

  /** A frame of this opcode and payload was put at the front of a buffer, or there was no room and nothing was touched. */
  predicate Framed(opcode: byte, p: seq<byte>, room: nat, before: seq<byte>, n: int, after: seq<byte>) {
    if |p| <= MAX_PAYLOAD && COMMAND_OVERHEAD + |p| <= room <= |before| then
      n == COMMAND_OVERHEAD + |p| && after == Frame(opcode, p) + before[n..]
    else n == -ERR_ARG && after == before
  }

  /** What a builder asked for `c` did to a buffer: out-of-range fields are refused before anything is written. */
  predicate Built(c: Command, room: nat, before: seq<byte>, n: int, after: seq<byte>) {
    if InRange(c) then Framed(Opcode(c), Payload(c), room, before, n, after)
    else n == -ERR_ARG && after == before
  }

  /** A successful build is read back by the far end as the same command with the same arguments. */
  lemma BuiltDecodes(c: Command, room: nat, before: seq<byte>, n: int, after: seq<byte>)
    requires room <= |before| && Built(c, room, before, n, after)
    ensures n >= 0 <==> InRange(c) && |CommandFrame(c)| <= room
    ensures n >= 0 ==> DecodeCommand(after) == Some(Decoded(c, n)) && |after| == |before| && after[n..] == before[n..]
    ensures n < 0 ==> n == -ERR_ARG && after == before
  {
    hide InRange, DecodeCommand, Opcode, Payload, Frame;
    if n >= 0 {
      CommandSurvives(c, before[n..]);
    }
  }

  function Taken(payload: array?<byte>, n: nat): seq<byte>
    requires n > 0 ==> payload != null && n <= payload.Length
    reads payload
  {
    if n == 0 then [] else payload[..n]
  }

  /** A buffer after its header and the first `i` payload bytes were written. */
  function Partial(header: seq<byte>, p: seq<byte>, i: nat, before: seq<byte>): seq<byte>
    requires i <= |p| && |header| + i <= |before|
  {
    header + p[..i] + before[|header| + i..]
  }

  lemma PartialHeader(before: seq<byte>, a: byte, b: byte, c: byte, p: seq<byte>)
    requires |before| >= 3
    ensures before[0 := a][1 := b][2 := c] == Partial([a, b, c], p, 0, before)
  {
  }

  lemma PartialGrows(header: seq<byte>, p: seq<byte>, i: nat, before: seq<byte>)
    requires i < |p| && |header| + i < |before|
    ensures Partial(header, p, i, before)[|header| + i := p[i]] == Partial(header, p, i + 1, before)
  {
  }

  /** Storing the two CRC bytes behind the payload completes the buffer. */
  lemma PartialCompleted(a: byte, b: byte, c: byte, p: seq<byte>, before: seq<byte>, low: byte, high: byte)
    requires |before| >= |p| + 5
    ensures var s := Partial([a, b, c], p, |p|, before);
            && s[1..3 + |p|] == [b, c] + p
            && s[3 + |p| := low][4 + |p| := high] == [a] + ([b, c] + p) + [low, high] + before[5 + |p|..]
  {
    var s := Partial([a, b, c], p, |p|, before);
    assert p[..|p|] == p;
    assert s == [a, b, c] + p + before[3 + |p|..];
  }

  lemma CompletedIsFramed(opcode: byte, p: seq<byte>, room: nat, before: seq<byte>, after: seq<byte>)
    requires |p| <= MAX_PAYLOAD && |p| + 5 <= room <= |before|
    requires var covered := [opcode, ByteOf(|p|)] + p;
             after == [SOF] + covered + Le16(Crc16.Crc(covered)) + before[5 + |p|..]
    ensures Framed(opcode, p, room, before, 5 + |p|, after)
  {
    hide ByteOf, Crc16.Crc, Le16;
  }

  method BuildFrame(opcode: byte, payload: array?<byte>, payloadLen: nat, buffer: array?<byte>, bufferLen: nat)
    returns (n: int)
    requires payloadLen > 0 ==> payload != null && payloadLen <= payload.Length
    requires buffer != null ==> bufferLen <= buffer.Length && buffer != payload
    modifies buffer
    ensures buffer == null ==> n == -ERR_ARG
    ensures buffer != null ==>
              Framed(opcode, Taken(payload, payloadLen), bufferLen, old(buffer[..]), n, buffer[..])
    ensures buffer != null ==> n == if payloadLen <= 32 && 5 + payloadLen <= bufferLen then 5 + payloadLen else -0x80
  {
    hide ByteOf, Crc16.Crc, Low, High, Partial;
    if buffer == null || payloadLen > MAX_PAYLOAD {
      return -ERR_ARG;
    }
    var frameLen := COMMAND_OVERHEAD + payloadLen;
    if bufferLen < frameLen {
      return -ERR_ARG;
    }
    hide Framed;
    ghost var before := buffer[..];
    ghost var p := Taken(payload, payloadLen);
    ghost var header := [SOF, opcode, ByteOf(payloadLen)];
    buffer[0] := SOF;
    buffer[1] := opcode;
    buffer[2] := ByteOf(payloadLen);
    PartialHeader(before, SOF, opcode, ByteOf(payloadLen), p);
    for i := 0 to payloadLen
      invariant buffer[..] == Partial(header, p, i, before)
      invariant Taken(payload, payloadLen) == p
    {
      PartialGrows(header, p, i, before);
      buffer[3 + i] := payload[i];
    }
    ghost var covered := [opcode, ByteOf(payloadLen)] + p;
    ghost var crc' := Crc16.Crc(covered);
    PartialCompleted(SOF, opcode, ByteOf(payloadLen), p, before, Low(crc'), High(crc'));
    assert buffer[1..1 + (payloadLen + 2)] == buffer[..][1..3 + payloadLen];
    var crc := Crc16.Compute(buffer, 1, payloadLen + 2);
    buffer[frameLen - 2] := Low(crc);
    buffer[frameLen - 1] := High(crc);
    CompletedIsFramed(opcode, p, bufferLen, before, buffer[..]);
    return frameLen;
  }

  method BuildProbe(buffer: array?<byte>, bufferLen: nat) returns (n: int)
    requires buffer != null ==> bufferLen <= buffer.Length
    modifies buffer
    ensures buffer == null ==> n == -ERR_ARG
    ensures buffer != null ==> Built(Probe, bufferLen, old(buffer[..]), n, buffer[..])
  {
    hide Framed, IsPort, IsPin, IsGroup;
    n := BuildFrame(0x10, null, 0, buffer, bufferLen);
  }

  method BuildReset(buffer: array?<byte>, bufferLen: nat) returns (n: int)
    requires buffer != null ==> bufferLen <= buffer.Length
    modifies buffer
    ensures buffer == null ==> n == -ERR_ARG
    ensures buffer != null ==> Built(Reset, bufferLen, old(buffer[..]), n, buffer[..])
  {
    hide Framed, IsPort, IsPin, IsGroup;
    n := BuildFrame(0x11, null, 0, buffer, bufferLen);
  }

  method BuildGpioCfg(direction: u32, port: u32, pin: byte, buffer: array?<byte>, bufferLen: nat) returns (n: int)
    requires buffer != null ==> bufferLen <= buffer.Length
    modifies buffer
    ensures buffer == null ==> n == -ERR_ARG
    ensures buffer != null ==> Built(GpioCfg(direction, port, pin), bufferLen, old(buffer[..]), n, buffer[..])
  {
    hide Framed, IsPort, IsPin, IsGroup;
    if direction != 0 && direction != 1 {
      return -ERR_ARG;
    }
    if !IsPort(port) || !IsPin(pin) {
      return -ERR_ARG;
    }
    var payload := new byte[3];
    payload[0] := Truncate(direction);
    payload[1] := Truncate(port);
    payload[2] := pin;
    assert Taken(payload, payload.Length) == Payload(GpioCfg(direction, port, pin));
    n := BuildFrame(0x30, payload, payload.Length, buffer, bufferLen);
  }

  method BuildGpioSet(level: u32, port: u32, pin: byte, buffer: array?<byte>, bufferLen: nat) returns (n: int)
    requires buffer != null ==> bufferLen <= buffer.Length
    modifies buffer
    ensures buffer == null ==> n == -ERR_ARG
    ensures buffer != null ==> Built(GpioSet(level, port, pin), bufferLen, old(buffer[..]), n, buffer[..])
  {
    hide Framed, IsPort, IsPin, IsGroup;
    if level != 0 && level != 1 {
      return -ERR_ARG;
    }
    if !IsPort(port) || !IsPin(pin) {
      return -ERR_ARG;
    }
    var payload := new byte[3];
    payload[0] := Truncate(level);
    payload[1] := Truncate(port);
    payload[2] := pin;
    assert Taken(payload, payload.Length) == Payload(GpioSet(level, port, pin));
    n := BuildFrame(0x31, payload, payload.Length, buffer, bufferLen);
  }

  method BuildGpioGet(port: u32, pin: byte, buffer: array?<byte>, bufferLen: nat) returns (n: int)
    requires buffer != null ==> bufferLen <= buffer.Length
    modifies buffer
    ensures buffer == null ==> n == -ERR_ARG
    ensures buffer != null ==> Built(GpioGet(port, pin), bufferLen, old(buffer[..]), n, buffer[..])
  {
    hide Framed, IsPort, IsPin, IsGroup;
    if !IsPort(port) || !IsPin(pin) {
      return -ERR_ARG;
    }
    var payload := new byte[2];
    payload[0] := Truncate(port);
    payload[1] := pin;
    assert Taken(payload, payload.Length) == Payload(GpioGet(port, pin));
    n := BuildFrame(0x32, payload, payload.Length, buffer, bufferLen);
  }

  method BuildGroupCfg(frequency: u32, group: byte, buffer: array?<byte>, bufferLen: nat) returns (n: int)
    requires buffer != null ==> bufferLen <= buffer.Length
    modifies buffer
    ensures buffer == null ==> n == -ERR_ARG
    ensures buffer != null ==> Built(GroupCfg(frequency, group), bufferLen, old(buffer[..]), n, buffer[..])
  {
    hide Framed, IsPort, IsPin, IsGroup;
    if frequency < 1 || frequency > 1000000 {
      return -ERR_ARG;
    }
    if !IsGroup(group) {
      return -ERR_ARG;
    }
    var payload := new byte[5];
    var _ := PutU32Le(payload, frequency);
    payload[4] := group;
    assert Taken(payload, payload.Length) == Payload(GroupCfg(frequency, group));
    n := BuildFrame(0x40, payload, payload.Length, buffer, bufferLen);
  }

  method BuildGroupGet(group: byte, buffer: array?<byte>, bufferLen: nat) returns (n: int)
    requires buffer != null ==> bufferLen <= buffer.Length
    modifies buffer
    ensures buffer == null ==> n == -ERR_ARG
    ensures buffer != null ==> Built(GroupGet(group), bufferLen, old(buffer[..]), n, buffer[..])
  {
    hide Framed, IsPort, IsPin, IsGroup;
    if !IsGroup(group) {
      return -ERR_ARG;
    }
    var payload := new byte[1];
    payload[0] := group;
    assert Taken(payload, payload.Length) == Payload(GroupGet(group));
    n := BuildFrame(0x45, payload, payload.Length, buffer, bufferLen);
  }

  method BuildGpioToggle(port: u32, pin: byte, buffer: array?<byte>, bufferLen: nat) returns (n: int)
    requires buffer != null ==> bufferLen <= buffer.Length
    modifies buffer
    ensures buffer == null ==> n == -ERR_ARG
    ensures buffer != null ==> Built(GpioToggle(port, pin), bufferLen, old(buffer[..]), n, buffer[..])
  {
    hide Framed, IsPort, IsPin, IsGroup;
    if !IsPort(port) || !IsPin(pin) {
      return -ERR_ARG;
    }
    var payload := new byte[2];
    payload[0] := Truncate(port);
    payload[1] := pin;
    assert Taken(payload, payload.Length) == Payload(GpioToggle(port, pin));
    n := BuildFrame(0x36, payload, payload.Length, buffer, bufferLen);
  }

  method BuildIrqCfg(edge: u32, port: u32, pin: byte, buffer: array?<byte>, bufferLen: nat) returns (n: int)
    requires buffer != null ==> bufferLen <= buffer.Length
    modifies buffer
    ensures buffer == null ==> n == -ERR_ARG
    ensures buffer != null ==> Built(IrqCfg(edge, port, pin), bufferLen, old(buffer[..]), n, buffer[..])
  {
    hide Framed, IsPort, IsPin, IsGroup;
    if edge > 3 {
      return -ERR_ARG;
    }
    if !IsPort(port) || !IsPin(pin) {
      return -ERR_ARG;
    }
    var payload := new byte[3];
    payload[0] := Truncate(edge);
    payload[1] := Truncate(port);
    payload[2] := pin;
    assert Taken(payload, payload.Length) == Payload(IrqCfg(edge, port, pin));
    n := BuildFrame(0x34, payload, payload.Length, buffer, bufferLen);
  }

  method BuildIrqBind(edge: u32, port: u32, pin: byte, action: u32, outPort: u32, outPin: byte,
                      buffer: array?<byte>, bufferLen: nat)
    returns (n: int)
    requires buffer != null ==> bufferLen <= buffer.Length
    modifies buffer
    ensures buffer == null ==> n == -ERR_ARG
    ensures buffer != null ==> Built(IrqBind(edge, port, pin, action, outPort, outPin), bufferLen, old(buffer[..]), n, buffer[..])
  {
    hide Framed, IsPort, IsPin, IsGroup;
    if edge < 1 || edge > 3 {
      return -ERR_ARG;
    }
    if action > 2 {
      return -ERR_ARG;
    }
    if !IsPort(port) || !IsPin(pin) {
      return -ERR_ARG;
    }
    if !IsPort(outPort) || !IsPin(outPin) {
      return -ERR_ARG;
    }
    var payload := new byte[6];
    payload[0] := Truncate(edge);
    payload[1] := Truncate(port);
    payload[2] := pin;
    payload[3] := Truncate(action);
    payload[4] := Truncate(outPort);
    payload[5] := outPin;
    assert Taken(payload, payload.Length) == Payload(IrqBind(edge, port, pin, action, outPort, outPin));
    n := BuildFrame(0x33, payload, payload.Length, buffer, bufferLen);
  }

  method BuildIrqUnbind(port: u32, pin: byte, buffer: array?<byte>, bufferLen: nat) returns (n: int)
    requires buffer != null ==> bufferLen <= buffer.Length
    modifies buffer
    ensures buffer == null ==> n == -ERR_ARG
    ensures buffer != null ==> Built(IrqUnbind(port, pin), bufferLen, old(buffer[..]), n, buffer[..])
  {
    hide Framed, IsPort, IsPin, IsGroup;
    if !IsPort(port) || !IsPin(pin) {
      return -ERR_ARG;
    }
    var payload := new byte[2];
    payload[0] := Truncate(port);
    payload[1] := pin;
    assert Taken(payload, payload.Length) == Payload(IrqUnbind(port, pin));
    n := BuildFrame(0x35, payload, payload.Length, buffer, bufferLen);
  }

  method BuildGroupRelease(group: byte, buffer: array?<byte>, bufferLen: nat) returns (n: int)
    requires buffer != null ==> bufferLen <= buffer.Length
    modifies buffer
    ensures buffer == null ==> n == -ERR_ARG
    ensures buffer != null ==> Built(GroupRelease(group), bufferLen, old(buffer[..]), n, buffer[..])
  {
    hide Framed, IsPort, IsPin, IsGroup;
    if !IsGroup(group) {
      return -ERR_ARG;
    }
    var payload := new byte[1];
    payload[0] := group;
    assert Taken(payload, payload.Length) == Payload(GroupRelease(group));
    n := BuildFrame(0x46, payload, payload.Length, buffer, bufferLen);
  }

  method BuildChannelCfg(polarity: u32, port: u32, pin: byte, buffer: array?<byte>, bufferLen: nat) returns (n: int)
    requires buffer != null ==> bufferLen <= buffer.Length
    modifies buffer
    ensures buffer == null ==> n == -ERR_ARG
    ensures buffer != null ==> Built(ChannelCfg(polarity, port, pin), bufferLen, old(buffer[..]), n, buffer[..])
  {
    hide Framed, IsPort, IsPin, IsGroup;
    if polarity != 0 && polarity != 1 {
      return -ERR_ARG;
    }
    if !IsPort(port) || !IsPin(pin) {
      return -ERR_ARG;
    }
    var payload := new byte[3];
    payload[0] := Truncate(polarity);
    payload[1] := Truncate(port);
    payload[2] := pin;
    assert Taken(payload, payload.Length) == Payload(ChannelCfg(polarity, port, pin));
    n := BuildFrame(0x41, payload, payload.Length, buffer, bufferLen);
  }

  method BuildChannelSet(duty: u16, port: u32, pin: byte, buffer: array?<byte>, bufferLen: nat) returns (n: int)
    requires buffer != null ==> bufferLen <= buffer.Length
    modifies buffer
    ensures buffer == null ==> n == -ERR_ARG
    ensures buffer != null ==> Built(ChannelSet(duty, port, pin), bufferLen, old(buffer[..]), n, buffer[..])
  {
    hide Framed, IsPort, IsPin, IsGroup;
    if duty > 1000 {
      return -ERR_ARG;
    }
    if !IsPort(port) || !IsPin(pin) {
      return -ERR_ARG;
    }
    var payload := new byte[4];
    var _ := PutU16Le(payload, duty);
    payload[2] := Truncate(port);
    payload[3] := pin;
    assert Taken(payload, payload.Length) == Payload(ChannelSet(duty, port, pin));
    n := BuildFrame(0x42, payload, payload.Length, buffer, bufferLen);
  }

  method BuildChannelGet(port: u32, pin: byte, buffer: array?<byte>, bufferLen: nat) returns (n: int)
    requires buffer != null ==> bufferLen <= buffer.Length
    modifies buffer
    ensures buffer == null ==> n == -ERR_ARG
    ensures buffer != null ==> Built(ChannelGet(port, pin), bufferLen, old(buffer[..]), n, buffer[..])
  {
    hide Framed, IsPort, IsPin, IsGroup;
    if !IsPort(port) || !IsPin(pin) {
      return -ERR_ARG;
    }
    var payload := new byte[2];
    payload[0] := Truncate(port);
    payload[1] := pin;
    assert Taken(payload, payload.Length) == Payload(ChannelGet(port, pin));
    n := BuildFrame(0x44, payload, payload.Length, buffer, bufferLen);
  }

  method BuildChannelRelease(port: u32, pin: byte, buffer: array?<byte>, bufferLen: nat) returns (n: int)
    requires buffer != null ==> bufferLen <= buffer.Length
    modifies buffer
    ensures buffer == null ==> n == -ERR_ARG
    ensures buffer != null ==> Built(ChannelRelease(port, pin), bufferLen, old(buffer[..]), n, buffer[..])
  {
    hide Framed, IsPort, IsPin, IsGroup;
    if !IsPort(port) || !IsPin(pin) {
      return -ERR_ARG;
    }
    var payload := new byte[2];
    payload[0] := Truncate(port);
    payload[1] := pin;
    assert Taken(payload, payload.Length) == Payload(ChannelRelease(port, pin));
    n := BuildFrame(0x43, payload, payload.Length, buffer, bufferLen);
  }

  /** The builder that belongs to a command. */
  method BuildCommand(c: Command, buffer: array<byte>, bufferLen: nat) returns (n: int)
    requires bufferLen <= buffer.Length
    modifies buffer
    ensures Built(c, bufferLen, old(buffer[..]), n, buffer[..])
  {
    hide Built;
    match c
    case Probe => n := BuildProbe(buffer, bufferLen);
    case Reset => n := BuildReset(buffer, bufferLen);
    case GpioCfg(direction, port, pin) => n := BuildGpioCfg(direction, port, pin, buffer, bufferLen);
    case GpioSet(level, port, pin) => n := BuildGpioSet(level, port, pin, buffer, bufferLen);
    case GpioGet(port, pin) => n := BuildGpioGet(port, pin, buffer, bufferLen);
    case GpioToggle(port, pin) => n := BuildGpioToggle(port, pin, buffer, bufferLen);
    case IrqCfg(edge, port, pin) => n := BuildIrqCfg(edge, port, pin, buffer, bufferLen);
    case IrqBind(edge, port, pin, action, outPort, outPin) =>
      n := BuildIrqBind(edge, port, pin, action, outPort, outPin, buffer, bufferLen);
    case IrqUnbind(port, pin) => n := BuildIrqUnbind(port, pin, buffer, bufferLen);
    case GroupCfg(frequency, group) => n := BuildGroupCfg(frequency, group, buffer, bufferLen);
    case GroupGet(group) => n := BuildGroupGet(group, buffer, bufferLen);
    case GroupRelease(group) => n := BuildGroupRelease(group, buffer, bufferLen);
    case ChannelCfg(polarity, port, pin) => n := BuildChannelCfg(polarity, port, pin, buffer, bufferLen);
    case ChannelSet(duty, port, pin) => n := BuildChannelSet(duty, port, pin, buffer, bufferLen);
    case ChannelGet(port, pin) => n := BuildChannelGet(port, pin, buffer, bufferLen);
    case ChannelRelease(port, pin) => n := BuildChannelRelease(port, pin, buffer, bufferLen);
  }
}
