/**
 The wire layouts: what a command and a response look like as bytes, and how the far end reads a command.
 The firmware is not part of this model; its decoder here is the inverse the layout prescribes.
 */
module Protocol {
  import opened Words
  import opened Crc16

  const SOF: byte := 0xA5
  const MAX_PAYLOAD: nat := 32
  const MAX_RESPONSE_DATA: nat := 4
  const COMMAND_OVERHEAD: nat := 5
  const RESPONSE_OVERHEAD: nat := 4
  const MAX_COMMAND_FRAME: nat := COMMAND_OVERHEAD + MAX_PAYLOAD
  const MIN_RESPONSE_LEN: nat := 1
  const MAX_RESPONSE_LEN: nat := MIN_RESPONSE_LEN + MAX_RESPONSE_DATA
  const MIN_RESPONSE_FRAME: nat := RESPONSE_OVERHEAD + MIN_RESPONSE_LEN
  const MAX_RESPONSE_FRAME: nat := RESPONSE_OVERHEAD + MAX_RESPONSE_LEN

  /** The arguments of one library call, raw: nothing here promises that they are in range. */
  datatype Command =
    | Probe
    | Reset
    | GpioCfg(direction: u32, port: u32, pin: byte)
    | GpioSet(level: u32, port: u32, pin: byte)
    | GpioGet(port: u32, pin: byte)
    | GpioToggle(port: u32, pin: byte)
    | IrqCfg(edge: u32, port: u32, pin: byte)
    | IrqBind(edge: u32, port: u32, pin: byte, action: u32, outPort: u32, outPin: byte)
    | IrqUnbind(port: u32, pin: byte)
    | GroupCfg(frequency: u32, group: byte)
    | GroupGet(group: byte)
    | GroupRelease(group: byte)
    | ChannelCfg(polarity: u32, port: u32, pin: byte)
    | ChannelSet(duty: u16, port: u32, pin: byte)
    | ChannelGet(port: u32, pin: byte)
    | ChannelRelease(port: u32, pin: byte)

  predicate IsPort(port: u32) { port <= 6 }

  predicate IsPin(pin: byte) { pin <= 15 }

  predicate IsGroup(group: byte) { group <= 2 }

  predicate IsFrequency(frequency: u32) { 1 <= frequency <= 1000000 }

  /** The ranges the public header documents for each field. */
  predicate InRange(c: Command) {
    match c
    case Probe => true
    case Reset => true
    case GpioCfg(direction, port, pin) => direction <= 1 && IsPort(port) && IsPin(pin)
    case GpioSet(level, port, pin) => level <= 1 && IsPort(port) && IsPin(pin)
    case GpioGet(port, pin) => IsPort(port) && IsPin(pin)
    case GpioToggle(port, pin) => IsPort(port) && IsPin(pin)
    case IrqCfg(edge, port, pin) => edge <= 3 && IsPort(port) && IsPin(pin)
    case IrqBind(edge, port, pin, action, outPort, outPin) =>
      1 <= edge <= 3 && IsPort(port) && IsPin(pin) && action <= 2 && IsPort(outPort) && IsPin(outPin)
    case IrqUnbind(port, pin) => IsPort(port) && IsPin(pin)
    case GroupCfg(frequency, group) => IsFrequency(frequency) && IsGroup(group)
    case GroupGet(group) => IsGroup(group)
    case GroupRelease(group) => IsGroup(group)
    case ChannelCfg(polarity, port, pin) => polarity <= 1 && IsPort(port) && IsPin(pin)
    case ChannelSet(duty, port, pin) => duty <= 1000 && IsPort(port) && IsPin(pin)
    case ChannelGet(port, pin) => IsPort(port) && IsPin(pin)
    case ChannelRelease(port, pin) => IsPort(port) && IsPin(pin)
  }

  function Opcode(c: Command): byte {
    match c
    case Probe => 0x10
    case Reset => 0x11
    case GpioCfg(_, _, _) => 0x30
    case GpioSet(_, _, _) => 0x31
    case GpioGet(_, _) => 0x32
    case IrqBind(_, _, _, _, _, _) => 0x33
    case IrqCfg(_, _, _) => 0x34
    case IrqUnbind(_, _) => 0x35
    case GpioToggle(_, _) => 0x36
    case GroupCfg(_, _) => 0x40
    case ChannelCfg(_, _, _) => 0x41
    case ChannelSet(_, _, _) => 0x42
    case ChannelRelease(_, _) => 0x43
    case ChannelGet(_, _) => 0x44
    case GroupGet(_) => 0x45
    case GroupRelease(_) => 0x46
  }

  function Payload(c: Command): (p: seq<byte>)
    ensures |p| <= 6
  {
    match c
    case Probe => []
    case Reset => []
    case GpioCfg(direction, port, pin) => [Truncate(direction), Truncate(port), pin]
    case GpioSet(level, port, pin) => [Truncate(level), Truncate(port), pin]
    case GpioGet(port, pin) => [Truncate(port), pin]
    case GpioToggle(port, pin) => [Truncate(port), pin]
    case IrqCfg(edge, port, pin) => [Truncate(edge), Truncate(port), pin]
    case IrqBind(edge, port, pin, action, outPort, outPin) =>
      [Truncate(edge), Truncate(port), pin, Truncate(action), Truncate(outPort), outPin]
    case IrqUnbind(port, pin) => [Truncate(port), pin]
    case GroupCfg(frequency, group) => Le32(frequency) + [group]
    case GroupGet(group) => [group]
    case GroupRelease(group) => [group]
    case ChannelCfg(polarity, port, pin) => [Truncate(polarity), Truncate(port), pin]
    case ChannelSet(duty, port, pin) => Le16(duty) + [Truncate(port), pin]
    case ChannelGet(port, pin) => [Truncate(port), pin]
    case ChannelRelease(port, pin) => [Truncate(port), pin]
  }

  /** SOF, opcode, length, payload, and the CRC of what stands between, low byte first. */
  function Frame(opcode: byte, payload: seq<byte>): (f: seq<byte>)
    requires |payload| <= MAX_PAYLOAD
    ensures |f| == COMMAND_OVERHEAD + |payload|
  {
    var covered := [opcode, ByteOf(|payload|)] + payload;
    [SOF] + covered + Le16(Crc(covered))
  }

  function CommandFrame(c: Command): (f: seq<byte>)
    ensures COMMAND_OVERHEAD <= |f| <= MAX_COMMAND_FRAME
  {
    Frame(Opcode(c), Payload(c))
  }

  // ---- the far end's reading of a command ----

  /** The fields an opcode and payload spell out, before their ranges are looked at. */
  function Fields(opcode: byte, p: seq<byte>): Option<Command> {
    if opcode == 0x10 && |p| == 0 then Some(Probe)
    else if opcode == 0x11 && |p| == 0 then Some(Reset)
    else if opcode == 0x30 && |p| == 3 then Some(GpioCfg(Widen(p[0]), Widen(p[1]), p[2]))
    else if opcode == 0x31 && |p| == 3 then Some(GpioSet(Widen(p[0]), Widen(p[1]), p[2]))
    else if opcode == 0x32 && |p| == 2 then Some(GpioGet(Widen(p[0]), p[1]))
    else if opcode == 0x33 && |p| == 6 then Some(IrqBind(Widen(p[0]), Widen(p[1]), p[2], Widen(p[3]), Widen(p[4]), p[5]))
    else if opcode == 0x34 && |p| == 3 then Some(IrqCfg(Widen(p[0]), Widen(p[1]), p[2]))
    else if opcode == 0x35 && |p| == 2 then Some(IrqUnbind(Widen(p[0]), p[1]))
    else if opcode == 0x36 && |p| == 2 then Some(GpioToggle(Widen(p[0]), p[1]))
    else if opcode == 0x40 && |p| == 5 then Some(GroupCfg(FromLe32(p[0], p[1], p[2], p[3]), p[4]))
    else if opcode == 0x41 && |p| == 3 then Some(ChannelCfg(Widen(p[0]), Widen(p[1]), p[2]))
    else if opcode == 0x42 && |p| == 4 then Some(ChannelSet(FromLe16(p[0], p[1]), Widen(p[2]), p[3]))
    else if opcode == 0x43 && |p| == 2 then Some(ChannelRelease(Widen(p[0]), p[1]))
    else if opcode == 0x44 && |p| == 2 then Some(ChannelGet(Widen(p[0]), p[1]))
    else if opcode == 0x45 && |p| == 1 then Some(GroupGet(p[0]))
    else if opcode == 0x46 && |p| == 1 then Some(GroupRelease(p[0]))
    else None
  }

  datatype Decoded = Decoded(command: Command, used: nat)

  /** The command at the front of a byte stream, if a whole valid one stands there. */
  function DecodeCommand(s: seq<byte>): (d: Option<Decoded>)
    ensures d.Some? ==> COMMAND_OVERHEAD <= d.value.used <= |s|
  {
    if |s| < COMMAND_OVERHEAD || s[0] != SOF then None
    else
      var n := s[2] as nat;
      if n > MAX_PAYLOAD || |s| < COMMAND_OVERHEAD + n then None
      else if FromLe16(s[3 + n], s[4 + n]) != Crc(s[1..3 + n]) then None
      else
        match Fields(s[1], s[3..3 + n])
        case None => None
        case Some(c) => if InRange(c) then Some(Decoded(c, COMMAND_OVERHEAD + n)) else None
  }

  /** Every command in a stream of back-to-back frames, up to the first that does not decode. */
  function DecodeCommands(s: seq<byte>): seq<Command>
    decreases |s|
  {
    match DecodeCommand(s)
    case None => []
    case Some(d) => [d.command] + DecodeCommands(s[d.used..])
  }

  function Frames(cs: seq<Command>): seq<byte> {
    if cs == [] then [] else CommandFrame(cs[0]) + Frames(cs[1..])
  }

  // ---- responses ----

  /** What a response says: the ACK flag and the data behind it. */
  datatype Reply = Reply(ack: bool, data: seq<byte>)

  /** SOF, LEN, ACK/NACK, data, and the CRC of all but SOF, low byte first. */
  function ReplyFrame(ack: byte, data: seq<byte>): (f: seq<byte>)
    requires |data| <= MAX_RESPONSE_DATA
    ensures |f| == MIN_RESPONSE_FRAME + |data|
  {
    var covered := [ByteOf(|data| + 1), ack] + data;
    [SOF] + covered + Le16(Crc(covered))
  }

  /** The checks of the response parser, in its order. */
  function ParseReply(s: seq<byte>): (r: Option<Reply>)
    ensures r.Some? ==> |r.value.data| <= MAX_RESPONSE_DATA
  {
    if |s| < MIN_RESPONSE_FRAME || s[0] != SOF then None
    else
      var length := s[1] as nat;
      if length < MIN_RESPONSE_LEN || length > MAX_RESPONSE_LEN then None
      else if |s| < RESPONSE_OVERHEAD + length then None
      else if Crc(s[1..2 + length]) != FromLe16(s[2 + length], s[3 + length]) then None
      else Some(Reply(s[2] != 0, s[3..2 + length]))
  }
}
