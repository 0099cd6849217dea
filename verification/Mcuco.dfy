/** The library calls: one command, one response, and what the caller is told. */
module Mcuco {
  import opened Words
  import opened Status
  import opened Protocol
  import opened CommandBuilders
  import opened Reception
  import opened ResponseParser
  import opened CommandTransport
  import opened Endianess
  import opened Uart

  class Handle {
    const port: Port
    const timeoutMs: int32

    constructor (port: Port, timeoutMs: int32)
      ensures this.port == port && this.timeoutMs == timeoutMs
    {
      this.port, this.timeoutMs := port, timeoutMs;
    }
  }

  const MAGIC: seq<byte> := [0x4D, 0x43, 0x55, 0x4F]

  /** Success for an ACK; the reason byte, taken as it is, for a NACK that has exactly that one byte. */
  function StatusFromReply(r: Reply): int {
    if r.ack then OK
    else if |r.data| != 1 then ERR_BAD_FRAME
    else r.data[0] as int
  }

  /** What a call wants of the data behind an acknowledgement. */
  datatype Expectation = Anything | Width(n: nat) | ProbeMagic

  lemma MagicSpells(data: seq<byte>)
    requires |data| == 4
    ensures data == MAGIC <==> forall i :: 0 <= i < 4 ==> data[i] as int == "MCUO"[i] as int
  {
    SpelledByte(data[0], 0);
    SpelledByte(data[1], 1);
    SpelledByte(data[2], 2);
    SpelledByte(data[3], 3);
  }

  lemma SpelledByte(b: byte, i: nat)
    requires i < 4
    ensures b == MAGIC[i] <==> b as int == "MCUO"[i] as int
  {
  }

  predicate Meets(e: Expectation, data: seq<byte>) {
    match e
    case Anything => true
    case Width(n) => |data| == n
    case ProbeMagic => |data| == 4 && forall i :: 0 <= i < 4 ==> data[i] as int == "MCUO"[i] as int
  }

  function Judge(e: Expectation, r: Reply): int {
    if StatusFromReply(r) != OK then StatusFromReply(r)
    else if Meets(e, r.data) then OK
    else ERR_BAD_FRAME
  }

  /**
   One exchange, told by what it put on the wire and what it took off it: a write that fails ends it with a proper
   prefix of the frame sent and nothing read; otherwise the bytes read decide the status.
   */
  predicate Exchanged(frame: seq<byte>, e: Expectation, put: seq<byte>, got: seq<byte>, status: int) {
    && put <= frame
    && if put != frame then status == ERR_IO && got == []
       else match Receive(got)
            case Incomplete => status == ERR_NO_RESPONSE || status == ERR_IO
            case Rejected(used) => used == |got| && status == ERR_BAD_FRAME
            case Accepted(used, reply) => used == |got| && status == Judge(e, reply)
  }

  /** A library call: refused locally without touching the wire, or one exchange of its command's frame. */
  predicate Called(c: Command, e: Expectation, put: seq<byte>, got: seq<byte>, status: int) {
    if InRange(c) then Exchanged(CommandFrame(c), e, put, got, status)
    else put == [] && got == [] && status == ERR_ARG
  }

  twostate predicate Transferred(port: Port, put: seq<byte>, got: seq<byte>)
    reads port
  {
    port.sent == old(port.sent) + put && port.received == old(port.received) + got && port.isOpen == old(port.isOpen)
  }

  /**
   An exchange that reached no decision had a reason, and its status tells it: a write that failed is an I/O error;
   otherwise it is called silence only when the whole timeout, counted from the end of the write, went by or a call timed
   out, and an I/O error exactly when a call failed in another way. Behind a decision no call failed.
   */
  twostate predicate Excused(mcu: Handle, frame: seq<byte>, put: seq<byte>, got: seq<byte>, status: int)
    reads mcu.port
  {
    if put != frame then |mcu.port.errors| == |old(mcu.port.errors)| + 1
    else
      && |old(mcu.port.samples)| < |mcu.port.samples|
      && old(mcu.port.clock) <= mcu.port.samples[|old(mcu.port.samples)|]
      && var late := mcu.port.clock >= mcu.port.samples[|old(mcu.port.samples)|] + mcu.timeoutMs as int;
         if Receive(got) == Incomplete then Explained(old(mcu.port.errors), mcu.port.errors, late, status)
         else mcu.port.errors == old(mcu.port.errors)
  }

  /** A call on an open handle: what it moved, what that makes of its status, and why it may have decided nothing. */
  twostate predicate Performed(mcu: Handle, c: Command, e: Expectation, put: seq<byte>, got: seq<byte>, status: int)
    reads mcu.port
  {
    && Transferred(mcu.port, put, got)
    && Called(c, e, put, got, status)
    && (InRange(c) ==> Excused(mcu, CommandFrame(c), put, got, status))
  }

  method StatusFromResponse(response: Response) returns (status: int)
    requires response.data.Length == MAX_RESPONSE_DATA && response.dataLen <= MAX_RESPONSE_DATA
    ensures status == StatusFromReply(Reply(response.ack, response.data[..response.dataLen]))
    ensures response.ack ==> status == OK
    ensures !response.ack && response.dataLen == 1 ==> status == response.data[0] as int
    ensures !response.ack && response.dataLen != 1 ==> status == ERR_BAD_FRAME
  {
    if response.ack {
      return OK;
    }
    if response.dataLen != 1 {
      return ERR_BAD_FRAME;
    }
    return response.data[0] as int;
  }

  /** The assignment of one response structure to another. */
  method Assign(source: Response, target: Response)
    requires source.data.Length == target.data.Length == MAX_RESPONSE_DATA && source.data != target.data
    modifies target, target.data
    ensures target.ack == source.ack && target.dataLen == source.dataLen && target.data[..] == source.data[..]
    ensures forall r: Reply :: old(source.Holds(r)) ==> target.Holds(r)
  {
    target.ack := source.ack;
    target.dataLen := source.dataLen;
    CopyData(source.data, 0, target.data, MAX_RESPONSE_DATA);
    assert target.data[..] == source.data[..];
  }

  method Exchange(mcu: Handle, frame: array<byte>, frameLen: int, response: Response?)
    returns (status: int, ghost put: seq<byte>, ghost got: seq<byte>)
    requires frameLen <= frame.Length
    requires response != null ==> response.data.Length == MAX_RESPONSE_DATA && response.data != frame
    modifies mcu.port, response, if response == null then null else response.data
    ensures Transferred(mcu.port, put, got)
    ensures if frameLen < 0 then status == -frameLen && put == [] && got == []
            else if frameLen == 0 then status == ERR_ARG && put == [] && got == []
            else Exchanged(frame[..frameLen], Anything, put, got, status) && Excused(mcu, frame[..frameLen], put, got, status)
    ensures response != null && frameLen > 0 && status == OK ==>
              Receive(got).Accepted? && response.Holds(Receive(got).reply)
    ensures response != null && status != OK ==> unchanged(response) && unchanged(response.data)
  {
    hide Receive;
    put, got := [], [];
    if frameLen < 0 {
      return -frameLen, put, got;
    }
    var decoded := new Response();
    status, put := TransmitCommand(mcu.port, frame, frameLen);
    if status != OK {
      return;
    }
    status, got := ReceiveResponse(mcu.port, mcu.timeoutMs, decoded);
    if status != OK {
      return;
    }
    status := StatusFromResponse(decoded);
    if status != OK {
      return;
    }
    if response != null {
      Assign(decoded, response);
    }
  }

  /** A frame built into a buffer large enough for any command is the command's frame. */
  lemma BuiltFits(c: Command, before: seq<byte>, n: int, after: seq<byte>)
    requires |before| == MAX_COMMAND_FRAME && Built(c, MAX_COMMAND_FRAME, before, n, after)
    ensures if InRange(c) then n == |CommandFrame(c)| && |after| == |before| && after[..n] == CommandFrame(c)
            else n == -ERR_ARG
  {
    hide InRange, Opcode, Payload, Frame;
  }

  /** Any call that wants no data back: builds, exchanges, reports. */
  method Call(mcu: Handle?, c: Command) returns (status: int, ghost put: seq<byte>, ghost got: seq<byte>)
    modifies if mcu == null then null else mcu.port
    ensures mcu == null ==> status == ERR_ARG && put == [] && got == []
    ensures mcu != null ==> Performed(mcu, c, Anything, put, got, status)
  {
    hide InRange, CommandFrame, Built, Exchanged;
    put, got := [], [];
    if mcu == null {
      return ERR_ARG, put, got;
    }
    var frame := new byte[MAX_COMMAND_FRAME];
    ghost var before := frame[..];
    var frameLen := BuildCommand(c, frame, frame.Length);
    BuiltFits(c, before, frameLen, frame[..]);
    status, put, got := Exchange(mcu, frame, frameLen, null);
  }

  /** An exchange whose decoded response the caller goes on to look at. */
  method Query(mcu: Handle, c: Command, response: Response)
    returns (status: int, ghost put: seq<byte>, ghost got: seq<byte>)
    requires response.data.Length == MAX_RESPONSE_DATA
    modifies mcu.port, response, response.data
    ensures Performed(mcu, c, Anything, put, got, status)
    ensures status == OK ==> Receive(got).Accepted? && response.Holds(Receive(got).reply)
  {
    hide InRange, CommandFrame, Built, Exchanged, Receive;
    var frame := new byte[MAX_COMMAND_FRAME];
    ghost var before := frame[..];
    var frameLen := BuildCommand(c, frame, frame.Length);
    BuiltFits(c, before, frameLen, frame[..]);
    status, put, got := Exchange(mcu, frame, frameLen, response);
  }

  lemma Refine(c: Command, e: Expectation, put: seq<byte>, got: seq<byte>)
    requires Called(c, Anything, put, got, OK)
    ensures Receive(got).Accepted?
    ensures Called(c, e, put, got, if Meets(e, Receive(got).reply.data) then OK else ERR_BAD_FRAME)
  {
    hide InRange, CommandFrame, Receive;
  }

  lemma Refused(c: Command, e: Expectation, put: seq<byte>, got: seq<byte>, status: int)
    requires Called(c, Anything, put, got, status) && status != OK
    ensures Called(c, e, put, got, status)
  {
    hide InRange, CommandFrame, Receive;
  }

  method GpioGet(mcu: Handle?, port: u32, pin: byte, level: Cell?<u32>)
    returns (status: int, ghost put: seq<byte>, ghost got: seq<byte>)
    modifies level, if mcu == null then null else mcu.port
    ensures mcu == null || level == null ==> status == ERR_ARG && put == [] && got == []
    ensures mcu != null && level != null ==> Performed(mcu, Command.GpioGet(port, pin), Width(1), put, got, status)
    ensures mcu != null && level == null ==> Transferred(mcu.port, put, got)
    ensures level != null && status == OK ==>
              && Receive(got).Accepted? && |Receive(got).reply.data| == 1
              && level.value <= 1 && (level.value == 1 <==> Receive(got).reply.data[0] != 0)
    ensures level != null && status != OK ==> unchanged(level)
  {
    hide Called, Receive;
    put, got := [], [];
    if mcu == null || level == null {
      return ERR_ARG, put, got;
    }
    var response := new Response();
    status, put, got := Query(mcu, Command.GpioGet(port, pin), response);
    if status != OK {
      Refused(Command.GpioGet(port, pin), Width(1), put, got, status);
      return;
    }
    Refine(Command.GpioGet(port, pin), Width(1), put, got);
    if response.dataLen != 1 {
      return ERR_BAD_FRAME, put, got;
    }
    level.value := if response.data[0] != 0 then 1 else 0;
  }

  method GpioToggle(mcu: Handle?, port: u32, pin: byte, level: Cell?<u32>)
    returns (status: int, ghost put: seq<byte>, ghost got: seq<byte>)
    modifies level, if mcu == null then null else mcu.port
    ensures mcu == null || level == null ==> status == ERR_ARG && put == [] && got == []
    ensures mcu != null && level != null ==> Performed(mcu, Command.GpioToggle(port, pin), Width(1), put, got, status)
    ensures mcu != null && level == null ==> Transferred(mcu.port, put, got)
    ensures level != null && status == OK ==>
              && Receive(got).Accepted? && |Receive(got).reply.data| == 1
              && level.value <= 1 && (level.value == 1 <==> Receive(got).reply.data[0] != 0)
    ensures level != null && status != OK ==> unchanged(level)
  {
    hide Called, Receive;
    put, got := [], [];
    if mcu == null || level == null {
      return ERR_ARG, put, got;
    }
    var response := new Response();
    status, put, got := Query(mcu, Command.GpioToggle(port, pin), response);
    if status != OK {
      Refused(Command.GpioToggle(port, pin), Width(1), put, got, status);
      return;
    }
    Refine(Command.GpioToggle(port, pin), Width(1), put, got);
    if response.dataLen != 1 {
      return ERR_BAD_FRAME, put, got;
    }
    level.value := if response.data[0] != 0 then 1 else 0;
  }

  method GroupGet(mcu: Handle?, group: byte, achieved: Cell?<u32>)
    returns (status: int, ghost put: seq<byte>, ghost got: seq<byte>)
    modifies achieved, if mcu == null then null else mcu.port
    ensures mcu == null || achieved == null ==> status == ERR_ARG && put == [] && got == []
    ensures mcu != null && achieved != null ==> Performed(mcu, Command.GroupGet(group), Width(4), put, got, status)
    ensures mcu != null && achieved == null ==> Transferred(mcu.port, put, got)
    ensures achieved != null && status == OK ==>
              && Receive(got).Accepted? && |Receive(got).reply.data| == 4
              && Le32(achieved.value) == Receive(got).reply.data
    ensures achieved != null && status != OK ==> unchanged(achieved)
  {
    hide Called, Receive, FromLe32, Le32;
    put, got := [], [];
    if mcu == null || achieved == null {
      return ERR_ARG, put, got;
    }
    var response := new Response();
    status, put, got := Query(mcu, Command.GroupGet(group), response);
    if status != OK {
      Refused(Command.GroupGet(group), Width(4), put, got, status);
      return;
    }
    Refine(Command.GroupGet(group), Width(4), put, got);
    if response.dataLen != 4 {
      return ERR_BAD_FRAME, put, got;
    }
    var count := GetU32Le(response.data, achieved);
    if count < 0 {
      return ERR_ARG, put, got;
    }
    StoredLe32(Receive(got).reply.data);
  }

  method ChannelGet(mcu: Handle?, port: u32, pin: byte, duty: Cell?<u16>)
    returns (status: int, ghost put: seq<byte>, ghost got: seq<byte>)
    modifies duty, if mcu == null then null else mcu.port
    ensures mcu == null || duty == null ==> status == ERR_ARG && put == [] && got == []
    ensures mcu != null && duty != null ==> Performed(mcu, Command.ChannelGet(port, pin), Width(2), put, got, status)
    ensures mcu != null && duty == null ==> Transferred(mcu.port, put, got)
    ensures duty != null && status == OK ==>
              && Receive(got).Accepted? && |Receive(got).reply.data| == 2
              && Le16(duty.value) == Receive(got).reply.data
    ensures duty != null && status != OK ==> unchanged(duty)
  {
    hide Called, Receive, FromLe16, Le16;
    put, got := [], [];
    if mcu == null || duty == null {
      return ERR_ARG, put, got;
    }
    var response := new Response();
    status, put, got := Query(mcu, Command.ChannelGet(port, pin), response);
    if status != OK {
      Refused(Command.ChannelGet(port, pin), Width(2), put, got, status);
      return;
    }
    Refine(Command.ChannelGet(port, pin), Width(2), put, got);
    if response.dataLen != 2 {
      return ERR_BAD_FRAME, put, got;
    }
    var count := GetU16Le(response.data, duty);
    if count < 0 {
      return ERR_ARG, put, got;
    }
    StoredLe16(Receive(got).reply.data);
  }

  lemma StoredLe16(data: seq<byte>)
    requires |data| == 2
    ensures Le16(FromLe16(data[0], data[1])) == data
  {
    FromLe16RoundTrip(data[0], data[1]);
  }

  lemma StoredLe32(data: seq<byte>)
    requires |data| == 4
    ensures Le32(FromLe32(data[0], data[1], data[2], data[3])) == data
  {
    FromLe32RoundTrip(data[0], data[1], data[2], data[3]);
  }

  /** The link is confirmed only by the four magic bytes. */
  method Probe(mcu: Handle?) returns (status: int, ghost put: seq<byte>, ghost got: seq<byte>)
    modifies if mcu == null then null else mcu.port
    ensures mcu == null ==> status == ERR_ARG && put == [] && got == []
    ensures mcu != null ==> Performed(mcu, Command.Probe, ProbeMagic, put, got, status)
  {
    hide Called, Receive;
    put, got := [], [];
    if mcu == null {
      return ERR_ARG, put, got;
    }
    var response := new Response();
    status, put, got := Query(mcu, Command.Probe, response);
    if status != OK {
      Refused(Command.Probe, ProbeMagic, put, got, status);
      return;
    }
    Refine(Command.Probe, ProbeMagic, put, got);
    if response.dataLen == 4 {
      MagicSpells(Receive(got).reply.data);
    }
    if response.dataLen != 4 || response.data[..4] != MAGIC {
      return ERR_BAD_FRAME, put, got;
    }
  }

  const EINVAL: int := 22
  const EPROTO: int := 71

  /** Opening the device may fail for any reason; a port it yields is new, claimed, and flushed of stale input. */
  method OpenPort(devicePath: string) returns (port: Port?, errno: int)
    ensures port == null ==> errno > 0
    ensures port != null ==> fresh(port) && port.isOpen && port.sent == [] && port.received == [] && port.errors == [] && port.samples == []
  {
    var fails: bool := *;
    errno := *;
    if fails {
      port := null;
      errno := if errno > 0 then errno else EINVAL;
    } else {
      port := new Port();
    }
  }

  /** Why the probe on a new port failed, if it decided nothing: as for any exchange, told from all that happened on the port. */
  predicate ProbeExcused(put: seq<byte>, got: seq<byte>, errors: seq<int>, samples: seq<int>, clock: int, timeoutMs: int,
                         status: int)
  {
    if put != CommandFrame(Command.Probe) then |errors| == 1
    else
      && samples != []
      && if Receive(got) == Incomplete then Explained([], errors, clock >= samples[0] + timeoutMs, status)
         else errors == []
  }

  /** A handle is handed out only behind a successful probe; whenever none is, the port that was opened is closed again. */
  method Open(devicePath: Option<string>, timeoutMs: int32) returns (mcu: Handle?, errno: int, ghost held: Port?)
    ensures held != null ==> fresh(held)
    ensures mcu != null ==>
              && fresh(mcu) && mcu.port == held && mcu.timeoutMs == timeoutMs && held.isOpen
              && Called(Command.Probe, ProbeMagic, held.sent, held.received, OK)
    ensures mcu == null && held != null ==>
              && !held.isOpen
              && exists status :: Called(Command.Probe, ProbeMagic, held.sent, held.received, status) && status != OK &&
                                  ProbeExcused(held.sent, held.received, held.errors, held.samples, held.clock,
                                               timeoutMs as int, status) &&
                                  (errno == ETIMEDOUT <==> status == ERR_NO_RESPONSE) && errno in {ETIMEDOUT, EPROTO}
    ensures mcu == null && held == null ==> errno > 0
    ensures devicePath.None? ==> mcu == null && held == null && errno == EINVAL
  {
    hide Called, CommandFrame, Receive, Explained;
    held := null;
    if devicePath.None? {
      return null, EINVAL, held;
    }
    var port;
    port, errno := OpenPort(devicePath.value);
    held := port;
    if port == null {
      return null, errno, held;
    }
    mcu := new Handle(port, timeoutMs);
    ghost var put, got;
    var status;
    status, put, got := Probe(mcu);
    assert port.sent == put && port.received == got;
    if status != OK {
      port.Close();
      assert Called(Command.Probe, ProbeMagic, held.sent, held.received, status);
      return null, if status == ERR_NO_RESPONSE then ETIMEDOUT else EPROTO, held;
    }
  }
}
