/**
 From the words typed to the bytes sent. The header promises that the order of the words on a command line is the order
 of the payload's bytes; here every accepted line is followed to the wire without going through the argument record.
 */
module CliWire {
  import opened Words
  import opened Strtoul
  import opened CliWords
  import opened Cli
  import opened Protocol
  import opened Codec
  import opened CliCommands

  /** How many payload bytes a value of this kind takes. */
  function Width(kind: WordKind): nat {
    match kind
    case FrequencyKind => 4
    case DutyKind => 2
    case _ => 1
  }

  /** A number in so many bytes, the least significant first. */
  function Little(n: nat, width: nat): (s: seq<byte>)
    ensures |s| == width
  {
    if width == 0 then [] else [ByteOf(n % 256)] + Little(n / 256, width - 1)
  }

  /** The numbers typed, one behind the other. */
  function WireOf(kinds: seq<WordKind>, numbers: seq<nat>): seq<byte>
    requires |kinds| == |numbers|
  {
    if kinds == [] then [] else Little(numbers[0], Width(kinds[0])) + WireOf(kinds[1..], numbers[1..])
  }

  /** What the two leading words of a line ask for, with the opcode the protocol gives it. */
  datatype Name = Name(subsystem: string, verb: string, opcode: byte)

  /** The sixteen of them. */
  function NameOf(run: Verb): Name {
    match run
    case RunProbe => Name("mcu", "probe", 0x10)
    case RunReset => Name("mcu", "reset", 0x11)
    case RunGpioCfg => Name("gpio", "cfg", 0x30)
    case RunGpioSet => Name("gpio", "set", 0x31)
    case RunGpioGet => Name("gpio", "get", 0x32)
    case RunGpioToggle => Name("gpio", "toggle", 0x36)
    case RunTimerCfg => Name("timer", "cfg", 0x40)
    case RunTimerGet => Name("timer", "get", 0x45)
    case RunTimerRelease => Name("timer", "release", 0x46)
    case RunPwmCfg => Name("pwm", "cfg", 0x41)
    case RunPwmSet => Name("pwm", "set", 0x42)
    case RunPwmGet => Name("pwm", "get", 0x44)
    case RunPwmRelease => Name("pwm", "release", 0x43)
    case RunIrqCfg => Name("irq", "cfg", 0x34)
    case RunIrqBind => Name("irq", "bind", 0x33)
    case RunIrqUnbind => Name("irq", "unbind", 0x35)
  }

  lemma RowInTable(run: Verb)
    ensures RowOf(run) in Table()
  {
    hide RowOf;
    match run
    case RunProbe => assert Table()[0] == RowOf(run);
    case RunReset => assert Table()[1] == RowOf(run);
    case RunGpioCfg => assert Table()[2] == RowOf(run);
    case RunGpioSet => assert Table()[3] == RowOf(run);
    case RunGpioGet => assert Table()[4] == RowOf(run);
    case RunGpioToggle => assert Table()[5] == RowOf(run);
    case RunTimerCfg => assert Table()[6] == RowOf(run);
    case RunTimerGet => assert Table()[7] == RowOf(run);
    case RunTimerRelease => assert Table()[8] == RowOf(run);
    case RunPwmCfg => assert Table()[9] == RowOf(run);
    case RunPwmSet => assert Table()[10] == RowOf(run);
    case RunPwmGet => assert Table()[11] == RowOf(run);
    case RunPwmRelease => assert Table()[12] == RowOf(run);
    case RunIrqCfg => assert Table()[13] == RowOf(run);
    case RunIrqBind => assert Table()[14] == RowOf(run);
    case RunIrqUnbind => assert Table()[15] == RowOf(run);
  }

  lemma RowIsNamed(run: Verb)
    ensures Names(RowOf(run), NameOf(run).subsystem, NameOf(run).verb)
    ensures RowOf(run).run == run && RowOf(run).values == Kinds(run)
  {
    hide Kinds;
  }

  /** The row that makes such a command. */
  function RunOf(c: Command): Verb {
    match c
    case Probe => RunProbe
    case Reset => RunReset
    case GpioCfg(_, _, _) => RunGpioCfg
    case GpioSet(_, _, _) => RunGpioSet
    case GpioGet(_, _) => RunGpioGet
    case GpioToggle(_, _) => RunGpioToggle
    case IrqCfg(_, _, _) => RunIrqCfg
    case IrqBind(_, _, _, _, _, _) => RunIrqBind
    case IrqUnbind(_, _) => RunIrqUnbind
    case GroupCfg(_, _) => RunTimerCfg
    case GroupGet(_) => RunTimerGet
    case GroupRelease(_) => RunTimerRelease
    case ChannelCfg(_, _, _) => RunPwmCfg
    case ChannelSet(_, _, _) => RunPwmSet
    case ChannelGet(_, _) => RunPwmGet
    case ChannelRelease(_, _) => RunPwmRelease
  }

  lemma CommandSendsOpcode(c: Command)
    ensures Opcode(c) == NameOf(RunOf(c)).opcode
  {
  }

  lemma PinRunMakesCommand(run: Verb, f: Fields)
    requires run.RunGpioCfg? || run.RunGpioSet? || run.RunGpioGet? || run.RunGpioToggle? ||
             run.RunIrqCfg? || run.RunIrqBind? || run.RunIrqUnbind?
    ensures RunOf(CommandOf(run, f)) == run
  {
  }

  lemma OtherRunMakesCommand(run: Verb, f: Fields)
    requires run.RunProbe? || run.RunReset? || run.RunTimerCfg? || run.RunTimerGet? || run.RunTimerRelease? ||
             run.RunPwmCfg? || run.RunPwmSet? || run.RunPwmGet? || run.RunPwmRelease?
    ensures RunOf(CommandOf(run, f)) == run
  {
  }

  lemma RunMakesCommand(run: Verb, f: Fields)
    ensures RunOf(CommandOf(run, f)) == run
  {
    hide RunOf, CommandOf;
    if run.RunGpioCfg? || run.RunGpioSet? || run.RunGpioGet? || run.RunGpioToggle? ||
       run.RunIrqCfg? || run.RunIrqBind? || run.RunIrqUnbind? {
      PinRunMakesCommand(run, f);
    } else {
      OtherRunMakesCommand(run, f);
    }
  }

  /** The table holds the sixteen rows and no others, each under its full name, and each sends the opcode its name asks for. */
  lemma TableIsNamed(row: Row, f: Fields)
    ensures row in Table() <==> exists run :: row == RowOf(run)
    ensures row in Table() ==>
              && Names(row, NameOf(row.run).subsystem, NameOf(row.run).verb)
              && Opcode(CommandOf(row.run, f)) == NameOf(row.run).opcode
  {
    hide Table, RowOf, NameOf, CommandOf, Opcode, RunOf;
    if row in Table() {
      InTable(row);
      RowIsNamed(row.run);
      CommandSendsOpcode(CommandOf(row.run, f));
      RunMakesCommand(row.run, f);
    }
    forall run | row == RowOf(run)
      ensures row in Table()
    {
      RowInTable(run);
    }
  }

  // ---- one field ----

  lemma NarrowByte(v: u32)
    requires v < 0x100
    ensures Truncate(v) as nat == v as nat
  {
    assert Truncate(v) as u32 == v;
  }

  /** A small field goes out as the one byte of its number. */
  lemma FieldByte(v: u32)
    requires v < 0x100
    ensures v as nat < 256 && Little(v as nat, 1) == [Truncate(v)]
  {
    hide ByteOf, Truncate;
    NarrowByte(v);
    PlainByte(Truncate(v));
  }

  lemma PlainByte(b: byte)
    ensures b as nat < 256 && ByteOf(b as nat) == b && Little(b as nat, 1) == [b]
  {
    hide ByteOf;
    ByteOfLength(b as nat);
    SameByte(ByteOf(b as nat), b);
    LittleOne(b as nat);
  }

  lemma LittleOne(n: nat)
    requires n < 256
    ensures Little(n, 1) == [ByteOf(n)]
  {
    hide ByteOf;
    assert n % 256 == n;
    assert Little(n / 256, 0) == [];
  }

  lemma LittleMore(n: nat, digit: nat, rest: nat, width: nat)
    requires n == digit + 256 * rest && digit < 256
    ensures Little(n, width + 1) == [ByteOf(digit)] + Little(rest, width)
  {
    hide ByteOf;
    assert n % 256 == digit && n / 256 == rest;
  }

  lemma LittleTwo(d0: nat, d1: nat)
    requires d0 < 256 && d1 < 256
    ensures Little(d0 + 256 * d1, 2) == [ByteOf(d0), ByteOf(d1)]
  {
    hide ByteOf, Little;
    LittleMore(d0 + 256 * d1, d0, d1, 1);
    LittleOne(d1);
  }

  lemma LittleFour(n: nat, d0: nat, r1: nat, d1: nat, r2: nat, d2: nat, d3: nat)
    requires d0 < 256 && d1 < 256 && d2 < 256 && d3 < 256
    requires n == d0 + 256 * r1 && r1 == d1 + 256 * r2 && r2 == d2 + 256 * d3
    ensures Little(n, 4) == [ByteOf(d0), ByteOf(d1), ByteOf(d2), ByteOf(d3)]
  {
    hide ByteOf, Little;
    LittleMore(n, d0, r1, 3);
    LittleMore(r1, d1, r2, 2);
    LittleTwo(d2, d3);
    assert [ByteOf(d1)] + [ByteOf(d2), ByteOf(d3)] == [ByteOf(d1), ByteOf(d2), ByteOf(d3)];
  }

  /** The four bytes of a word weigh 1, 256, 256^2 and 256^3. */
  lemma WordByDigits(v: u32)
    ensures v as nat == Truncate(v) as nat +
                        256 * (Truncate(v >> 8) as nat + 256 * (Truncate(v >> 16) as nat + 256 * Truncate(v >> 24) as nat))
  {
    hide Truncate, FromLe32, FromLe16;
    Le32RoundTrip(v);
    Le32ByValue(Truncate(v), Truncate(v >> 8), Truncate(v >> 16), Truncate(v >> 24));
    Le16ByValue(Truncate(v), Truncate(v >> 8));
    Le16ByValue(Truncate(v >> 16), Truncate(v >> 24));
  }

  lemma WideField(v: u32)
    ensures Little(v as nat, 4) == Le32(v)
  {
    hide ByteOf, Truncate, Little;
    WordByDigits(v);
    BytesWrite(v as nat, Truncate(v), Truncate(v >> 8), Truncate(v >> 16), Truncate(v >> 24));
  }

  lemma BytesWrite(n: nat, b0: byte, b1: byte, b2: byte, b3: byte)
    requires n == b0 as nat + 256 * (b1 as nat + 256 * (b2 as nat + 256 * b3 as nat))
    ensures Little(n, 4) == [b0, b1, b2, b3]
  {
    hide ByteOf, Little;
    PlainByte(b0);
    PlainByte(b1);
    PlainByte(b2);
    PlainByte(b3);
    var r2: nat := b2 as nat + 256 * b3 as nat;
    LittleFour(n, b0 as nat, b1 as nat + 256 * r2, b1 as nat, r2, b2 as nat, b3 as nat);
  }

  lemma DoubleField(w: u16)
    ensures Little(w as nat, 2) == Le16(w)
  {
    hide ByteOf, FromLe16, Low, High, Little;
    Le16RoundTrip(w);
    Le16ByValue(Low(w), High(w));
    PlainByte(Low(w));
    PlainByte(High(w));
    LittleTwo(Low(w) as nat, High(w) as nat);
  }

  // ---- whole payloads ----

  lemma NoWire()
    ensures WireOf([], []) == []
  {
  }

  lemma WireOfOne(a: WordKind, m: nat)
    ensures WireOf([a], [m]) == Little(m, Width(a))
  {
    assert WireOf([], []) == [];
    assert [a][1..] == [] && [m][1..] == [];
  }

  lemma {:induction false} WireOfConcat(kinds: seq<WordKind>, numbers: seq<nat>, more: seq<WordKind>, others: seq<nat>)
    requires |kinds| == |numbers| && |more| == |others|
    ensures WireOf(kinds + more, numbers + others) == WireOf(kinds, numbers) + WireOf(more, others)
  {
    hide Little, Width;
    if kinds == [] {
      assert kinds + more == more && numbers + others == others;
    } else {
      WireOfConcat(kinds[1..], numbers[1..], more, others);
      assert (kinds + more)[1..] == kinds[1..] + more && (numbers + others)[1..] == numbers[1..] + others;
    }
  }

  lemma WireOfTwo(a: WordKind, b: WordKind, m: nat, n: nat)
    ensures WireOf([a, b], [m, n]) == Little(m, Width(a)) + Little(n, Width(b))
  {
    hide WireOf, Little, Width;
    WireOfOne(a, m);
    WireOfOne(b, n);
    WireOfConcat([a], [m], [b], [n]);
    assert [a] + [b] == [a, b] && [m] + [n] == [m, n];
  }

  lemma WireOfThree(a: WordKind, b: WordKind, c: WordKind, m: nat, n: nat, o: nat)
    ensures WireOf([a, b, c], [m, n, o]) == Little(m, Width(a)) + Little(n, Width(b)) + Little(o, Width(c))
  {
    hide WireOf, Little, Width;
    WireOfTwo(a, b, m, n);
    WireOfOne(c, o);
    WireOfConcat([a, b], [m, n], [c], [o]);
    assert [a, b] + [c] == [a, b, c] && [m, n] + [o] == [m, n, o];
  }

  /** The numbers a command is made of, in the order of the library call's arguments. */
  function Numbers(c: Command): seq<nat> {
    match c
    case Probe => []
    case Reset => []
    case GpioCfg(direction, port, pin) => [direction as nat, port as nat, pin as nat]
    case GpioSet(level, port, pin) => [level as nat, port as nat, pin as nat]
    case GpioGet(port, pin) => [port as nat, pin as nat]
    case GpioToggle(port, pin) => [port as nat, pin as nat]
    case IrqCfg(edge, port, pin) => [edge as nat, port as nat, pin as nat]
    case IrqBind(edge, port, pin, action, outPort, outPin) =>
      [edge as nat, port as nat, pin as nat, action as nat, outPort as nat, outPin as nat]
    case IrqUnbind(port, pin) => [port as nat, pin as nat]
    case GroupCfg(frequency, group) => [frequency as nat, group as nat]
    case GroupGet(group) => [group as nat]
    case GroupRelease(group) => [group as nat]
    case ChannelCfg(polarity, port, pin) => [polarity as nat, port as nat, pin as nat]
    case ChannelSet(duty, port, pin) => [duty as nat, port as nat, pin as nat]
    case ChannelGet(port, pin) => [port as nat, pin as nat]
    case ChannelRelease(port, pin) => [port as nat, pin as nat]
  }

  /** What is claimed of every command: its payload is its numbers, each in the width of its kind. */
  predicate SaysNumbers(c: Command) {
    |Kinds(RunOf(c))| == |Numbers(c)| && Payload(c) == WireOf(Kinds(RunOf(c)), Numbers(c))
  }

  lemma PinPayload(port: u32, pin: byte)
    requires IsPort(port)
    ensures WireOf([PortKind, PinKind], [port as nat, pin as nat]) == [Truncate(port), pin]
  {
    hide WireOf, Truncate, Little;
    WireOfTwo(PortKind, PinKind, port as nat, pin as nat);
    FieldByte(port);
    PlainByte(pin);
  }

  lemma ChoicePayload(a: WordKind, b: WordKind, c: WordKind, choice: u32, port: u32, pin: byte)
    requires IsPort(port) && choice <= 3 && Width(a) == Width(b) == Width(c) == 1
    ensures WireOf([a, b, c], [choice as nat, port as nat, pin as nat]) == [Truncate(choice), Truncate(port), pin]
  {
    hide WireOf, Truncate, Little, Width;
    WireOfThree(a, b, c, choice as nat, port as nat, pin as nat);
    FieldByte(choice);
    FieldByte(port);
    PlainByte(pin);
  }

  lemma GpioCfgSays(direction: u32, port: u32, pin: byte)
    requires InRange(GpioCfg(direction, port, pin))
    ensures SaysNumbers(GpioCfg(direction, port, pin))
  {
    hide WireOf, Truncate, IsPort, IsPin;
    ChoicePayload(DirectionKind, PortKind, PinKind, direction, port, pin);
  }

  lemma GpioSetSays(level: u32, port: u32, pin: byte)
    requires InRange(GpioSet(level, port, pin))
    ensures SaysNumbers(GpioSet(level, port, pin))
  {
    hide WireOf, Truncate, IsPort, IsPin;
    ChoicePayload(LevelKind, PortKind, PinKind, level, port, pin);
  }

  lemma IrqCfgSays(edge: u32, port: u32, pin: byte)
    requires InRange(IrqCfg(edge, port, pin))
    ensures SaysNumbers(IrqCfg(edge, port, pin))
  {
    hide WireOf, Truncate, IsPort, IsPin;
    ChoicePayload(EdgeKind, PortKind, PinKind, edge, port, pin);
  }

  lemma ChannelCfgSays(polarity: u32, port: u32, pin: byte)
    requires InRange(ChannelCfg(polarity, port, pin))
    ensures SaysNumbers(ChannelCfg(polarity, port, pin))
  {
    hide WireOf, Truncate, IsPort, IsPin;
    ChoicePayload(PolarityKind, PortKind, PinKind, polarity, port, pin);
  }

  lemma SixWords(kinds: seq<WordKind>, numbers: seq<nat>)
    requires |kinds| == |numbers| == 6
    ensures WireOf(kinds, numbers) ==
            WireOf([kinds[0], kinds[1], kinds[2]], [numbers[0], numbers[1], numbers[2]]) +
            WireOf([kinds[3], kinds[4], kinds[5]], [numbers[3], numbers[4], numbers[5]])
  {
    hide WireOf;
    WireOfConcat([kinds[0], kinds[1], kinds[2]], [numbers[0], numbers[1], numbers[2]],
                 [kinds[3], kinds[4], kinds[5]], [numbers[3], numbers[4], numbers[5]]);
    assert kinds == [kinds[0], kinds[1], kinds[2]] + [kinds[3], kinds[4], kinds[5]];
    assert numbers == [numbers[0], numbers[1], numbers[2]] + [numbers[3], numbers[4], numbers[5]];
  }

  lemma IrqBindSays(edge: u32, port: u32, pin: byte, action: u32, outPort: u32, outPin: byte)
    requires InRange(IrqBind(edge, port, pin, action, outPort, outPin))
    ensures SaysNumbers(IrqBind(edge, port, pin, action, outPort, outPin))
  {
    hide WireOf, Truncate, IsPort, IsPin;
    ChoicePayload(BindEdgeKind, PortKind, PinKind, edge, port, pin);
    ChoicePayload(ActionKind, OutPortKind, OutPinKind, action, outPort, outPin);
    SixWords(Kinds(RunIrqBind), [edge as nat, port as nat, pin as nat, action as nat, outPort as nat, outPin as nat]);
  }

  lemma GroupCfgSays(frequency: u32, group: byte)
    ensures SaysNumbers(GroupCfg(frequency, group))
  {
    hide WireOf, Little, Le32;
    PlainByte(group);
    WireOfTwo(FrequencyKind, TimerKind, frequency as nat, group as nat);
    WideField(frequency);
  }

  lemma GroupSays(c: Command)
    requires c.GroupGet? || c.GroupRelease?
    ensures SaysNumbers(c)
  {
    hide WireOf, Little;
    PlainByte(c.group);
    WireOfOne(TimerKind, c.group as nat);
  }

  lemma ChannelSetSays(duty: u16, port: u32, pin: byte)
    requires InRange(ChannelSet(duty, port, pin))
    ensures SaysNumbers(ChannelSet(duty, port, pin))
  {
    hide WireOf, Truncate, Little, Le16, IsPin;
    WireOfThree(DutyKind, PortKind, PinKind, duty as nat, port as nat, pin as nat);
    DoubleField(duty);
    FieldByte(port);
    PlainByte(pin);
  }

  lemma PinSays(c: Command)
    requires InRange(c) && (c.GpioGet? || c.GpioToggle? || c.IrqUnbind? || c.ChannelGet? || c.ChannelRelease?)
    ensures SaysNumbers(c)
  {
    hide WireOf, Truncate, Little, IsPort, IsPin;
    PinPayload(c.port, c.pin);
  }

  /** A command's payload is its numbers, one behind the other, in the order of the library call's arguments. */
  lemma PayloadIsNumbers(c: Command)
    requires InRange(c)
    ensures |Kinds(RunOf(c))| == |Numbers(c)| && Payload(c) == WireOf(Kinds(RunOf(c)), Numbers(c))
  {
    assert SaysNumbers(c) by {
      hide SaysNumbers, InRange;
      match c
      case Probe => BareSays(c);
      case Reset => BareSays(c);
      case GpioCfg(direction, port, pin) => GpioCfgSays(direction, port, pin);
      case GpioSet(level, port, pin) => GpioSetSays(level, port, pin);
      case IrqCfg(edge, port, pin) => IrqCfgSays(edge, port, pin);
      case ChannelCfg(polarity, port, pin) => ChannelCfgSays(polarity, port, pin);
      case IrqBind(edge, port, pin, action, outPort, outPin) => IrqBindSays(edge, port, pin, action, outPort, outPin);
      case GroupCfg(frequency, group) => GroupCfgSays(frequency, group);
      case GroupGet(_) => GroupSays(c);
      case GroupRelease(_) => GroupSays(c);
      case ChannelSet(duty, port, pin) => ChannelSetSays(duty, port, pin);
      case _ => PinSays(c);
    }
  }

  lemma BareSays(c: Command)
    requires c.Probe? || c.Reset?
    ensures SaysNumbers(c)
  {
  }
}
