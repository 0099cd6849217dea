/** Whole command lines: what each puts on the wire, and which commands can be typed at all. */
module CliLines {
  import opened Words
  import opened Crc16
  import opened Strtoul
  import opened CliWords
  import opened Cli
  import opened Protocol
  import opened Codec
  import opened CliCommands
  import opened CliWire
  import opened PublishedVectors

  // ---- typed order is wire order ----

  /** The numbers in the fields of these kinds, in that order. */
  function Entered(f: Cli.Fields, kinds: seq<WordKind>): (numbers: seq<nat>)
    ensures |numbers| == |kinds|
  {
    seq(|kinds|, i requires 0 <= i < |kinds| => FieldValue(f, kinds[i]))
  }

  lemma EnteredTwo(f: Cli.Fields, a: WordKind, b: WordKind)
    ensures Entered(f, [a, b]) == [FieldValue(f, a), FieldValue(f, b)]
  {
    hide FieldValue;
  }

  lemma EnteredThree(f: Cli.Fields, a: WordKind, b: WordKind, c: WordKind)
    ensures Entered(f, [a, b, c]) == [FieldValue(f, a), FieldValue(f, b), FieldValue(f, c)]
  {
    hide FieldValue;
  }

  lemma EnteredSix(f: Cli.Fields, a: WordKind, b: WordKind, c: WordKind, d: WordKind, e: WordKind, g: WordKind)
    ensures Entered(f, [a, b, c, d, e, g]) ==
            [FieldValue(f, a), FieldValue(f, b), FieldValue(f, c), FieldValue(f, d), FieldValue(f, e), FieldValue(f, g)]
  {
    hide FieldValue;
  }

  lemma McuAndTimerOrder(run: Verb, f: Cli.Fields)
    requires run.RunProbe? || run.RunReset? || run.RunTimerCfg? || run.RunTimerGet? || run.RunTimerRelease?
    ensures Numbers(CommandOf(run, f)) == Entered(f, Kinds(run))
  {
    if run.RunTimerCfg? {
      EnteredTwo(f, FrequencyKind, TimerKind);
    }
  }

  lemma GpioOrder(run: Verb, f: Cli.Fields)
    requires run.RunGpioCfg? || run.RunGpioSet? || run.RunGpioGet? || run.RunGpioToggle?
    ensures Numbers(CommandOf(run, f)) == Entered(f, Kinds(run))
  {
    hide Entered;
    EnteredTwo(f, PortKind, PinKind);
    EnteredThree(f, DirectionKind, PortKind, PinKind);
    EnteredThree(f, LevelKind, PortKind, PinKind);
  }

  lemma PwmOrder(run: Verb, f: Cli.Fields)
    requires run.RunPwmCfg? || run.RunPwmSet? || run.RunPwmGet? || run.RunPwmRelease?
    ensures Numbers(CommandOf(run, f)) == Entered(f, Kinds(run))
  {
    hide Entered;
    EnteredTwo(f, PortKind, PinKind);
    EnteredThree(f, PolarityKind, PortKind, PinKind);
    EnteredThree(f, DutyKind, PortKind, PinKind);
  }

  lemma IrqOrder(run: Verb, f: Cli.Fields)
    requires run.RunIrqCfg? || run.RunIrqUnbind?
    ensures Numbers(CommandOf(run, f)) == Entered(f, Kinds(run))
  {
    hide Entered;
    EnteredTwo(f, PortKind, PinKind);
    EnteredThree(f, EdgeKind, PortKind, PinKind);
  }

  lemma BindOrder(f: Cli.Fields)
    ensures Numbers(CommandOf(RunIrqBind, f)) == Entered(f, Kinds(RunIrqBind))
  {
    hide Entered;
    EnteredSix(f, BindEdgeKind, PortKind, PinKind, ActionKind, OutPortKind, OutPinKind);
  }

  /** The library call gets the row's fields in the order in which the row lists them. */
  lemma CalledInOrder(run: Verb, f: Cli.Fields)
    ensures Numbers(CommandOf(run, f)) == Entered(f, Kinds(run))
  {
    hide Numbers, CommandOf, Entered, Kinds;
    if run.RunGpioCfg? || run.RunGpioSet? || run.RunGpioGet? || run.RunGpioToggle? {
      GpioOrder(run, f);
    } else if run.RunPwmCfg? || run.RunPwmSet? || run.RunPwmGet? || run.RunPwmRelease? {
      PwmOrder(run, f);
    } else if run.RunIrqBind? {
      BindOrder(f);
    } else if run.RunIrqCfg? || run.RunIrqUnbind? {
      IrqOrder(run, f);
    } else {
      McuAndTimerOrder(run, f);
    }
  }

  /** Each word of a line stands for the number beside it. */
  predicate AllSpelled(kinds: seq<WordKind>, words: seq<string>, numbers: seq<nat>, max: ulong_max) {
    && |kinds| == |words| == |numbers|
    && forall i :: 0 <= i < |kinds| ==> Spells(kinds[i], words[i], numbers[i], max)
  }

  /**
   An accepted line sends the opcode that its two leading words name, and as payload the numbers its other words stand
   for, in the order in which they were typed, each in the width of its kind.
   */
  lemma LineOnWire(words: seq<string>, row: Row, before: Cli.Fields, after: Cli.Fields, max: ulong_max) returns (numbers: seq<nat>)
    requires Reads(words, row, before, after, max)
    ensures AllSpelled(row.values, words[2..], numbers, max)
    ensures words[0] == NameOf(row.run).subsystem && words[1] == NameOf(row.run).verb
    ensures Opcode(CommandOf(row.run, after)) == NameOf(row.run).opcode
    ensures Payload(CommandOf(row.run, after)) == WireOf(row.values, numbers)
    ensures numbers == Numbers(CommandOf(row.run, after))
  {
    hide Table, RowOf, NameOf, CommandOf, Opcode, Payload, WireOf, Numbers, FieldValue, Spells, WithWords, Kinds, RunOf;
    hide InRange, Typed, Target;
    var c := CommandOf(row.run, after);
    ReadIsFilled(words, row, before, after, max);
    InTable(row);
    RowIsNamed(row.run);
    TableIsNamed(row, after);
    AcceptedLineIsACommand(words, row, before, after, max);
    RunMakesCommand(row.run, after);
    PayloadIsNumbers(c);
    numbers := Numbers(c);
    CalledInOrder(row.run, after);
    assert forall i :: 0 <= i < |row.values| ==> Entered(after, row.values)[i] == FieldValue(after, row.values[i]);
  }

  lemma SpellsOnce(kind: WordKind, word: string, m: int, n: int, max: ulong_max)
    requires Spells(kind, word, m, max) && Spells(kind, word, n, max)
    ensures m == n
  {
  }

  /** And every line of the right names and words that stand for numbers is accepted, with those numbers on the wire. */
  lemma SpelledLine(run: Verb, words: seq<string>, numbers: seq<nat>, before: Cli.Fields, max: ulong_max) returns (after: Cli.Fields)
    requires |words| >= 2 && words[0] == NameOf(run).subsystem && words[1] == NameOf(run).verb
    requires AllSpelled(Kinds(run), words[2..], numbers, max)
    ensures Reads(words, RowOf(run), before, after, max)
    ensures var c := CommandOf(run, after);
            && Opcode(c) == NameOf(run).opcode && Payload(c) == WireOf(Kinds(run), numbers)
  {
    hide Table, RowOf, NameOf, CommandOf, Opcode, Payload, WireOf, Spells, WithWords, Kinds;
    RowIsNamed(run);
    RowInTable(run);
    forall i | 0 <= i < |Kinds(run)|
      ensures IsWord(Kinds(run)[i], words[2 + i], max)
    {
      assert Spells(Kinds(run)[i], words[2..][i], numbers[i], max);
    }
    assert Typed(words, RowOf(run), max);
    TypedIsRead(words, before, max);
    after :| Reads(words, RowOf(run), before, after, max);
    var others := LineOnWire(words, RowOf(run), before, after, max);
    forall i | 0 <= i < |numbers|
      ensures numbers[i] == others[i]
    {
      SpellsOnce(Kinds(run)[i], words[2..][i], numbers[i], others[i], max);
    }
    assert numbers == others;
  }

  // ---- published lines ----

  /** The line is accepted, and this is the frame its command sends. */
  ghost predicate Sends(words: seq<string>, before: Cli.Fields, max: ulong_max, frame: seq<byte>) {
    exists row, after :: Reads(words, row, before, after, max) && CommandFrame(CommandOf(row.run, after)) == frame
  }

  lemma Sent(run: Verb, words: seq<string>, numbers: seq<nat>, payload: seq<byte>, frame: seq<byte>, before: Cli.Fields, max: ulong_max)
    requires |words| >= 2 && words[0] == NameOf(run).subsystem && words[1] == NameOf(run).verb
    requires AllSpelled(Kinds(run), words[2..], numbers, max)
    requires WireOf(Kinds(run), numbers) == payload && |payload| <= MAX_PAYLOAD && Frame(NameOf(run).opcode, payload) == frame
    ensures Sends(words, before, max, frame)
  {
    hide Reads, NameOf, CommandOf, Opcode, Payload, WireOf, AllSpelled, Kinds, Frame;
    var after := SpelledLine(run, words, numbers, before, max);
    RowIsNamed(run);
  }

  lemma PublishedValues()
    ensures Value("0") == 0 && Value("1") == 1 && Value("2") == 2 && Value("5") == 5 && Value("13") == 13 && Value("25") == 25
    ensures Value("1000") == 1000
  {
    assert "5"[..0] == [];
    assert "0"[..0] == [];
    assert "1"[..0] == [];
    assert "2"[..0] == [];
    assert "13"[..1] == "1";
    assert "25"[..1] == "2";
    assert "10"[..1] == "1" && Value("10") == 10;
    assert "100"[..2] == "10" && Value("100") == 100;
    assert "1000"[..3] == "100";
  }

  /** The numbers of the published lines. */
  lemma PublishedNumbers(max: ulong_max)
    ensures Spells(PinKind, "5", 5, max) && Spells(OutPinKind, "5", 5, max) && Spells(PinKind, "13", 13, max)
    ensures Spells(TimerKind, "0", 0, max) && Spells(DutyKind, "25", 250, max) && Spells(FrequencyKind, "1000", 1000, max)
  {
    hide Value;
    PublishedValues();
    PlainDigits("1000", max);
  }

  lemma PublishedWords(max: ulong_max)
    ensures Spells(DirectionKind, "output", 1, max) && Spells(LevelKind, "high", 1, max) && Spells(PolarityKind, "active-high", 0, max)
    ensures Spells(EdgeKind, "both", 3, max) && Spells(EdgeKind, "off", 0, max) && Spells(BindEdgeKind, "both", 3, max)
    ensures Spells(PortKind, "A", 0, max) && Spells(PortKind, "C", 2, max) && Spells(OutPortKind, "A", 0, max)
    ensures Spells(ActionKind, "toggle", 2, max)
  {
  }

  lemma PublishedBytes()
    ensures Little(0, 1) == [0] && Little(1, 1) == [1] && Little(2, 1) == [2] && Little(3, 1) == [3]
    ensures Little(5, 1) == [5] && Little(13, 1) == [13]
    ensures Little(250, 2) == [0xFA, 0x00] && Little(1000, 4) == [0xE8, 0x03, 0x00, 0x00]
  {
    PlainByte(0);
    PlainByte(1);
    PlainByte(2);
    PlainByte(3);
    PlainByte(5);
    PlainByte(13);
    DoubleField(250);
    WideField(1000);
  }

  lemma ProbeLine(before: Cli.Fields, max: ulong_max)
    ensures Sends(["mcu", "probe"], before, max, [0xA5, 0x10, 0x00, 0x7C, 0x1E])
  {
    hide Reads, CommandOf, WireOf, Spells, Little, Frame;
    ProbeFrame();
    PublishedWords(max);
    PublishedNumbers(max);
    PublishedBytes();
    NoWire();
    Sent(RunProbe, ["mcu", "probe"], [], [], [0xA5, 0x10, 0x00, 0x7C, 0x1E], before, max);
  }

  lemma ResetLine(before: Cli.Fields, max: ulong_max)
    ensures Sends(["mcu", "reset"], before, max, [0xA5, 0x11, 0x00, 0x4D, 0x2D])
  {
    hide Reads, CommandOf, WireOf, Spells, Little, Frame;
    ResetFrame();
    PublishedWords(max);
    PublishedNumbers(max);
    PublishedBytes();
    NoWire();
    Sent(RunReset, ["mcu", "reset"], [], [], [0xA5, 0x11, 0x00, 0x4D, 0x2D], before, max);
  }

  lemma GpioCfgLine(before: Cli.Fields, max: ulong_max)
    ensures Sends(["gpio", "cfg", "output", "A", "5"], before, max, [0xA5, 0x30, 0x03, 0x01, 0x00, 0x05, 0xAB, 0xE1])
  {
    hide Reads, CommandOf, WireOf, Spells, Little, Frame;
    GpioCfgFrame();
    PublishedWords(max);
    PublishedNumbers(max);
    PublishedBytes();
    WireOfThree(DirectionKind, PortKind, PinKind, 1, 0, 5);
    Sent(RunGpioCfg, ["gpio", "cfg", "output", "A", "5"], [1, 0, 5], [0x01, 0x00, 0x05], [0xA5, 0x30, 0x03, 0x01, 0x00, 0x05, 0xAB, 0xE1], before, max);
  }

  lemma GpioSetLine(before: Cli.Fields, max: ulong_max)
    ensures Sends(["gpio", "set", "high", "A", "5"], before, max, [0xA5, 0x31, 0x03, 0x01, 0x00, 0x05, 0xFA, 0x4B])
  {
    hide Reads, CommandOf, WireOf, Spells, Little, Frame;
    GpioSetFrame();
    PublishedWords(max);
    PublishedNumbers(max);
    PublishedBytes();
    WireOfThree(LevelKind, PortKind, PinKind, 1, 0, 5);
    Sent(RunGpioSet, ["gpio", "set", "high", "A", "5"], [1, 0, 5], [0x01, 0x00, 0x05], [0xA5, 0x31, 0x03, 0x01, 0x00, 0x05, 0xFA, 0x4B], before, max);
  }

  lemma GpioGetLine(before: Cli.Fields, max: ulong_max)
    ensures Sends(["gpio", "get", "A", "5"], before, max, [0xA5, 0x32, 0x02, 0x00, 0x05, 0x84, 0x7B])
  {
    hide Reads, CommandOf, WireOf, Spells, Little, Frame;
    GpioGetFrame();
    PublishedWords(max);
    PublishedNumbers(max);
    PublishedBytes();
    WireOfTwo(PortKind, PinKind, 0, 5);
    Sent(RunGpioGet, ["gpio", "get", "A", "5"], [0, 5], [0x00, 0x05], [0xA5, 0x32, 0x02, 0x00, 0x05, 0x84, 0x7B], before, max);
  }

  lemma GpioToggleLine(before: Cli.Fields, max: ulong_max)
    ensures Sends(["gpio", "toggle", "A", "5"], before, max, [0xA5, 0x36, 0x02, 0x00, 0x05, 0x75, 0xB1])
  {
    hide Reads, CommandOf, WireOf, Spells, Little, Frame;
    GpioToggleFrame();
    PublishedWords(max);
    PublishedNumbers(max);
    PublishedBytes();
    WireOfTwo(PortKind, PinKind, 0, 5);
    Sent(RunGpioToggle, ["gpio", "toggle", "A", "5"], [0, 5], [0x00, 0x05], [0xA5, 0x36, 0x02, 0x00, 0x05, 0x75, 0xB1], before, max);
  }

  lemma TimerCfgLine(before: Cli.Fields, max: ulong_max)
    ensures Sends(["timer", "cfg", "1000", "0"], before, max, [0xA5, 0x40, 0x05, 0xE8, 0x03, 0x00, 0x00, 0x00, 0xDE, 0xCD])
  {
    hide Reads, CommandOf, WireOf, Spells, Little, Frame;
    GroupCfgFrame();
    PublishedWords(max);
    PublishedNumbers(max);
    PublishedBytes();
    WireOfTwo(FrequencyKind, TimerKind, 1000, 0);
    Sent(RunTimerCfg, ["timer", "cfg", "1000", "0"], [1000, 0], [0xE8, 0x03, 0x00, 0x00, 0x00], [0xA5, 0x40, 0x05, 0xE8, 0x03, 0x00, 0x00, 0x00, 0xDE, 0xCD], before, max);
  }

  lemma TimerGetLine(before: Cli.Fields, max: ulong_max)
    ensures Sends(["timer", "get", "0"], before, max, [0xA5, 0x45, 0x01, 0x00, 0xF0, 0x09])
  {
    hide Reads, CommandOf, WireOf, Spells, Little, Frame;
    GroupGetFrame();
    PublishedWords(max);
    PublishedNumbers(max);
    PublishedBytes();
    WireOfOne(TimerKind, 0);
    Sent(RunTimerGet, ["timer", "get", "0"], [0], [0x00], [0xA5, 0x45, 0x01, 0x00, 0xF0, 0x09], before, max);
  }

  lemma TimerReleaseLine(before: Cli.Fields, max: ulong_max)
    ensures Sends(["timer", "release", "0"], before, max, [0xA5, 0x46, 0x01, 0x00, 0xA0, 0x50])
  {
    hide Reads, CommandOf, WireOf, Spells, Little, Frame;
    GroupReleaseFrame();
    PublishedWords(max);
    PublishedNumbers(max);
    PublishedBytes();
    WireOfOne(TimerKind, 0);
    Sent(RunTimerRelease, ["timer", "release", "0"], [0], [0x00], [0xA5, 0x46, 0x01, 0x00, 0xA0, 0x50], before, max);
  }

  lemma PwmCfgLine(before: Cli.Fields, max: ulong_max)
    ensures Sends(["pwm", "cfg", "active-high", "A", "5"], before, max, [0xA5, 0x41, 0x03, 0x00, 0x00, 0x05, 0x4C, 0x61])
  {
    hide Reads, CommandOf, WireOf, Spells, Little, Frame;
    ChannelCfgFrame();
    PublishedWords(max);
    PublishedNumbers(max);
    PublishedBytes();
    WireOfThree(PolarityKind, PortKind, PinKind, 0, 0, 5);
    Sent(RunPwmCfg, ["pwm", "cfg", "active-high", "A", "5"], [0, 0, 5], [0x00, 0x00, 0x05], [0xA5, 0x41, 0x03, 0x00, 0x00, 0x05, 0x4C, 0x61], before, max);
  }

  lemma PwmSetLine(before: Cli.Fields, max: ulong_max)
    ensures Sends(["pwm", "set", "25", "A", "5"], before, max, [0xA5, 0x42, 0x04, 0xFA, 0x00, 0x00, 0x05, 0x05, 0xC1])
  {
    hide Reads, CommandOf, WireOf, Spells, Little, Frame;
    ChannelSetFrame();
    PublishedWords(max);
    PublishedNumbers(max);
    PublishedBytes();
    WireOfThree(DutyKind, PortKind, PinKind, 250, 0, 5);
    Sent(RunPwmSet, ["pwm", "set", "25", "A", "5"], [250, 0, 5], [0xFA, 0x00, 0x00, 0x05], [0xA5, 0x42, 0x04, 0xFA, 0x00, 0x00, 0x05, 0x05, 0xC1], before, max);
  }

  lemma PwmGetLine(before: Cli.Fields, max: ulong_max)
    ensures Sends(["pwm", "get", "A", "5"], before, max, [0xA5, 0x44, 0x02, 0x00, 0x05, 0x68, 0x1E])
  {
    hide Reads, CommandOf, WireOf, Spells, Little, Frame;
    ChannelGetFrame();
    PublishedWords(max);
    PublishedNumbers(max);
    PublishedBytes();
    WireOfTwo(PortKind, PinKind, 0, 5);
    Sent(RunPwmGet, ["pwm", "get", "A", "5"], [0, 5], [0x00, 0x05], [0xA5, 0x44, 0x02, 0x00, 0x05, 0x68, 0x1E], before, max);
  }

  lemma PwmReleaseLine(before: Cli.Fields, max: ulong_max)
    ensures Sends(["pwm", "release", "A", "5"], before, max, [0xA5, 0x43, 0x02, 0x00, 0x05, 0x45, 0x4F])
  {
    hide Reads, CommandOf, WireOf, Spells, Little, Frame;
    ChannelReleaseFrame();
    PublishedWords(max);
    PublishedNumbers(max);
    PublishedBytes();
    WireOfTwo(PortKind, PinKind, 0, 5);
    Sent(RunPwmRelease, ["pwm", "release", "A", "5"], [0, 5], [0x00, 0x05], [0xA5, 0x43, 0x02, 0x00, 0x05, 0x45, 0x4F], before, max);
  }

  lemma IrqCfgLine(before: Cli.Fields, max: ulong_max)
    ensures Sends(["irq", "cfg", "both", "A", "5"], before, max, [0xA5, 0x34, 0x03, 0x03, 0x00, 0x05, 0xCD, 0x06])
  {
    hide Reads, CommandOf, WireOf, Spells, Little, Frame;
    IrqCfgBothFrame();
    PublishedWords(max);
    PublishedNumbers(max);
    PublishedBytes();
    WireOfThree(EdgeKind, PortKind, PinKind, 3, 0, 5);
    Sent(RunIrqCfg, ["irq", "cfg", "both", "A", "5"], [3, 0, 5], [0x03, 0x00, 0x05], [0xA5, 0x34, 0x03, 0x03, 0x00, 0x05, 0xCD, 0x06], before, max);
  }

  lemma IrqCfgOffLine(before: Cli.Fields, max: ulong_max)
    ensures Sends(["irq", "cfg", "off", "A", "5"], before, max, [0xA5, 0x34, 0x03, 0x00, 0x00, 0x05, 0x9D, 0x5F])
  {
    hide Reads, CommandOf, WireOf, Spells, Little, Frame;
    IrqCfgOffFrame();
    PublishedWords(max);
    PublishedNumbers(max);
    PublishedBytes();
    WireOfThree(EdgeKind, PortKind, PinKind, 0, 0, 5);
    Sent(RunIrqCfg, ["irq", "cfg", "off", "A", "5"], [0, 0, 5], [0x00, 0x00, 0x05], [0xA5, 0x34, 0x03, 0x00, 0x00, 0x05, 0x9D, 0x5F], before, max);
  }

  lemma IrqBindLine(before: Cli.Fields, max: ulong_max)
    ensures Sends(["irq", "bind", "both", "C", "13", "toggle", "A", "5"], before, max, [0xA5, 0x33, 0x06, 0x03, 0x02, 0x0D, 0x02, 0x00, 0x05, 0x92, 0x93])
  {
    hide Reads, CommandOf, WireOf, Spells, Little, Frame;
    IrqBindFrame();
    PublishedWords(max);
    PublishedNumbers(max);
    PublishedBytes();
    SixWords(Kinds(RunIrqBind), [3, 2, 13, 2, 0, 5]);
    WireOfThree(BindEdgeKind, PortKind, PinKind, 3, 2, 13);
    WireOfThree(ActionKind, OutPortKind, OutPinKind, 2, 0, 5);
    Sent(RunIrqBind, ["irq", "bind", "both", "C", "13", "toggle", "A", "5"], [3, 2, 13, 2, 0, 5], [0x03, 0x02, 0x0D, 0x02, 0x00, 0x05], [0xA5, 0x33, 0x06, 0x03, 0x02, 0x0D, 0x02, 0x00, 0x05, 0x92, 0x93], before, max);
  }

  lemma IrqUnbindLine(before: Cli.Fields, max: ulong_max)
    ensures Sends(["irq", "unbind", "A", "5"], before, max, [0xA5, 0x35, 0x02, 0x00, 0x05, 0xA9, 0x2A])
  {
    hide Reads, CommandOf, WireOf, Spells, Little, Frame;
    IrqUnbindFrame();
    PublishedWords(max);
    PublishedNumbers(max);
    PublishedBytes();
    WireOfTwo(PortKind, PinKind, 0, 5);
    Sent(RunIrqUnbind, ["irq", "unbind", "A", "5"], [0, 5], [0x00, 0x05], [0xA5, 0x35, 0x02, 0x00, 0x05, 0xA9, 0x2A], before, max);
  }

  /** All sixteen rows, each by a line of the tool and the frame the protocol document gives for it. */
  lemma PublishedLines(before: Cli.Fields, max: ulong_max)
    ensures Sends(["mcu", "probe"], before, max, [0xA5, 0x10, 0x00, 0x7C, 0x1E])
    ensures Sends(["mcu", "reset"], before, max, [0xA5, 0x11, 0x00, 0x4D, 0x2D])
    ensures Sends(["gpio", "cfg", "output", "A", "5"], before, max, [0xA5, 0x30, 0x03, 0x01, 0x00, 0x05, 0xAB, 0xE1])
    ensures Sends(["gpio", "set", "high", "A", "5"], before, max, [0xA5, 0x31, 0x03, 0x01, 0x00, 0x05, 0xFA, 0x4B])
    ensures Sends(["gpio", "get", "A", "5"], before, max, [0xA5, 0x32, 0x02, 0x00, 0x05, 0x84, 0x7B])
    ensures Sends(["gpio", "toggle", "A", "5"], before, max, [0xA5, 0x36, 0x02, 0x00, 0x05, 0x75, 0xB1])
    ensures Sends(["timer", "cfg", "1000", "0"], before, max, [0xA5, 0x40, 0x05, 0xE8, 0x03, 0x00, 0x00, 0x00, 0xDE, 0xCD])
    ensures Sends(["timer", "get", "0"], before, max, [0xA5, 0x45, 0x01, 0x00, 0xF0, 0x09])
    ensures Sends(["timer", "release", "0"], before, max, [0xA5, 0x46, 0x01, 0x00, 0xA0, 0x50])
    ensures Sends(["pwm", "cfg", "active-high", "A", "5"], before, max, [0xA5, 0x41, 0x03, 0x00, 0x00, 0x05, 0x4C, 0x61])
    ensures Sends(["pwm", "set", "25", "A", "5"], before, max, [0xA5, 0x42, 0x04, 0xFA, 0x00, 0x00, 0x05, 0x05, 0xC1])
    ensures Sends(["pwm", "get", "A", "5"], before, max, [0xA5, 0x44, 0x02, 0x00, 0x05, 0x68, 0x1E])
    ensures Sends(["pwm", "release", "A", "5"], before, max, [0xA5, 0x43, 0x02, 0x00, 0x05, 0x45, 0x4F])
    ensures Sends(["irq", "cfg", "both", "A", "5"], before, max, [0xA5, 0x34, 0x03, 0x03, 0x00, 0x05, 0xCD, 0x06])
    ensures Sends(["irq", "cfg", "off", "A", "5"], before, max, [0xA5, 0x34, 0x03, 0x00, 0x00, 0x05, 0x9D, 0x5F])
    ensures Sends(["irq", "bind", "both", "C", "13", "toggle", "A", "5"], before, max, [0xA5, 0x33, 0x06, 0x03, 0x02, 0x0D, 0x02, 0x00, 0x05, 0x92, 0x93])
    ensures Sends(["irq", "unbind", "A", "5"], before, max, [0xA5, 0x35, 0x02, 0x00, 0x05, 0xA9, 0x2A])
  {
    hide Sends;
    ProbeLine(before, max);
    ResetLine(before, max);
    GpioCfgLine(before, max);
    GpioSetLine(before, max);
    GpioGetLine(before, max);
    GpioToggleLine(before, max);
    TimerCfgLine(before, max);
    TimerGetLine(before, max);
    TimerReleaseLine(before, max);
    PwmCfgLine(before, max);
    PwmSetLine(before, max);
    PwmGetLine(before, max);
    PwmReleaseLine(before, max);
    IrqCfgLine(before, max);
    IrqCfgOffLine(before, max);
    IrqBindLine(before, max);
    IrqUnbindLine(before, max);
  }

  // ---- which commands can be typed ----

  /** The ranges that the header documents, as numbers. */
  predicate Fits(kind: WordKind, n: nat) {
    match kind
    case DirectionKind => n <= 1
    case LevelKind => n <= 1
    case PolarityKind => n <= 1
    case EdgeKind => n <= 3
    case BindEdgeKind => 1 <= n <= 3
    case ActionKind => n <= 2
    case PortKind => n <= 6
    case OutPortKind => n <= 6
    case PinKind => n <= 15
    case OutPinKind => n <= 15
    case TimerKind => n <= 2
    case FrequencyKind => 1 <= n <= 1000000
    case DutyKind => n <= 1000
  }

  predicate AllFit(kinds: seq<WordKind>, numbers: seq<nat>) {
    |kinds| == |numbers| && forall i :: 0 <= i < |kinds| ==> Fits(kinds[i], numbers[i])
  }

  lemma SmallBounds(v: u32)
    ensures v <= 1 <==> v as nat <= 1
    ensures v <= 2 <==> v as nat <= 2
    ensures v <= 3 <==> v as nat <= 3
    ensures v <= 6 <==> v as nat <= 6
    ensures v >= 1 <==> v as nat >= 1
    ensures v <= 1000000 <==> v as nat <= 1000000
  {
  }

  lemma TwoFit(a: WordKind, b: WordKind, m: nat, n: nat)
    ensures AllFit([a, b], [m, n]) <==> Fits(a, m) && Fits(b, n)
  {
    hide Fits;
    var kinds, numbers := [a, b], [m, n];
    if AllFit(kinds, numbers) {
      assert Fits(kinds[0], numbers[0]) && Fits(kinds[1], numbers[1]);
    }
  }

  lemma ThreeFit(a: WordKind, b: WordKind, c: WordKind, m: nat, n: nat, o: nat)
    ensures AllFit([a, b, c], [m, n, o]) <==> Fits(a, m) && Fits(b, n) && Fits(c, o)
  {
    hide Fits;
    var kinds, numbers := [a, b, c], [m, n, o];
    if AllFit(kinds, numbers) {
      assert Fits(kinds[0], numbers[0]) && Fits(kinds[1], numbers[1]) && Fits(kinds[2], numbers[2]);
    }
  }

  lemma SixFit(kinds: seq<WordKind>, numbers: seq<nat>)
    requires |kinds| == |numbers| == 6
    ensures AllFit(kinds, numbers) <==>
            AllFit([kinds[0], kinds[1], kinds[2]], [numbers[0], numbers[1], numbers[2]]) &&
            AllFit([kinds[3], kinds[4], kinds[5]], [numbers[3], numbers[4], numbers[5]])
  {
    hide Fits;
    ThreeFit(kinds[0], kinds[1], kinds[2], numbers[0], numbers[1], numbers[2]);
    ThreeFit(kinds[3], kinds[4], kinds[5], numbers[3], numbers[4], numbers[5]);
    if AllFit(kinds, numbers) {
      assert Fits(kinds[0], numbers[0]) && Fits(kinds[1], numbers[1]) && Fits(kinds[2], numbers[2]);
      assert Fits(kinds[3], numbers[3]) && Fits(kinds[4], numbers[4]) && Fits(kinds[5], numbers[5]);
    }
  }

  lemma PinFits(port: u32, pin: byte)
    ensures IsPort(port) <==> Fits(PortKind, port as nat)
    ensures IsPort(port) <==> Fits(OutPortKind, port as nat)
    ensures IsPin(pin) <==> Fits(PinKind, pin as nat)
    ensures IsPin(pin) <==> Fits(OutPinKind, pin as nat)
  {
    SmallBounds(port);
    ByteBounds(pin);
  }

  lemma ChoiceFits(v: u32)
    ensures v <= 1 <==> Fits(DirectionKind, v as nat)
    ensures v <= 1 <==> Fits(LevelKind, v as nat)
    ensures v <= 1 <==> Fits(PolarityKind, v as nat)
    ensures v <= 3 <==> Fits(EdgeKind, v as nat)
    ensures 1 <= v <= 3 <==> Fits(BindEdgeKind, v as nat)
    ensures v <= 2 <==> Fits(ActionKind, v as nat)
    ensures IsFrequency(v) <==> Fits(FrequencyKind, v as nat)
  {
    SmallBounds(v);
  }

  lemma TimerFits(group: byte)
    ensures IsGroup(group) <==> Fits(TimerKind, group as nat)
  {
    ByteBounds(group);
  }

  lemma DutyFits(duty: u16)
    ensures duty <= 1000 <==> Fits(DutyKind, duty as nat)
  {
    DutyBound(duty);
  }

  lemma OneFits(a: WordKind, m: nat)
    ensures AllFit([a], [m]) <==> Fits(a, m)
  {
    hide Fits;
    assert AllFit([a], [m]) ==> Fits([a][0], [m][0]);
  }

  /** The range the builder demands of this command is the documented one. */
  predicate RangeDocumented(c: Command) {
    InRange(c) <==> AllFit(Kinds(RunOf(c)), Numbers(c))
  }

  lemma GpioCfgRange(direction: u32, port: u32, pin: byte)
    ensures RangeDocumented(GpioCfg(direction, port, pin))
  {
    hide IsPort, IsPin, AllFit, Fits;
    PinFits(port, pin);
    ChoiceFits(direction);
    ThreeFit(DirectionKind, PortKind, PinKind, direction as nat, port as nat, pin as nat);
  }

  lemma GpioSetRange(level: u32, port: u32, pin: byte)
    ensures RangeDocumented(GpioSet(level, port, pin))
  {
    hide IsPort, IsPin, AllFit, Fits;
    PinFits(port, pin);
    ChoiceFits(level);
    ThreeFit(LevelKind, PortKind, PinKind, level as nat, port as nat, pin as nat);
  }

  lemma IrqCfgRange(edge: u32, port: u32, pin: byte)
    ensures RangeDocumented(IrqCfg(edge, port, pin))
  {
    hide IsPort, IsPin, AllFit, Fits;
    PinFits(port, pin);
    ChoiceFits(edge);
    ThreeFit(EdgeKind, PortKind, PinKind, edge as nat, port as nat, pin as nat);
  }

  lemma ChannelCfgRange(polarity: u32, port: u32, pin: byte)
    ensures RangeDocumented(ChannelCfg(polarity, port, pin))
  {
    hide IsPort, IsPin, AllFit, Fits;
    PinFits(port, pin);
    ChoiceFits(polarity);
    ThreeFit(PolarityKind, PortKind, PinKind, polarity as nat, port as nat, pin as nat);
  }

  lemma ChannelSetRange(duty: u16, port: u32, pin: byte)
    ensures RangeDocumented(ChannelSet(duty, port, pin))
  {
    hide IsPort, IsPin, AllFit, Fits;
    PinFits(port, pin);
    DutyFits(duty);
    ThreeFit(DutyKind, PortKind, PinKind, duty as nat, port as nat, pin as nat);
  }

  lemma PinRange(c: Command)
    requires c.GpioGet? || c.GpioToggle? || c.IrqUnbind? || c.ChannelGet? || c.ChannelRelease?
    ensures RangeDocumented(c)
  {
    hide IsPort, IsPin, AllFit, Fits;
    PinFits(c.port, c.pin);
    TwoFit(PortKind, PinKind, c.port as nat, c.pin as nat);
  }

  lemma IrqBindRange(edge: u32, port: u32, pin: byte, action: u32, outPort: u32, outPin: byte)
    ensures RangeDocumented(IrqBind(edge, port, pin, action, outPort, outPin))
  {
    hide IsPort, IsPin, AllFit, Fits;
    PinFits(port, pin);
    PinFits(outPort, outPin);
    ChoiceFits(edge);
    ChoiceFits(action);
    SixFit(Kinds(RunIrqBind), [edge as nat, port as nat, pin as nat, action as nat, outPort as nat, outPin as nat]);
    ThreeFit(BindEdgeKind, PortKind, PinKind, edge as nat, port as nat, pin as nat);
    ThreeFit(ActionKind, OutPortKind, OutPinKind, action as nat, outPort as nat, outPin as nat);
  }

  lemma GroupCfgRange(frequency: u32, group: byte)
    ensures RangeDocumented(GroupCfg(frequency, group))
  {
    hide IsGroup, IsFrequency, AllFit, Fits;
    TimerFits(group);
    ChoiceFits(frequency);
    TwoFit(FrequencyKind, TimerKind, frequency as nat, group as nat);
  }

  lemma GroupRange(c: Command)
    requires c.GroupGet? || c.GroupRelease?
    ensures RangeDocumented(c)
  {
    hide IsGroup, AllFit, Fits;
    TimerFits(c.group);
    OneFits(TimerKind, c.group as nat);
  }

  lemma BareRange(c: Command)
    requires c.Probe? || c.Reset?
    ensures RangeDocumented(c)
  {
  }

  /** The builders' ranges are the documented ones, for every command. */
  lemma RangesAreDocumented(c: Command)
    ensures InRange(c) <==> AllFit(Kinds(RunOf(c)), Numbers(c))
  {
    assert RangeDocumented(c) by {
      hide RangeDocumented;
      match c
      case Probe => BareRange(c);
      case Reset => BareRange(c);
      case GpioCfg(direction, port, pin) => GpioCfgRange(direction, port, pin);
      case GpioSet(level, port, pin) => GpioSetRange(level, port, pin);
      case IrqCfg(edge, port, pin) => IrqCfgRange(edge, port, pin);
      case IrqBind(edge, port, pin, action, outPort, outPin) => IrqBindRange(edge, port, pin, action, outPort, outPin);
      case GroupCfg(frequency, group) => GroupCfgRange(frequency, group);
      case GroupGet(_) => GroupRange(c);
      case GroupRelease(_) => GroupRange(c);
      case ChannelCfg(polarity, port, pin) => ChannelCfgRange(polarity, port, pin);
      case ChannelSet(duty, port, pin) => ChannelSetRange(duty, port, pin);
      case _ => PinRange(c);
    }
  }

  /** A word for a number. */
  function WordOf(kind: WordKind, n: nat): string
    requires Fits(kind, n)
  {
    match kind
    case DirectionKind => DIRECTIONS[n]
    case LevelKind => LEVELS[n]
    case PolarityKind => POLARITIES[n]
    case EdgeKind => EDGES[n]
    case BindEdgeKind => EDGES[n]
    case ActionKind => ACTIONS[n]
    case PortKind => PORTS[n]
    case OutPortKind => PORTS[n]
    case DutyKind => Decimal(n / 10)
    case _ => Decimal(n)
  }

  lemma PlainDigits(word: string, max: ulong_max)
    requires word != [] && AllDigits(word) && 1 <= Value(word) <= 1000000
    ensures FrequencyWord(word, max) && FrequencyValue(word, max) == Value(word)
  {
    assert IsDigit(word[0]);
    assert SkipSpace(word) == word && Unsigned(word) == word && !Negated(word);
  }

  lemma WordOfSpells(kind: WordKind, n: nat, max: ulong_max)
    requires Fits(kind, n) && (kind.DutyKind? ==> n % 10 == 0)
    ensures Spells(kind, WordOf(kind, n), n, max)
  {
    hide Value, Decimal, AllDigits, FrequencyWord;
    DecimalReadsBack(n);
    DecimalReadsBack(n / 10);
    if kind.FrequencyKind? {
      PlainDigits(Decimal(n), max);
    }
  }

  /** Some line of the tool makes this command. */
  ghost predicate Typeable(c: Command, before: Cli.Fields, max: ulong_max) {
    exists words, row, after :: Reads(words, row, before, after, max) && CommandOf(row.run, after) == c
  }

  lemma SameCommand(c: Command, d: Command)
    requires InRange(c) && InRange(d) && Opcode(c) == Opcode(d) && Payload(c) == Payload(d)
    ensures c == d
  {
    hide InRange, Opcode, Payload, Protocol.Fields;
    FieldsOfPayload(c);
    FieldsOfPayload(d);
  }

  /**
   The tool can send exactly the commands the builders accept, save that a duty is typed in whole percents: everything
   accepted is in range, and every command in range has a line.
   */
  lemma TypeableExactly(c: Command, before: Cli.Fields, max: ulong_max)
    ensures Typeable(c, before, max) <==> InRange(c) && (c.ChannelSet? ==> c.duty as nat % 10 == 0)
  {
    hide InRange, Reads, CommandOf, Kinds, Numbers, RunOf, Opcode, Payload, NameOf, WireOf, Fits, Spells, WordOf;
    if Typeable(c, before, max) {
      var words, row, after :| Reads(words, row, before, after, max) && CommandOf(row.run, after) == c;
      AcceptedLineIsACommand(words, row, before, after, max);
      var numbers := LineOnWire(words, row, before, after, max);
      RunMakesCommand(row.run, after);
      if c.ChannelSet? {
        InTheTable(words, row, before, after, max);
        DutyTyped(c, words, row, numbers, max);
      }
    }
    if InRange(c) && (c.ChannelSet? ==> c.duty as nat % 10 == 0) {
      RangesAreDocumented(c);
      var run, numbers := RunOf(c), Numbers(c);
      var kinds := Kinds(run);
      DutyIsEven(c);
      var spelled := seq(|kinds|, i requires 0 <= i < |kinds| && AllFit(kinds, numbers) => WordOf(kinds[i], numbers[i]));
      forall i | 0 <= i < |kinds|
        ensures Spells(kinds[i], spelled[i], numbers[i], max)
      {
        assert Fits(kinds[i], numbers[i]);
        WordOfSpells(kinds[i], numbers[i], max);
      }
      var words := [NameOf(run).subsystem, NameOf(run).verb] + spelled;
      assert words[2..] == spelled;
      var after := SpelledLine(run, words, numbers, before, max);
      PayloadIsNumbers(c);
      CommandSendsOpcode(c);
      RowIsNamed(run);
      AcceptedLineIsACommand(words, RowOf(run), before, after, max);
      SameCommand(c, CommandOf(run, after));
    }
  }

  lemma InTheTable(words: seq<string>, row: Row, before: Cli.Fields, after: Cli.Fields, max: ulong_max)
    requires Reads(words, row, before, after, max)
    ensures |words| >= 2 && row.values == Kinds(row.run)
  {
    hide Table, WithWords, Kinds;
    InTable(row);
    RowIsNamed(row.run);
  }

  lemma DutyTyped(c: Command, words: seq<string>, row: Row, numbers: seq<nat>, max: ulong_max)
    requires c.ChannelSet? && row.run == RunOf(c) && row.values == Kinds(row.run)
    requires numbers == Numbers(c) && |words| >= 2 && AllSpelled(row.values, words[2..], numbers, max)
    ensures c.duty as nat % 10 == 0
  {
    hide Spells;
    assert Spells(row.values[0], words[2..][0], numbers[0], max);
    TensOnly(words[2..][0], c.duty as nat, max);
  }

  lemma TensOnly(word: string, n: nat, max: ulong_max)
    requires Spells(DutyKind, word, n, max)
    ensures n % 10 == 0
  {
  }

  lemma DutyIsEven(c: Command)
    requires c.ChannelSet? ==> c.duty as nat % 10 == 0
    requires |Kinds(RunOf(c))| == |Numbers(c)|
    ensures forall i :: 0 <= i < |Numbers(c)| && Kinds(RunOf(c))[i].DutyKind? ==> Numbers(c)[i] % 10 == 0
  {
  }
}
