/** The command line tool meets the codec: whatever it accepts, the library accepts. */
module CliCommands {
  import opened Words
  import opened Status
  import opened Strtoul
  import opened CliWords
  import opened Cli
  import opened Protocol
  import opened Codec
  import opened Mcuco
  import opened CallLaws

  /** The library call a row makes with the fields it was given. */
  function CommandOf(run: Verb, f: Fields): Command {
    match run
    case RunProbe => Command.Probe
    case RunReset => Command.Reset
    case RunGpioCfg => Command.GpioCfg(f.direction, f.port, f.pin)
    case RunGpioSet => Command.GpioSet(f.level, f.port, f.pin)
    case RunGpioGet => Command.GpioGet(f.port, f.pin)
    case RunGpioToggle => Command.GpioToggle(f.port, f.pin)
    case RunTimerCfg => Command.GroupCfg(f.frequency, f.timer)
    case RunTimerGet => Command.GroupGet(f.timer)
    case RunTimerRelease => Command.GroupRelease(f.timer)
    case RunPwmCfg => Command.ChannelCfg(f.polarity, f.port, f.pin)
    case RunPwmSet => Command.ChannelSet(f.duty, f.port, f.pin)
    case RunPwmGet => Command.ChannelGet(f.port, f.pin)
    case RunPwmRelease => Command.ChannelRelease(f.port, f.pin)
    case RunIrqCfg => Command.IrqCfg(f.edge, f.port, f.pin)
    case RunIrqBind => Command.IrqBind(f.edge, f.port, f.pin, f.action, f.outPort, f.outPin)
    case RunIrqUnbind => Command.IrqUnbind(f.port, f.pin)
  }

  /** The range a builder demands of the field that a word of this kind is written to. */
  predicate FieldInRange(f: Fields, kind: WordKind) {
    match kind
    case DirectionKind => f.direction <= 1
    case LevelKind => f.level <= 1
    case PortKind => IsPort(f.port)
    case PinKind => IsPin(f.pin)
    case FrequencyKind => 1 <= f.frequency <= 1000000
    case TimerKind => IsGroup(f.timer)
    case PolarityKind => f.polarity <= 1
    case DutyKind => f.duty <= 1000
    case EdgeKind => f.edge <= 3
    case BindEdgeKind => 1 <= f.edge <= 3
    case ActionKind => f.action <= 2
    case OutPortKind => IsPort(f.outPort)
    case OutPinKind => IsPin(f.outPin)
  }

  // ---- each word parser stays within the builder's range ----

  lemma ByteBounds(b: byte)
    ensures b as nat <= 15 <==> b <= 15
    ensures b as nat <= 2 <==> b <= 2
  {
  }

  lemma DutyBound(d: u16)
    ensures d as nat <= 1000 <==> d <= 1000
  {
  }

  lemma WideBounds(v: u32)
    ensures v as nat <= 6 <==> v <= 6
    ensures v as nat <= 1000000 <==> v <= 1000000
    ensures v as nat >= 1 <==> v >= 1
  {
  }

  lemma PortsInRange(word: string)
    ensures ParsePort(word).Some? ==> IsPort(ParsePort(word).value)
  {
    hide U32Of;
    if ParsePort(word).Some? {
      U32OfValue(word[0] as nat - 'A' as nat);
      WideBounds(ParsePort(word).value);
    }
  }

  lemma PinsInRange(word: string, max: ulong_max)
    ensures ParsePin(word, max).Some? ==> IsPin(ParsePin(word, max).value)
  {
    hide ParsePin;
    if ParsePin(word, max).Some? {
      PinWords(word, max, ParsePin(word, max).value);
      ByteBounds(ParsePin(word, max).value);
    }
  }

  lemma TimersInRange(word: string, max: ulong_max)
    ensures ParseTimer(word, max).Some? ==> IsGroup(ParseTimer(word, max).value)
  {
    hide ParseTimer;
    if ParseTimer(word, max).Some? {
      TimerWords(word, max, ParseTimer(word, max).value);
      ByteBounds(ParseTimer(word, max).value);
    }
  }

  lemma DutiesInRange(word: string, max: ulong_max)
    ensures ParseDuty(word, max).Some? ==> ParseDuty(word, max).value <= 1000
  {
    hide ParseDuty;
    if ParseDuty(word, max).Some? {
      DutyWords(word, max);
      DutyBound(ParseDuty(word, max).value);
    }
  }

  lemma FrequenciesInRange(word: string, max: ulong_max)
    ensures ParseFrequency(word, max).Some? ==> 1 <= ParseFrequency(word, max).value <= 1000000
  {
    hide ParseFrequency;
    if ParseFrequency(word, max).Some? {
      FrequencyWords(word, max);
      WideBounds(ParseFrequency(word, max).value);
    }
  }

  lemma HeldIsInRange(f: Fields, kind: WordKind, word: string, max: ulong_max)
    requires Holds(f, kind, word, max)
    ensures FieldInRange(f, kind)
  {
    hide ParsePort, ParsePin, ParseFrequency, ParseTimer, ParseDuty, IsPort, IsPin, IsGroup;
    PortsInRange(word);
    PinsInRange(word, max);
    TimersInRange(word, max);
    DutiesInRange(word, max);
    FrequenciesInRange(word, max);
  }

  predicate AllInRange(f: Fields, kinds: seq<WordKind>) {
    forall i :: 0 <= i < |kinds| ==> FieldInRange(f, kinds[i])
  }

  lemma AllOfOne(f: Fields, a: WordKind)
    requires AllInRange(f, [a])
    ensures FieldInRange(f, a)
  {
    hide FieldInRange;
    assert FieldInRange(f, [a][0]);
  }

  lemma AllOfTwo(f: Fields, a: WordKind, b: WordKind)
    requires AllInRange(f, [a, b])
    ensures FieldInRange(f, a) && FieldInRange(f, b)
  {
    hide FieldInRange;
    assert FieldInRange(f, [a, b][0]) && FieldInRange(f, [a, b][1]);
  }

  lemma AllOfThree(f: Fields, a: WordKind, b: WordKind, c: WordKind)
    requires AllInRange(f, [a, b, c])
    ensures FieldInRange(f, a) && FieldInRange(f, b) && FieldInRange(f, c)
  {
    hide FieldInRange;
    assert FieldInRange(f, [a, b, c][0]) && FieldInRange(f, [a, b, c][1]) && FieldInRange(f, [a, b, c][2]);
  }

  lemma AllOfBind(f: Fields)
    requires AllInRange(f, Kinds(RunIrqBind))
    ensures FieldInRange(f, BindEdgeKind) && FieldInRange(f, PortKind) && FieldInRange(f, PinKind)
    ensures FieldInRange(f, ActionKind) && FieldInRange(f, OutPortKind) && FieldInRange(f, OutPinKind)
  {
    hide FieldInRange;
    var kinds := Kinds(RunIrqBind);
    assert FieldInRange(f, kinds[0]) && FieldInRange(f, kinds[1]) && FieldInRange(f, kinds[2]);
    assert FieldInRange(f, kinds[3]) && FieldInRange(f, kinds[4]) && FieldInRange(f, kinds[5]);
  }

  lemma PinRowsCover(run: Verb, f: Fields)
    requires AllInRange(f, Kinds(run)) && Kinds(run) == [PortKind, PinKind]
    ensures InRange(CommandOf(run, f))
  {
    hide IsPort, IsPin, AllInRange;
    AllOfTwo(f, PortKind, PinKind);
  }

  lemma TimerRowsCover(run: Verb, f: Fields)
    requires AllInRange(f, Kinds(run)) && (run.RunTimerCfg? || run.RunTimerGet? || run.RunTimerRelease?)
    ensures InRange(CommandOf(run, f))
  {
    hide IsGroup, AllInRange;
    if run.RunTimerCfg? {
      AllOfTwo(f, FrequencyKind, TimerKind);
    } else {
      AllOfOne(f, TimerKind);
    }
  }

  lemma GpioRowsCover(run: Verb, f: Fields)
    requires AllInRange(f, Kinds(run)) && (run.RunGpioCfg? || run.RunGpioSet? || run.RunIrqCfg?)
    ensures InRange(CommandOf(run, f))
  {
    hide IsPort, IsPin, AllInRange;
    AllOfThree(f, Kinds(run)[0], PortKind, PinKind);
  }

  lemma PwmRowsCover(run: Verb, f: Fields)
    requires AllInRange(f, Kinds(run)) && (run.RunPwmCfg? || run.RunPwmSet?)
    ensures InRange(CommandOf(run, f))
  {
    hide IsPort, IsPin, AllInRange;
    AllOfThree(f, Kinds(run)[0], PortKind, PinKind);
  }

  lemma BindRowCovers(f: Fields)
    requires AllInRange(f, Kinds(RunIrqBind))
    ensures InRange(CommandOf(RunIrqBind, f))
  {
    hide IsPort, IsPin, AllInRange;
    AllOfBind(f);
  }

  /** A row names every field its command uses, and each with the kind of word that keeps it in range. */
  lemma RowCoversCommand(run: Verb, f: Fields)
    requires AllInRange(f, Kinds(run))
    ensures InRange(CommandOf(run, f))
  {
    hide AllInRange, FieldInRange, InRange;
    match run
    case RunProbe => Argumentless();
    case RunReset => Argumentless();
    case RunTimerCfg => TimerRowsCover(run, f);
    case RunTimerGet => TimerRowsCover(run, f);
    case RunTimerRelease => TimerRowsCover(run, f);
    case RunIrqBind => BindRowCovers(f);
    case RunGpioCfg => GpioRowsCover(run, f);
    case RunGpioSet => GpioRowsCover(run, f);
    case RunIrqCfg => GpioRowsCover(run, f);
    case RunPwmCfg => PwmRowsCover(run, f);
    case RunPwmSet => PwmRowsCover(run, f);
    case _ => PinRowsCover(run, f);
  }

  lemma Argumentless()
    ensures InRange(Command.Probe) && InRange(Command.Reset)
  {
  }

  /**
   Every command line the tool accepts yields arguments the matching builder accepts: the frame is built, and the far
   end decodes from it exactly the command the fields spell out, with each field as its own word was parsed.
   */
  lemma AcceptedLineIsACommand(words: seq<string>, row: Row, before: Fields, after: Fields, max: ulong_max)
    requires Reads(words, row, before, after, max)
    ensures var c := CommandOf(row.run, after);
            InRange(c) && DecodeCommand(CommandFrame(c)) == Some(Decoded(c, |CommandFrame(c)|))
    ensures forall i :: 0 <= i < |row.values| ==> Holds(after, row.values[i], words[2 + i], max)
  {
    hide Holds, FieldInRange, Table, RowOf, Kinds, CommandOf, InRange, CommandFrame, DecodeCommand, DistinctTargets, WithWords;
    InTable(row);
    RowsHaveDistinctTargets(row);
    forall i | 0 <= i < |row.values|
      ensures Holds(after, row.values[i], words[2 + i], max) && FieldInRange(after, row.values[i])
    {
      EveryWordHolds(before, row.values, words[2..], i, max);
      HeldIsInRange(after, row.values[i], words[2 + i], max);
    }
    InitialsOfRow(row.run);
    RowCoversCommand(row.run, after);
    CommandSurvives(CommandOf(row.run, after), []);
    assert CommandFrame(CommandOf(row.run, after)) + [] == CommandFrame(CommandOf(row.run, after));
  }

  /** So a command from the tool on an open handle is never refused locally. */
  lemma AcceptedLineIsNeverRefused(words: seq<string>, row: Row, before: Fields, after: Fields, max: ulong_max,
                                   e: Expectation, put: seq<byte>, got: seq<byte>, status: int)
    requires Reads(words, row, before, after, max)
    requires Called(CommandOf(row.run, after), e, put, got, status)
    requires Answer(got).Some? ==> KnownReason(Answer(got).value)
    ensures status != ERR_ARG
  {
    hide Reads, Called, InRange, CommandOf, Answer;
    AcceptedLineIsACommand(words, row, before, after, max);
    RefusedLocally(CommandOf(row.run, after), e, put, got, status);
  }

  lemma OneMoreWord(f: Fields, kinds: seq<WordKind>, words: seq<string>, kind: WordKind, word: string, max: ulong_max)
    requires |kinds| == |words|
    ensures WithWords(f, kinds + [kind], words + [word], max) ==
            match WithWords(f, kinds, words, max)
            case None => None
            case Some(g) => WithWord(g, kind, word, max)
  {
    hide WithWord;
    assert (kinds + [kind])[..|kinds|] == kinds && (words + [word])[..|words|] == words;
  }

  lemma WorkedWords(f: Fields, max: ulong_max)
    ensures WithWord(f, DirectionKind, "output", max) == Some(f.(direction := 1))
    ensures WithWord(f, PortKind, "A", max) == Some(f.(port := 0))
    ensures WithWord(f, PinKind, "5", max) == Some(f.(pin := 5))
  {
    hide ParsePin, ParsePort;
    PortAPinFive(max);
  }

  lemma WorkedValues(f: Fields, max: ulong_max)
    ensures WithWords(f, [DirectionKind, PortKind, PinKind], ["output", "A", "5"], max) ==
            Some(f.(direction := 1, port := 0, pin := 5))
  {
    hide WithWord;
    var directed := f.(direction := 1);
    var ported := directed.(port := 0);
    WorkedWords(f, max);
    WorkedWords(directed, max);
    WorkedWords(ported, max);
    assert WithWords(f, [], [], max) == Some(f);
    OneMoreWord(f, [], [], DirectionKind, "output", max);
    OneMoreWord(f, [DirectionKind], ["output"], PortKind, "A", max);
    OneMoreWord(f, [DirectionKind, PortKind], ["output", "A"], PinKind, "5", max);
    assert [] + [DirectionKind] == [DirectionKind] && [] + ["output"] == ["output"];
    assert [DirectionKind] + [PortKind] + [PinKind] == [DirectionKind, PortKind, PinKind];
    assert ["output"] + ["A"] + ["5"] == ["output", "A", "5"];
  }

  lemma WorkedRow()
    ensures RowOf(RunGpioCfg) == Row("gpio", "cfg", [DirectionKind, PortKind, PinKind], RunGpioCfg)
    ensures RowOf(RunGpioCfg) in Table()
  {
    assert RowOf(RunGpioCfg) == Table()[2];
  }

  /** The line "gpio cfg output A 5" is the command whose frame the protocol document works through. */
  lemma WorkedLine(before: Fields, max: ulong_max)
    ensures Reads(["gpio", "cfg", "output", "A", "5"], RowOf(RunGpioCfg),
                  before, before.(direction := 1, port := 0, pin := 5), max)
    ensures CommandOf(RunGpioCfg, before.(direction := 1, port := 0, pin := 5)) == Command.GpioCfg(1, 0, 5)
  {
    hide Table, RowOf, WithWords;
    WorkedRow();
    WorkedValues(before, max);
    assert ["gpio", "cfg", "output", "A", "5"][2..] == ["output", "A", "5"];
  }

  lemma PortAPinFive(max: ulong_max)
    ensures ParsePort("A") == Some(0) && ParsePin("5", max) == Some(5)
  {
    hide ParsePin, U32Of;
    assert "5"[..0] == [];
    assert Value("5") == 5;
    PinWords("5", max, 5);
    FiveIsFive();
    ZeroIsZero();
  }

  lemma FiveIsFive()
    ensures (5 as byte) as nat == 5
  {
  }

  lemma ZeroIsZero()
    ensures U32Of(0) == 0
  {
    assert ByteOf(0) == 0;
  }
}
