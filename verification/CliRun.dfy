/** Running an accepted command: the library call of its row, and what the tool prints of the answer. */
module CliRun {
  import opened Words
  import opened Status
  import opened Strtoul
  import opened CliWords
  import opened Cli
  import opened Protocol
  import opened Reception
  import opened CommandTransport
  import opened Mcuco
  import opened CliCommands

  /** What a row wants of the data behind an acknowledgement. */
  function Wanted(run: Verb): Expectation {
    match run
    case RunProbe => ProbeMagic
    case RunGpioGet => Width(1)
    case RunGpioToggle => Width(1)
    case RunTimerGet => Width(4)
    case RunPwmGet => Width(2)
    case _ => Anything
  }

  function PrintLevel(level: u32): string {
    if level == 1 then "high\n" else "low\n"
  }

  function PrintUnsigned(value: u32): string {
    Decimal(value as nat) + "\n"
  }

  function PrintTenths(value: u16): string {
    Decimal(value as nat / 10) + "." + Decimal(value as nat % 10) + "\n"
  }

  /** The text on the standard output says what the data of the answer say. */
  ghost predicate Tells(run: Verb, data: seq<byte>, shown: string) {
    match run
    case RunGpioGet => |data| == 1 && shown == LEVELS[if data[0] != 0 then 1 else 0] + "\n"
    case RunGpioToggle => |data| == 1 && shown == LEVELS[if data[0] != 0 then 1 else 0] + "\n"
    case RunTimerGet =>
      |data| == 4 && exists digits ::
        shown == digits + "\n"
        && AllDigits(digits) && Value(digits) == FromLe32(data[0], data[1], data[2], data[3]) as nat
    case RunPwmGet =>
      |data| == 2 && exists whole, tenth ::
        shown == whole + "." + tenth + "\n" && AllDigits(whole) && AllDigits(tenth) && |tenth| == 1
        && 10 * Value(whole) + Value(tenth) == FromLe16(data[0], data[1]) as nat
    case _ => shown == []
  }

  lemma LevelTold(level: u32, data: seq<byte>)
    requires |data| == 1 && level <= 1 && (level == 1 <==> data[0] != 0)
    ensures Tells(RunGpioGet, data, PrintLevel(level)) && Tells(RunGpioToggle, data, PrintLevel(level))
  {
  }

  lemma FrequencyTold(value: u32, data: seq<byte>)
    requires |data| == 4 && Le32(value) == data
    ensures Tells(RunTimerGet, data, PrintUnsigned(value))
  {
    hide Value, AllDigits, Decimal, Truncate, FromLe32;
    Le32RoundTrip(value);
    DecimalReadsBack(value as nat);
  }

  lemma DutyTold(value: u16, data: seq<byte>)
    requires |data| == 2 && Le16(value) == data
    ensures Tells(RunPwmGet, data, PrintTenths(value))
  {
    hide Value, AllDigits, Low, High, FromLe16;
    Le16RoundTrip(value);
    DecimalReadsBack(value as nat / 10);
    DecimalReadsBack(value as nat % 10);
  }

  /** A level that was printed can be typed again, and means the same. */
  lemma PrintedLevelIsTyped(run: Verb, data: seq<byte>, shown: string, level: u32)
    requires (run.RunGpioGet? || run.RunGpioToggle?) && Tells(run, data, shown)
    ensures shown != [] && (ParseLevel(shown[..|shown| - 1]) == Some(level) <==> level <= 1 && (level == 1 <==> data[0] != 0))
  {
    assert ("low" + "\n")[..3] == "low" && ("high" + "\n")[..4] == "high";
  }

  /**
   Runs the row's library call. An open handle gets exactly the row's command with the fields as parsed, and something is
   printed only for a read that succeeded.
   */
  method RunCommand(mcu: Handle?, command: Option<Row>, f: Cli.Fields)
    returns (status: int, ghost put: seq<byte>, ghost got: seq<byte>, shown: string)
    modifies if mcu == null then null else mcu.port
    ensures command.None? || mcu == null ==> status == ERR_ARG && put == [] && got == [] && shown == []
    ensures command.Some? && mcu != null ==>
              var run := command.value.run;
              && Performed(mcu, CommandOf(run, f), Wanted(run), put, got, status)
              && (status == OK ==> Receive(got).Accepted? && Tells(run, Receive(got).reply.data, shown))
              && (status != OK ==> shown == [])
    ensures command.None? && mcu != null ==> Transferred(mcu.port, put, got)
  {
    hide Called, Receive, InRange, Explained, CommandFrame, Value, AllDigits, Le16, Le32, Tells;
    put, got, shown := [], [], [];
    if command.None? || mcu == null {
      return ERR_ARG, put, got, shown;
    }
    var run := command.value.run;
    match run {
    case RunProbe => status, put, got := Mcuco.Probe(mcu);
    case RunGpioGet =>
      var level := new Cell<u32>(0);
      status, put, got := Mcuco.GpioGet(mcu, f.port, f.pin, level);
      if status == OK {
        LevelTold(level.value, Receive(got).reply.data);
        shown := PrintLevel(level.value);
      }
    case RunGpioToggle =>
      var level := new Cell<u32>(0);
      status, put, got := Mcuco.GpioToggle(mcu, f.port, f.pin, level);
      if status == OK {
        LevelTold(level.value, Receive(got).reply.data);
        shown := PrintLevel(level.value);
      }
    case RunTimerGet =>
      var achieved := new Cell<u32>(0);
      status, put, got := Mcuco.GroupGet(mcu, f.timer, achieved);
      if status == OK {
        FrequencyTold(achieved.value, Receive(got).reply.data);
        shown := PrintUnsigned(achieved.value);
      }
    case RunPwmGet =>
      var duty := new Cell<u16>(0);
      status, put, got := Mcuco.ChannelGet(mcu, f.port, f.pin, duty);
      if status == OK {
        DutyTold(duty.value, Receive(got).reply.data);
        shown := PrintTenths(duty.value);
      }
    case RunReset => status, put, got := Call(mcu, Command.Reset);
    case RunGpioCfg => status, put, got := Call(mcu, Command.GpioCfg(f.direction, f.port, f.pin));
    case RunGpioSet => status, put, got := Call(mcu, Command.GpioSet(f.level, f.port, f.pin));
    case RunTimerCfg => status, put, got := Call(mcu, Command.GroupCfg(f.frequency, f.timer));
    case RunTimerRelease => status, put, got := Call(mcu, Command.GroupRelease(f.timer));
    case RunPwmCfg => status, put, got := Call(mcu, Command.ChannelCfg(f.polarity, f.port, f.pin));
    case RunPwmSet => status, put, got := Call(mcu, Command.ChannelSet(f.duty, f.port, f.pin));
    case RunPwmRelease => status, put, got := Call(mcu, Command.ChannelRelease(f.port, f.pin));
    case RunIrqCfg => status, put, got := Call(mcu, Command.IrqCfg(f.edge, f.port, f.pin));
    case RunIrqBind =>
      status, put, got := Call(mcu, Command.IrqBind(f.edge, f.port, f.pin, f.action, f.outPort, f.outPin));
    case RunIrqUnbind => status, put, got := Call(mcu, Command.IrqUnbind(f.port, f.pin));
    }
    if status == OK {
      OkIsAccepted(CommandOf(run, f), Wanted(run), put, got);
      if Wanted(run).Anything? || Wanted(run).ProbeMagic? {
        NothingTold(run, Receive(got).reply.data);
      }
    }
  }

  lemma OkIsAccepted(c: Command, e: Expectation, put: seq<byte>, got: seq<byte>)
    requires Called(c, e, put, got, OK)
    ensures Receive(got).Accepted?
  {
    hide InRange, CommandFrame, Receive;
  }

  lemma NothingTold(run: Verb, data: seq<byte>)
    requires Wanted(run).Anything? || Wanted(run).ProbeMagic?
    ensures Tells(run, data, [])
  {
  }
}
