/** The command table and the parser that fills a command's arguments from the words typed. */
module Cli {
  import opened Words
  import opened Strtoul
  import opened CliWords
  import opened Protocol

  datatype WordKind =
    | DirectionKind | LevelKind | PortKind | PinKind | FrequencyKind | TimerKind | PolarityKind | DutyKind
    | EdgeKind | BindEdgeKind | ActionKind | OutPortKind | OutPinKind

  /** Which library call a row runs. */
  datatype Verb =
    | RunProbe | RunReset | RunGpioCfg | RunGpioSet | RunGpioGet | RunGpioToggle | RunTimerCfg | RunTimerGet
    | RunTimerRelease | RunPwmCfg | RunPwmSet | RunPwmGet | RunPwmRelease | RunIrqCfg | RunIrqBind | RunIrqUnbind

  datatype Row = Row(subsystem: string, verb: string, values: seq<WordKind>, run: Verb)

  /** The values a verb takes, in the order they are typed. */
  function Kinds(run: Verb): seq<WordKind> {
    match run
    case RunProbe => []
    case RunReset => []
    case RunGpioCfg => [DirectionKind, PortKind, PinKind]
    case RunGpioSet => [LevelKind, PortKind, PinKind]
    case RunGpioGet => [PortKind, PinKind]
    case RunGpioToggle => [PortKind, PinKind]
    case RunTimerCfg => [FrequencyKind, TimerKind]
    case RunTimerGet => [TimerKind]
    case RunTimerRelease => [TimerKind]
    case RunPwmCfg => [PolarityKind, PortKind, PinKind]
    case RunPwmSet => [DutyKind, PortKind, PinKind]
    case RunPwmGet => [PortKind, PinKind]
    case RunPwmRelease => [PortKind, PinKind]
    case RunIrqCfg => [EdgeKind, PortKind, PinKind]
    case RunIrqBind => [BindEdgeKind, PortKind, PinKind, ActionKind, OutPortKind, OutPinKind]
    case RunIrqUnbind => [PortKind, PinKind]
  }

  function RowOf(run: Verb): Row {
    match run
    case RunProbe => Row("mcu", "probe", Kinds(run), run)
    case RunReset => Row("mcu", "reset", Kinds(run), run)
    case RunGpioCfg => Row("gpio", "cfg", Kinds(run), run)
    case RunGpioSet => Row("gpio", "set", Kinds(run), run)
    case RunGpioGet => Row("gpio", "get", Kinds(run), run)
    case RunGpioToggle => Row("gpio", "toggle", Kinds(run), run)
    case RunTimerCfg => Row("timer", "cfg", Kinds(run), run)
    case RunTimerGet => Row("timer", "get", Kinds(run), run)
    case RunTimerRelease => Row("timer", "release", Kinds(run), run)
    case RunPwmCfg => Row("pwm", "cfg", Kinds(run), run)
    case RunPwmSet => Row("pwm", "set", Kinds(run), run)
    case RunPwmGet => Row("pwm", "get", Kinds(run), run)
    case RunPwmRelease => Row("pwm", "release", Kinds(run), run)
    case RunIrqCfg => Row("irq", "cfg", Kinds(run), run)
    case RunIrqBind => Row("irq", "bind", Kinds(run), run)
    case RunIrqUnbind => Row("irq", "unbind", Kinds(run), run)
  }

  /** The command table, in its order. */
  function Table(): seq<Row> {
    [RowOf(RunProbe), RowOf(RunReset), RowOf(RunGpioCfg), RowOf(RunGpioSet), RowOf(RunGpioGet),
     RowOf(RunGpioToggle), RowOf(RunTimerCfg), RowOf(RunTimerGet), RowOf(RunTimerRelease),
     RowOf(RunPwmCfg), RowOf(RunPwmSet), RowOf(RunPwmGet), RowOf(RunPwmRelease),
     RowOf(RunIrqCfg), RowOf(RunIrqBind), RowOf(RunIrqUnbind)]
  }

  /** The values of all argument fields at one moment. */
  datatype Fields = Fields(
    direction: u32, level: u32, port: u32, pin: byte, frequency: u32, timer: byte, polarity: u32, duty: u16,
    edge: u32, action: u32, outPort: u32, outPin: byte)

  /** What typing `word` for a value of this kind makes of the fields, or nothing if the word is refused. */
  function WithWord(f: Fields, kind: WordKind, word: string, max: ulong_max): Option<Fields> {
    match kind
    case DirectionKind => (match ParseDirection(word) case None => None case Some(v) => Some(f.(direction := v)))
    case LevelKind => (match ParseLevel(word) case None => None case Some(v) => Some(f.(level := v)))
    case PortKind => (match ParsePort(word) case None => None case Some(v) => Some(f.(port := v)))
    case PinKind => (match ParsePin(word, max) case None => None case Some(v) => Some(f.(pin := v)))
    case FrequencyKind => (match ParseFrequency(word, max) case None => None case Some(v) => Some(f.(frequency := v)))
    case TimerKind => (match ParseTimer(word, max) case None => None case Some(v) => Some(f.(timer := v)))
    case PolarityKind => (match ParsePolarity(word) case None => None case Some(v) => Some(f.(polarity := v)))
    case DutyKind => (match ParseDuty(word, max) case None => None case Some(v) => Some(f.(duty := v)))
    case EdgeKind => (match ParseEdge(word) case None => None case Some(v) => Some(f.(edge := v)))
    case BindEdgeKind => (match ParseBindEdge(word) case None => None case Some(v) => Some(f.(edge := v)))
    case ActionKind => (match ParseAction(word) case None => None case Some(v) => Some(f.(action := v)))
    case OutPortKind => (match ParsePort(word) case None => None case Some(v) => Some(f.(outPort := v)))
    case OutPinKind => (match ParsePin(word, max) case None => None case Some(v) => Some(f.(outPin := v)))
  }

  /** The number that a word of this kind stands for, by the word lists and the places of its digits. */
  predicate Spells(kind: WordKind, word: string, n: int, max: ulong_max) {
    n >= 0 &&
    match kind
    case DirectionKind => Listed(DIRECTIONS, word, n)
    case LevelKind => Listed(LEVELS, word, n)
    case PortKind => Listed(PORTS, word, n)
    case OutPortKind => Listed(PORTS, word, n)
    case PinKind => Within(word, 15) && n == Value(word)
    case OutPinKind => Within(word, 15) && n == Value(word)
    case TimerKind => Within(word, 2) && n == Value(word)
    case FrequencyKind => FrequencyWord(word, max) && n == FrequencyValue(word, max)
    case DutyKind => Within(word, 100) && n == 10 * Value(word)
    case PolarityKind => Listed(POLARITIES, word, n)
    case EdgeKind => Listed(EDGES, word, n)
    case BindEdgeKind => Listed(EDGES, word, n) && n != 0
    case ActionKind => Listed(ACTIONS, word, n)
  }

  /** The number in the field that a word of this kind is written to. */
  function FieldValue(f: Fields, kind: WordKind): nat {
    match kind
    case DirectionKind => f.direction as nat
    case LevelKind => f.level as nat
    case PortKind => f.port as nat
    case PinKind => f.pin as nat
    case FrequencyKind => f.frequency as nat
    case TimerKind => f.timer as nat
    case PolarityKind => f.polarity as nat
    case DutyKind => f.duty as nat
    case EdgeKind => f.edge as nat
    case BindEdgeKind => f.edge as nat
    case ActionKind => f.action as nat
    case OutPortKind => f.outPort as nat
    case OutPinKind => f.outPin as nat
  }

  /** A word that is taken leaves the number it stands for in the field of its kind. */
  lemma TakenIsSpelled(f: Fields, kind: WordKind, word: string, max: ulong_max)
    requires WithWord(f, kind, word, max).Some?
    ensures Spells(kind, word, FieldValue(WithWord(f, kind, word, max).value, kind), max)
  {
    hide ParseDirection, ParseLevel, ParsePort, ParsePin, ParseFrequency, ParseTimer, ParsePolarity, ParseDuty;
    hide ParseEdge, ParseBindEdge, ParseAction, Listed, Within, FrequencyWord, Value, AllDigits;
    var g := WithWord(f, kind, word, max).value;
    match kind
    case DirectionKind => DirectionWords(word, g.direction);
    case LevelKind => LevelWords(word, g.level);
    case PortKind => PortWords(word, g.port);
    case OutPortKind => PortWords(word, g.outPort);
    case PinKind => PinWords(word, max, g.pin);
    case OutPinKind => PinWords(word, max, g.outPin);
    case TimerKind => TimerWords(word, max, g.timer);
    case FrequencyKind => FrequencyWords(word, max);
    case DutyKind => DutyWords(word, max);
    case PolarityKind => PolarityWords(word, g.polarity);
    case EdgeKind => EdgeWords(word, g.edge);
    case BindEdgeKind => EdgeWords(word, g.edge);
    case ActionKind => ActionWords(word, g.action);
  }

  /** And every word that stands for a number is taken. */
  lemma SpelledIsTaken(f: Fields, kind: WordKind, word: string, n: int, max: ulong_max)
    requires Spells(kind, word, n, max)
    ensures WithWord(f, kind, word, max).Some?
  {
    hide ParseDirection, ParseLevel, ParsePort, ParsePin, ParseFrequency, ParseTimer, ParsePolarity, ParseDuty;
    hide ParseEdge, ParseBindEdge, ParseAction, Listed, FrequencyWord, Value, AllDigits, ByteOf;
    match kind
    case DirectionKind => DirectionWords(word, 0);
    case LevelKind => LevelWords(word, 0);
    case PortKind => PortWords(word, 0);
    case OutPortKind => PortWords(word, 0);
    case PinKind => ByteOfLength(n); PinWords(word, max, ByteOf(n));
    case OutPinKind => ByteOfLength(n); PinWords(word, max, ByteOf(n));
    case TimerKind => ByteOfLength(n); TimerWords(word, max, ByteOf(n));
    case FrequencyKind => FrequencyWords(word, max);
    case DutyKind => DutyWords(word, max);
    case PolarityKind => PolarityWords(word, 0);
    case EdgeKind => EdgeWords(word, 0);
    case BindEdgeKind => BindEdgeTaken(word, n);
    case ActionKind => ActionWords(word, 0);
  }

  lemma OtherValuesKept(f: Fields, kind: WordKind, word: string, other: WordKind, max: ulong_max)
    requires WithWord(f, kind, word, max).Some? && Target(kind) != Target(other)
    ensures FieldValue(WithWord(f, kind, word, max).value, other) == FieldValue(f, other)
  {
    hide ParseDirection, ParseLevel, ParsePort, ParsePin, ParseFrequency, ParseTimer, ParsePolarity, ParseDuty;
    hide ParseEdge, ParseBindEdge, ParseAction;
  }

  ghost predicate IsWord(kind: WordKind, word: string, max: ulong_max) {
    exists n :: Spells(kind, word, n, max)
  }

  /** Exactly the words that stand for a number are taken, at that number, and the other fields stay as they are. */
  lemma Understood(f: Fields, kind: WordKind, word: string, max: ulong_max)
    ensures WithWord(f, kind, word, max).Some? <==> IsWord(kind, word, max)
    ensures WithWord(f, kind, word, max).Some? ==>
              var g := WithWord(f, kind, word, max).value;
              && Spells(kind, word, FieldValue(g, kind), max)
              && forall other :: Target(kind) != Target(other) ==> FieldValue(g, other) == FieldValue(f, other)
  {
    hide WithWord, Spells, FieldValue, Target;
    if WithWord(f, kind, word, max).Some? {
      TakenIsSpelled(f, kind, word, max);
      forall other | Target(kind) != Target(other)
        ensures FieldValue(WithWord(f, kind, word, max).value, other) == FieldValue(f, other)
      {
        OtherValuesKept(f, kind, word, other, max);
      }
    }
    if IsWord(kind, word, max) {
      var n :| Spells(kind, word, n, max);
      SpelledIsTaken(f, kind, word, n, max);
    }
  }

  /** The same for a row's values in order. */
  function WithWords(f: Fields, kinds: seq<WordKind>, words: seq<string>, max: ulong_max): Option<Fields>
    requires |kinds| == |words|
  {
    if kinds == [] then Some(f)
    else
      match WithWords(f, kinds[..|kinds| - 1], words[..|words| - 1], max)
      case None => None
      case Some(g) => WithWord(g, kinds[|kinds| - 1], words[|words| - 1], max)
  }

  /** The argument record a caller passes by address. */
  class Args {
    var fields: Fields

    constructor (fields: Fields)
      ensures this.fields == fields
    {
      this.fields := fields;
    }

    /**
     Zero exactly for a word that stands for a number, which is then in the field of its kind with every other field as it
     was; minus one with nothing changed if not.
     */
    method ParseValue(kind: WordKind, word: string, max: ulong_max) returns (r: int)
      modifies this
      ensures match WithWord(old(fields), kind, word, max)
              case Some(f) => r == 0 && fields == f
              case None => r == -1 && fields == old(fields)
      ensures r == 0 <==> IsWord(kind, word, max)
      ensures r == 0 ==>
                && Spells(kind, word, FieldValue(fields, kind), max)
                && forall other :: Target(kind) != Target(other) ==> FieldValue(fields, other) == FieldValue(old(fields), other)
    {
      hide Spells, FieldValue, Target, IsWord;
      Understood(fields, kind, word, max);
      hide ParseDirection, ParseLevel, ParsePort, ParsePin, ParseFrequency, ParseTimer, ParsePolarity, ParseDuty;
      hide ParseEdge, ParseBindEdge, ParseAction;
      match kind
      case DirectionKind =>
        var parsed := ParseDirection(word);
        if parsed.None? { return -1; }
        fields := fields.(direction := parsed.value);
        return 0;
      case LevelKind =>
        var parsed := ParseLevel(word);
        if parsed.None? { return -1; }
        fields := fields.(level := parsed.value);
        return 0;
      case PortKind =>
        var parsed := ParsePort(word);
        if parsed.None? { return -1; }
        fields := fields.(port := parsed.value);
        return 0;
      case PinKind =>
        var parsed := ParsePin(word, max);
        if parsed.None? { return -1; }
        fields := fields.(pin := parsed.value);
        return 0;
      case FrequencyKind =>
        var parsed := ParseFrequency(word, max);
        if parsed.None? { return -1; }
        fields := fields.(frequency := parsed.value);
        return 0;
      case TimerKind =>
        var parsed := ParseTimer(word, max);
        if parsed.None? { return -1; }
        fields := fields.(timer := parsed.value);
        return 0;
      case PolarityKind =>
        var parsed := ParsePolarity(word);
        if parsed.None? { return -1; }
        fields := fields.(polarity := parsed.value);
        return 0;
      case DutyKind =>
        var parsed := ParseDuty(word, max);
        if parsed.None? { return -1; }
        fields := fields.(duty := parsed.value);
        return 0;
      case EdgeKind =>
        var parsed := ParseEdge(word);
        if parsed.None? { return -1; }
        fields := fields.(edge := parsed.value);
        return 0;
      case BindEdgeKind =>
        var parsed := ParseBindEdge(word);
        if parsed.None? { return -1; }
        fields := fields.(edge := parsed.value);
        return 0;
      case ActionKind =>
        var parsed := ParseAction(word);
        if parsed.None? { return -1; }
        fields := fields.(action := parsed.value);
        return 0;
      case OutPortKind =>
        var parsed := ParsePort(word);
        if parsed.None? { return -1; }
        fields := fields.(outPort := parsed.value);
        return 0;
      case OutPinKind =>
        var parsed := ParsePin(word, max);
        if parsed.None? { return -1; }
        fields := fields.(outPin := parsed.value);
        return 0;
    }
  }

  predicate Names(row: Row, subsystem: string, verb: string) {
    row.subsystem == subsystem && row.verb == verb
  }

  /** The first row of the table with this name. */
  method FindCommand(subsystem: string, verb: string) returns (found: Option<Row>)
    ensures match found
            case Some(row) => row in Table() && Names(row, subsystem, verb)
            case None => forall row :: row in Table() ==> !Names(row, subsystem, verb)
  {
    var row := 0;
    while row < |Table()|
      invariant row <= |Table()|
      invariant forall i :: 0 <= i < row ==> !Names(Table()[i], subsystem, verb)
    {
      if Table()[row].subsystem == subsystem && Table()[row].verb == verb {
        return Some(Table()[row]);
      }
      row := row + 1;
    }
    return None;
  }

  /** A whole command line read against one row. */
  predicate Reads(words: seq<string>, row: Row, before: Fields, after: Fields, max: ulong_max) {
    && |words| == 2 + |row.values|
    && row in Table() && Names(row, words[0], words[1])
    && WithWords(before, row.values, words[2..], max) == Some(after)
  }

  /** A command line as the usage text has it: the row's two names, then one word of each kind the row asks for. */
  ghost predicate Typed(words: seq<string>, row: Row, max: ulong_max) {
    && |words| == 2 + |row.values|
    && row in Table() && Names(row, words[0], words[1])
    && forall i :: 0 <= i < |row.values| ==> IsWord(row.values[i], words[2 + i], max)
  }

  /** Each field of the row stands for what was typed for it, and every other field is as it was. */
  ghost predicate Filled(words: seq<string>, row: Row, before: Fields, after: Fields, max: ulong_max) {
    && |words| == 2 + |row.values|
    && (forall i :: 0 <= i < |row.values| ==> Spells(row.values[i], words[2 + i], FieldValue(after, row.values[i]), max))
    && forall other: WordKind :: (forall i :: 0 <= i < |row.values| ==> Target(row.values[i]) != Target(other)) ==>
         FieldValue(after, other) == FieldValue(before, other)
  }

  /**
   Accepts a command line exactly when its two leading words name a row and the rest are that row's values, one word
   each; then the row is reported, the fields hold the values, and no other field changed. On rejection no command is
   reported.
   */
  method ArgsParse(words: seq<string>, command: Cell<Option<Row>>, args: Args, max: ulong_max) returns (r: int)
    modifies command, args
    ensures r == 0 || r == -1
    ensures r == 0 ==> command.value.Some? && Reads(words, command.value.value, old(args.fields), args.fields, max)
    ensures r == -1 ==> command.value == old(command.value)
    ensures r == -1 ==> forall row, after :: !Reads(words, row, old(args.fields), after, max)
    ensures r == 0 <==> exists row :: Typed(words, row, max)
    ensures r == 0 ==> Typed(words, command.value.value, max) && Filled(words, command.value.value, old(args.fields), args.fields, max)
  {
    hide WithWord, WithWords, Table, Typed, Filled, IsWord, Spells, FieldValue, Target;
    TypedIsRead(words, args.fields, max);
    if |words| < 2 {
      return -1;
    }
    var found := FindCommand(words[0], words[1]);
    if found.None? {
      return -1;
    }
    var row := found.value;
    if |words| != 2 + |row.values| {
      WrongCount(words, row, args.fields, max);
      return -1;
    }
    ghost var before := args.fields;
    var i := 0;
    NoWordsYet(before, row.values, words, max);
    while i < |row.values|
      invariant i <= |row.values| && command.value == old(command.value)
      invariant WithWords(before, row.values[..i], words[2..2 + i], max) == Some(args.fields)
    {
      NextWord(before, row.values, words, i, max);
      var parsed := args.ParseValue(row.values[i], words[2 + i], max);
      if parsed != 0 {
        BadWord(words, row, before, i, max);
        return -1;
      }
      i := i + 1;
    }
    assert row.values[..i] == row.values && words[2..2 + i] == words[2..];
    ReadIsFilled(words, row, before, args.fields, max);
    command.value := Some(row);
    return 0;
  }

  lemma NoWordsYet(f: Fields, kinds: seq<WordKind>, words: seq<string>, max: ulong_max)
    requires |words| == 2 + |kinds|
    ensures WithWords(f, kinds[..0], words[2..2], max) == Some(f)
  {
  }

  lemma NextWord(f: Fields, kinds: seq<WordKind>, words: seq<string>, i: nat, max: ulong_max)
    requires |words| == 2 + |kinds| && i < |kinds|
    ensures WithWords(f, kinds[..i + 1], words[2..2 + (i + 1)], max) ==
            match WithWords(f, kinds[..i], words[2..2 + i], max)
            case None => None
            case Some(g) => WithWord(g, kinds[i], words[2 + i], max)
  {
    hide WithWord;
    assert kinds[..i + 1][..i] == kinds[..i] && words[2..2 + (i + 1)][..i] == words[2..2 + i];
  }

  lemma WrongCount(words: seq<string>, row: Row, before: Fields, max: ulong_max)
    requires |words| >= 2 && |words| != 2 + |row.values| && row in Table() && Names(row, words[0], words[1])
    ensures forall other, after :: !Reads(words, other, before, after, max)
  {
    hide WithWords, Table;
    forall other, after
      ensures !Reads(words, other, before, after, max)
    {
      if other in Table() && |words| == 2 + |other.values| && Names(other, words[0], words[1]) {
        NamesOneRow(row, other);
      }
    }
  }

  lemma BadWord(words: seq<string>, row: Row, before: Fields, i: nat, max: ulong_max)
    requires |words| == 2 + |row.values| && row in Table() && Names(row, words[0], words[1]) && i < |row.values|
    requires WithWords(before, row.values[..i + 1], words[2..2 + (i + 1)], max).None?
    ensures forall other, after :: !Reads(words, other, before, after, max)
  {
    hide WithWords, Table;
    WithFewerWords(before, row.values, words[2..], i + 1, max);
    assert words[2..][..i + 1] == words[2..2 + (i + 1)];
    forall other, after
      ensures !Reads(words, other, before, after, max)
    {
      if other in Table() && |words| == 2 + |other.values| && Names(other, words[0], words[1]) {
        NamesOneRow(row, other);
      }
    }
  }

  lemma {:induction false} WithFewerWords(f: Fields, kinds: seq<WordKind>, words: seq<string>, n: nat, max: ulong_max)
    requires |kinds| == |words| && n <= |kinds|
    ensures WithWords(f, kinds, words, max).Some? ==> WithWords(f, kinds[..n], words[..n], max).Some?
    decreases |kinds|
  {
    if n == |kinds| {
      assert kinds[..n] == kinds && words[..n] == words;
    } else {
      var last := |kinds| - 1;
      assert kinds[..last][..n] == kinds[..n] && words[..last][..n] == words[..n];
      WithFewerWords(f, kinds[..last], words[..last], n, max);
    }
  }

  // ---- the table ----

  /** The first letters of a row's two names, which already tell the rows apart. */
  function Initials(run: Verb): (char, char) {
    match run
    case RunProbe => ('m', 'p')
    case RunReset => ('m', 'r')
    case RunGpioCfg => ('g', 'c')
    case RunGpioSet => ('g', 's')
    case RunGpioGet => ('g', 'g')
    case RunGpioToggle => ('g', 't')
    case RunTimerCfg => ('t', 'c')
    case RunTimerGet => ('t', 'g')
    case RunTimerRelease => ('t', 'r')
    case RunPwmCfg => ('p', 'c')
    case RunPwmSet => ('p', 's')
    case RunPwmGet => ('p', 'g')
    case RunPwmRelease => ('p', 'r')
    case RunIrqCfg => ('i', 'c')
    case RunIrqBind => ('i', 'b')
    case RunIrqUnbind => ('i', 'u')
  }

  lemma InitialsOfRow(run: Verb)
    ensures var row := RowOf(run);
            && row.run == run && row.values == Kinds(run)
            && row.subsystem != [] && row.verb != [] && Initials(run) == (row.subsystem[0], row.verb[0])
  {
  }

  lemma InitialsDiffer(run: Verb, other: Verb)
    requires Initials(run) == Initials(other)
    ensures run == other
  {
  }

  lemma InTable(row: Row)
    requires row in Table()
    ensures row == RowOf(row.run)
  {
    hide RowOf;
    forall run
      ensures RowOf(run).run == run
    {
      InitialsOfRow(run);
    }
  }

  /** Two leading words never name two rows. */
  lemma NamesOneRow(row: Row, other: Row)
    requires row in Table() && other in Table() && Names(row, other.subsystem, other.verb)
    ensures row == other
  {
    hide Table, RowOf, Initials;
    InTable(row);
    InTable(other);
    InitialsOfRow(row.run);
    InitialsOfRow(other.run);
    InitialsDiffer(row.run, other.run);
  }

  // ---- what the table guarantees ----

  /** The field a word of this kind is written to. */
  function Target(kind: WordKind): nat {
    match kind
    case DirectionKind => 0
    case LevelKind => 1
    case PolarityKind => 2
    case DutyKind => 3
    case EdgeKind => 4
    case BindEdgeKind => 4
    case FrequencyKind => 5
    case PortKind => 6
    case PinKind => 7
    case ActionKind => 8
    case OutPortKind => 9
    case OutPinKind => 10
    case TimerKind => 11
  }

  predicate DistinctTargets(kinds: seq<WordKind>) {
    forall i, j :: 0 <= i < j < |kinds| ==> Target(kinds[i]) != Target(kinds[j])
  }

  predicate Ascending(kinds: seq<WordKind>) {
    forall i :: 0 < i < |kinds| ==> Target(kinds[i - 1]) < Target(kinds[i])
  }

  lemma {:induction false} AscendingAcross(kinds: seq<WordKind>, i: nat, j: nat)
    requires Ascending(kinds) && i < j < |kinds|
    ensures Target(kinds[i]) < Target(kinds[j])
    decreases j
  {
    hide Target;
    if i + 1 < j {
      AscendingAcross(kinds, i, j - 1);
    }
  }

  lemma RowsAscend(run: Verb)
    ensures Ascending(Kinds(run))
  {
  }

  /** No row writes two of its values to the same field. */
  lemma RowsHaveDistinctTargets(row: Row)
    requires row in Table()
    ensures DistinctTargets(row.values)
  {
    hide Table, Target, RowOf, Kinds;
    InTable(row);
    InitialsOfRow(row.run);
    RowsAscend(row.run);
    forall i, j | 0 <= i < j < |row.values|
      ensures Target(row.values[i]) != Target(row.values[j])
    {
      AscendingAcross(row.values, i, j);
    }
  }

  /** A field still holds the value of the word that was typed for it: writing that word again would change nothing. */
  predicate Holds(f: Fields, kind: WordKind, word: string, max: ulong_max) {
    WithWord(f, kind, word, max) == Some(f)
  }

  lemma WrittenHolds(f: Fields, kind: WordKind, word: string, max: ulong_max)
    requires WithWord(f, kind, word, max).Some?
    ensures Holds(WithWord(f, kind, word, max).value, kind, word, max)
  {
    hide ParseDirection, ParseLevel, ParsePort, ParsePin, ParseFrequency, ParseTimer, ParsePolarity, ParseDuty;
    hide ParseEdge, ParseBindEdge, ParseAction;
  }

  lemma OthersKept(f: Fields, kind: WordKind, word: string, other: WordKind, otherWord: string, max: ulong_max)
    requires Holds(f, kind, word, max) && Target(kind) != Target(other)
    requires WithWord(f, other, otherWord, max).Some?
    ensures Holds(WithWord(f, other, otherWord, max).value, kind, word, max)
  {
    hide ParseDirection, ParseLevel, ParsePort, ParsePin, ParseFrequency, ParseTimer, ParsePolarity, ParseDuty;
    hide ParseEdge, ParseBindEdge, ParseAction;
  }

  /** After a line was read, every value typed stands in its field, and no later value overwrote an earlier one. */
  lemma {:induction false} EveryWordHolds(f: Fields, kinds: seq<WordKind>, words: seq<string>, i: nat, max: ulong_max)
    requires |kinds| == |words| && i < |kinds| && DistinctTargets(kinds)
    requires WithWords(f, kinds, words, max).Some?
    ensures Holds(WithWords(f, kinds, words, max).value, kinds[i], words[i], max)
    decreases |kinds|
  {
    hide WithWord, Target, Holds;
    var last := |kinds| - 1;
    var before := WithWords(f, kinds[..last], words[..last], max).value;
    if i == last {
      WrittenHolds(before, kinds[last], words[last], max);
    } else {
      EveryWordHolds(f, kinds[..last], words[..last], i, max);
      assert Target(kinds[i]) != Target(kinds[last]);
      OthersKept(before, kinds[i], words[i], kinds[last], words[last], max);
    }
  }

  // ---- lines ----

  lemma {:induction false} WordsTaken(f: Fields, kinds: seq<WordKind>, words: seq<string>, max: ulong_max)
    requires |kinds| == |words|
    ensures WithWords(f, kinds, words, max).Some? <==> forall i :: 0 <= i < |kinds| ==> IsWord(kinds[i], words[i], max)
    decreases |kinds|
  {
    hide WithWord, IsWord;
    if kinds != [] {
      var last := |kinds| - 1;
      WordsTaken(f, kinds[..last], words[..last], max);
      forall g
        ensures WithWord(g, kinds[last], words[last], max).Some? <==> IsWord(kinds[last], words[last], max)
      {
        Understood(g, kinds[last], words[last], max);
      }
      assert forall i :: 0 <= i < last ==> kinds[..last][i] == kinds[i] && words[..last][i] == words[i];
    }
  }

  lemma {:induction false} OthersStay(f: Fields, kinds: seq<WordKind>, words: seq<string>, other: WordKind, max: ulong_max)
    requires |kinds| == |words| && WithWords(f, kinds, words, max).Some?
    requires forall i :: 0 <= i < |kinds| ==> Target(kinds[i]) != Target(other)
    ensures FieldValue(WithWords(f, kinds, words, max).value, other) == FieldValue(f, other)
    decreases |kinds|
  {
    hide WithWord, FieldValue, Target;
    if kinds != [] {
      var last := |kinds| - 1;
      OthersStay(f, kinds[..last], words[..last], other, max);
      OtherValuesKept(WithWords(f, kinds[..last], words[..last], max).value, kinds[last], words[last], other, max);
    }
  }

  /** The lines that read as a row are exactly those typed as the row asks, whatever the fields held before. */
  lemma TypedIsRead(words: seq<string>, before: Fields, max: ulong_max)
    ensures forall row :: Typed(words, row, max) <==> exists after :: Reads(words, row, before, after, max)
  {
    hide WithWords, Table, IsWord;
    forall row
      ensures Typed(words, row, max) <==> exists after :: Reads(words, row, before, after, max)
    {
      if |words| == 2 + |row.values| && row in Table() && Names(row, words[0], words[1]) {
        WordsTaken(before, row.values, words[2..], max);
        if Typed(words, row, max) {
          assert Reads(words, row, before, WithWords(before, row.values, words[2..], max).value, max);
        }
        if WithWords(before, row.values, words[2..], max).Some? {
          forall i | 0 <= i < |row.values|
            ensures IsWord(row.values[i], words[2 + i], max)
          {
            assert IsWord(row.values[i], words[2..][i], max);
          }
        }
      }
    }
  }

  lemma ReadIsFilled(words: seq<string>, row: Row, before: Fields, after: Fields, max: ulong_max)
    requires Reads(words, row, before, after, max)
    ensures Typed(words, row, max) && Filled(words, row, before, after, max)
  {
    hide WithWords, WithWord, Table, IsWord, Spells, FieldValue, Target, Typed;
    TypedIsRead(words, before, max);
    RowsHaveDistinctTargets(row);
    forall i | 0 <= i < |row.values|
      ensures Spells(row.values[i], words[2 + i], FieldValue(after, row.values[i]), max)
    {
      EveryWordHolds(before, row.values, words[2..], i, max);
      TakenIsSpelled(after, row.values[i], words[2 + i], max);
    }
    forall other: WordKind | forall i :: 0 <= i < |row.values| ==> Target(row.values[i]) != Target(other)
      ensures FieldValue(after, other) == FieldValue(before, other)
    {
      OthersStay(before, row.values, words[2..], other, max);
    }
  }
}
