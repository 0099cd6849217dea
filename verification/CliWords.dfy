/** The word parsers of the command line tool. */
module CliWords {
  import opened Words
  import opened Strtoul

  function ParseDirection(word: string): Option<u32> {
    if word == "input" then Some(0) else if word == "output" then Some(1) else None
  }

  function ParseLevel(word: string): Option<u32> {
    if word == "low" then Some(0) else if word == "high" then Some(1) else None
  }

  function ParsePort(word: string): Option<u32> {
    if word == [] || word[0] < 'A' || word[0] > 'G' || |word| != 1 then None
    else Some(U32Of(word[0] as nat - 'A' as nat))
  }

  function ParsePin(word: string, max: ulong_max): Option<byte> {
    if word == [] || word[0] < '0' || word[0] > '9' then None
    else
      var c := Convert(word, max);
      if c.rest != [] || c.value > 15 then None else Some(ByteOf(c.value))
  }

  function ParseTimer(word: string, max: ulong_max): Option<byte> {
    if word == [] || word[0] < '0' || word[0] > '9' then None
    else
      var c := Convert(word, max);
      if c.rest != [] || c.value > 2 then None else Some(ByteOf(c.value))
  }

  function ParseFrequency(word: string, max: ulong_max): Option<u32> {
    var c := Convert(word, max);
    if c.rest != [] || c.value < 1 || c.value > 1000000 then None else Some(U32Of(c.value))
  }

  function ParsePolarity(word: string): Option<u32> {
    if word == "active-high" then Some(0) else if word == "active-low" then Some(1) else None
  }

  function ParseDuty(word: string, max: ulong_max): Option<u16> {
    if word == [] || word[0] < '0' || word[0] > '9' then None
    else
      var c := Convert(word, max);
      if c.rest != [] || c.value > 1000 / 10 then None else Some(U16Of(c.value * 10))
  }

  function ParseEdge(word: string): Option<u32> {
    if word == "off" then Some(0)
    else if word == "rising" then Some(1)
    else if word == "falling" then Some(2)
    else if word == "both" then Some(3)
    else None
  }

  function ParseBindEdge(word: string): Option<u32> {
    if word == "off" then None else ParseEdge(word)
  }

  function ParseAction(word: string): Option<u32> {
    if word == "low" then Some(0)
    else if word == "high" then Some(1)
    else if word == "toggle" then Some(2)
    else None
  }

  // ---- spelled words ----

  /** The words of each kind, each at the place of its wire encoding. */
  const DIRECTIONS: seq<string> := ["input", "output"]
  const LEVELS: seq<string> := ["low", "high"]
  const POLARITIES: seq<string> := ["active-high", "active-low"]
  const EDGES: seq<string> := ["off", "rising", "falling", "both"]
  const ACTIONS: seq<string> := ["low", "high", "toggle"]
  const PORTS: seq<string> := ["A", "B", "C", "D", "E", "F", "G"]

  /** `word` is the one that stands for encoding `n`. */
  predicate Listed(table: seq<string>, word: string, n: nat) {
    n < |table| && table[n] == word
  }

  lemma SmallWord(v: u32)
    ensures v as nat == 0 <==> v == 0
    ensures v as nat == 1 <==> v == 1
    ensures v as nat == 2 <==> v == 2
    ensures v as nat == 3 <==> v == 3
  {
  }

  lemma DirectionListed(word: string)
    ensures forall n :: Listed(DIRECTIONS, word, n) <==> (n == 0 && word == "input") || (n == 1 && word == "output")
  {
  }

  lemma DirectionWords(word: string, v: u32)
    ensures ParseDirection(word) == Some(v) <==> Listed(DIRECTIONS, word, v as nat)
    ensures ParseDirection(word).None? ==> forall n :: !Listed(DIRECTIONS, word, n)
  {
    hide Listed, DIRECTIONS;
    DirectionListed(word);
    SmallWord(v);
  }

  lemma LevelListed(word: string)
    ensures forall n :: Listed(LEVELS, word, n) <==> (n == 0 && word == "low") || (n == 1 && word == "high")
  {
  }

  lemma LevelWords(word: string, v: u32)
    ensures ParseLevel(word) == Some(v) <==> Listed(LEVELS, word, v as nat)
    ensures ParseLevel(word).None? ==> forall n :: !Listed(LEVELS, word, n)
  {
    hide Listed, LEVELS;
    LevelListed(word);
    SmallWord(v);
  }

  lemma PolarityListed(word: string)
    ensures forall n :: Listed(POLARITIES, word, n) <==>
              (n == 0 && word == "active-high") || (n == 1 && word == "active-low")
  {
  }

  lemma PolarityWords(word: string, v: u32)
    ensures ParsePolarity(word) == Some(v) <==> Listed(POLARITIES, word, v as nat)
    ensures ParsePolarity(word).None? ==> forall n :: !Listed(POLARITIES, word, n)
  {
    hide Listed, POLARITIES;
    PolarityListed(word);
    SmallWord(v);
  }

  lemma EdgeListed(word: string)
    ensures forall n :: Listed(EDGES, word, n) <==>
              (n == 0 && word == "off") || (n == 1 && word == "rising") || (n == 2 && word == "falling") || (n == 3 && word == "both")
  {
  }

  lemma EdgeWords(word: string, v: u32)
    ensures ParseEdge(word) == Some(v) <==> Listed(EDGES, word, v as nat)
    ensures ParseEdge(word).None? ==> forall n :: !Listed(EDGES, word, n)
    ensures ParseBindEdge(word) == Some(v) <==> Listed(EDGES, word, v as nat) && v != 0
  {
    hide Listed, EDGES;
    EdgeListed(word);
    SmallWord(v);
  }

  lemma BindEdgeTaken(word: string, n: nat)
    requires Listed(EDGES, word, n) && n != 0
    ensures ParseBindEdge(word).Some?
  {
    EdgeListed(word);
  }

  lemma ActionListed(word: string)
    ensures forall n :: Listed(ACTIONS, word, n) <==>
              (n == 0 && word == "low") || (n == 1 && word == "high") || (n == 2 && word == "toggle")
  {
  }

  lemma ActionWords(word: string, v: u32)
    ensures ParseAction(word) == Some(v) <==> Listed(ACTIONS, word, v as nat)
    ensures ParseAction(word).None? ==> forall n :: !Listed(ACTIONS, word, n)
  {
    hide Listed, ACTIONS;
    ActionListed(word);
    SmallWord(v);
  }

  lemma PortLetters(n: nat)
    requires n < 7
    ensures |PORTS| == 7 && |PORTS[n]| == 1 && PORTS[n][0] as nat == 'A' as nat + n
  {
  }

  lemma PortListed(word: string, n: nat)
    ensures Listed(PORTS, word, n) <==> n < 7 && |word| == 1 && word[0] as nat == 'A' as nat + n
  {
    if n < 7 {
      PortLetters(n);
      if |word| == 1 && word[0] as nat == 'A' as nat + n {
        assert word == [word[0]] == PORTS[n];
      }
    }
  }

  lemma PortParsed(word: string)
    ensures ParsePort(word).Some? <==> |word| == 1 && 'A' as nat <= word[0] as nat <= 'G' as nat
    ensures ParsePort(word).Some? ==> ParsePort(word).value as nat == word[0] as nat - 'A' as nat
  {
    hide U32Of;
    if ParsePort(word).Some? {
      U32OfValue(word[0] as nat - 'A' as nat);
    }
  }

  /** A port word is a single letter from A to G, in upper case. */
  lemma PortWords(word: string, v: u32)
    ensures ParsePort(word) == Some(v) <==> Listed(PORTS, word, v as nat)
    ensures ParsePort(word).None? ==> forall n :: !Listed(PORTS, word, n)
  {
    hide ParsePort, Listed, PORTS;
    PortParsed(word);
    PortListed(word, v as nat);
    if ParsePort(word).None? {
      forall n
        ensures !Listed(PORTS, word, n)
      {
        PortListed(word, n);
      }
    } else if ParsePort(word).value as nat == v as nat {
      SameU32(ParsePort(word).value, v);
    }
  }

  // ---- numeric words ----

  /** A non-empty string of digits, leading zeros and any length included, whose true value is within the bound. */
  predicate Within(word: string, bound: nat) {
    word != [] && AllDigits(word) && Value(word) <= bound
  }

  /** Pins are exactly the digit strings worth 0 to 15, at their true value: saturation never lets one in. */
  lemma PinWords(word: string, max: ulong_max, pin: byte)
    ensures ParsePin(word, max) == Some(pin) <==> Within(word, 15) && pin as nat == Value(word)
  {
    hide ByteOf, Convert;
    if word != [] && IsDigit(word[0]) {
      ConvertDigits(word, max);
      if Within(word, 15) {
        ByteOfLength(Value(word));
        SameByteIff(ByteOf(Value(word)), pin);
      }
    }
  }

  lemma SameByteIff(b: byte, c: byte)
    ensures b as nat == c as nat <==> b == c
  {
    if b as nat == c as nat {
      SameByte(b, c);
    }
  }

  lemma TimerWords(word: string, max: ulong_max, timer: byte)
    ensures ParseTimer(word, max) == Some(timer) <==> Within(word, 2) && timer as nat == Value(word)
  {
    hide ByteOf, Convert;
    if word != [] && IsDigit(word[0]) {
      ConvertDigits(word, max);
      if Within(word, 2) {
        ByteOfLength(Value(word));
        SameByteIff(ByteOf(Value(word)), timer);
      }
    }
  }

  /** Duties are whole percents from 0 to 100, passed on in tenths. */
  lemma DutyWords(word: string, max: ulong_max)
    ensures ParseDuty(word, max).Some? <==> Within(word, 100)
    ensures ParseDuty(word, max).Some? ==> ParseDuty(word, max).value as nat == 10 * Value(word)
  {
    hide U16Of, Convert;
    if word != [] && IsDigit(word[0]) {
      ConvertDigits(word, max);
      if Within(word, 100) {
        U16OfValue(Value(word) * 10);
      }
    }
  }

  /** The magnitude behind the sign that the frequency parser ends up with in range. */
  predicate FrequencyWord(word: string, max: ulong_max) {
    var t := Unsigned(word);
    && t != [] && AllDigits(t)
    && if Negated(word) then max + 1 - 1000000 <= Value(t) <= max else 1 <= Value(t) <= 1000000
  }

  /**
   The frequency parser does not insist on a leading digit. It accepts white space and a sign ahead of the digits, and
   exactly these words: unsigned magnitudes from 1 to 1000000, and negated ones that wrap round into that range.
   */
  lemma FrequencyWords(word: string, max: ulong_max)
    ensures ParseFrequency(word, max).Some? <==> FrequencyWord(word, max)
    ensures ParseFrequency(word, max).Some? ==>
              var n := Value(Unsigned(word));
              ParseFrequency(word, max).value as nat == if Negated(word) then max + 1 - n else n
  {
    hide U32Of, Convert;
    ConvertAll(word, max);
    var c := Convert(word, max);
    if 1 <= c.value <= 1000000 {
      U32OfValue(c.value);
    }
  }

  /** White space as the C locale has it: space, and the characters 9 to 13. */
  predicate Blank(s: string) {
    forall i :: 0 <= i < |s| ==> s[i] as nat == 32 || 9 <= s[i] as nat <= 13
  }

  /** A word taken apart: blanks, at most one sign, and one digit at least. */
  predicate SpelledOut(word: string, blanks: string, sign: string, digits: string) {
    word == blanks + sign + digits && Blank(blanks) && sign in {"", "+", "-"} && digits != [] && AllDigits(digits)
  }

  lemma {:induction false} SkipsBlanks(blanks: string, rest: string)
    requires Blank(blanks) && rest != [] && !IsSpace(rest[0])
    ensures SkipSpace(blanks + rest) == rest
  {
    if blanks == [] {
      assert blanks + rest == rest;
    } else {
      assert (blanks + rest)[1..] == blanks[1..] + rest;
      SkipsBlanks(blanks[1..], rest);
    }
  }

  lemma {:induction false} BlanksSkipped(word: string) returns (blanks: string)
    ensures word == blanks + SkipSpace(word) && Blank(blanks)
  {
    if word != [] && IsSpace(word[0]) {
      var more := BlanksSkipped(word[1..]);
      blanks := [word[0]] + more;
    } else {
      blanks := [];
    }
  }

  lemma PartsOf(word: string, blanks: string, sign: string, digits: string)
    requires SpelledOut(word, blanks, sign, digits)
    ensures Unsigned(word) == digits && (Negated(word) <==> sign == "-")
  {
    assert IsDigit(digits[0]);
    var rest := sign + digits;
    assert word == blanks + rest;
    assert sign != "" ==> rest[0] == sign[0] && rest[1..] == digits;
    assert sign == "" ==> rest == digits;
    SkipsBlanks(blanks, rest);
  }

  lemma TakenApart(word: string) returns (blanks: string, sign: string)
    requires Unsigned(word) != [] && AllDigits(Unsigned(word))
    ensures SpelledOut(word, blanks, sign, Unsigned(word))
  {
    blanks := BlanksSkipped(word);
    var s := SkipSpace(word);
    sign := if s[0] == '-' || s[0] == '+' then [s[0]] else "";
    assert s == sign + Unsigned(word);
    assert word == blanks + sign + Unsigned(word);
  }

  /** The frequency such a word stands for. */
  function FrequencyValue(word: string, max: ulong_max): int
    requires FrequencyWord(word, max)
  {
    if Negated(word) then max + 1 - Value(Unsigned(word)) else Value(Unsigned(word))
  }

  /** Taken apart like this, the word stands for `n` hertz: as it stands, or, behind a minus sign, short of ULONG_MAX + 1. */
  predicate SpelledHertz(word: string, blanks: string, sign: string, digits: string, n: nat, max: ulong_max) {
    && SpelledOut(word, blanks, sign, digits)
    && 1 <= n <= 1000000
    && Value(digits) == if sign == "-" then max + 1 - n else n
  }

  lemma HertzParsed(word: string, max: ulong_max, n: nat) returns (blanks: string, sign: string, digits: string)
    requires FrequencyWord(word, max) && n == FrequencyValue(word, max)
    ensures SpelledHertz(word, blanks, sign, digits, n, max)
  {
    hide Value, AllDigits, SpelledOut, Unsigned, Negated;
    digits := Unsigned(word);
    blanks, sign := TakenApart(word);
    PartsOf(word, blanks, sign, digits);
  }

  lemma HertzTaken(word: string, max: ulong_max, blanks: string, sign: string, digits: string, n: nat)
    requires SpelledHertz(word, blanks, sign, digits, n, max)
    ensures FrequencyWord(word, max) && FrequencyValue(word, max) == n
  {
    hide Value, AllDigits, Unsigned, Negated;
    PartsOf(word, blanks, sign, digits);
  }

  lemma FrequencyAt(word: string, max: ulong_max)
    ensures ParseFrequency(word, max).Some? <==> FrequencyWord(word, max)
    ensures ParseFrequency(word, max).Some? ==> ParseFrequency(word, max).value as nat == FrequencyValue(word, max)
  {
    hide ParseFrequency, Value, Unsigned, Negated;
    FrequencyWords(word, max);
  }

  lemma HertzExactly(word: string, max: ulong_max, n: nat)
    ensures FrequencyWord(word, max) && FrequencyValue(word, max) == n <==>
            exists blanks, sign, digits :: SpelledHertz(word, blanks, sign, digits, n, max)
  {
    hide SpelledHertz, FrequencyWord, FrequencyValue;
    if FrequencyWord(word, max) && FrequencyValue(word, max) == n {
      var blanks, sign, digits := HertzParsed(word, max, n);
    }
    if blanks, sign, digits :| SpelledHertz(word, blanks, sign, digits, n, max) {
      HertzTaken(word, max, blanks, sign, digits, n);
    }
  }

  /** The same with the word taken apart: exactly blanks, an optional sign and digits, worth 1 to 1000000, are accepted. */
  lemma FrequencyWordsSpelledOut(word: string, max: ulong_max, n: nat)
    ensures ParseFrequency(word, max).Some? && ParseFrequency(word, max).value as nat == n <==>
            exists blanks, sign, digits :: SpelledHertz(word, blanks, sign, digits, n, max)
  {
    hide ParseFrequency, SpelledHertz, FrequencyWord, FrequencyValue;
    FrequencyAt(word, max);
    HertzExactly(word, max, n);
  }

  /** What the conversion makes of a word that it reads to the end. */
  lemma ConvertAll(word: string, max: ulong_max)
    ensures var t := Unsigned(word);
            if t == [] || !AllDigits(t) then Convert(word, max).rest != [] || Convert(word, max).value == 0
            else
              var n := Value(t);
              && Convert(word, max).rest == []
              && Convert(word, max).value ==
                 if n > max then max else if Negated(word) && n > 0 then max + 1 - n else n
  {
    hide Value;
    var t := Unsigned(word);
    var d := Digits(t);
    DigitsOfDigits(t);
    if |d| == |t| && t != [] {
      assert d == t;
      var n := Value(t);
      if 1 <= n <= max {
        Wrapped(max, n);
      }
      WrappedZero(max);
    }
  }

  lemma Wrapped(max: nat, n: nat)
    requires 1 <= n <= max
    ensures (max + 1 - n) % (max + 1) == max + 1 - n
  {
  }

  lemma WrappedZero(max: nat)
    ensures (max + 1 - 0) % (max + 1) == 0
  {
  }

  /** On words of digits alone it agrees with the true value. */
  lemma PlainFrequencyWords(word: string, max: ulong_max)
    requires AllDigits(word)
    ensures ParseFrequency(word, max).Some? <==> word != [] && 1 <= Value(word) <= 1000000
    ensures ParseFrequency(word, max).Some? ==> ParseFrequency(word, max).value as nat == Value(word)
  {
    hide ParseFrequency;
    FrequencyWords(word, max);
    if word != [] {
      assert IsDigit(word[0]);
    }
  }

  /** The negation of ULONG_MAX, spelled out, is taken for one hertz. */
  lemma NegatedMaximumIsOneHertz(digits: string, max: ulong_max)
    requires AllDigits(digits) && Value(digits) == max
    ensures ParseFrequency("-" + digits, max).Some? && ParseFrequency("-" + digits, max).value as nat == 1
  {
    hide ParseFrequency;
    var word := "-" + digits;
    assert word[0] == '-' && SkipSpace(word) == word && Unsigned(word) == digits;
    FrequencyWords(word, max);
  }
}
