/**
 The multiplicative order of x modulo the generator is 32767, so two flipped bits cancel only when their distance
 is a multiple of that.
 */
module Crc16Order {
  import opened Words
  import opened BitStrings
  import opened ShiftRegister
  import opened Crc16
  import opened Crc16Machine

  const ORDER: nat := 32767

  /** x^k reduced by the generator. */
  function Power(k: nat): u16 {
    Steps(1, k)
  }

  lemma {:induction false} StepsAdd(r: u16, m: nat, n: nat)
    ensures Steps(r, m + n) == Steps(Steps(r, m), n)
  {
    if n > 0 {
      StepsAdd(r, m, n - 1);
    }
  }

  lemma StepsInjective(v: u16, w: u16, n: nat)
    requires Steps(v, n) == Steps(w, n)
    ensures v == w
  {
    StepsAdvance(v, n);
    StepsAdvance(w, n);
    AdvanceInjective(WordBits(v), WordBits(w), Zeros(n));
    WordBitsInjective(v, w);
  }

  // ---- multiplication modulo the generator, Horner's way ----

  /** The register that the bits `s`, read as a polynomial, times `a` leave. */
  function Scaled(a: Register, s: bits): Register {
    if s == [] then ZERO else Scale(Scaled(a, s[..|s| - 1]), a, s[|s| - 1])
  }

  function Scale(sum: Register, a: Register, bit: bool): Register {
    Xor(Feed(sum, false), if bit then a else ZERO)
  }

  lemma ScaleAdvances(sum: Register, a: Register, bit: bool, n: nat)
    ensures Advance(Scale(sum, a, bit), Zeros(n)) ==
            Scale(Advance(sum, Zeros(n)), Advance(a, Zeros(n)), bit)
  {
    var zeros := Zeros(n);
    var addend := if bit then a else ZERO;
    assert Xor(zeros, zeros) == zeros;
    AdvanceLinear(Feed(sum, false), addend, zeros, zeros);
    ZeroStaysZero(n);
    AdvanceOne(sum, false);
    AdvanceConcat(sum, [false], zeros);
    AdvanceSnoc(sum, zeros, false);
    assert [false] + zeros == zeros + [false];
  }

  lemma {:induction false} ScaledAdvances(a: Register, s: bits, n: nat)
    ensures Advance(Scaled(a, s), Zeros(n)) == Scaled(Advance(a, Zeros(n)), s)
  {
    if s == [] {
      ZeroStaysZero(n);
    } else {
      var last := |s| - 1;
      ScaledAdvances(a, s[..last], n);
      ScaleAdvances(Scaled(a, s[..last]), a, s[last], n);
    }
  }

  const UNIT: Register := Zeros(15) + [true]

  lemma {:induction false} ScaledUnit(s: bits)
    requires |s| <= 16
    ensures Scaled(UNIT, s) == Zeros(16 - |s|) + s
  {
    if s != [] {
      ScaledUnit(s[..|s| - 1]);
    }
  }

  function Accumulate(sum: u16, a: u16, bit: bool): u16 {
    Step(sum) ^ (if bit then a else 0)
  }

  function Accumulate4(sum: u16, a: u16, b0: bool, b1: bool, b2: bool, b3: bool): u16 {
    Accumulate(Accumulate(Accumulate(Accumulate(sum, a, b0), a, b1), a, b2), a, b3)
  }

  function Sum(v: u16, w: u16): u16 {
    v ^ w
  }

  lemma SumBits(v: u16, w: u16)
    ensures WordBits(Sum(v, w)) == Xor(WordBits(v), WordBits(w))
  {
    hide WordBits, Xor;
    WordBitsXor(v, w);
  }

  lemma AccumulateIsSum(sum: u16, a: u16, bit: bool)
    ensures Accumulate(sum, a, bit) == Sum(Step(sum), if bit then a else 0)
  {
    hide Step;
  }

  lemma AccumulateScales(sum: u16, a: u16, bit: bool)
    ensures WordBits(Accumulate(sum, a, bit)) == Scale(WordBits(sum), WordBits(a), bit)
  {
    hide Accumulate, Step, WordBits, Feed, Xor, Sum;
    AccumulateIsSum(sum, a, bit);
    StepIsFeed(sum);
    ZeroBits();
    SumBits(Step(sum), if bit then a else 0);
  }

  lemma ZeroBits()
    ensures WordBits(0) == ZERO
  {
  }

  lemma Accumulate4Scales(sum: u16, a: u16, b0: bool, b1: bool, b2: bool, b3: bool, s: bits)
    requires WordBits(sum) == Scaled(WordBits(a), s)
    ensures WordBits(Accumulate4(sum, a, b0, b1, b2, b3)) == Scaled(WordBits(a), s + [b0, b1, b2, b3])
  {
    hide Accumulate, Step, Scale, Scaled, WordBits;
    var s1 := Accumulate(sum, a, b0);
    AccumulateScales(sum, a, b0);
    var s2 := Accumulate(s1, a, b1);
    AccumulateScales(s1, a, b1);
    var s3 := Accumulate(s2, a, b2);
    AccumulateScales(s2, a, b2);
    AccumulateScales(s3, a, b3);
    ScaledSnoc(WordBits(a), s, b0);
    ScaledSnoc(WordBits(a), s + [b0], b1);
    ScaledSnoc(WordBits(a), s + [b0] + [b1], b2);
    ScaledSnoc(WordBits(a), s + [b0] + [b1] + [b2], b3);
    assert s + [b0] + [b1] + [b2] + [b3] == s + [b0, b1, b2, b3];
  }

  lemma ScaledSnoc(a: Register, s: bits, bit: bool)
    ensures Scaled(a, s + [bit]) == Scale(Scaled(a, s), a, bit)
  {
    assert (s + [bit])[..|s|] == s;
  }

  function Nibble(b: u16, i: nat): (bool, bool, bool, bool)
    requires i <= 12
  {
    (Bit(b, i), Bit(b, i + 1), Bit(b, i + 2), Bit(b, i + 3))
  }

  function AddNibble(sum: u16, a: u16, n: (bool, bool, bool, bool)): u16 {
    Accumulate4(sum, a, n.0, n.1, n.2, n.3)
  }

  /** a times b modulo the generator. */
  function Times(a: u16, b: u16): u16 {
    AddNibble(AddNibble(AddNibble(AddNibble(0, a, Nibble(b, 0)), a, Nibble(b, 4)), a, Nibble(b, 8)), a, Nibble(b, 12))
  }

  lemma NibbleBits(b: u16, i: nat)
    requires i <= 12
    ensures var n := Nibble(b, i); WordBits(b)[..i] + [n.0, n.1, n.2, n.3] == WordBits(b)[..i + 4]
  {
    hide Bit;
  }

  lemma AddNibbleScales(sum: u16, a: u16, b: u16, i: nat)
    requires i <= 12
    requires WordBits(sum) == Scaled(WordBits(a), WordBits(b)[..i])
    ensures WordBits(AddNibble(sum, a, Nibble(b, i))) == Scaled(WordBits(a), WordBits(b)[..i + 4])
  {
    hide Accumulate4, Scaled, WordBits, Nibble;
    var n := Nibble(b, i);
    NibbleBits(b, i);
    Accumulate4Scales(sum, a, n.0, n.1, n.2, n.3, WordBits(b)[..i]);
  }

  lemma ScaledNothing(a: Register)
    ensures Scaled(a, []) == ZERO
  {
  }

  lemma TimesScales(a: u16, b: u16)
    ensures WordBits(Times(a, b)) == Scaled(WordBits(a), WordBits(b))
  {
    hide AddNibble, Nibble, WordBits, Scaled;
    ZeroBits();
    ScaledNothing(WordBits(a));
    assert WordBits(b)[..0] == [];
    AddNibbleScales(0, a, b, 0);
    var s1 := AddNibble(0, a, Nibble(b, 0));
    AddNibbleScales(s1, a, b, 4);
    var s2 := AddNibble(s1, a, Nibble(b, 4));
    AddNibbleScales(s2, a, b, 8);
    var s3 := AddNibble(s2, a, Nibble(b, 8));
    AddNibbleScales(s3, a, b, 12);
    assert WordBits(b)[..16] == WordBits(b);
  }

  /** x^m times x^n is x^(m+n). */
  lemma PowerAdd(m: nat, n: nat)
    ensures Power(m + n) == Times(Power(n), Power(m))
  {
    hide Times, Step;
    StepsAdd(1, m, n);
    StepsAdvance(1, n);
    StepsAdvance(Power(m), n);
    UnitBits();
    TimesScales(Power(n), Power(m));
    ScaledUnit(WordBits(Power(m)));
    assert Zeros(0) + WordBits(Power(m)) == WordBits(Power(m));
    ScaledAdvances(UNIT, WordBits(Power(m)), n);
    WordBitsInjective(Power(m + n), Times(Power(n), Power(m)));
  }

  lemma UnitBits()
    ensures WordBits(1) == UNIT
  {
  }

  // ---- the powers that decide the order ----

  lemma PowerDoubles(k: nat, p: u16, q: u16)
    requires Power(k) == p && Times(p, p) == q
    ensures Power(2 * k) == q
  {
    hide Times, Power;
    PowerAdd(k, k);
  }

  lemma PowerProduct(m: nat, n: nat, p: u16, q: u16, product: u16)
    requires Power(m) == p && Power(n) == q && Times(q, p) == product
    ensures Power(m + n) == product
  {
    hide Times, Power;
    PowerAdd(m, n);
  }

  lemma Power1()
    ensures Power(1) == 2
  {
    assert Steps(1, 0) == 1;
  }

  lemma Power2()
    ensures Power(2) == 0x0004
  {
    hide Power;
    Power1();
    PowerDoubles(1, 0x0002, 0x0004);
  }

  lemma Power4()
    ensures Power(4) == 0x0010
  {
    hide Power;
    Power2();
    PowerDoubles(2, 0x0004, 0x0010);
  }

  lemma Power8()
    ensures Power(8) == 0x0100
  {
    hide Power;
    Power4();
    PowerDoubles(4, 0x0010, 0x0100);
  }

  lemma Power16()
    ensures Power(16) == 0x1021
  {
    hide Power;
    Power8();
    PowerDoubles(8, 0x0100, 0x1021);
  }

  lemma Power32()
    ensures Power(32) == 0x3730
  {
    hide Power;
    Power16();
    PowerDoubles(16, 0x1021, 0x3730);
  }

  lemma Power64()
    ensures Power(64) == 0xB861
  {
    hide Power;
    Power32();
    PowerDoubles(32, 0x3730, 0xB861);
  }

  lemma Power128()
    ensures Power(128) == 0xAEFC
  {
    hide Power;
    Power64();
    PowerDoubles(64, 0xB861, 0xAEFC);
  }

  lemma Power256()
    ensures Power(256) == 0x8E29
  {
    hide Power;
    Power128();
    PowerDoubles(128, 0xAEFC, 0x8E29);
  }

  lemma Power512()
    ensures Power(512) == 0x13FC
  {
    hide Power;
    Power256();
    PowerDoubles(256, 0x8E29, 0x13FC);
  }

  lemma Power1024()
    ensures Power(1024) == 0x36C4
  {
    hide Power;
    Power512();
    PowerDoubles(512, 0x13FC, 0x36C4);
  }

  lemma Power2048()
    ensures Power(2048) == 0xFD50
  {
    hide Power;
    Power1024();
    PowerDoubles(1024, 0x36C4, 0xFD50);
  }

  lemma Power4096()
    ensures Power(4096) == 0xAA9E
  {
    hide Power;
    Power2048();
    PowerDoubles(2048, 0xFD50, 0xAA9E);
  }

  lemma Power8192()
    ensures Power(8192) == 0x881C
  {
    hide Power;
    Power4096();
    PowerDoubles(4096, 0xAA9E, 0x881C);
  }

  lemma Power16384()
    ensures Power(16384) == 0x4458
  {
    hide Power;
    Power8192();
    PowerDoubles(8192, 0x881C, 0x4458);
  }

  lemma Power32768()
    ensures Power(32768) == 0x0002
  {
    hide Power;
    Power16384();
    PowerDoubles(16384, 0x4458, 0x0002);
  }

  lemma Power192()
    ensures Power(192) == 0x650B
  {
    hide Power;
    Power128();
    Power64();
    PowerProduct(128, 64, 0xAEFC, 0xB861, 0x650B);
  }

  lemma Power208()
    ensures Power(208) == 0x45B4
  {
    hide Power;
    Power192();
    Power16();
    PowerProduct(192, 16, 0x650B, 0x1021, 0x45B4);
  }

  lemma Power216()
    ensures Power(216) == 0xAC61
  {
    hide Power;
    Power208();
    Power8();
    PowerProduct(208, 8, 0x45B4, 0x0100, 0xAC61);
  }

  lemma Power217()
    ensures Power(217) == 0x48E3
  {
    hide Power;
    Power216();
    Power1();
    PowerProduct(216, 1, 0xAC61, 0x0002, 0x48E3);
  }

  lemma Power1056()
    ensures Power(1056) == 0xF147
  {
    hide Power;
    Power1024();
    Power32();
    PowerProduct(1024, 32, 0x36C4, 0x3730, 0xF147);
  }

  lemma Power1057()
    ensures Power(1057) == 0xF2AF
  {
    hide Power;
    Power1056();
    Power1();
    PowerProduct(1056, 1, 0xF147, 0x0002, 0xF2AF);
  }

  lemma Power4608()
    ensures Power(4608) == 0x54A0
  {
    hide Power;
    Power4096();
    Power512();
    PowerProduct(4096, 512, 0xAA9E, 0x13FC, 0x54A0);
  }

  lemma Power4672()
    ensures Power(4672) == 0x0106
  {
    hide Power;
    Power4608();
    Power64();
    PowerProduct(4608, 64, 0x54A0, 0xB861, 0x0106);
  }

  lemma Power4680()
    ensures Power(4680) == 0x1621
  {
    hide Power;
    Power4672();
    Power8();
    PowerProduct(4672, 8, 0x0106, 0x0100, 0x1621);
  }

  lemma Power4681()
    ensures Power(4681) == 0x2C42
  {
    hide Power;
    Power4680();
    Power1();
    PowerProduct(4680, 1, 0x1621, 0x0002, 0x2C42);
  }

  lemma FullTurn()
    ensures Power(ORDER) == 1
  {
    hide Step;
    Power32768();
    StepsAdd(1, ORDER, 1);
    Power1();
    assert Steps(Power(ORDER), 1) == 2 == Steps(1, 1);
    StepsInjective(Power(ORDER), 1, 1);
  }

  lemma TurnAgain(k: nat, n: nat)
    requires Power(k) == 1
    ensures Power(k + n) == Power(n)
  {
    StepsAdd(1, k, n);
  }

  lemma {:induction false} Turns(k: nat, times: nat)
    requires Power(k) == 1
    ensures Power(k * times) == 1
  {
    if times == 0 {
      assert k * times == 0;
    } else {
      Turns(k, times - 1);
      TurnAgain(k, k * (times - 1));
      assert k + k * (times - 1) == k * times;
    }
  }

  lemma TurnRemainder(k: nat, n: nat)
    requires k > 0 && Power(k) == 1
    ensures Power(n) == Power(n % k)
  {
    Turns(k, n / k);
    TurnAgain(k * (n / k), n % k);
    assert n == k * (n / k) + n % k;
  }

  /** Euclid's algorithm on two periods. */
  lemma CommonPeriod(m: nat, n: nat) returns (g: nat, i: nat, j: nat)
    requires m > 0 && Power(m) == 1 && Power(n) == 1
    ensures g > 0 && Power(g) == 1 && m == g * i && n == g * j
    decreases n
  {
    if n == 0 {
      g, i, j := m, 1, 0;
    } else {
      TurnRemainder(n, m);
      var rest: nat;
      g, j, rest := CommonPeriod(n, m % n);
      i := j * (m / n) + rest;
      calc {
        m;
        n * (m / n) + m % n;
        g * j * (m / n) + g * rest;
        { assert g * j * (m / n) == g * (j * (m / n)); }
        g * (j * (m / n)) + g * rest;
        g * i;
      }
    }
  }

  // ---- 32767 = 7 * 31 * 151 ----

  predicate Divisor(n: nat)
    requires n > 0
  {
    ORDER % n == 0
  }

  /** None of the eight numbers from `n` on divides the order. */
  predicate NoneOfEight(n: nat)
    requires n > 0
  {
    && !Divisor(n) && !Divisor(n + 1) && !Divisor(n + 2) && !Divisor(n + 3)
    && !Divisor(n + 4) && !Divisor(n + 5) && !Divisor(n + 6) && !Divisor(n + 7)
  }

  lemma AtLeastOnce(g: nat, d: int)
    ensures d >= 1 ==> g * d >= g
    ensures d <= -1 ==> g * d <= 0 - g
    ensures g * 0 == 0 && g * 1 == g
  {
  }

  lemma DivisorHasNoRemainder(g: nat, i: nat)
    requires g > 0 && g * i == ORDER
    ensures Divisor(g)
  {
    var d := i - ORDER / g;
    Distribute(g, i, ORDER / g);
    AtLeastOnce(g, d);
  }

  lemma Distribute(g: int, i: int, q: int)
    ensures g * (i - q) == g * i - g * q
  {
  }

  lemma NotAmongEight(n: nat, g: nat)
    requires n > 0 && g > 0 && NoneOfEight(n)
    ensures n <= g < n + 8 ==> !Divisor(g)
  {
    hide Divisor;
  }

  lemma NoDivisorBelow88(g: nat)
    requires 8 <= g < 88 && g != 31
    ensures !Divisor(g)
  {
    NotAmongEight(8, g);
    NotAmongEight(16, g);
    NotAmongEight(23, g);
    NotAmongEight(32, g);
    NotAmongEight(40, g);
    NotAmongEight(48, g);
    NotAmongEight(56, g);
    NotAmongEight(64, g);
    NotAmongEight(72, g);
    NotAmongEight(80, g);
  }

  lemma NoDivisorAbove88(g: nat)
    requires 88 <= g < 184 && g != 151
    ensures !Divisor(g)
  {
    NotAmongEight(88, g);
    NotAmongEight(96, g);
    NotAmongEight(104, g);
    NotAmongEight(112, g);
    NotAmongEight(120, g);
    NotAmongEight(128, g);
    NotAmongEight(136, g);
    NotAmongEight(143, g);
    NotAmongEight(152, g);
    NotAmongEight(160, g);
    NotAmongEight(168, g);
    NotAmongEight(176, g);
  }

  lemma SmallDivisor(g: nat)
    requires 0 < g <= 183 && Divisor(g)
    ensures g in {1, 7, 31, 151}
  {
    if 88 <= g && g != 151 {
      NoDivisorAbove88(g);
    } else if 8 <= g && g != 31 && g != 151 {
      NoDivisorBelow88(g);
    }
  }

  lemma DivisorBound(g: nat, i: nat)
    requires g * i == ORDER && g > 183
    ensures 0 < i <= 183
  {
    assert i > 183 ==> g * i >= 184 * 184;
  }

  /** No proper divisor of 32767 is a period. */
  lemma NoShorterDivisor(g: nat, i: nat)
    requires g * i == ORDER && i > 1
    ensures Power(g) != 1
  {
    hide Power;
    Power217();
    Power1057();
    Power4681();
    if Power(g) == 1 {
      if g <= 183 {
        DivisorHasNoRemainder(g, i);
        SmallDivisor(g);
        if g == 151 {
          Turns(g, 7);
        } else if g == 7 {
          Turns(g, 31);
        } else if g == 31 {
          Turns(g, 7);
        } else {
          Turns(g, 217);
        }
      } else {
        DivisorBound(g, i);
        DivisorHasNoRemainder(i, g);
        SmallDivisor(i);
      }
    }
  }

  lemma FactorsSmaller(g: nat, i: nat, j: nat, r: nat)
    requires ORDER == g * i && r == g * j && 0 < r < ORDER
    ensures i > 1
  {
    AtLeastOnce(g, j);
  }

  /** x^k is 1 exactly for the multiples of 32767. */
  lemma PowerIsOne(k: nat)
    ensures Power(k) == 1 <==> k % ORDER == 0
  {
    hide Power;
    FullTurn();
    TurnRemainder(ORDER, k);
    PowerZero();
    var r := k % ORDER;
    if r > 0 && Power(r) == 1 {
      var g, i, j := CommonPeriod(ORDER, r);
      FactorsSmaller(g, i, j, r);
      NoShorterDivisor(g, i);
    }
  }

  lemma PowerZero()
    ensures Power(0) == 1
  {
  }
}
