/** What the check catches: any odd number of flips, any burst of 16 bits, any two flips closer than 32767 bits. */
module ErrorDetection {
  import opened Words
  import opened BitStrings
  import opened ShiftRegister
  import opened Crc16
  import opened Crc16Machine
  import opened Crc16Order

  /**
   The data followed by the CRC, high byte first: the codeword that the division leaves nothing of.
   On the wire the two CRC bytes stand the other way round.
   */
  function Codeword(data: seq<byte>, crc: u16): bits {
    Bits(data) + WordBits(crc)
  }

  /** Comparing the CRC is testing the codeword for a zero residue. */
  lemma CheckIsZeroResidue(data: seq<byte>, crc: u16)
    ensures Crc(data) == crc <==> Advance(WordBits(SEED), Codeword(data, crc)) == ZERO
  {
    RunAdvances(SEED, data);
    AdvanceConcat(WordBits(SEED), Bits(data), WordBits(crc));
    Residue(WordBits(Crc(data)), WordBits(crc));
    if WordBits(Crc(data)) == WordBits(crc) {
      WordBitsInjective(Crc(data), crc);
    }
  }

  /** Two words of the same length are accepted together exactly when their difference alone leaves no residue. */
  lemma AcceptanceDependsOnDifference(w: bits, v: bits)
    requires |w| == |v|
    requires Advance(WordBits(SEED), w) == ZERO
    ensures Advance(WordBits(SEED), v) == ZERO <==> Advance(ZERO, Xor(w, v)) == ZERO
  {
    var seed := WordBits(SEED);
    AdvanceLinear(seed, seed, w, v);
    XorZero(seed, seed);
    XorZero(Advance(seed, w), Advance(seed, v));
  }

  // ---- parity ----

  lemma SeedParity()
    ensures Ones(WordBits(SEED)) % 2 == 0
  {
    var four := [true, true, true, true];
    OnesOfFour(true, true, true, true);
    OnesConcat(four, four);
    OnesConcat(four + four, four + four);
    assert four + four + (four + four) == WordBits(SEED) by {
      forall i | 0 <= i < 16
        ensures Bit(SEED, i)
      {
      }
    }
  }

  /** The one bits of the data and of its CRC together are always even in number. */
  lemma ParityLaw(data: seq<byte>)
    ensures (Ones(Bits(data)) + Ones(WordBits(Crc(data)))) % 2 == 0
  {
    SeedParity();
    RunAdvances(SEED, data);
    AdvanceParity(WordBits(SEED), Bits(data));
  }

  lemma OddFlipsLeaveResidue(e: bits)
    requires Ones(e) % 2 == 1
    ensures Advance(ZERO, e) != ZERO
  {
    AdvanceParity(ZERO, e);
    OnesZeros(16);
  }

  // ---- bursts ----

  /** A difference confined to `width` consecutive bits, wherever they start and whatever follows them. */
  predicate Burst(e: bits, at: nat, width: nat) {
    && at <= |e|
    && (forall i :: 0 <= i < at ==> !e[i])
    && (forall i :: at + width <= i < |e| ==> !e[i])
  }

  lemma BurstLeavesResidue(e: bits, at: nat)
    requires Burst(e, at, 16) && Ones(e) != 0
    ensures Advance(ZERO, e) != ZERO
  {
    hide Advance, Ones;
    var end := if at + 16 <= |e| then at + 16 else |e|;
    var window := e[at..end];
    var n := |e| - end;
    assert e == Zeros(at) + window + Zeros(n);
    OnesConcat(Zeros(at), window);
    OnesConcat(Zeros(at) + window, Zeros(n));
    OnesZeros(at);
    OnesZeros(n);
    ZeroStaysZero(at);
    AdvanceConcat(ZERO, Zeros(at), window);
    AdvanceConcat(ZERO, Zeros(at) + window, Zeros(n));
    LoadAtOnce(ZERO, window);
    var padded := window + Zeros(16 - |window|);
    OnesConcat(window, Zeros(16 - |window|));
    OnesZeros(16 - |window|);
    assert Xor(ZERO, padded) == padded;
    if Advance(ZERO, e) == ZERO {
      ZeroStaysZero(n);
      AdvanceInjective(Advance(ZERO, window), ZERO, Zeros(n));
      ZeroStaysZero(|window|);
      AdvanceInjective(padded, ZERO, Zeros(|window|));
      OnesZeros(16);
      assert false;
    }
  }

  lemma DifferentBytesDifferentBits(d: seq<byte>, e: seq<byte>)
    requires |d| == |e| && d != e
    ensures Xor(Bits(d), Bits(e)) != Zeros(8 * |d|)
  {
    var difference := Xor(Bits(d), Bits(e));
    if difference == Zeros(|difference|) {
      forall i | 0 <= i < |Bits(d)|
        ensures Bits(d)[i] == Bits(e)[i]
      {
        assert !difference[i];
      }
      BitsInjective(d, e);
      assert false;
    }
  }

  /** Data of any length that differs only inside 16 consecutive bits never shares its CRC. */
  lemma BurstsChangeCrc(d: seq<byte>, e: seq<byte>, at: nat)
    requires |d| == |e| && d != e
    requires Burst(Xor(Bits(d), Bits(e)), at, 16)
    ensures Crc(d) != Crc(e)
  {
    hide Advance, Ones, Burst;
    var difference := Xor(Bits(d), Bits(e));
    NoOnes(difference);
    DifferentBytesDifferentBits(d, e);
    BurstLeavesResidue(difference, at);
    RunAdvances(SEED, d);
    RunAdvances(SEED, e);
    AdvanceLinear(WordBits(SEED), WordBits(SEED), Bits(d), Bits(e));
    XorZero(WordBits(SEED), WordBits(SEED));
    XorZero(WordBits(Crc(d)), WordBits(Crc(e)));
  }

  // ---- two flips ----

  /** A single one bit entering a clear register leaves x^16. */
  lemma OneEnters()
    ensures Feed(ZERO, true) == WordBits(Power(16))
  {
    hide Power;
    Power16();
    assert Feed(ZERO, true) == TAPS;
    PolynomialBits();
  }

  lemma PowersAgree(m: nat, n: nat)
    requires m <= n
    ensures Power(n) == Power(m) <==> (n - m) % ORDER == 0
  {
    PowerIsOne(n - m);
    StepsAdd(1, n - m, m);
    if Power(n) == Power(m) {
      StepsInjective(Power(n - m), 1, m);
    }
  }

  lemma OneFlip(before: nat, after: nat)
    ensures Advance(ZERO, Zeros(before) + [true] + Zeros(after)) == WordBits(Power(16 + after))
  {
    hide Feed, Advance;
    ZeroStaysZero(before);
    AdvanceSnoc(ZERO, Zeros(before), true);
    OneEnters();
    AdvanceConcat(ZERO, Zeros(before) + [true], Zeros(after));
    StepsAdvance(Power(16), after);
    StepsAdd(1, 16, after);
  }

  /** The difference of two words that disagree at exactly positions `i` and `j`. */
  function TwoFlips(i: nat, j: nat, length: nat): (e: bits)
    requires i < j < length
    ensures |e| == length
  {
    Zeros(i) + [true] + Zeros(j - i - 1) + [true] + Zeros(length - j - 1)
  }

  /** Two flips go unnoticed exactly when they are a multiple of 32767 bits apart. */
  lemma TwoFlipsResidue(i: nat, j: nat, length: nat)
    requires i < j < length
    ensures Advance(ZERO, TwoFlips(i, j, length)) == ZERO <==> (j - i) % ORDER == 0
  {
    hide Feed, Advance, Power;
    var first := Zeros(i) + [true] + Zeros(length - i - 1);
    var second := Zeros(j) + [true] + Zeros(length - j - 1);
    assert Xor(first, second) == TwoFlips(i, j, length);
    AdvanceLinear(ZERO, ZERO, first, second);
    assert Xor(ZERO, ZERO) == ZERO;
    OneFlip(i, length - i - 1);
    OneFlip(j, length - j - 1);
    XorZero(WordBits(Power(16 + (length - i - 1))), WordBits(Power(16 + (length - j - 1))));
    PowersAgree(16 + (length - j - 1), 16 + (length - i - 1));
    if WordBits(Power(16 + (length - i - 1))) == WordBits(Power(16 + (length - j - 1))) {
      WordBitsInjective(Power(16 + (length - i - 1)), Power(16 + (length - j - 1)));
    }
  }

  lemma {:induction false} OneOne(e: bits) returns (i: nat)
    requires Ones(e) == 1
    ensures i < |e| && e == Zeros(i) + [true] + Zeros(|e| - i - 1)
  {
    var last := |e| - 1;
    assert e == e[..last] + [e[last]];
    if e[last] {
      i := last;
      NoOnes(e[..last]);
    } else {
      i := OneOne(e[..last]);
      assert Zeros(|e| - i - 1) == Zeros(last - i - 1) + [false];
    }
  }

  lemma {:induction false} TwoOnes(e: bits) returns (i: nat, j: nat)
    requires Ones(e) == 2
    ensures i < j < |e| && e == TwoFlips(i, j, |e|)
  {
    var last := |e| - 1;
    assert e == e[..last] + [e[last]];
    if e[last] {
      i := OneOne(e[..last]);
      j := last;
    } else {
      i, j := TwoOnes(e[..last]);
      assert Zeros(|e| - j - 1) == Zeros(last - j - 1) + [false];
    }
  }

  lemma TwoOnesLeaveResidue(e: bits)
    requires |e| <= ORDER && Ones(e) == 2
    ensures Advance(ZERO, e) != ZERO
  {
    hide Advance, Ones, TwoFlips;
    var i, j := TwoOnes(e);
    TwoFlipsResidue(i, j, |e|);
  }

  /** Hamming distance four: one, two or three flips in a word of at most 32767 bits always leave a residue. */
  lemma FewFlipsLeaveResidue(e: bits)
    requires |e| <= ORDER && 1 <= Ones(e) <= 3
    ensures Advance(ZERO, e) != ZERO
  {
    hide Advance;
    if Ones(e) == 2 {
      TwoOnesLeaveResidue(e);
    } else {
      OddFlipsLeaveResidue(e);
    }
  }

  // ---- the check as a code over data and CRC ----

  lemma XorConcat(s: bits, t: bits, u: bits, v: bits)
    requires |s| == |u| && |t| == |v|
    ensures Xor(s + t, u + v) == Xor(s, u) + Xor(t, v)
  {
  }

  /** How many bits two words of data and CRC differ in. */
  function Distance(d: seq<byte>, c: u16, e: seq<byte>, x: u16): nat
    requires |d| == |e|
  {
    Ones(Xor(Bits(d), Bits(e))) + Ones(Xor(WordBits(c), WordBits(x)))
  }

  lemma CodewordDistance(d: seq<byte>, c: u16, e: seq<byte>, x: u16)
    requires |d| == |e|
    ensures Ones(Xor(Codeword(d, c), Codeword(e, x))) == Distance(d, c, e, x)
  {
    XorConcat(Bits(d), WordBits(c), Bits(e), WordBits(x));
    OnesConcat(Xor(Bits(d), Bits(e)), Xor(WordBits(c), WordBits(x)));
  }

  /** With a correct CRC on `d`, the changed pair passes exactly when the change alone leaves no residue. */
  lemma ChangePasses(d: seq<byte>, e: seq<byte>, x: u16)
    requires |d| == |e|
    ensures Crc(e) == x <==> Advance(ZERO, Xor(Codeword(d, Crc(d)), Codeword(e, x))) == ZERO
  {
    CheckIsZeroResidue(d, Crc(d));
    CheckIsZeroResidue(e, x);
    AcceptanceDependsOnDifference(Codeword(d, Crc(d)), Codeword(e, x));
  }

  /** Any one, two or three flipped bits in up to 4093 bytes of data and their CRC are noticed. */
  lemma DistanceFour(d: seq<byte>, e: seq<byte>, x: u16)
    requires |d| == |e| && 8 * |d| + 16 <= ORDER
    requires 1 <= Distance(d, Crc(d), e, x) <= 3
    ensures Crc(e) != x
  {
    hide Crc, Advance, Ones;
    ChangePasses(d, e, x);
    CodewordDistance(d, Crc(d), e, x);
    FewFlipsLeaveResidue(Xor(Codeword(d, Crc(d)), Codeword(e, x)));
  }

  /** Any odd number of flipped bits is noticed, however long the data. */
  lemma OddDistance(d: seq<byte>, e: seq<byte>, x: u16)
    requires |d| == |e| && Distance(d, Crc(d), e, x) % 2 == 1
    ensures Crc(e) != x
  {
    hide Crc, Advance, Ones;
    ChangePasses(d, e, x);
    CodewordDistance(d, Crc(d), e, x);
    OddFlipsLeaveResidue(Xor(Codeword(d, Crc(d)), Codeword(e, x)));
  }
}
