/** The 16-stage shift register behind the CRC, as a linear machine on bit strings. */
module ShiftRegister {
  import opened BitStrings

  type Register = s: bits | |s| == 16 witness Zeros(16)

  const ZERO: Register := Zeros(16)

  /** x^12 + x^5 + 1, the polynomial without its leading x^16. */
  const TAPS: Register :=
    [false, false, false, true, false, false, false, false, false, false, true, false, false, false, false, true]

  /** One clock: the bit that leaves the top, summed with the incoming bit, is fed back through the taps. */
  function Feed(r: Register, bit: bool): Register {
    Xor(r[1..] + [false], if r[0] != bit then TAPS else ZERO)
  }

  function Advance(r: Register, s: bits): Register {
    if s == [] then r else Feed(Advance(r, s[..|s| - 1]), s[|s| - 1])
  }

  lemma AdvanceSnoc(r: Register, s: bits, bit: bool)
    ensures Advance(r, s + [bit]) == Feed(Advance(r, s), bit)
  {
    assert (s + [bit])[..|s|] == s;
  }

  lemma AdvanceOne(r: Register, bit: bool)
    ensures Advance(r, [bit]) == Feed(r, bit)
  {
    AdvanceSnoc(r, [], bit);
    assert [] + [bit] == [bit];
  }

  lemma {:induction false} AdvanceConcat(r: Register, s: bits, t: bits)
    ensures Advance(r, s + t) == Advance(Advance(r, s), t)
  {
    if t == [] {
      assert s + t == s;
    } else {
      var last := |t| - 1;
      AdvanceConcat(r, s, t[..last]);
      assert s + t == (s + t[..last]) + [t[last]];
      AdvanceSnoc(r, s + t[..last], t[last]);
    }
  }

  // ---- linearity ----

  lemma FeedLinear(q: Register, r: Register, a: bool, b: bool)
    ensures Feed(Xor(q, r), a != b) == Xor(Feed(q, a), Feed(r, b))
  {
  }

  /** Superposition: the state reached from a sum of states by a sum of inputs is the sum of the states reached. */
  lemma {:induction false} AdvanceLinear(q: Register, r: Register, s: bits, t: bits)
    requires |s| == |t|
    ensures Advance(Xor(q, r), Xor(s, t)) == Xor(Advance(q, s), Advance(r, t))
  {
    if s != [] {
      var last := |s| - 1;
      assert Xor(s, t)[..last] == Xor(s[..last], t[..last]);
      AdvanceLinear(q, r, s[..last], t[..last]);
      FeedLinear(Advance(q, s[..last]), Advance(r, t[..last]), s[last], t[last]);
    }
  }

  lemma {:induction false} ZeroStaysZero(n: nat)
    ensures Advance(ZERO, Zeros(n)) == ZERO
  {
    if n > 0 {
      ZeroStaysZero(n - 1);
      assert Zeros(n) == Zeros(n - 1) + [false];
      AdvanceSnoc(ZERO, Zeros(n - 1), false);
      assert Feed(ZERO, false) == ZERO;
    }
  }

  // ---- every clock is a bijection ----

  lemma FeedInjective(q: Register, r: Register, bit: bool)
    requires Feed(q, bit) == Feed(r, bit)
    ensures q == r
  {
    var u, v := Feed(q, bit), Feed(r, bit);
    assert u[15] == (q[0] != bit) && v[15] == (r[0] != bit);
    forall i | 1 <= i < 16
      ensures q[i] == r[i]
    {
      assert u[i - 1] == v[i - 1];
    }
  }

  lemma {:induction false} AdvanceInjective(q: Register, r: Register, s: bits)
    requires Advance(q, s) == Advance(r, s)
    ensures q == r
  {
    if s != [] {
      var last := |s| - 1;
      FeedInjective(Advance(q, s[..last]), Advance(r, s[..last]), s[last]);
      AdvanceInjective(q, r, s[..last]);
    }
  }

  /** The clock run backwards. */
  function Unfeed(r: Register): Register {
    var fed := if r[15] then Xor(r, TAPS) else r;
    [r[15]] + fed[..15]
  }

  lemma FeedSurjective(r: Register)
    ensures Feed(Unfeed(r), false) == r
  {
  }

  function Rewind(r: Register, n: nat): Register
    decreases n
  {
    if n == 0 then r else Rewind(Unfeed(r), n - 1)
  }

  lemma {:induction false} RewindUndone(r: Register, n: nat)
    ensures Advance(Rewind(r, n), Zeros(n)) == r
    decreases n
  {
    if n > 0 {
      RewindUndone(Unfeed(r), n - 1);
      assert Zeros(n) == Zeros(n - 1) + [false];
      AdvanceSnoc(Rewind(r, n), Zeros(n - 1), false);
      FeedSurjective(r);
    }
  }

  // ---- a word of up to 16 bits may be summed into the top of the register at once ----

  lemma FeedTop(r: Register, w: Register)
    ensures Feed(Xor(r, w), false) == Xor(Feed(r, w[0]), w[1..] + [false])
  {
  }

  lemma {:induction false} LoadAtOnce(r: Register, s: bits)
    requires |s| <= 16
    ensures Advance(r, s) == Advance(Xor(r, s + Zeros(16 - |s|)), Zeros(|s|))
    decreases |s|
  {
    if s == [] {
      assert Xor(r, s + Zeros(16)) == r;
    } else {
      var w: Register := s + Zeros(16 - |s|);
      var rest: Register := s[1..] + Zeros(17 - |s|);
      FeedTop(r, w);
      assert w[1..] + [false] == rest;
      calc {
        Advance(Xor(r, w), Zeros(|s|));
        { assert Zeros(|s|) == [false] + Zeros(|s| - 1);
          AdvanceConcat(Xor(r, w), [false], Zeros(|s| - 1));
          AdvanceOne(Xor(r, w), false); }
        Advance(Xor(Feed(r, s[0]), rest), Zeros(|s| - 1));
        { LoadAtOnce(Feed(r, s[0]), s[1..]); }
        Advance(Feed(r, s[0]), s[1..]);
        { AdvanceOne(r, s[0]);
          AdvanceConcat(r, [s[0]], s[1..]);
          assert s == [s[0]] + s[1..]; }
        Advance(r, s);
      }
    }
  }

  // ---- residue: appending the register's own content clears it, and nothing else does ----

  lemma XorZero(q: Register, r: Register)
    ensures Xor(q, r) == ZERO <==> q == r
  {
    if Xor(q, r) == ZERO {
      forall i | 0 <= i < 16
        ensures q[i] == r[i]
      {
        assert !Xor(q, r)[i];
      }
    }
  }

  lemma Residue(r: Register, s: Register)
    ensures Advance(r, s) == ZERO <==> r == s
  {
    LoadAtOnce(r, s);
    assert s + Zeros(0) == s;
    ZeroStaysZero(16);
    XorZero(r, s);
    if Advance(r, s) == ZERO {
      AdvanceInjective(Xor(r, s), ZERO, Zeros(16));
    }
  }

  /** From any register content, exactly one 16-bit input leads to any other. */
  lemma OneInputReaches(r: Register, target: Register) returns (s: Register)
    ensures Advance(r, s) == target
    ensures forall t: Register :: Advance(r, t) == target ==> t == s
  {
    var start := Rewind(target, 16);
    s := Xor(r, start);
    RewindUndone(target, 16);
    LoadAtOnce(r, s);
    assert s + Zeros(0) == s && Xor(r, s) == start;
    forall t: Register | Advance(r, t) == target
      ensures t == s
    {
      LoadAtOnce(r, t);
      assert t + Zeros(0) == t;
      AdvanceInjective(Xor(r, t), start, Zeros(16));
      assert Xor(r, Xor(r, t)) == t;
    }
  }

  // ---- parity ----

  lemma TapsOdd()
    ensures Ones(TAPS) == 3
  {
    var a, b, c := [false, false, false, true], [false, false, false, false], [false, false, true, false];
    OnesOfFour(false, false, false, true);
    OnesOfFour(false, false, false, false);
    OnesOfFour(false, false, true, false);
    OnesConcat(a, b);
    OnesConcat(a + b, c);
    OnesConcat(a + b + c, a);
    assert TAPS == a + b + c + a;
  }

  lemma OnesOfFour(a: bool, b: bool, c: bool, d: bool)
    ensures Ones([a, b, c, d]) == (if a then 1 else 0) + (if b then 1 else 0) + (if c then 1 else 0) + (if d then 1 else 0)
  {
    OnesOfOne(a);
    OnesOfOne(b);
    OnesOfOne(c);
    OnesOfOne(d);
    OnesConcat([a], [b]);
    OnesConcat([c], [d]);
    OnesConcat([a, b], [c, d]);
    assert [a] + [b] == [a, b] && [c] + [d] == [c, d] && [a, b] + [c, d] == [a, b, c, d];
  }

  lemma OnesOfOne(a: bool)
    ensures Ones([a]) == if a then 1 else 0
  {
    assert [a][..0] == [];
  }

  lemma FeedParity(r: Register, bit: bool)
    ensures Ones(Feed(r, bit)) % 2 == (Ones(r) + (if bit then 1 else 0)) % 2
  {
    var shifted := r[1..] + [false];
    OnesOfOne(r[0]);
    OnesConcat([r[0]], r[1..]);
    assert r == [r[0]] + r[1..];
    OnesOfOne(false);
    OnesConcat(r[1..], [false]);
    TapsOdd();
    OnesZeros(16);
    OnesXor(shifted, if r[0] != bit then TAPS else ZERO);
  }

  /** The polynomial has an even number of terms, so the register carries the parity of everything fed to it. */
  lemma {:induction false} AdvanceParity(r: Register, s: bits)
    ensures Ones(Advance(r, s)) % 2 == (Ones(r) + Ones(s)) % 2
  {
    if s != [] {
      AdvanceParity(r, s[..|s| - 1]);
      FeedParity(Advance(r, s[..|s| - 1]), s[|s| - 1]);
    }
  }
}
