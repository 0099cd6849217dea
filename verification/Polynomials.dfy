/** Polynomials over GF(2), each as the set of exponents whose coefficient is one. */
module Polynomials {
  import opened BitStrings
  import opened ShiftRegister

  type poly = set<nat>

  predicate Has(p: poly, e: int) {
    e >= 0 && e in p
  }

  function Add(p: poly, q: poly): poly {
    (p - q) + (q - p)
  }

  /** p times x^k. */
  function Shift(p: poly, k: nat): (s: poly)
    ensures forall e: int :: Has(s, e) <==> Has(p, e - k)
  {
    var s := set e | e in p :: e + k;
    assert forall e: int :: Has(s, e) <==> Has(p, e - k) by {
      forall e: int
        ensures Has(s, e) <==> Has(p, e - k)
      {
        if Has(p, e - k) {
          assert (e - k) + k in s;
        }
      }
    }
    s
  }

  /** x^16 + x^12 + x^5 + 1, the generator of ITU-T V.41 section 2. */
  const GENERATOR: poly := {16, 12, 5, 0}

  /** q times the generator, term by term. */
  function TimesGenerator(q: poly): poly {
    Add(Add(Shift(q, 16), Shift(q, 12)), Add(Shift(q, 5), q))
  }

  lemma GeneratorTerms()
    ensures TimesGenerator({0}) == GENERATOR
  {
    forall e: nat
      ensures e in TimesGenerator({0}) <==> e in GENERATOR
    {
      HasTimes({0}, e);
    }
  }

  /** `r` is what long division of `p` by the generator leaves. */
  ghost predicate IsRemainder(p: poly, r: poly) {
    && (forall e :: e in r ==> e < 16)
    && exists q: poly :: p == Add(TimesGenerator(q), r)
  }

  lemma HasTimes(q: poly, e: int)
    ensures Has(TimesGenerator(q), e) <==> (Has(q, e - 16) != Has(q, e - 12)) != (Has(q, e - 5) != Has(q, e))
  {
    assert Has(Shift(q, 16), e) <==> Has(q, e - 16);
    assert Has(Shift(q, 12), e) <==> Has(q, e - 12);
    assert Has(Shift(q, 5), e) <==> Has(q, e - 5);
  }

  lemma Highest(p: poly) returns (m: nat)
    requires p != {}
    ensures m in p && forall e :: e in p ==> e <= m
    decreases |p|
  {
    var some :| some in p;
    var rest := p - {some};
    m := some;
    if rest != {} {
      var highest := Highest(rest);
      if highest > some {
        m := highest;
      }
    }
    forall e | e in p
      ensures e <= m
    {
      assert e == some || e in rest;
    }
  }

  lemma Lowest(p: poly) returns (m: nat)
    requires p != {}
    ensures m in p && forall e :: e in p ==> m <= e
    decreases |p|
  {
    var some :| some in p;
    var rest := p - {some};
    m := some;
    if rest != {} {
      var lowest := Lowest(rest);
      if lowest < some {
        m := lowest;
      }
    }
    forall e | e in p
      ensures m <= e
    {
      assert e == some || e in rest;
    }
  }

  /** A nonzero multiple of the generator has degree at least 16. */
  lemma MultipleIsLong(d: poly) returns (m: nat)
    requires d != {}
    ensures m >= 16 && Has(TimesGenerator(d), m)
  {
    var top := Highest(d);
    m := top + 16;
    HasTimes(d, m);
    assert Has(d, m - 16) && !Has(d, m - 12) && !Has(d, m - 5) && !Has(d, m);
  }

  lemma TimesAdd(q: poly, t: poly, e: int)
    ensures Has(TimesGenerator(Add(q, t)), e) <==> Has(TimesGenerator(q), e) != Has(TimesGenerator(t), e)
  {
    HasTimes(q, e);
    HasTimes(t, e);
    HasTimes(Add(q, t), e);
    HasAdd(q, t, e - 16);
    HasAdd(q, t, e - 12);
    HasAdd(q, t, e - 5);
    HasAdd(q, t, e);
  }

  lemma HasAdd(p: poly, q: poly, e: int)
    ensures Has(Add(p, q), e) <==> Has(p, e) != Has(q, e)
  {
  }

  /** Long division leaves exactly one remainder. */
  lemma RemainderUnique(p: poly, r: poly, s: poly)
    requires IsRemainder(p, r) && IsRemainder(p, s)
    ensures r == s
  {
    var q: poly :| p == Add(TimesGenerator(q), r);
    var t: poly :| p == Add(TimesGenerator(t), s);
    if Add(q, t) != {} {
      var m := MultipleIsLong(Add(q, t));
      TimesAdd(q, t, m);
      HasAdd(TimesGenerator(q), r, m);
      HasAdd(TimesGenerator(t), s, m);
      assert false;
    }
    assert q == t by {
      forall e: nat
        ensures e in q <==> e in t
      {
        HasAdd(q, t, e);
      }
    }
    forall e: nat
      ensures e in r <==> e in s
    {
      HasAdd(TimesGenerator(q), r, e);
      HasAdd(TimesGenerator(t), s, e);
    }
  }

  // ---- bit strings as polynomials ----

  predicate Coefficient(s: bits, e: nat)
    requires e < |s|
  {
    s[|s| - 1 - e]
  }

  /** The first bit of the string is the coefficient of the highest power. */
  function PolyOf(s: bits): poly {
    set e | 0 <= e < |s| && Coefficient(s, e)
  }

  /** What the register and the input owe together: r x^|s| + s x^16. */
  function Dividend(r: Register, s: bits): poly {
    Add(Shift(PolyOf(r), |s|), Shift(PolyOf(s), 16))
  }

  lemma TapsPoly(e: nat)
    requires e < 16
    ensures TAPS[15 - e] <==> e in {12, 5, 0}
  {
  }

  lemma FeedPoly(r: Register, bit: bool, e: int)
    ensures Has(PolyOf(Feed(r, bit)), e) <==>
            ((Has(PolyOf(r), e - 1) != (bit && e == 16)) != ((r[0] != bit) && e in {16, 12, 5, 0}))
  {
    if 0 <= e < 16 {
      TapsPoly(e);
    }
  }

  lemma DividendGrows(r: Register, s: bits, bit: bool, e: int)
    ensures Has(Dividend(r, s + [bit]), e) <==> (Has(Dividend(r, s), e - 1) != (bit && e == 16))
  {
    var t := s + [bit];
    assert Has(Shift(PolyOf(r), |t|), e) <==> Has(Shift(PolyOf(r), |s|), e - 1);
    assert Has(Shift(PolyOf(t), 16), e) <==> Has(PolyOf(t), e - 16);
    assert Has(Shift(PolyOf(s), 16), e - 1) <==> Has(PolyOf(s), e - 17);
    if 0 < e - 16 < |t| {
      assert t[|t| - 1 - (e - 16)] == s[|s| - 1 - (e - 17)];
    }
  }

  lemma {:induction false} Quotient(r: Register, s: bits) returns (q: poly)
    ensures Dividend(r, s) == Add(TimesGenerator(q), PolyOf(Advance(r, s)))
  {
    if s == [] {
      q := {};
      assert PolyOf(s) == {};
      forall e: nat
        ensures e in Dividend(r, s) <==> e in PolyOf(r)
      {
        assert Has(Dividend(r, s), e) <==> Has(PolyOf(r), e);
      }
      assert TimesGenerator(q) == {};
    } else {
      var last := |s| - 1;
      var before, bit := s[..last], s[last];
      var t := Quotient(r, before);
      var reg := Advance(r, before);
      var fed := reg[0] != bit;
      q := Add(Shift(t, 1), if fed then {0} else {});
      assert s == before + [bit];
      forall e: nat
        ensures e in Dividend(r, s) <==> e in Add(TimesGenerator(q), PolyOf(Advance(r, s)))
      {
        DividendGrows(r, before, bit, e);
        FeedPoly(reg, bit, e);
        QuotientGrows(t, q, fed, e);
        assert Has(Dividend(r, before), e - 1) <==> Has(TimesGenerator(t), e - 1) != Has(PolyOf(reg), e - 1);
        assert Has(Add(TimesGenerator(q), PolyOf(Advance(r, s))), e) <==> Has(TimesGenerator(q), e) != Has(PolyOf(Advance(r, s)), e);
      }
    }
  }

  lemma ShiftedOrOne(t: poly, q: poly, fed: bool, k: int)
    requires q == Add(Shift(t, 1), if fed then {0} else {})
    ensures Has(q, k) <==> Has(t, k - 1) != (fed && k == 0)
  {
    assert Has(Shift(t, 1), k) <==> Has(t, k - 1);
  }

  lemma QuotientGrows(t: poly, q: poly, fed: bool, e: int)
    requires q == Add(Shift(t, 1), if fed then {0} else {})
    ensures Has(TimesGenerator(q), e) <==> (Has(TimesGenerator(t), e - 1) != (fed && e in {16, 12, 5, 0}))
  {
    HasTimes(q, e);
    HasTimes(t, e - 1);
    ShiftedOrOne(t, q, fed, e - 16);
    ShiftedOrOne(t, q, fed, e - 12);
    ShiftedOrOne(t, q, fed, e - 5);
    ShiftedOrOne(t, q, fed, e);
  }

  /** The shift register performs polynomial long division. */
  lemma AdvanceDivides(r: Register, s: bits)
    ensures IsRemainder(Dividend(r, s), PolyOf(Advance(r, s)))
  {
    var q := Quotient(r, s);
  }

  lemma RegisterFromPoly(q: Register, r: Register)
    requires PolyOf(q) == PolyOf(r)
    ensures q == r
  {
    forall i | 0 <= i < 16
      ensures q[i] == r[i]
    {
      var e: nat := 15 - i;
      assert e in PolyOf(q) <==> Coefficient(q, e);
      assert e in PolyOf(r) <==> Coefficient(r, e);
    }
  }

  lemma AppendedPoly(u: bits, v: bits, e: int)
    ensures Has(PolyOf(u + v), e) <==> if e >= |v| then Has(PolyOf(u), e - |v|) else Has(PolyOf(v), e)
  {
    if 0 <= e < |u + v| {
      assert e in PolyOf(u + v) <==> Coefficient(u + v, e);
    }
  }

  /** With a clear register the dividend is the input alone. */
  lemma ClearDividend(u: bits, v: Register, e: int)
    ensures Has(PolyOf(u + v), e) <==> Has(Dividend(ZERO, u), e) != Has(PolyOf(v), e)
  {
    AppendedPoly(u, v, e);
    HasAdd(Shift(PolyOf(ZERO), |u|), Shift(PolyOf(u), 16), e);
    assert Has(Shift(PolyOf(u), 16), e) <==> Has(PolyOf(u), e - 16);
  }

  /** Bits leave a clear register clear exactly when, taken as a polynomial, the generator divides them. */
  lemma ClearsExactlyMultiples(s: bits)
    requires |s| >= 16
    ensures Advance(ZERO, s) == ZERO <==> IsRemainder(PolyOf(s), {})
  {
    hide Advance, TimesGenerator, Dividend, PolyOf;
    var u, v: Register := s[..|s| - 16], s[|s| - 16..];
    assert s == u + v;
    AdvanceConcat(ZERO, u, v);
    Residue(Advance(ZERO, u), v);
    AdvanceDivides(ZERO, u);
    RegisterDegree(v);
    if Advance(ZERO, u) == v {
      var q: poly :| Dividend(ZERO, u) == Add(TimesGenerator(q), PolyOf(v));
      MoveAcross(PolyOf(s), Dividend(ZERO, u), PolyOf(v), TimesGenerator(q), u, v);
    }
    if IsRemainder(PolyOf(s), {}) {
      var q: poly :| PolyOf(s) == Add(TimesGenerator(q), {});
      MoveAcross(PolyOf(s), Dividend(ZERO, u), PolyOf(v), TimesGenerator(q), u, v);
      RemainderUnique(Dividend(ZERO, u), PolyOf(v), PolyOf(Advance(ZERO, u)));
      RegisterFromPoly(v, Advance(ZERO, u));
    }
  }

  lemma RegisterDegree(r: Register)
    ensures forall e :: e in PolyOf(r) ==> e < 16
  {
  }

  lemma MoveAcross(p: poly, d: poly, r: poly, m: poly, u: bits, v: Register)
    requires p == PolyOf(u + v) && d == Dividend(ZERO, u) && r == PolyOf(v)
    ensures d == Add(m, r) <==> p == Add(m, {})
  {
    hide PolyOf, Dividend;
    forall e: nat
      ensures e in p <==> (e in d) != (e in r)
    {
      ClearDividend(u, v, e);
    }
  }
}
