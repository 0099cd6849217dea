/**
 Bursts across DATA and CRC. The CRC goes out low byte first, so 16 neighbouring bits of the wire need not be
 neighbours in the division; these are all the bursts of that length that the check lets through.
 */
module WireBursts {
  import opened BitStrings
  import opened ShiftRegister
  import opened Polynomials
  import opened ErrorDetection

  /** A difference in wire order with its last two bytes swapped: the order of the division. */
  function Swapped(w: bits): (s: bits)
    requires |w| >= 16
    ensures |s| == |w|
  {
    w[..|w| - 16] + w[|w| - 8..] + w[|w| - 16..|w| - 8]
  }

  /** Where the coefficient of x^e stands on the wire, counted from the last bit. */
  function WirePlace(e: nat): nat {
    if e < 8 then e + 8 else if e < 16 then e - 8 else e
  }

  lemma OnesReordered(body: bits, low: bits, high: bits)
    ensures Ones(body + high + low) == Ones(body + low + high)
  {
    hide Ones;
    OnesConcat(body + high, low);
    OnesConcat(body, high);
    OnesConcat(body + low, high);
    OnesConcat(body, low);
  }

  lemma TailParts(w: bits, n: nat)
    requires |w| == n + 16
    ensures w[..n] + w[n..n + 8] + w[n + 8..] == w
  {
  }

  lemma OnesSwapped(w: bits)
    requires |w| >= 16
    ensures Ones(Swapped(w)) == Ones(w)
  {
    hide Ones;
    var n := |w| - 16;
    TailParts(w, n);
    OnesReordered(w[..n], w[n..n + 8], w[n + 8..]);
  }

  /** A frame's difference in the order of the division, and in the order of the wire. */
  lemma SwappedDifference(first: bits, b: bits, c: bits, l: bits, h: bits, m: bits, k: bits)
    requires |b| == |c| && |l| == |h| == |m| == |k| == 8
    ensures Xor(first + b + (h + l), first + c + (k + m)) ==
            Zeros(|first|) + Swapped(Xor(b + (l + h), c + (m + k)))
  {
    XorConcat(b, l + h, c, m + k);
    XorConcat(l, h, m, k);
    XorConcat(h, l, k, m);
    XorConcat(first + b, h + l, first + c, k + m);
    XorConcat(first, b, first, c);
    var x, y, z := Xor(b, c), Xor(l, m), Xor(h, k);
    assert Xor(first, first) == Zeros(|first|);
    assert Swapped(x + (y + z)) == x + (z + y);
    assert Zeros(|first|) + x + (z + y) == Zeros(|first|) + (x + (z + y));
  }

  lemma SwappedPlaces(w: bits, e: nat)
    requires |w| >= 16
    ensures e in PolyOf(Swapped(w)) <==> WirePlace(e) in PolyOf(w)
    ensures WirePlace(WirePlace(e)) == e
  {
    if e < |w| {
      var k := WirePlace(e);
      assert Swapped(w)[|w| - 1 - e] == w[|w| - 1 - k];
      assert Coefficient(Swapped(w), e) <==> Coefficient(w, k);
    }
  }

  /** The differences of at most 16 consecutive wire bits that the check passes, as places counted from the last bit. */
  const ESCAPES: seq<poly> :=
    [ {16, 13, 8, 4},
      {17, 14, 9, 5},
      {17, 16, 14, 13, 9, 8, 5, 4},
      {18, 15, 10, 6},
      {18, 16, 15, 13, 10, 8, 6, 4},
      {18, 17, 15, 14, 10, 9, 6, 5},
      {18, 17, 16, 15, 14, 13, 10, 9, 8, 6, 5, 4},
      {23, 19, 16, 15, 13, 8},
      {25, 21, 20, 18, 16, 15, 12, 10},
      {27, 23, 22, 18, 16, 14},
      {28, 24, 23, 19, 17, 15},
      {28, 27, 24, 22, 19, 18, 17, 16, 15, 14} ]

  /** What the generator is multiplied by to give them. */
  const QUOTIENTS: seq<poly> :=
    [{0}, {1}, {0, 1}, {2}, {0, 2}, {1, 2}, {0, 1, 2}, {0, 7}, {2, 4, 9}, {6, 11}, {7, 12}, {6, 7, 11, 12}]

  lemma NearEscape(i: nat, e: nat)
    requires i < 7
    ensures e in TimesGenerator(QUOTIENTS[i]) <==> WirePlace(e) in ESCAPES[i]
  {
    hide TimesGenerator;
    HasTimes(QUOTIENTS[i], e);
  }

  lemma FarEscape(i: nat, e: nat)
    requires 7 <= i < |ESCAPES|
    ensures e in TimesGenerator(QUOTIENTS[i]) <==> WirePlace(e) in ESCAPES[i]
  {
    hide TimesGenerator;
    HasTimes(QUOTIENTS[i], e);
  }

  /** A difference is one of the escapes exactly when the generator's cofactor is the matching quotient. */
  lemma EscapeIsMultiple(w: bits, i: nat)
    requires |w| >= 16 && i < |ESCAPES|
    ensures PolyOf(w) == ESCAPES[i] <==> PolyOf(Swapped(w)) == TimesGenerator(QUOTIENTS[i])
  {
    var p, q := ESCAPES[i], QUOTIENTS[i];
    hide PolyOf, Swapped, TimesGenerator, WirePlace, ESCAPES, QUOTIENTS;
    forall e: nat
      ensures e in PolyOf(Swapped(w)) <==> WirePlace(e) in PolyOf(w)
      ensures e in TimesGenerator(q) <==> WirePlace(e) in p
      ensures WirePlace(WirePlace(e)) == e
    {
      SwappedPlaces(w, e);
      if i < 7 {
        NearEscape(i, e);
      } else {
        FarEscape(i, e);
      }
    }
    if PolyOf(Swapped(w)) == TimesGenerator(q) {
      forall k: nat
        ensures k in PolyOf(w) <==> k in p
      {
        assert WirePlace(k) in PolyOf(Swapped(w)) <==> WirePlace(k) in TimesGenerator(q);
      }
    }
  }

  lemma BurstPlaces(w: bits, at: nat, k: nat, width: nat)
    requires Burst(w, at, width) && k in PolyOf(w)
    ensures |w| - at - width <= k < |w| - at
  {
    assert Coefficient(w, k);
  }

  /** Inside a burst the cofactor lives on at most eight powers, and eight neighbouring terms of the product vanish. */
  lemma CofactorIsShort(w: bits, at: nat, q: poly)
    requires |w| >= 16 && Burst(w, at, 16)
    requires PolyOf(Swapped(w)) == TimesGenerator(q) && q != {}
    ensures 1 <= |w| - 16 - at <= 15
    ensures forall e :: e in q ==> |w| - 16 - at - 8 <= e < |w| - 16 - at
    ensures forall e :: 8 <= e < 16 && e < |w| - 8 - at ==> !Has(TimesGenerator(q), e)
  {
    hide PolyOf, Swapped, TimesGenerator, Burst;
    var reach := |w| - 16 - at;
    forall e: nat | Has(TimesGenerator(q), e)
      ensures reach <= WirePlace(e) < 16 + reach
    {
      SwappedPlaces(w, e);
      BurstPlaces(w, at, WirePlace(e), 16);
    }
    var top := Highest(q);
    var low := Lowest(q);
    HasTimes(q, top + 16);
    HasTimes(q, low);
    assert Has(TimesGenerator(q), top + 16) && Has(TimesGenerator(q), low);
  }

  function Upto(p: poly, n: nat): seq<bool> {
    seq(n, e requires 0 <= e < n => e in p)
  }

  lemma SameTerms(p: poly, q: poly)
    requires forall e :: e in p || e in q ==> e < 15
    requires Upto(p, 15) == Upto(q, 15)
    ensures p == q
  {
    forall e: nat
      ensures e in p <==> e in q
    {
      if e < 15 {
        assert Upto(p, 15)[e] == Upto(q, 15)[e];
      }
    }
  }

  /** The linear system of the vanishing terms has exactly the listed solutions. */
  lemma CofactorIsListed(q: poly, reach: nat)
    requires 1 <= reach <= 15 && q != {}
    requires forall e :: e in q ==> reach - 8 <= e < reach
    requires forall e :: 8 <= e < 16 && e < reach + 8 ==> !Has(TimesGenerator(q), e)
    ensures q in QUOTIENTS
  {
    hide TimesGenerator;
    HasTimes(q, 8);
    HasTimes(q, 9);
    HasTimes(q, 10);
    HasTimes(q, 11);
    HasTimes(q, 12);
    HasTimes(q, 13);
    HasTimes(q, 14);
    HasTimes(q, 15);
    assert 15 !in q;
    var i := Index(q);
    assert Upto(q, 15) == Upto(QUOTIENTS[i], 15);
    SameTerms(q, QUOTIENTS[i]);
  }

  /** Which quotient a solution of the system is, told from a few of its terms. */
  function Index(q: poly): (i: nat)
    ensures i < |QUOTIENTS|
  {
    if 9 in q then 8
    else if 11 in q then (if 12 in q then 11 else 9)
    else if 12 in q then 10
    else if 7 in q then 7
    else if 2 in q then (if 1 in q then (if 0 in q then 6 else 5) else if 0 in q then 4 else 3)
    else if 1 in q && 0 in q then 2
    else if 1 in q then 1
    else 0
  }

  lemma SomePlace(w: bits)
    requires w != Zeros(|w|)
    ensures PolyOf(w) != {}
  {
    var i :| 0 <= i < |w| && w[i];
    assert |w| - 1 - i in PolyOf(w) by {
      assert Coefficient(w, |w| - 1 - i);
    }
  }

  lemma NothingTimes()
    ensures TimesGenerator({}) == {}
  {
  }

  lemma SwappedNonzero(w: bits)
    requires |w| >= 16 && PolyOf(w) != {}
    ensures PolyOf(Swapped(w)) != {}
  {
    hide PolyOf, Swapped;
    var k :| k in PolyOf(w);
    SwappedPlaces(w, WirePlace(k));
  }

  /** A nonzero burst of at most 16 wire bits, wherever it lies, passes the check exactly when it is one of the escapes. */
  lemma BurstPassesExactly(w: bits, at: nat)
    requires |w| >= 16 && w != Zeros(|w|) && Burst(w, at, 16)
    ensures Advance(ZERO, Swapped(w)) == ZERO <==> PolyOf(w) in ESCAPES
  {
    hide PolyOf, Swapped, TimesGenerator, Burst, Advance, ESCAPES, QUOTIENTS;
    ClearsExactlyMultiples(Swapped(w));
    if IsRemainder(PolyOf(Swapped(w)), {}) {
      var q: poly :| PolyOf(Swapped(w)) == Add(TimesGenerator(q), {});
      SomePlace(w);
      SwappedNonzero(w);
      NothingTimes();
      CofactorIsShort(w, at, q);
      CofactorIsListed(q, |w| - 16 - at);
      var i :| 0 <= i < |QUOTIENTS| && QUOTIENTS[i] == q;
      TwelveEscapes();
      EscapeIsMultiple(w, i);
    }
    if PolyOf(w) in ESCAPES {
      var i :| 0 <= i < |ESCAPES| && ESCAPES[i] == PolyOf(w);
      EscapeIsMultiple(w, i);
      TwelveEscapes();
      assert PolyOf(Swapped(w)) == Add(TimesGenerator(QUOTIENTS[i]), {});
    }
  }

  lemma TwelveEscapes()
    ensures |ESCAPES| == |QUOTIENTS| == 12
  {
  }

  /** Every escape spans 13 to 16 bits. */
  lemma EscapesAreWide(i: nat) returns (low: nat, high: nat)
    requires i < |ESCAPES|
    ensures low in ESCAPES[i] && high in ESCAPES[i] && 12 <= high - low < 16
    ensures forall e :: e in ESCAPES[i] ==> low <= e <= high
  {
    low := [4, 5, 4, 6, 4, 5, 4, 8, 10, 14, 15, 14][i];
    high := [16, 17, 17, 18, 18, 18, 18, 23, 25, 27, 28, 28][i];
  }

  /** No nonzero burst of at most 12 wire bits passes the check. */
  lemma ShortBurstNeverPasses(w: bits, at: nat)
    requires |w| >= 16 && w != Zeros(|w|) && Burst(w, at, 12)
    ensures Advance(ZERO, Swapped(w)) != ZERO
  {
    hide Swapped, Advance, ESCAPES;
    assert Burst(w, at, 16);
    BurstPassesExactly(w, at);
    if PolyOf(w) in ESCAPES {
      var i :| 0 <= i < |ESCAPES| && ESCAPES[i] == PolyOf(w);
      var low, high := EscapesAreWide(i);
      BurstPlaces(w, at, low, 12);
      BurstPlaces(w, at, high, 12);
      assert false;
    }
  }
}
