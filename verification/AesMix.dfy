/** MixColumns and its inverse as maps of columns over GF(2^8): the factored forms of the code
are the ones of FIPS 197, and they undo each other. */
module AesMix {
  import opened AesBytes

  /** One byte of a column after the forward transform, from that byte and the
  three below it (equation 5.6 of FIPS 197). */
  function Mixed(a: Byte, b: Byte, c: Byte, d: Byte): Byte {
    Sum(Sum(Sum(Times(a, 0x02), Times(b, 0x03)), c), d)
  }

  /** The same for the inverse transform (equation 5.10 of FIPS 197). */
  function Unmixed(a: Byte, b: Byte, c: Byte, d: Byte): Byte {
    Sum(Sum(Sum(Times(a, 0x0e), Times(b, 0x0b)), Times(c, 0x0d)), Times(d, 0x09))
  }

  /** The forward transform as the code factors it: {02} times two neighbours, plus
  the other three. */
  function Factored(a: Byte, b: Byte, c: Byte, d: Byte): Byte {
    Sum(XTime(Sum(a, b)), Sum(Sum(b, c), d))
  }

  /** Multiplication of a column by {04}x^2 + {05}: one byte and the one opposite. */
  function Corrected(x: Byte, z: Byte): Byte {
    Sum(x, XTime(XTime(Sum(x, z))))
  }

  // --- Laws of the sum

  lemma Commutes(x: Byte, y: Byte)
    ensures Sum(x, y) == Sum(y, x)
  {}

  lemma Associates(x: Byte, y: Byte, z: Byte)
    ensures Sum(Sum(x, y), z) == Sum(x, Sum(y, z))
  {}

  lemma Doubled(x: Byte, y: Byte)
    ensures Sum(Sum(x, x), y) == y
  {}

  lemma Cancels(x: Byte, y: Byte)
    ensures Sum(Sum(x, x), y) == y && Sum(x, Sum(x, y)) == y && Sum(Sum(y, x), x) == y
  {
    hide Sum;
    Doubled(x, y);
    Associates(x, x, y);
    Associates(y, x, x);
    Commutes(y, Sum(x, x));
  }

  lemma Medial(p: Byte, q: Byte, r: Byte, s: Byte)
    ensures Sum(Sum(p, q), Sum(r, s)) == Sum(Sum(p, r), Sum(q, s))
  {}

  lemma XTimeSum(x: Byte, y: Byte)
    ensures XTime(Sum(x, y)) == Sum(XTime(x), XTime(y))
  {}

  lemma XTimeTwice(x: Byte, y: Byte)
    ensures XTime(XTime(Sum(x, y))) == Sum(XTime(XTime(x)), XTime(XTime(y)))
  {
    hide XTime, Sum;
    XTimeSum(x, y);
    XTimeSum(XTime(x), XTime(y));
  }

  // --- Columns

  function Total(a: Byte, b: Byte, c: Byte, d: Byte): Byte {
    Sum(Sum(a, b), Sum(c, d))
  }

  lemma TotalIs(a: Byte, b: Byte, c: Byte, d: Byte)
    ensures Total(a, b, c, d) == Sum(Sum(a, b), Sum(c, d))
  {
    hide Sum;
  }

  lemma FactoredIs(a: Byte, b: Byte, c: Byte, d: Byte)
    ensures Factored(a, b, c, d) == Sum(XTime(Sum(a, b)), Sum(Sum(b, c), d))
  {
    hide Sum, XTime;
  }

  lemma TotalTurns(a: Byte, b: Byte, c: Byte, d: Byte)
    ensures Total(b, c, d, a) == Total(a, b, c, d)
  {
    hide Sum;
    Commutes(d, a);
    Medial(b, c, a, d);
    Commutes(b, a);
  }

  lemma Others(a: Byte, b: Byte, c: Byte, d: Byte)
    ensures Sum(Sum(b, c), d) == Sum(Total(a, b, c, d), a)
  {
    hide Sum;
    TotalTurns(a, b, c, d);
    Associates(Sum(b, c), Sum(d, a), a);
    Cancels(a, d);
  }

  /** Two neighbours after the forward transform: all but the total cancels. */
  lemma SumOfTwo(p: Byte, q: Byte, t: Byte, a: Byte, c: Byte)
    ensures Sum(Sum(p, Sum(t, a)), Sum(q, Sum(t, c))) == Sum(Sum(p, q), Sum(a, c))
  {
    hide Sum;
    Medial(p, Sum(t, a), q, Sum(t, c));
    Medial(t, a, t, c);
    Cancels(t, Sum(a, c));
  }

  lemma FactoredByTotal(a: Byte, b: Byte, c: Byte, d: Byte)
    ensures Factored(a, b, c, d) == Sum(XTime(Sum(a, b)), Sum(Total(a, b, c, d), a))
  {
    hide Sum, XTime, Total;
    Others(a, b, c, d);
  }

  /** The forward transform keeps the total of a column. */
  lemma TotalFactored(a: Byte, b: Byte, c: Byte, d: Byte)
    ensures Total(Factored(a, b, c, d), Factored(b, c, d, a), Factored(c, d, a, b), Factored(d, a, b, c)) == Total(a, b, c, d)
  {
    hide Sum, XTime, Total, Factored;
    var t := Total(a, b, c, d);
    NeighboursFactored(a, b, c, d);
    NeighboursFactored(c, d, a, b);
    TotalTurns(a, b, c, d);
    TotalTurns(b, c, d, a);
    TotalIs(a, b, c, d);
    TotalIs(Factored(a, b, c, d), Factored(b, c, d, a), Factored(c, d, a, b), Factored(d, a, b, c));
    Medial(XTime(Sum(a, c)), Sum(a, b), XTime(Sum(c, a)), Sum(c, d));
    Commutes(a, c);
    Cancels(XTime(Sum(a, c)), t);
  }

  lemma NeighboursFactored(a: Byte, b: Byte, c: Byte, d: Byte)
    ensures Sum(Factored(a, b, c, d), Factored(b, c, d, a)) == Sum(XTime(Sum(a, c)), Sum(a, b))
  {
    hide Sum, XTime, Total, Factored;
    var t := Total(a, b, c, d);
    TotalTurns(a, b, c, d);
    FactoredByTotal(a, b, c, d);
    FactoredByTotal(b, c, d, a);
    SumOfTwo(XTime(Sum(a, b)), XTime(Sum(b, c)), t, a, b);
    XTimeSum(Sum(a, b), Sum(b, c));
    Associates(a, b, Sum(b, c));
    Cancels(b, c);
  }

  lemma OppositeFactored(a: Byte, b: Byte, c: Byte, d: Byte)
    ensures Sum(Factored(a, b, c, d), Factored(c, d, a, b)) == Sum(XTime(Total(a, b, c, d)), Sum(a, c))
  {
    hide Sum, XTime, Total, Factored;
    var t := Total(a, b, c, d);
    TotalTurns(a, b, c, d);
    TotalTurns(b, c, d, a);
    FactoredByTotal(a, b, c, d);
    FactoredByTotal(c, d, a, b);
    SumOfTwo(XTime(Sum(a, b)), XTime(Sum(c, d)), t, a, c);
    XTimeSum(Sum(a, b), Sum(c, d));
    TotalIs(a, b, c, d);
  }

  /** The forward transform done twice is the correction. */
  lemma FactoredTwice(a: Byte, b: Byte, c: Byte, d: Byte)
    ensures Factored(Factored(a, b, c, d), Factored(b, c, d, a), Factored(c, d, a, b), Factored(d, a, b, c)) == Corrected(a, c)
  {
    hide Sum, XTime, Total, Factored;
    var t := Total(a, b, c, d);
    var a', b', c', d' := Factored(a, b, c, d), Factored(b, c, d, a), Factored(c, d, a, b), Factored(d, a, b, c);
    FactoredByTotal(a', b', c', d');
    TotalFactored(a, b, c, d);
    NeighboursFactored(a, b, c, d);
    FactoredByTotal(a, b, c, d);
    var x, x2 := XTime(Sum(a, b)), XTime(XTime(Sum(a, c)));
    XTimeSum(XTime(Sum(a, c)), Sum(a, b));
    // (x2 + x) + (t + (x + (t + a))) is x2 + a.
    Associates(x, t, a);
    Commutes(x, t);
    Associates(t, x, a);
    Cancels(t, Sum(x, a));
    Associates(x2, x, Sum(x, a));
    Cancels(x, a);
    Commutes(x2, a);
  }

  lemma CorrectedTwice(x: Byte, z: Byte)
    ensures Corrected(Corrected(x, z), Corrected(z, x)) == x
  {
    hide Sum, XTime;
    var y := XTime(XTime(Sum(x, z)));
    Commutes(x, z);
    Medial(x, y, z, y);
    Cancels(y, Sum(x, z));
    Commutes(Sum(x, z), Sum(y, y));
    Cancels(y, x);
  }

  /** Correcting after the forward transform is correcting before it. */
  lemma CorrectedCommutes(a: Byte, b: Byte, c: Byte, d: Byte)
    ensures Corrected(Factored(a, b, c, d), Factored(c, d, a, b)) ==
      Factored(Corrected(a, c), Corrected(b, d), Corrected(c, a), Corrected(d, b))
  {
    hide Sum, XTime, Total, Factored, Corrected;
    FactoredTwice(a, b, c, d);
    FactoredTwice(b, c, d, a);
    FactoredTwice(c, d, a, b);
    FactoredTwice(d, a, b, c);
    FactoredTwice(Factored(a, b, c, d), Factored(b, c, d, a), Factored(c, d, a, b), Factored(d, a, b, c));
  }

  // --- The products of FIPS 197 as repeated doublings

  lemma Times02(x: Byte)
    ensures Times(x, 0x02) == XTime(x)
  {
    hide XTime;
  }

  lemma Times03(x: Byte)
    ensures Times(x, 0x03) == Sum(XTime(x), x)
  {
    hide XTime;
  }

  lemma Times0e(x: Byte)
    ensures Times(x, 0x0e) == Sum(XTime(XTime(XTime(x))), Sum(XTime(XTime(x)), XTime(x)))
  {
    hide XTime;
  }

  lemma Times0b(x: Byte)
    ensures Times(x, 0x0b) == Sum(XTime(XTime(XTime(x))), Sum(XTime(x), x))
  {
    hide XTime;
  }

  lemma Times0d(x: Byte)
    ensures Times(x, 0x0d) == Sum(XTime(XTime(XTime(x))), Sum(XTime(XTime(x)), x))
  {
    hide XTime;
  }

  lemma Times09(x: Byte)
    ensures Times(x, 0x09) == Sum(XTime(XTime(XTime(x))), x)
  {
    hide XTime;
  }

  lemma MixedIsFactored(a: Byte, b: Byte, c: Byte, d: Byte)
    ensures Mixed(a, b, c, d) == Factored(a, b, c, d)
  {
    hide Sum, XTime, Times;
    Times02(a);
    Times03(b);
    XTimeSum(a, b);
    var p := XTime(a);
    var q := XTime(b);
    Associates(p, q, b);
    Associates(Sum(p, q), b, c);
    Associates(Sum(p, q), Sum(b, c), d);
  }

  /** Unmixed is the forward transform corrected by {04}x^2 + {05}. */
  lemma UnmixedIsCorrected(a: Byte, b: Byte, c: Byte, d: Byte)
    ensures Unmixed(a, b, c, d) == Corrected(Factored(a, b, c, d), Factored(c, d, a, b))
  {
    hide Sum, XTime, Times, Total, Factored;
    Times0e(a);
    Times0b(b);
    Times0d(c);
    Times09(d);
    var a1, b1, c1, d1 := XTime(a), XTime(b), XTime(c), XTime(d);
    var a2, b2, c2, d2 := XTime(a1), XTime(b1), XTime(c1), XTime(d1);
    var a3, b3, c3, d3 := XTime(a2), XTime(b2), XTime(c2), XTime(d2);
    // Gather the eighth multiples in front.
    Medial(a3, Sum(a2, a1), b3, Sum(b1, b));
    Medial(Sum(a3, b3), Sum(Sum(a2, a1), Sum(b1, b)), c3, Sum(c2, c));
    var rest := Sum(Sum(Sum(a2, a1), Sum(b1, b)), Sum(c2, c));
    Medial(Sum(Sum(a3, b3), c3), rest, d3, d);
    assert Unmixed(a, b, c, d) == Sum(Sum(Sum(Sum(a3, b3), c3), d3), Sum(rest, d));
    RestOfColumn(a, b, c, d, a1, b1, a2, c2);
    OppositeFactored(a, b, c, d);
    var t := Total(a, b, c, d);
    XTimeTwice(XTime(t), Sum(a, c));
    XTimeTwice(a, c);
    TotalEighth(a, b, c, d);
    Associates(Sum(a3, b3), c3, d3);
    XTimeSum(a, b);
    var x3, x2 := XTime(XTime(XTime(t))), Sum(a2, c2);
    FactoredIs(a, b, c, d);
    var f := Factored(a, b, c, d);
    Associates(x3, x2, f);
    Commutes(Sum(x3, x2), f);
  }

  lemma RestOfColumn(a: Byte, b: Byte, c: Byte, d: Byte, a1: Byte, b1: Byte, a2: Byte, c2: Byte)
    ensures Sum(Sum(Sum(Sum(a2, a1), Sum(b1, b)), Sum(c2, c)), d) == Sum(Sum(a2, c2), Sum(Sum(a1, b1), Sum(Sum(b, c), d)))
  {
    hide Sum;
    Associates(a2, a1, Sum(b1, b));
    Associates(a1, b1, b);
    Medial(a2, Sum(Sum(a1, b1), b), c2, c);
    Associates(Sum(a1, b1), b, c);
    Associates(Sum(a2, c2), Sum(Sum(a1, b1), Sum(b, c)), d);
    Associates(Sum(a1, b1), Sum(b, c), d);
  }

  lemma TotalEighth(a: Byte, b: Byte, c: Byte, d: Byte)
    ensures XTime(XTime(XTime(Total(a, b, c, d)))) ==
      Sum(Sum(XTime(XTime(XTime(a))), XTime(XTime(XTime(b)))), Sum(XTime(XTime(XTime(c))), XTime(XTime(XTime(d)))))
  {
    hide Sum, XTime;
    XTimeTwice(Sum(a, b), Sum(c, d));
    XTimeTwice(a, b);
    XTimeTwice(c, d);
    XTimeSum(XTime(XTime(Sum(a, b))), XTime(XTime(Sum(c, d))));
    XTimeSum(XTime(XTime(a)), XTime(XTime(b)));
    XTimeSum(XTime(XTime(c)), XTime(XTime(d)));
  }

  /** The two transforms undo each other, byte by byte of the column. */
  lemma UnmixedMixed(a: Byte, b: Byte, c: Byte, d: Byte)
    ensures Unmixed(Mixed(a, b, c, d), Mixed(b, c, d, a), Mixed(c, d, a, b), Mixed(d, a, b, c)) == a
  {
    hide Mixed, Unmixed, Factored, Corrected;
    MixedIsFactored(a, b, c, d);
    MixedIsFactored(b, c, d, a);
    MixedIsFactored(c, d, a, b);
    MixedIsFactored(d, a, b, c);
    var a', b', c', d' := Factored(a, b, c, d), Factored(b, c, d, a), Factored(c, d, a, b), Factored(d, a, b, c);
    UnmixedIsCorrected(a', b', c', d');
    FactoredTwice(a, b, c, d);
    FactoredTwice(c, d, a, b);
    CorrectedTwice(a, c);
  }

  lemma MixedUnmixed(a: Byte, b: Byte, c: Byte, d: Byte)
    ensures Mixed(Unmixed(a, b, c, d), Unmixed(b, c, d, a), Unmixed(c, d, a, b), Unmixed(d, a, b, c)) == a
  {
    hide Mixed, Unmixed, Factored, Corrected;
    UnmixedIsFactoredLast(a, b, c, d);
    UnmixedIsFactoredLast(b, c, d, a);
    UnmixedIsFactoredLast(c, d, a, b);
    UnmixedIsFactoredLast(d, a, b, c);
    var a', b', c', d' := Corrected(a, c), Corrected(b, d), Corrected(c, a), Corrected(d, b);
    MixedIsFactored(Unmixed(a, b, c, d), Unmixed(b, c, d, a), Unmixed(c, d, a, b), Unmixed(d, a, b, c));
    FactoredTwice(a', b', c', d');
    CorrectedTwice(a, c);
  }

  lemma UnmixedIsFactoredLast(a: Byte, b: Byte, c: Byte, d: Byte)
    ensures Unmixed(a, b, c, d) == Factored(Corrected(a, c), Corrected(b, d), Corrected(c, a), Corrected(d, b))
  {
    hide Unmixed, Factored, Corrected;
    UnmixedIsCorrected(a, b, c, d);
    CorrectedCommutes(a, b, c, d);
  }
}
