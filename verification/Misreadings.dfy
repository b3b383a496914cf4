/** Two literals that the slow path rounds to the wrong neighbour, one for each of the two
    conditions under which `SlowPath.Decide` does not promise the nearest double. */
module Misreadings {
  import opened Powers
  import opened DecimalText
  import opened BigInts
  import opened BigCompare
  import opened SlowPath

  function Run(d: nat, n: nat): seq<nat> { seq(n, _ => d) }

  /** A text that goes on with the digit `d` from `from` on. */
  lemma {:induction false} DigitsOfRun(text: seq<byte>, from: nat, hi: nat, dot: int, d: nat)
    requires from <= hi <= |text| && d <= 9
    requires forall j :: 0 <= j < hi && j != dot ==> IsDigit(text[j])
    requires forall j :: from <= j < hi && j != dot ==> text[j] == d + 48
    ensures DigitsOf(text, 0, hi, dot) ==
            DigitsOf(text, 0, from, dot) + Run(d, hi - from - (if from <= dot < hi then 1 else 0))
    decreases hi
  {
    if from < hi { DigitsOfRun(text, from, hi - 1, dot, d); }
  }

  lemma {:induction false} HornerNines(acc: nat, n: nat)
    ensures Horner(acc, Run(9, n)) == (acc + 1) * Pow(10, n) - 1
  {
    if n > 0 {
      HornerNines(acc, n - 1);
      assert Run(9, n) == Run(9, n - 1) + [9];
      hide Horner, Pow;
      HornerSnoc(acc, Run(9, n - 1), 9);
      PowStep(10, n - 1);
    }
  }

  lemma OrderBelowPoint(n: nat, x: int, u: nat, e: nat)
    requires x >= 0
    ensures Order(n, -x, u, e) == Sign(n - u * Pow(2, e) * Pow(10, x))
  {
    hide Pow;
    SmallPowers();
    assert Pow(10, 0) == 1 && Pow(2, 0) == 1 by { Zeroth(); }
    assert u * Pow(10, x) * Pow(2, e) == u * Pow(2, e) * Pow(10, x) by {
      MulAssoc(u, Pow(10, x), Pow(2, e));
      MulAssoc(u, Pow(2, e), Pow(10, x));
    }
  }

  lemma Zeroth()
    ensures Pow(10, 0) == 1 && Pow(2, 0) == 1
  {
  }

  lemma SmallTwos()
    ensures Pow(2, 6) == 64 && Pow(2, 19) == 524288 && Pow(2, 20) == 1048576
  {
    hide Pow;
    SmallPowers();
    PowOne(2);
    PowAdd(2, 2, 2);
    PowAdd(2, 4, 2);
    PowAdd(2, 8, 8);
    PowAdd(2, 16, 2);
    PowAdd(2, 18, 1);
    PowAdd(2, 19, 1);
  }

  // ---------------------------------------------------------------- a tie that is lost

  const TIE_TEXT: seq<byte> := [57, 54, 56, 46] + seq(747, _ => 48)

  /** 9444732965739291475968.000...0 with 747 zeros behind the point: exactly half-way
      between two to the 73rd and the next double. */
  const TIE: Literal := Long(9444732965739291475, TIE_TEXT, 0, 751, 3, 3)

  const TIE_EVEN: nat := 1096 * HIDDEN

  lemma TieReadable()
    ensures Readable(TIE) && TooManyDigits(TIE) && !Misplaced(TIE)
  {
    hide Pow;
    Pow10Table(18);
    Pow10Table(19);
    assert CutText(TIE.text, TIE.cut, TIE.end, TIE.dot);
  }

  lemma TieStart()
    ensures DigitsOf(TIE_TEXT, 0, 4, 3) == [9, 6, 8]
  {
    var text := TIE_TEXT;
    assert DigitsOf(text, 0, 1, 3) == [9];
    assert DigitsOf(text, 0, 2, 3) == [9, 6];
    assert DigitsOf(text, 0, 3, 3) == [9, 6, 8];
  }

  lemma ThreeDigits(acc: nat, a: nat, b: nat, c: nat)
    ensures Horner(acc, [a, b, c]) == 1000 * acc + 100 * a + 10 * b + c
  {
    HornerSnoc(acc, [a, b], c);
    HornerSnoc(acc, [a], b);
    HornerSnoc(acc, [], a);
    assert [a, b, c] == [a, b] + [c] && [a, b] == [a] + [b] && [a] == [] + [a];
  }

  lemma TieDigits()
    requires Readable(TIE)
    ensures Digits(TIE) == 9444732965739291475968 * Pow(10, 747) && Scale(TIE) == -747
  {
    TieStart();
    DigitsOfRun(TIE_TEXT, 4, 751, 3, 0);
    var lead, first := TIE.lead, [9, 6, 8];
    hide DigitsOf, TIE_TEXT, Pow;
    hide Horner;
    ThreeDigits(lead, 9, 6, 8);
    HornerConcat(lead, first, Run(0, 747));
    HornerZeros(9444732965739291475968, Run(0, 747));
  }

  lemma TieHalfWays()
    ensures UpperSig(TIE_EVEN) == 9007199254740993 && UpperExp(TIE_EVEN) == 20
    ensures UpperSig(TIE_EVEN - 1) == 18014398509481983 && UpperExp(TIE_EVEN - 1) == 19
  {
  }

  lemma TieAbove()
    requires Readable(TIE)
    ensures Above(TIE, TIE_EVEN) == 0 && Above(TIE, TIE_EVEN - 1) == 1
  {
    TieHalfWays();
    TieDigits();
    var n, p := 9444732965739291475968, Pow(10, 747);
    hide Pow, Digits, Scale, UpperSig, UpperExp, Order, Readable, TIE, TIE_EVEN;
    SmallTwos();
    PowPositive(10, 747);
    OrderBelowPoint(n * p, 747, 9007199254740993, 20);
    OrderBelowPoint(n * p, 747, 18014398509481983, 19);
    SignScale(n, 9007199254740993 * 1048576, p);
    SignScale(n, 18014398509481983 * 524288, p);
  }

  /** The tie belongs to the even candidate, but the number read looks larger, so the reader
      returns its odd neighbour. */
  lemma TieLost()
    ensures Readable(TIE) && TooManyDigits(TIE) && !Misplaced(TIE) && Above(TIE, TIE_EVEN) == 0
    ensures RoundsTo(TIE, TIE_EVEN) && !RoundsTo(TIE, TIE_EVEN + 1)
    ensures Order(ReadDigits(TIE), ReadScale(TIE), UpperSig(TIE_EVEN), UpperExp(TIE_EVEN)) == 1
  {
    TieReadable();
    TieAbove();
    TieHalfWays();
    assert TIE_EVEN % 2 == 0;
    hide Pow, Digits, Scale, ReadDigits, ReadScale, TIE, TIE_EVEN, UpperSig, UpperExp, Order, Readable, Misplaced, TooManyDigits;
    Pow54();
    ReadOrder(TIE, UpperSig(TIE_EVEN), UpperExp(TIE_EVEN));
  }

  // ---------------------------------------------------------------- a point that is misplaced

  const NINES_TEXT: seq<byte> := seq(751, _ => 57) + [46, 57]

  /** The literal that is 1000000000000000063, 751 nines, the point, one more nine and `e-751`.
      Only with such a negative exponent is a number of 770 digits before its point in range. */
  const NINES: Literal := Long(1000000000000000063, NINES_TEXT, 0, 753, 751, 0)

  /** Ten to the 18th. */
  const NINES_BELOW: nat := 1082 * HIDDEN + (7812500000000000 - HIDDEN)

  lemma NinesReadable()
    ensures Readable(NINES) && Misplaced(NINES)
  {
    hide Pow;
    Pow10Table(18);
    Pow10Table(19);
    assert CutText(NINES.text, NINES.cut, NINES.end, NINES.dot);
  }

  lemma NinesDigits()
    requires Readable(NINES)
    ensures Digits(NINES) == 1000000000000000064 * Pow(10, 752) - 1 && Scale(NINES) == -752
  {
    DigitsOfRun(NINES_TEXT, 0, 753, 751, 9);
    assert DigitsOf(NINES_TEXT, 0, 0, 751) == [];
    assert DigitsOf(NINES_TEXT, 0, 753, 751) == Run(9, 752);
    hide DigitsOf, NINES_TEXT, Pow, Horner;
    HornerNines(1000000000000000063, 752);
  }

  lemma NinesHalfWays()
    ensures UpperSig(NINES_BELOW) == 15625000000000001 && UpperExp(NINES_BELOW) == 6
    ensures UpperSig(NINES_BELOW - 1) == 15624999999999999 && UpperExp(NINES_BELOW - 1) == 6
  {
  }

  lemma NinesAbove()
    requires Readable(NINES)
    ensures Above(NINES, NINES_BELOW) == -1 && Above(NINES, NINES_BELOW - 1) == 1
  {
    NinesHalfWays();
    NinesDigits();
    var p := Pow(10, 752);
    var n := 1000000000000000064 * p - 1;
    hide Pow, Digits, Scale, UpperSig, UpperExp, Order, Readable, NINES, NINES_BELOW;
    SmallTwos();
    PowPositive(10, 752);
    OrderBelowPoint(n, 752, 15625000000000001, 6);
    OrderBelowPoint(n, 752, 15624999999999999, 6);
  }

  /** The literal lies just below the half-way point over `NINES_BELOW`, which is nearest
      to it, but it is read ten times too large, so the reader returns the next double. */
  lemma PointMisplaced()
    ensures Readable(NINES) && Misplaced(NINES) && Above(NINES, NINES_BELOW) < 0
    ensures RoundsTo(NINES, NINES_BELOW) && !RoundsTo(NINES, NINES_BELOW + 1)
    ensures Order(ReadDigits(NINES), ReadScale(NINES), UpperSig(NINES_BELOW), UpperExp(NINES_BELOW)) == 1
  {
    NinesReadable();
    NinesAbove();
    NinesHalfWays();
    hide Pow, Digits, Scale, ReadDigits, ReadScale, NINES, NINES_BELOW, UpperSig, UpperExp, Order, Readable, Misplaced, TooManyDigits;
    Pow54();
    MisplacedOrder(NINES, UpperSig(NINES_BELOW), UpperExp(NINES_BELOW));
  }
}
