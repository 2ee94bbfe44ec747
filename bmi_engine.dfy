/**
 The BMI engine: the body-mass-index formula with its centimetre-to-metre
 conversion and rounding to two decimals, and the classification of a BMI
 value into one of four ordered bands. Values are exact reals.
 */
module BmiEngine {

  /** The four bands, in increasing order of BMI. */
  datatype Category = Underweight | Normal | Overweight | Obese

  /** The lower bounds of the three upper bands (each band includes its lower bound). */
  const NormalFrom: real := 18.5
  const OverweightFrom: real := 25.0
  const ObeseFrom: real := 30.0

  /** Position of a band in the order Underweight < Normal < Overweight < Obese. */
  function Rank(c: Category): nat
  {
    match c
    case Underweight => 0
    case Normal => 1
    case Overweight => 2
    case Obese => 3
  }

  /** The text shown for a band. */
  function Label(c: Category): string
  {
    match c
    case Underweight => "Underweight"
    case Normal => "Normal"
    case Overweight => "Overweight"
    case Obese => "Obese"
  }

  /** The half-open interval of BMI values that make up band `c`. */
  predicate InBand(c: Category, bmi: real)
  {
    match c
    case Underweight => bmi < NormalFrom
    case Normal => NormalFrom <= bmi < OverweightFrom
    case Overweight => OverweightFrom <= bmi < ObeseFrom
    case Obese => ObeseFrom <= bmi
  }

  /** The classifier: a cascade of three threshold comparisons. */
  function Classify(bmi: real): (c: Category)
    ensures InBand(c, bmi)
  {
    if bmi < NormalFrom then Underweight
    else if bmi < OverweightFrom then Normal
    else if bmi < ObeseFrom then Overweight
    else Obese
  }

  /** Every BMI value lies in exactly one band, the one `Classify` picks. */
  lemma ExactlyOneBand(bmi: real, c: Category)
    ensures InBand(c, bmi) <==> c == Classify(bmi)
  {
  }

  /** A larger BMI never lands in a lower band. */
  lemma ClassifyMonotone(a: real, b: real)
    requires a <= b
    ensures Rank(Classify(a)) <= Rank(Classify(b))
  {
  }

  /** The values just below and at each threshold. */
  lemma ClassifyBoundaries()
    ensures Classify(18.49) == Underweight && Classify(18.5) == Normal
    ensures Classify(24.99) == Normal && Classify(25.0) == Overweight
    ensures Classify(29.99) == Overweight && Classify(30.0) == Obese
  {
  }

  /** Distinct bands are shown with distinct texts, so the text identifies the band. */
  lemma LabelInjective(c: Category, d: Category)
    ensures Label(c) == Label(d) <==> c == d
  {
  }

  /** `n` is the integer nearest to `y`, a tie going to the even neighbour. */
  predicate IsNearestEven(y: real, n: int)
  {
    && -0.5 <= y - n as real <= 0.5
    && ((y - n as real == 0.5 || y - n as real == -0.5) ==> n % 2 == 0)
  }

  /** Round half to even, to an integer. */
  function RoundHalfEven(y: real): (n: int)
    ensures IsNearestEven(y, n)
  {
    var f := y.Floor;
    var frac := y - f as real;
    if frac < 0.5 then f
    else if frac > 0.5 then f + 1
    else if f % 2 == 0 then f
    else f + 1
  }

  /** Nearest-with-ties-to-even determines the integer uniquely. */
  lemma NearestEvenUnique(y: real, m: int)
    requires IsNearestEven(y, m)
    ensures m == RoundHalfEven(y)
  {
  }

  lemma RoundHalfEvenMonotone(y1: real, y2: real)
    requires y1 <= y2
    ensures RoundHalfEven(y1) <= RoundHalfEven(y2)
  {
  }

  /** Rounding to two decimal places, ties to the even last digit. */
  function Round2(x: real): (r: real)
    ensures -0.005 <= r - x <= 0.005
    ensures IsNearestEven(x * 100.0, (r * 100.0).Floor)
    ensures r * 100.0 == (r * 100.0).Floor as real
  {
    var n := RoundHalfEven(x * 100.0);
    assert (n as real / 100.0) * 100.0 == n as real;
    n as real / 100.0
  }

  /** The formula on a height already in metres: weight over height squared. */
  function BmiFromMetres(weightKg: real, heightM: real): real
    requires heightM != 0.0
  {
    weightKg / (heightM * heightM)
  }

  /** The unrounded BMI: the height is converted from centimetres to metres first. */
  function RawBmi(weightKg: real, heightCm: real): real
    requires heightCm != 0.0
  {
    BmiFromMetres(weightKg, heightCm / 100.0)
  }

  /** The BMI as the calculator reports and stores it. */
  function CalculateBmi(weightKg: real, heightCm: real): (bmi: real)
    requires heightCm != 0.0
    ensures -0.005 <= bmi - RawBmi(weightKg, heightCm) <= 0.005
    ensures bmi * 100.0 == (bmi * 100.0).Floor as real
    ensures IsNearestEven(RawBmi(weightKg, heightCm) * 100.0, (bmi * 100.0).Floor)
  {
    Round2(RawBmi(weightKg, heightCm))
  }

  // The real-arithmetic facts below are stated over two independent factors
  // `a` and `b`; the lemmas about the formula instantiate both with the height.

  /** Dividing by a product is dividing by each factor in turn. */
  lemma DivideByProduct(w: real, a: real, b: real)
    requires a != 0.0 && b != 0.0
    ensures a * b != 0.0
    ensures w / (a * b) == (w / a) / b
  {
  }

  /** A factor of the dividend can be taken out of a quotient. */
  lemma FactorOutOfQuotient(k: real, w: real, d: real)
    requires d != 0.0
    ensures (k * w) / d == k * (w / d)
  {
  }

  /** Dividing by two heights given in centimetres, each converted to metres. */
  lemma DivideByMetres(w: real, a: real, b: real)
    requires a != 0.0 && b != 0.0
    ensures w / ((a / 100.0) * (b / 100.0)) == 10000.0 * w / (a * b)
  {
  }

  /** Converting centimetres to metres is the factor 10000 in the formula. */
  lemma RawBmiInCentimetres(weightKg: real, heightCm: real)
    requires heightCm != 0.0
    ensures RawBmi(weightKg, heightCm) == 10000.0 * weightKg / (heightCm * heightCm)
  {
    DivideByMetres(weightKg, heightCm, heightCm);
  }

  /** A positive weight gives a positive BMI, whatever the sign of the height. */
  lemma RawBmiPositive(weightKg: real, heightCm: real)
    requires weightKg > 0.0 && heightCm != 0.0
    ensures RawBmi(weightKg, heightCm) > 0.0
  {
    var heightM := heightCm / 100.0;
    assert weightKg / (heightM * heightM) > 0.0;
  }

  /** Nothing rejects a negative weight: it gives a negative BMI. */
  lemma RawBmiNegative(weightKg: real, heightCm: real)
    requires weightKg < 0.0 && heightCm != 0.0
    ensures RawBmi(weightKg, heightCm) < 0.0
  {
    var heightM := heightCm / 100.0;
    assert weightKg / (heightM * heightM) < 0.0;
  }

  /** On a height in metres, the formula is linear in the weight. */
  lemma BmiFromMetresScales(k: real, weightKg: real, heightM: real)
    requires heightM != 0.0
    ensures BmiFromMetres(k * weightKg, heightM) == k * BmiFromMetres(weightKg, heightM)
  {
    DivideByProduct(weightKg, heightM, heightM);
    DivideByProduct(k * weightKg, heightM, heightM);
    FactorOutOfQuotient(k, weightKg, heightM);
    FactorOutOfQuotient(k, weightKg / heightM, heightM);
  }

  /** The unrounded BMI is linear in the weight. */
  lemma RawBmiScalesWithWeight(k: real, weightKg: real, heightCm: real)
    requires heightCm != 0.0
    ensures RawBmi(k * weightKg, heightCm) == k * RawBmi(weightKg, heightCm)
  {
    BmiFromMetresScales(k, weightKg, heightCm / 100.0);
  }

  /** Doubling the weight doubles the unrounded BMI. */
  lemma RawBmiDoubles(weightKg: real, heightCm: real)
    requires heightCm != 0.0
    ensures RawBmi(2.0 * weightKg, heightCm) == 2.0 * RawBmi(weightKg, heightCm)
  {
    BmiFromMetresScales(2.0, weightKg, heightCm / 100.0);
  }

  /** At a fixed height, a heavier weight never gives a smaller unrounded BMI. */
  lemma RawBmiMonotoneInWeight(w1: real, w2: real, heightCm: real)
    requires heightCm != 0.0 && w1 <= w2
    ensures RawBmi(w1, heightCm) <= RawBmi(w2, heightCm)
  {
    var heightM := heightCm / 100.0;
    assert w1 / (heightM * heightM) <= w2 / (heightM * heightM);
  }

  /** At a fixed height, a heavier weight never gives a smaller reported BMI. */
  lemma CalculateBmiMonotoneInWeight(w1: real, w2: real, heightCm: real)
    requires heightCm != 0.0 && w1 <= w2
    ensures CalculateBmi(w1, heightCm) <= CalculateBmi(w2, heightCm)
  {
    RawBmiMonotoneInWeight(w1, w2, heightCm);
    var y1, y2 := RawBmi(w1, heightCm) * 100.0, RawBmi(w2, heightCm) * 100.0;
    RoundHalfEvenMonotone(y1, y2);
  }
}
