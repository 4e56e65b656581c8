/** Correlation scores as single-precision comparisons see them, and the
    winner-take-all selection the matcher performs with `val > maxVal`. */
module Scores {
  import opened Common

  /** A correlation score: a finite value, an infinity produced by a division
      by zero, or NaN (zero divided by zero). Rounding is not modelled. */
  datatype Score = Num(v: real) | PosInf | NegInf | NaN

  /** `-FLT_MAX`, the value every running maximum starts from. */
  const NegFltMax: Score := Num(-340282346638528859811704183484516925440.0)

  /** IEEE `a > b`: false whenever either side is NaN. */
  predicate Greater(a: Score, b: Score)
  {
    match (a, b)
    case (NaN, _) => false
    case (_, NaN) => false
    case (PosInf, _) => b != PosInf
    case (NegInf, _) => false
    case (Num(x), Num(y)) => x > y
    case (Num(_), PosInf) => false
    case (Num(_), NegInf) => true
  }

  /** `num / den` in single precision where `den` is a product of two square
      roots, hence never negative zero. The ensures clauses are the modelled
      IEEE 754 division: the quotient for a non-zero divisor, and for a zero
      divisor an infinity signed as the dividend, or NaN for 0/0. */
  function Quotient(num: real, den: real): (q: Score)
    ensures den != 0.0 ==> q == Num(num / den)
    ensures q == NaN <==> den == 0.0 && num == 0.0
    ensures den == 0.0 && num > 0.0 ==> q == PosInf
    ensures den == 0.0 && num < 0.0 ==> q == NegInf
  {
    if den != 0.0 then Num(num / den)
    else if num > 0.0 then PosInf
    else if num < 0.0 then NegInf
    else NaN
  }

  /** `>` is a strict order on scores... */
  lemma GreaterIsStrictOrder(a: Score, b: Score, c: Score)
    ensures !Greater(a, a)
    ensures Greater(a, b) ==> !Greater(b, a)
    ensures Greater(a, b) && Greater(b, c) ==> Greater(a, c)
  {
  }

  /** ...that is total on everything but NaN. */
  lemma GreaterIsTotal(a: Score, b: Score)
    requires a != NaN && b != NaN
    ensures Greater(a, b) || Greater(b, a) || a == b
  {
  }

  /** The score of an optional winner: `-FLT_MAX` when there is none. */
  function ScoreOf(f: int -> Score, w: Option<int>): Score
  {
    match w
    case None => NegFltMax
    case Some(c) => f(c)
  }

  /** The winner of a scan over candidates a, a+1, ..., b-1 that keeps the
      running maximum `m` (starting at -FLT_MAX) and replaces it only when
      a candidate's score is strictly greater: the `if (val > maxVal)` of the
      matcher. None when no candidate ever beat -FLT_MAX. */
  function BestIndex(f: int -> Score, a: int, b: int): Option<int>
    decreases b - a
  {
    if b <= a then None
    else
      var w := BestIndex(f, a, b - 1);
      if Greater(f(b - 1), ScoreOf(f, w)) then Some(b - 1) else w
  }

  /** One more candidate for the scan. */
  lemma BestIndexStep(f: int -> Score, a: int, b: int)
    requires a <= b
    ensures BestIndex(f, a, b + 1) ==
      if Greater(f(b), ScoreOf(f, BestIndex(f, a, b))) then Some(b) else BestIndex(f, a, b)
  {
  }

  /** Some candidate in [a, b) scores above -FLT_MAX. */
  ghost predicate AnyBeats(f: int -> Score, a: int, b: int)
  {
    exists c :: a <= c < b && Greater(f(c), NegFltMax)
  }

  /** `c` is the first candidate of [a, b) attaining the maximal score, and
      that score is above -FLT_MAX: no candidate scores higher, and every
      earlier candidate scores strictly lower or is NaN. */
  ghost predicate IsFirstArgmax(f: int -> Score, a: int, b: int, c: int)
  {
    && a <= c < b
    && Greater(f(c), NegFltMax)
    && (forall e :: a <= e < b ==> !Greater(f(e), f(c)))
    && (forall e :: a <= e < c ==> f(e) == NaN || Greater(f(c), f(e)))
  }

  /** The scan's winner is exactly the first maximal candidate, and there is
      none exactly when no candidate scores above -FLT_MAX. */
  lemma {:induction false} BestIndexIsFirstArgmax(f: int -> Score, a: int, b: int)
    ensures BestIndex(f, a, b).None? <==> !AnyBeats(f, a, b)
    ensures BestIndex(f, a, b).Some? ==> IsFirstArgmax(f, a, b, BestIndex(f, a, b).value)
    decreases b - a
  {
    if b > a {
      BestIndexIsFirstArgmax(f, a, b - 1);
      var w := BestIndex(f, a, b - 1);
      var m := ScoreOf(f, w);
      if Greater(f(b - 1), m) {
        forall e | a <= e < b - 1
          ensures f(e) == NaN || Greater(f(b - 1), f(e))
        {
          if w.Some? {
            GreaterIsStrictOrder(f(b - 1), m, f(e));
            if f(e) != NaN && !Greater(m, f(e)) {
              GreaterIsTotal(m, f(e));
            }
          } else {
            assert !Greater(f(e), NegFltMax);
            if f(e) != NaN {
              GreaterIsTotal(f(e), NegFltMax);
              GreaterIsStrictOrder(f(b - 1), NegFltMax, f(e));
            }
          }
        }
        if w.Some? {
          GreaterIsStrictOrder(f(b - 1), m, NegFltMax);
        }
      } else if w.Some? {
        assert !Greater(f(b - 1), f(w.value));
      } else {
        assert !AnyBeats(f, a, b) by {
          forall e | a <= e < b ensures !Greater(f(e), NegFltMax) {
            if e < b - 1 {
              assert !AnyBeats(f, a, b - 1);
            }
          }
        }
      }
    }
  }

  /** The conditions of IsFirstArgmax single out one candidate. */
  lemma FirstArgmaxIsUnique(f: int -> Score, a: int, b: int, c1: int, c2: int)
    requires IsFirstArgmax(f, a, b, c1) && IsFirstArgmax(f, a, b, c2)
    ensures c1 == c2
  {
  }

  /** A candidate that is skipped (NaN) does not change the scan. */
  lemma BestIndexSkipsNaN(f: int -> Score, a: int, b: int)
    requires a < b && f(b - 1) == NaN
    ensures BestIndex(f, a, b) == BestIndex(f, a, b - 1)
  {
  }
}
