/** The game's arithmetic: points for a submitted form, the "correct form"
    threshold, when a level is reached, the piggy bonuses and the rating shown
    when time runs out. */
module Scoring {

  function Max(a: int, b: int): int
  {
    if a >= b then a else b
  }

  /** The quotient of a floor division lies between the bounds that define
      it. */
  lemma FloorDivision(n: nat, d: nat)
    requires d > 0
    ensures (n / d) * d <= n < (n / d + 1) * d
  {
  }

  /** A positive factor can be cancelled from a strict inequality. */
  lemma CancelFactor(q: int, k: int, d: int)
    requires d > 0 && q * d < k * d
    ensures q < k
  {
  }

  /** A quotient below `k` for a dividend below `k` times the divisor. */
  lemma QuotientBelow(n: nat, d: nat, k: nat)
    requires d > 0 && n < k * d
    ensures n / d < k
  {
    var q := n / d;
    assert q * d <= n by { FloorDivision(n, d); }
    CancelFactor(q, k, d);
  }

  /** Dividing a multiple of `d` by `d` is exact. */
  lemma ExactQuotient(k: nat, d: nat)
    requires d > 0
    ensures (k * d) / d == k
  {
    FloorDivision(k * d, d);
    CancelFactor((k * d) / d, k + 1, d);
    CancelFactor(k, (k * d) / d + 1, d);
  }

  const BaseScore := 100
  const AccuracyBonusMax := 50

  /** `50 * correct / scored` for `correct <= scored` lies between 0 and 50
      and reaches 50 only when every compared field is right. */
  lemma BonusQuotient(correct: nat, scored: nat)
    requires 0 < scored && correct <= scored
    ensures var b := AccuracyBonusMax * correct / scored;
      && b * scored <= AccuracyBonusMax * correct < (b + 1) * scored
      && b <= AccuracyBonusMax
      && (b == AccuracyBonusMax <==> correct == scored)
  {
    FloorDivision(AccuracyBonusMax * correct, scored);
    if correct < scored {
      assert AccuracyBonusMax * correct < AccuracyBonusMax * scored;
      QuotientBelow(AccuracyBonusMax * correct, scored, AccuracyBonusMax);
    } else {
      ExactQuotient(AccuracyBonusMax, scored);
    }
  }

  /** The accuracy bonus `Math.floor(accuracy * 50)` for `correct` right out
      of `scored` compared fields (accuracy 0 when nothing was compared). */
  function AccuracyBonus(correct: nat, scored: nat): (b: nat)
    requires correct <= scored
    ensures b <= AccuracyBonusMax
    ensures scored > 0 ==> b * scored <= AccuracyBonusMax * correct < (b + 1) * scored
    ensures b == AccuracyBonusMax <==> scored > 0 && correct == scored
  {
    if scored > 0 then
      BonusQuotient(correct, scored);
      AccuracyBonusMax * correct / scored
    else 0
  }

  /** The speed bonus `Math.floor(Math.max(0, timeLeft * 2))`. */
  function SpeedBonus(timeLeft: int): nat
  {
    Max(0, 2 * timeLeft)
  }

  /** The points one submitted form earns. */
  function FormPoints(correct: nat, scored: nat, timeLeft: int): (p: int)
    requires correct <= scored
  {
    BaseScore + AccuracyBonus(correct, scored) + SpeedBonus(timeLeft)
  }

  /** Every submission earns between 100 and 150 points plus the speed
      bonus; the top is reached exactly when every compared field is right. */
  lemma FormPointsBounds(correct: nat, scored: nat, timeLeft: int)
    requires correct <= scored
    ensures 100 + Max(0, 2 * timeLeft) <= FormPoints(correct, scored, timeLeft) <= 150 + Max(0, 2 * timeLeft)
    ensures FormPoints(correct, scored, timeLeft) == 150 + Max(0, 2 * timeLeft) <==> scored > 0 && correct == scored
  {
  }

  /** A perfect form with 30 seconds left earns 100 + 50 + 60 = 210 points. */
  lemma PerfectFormExample(fields: nat)
    requires fields > 0
    ensures FormPoints(fields, fields, 30) == 210
  {
  }

  /** `accuracy >= 0.8`: at least four fifths of the compared fields are
      right (and at least one field was compared). */
  predicate CountsAsCorrect(correct: nat, scored: nat)
  {
    scored > 0 && 5 * correct >= 4 * scored
  }

  /** The level is raised once the game-wide count of submitted forms
      reaches twice the current level. */
  predicate LevelUpDue(formsCompleted: int, level: int)
  {
    formsCompleted >= level * 2
  }

  const LevelUpBonusSeconds := 10

  /** The percentage on the game-over screen:
      `Math.round(correctForms / formsCompleted * 100)`, 0 before any form. */
  function GameOverAccuracy(correctForms: nat, formsCompleted: nat): (pct: nat)
    requires correctForms <= formsCompleted
    ensures pct <= 100
    ensures formsCompleted > 0 ==>
      2 * pct * formsCompleted <= 200 * correctForms + formsCompleted < 2 * (pct + 1) * formsCompleted
  {
    if formsCompleted > 0 then
      FloorDivision(200 * correctForms + formsCompleted, 2 * formsCompleted);
      QuotientBelow(200 * correctForms + formsCompleted, 2 * formsCompleted, 101);
      (200 * correctForms + formsCompleted) / (2 * formsCompleted)
    else 0
  }

  datatype Rating = NeedsPractice | TaxApprentice | TaxProfessional | TaxExpert
  {
    function Rank(): nat
    {
      match this
      case NeedsPractice => 0
      case TaxApprentice => 1
      case TaxProfessional => 2
      case TaxExpert => 3
    }
  }

  /** The rating shown at game over; the thresholds are checked from the
      top. */
  function RatingFor(accuracy: int, score: int): Rating
  {
    if accuracy >= 90 && score >= 1000 then TaxExpert
    else if accuracy >= 70 && score >= 500 then TaxProfessional
    else if accuracy >= 50 && score >= 200 then TaxApprentice
    else NeedsPractice
  }

  /** A better accuracy and a higher score never earn a lower rating. */
  lemma RatingMonotonic(acc1: int, score1: int, acc2: int, score2: int)
    requires acc1 <= acc2 && score1 <= score2
    ensures RatingFor(acc1, score1).Rank() <= RatingFor(acc2, score2).Rank()
  {
  }

  /** What clicking a piggy adds. */
  datatype Bonus = Bonus(points: nat, seconds: nat)

  /** The piggy bonus table; an unknown piggy counts as the penny piggy. */
  function PiggyBonus(piggyId: string): (b: Bonus)
    ensures 15 <= b.points <= 50 && 2 <= b.seconds <= 8
  {
    if piggyId == "beach-piggy" then Bonus(15, 2)
    else if piggyId == "business-piggy" then Bonus(35, 5)
    else if piggyId == "party-piggy" then Bonus(50, 8)
    else Bonus(25, 3)
  }
}
