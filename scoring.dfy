/** The two pure pieces of the score display: the floor that `setScore`
    applies before storing a value, and the percentage that
    `updateScoreBar` derives from the stored score. */
module Scoring {

  /** The score at which the score bar is drawn full. */
  const BarMaxScore: int := 30

  /** `Math.max(0, val)`: the value `setScore` stores. The result is the
      least non-negative value not below `val`. */
  function Clamp(val: int): (r: int)
    ensures r >= 0 && r >= val
    ensures r == val || r == 0
  {
    if val < 0 then 0 else val
  }

  /** `Math.min(100, Math.round(score / 30 * 100))`. `Math.round(x)` is
      `floor(x + 1/2)`, so with `x = 10 * score / 3` the rounded value is
      `floor((20 * score + 3) / 6)`; Dafny's `/` by a positive divisor is
      that floor. Below the cap, `r` percent of 30 lies within half a
      percent of the score. */
  function ScoreBarPercent(score: int): (r: int)
    ensures r <= 100
    ensures score >= BarMaxScore ==> r == 100
    ensures score < BarMaxScore ==> 30 * r - 15 <= 100 * score < 30 * r + 15
    ensures score >= 0 ==> r >= 0
  {
    var rounded := (20 * score + 3) / 6;
    if rounded < 100 then rounded else 100
  }

  /** For every score `setScore` can store, the bar shows 0..100 percent and
      is full exactly from 30 points on. */
  lemma ScoreBarFullExactly(score: int)
    requires score >= 0
    ensures 0 <= ScoreBarPercent(score) <= 100
    ensures ScoreBarPercent(score) == 100 <==> score >= BarMaxScore
  {
  }

  /** A higher score never shows a shorter bar. */
  lemma ScoreBarMonotone(a: int, b: int)
    requires a <= b
    ensures ScoreBarPercent(a) <= ScoreBarPercent(b)
  {
  }
}
