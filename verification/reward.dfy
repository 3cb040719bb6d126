/** The reward screen: a one-to-three star rating and a rounded score
    from the number of passed cards out of the total. Percentages are
    exact rationals. */
module Reward {
  /** `passedCards / totalCards`, or 0 without cards. */
  function Percentage(passed: nat, total: nat): (p: real)
    ensures total == 0 ==> p == 0.0
    ensures total > 0 ==> p * total as real == passed as real
    ensures p >= 0.0
  {
    if total > 0 then passed as real / total as real else 0.0
  }

  /** Three stars for a full pass, two from 70 %, otherwise one. */
  function Stars(passed: nat, total: nat): (s: nat)
    ensures 1 <= s <= 3
  {
    var p := Percentage(passed, total);
    if p >= 1.0 then 3 else if p >= 0.7 then 2 else 1
  }

  /** Comparing a quotient `x / t` with a bound is comparing `x` with the
      bound scaled by the same positive `t`. */
  lemma ScaledCompare(p: real, t: real, x: real, c: real)
    requires t > 0.0 && p * t == x
    ensures p >= c <==> x >= c * t
  {
    if p >= c {
      assert (p - c) * t >= 0.0;
    } else {
      assert (c - p) * t > 0.0;
    }
  }

  /** Three stars exactly when there are cards and all of them (or more)
      are passed. */
  lemma ThreeStarsIff(passed: nat, total: nat)
    ensures Stars(passed, total) == 3 <==> total > 0 && passed >= total
  {
    if total > 0 {
      ScaledCompare(Percentage(passed, total), total as real, passed as real, 1.0);
    }
  }

  /** Two stars exactly when at least 70 % but not all cards are passed. */
  lemma TwoStarsIff(passed: nat, total: nat)
    ensures Stars(passed, total) == 2 <==> total > 0 && 10 * passed >= 7 * total && passed < total
  {
    ThreeStarsIff(passed, total);
    if total > 0 {
      ScaledCompare(Percentage(passed, total), total as real, passed as real, 0.7);
      assert passed as real >= 0.7 * total as real <==> 10 * passed >= 7 * total;
    }
  }

  /** No cards means no progress: one star. */
  lemma NoCardsOneStar(passed: nat)
    ensures Percentage(passed, 0) == 0.0
    ensures Stars(passed, 0) == 1
  {
  }

  /** For a fixed total, passing more cards never costs a star. */
  lemma StarsMonotone(a: nat, b: nat, total: nat)
    requires a <= b
    ensures Stars(a, total) <= Stars(b, total)
  {
    ThreeStarsIff(a, total);
    ThreeStarsIff(b, total);
    TwoStarsIff(a, total);
    TwoStarsIff(b, total);
  }

  /** `Math.round(percentage * 100)`: the whole percent nearest to the
      percentage, halves rounded up. */
  function ScorePercent(passed: nat, total: nat): (r: int)
    ensures total == 0 ==> r == 0
    ensures total > 0 ==> 2 * total * r - total <= 200 * passed < 2 * total * r + total
    ensures passed <= total ==> 0 <= r <= 100
  {
    if total > 0 then (200 * passed + total) / (2 * total) else 0
  }
}
