/**
 * The exploration policy: the greedy action over a row of estimates after a
 * small random perturbation has been added to each of them. The perturbation
 * for one decision is one draw in [0, 1) per action, divided by the square of
 * the (1-based) episode number, so it shrinks quadratically as training goes on.
 */
module Policy {
  import opened ValueTable

  /** The factor 1 / episode^2 that scales the draws of episode `episode`. */
  function NoiseScale(episode: nat): (c: real)
    requires episode >= 1
    ensures 0.0 < c <= 1.0
  {
    1.0 / ((episode as real) * (episode as real))
  }

  /** Every draw of the injected random source lies in [0, 1). */
  predicate UnitDraws(draws: seq<real>)
  {
    forall j :: 0 <= j < |draws| ==> 0.0 <= draws[j] < 1.0
  }

  /** The row of estimates with each draw, scaled by 1 / episode^2, added to its entry. */
  function NoisyRow(row: seq<real>, draws: seq<real>, episode: nat): (p: seq<real>)
    requires |draws| == |row| && episode >= 1
    ensures |p| == |row|
  {
    seq(|row|, j requires 0 <= j < |row| => row[j] + draws[j] * NoiseScale(episode))
  }

  /** With draws in [0, 1), the noise lifts each entry by less than 1 / episode^2. */
  lemma NoiseBelowScale(row: seq<real>, draws: seq<real>, episode: nat)
    requires |draws| == |row| && episode >= 1 && UnitDraws(draws)
    ensures forall j :: 0 <= j < |row| ==>
              row[j] <= NoisyRow(row, draws, episode)[j] < row[j] + NoiseScale(episode)
  {
    var c := NoiseScale(episode);
    forall j | 0 <= j < |row|
      ensures row[j] <= NoisyRow(row, draws, episode)[j] < row[j] + c
    {
      ScaledDrawBelowScale(draws[j], c);
    }
  }

  /** A draw in [0, 1) scaled by a positive c lies in [0, c). */
  lemma ScaledDrawBelowScale(x: real, c: real)
    requires 0.0 < c
    ensures 0.0 <= x < 1.0 ==> 0.0 <= x * c < c
  {
    if 0.0 <= x < 1.0 {
      NonNegativeProduct(x, c);
      NonNegativeProduct(1.0 - x, c);
      assert (1.0 - x) * c == c - x * c;
      assert (1.0 - x) * c != 0.0;
    }
  }

  /** The action chosen at one decision: the first maximum of the perturbed row. */
  function SelectAction(row: seq<real>, draws: seq<real>, episode: nat): (a: nat)
    requires |row| > 0 && |draws| == |row| && episode >= 1
    ensures a < |row|
    ensures var p := NoisyRow(row, draws, episode);
            (forall j :: 0 <= j < |row| ==> p[j] <= p[a]) && (forall j :: 0 <= j < a ==> p[j] < p[a])
  {
    ArgMaxIsFirstMaximum(NoisyRow(row, draws, episode));
    ArgMax(NoisyRow(row, draws, episode))
  }

  /**
   * The noise cannot overturn a clear leader: if the estimate of action `a`
   * exceeds every other estimate of the row by at least 1 / episode^2, the
   * policy picks `a` whatever the draws in [0, 1) are.
   */
  lemma NoiseCannotOvertakeLeader(row: seq<real>, draws: seq<real>, episode: nat, a: nat)
    requires |row| > 0 && |draws| == |row| && episode >= 1 && UnitDraws(draws)
    requires a < |row|
    requires forall b :: 0 <= b < |row| && b != a ==> row[b] + NoiseScale(episode) <= row[a]
    ensures SelectAction(row, draws, episode) == a
  {
    var p := NoisyRow(row, draws, episode);
    NoiseBelowScale(row, draws, episode);
    forall b | 0 <= b < |row| && b != a
      ensures p[b] < p[a]
    {
      assert p[b] < row[b] + NoiseScale(episode) <= row[a];
    }
    ArgMaxIsUnique(p, a);
  }

  /** With equal estimates and equal draws the lowest action, 0, is chosen. */
  lemma UniformRowPicksFirstAction(row: seq<real>, draws: seq<real>, episode: nat)
    requires |row| > 0 && |draws| == |row| && episode >= 1
    requires forall j :: 0 <= j < |row| ==> row[j] == row[0] && draws[j] == draws[0]
    ensures SelectAction(row, draws, episode) == 0
  {
    var p := NoisyRow(row, draws, episode);
    assert forall j :: 0 <= j < |p| ==> p[j] == p[0];
    ArgMaxOfConstantRow(p);
  }

  /** The noise bound shrinks strictly from one episode to any later one. */
  lemma NoiseScaleDecreases(e1: nat, e2: nat)
    requires 1 <= e1 < e2
    ensures NoiseScale(e2) < NoiseScale(e1)
  {
    var x1, x2 := e1 as real, e2 as real;
    var a1, a2 := x1 * x1, x2 * x2;
    assert a1 < a2 by {
      NonNegativeProduct(x2 - x1, x1);
      NonNegativeProduct(x2 - x1, x2);
      assert a2 - a1 == (x2 - x1) * x1 + (x2 - x1) * x2;
      assert (x2 - x1) * x2 != 0.0;
    }
    var c1, c2 := NoiseScale(e1), NoiseScale(e2);
    assert c1 * a1 == 1.0 && c2 * a2 == 1.0;
    if c1 <= c2 {
      NonNegativeProduct(c2 - c1, a2);
      assert false;
    }
  }
}
