/**
 * Odds arithmetic of the dashboard: American odds to profit per unit staked,
 * and the expected value of a one-unit bet given a win probability.
 * Python floats are modelled as exact reals.
 */
module Odds {

  function Abs(x: int): (r: nat)
    ensures r == x || r == -x
  {
    if x < 0 then -x else x
  }

  /**
   * Profit won on a one-unit stake at American odds `odds`.
   * Positive odds are the profit on a stake of 100; negative odds are the
   * stake that wins 100. Odds of 0 divide by zero in the source.
   */
  function AmericanToProfit(odds: int): (profit: real)
    requires odds != 0
    ensures profit > 0.0
    ensures odds > 0 ==> 100.0 * profit == odds as real
    ensures odds < 0 ==> (-odds) as real * profit == 100.0
  {
    if odds > 0 then odds as real / 100.0 else 100.0 / Abs(odds) as real
  }

  /** Expected profit of a one-unit stake that wins with probability `prob`. */
  function CalculateEv(prob: real, odds: int): (ev: real)
    requires odds != 0
    ensures ev == prob * DecimalOdds(odds) - 1.0
  {
    var profit := AmericanToProfit(odds);
    (prob * profit) - (1.0 - prob)
  }

  // ---------------------------------------------------------------
  // Reference definitions: decimal odds, implied probability, and the
  // inverse conversion from profit back to American odds.
  // ---------------------------------------------------------------

  /** Total payout (stake included) per unit staked. */
  ghost function DecimalOdds(odds: int): real
    requires odds != 0
  {
    if odds < 0 then 1.0 + 100.0 / (-odds) as real else 1.0 + odds as real / 100.0
  }

  /** The break-even win probability priced into the odds. */
  ghost function ImpliedProbability(odds: int): real
    requires odds != 0
  {
    1.0 / DecimalOdds(odds)
  }

  /** American odds quoted for a given profit per unit, as books write them. */
  ghost function ProfitToAmerican(profit: real): real
    requires profit > 0.0
  {
    if profit >= 1.0 then 100.0 * profit else -100.0 / profit
  }

  /**
   * On the odds books actually quote (at least +100, or below -100) the
   * profit determines the odds again. (+100 and -100 both mean even money,
   * so -100 is read back as +100.)
   */
  lemma AmericanRoundTrip(odds: int)
    requires odds >= 100 || odds < -100
    ensures ProfitToAmerican(AmericanToProfit(odds)) == odds as real
  {
    var profit := AmericanToProfit(odds);
    if odds < 0 {
      assert profit < 1.0 by {
        assert (-odds) as real * profit == 100.0;
        assert (-odds) as real > 100.0;
      }
      assert -100.0 / profit == odds as real by {
        assert odds as real * profit == -100.0;
      }
    }
  }

  /** Underdog odds (+100 and up) pay at least even money; favourite odds at most. */
  lemma ProfitVersusEvenMoney(odds: int)
    requires odds != 0
    ensures odds > 0 ==> (AmericanToProfit(odds) >= 1.0 <==> odds >= 100)
    ensures odds < 0 ==> (AmericanToProfit(odds) <= 1.0 <==> odds <= -100)
  {
    var profit := AmericanToProfit(odds);
    if odds < 0 {
      assert (-odds) as real * profit == 100.0;
      if profit <= 1.0 {
        var stake := (-odds) as real;
        assert stake * profit <= stake * 1.0;
      }
    }
  }

  /** A sure loss costs the stake; a sure win pays the profit. */
  lemma EvEndpoints(odds: int)
    requires odds != 0
    ensures CalculateEv(0.0, odds) == -1.0
    ensures CalculateEv(1.0, odds) == AmericanToProfit(odds)
  {
  }

  /** EV is strictly increasing in the win probability. */
  lemma EvStrictlyIncreasing(p: real, q: real, odds: int)
    requires odds != 0
    requires p < q
    ensures CalculateEv(p, odds) < CalculateEv(q, odds)
  {
    var d := DecimalOdds(odds);
    assert d > 1.0;
    assert q * d - p * d == (q - p) * d;
  }

  /** The implied probability of any valid odds lies strictly between 0 and 1. */
  lemma ImpliedProbabilityBounds(odds: int)
    requires odds != 0
    ensures 0.0 < ImpliedProbability(odds) < 1.0
  {
    assert DecimalOdds(odds) == 1.0 + AmericanToProfit(odds);
  }

  /**
   * A bet breaks even exactly at the implied probability, and has positive
   * EV exactly above it.
   */
  lemma EvSignMatchesImpliedProbability(p: real, odds: int)
    requires odds != 0
    ensures CalculateEv(p, odds) == 0.0 <==> p == ImpliedProbability(odds)
    ensures CalculateEv(p, odds) > 0.0 <==> p > ImpliedProbability(odds)
  {
    var d := DecimalOdds(odds);
    assert d > 1.0 by { assert d == 1.0 + AmericanToProfit(odds); }
    var ip := ImpliedProbability(odds);
    assert ip * d == 1.0;
    assert CalculateEv(p, odds) == (p - ip) * d;
  }

  /** The standard -110 price: break-even at 11/21 (about 0.5238), losing at 0.45. */
  lemma StandardJuice()
    ensures AmericanToProfit(-110) == 10.0 / 11.0
    ensures ImpliedProbability(-110) == 11.0 / 21.0
    ensures CalculateEv(11.0 / 21.0, -110) == 0.0
    ensures CalculateEv(0.45, -110) < 0.0
  {
    EvSignMatchesImpliedProbability(11.0 / 21.0, -110);
  }
}
