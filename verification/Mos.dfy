/**
 The mean opinion score of `getMOS` (plivo_app_callback.cpp:1188-1219): latency and loss give a
 transmission rating R, and R gives a score by the cubic of Annex B of ITU-T G.107, here with the
 program's coefficient 7.10e-6. Floats are exact reals.
 */
module Mos {

  /** The rating before loss: one slope up to a latency of 160, a steeper one beyond. */
  function Rating(latency: real): real {
    if latency < 160.0 then 93.2 - latency / 40.0 else 93.2 - (latency - 120.0) / 10.0
  }

  function Cubic(r: real): real {
    1.0 + 0.035 * r + 0.0000071 * r * (r - 60.0) * (100.0 - r)
  }

  function Score(r: real): real {
    if r <= 0.0 then 1.0 else if r > 100.0 then 4.5 else Cubic(r)
  }

  /** Microseconds of round trip and milliseconds of jitter, as one delay. */
  function Latency(rttLast: nat, jitter: real): real {
    rttLast as real / 2000.0 + jitter * 2.0 + 10.0
  }

  /** Local jitter counts only above 20 ms; remote jitter counts whole. */
  function LocalJitter(jitterLast: nat): real {
    var ms := jitterLast as real / 1000.0;
    if ms <= 20.0 then 0.0 else ms - 20.0
  }

  function RemoteJitter(jitterLast: nat): real {
    jitterLast as real / 1000.0
  }

  function RFactor(rttLast: nat, jitter: real, loss: real): real {
    Rating(Latency(rttLast, jitter)) - 250.0 * loss
  }

  /** The body of `getMOS` once jitter and loss are known. */
  method ComputeMos(rttLast: nat, jitter: real, fractionLoss: real) returns (mos: real)
    ensures mos == Score(RFactor(rttLast, jitter, fractionLoss))
  {
    var r: real;
    var effectiveLatency := rttLast as real / 2000.0 + jitter * 2.0 + 10.0;
    if effectiveLatency < 160.0 {
      r := 93.2 - effectiveLatency / 40.0;
    } else {
      r := 93.2 - (effectiveLatency - 120.0) / 10.0;
    }
    r := r - 100.0 * fractionLoss * 2.5;
    if r <= 0.0 {
      mos := 1.0;
    } else if r > 100.0 {
      mos := 4.5;
    } else {
      mos := 1.0 + 0.035 * r + 7.10 / 1000000.0 * r * (r - 60.0) * (100.0 - r);
    }
  }

  // ----- the rating

  /** Between two latencies the rating falls by at least a fortieth and at most a tenth of the gap: no jump at 160. */
  lemma RatingFalls(a: real, b: real)
    requires a <= b
    ensures (b - a) / 40.0 <= Rating(a) - Rating(b) <= (b - a) / 10.0
  {
  }

  /** Delay and loss are never negative, so the rating stays well under 100. */
  lemma RatingBound(rttLast: nat, jitter: real, loss: real)
    requires jitter >= 0.0 && loss >= 0.0
    ensures RFactor(rttLast, jitter, loss) <= 92.95
  {
  }

  // ----- the cubic

  /** The slope of the cubic between two ratings, times ten million. */
  function Slope(a: real, b: real): real {
    350000.0 + 71.0 * (160.0 * (a + b) - (a * a + a * b + b * b) - 6000.0)
  }

  lemma CubicDifference(a: real, b: real)
    ensures (Cubic(b) - Cubic(a)) * 10000000.0 == (b - a) * Slope(a, b)
  {
    var a2, b2, ab := a * a, b * b, a * b;
    assert Cubic(a) * 10000000.0 == 10000000.0 + 350000.0 * a + 71.0 * (160.0 * a2 - a2 * a - 6000.0 * a) by {
      Expand(a);
    }
    assert Cubic(b) * 10000000.0 == 10000000.0 + 350000.0 * b + 71.0 * (160.0 * b2 - b2 * b - 6000.0 * b) by {
      Expand(b);
    }
    assert (b - a) * (a2 + ab + b2) == b2 * b - a2 * a;
    assert (b - a) * (a + b) == b2 - a2;
    assert (b - a) * Slope(a, b)
        == 350000.0 * (b - a) + 71.0 * (160.0 * ((b - a) * (a + b)) - (b - a) * (a2 + ab + b2) - 6000.0 * (b - a));
  }

  lemma Expand(r: real)
    ensures Cubic(r) * 10000000.0 == 10000000.0 + 350000.0 * r + 71.0 * (160.0 * (r * r) - r * r * r - 6000.0 * r)
  {
    assert r * (r - 60.0) * (100.0 - r) == 160.0 * (r * r) - r * r * r - 6000.0 * r;
  }

  lemma SlopeFrom(u: real, v: real)
    ensures Slope(3.5 + u, 3.5 + v) == 910.75 + 71.0 * (149.5 * (u + v) - (u * u + u * v + v * v))
  {
    assert (3.5 + u) * (3.5 + u) == 12.25 + 7.0 * u + u * u;
    assert (3.5 + v) * (3.5 + v) == 12.25 + 7.0 * v + v * v;
    assert (3.5 + u) * (3.5 + v) == 12.25 + 3.5 * u + 3.5 * v + u * v;
  }

  lemma AtMost(x: real, y: real, c: real)
    requires 0.0 <= x && y <= c
    ensures x * y <= c * x
  {
  }

  lemma SquaresBelow(u: real, v: real, uu: real, uv: real, vv: real)
    requires 0.0 <= u <= v && uu <= 89.45 * u && uv <= 89.45 * u && vv <= 89.45 * v
    ensures uu + uv + vv <= 149.5 * (u + v)
  {
  }

  lemma ProductsBelow(u: real, v: real)
    requires 0.0 <= u <= v <= 89.45
    ensures u * u <= 89.45 * u && u * v <= 89.45 * u && v * v <= 89.45 * v
  {
    AtMost(u, u, 89.45);
    AtMost(u, v, 89.45);
    AtMost(v, v, 89.45);
  }

  lemma QuadraticBelow(u: real, v: real)
    requires 0.0 <= u <= v <= 89.45
    ensures u * u + u * v + v * v <= 149.5 * (u + v)
  {
    ProductsBelow(u, v);
    SquaresBelow(u, v, u * u, u * v, v * v);
  }

  lemma SlopePositiveFrom(u: real, v: real)
    requires 0.0 <= u <= v <= 89.45
    ensures Slope(3.5 + u, 3.5 + v) > 0.0
  {
    QuadraticBelow(u, v);
    SlopeFrom(u, v);
  }

  /** From a rating of 3.5 up to 92.95 the cubic rises. */
  lemma CubicRises(a: real, b: real)
    requires 3.5 <= a <= b <= 92.95
    ensures Cubic(a) <= Cubic(b)
  {
    if a < b {
      CubicDifference(a, b);
      SlopePositiveFrom(a - 3.5, b - 3.5);
      assert 3.5 + (a - 3.5) == a && 3.5 + (b - 3.5) == b;
      Sign(b - a, Slope(a, b));
    }
  }

  lemma Sign(x: real, y: real)
    requires x > 0.0
    ensures x * y >= 0.0 <==> y >= 0.0
  {
  }

  // ----- the dip below 1

  /** Positive exactly where the cubic is under 1. */
  function Dip(r: real): real {
    71.0 * (r * r - 160.0 * r + 6000.0) - 350000.0
  }

  lemma CubicAgainstOne(r: real)
    ensures (Cubic(r) - 1.0) * 10000000.0 == -(r * Dip(r))
  {
    Expand(r);
    assert r * Dip(r) == 71.0 * (r * r * r - 160.0 * (r * r) + 6000.0 * r) - 350000.0 * r;
  }

  /** A score under 1 is given exactly on the ratings above 0 whose dip is positive. */
  lemma UnderOneExactly(r: real)
    requires r <= 100.0
    ensures Score(r) < 1.0 <==> 0.0 < r && Dip(r) > 0.0
  {
    if r > 0.0 {
      CubicAgainstOne(r);
      Sign(r, -Dip(r));
    }
  }

  /** The dip ends between 6.99 and 7. */
  lemma DipEnds(r: real)
    requires 0.0 < r <= 100.0
    ensures r <= 6.99 ==> Score(r) < 1.0
    ensures r >= 7.0 ==> Score(r) >= 1.0
  {
    UnderOneExactly(r);
    if r <= 6.99 {
      assert r * r - 160.0 * r + 6000.0 == 4930.4601 + (6.99 - r) * (153.01 - r);
      Sign(153.01 - r, 6.99 - r);
    } else if r >= 7.0 {
      assert r * r - 160.0 * r + 6000.0 == 4929.0 - (r - 7.0) * (153.0 - r);
      Sign(153.0 - r, r - 7.0);
    }
  }

  lemma DipProducts(r: real)
    requires 0.0 < r <= 7.0
    ensures r * r >= 7.0 * r - 12.25 && 0.0 <= r * r <= 7.0 * r && 0.0 <= r * r * r <= 7.0 * (r * r)
  {
    var d := r - 3.5;
    assert d * d >= 0.0;
    AtMost(r, r, 7.0);
    AtMost(r * r, r, 7.0);
  }

  lemma DipBound(r: real, rr: real, rrr: real)
    requires 0.0 < r <= 7.0 && rr >= 7.0 * r - 12.25 && 0.0 <= rr <= 7.0 * r && 0.0 <= rrr <= 7.0 * rr
    ensures -200000.0 <= 350000.0 * r + 71.0 * (160.0 * rr - rrr - 6000.0 * r) <= 2500000.0
  {
  }

  /** How deep the dip goes. */
  lemma DipDepth(r: real)
    requires 0.0 < r <= 7.0
    ensures 0.98 <= Cubic(r) <= 1.25
  {
    Expand(r);
    DipProducts(r);
    DipBound(r, r * r, r * r * r);
  }

  /** Every score given for a rating that delay and loss can produce. */
  lemma ScoreRange(r: real)
    requires r <= 92.95
    ensures 0.98 <= Score(r) <= 4.41
  {
    if 0.0 < r <= 7.0 {
      DipDepth(r);
    } else if r > 7.0 {
      DipEnds(r);
      CubicRises(r, 92.95);
    }
  }

  /** For all non-negative round trip, jitter and loss: 4.5 is never given, and the score stays in its range. */
  lemma MosRange(rttLast: nat, jitter: real, loss: real)
    requires jitter >= 0.0 && loss >= 0.0
    ensures var r := RFactor(rttLast, jitter, loss);
            r <= 100.0 && 0.98 <= Score(r) <= 4.41 && (r <= 0.0 || r >= 7.0 ==> Score(r) >= 1.0)
  {
    var r := RFactor(rttLast, jitter, loss);
    RatingBound(rttLast, jitter, loss);
    ScoreRange(r);
    if r >= 7.0 { DipEnds(r); }
  }

  // ----- order

  lemma WorseRating(rtt: nat, jitter: real, loss: real, rtt': nat, jitter': real, loss': real)
    requires rtt <= rtt' && jitter <= jitter' && loss <= loss'
    ensures RFactor(rtt', jitter', loss') <= RFactor(rtt, jitter, loss)
  {
    RatingFalls(Latency(rtt, jitter), Latency(rtt', jitter'));
  }

  /** Over all pairs of ratings: when the lower one scores no higher. */
  lemma LowerPair(a: real, b: real)
    requires a < b <= 100.0
    ensures Score(a) <= Score(b)
       <==> if a > 0.0 then Slope(a, b) >= 0.0 else b <= 0.0 || Dip(b) <= 0.0
  {
    if a > 0.0 {
      CubicDifference(a, b);
      Sign(b - a, Slope(a, b));
    } else {
      UnderOneExactly(b);
    }
  }

  /** Positive where the cubic falls. */
  function Falling(r: real): real {
    71.0 * (3.0 * r * r - 320.0 * r + 6000.0) - 350000.0
  }

  /** The cubic stops falling between 3.45 and 3.46, and does not fall again before 92.95. */
  lemma FallEnds(r: real)
    requires r <= 92.95
    ensures r <= 3.45 ==> Falling(r) > 0.0
    ensures r >= 3.46 ==> Falling(r) <= 0.0
  {
    if r <= 3.45 {
      assert 3.0 * r * r - 320.0 * r + 6000.0 == 4931.7075 + (3.45 - r) * (309.65 - 3.0 * r);
      Sign(309.65 - 3.0 * r, 3.45 - r);
    } else if r >= 3.46 {
      assert 3.0 * r * r - 320.0 * r + 6000.0 == 4928.7148 - (r - 3.46) * (309.62 - 3.0 * r);
      Sign(309.62 - 3.0 * r, r - 3.46);
    }
  }

  lemma SlopeAndFall(a: real, b: real)
    ensures Slope(a, b) == 71.0 * ((b - a) * (160.0 - b - 2.0 * a)) - Falling(a)
  {
    assert (b - a) * (160.0 - b - 2.0 * a) == 160.0 * (b - a) - b * b - a * b + 2.0 * (a * a);
  }

  /** From where the cubic no longer falls, every higher rating scores at least as much. */
  lemma ScoresFrom(a: real, b: real)
    requires 0.0 < a < b <= 92.95 && Falling(a) <= 0.0
    ensures Score(a) <= Score(b)
  {
    if a >= 3.5 {
      CubicRises(a, b);
    } else {
      SlopeAndFall(a, b);
      Sign(b - a, 160.0 - b - 2.0 * a);
      LowerPair(a, b);
    }
  }

  lemma FallingBound(r: real)
    requires 0.0 < r < 3.46
    ensures Falling(r) <= 76000.0
  {
    assert 3.0 * r * r - 320.0 * r == -(r * (320.0 - 3.0 * r));
    Sign(r, 320.0 - 3.0 * r);
  }

  /** A step short enough that the slope keeps half the fall it starts with. */
  lemma SlopeOfStep(a: real, step: real)
    requires 0.0 < a && 0.0 < step && 22720.0 * step == Falling(a)
    ensures Slope(a, a + step) < 0.0
  {
    var rest := 160.0 - (a + step) - 2.0 * a;
    SlopeAndFall(a, a + step);
    assert step * rest <= 160.0 * step by { AtMost(step, rest, 160.0); }
    assert (a + step) - a == step;
  }

  /** Where the cubic falls, some higher rating scores less. */
  lemma LowerScoreAbove(a: real) returns (b: real)
    requires a <= 92.95 && (a <= 0.0 || Falling(a) > 0.0)
    ensures a < b <= 92.95 && Score(b) < Score(a)
  {
    if a <= 0.0 {
      b := 3.0;
      DipEnds(b);
    } else {
      FallEnds(a);
      FallingBound(a);
      var step := Falling(a) / 22720.0;
      SlopeOfStep(a, step);
      b := a + step;
      LowerPair(a, b);
    }
  }

  /** Exactly from which rating on no better connection is given a lower score. */
  lemma LowerScoresNoHigherExactly(a: real)
    requires a <= 92.95
    ensures (forall b :: a < b <= 92.95 ==> Score(a) <= Score(b)) <==> a > 0.0 && Falling(a) <= 0.0
  {
    if a > 0.0 && Falling(a) <= 0.0 {
      forall b | a < b <= 92.95 ensures Score(a) <= Score(b) {
        ScoresFrom(a, b);
      }
    } else {
      var b := LowerScoreAbove(a);
      assert Score(b) < Score(a);
    }
  }

  /** A connection worse in every respect scores no higher, as long as its rating is at least 3.46. */
  lemma WorseScoresNoHigher(rtt: nat, jitter: real, loss: real, rtt': nat, jitter': real, loss': real)
    requires 0.0 <= jitter <= jitter' && 0.0 <= loss <= loss' && rtt <= rtt'
    requires RFactor(rtt', jitter', loss') >= 3.46
    ensures Score(RFactor(rtt', jitter', loss')) <= Score(RFactor(rtt, jitter, loss))
  {
    WorseRating(rtt, jitter, loss, rtt', jitter', loss');
    RatingBound(rtt, jitter, loss);
    FallEnds(RFactor(rtt', jitter', loss'));
    LowerScoresNoHigherExactly(RFactor(rtt', jitter', loss'));
  }

  /** Without the bound on the rating it fails: more loss, higher score. */
  lemma MoreLossHigherScore()
    ensures Score(RFactor(0, 0.0, 0.372)) > Score(RFactor(0, 0.0, 0.36))
  {
    assert RFactor(0, 0.0, 0.372) == -0.05;
    assert RFactor(0, 0.0, 0.36) == 2.95;
    DipEnds(2.95);
  }

  /** From a rating of 3.5 up to 92.95 a higher rating scores strictly more. */
  lemma ScoreRises(a: real, b: real)
    ensures 3.5 <= a < b <= 92.95 ==> Score(a) < Score(b)
  {
    if 3.5 <= a < b <= 92.95 {
      CubicDifference(a, b);
      SlopePositiveFrom(a - 3.5, b - 3.5);
      assert 3.5 + (a - 3.5) == a && 3.5 + (b - 3.5) == b;
      assert (b - a) * Slope(a, b) > 0.0;
    }
  }

  // ----- what the rating responds to

  /** Without delay and loss. */
  lemma RatingAtRest()
    ensures RFactor(0, 0.0, 0.0) == 92.95
  {
  }

  /**
   Each microsecond of round trip costs at least an 80000th and at most a 20000th: the first while
   half the round trip in ms, twice the jitter and 10 stay within 160, the second from there on.
   */
  lemma RttResponse(rtt: nat, rtt': nat, jitter: real, loss: real)
    requires rtt <= rtt'
    ensures var fall, gap := RFactor(rtt, jitter, loss) - RFactor(rtt', jitter, loss), (rtt' - rtt) as real;
            gap / 80000.0 <= fall <= gap / 20000.0 &&
            (rtt' as real / 2000.0 + 2.0 * jitter + 10.0 <= 160.0 ==> fall == gap / 80000.0) &&
            (rtt as real / 2000.0 + 2.0 * jitter + 10.0 >= 160.0 ==> fall == gap / 20000.0)
  {
    RatingFalls(Latency(rtt, jitter), Latency(rtt', jitter));
  }

  /** Each ms of jitter costs at least a 20th and at most a 5th, split at the same point. */
  lemma JitterResponse(rtt: nat, jitter: real, jitter': real, loss: real)
    requires jitter <= jitter'
    ensures var fall, gap := RFactor(rtt, jitter, loss) - RFactor(rtt, jitter', loss), jitter' - jitter;
            gap / 20.0 <= fall <= gap / 5.0 &&
            (rtt as real / 2000.0 + 2.0 * jitter' + 10.0 <= 160.0 ==> fall == gap / 20.0) &&
            (rtt as real / 2000.0 + 2.0 * jitter + 10.0 >= 160.0 ==> fall == gap / 5.0)
  {
    RatingFalls(Latency(rtt, jitter), Latency(rtt, jitter'));
  }

  /** Loss costs 250 a unit. */
  lemma LossResponse(rtt: nat, jitter: real, loss: real, loss': real)
    ensures RFactor(rtt, jitter, loss) - RFactor(rtt, jitter, loss') == 250.0 * (loss' - loss)
  {
  }

  /** The score is 1 at and under 0 and 4.5 over 100; in between it is a cubic, pinned by four of its values. */
  lemma ScoreAnchors(r: real)
    ensures r <= 0.0 ==> Score(r) == 1.0
    ensures r > 100.0 ==> Score(r) == 4.5
    ensures Score(60.0) == 3.1 && Score(30.0) == 1.6027 && Score(80.0) == 4.0272 && Score(90.0) == 4.3417
    ensures 0.0 < r <= 100.0 ==>
              10000000.0 * Score(r) == 10000000.0 - 76000.0 * r + 11360.0 * (r * r) - 71.0 * (r * r * r)
  {
    Expand(r);
  }
}
