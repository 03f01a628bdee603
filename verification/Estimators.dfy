/** Properties of the controller's formulas: the smoothed BUR, the rate steps and the cubic loss ceiling. */
module Estimators {
  import opened Bytes
  import opened Controller
  import opened ControllerRuns
  import opened Reals

  // ----- The smoothed BUR is a weighted mean -----

  ghost function Scaled(rate: real, x: real): real { rate * x }

  lemma ScaledAdds(rate: real, a: real, b: real)
    ensures Scaled(rate, a) + Scaled(rate, b) == Scaled(rate, a + b)
  {
    Distribute(rate, a, b);
  }

  lemma TermBounds(s: Sample, k: nat, rate: real, lo: real, hi: real)
    requires s.bur >= 0.0 && s.rate > 0.0 && lo <= Rectified(s, rate) <= hi
    ensures Scaled(lo, Weight(s, k)) <= WeightedTerm(s, k, rate) <= Scaled(hi, Weight(s, k))
  {
    var w, r := Weight(s, k), Rectified(s, rate);
    assert w > 0.0;
    hide Weight, Rectified;
    MulMonotone(w, lo, r);
    MulMonotone(w, r, hi);
  }

  lemma {:induction false} WeightedSumBounds(h: seq<Sample>, n: nat, rate: real, lo: real, hi: real)
    requires ValidHistory(h) && n <= |h|
    requires forall s :: s in h ==> lo <= Rectified(s, rate) <= hi
    ensures Scaled(lo, WeightSum(h, n)) <= WeightedSum(h, n, rate) <= Scaled(hi, WeightSum(h, n))
  {
    if n > 0 {
      hide Rectified, Weight, WeightedTerm, Scaled;
      var s := h[n - 1];
      WeightedSumBounds(h, n - 1, rate, lo, hi);
      TermBounds(s, n - 1, rate, lo, hi);
      ScaledAdds(lo, WeightSum(h, n - 1), Weight(s, n - 1));
      ScaledAdds(hi, WeightSum(h, n - 1), Weight(s, n - 1));
    }
  }

  /** The smoothed BUR of a non-empty history lies between the smallest and the largest rectified BUR. */
  lemma SmoothedBurBetween(h: seq<Sample>, rate: real, lo: real, hi: real)
    requires ValidHistory(h) && h != []
    requires forall s :: s in h ==> lo <= Rectified(s, rate) <= hi
    ensures lo <= SmoothedBur(h, rate) <= hi
  {
    hide Rectified, Weight, WeightedSum, WeightSum;
    WeightedSumBounds(h, |h|, rate, lo, hi);
    DivBounds(WeightedSum(h, |h|, rate), WeightSum(h, |h|), lo, hi);
  }

  lemma TermLinear(s: Sample, k: nat, rate: real)
    ensures WeightedTerm(s, k, rate) == Scaled(rate, WeightedTerm(s, k, 1.0))
  {
    var w, r := Weight(s, k), 1.0 / MaxR(s.rate, 0.01);
    DivScales(rate, 1.0, MaxR(s.rate, 0.01));
    hide Weight;
    assert s.bur * (rate * r) == rate * (s.bur * r);
    var x := s.bur * r;
    assert w * (rate * x) == rate * (w * x);
  }

  lemma {:induction false} WeightedSumLinear(h: seq<Sample>, n: nat, rate: real)
    requires n <= |h|
    ensures WeightedSum(h, n, rate) == Scaled(rate, WeightedSum(h, n, 1.0))
  {
    if n > 0 {
      hide WeightedTerm, Scaled;
      WeightedSumLinear(h, n - 1, rate);
      TermLinear(h[n - 1], n - 1, rate);
      ScaledAdds(rate, WeightedSum(h, n - 1, 1.0), WeightedTerm(h[n - 1], n - 1, 1.0));
    }
  }

  /** The smoothed BUR is proportional to the rate it is rectified to. */
  lemma SmoothedBurLinear(h: seq<Sample>, rate: real)
    requires ValidHistory(h)
    ensures SmoothedBur(h, rate) == rate * SmoothedBur(h, 1.0)
  {
    hide Rectified, Weight, WeightedSum, WeightSum;
    if h != [] {
      WeightedSumLinear(h, |h|, rate);
      DivScales(rate, WeightedSum(h, |h|, 1.0), WeightSum(h, |h|));
    }
  }

  // ----- Pacing -----

  /** The smallest BUR gets the fastest pacing: between GAMMA_P and 100 times that, falling in the BUR, GAMMA_P / BUR
      in between, and GAMMA_P exactly from a BUR of 1 on. */
  lemma PacingShape(a: real, b: real)
    ensures GAMMA_P <= PacingMultiplier(a) <= 100.0 * GAMMA_P
    ensures a <= b ==> PacingMultiplier(b) <= PacingMultiplier(a)
    ensures 0.01 <= a <= 1.0 ==> PacingMultiplier(a) * a == GAMMA_P
    ensures PacingMultiplier(a) == GAMMA_P <==> a >= 1.0
  {
    var x, y := MinR(MaxR(a, 0.01), 1.0), MinR(MaxR(b, 0.01), 1.0);
    var p, q := PacingMultiplier(a), PacingMultiplier(b);
    DivTimes(GAMMA_P, x);
    DivTimes(GAMMA_P, y);
    DivBounds(GAMMA_P, x, GAMMA_P, 100.0 * GAMMA_P);
    if a <= b {
      MulMonotone(q, x, y);
      DivBounds(GAMMA_P, x, q, 100.0 * GAMMA_P);
    }
  }

  // ----- Probe correction -----

  function Total(xs: seq<real>): real {
    if xs == [] then 0.0 else Total(xs[..|xs| - 1]) + xs[|xs| - 1]
  }

  /** The corrected BUR is the raw one plus the total probe delay in frame intervals. */
  lemma {:induction false} CorrectedBurIsSum(raw: real, probes: seq<real>)
    ensures CorrectedBur(raw, probes) == raw + Total(probes) / L_SEC
  {
    if probes != [] {
      var before := probes[..|probes| - 1];
      CorrectedBurIsSum(raw, before);
      DivAdds(Total(before), probes[|probes| - 1], L_SEC);
    }
  }

  lemma AddOne(k: nat, x: real)
    ensures k as real * x + x == (k + 1) as real * x
  {
    assert (k + 1) as real == k as real + 1.0;
    Distribute(x, k as real, 1.0);
  }

  lemma {:induction false} CorrectionBound(raw: real, probes: seq<real>, term: real)
    requires forall i :: 0 <= i < |probes| ==> probes[i] <= term
    ensures CorrectedBur(raw, probes) <= raw + |probes| as real * (term / L_SEC)
  {
    if probes != [] {
      var k := |probes| - 1;
      CorrectionBound(raw, probes[..k], term);
      DivMonotone(probes[k], term, L_SEC);
      AddOne(k, term / L_SEC);
    }
  }

  /** Four probe delays, each less than a fifth of the frame interval, raise a BUR by less than 0.8. */
  lemma ProbesAddLessThan(raw: real, probes: seq<real>, gap: real)
    requires |probes| == 4 && 5.0 * gap < L_SEC
    requires forall i :: 0 <= i < |probes| ==> probes[i] <= gap
    ensures CorrectedBur(raw, probes) < raw + 0.8
  {
    CorrectionBound(raw, probes, gap);
    assert gap / L_SEC < 0.2;
  }

  // ----- Rate steps -----

  lemma AdditiveStepBounds(cfg: Config, rate: real, frames: nat)
    requires ValidConfig(cfg) && rate > 0.0
    ensures -1.0 <= AdditiveStep(cfg, rate, frames) <= GAMMA_MD * rate
  {
    hide Pow2, MaxR;
    assert forall a, b :: MaxR(a, b) >= a by {
      MaxAtLeast();
    }
  }

  lemma MaxAtLeast()
    ensures forall a, b :: MaxR(a, b) >= a
  {
  }

  /** Multiplicative increase raises the rate; additive steps move it by at most 1 Mbps down or 5% up;
      above a smoothed BUR of 1 the rate stays. */
  lemma NextBitrateShape(cfg: Config, rate: real, bur: real, frames: nat)
    requires ValidConfig(cfg) && InRange(cfg, rate)
    ensures var next := NextBitrate(cfg, rate, bur, frames);
      && InRange(cfg, next)
      && (bur <= ALPHA ==> next >= rate && (next > rate || rate == cfg.bMax))
      && (ALPHA < bur <= 1.0 ==> rate - 1.0 <= next <= rate + GAMMA_MD * rate)
      && (bur > 1.0 ==> next == rate)
  {
    if bur <= ALPHA {
      var safe := MaxR(bur, 0.01);
      DivBounds(1.0 + ALPHA, 2.0 * safe, 1.0 + 0.05, (1.0 + ALPHA) / (2.0 * safe));
      var xi := GAMMA_MI * ((1.0 + ALPHA) / (2.0 * safe) - 1.0);
      MulPositive(rate, xi);
      Distribute(rate, 1.0, xi);
    } else if bur <= 1.0 {
      hide AdditiveStep;
      AdditiveStepBounds(cfg, rate, frames);
    }
  }

  // ----- The cubic loss ceiling -----

  lemma CubeMonotone(a: real, b: real)
    requires a <= b
    ensures Cube(a) <= Cube(b)
  {
    var q := b * b + a * b + a * a;
    assert q >= 0.0 by {
      var m := 2.0 * b + a;
      assert Square(m) >= 0.0 && Square(a) >= 0.0;
      assert m * m == 4.0 * (b * b) + 4.0 * (a * b) + a * a;
    }
    MulNonneg(b - a, q);
    CubeDifference(a, b);
  }

  lemma CubeDifference(a: real, b: real)
    ensures Cube(b) - Cube(a) == (b - a) * (b * b + a * b + a * a)
  {
    var p, q, r := b * b, a * b, a * a;
    Distribute(b - a, p + q, r);
    Distribute(b - a, p, q);
    assert a * p == b * q && a * q == b * r;
  }

  /** The time K of the cubic: the library's cube root is exact at the argument. */
  ghost predicate ExactRoot(cfg: Config, bSafe: real, bAgg: real) {
    Cube(cfg.cbrt(bAgg - bSafe)) == bAgg - bSafe
  }

  /** Over an episode the ceiling starts at B_safe, never falls, stays at or below B_agg until K and at or above it
      after. */
  lemma CeilingShape(cfg: Config, bSafe: real, bAgg: real, t1: real, t2: real)
    requires ValidConfig(cfg) && bSafe <= bAgg && ExactRoot(cfg, bSafe, bAgg)
    requires t1 <= t2
    ensures var k := cfg.cbrt(bAgg - bSafe);
      && CeilingAt(cfg, bSafe, bAgg, 0.0) == MinR(bSafe, cfg.bMax)
      && CeilingAt(cfg, bSafe, bAgg, t1) <= CeilingAt(cfg, bSafe, bAgg, t2)
      && (t1 <= k ==> CeilingAt(cfg, bSafe, bAgg, t1) <= bAgg)
      && (t1 >= k ==> CeilingAt(cfg, bSafe, bAgg, t1) >= MinR(bAgg, cfg.bMax))
  {
    var k := cfg.cbrt(bAgg - bSafe);
    CubeOdd(k);
    hide Cube;
    CubeMonotone(t1 - k, t2 - k);
    if t1 <= k {
      CubeMonotone(t1 - k, 0.0);
    }
    if t1 >= k {
      CubeMonotone(0.0, t1 - k);
    }
  }

  lemma CubeOdd(k: real)
    ensures Cube(0.0 - k) == -Cube(k) && Cube(0.0) == 0.0
  {
  }

  /** At time t the ceiling in force is the cubic's value for the episode. */
  ghost predicate OnCubic(cfg: Config, c: Ctl, t: u64) {
    c.shallow ==> c.shallowAt <= t && c.cubicRate == CeilingAt(cfg, c.bSafe, c.bAgg, Seconds(t - c.shallowAt))
  }

  ghost predicate SameEpisode(c: Ctl, c': Ctl) {
    c.shallow && c'.shallow && c'.shallowAt == c.shallowAt && c'.bSafe == c.bSafe && c'.bAgg == c.bAgg
  }

  /** check_shallow_congestion on one sample. */
  lemma ShallowStep(cfg: Config, c: Ctl, fa: FrameAck, t: u64)
    requires ValidConfig(cfg) && RatesInv(cfg, c) && OnCubic(cfg, c, t) && t <= fa.now
    ensures var c' := CheckShallow(cfg, c, fa, FrameBur(fa)).0;
      && OnCubic(cfg, c', fa.now)
      && (SameEpisode(c, c') && ExactRoot(cfg, c.bSafe, c.bAgg) ==> c'.cubicRate >= c.cubicRate)
      && (c'.shallow && !(SameEpisode(c, c')) && ExactRoot(cfg, c'.bSafe, c'.bAgg) ==>
            c'.shallowAt == fa.now && c'.cubicRate == MinR(c'.bSafe, cfg.bMax))
      && (!c'.shallow ==> c'.cubicRate == cfg.bMax)
  {
    hide FrameBur, AverageAck, AverageRate, CeilingAt;
    CheckShallowFrame(cfg, c, fa, FrameBur(fa));
    var c1 := CheckShallow(cfg, c, fa, FrameBur(fa)).0;
    if c1.shallow && ExactRoot(cfg, c1.bSafe, c1.bAgg) {
      var t1, t2 := Seconds(if c.shallow then t - c.shallowAt else 0), Seconds(fa.now - c1.shallowAt);
      if c1.shallowAt != fa.now || (c.shallow && c.shallowAt == fa.now) {
        CeilingShape(cfg, c1.bSafe, c1.bAgg, t1, t2);
      } else {
        CeilingShape(cfg, c1.bSafe, c1.bAgg, 0.0, 0.0);
      }
    }
  }

  lemma AdmitCeiling(cfg: Config, c: Ctl, fa: FrameAck)
    requires RatesInv(cfg, c)
    ensures var c' := Admit(c, fa);
      && RatesInv(cfg, c') && c'.shallow == c.shallow && c'.shallowAt == c.shallowAt && c'.bSafe == c.bSafe
      && c'.bAgg == c.bAgg && c'.cubicRate == c.cubicRate
  {
  }

  /** One sample of an episode: the ceiling follows the cubic, is B_safe when the episode opens,
      and does not fall while the episode lasts. */
  lemma CeilingStep(cfg: Config, c: Ctl, fa: FrameAck, t: u64)
    requires ValidConfig(cfg) && ValidAck(fa) && CtlInv(cfg, c) && fa.fid > c.lastSampleId
    requires OnCubic(cfg, c, t) && t <= fa.now
    ensures var c' := OnFrameAcked(cfg, c, fa).0;
      && OnCubic(cfg, c', fa.now)
      && (SameEpisode(c, c') && ExactRoot(cfg, c.bSafe, c.bAgg) ==> c'.cubicRate >= c.cubicRate)
      && (c'.shallow && !(SameEpisode(c, c')) && ExactRoot(cfg, c'.bSafe, c'.bAgg) ==>
            c'.shallowAt == fa.now && c'.cubicRate == MinR(c'.bSafe, cfg.bMax))
      && (!c'.shallow ==> c'.cubicRate == cfg.bMax)
  {
    hide FrameBur, CheckShallow, OnFrameAcked, CeilingAt, Admit, RatesInv, ExactRoot, FallbackInv, ValidAck;
    CeilingUntouched(cfg, c, fa);
    AdmitCeiling(cfg, c, fa);
    ShallowStep(cfg, Admit(c, fa), fa, t);
  }

  /** After check_shallow_congestion nothing in the call touches the ceiling. */
  lemma CeilingUntouched(cfg: Config, c: Ctl, fa: FrameAck)
    requires ValidConfig(cfg) && ValidAck(fa) && CtlInv(cfg, c) && fa.fid > c.lastSampleId
    ensures var c' := OnFrameAcked(cfg, c, fa).0;
      var c1 := CheckShallow(cfg, Admit(c, fa), fa, FrameBur(fa)).0;
      && c'.shallow == c1.shallow && c'.shallowAt == c1.shallowAt
      && c'.bSafe == c1.bSafe && c'.bAgg == c1.bAgg && c'.cubicRate == c1.cubicRate
  {
    hide FrameBur, SmoothedBur, PacingMultiplier, CheckShallow, Prune, NextBitrate, DrainRate;
    ObserveFrame(cfg, c, fa);
  }

  /** Samples arrive in the order of their times. */
  ghost predicate TimesRise(ops: seq<Op>) {
    forall i, j :: 0 <= i < j < |ops| && ops[i].Acked? && ops[j].Acked? ==> ops[i].fa.now <= ops[j].fa.now
  }

  /** In every state of every run with rising sample times, the ceiling in force is the episode's cubic at the time t
      of the last accepted sample. */
  lemma {:induction false} CeilingRun(cfg: Config, ops: seq<Op>) returns (t: u64)
    requires ValidConfig(cfg) && TimesRise(ops) && forall op :: op in ops ==> ValidOp(op)
    ensures CtlInv(cfg, Init(cfg)) && OnCubic(cfg, Run(cfg, Init(cfg), ops).0, t)
    ensures t == 0 || exists i :: 0 <= i < |ops| && ops[i].Acked? && ops[i].fa.now == t
  {
    hide OnFrameAcked, OnCubic, ExactRoot, Run, CtlInv;
    RunStart(cfg);
    t := 0;
    if ops != [] {
      var before, op := ops[..|ops| - 1], ops[|ops| - 1];
      t := CeilingRun(cfg, before);
      if t != 0 {
        var i :| 0 <= i < |before| && before[i].Acked? && before[i].fa.now == t;
        assert ops[i] == before[i] && ops[|ops| - 1] == op;
        assert op.Acked? ==> t <= ops[|ops| - 1].fa.now;
      }
      RunNext(cfg, ops);
      var c := Run(cfg, Init(cfg), before).0;
      if op.Acked? && op.fa.fid > c.lastSampleId {
        assert ValidOp(op);
        CeilingStep(cfg, c, op.fa, t);
        t := op.fa.now;
      } else {
        OtherCallsKeepCeiling(cfg, c, op);
        SameCeiling(cfg, c, Apply(cfg, c, op).0, t);
      }
    }
  }

  lemma RunStart(cfg: Config)
    requires ValidConfig(cfg)
    ensures CtlInv(cfg, Init(cfg)) && OnCubic(cfg, Init(cfg), 0) && Run(cfg, Init(cfg), []).0 == Init(cfg)
  {
    InitInv(cfg);
  }

  lemma RunNext(cfg: Config, ops: seq<Op>)
    requires ValidConfig(cfg) && CtlInv(cfg, Init(cfg)) && ops != [] && forall op :: op in ops ==> ValidOp(op)
    ensures var c := Run(cfg, Init(cfg), ops[..|ops| - 1]).0;
      && CtlInv(cfg, c) && ValidCtl(c)
      && Run(cfg, Init(cfg), ops).0 == Apply(cfg, c, ops[|ops| - 1]).0
  {
    hide Apply;
    CtlInvValid(cfg, Run(cfg, Init(cfg), ops[..|ops| - 1]).0);
  }

  lemma SameCeiling(cfg: Config, c: Ctl, c': Ctl, t: u64)
    requires OnCubic(cfg, c, t) && c'.shallow == c.shallow && c'.shallowAt == c.shallowAt && c'.bSafe == c.bSafe
    requires c'.bAgg == c.bAgg && c'.cubicRate == c.cubicRate
    ensures OnCubic(cfg, c', t)
  {
  }

  lemma OtherCallsKeepCeiling(cfg: Config, c: Ctl, op: Op)
    requires ValidConfig(cfg) && CtlInv(cfg, c) && ValidOp(op) && (op.Acked? ==> op.fa.fid <= c.lastSampleId)
    ensures var c' := Apply(cfg, c, op).0;
      c'.shallow == c.shallow && c'.shallowAt == c.shallowAt && c'.bSafe == c.bSafe && c'.bAgg == c.bAgg
      && c'.cubicRate == c.cubicRate
  {
  }
}
