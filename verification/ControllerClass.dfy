/** The controller's calls, step by step as in codes/pudica_algo.cc, against the functions of module Controller. */
module ControllerClass {
  import opened Bytes
  import opened EventLog
  import Spec = Controller
  import opened ControllerRuns

  type Config = Spec.Config
  type FrameAck = Spec.FrameAck
  type Sample = Spec.Sample
  type LossSample = Spec.LossSample

  /** corrected_BUR: the raw BUR plus each probe delay over the frame interval. */
  method CorrectedBur(raw: real, probes: seq<real>) returns (r: real)
    ensures r == Spec.CorrectedBur(raw, probes)
  {
    r := raw;
    for i := 0 to |probes|
      invariant r == Spec.CorrectedBur(raw, probes[..i])
    {
      assert probes[..i + 1][..i] == probes[..i];
      r := r + probes[i] / Spec.L_SEC;
    }
    assert probes[..|probes|] == probes;
  }

  /** smoothed_BUR: one pass that accumulates the weighted sum and the weights. */
  method SmoothedBur(h: seq<Sample>, rate: real) returns (r: real)
    requires Spec.ValidHistory(h)
    ensures r == Spec.SmoothedBur(h, rate)
  {
    if h == [] {
      return 0.0;
    }
    hide Spec.Weight, Spec.WeightedTerm;
    var sum, weights := 0.0, 0.0;
    for i := 0 to |h|
      invariant sum == Spec.WeightedSum(h, i, rate) && weights == Spec.WeightSum(h, i)
    {
      sum := sum + Spec.WeightedTerm(h[i], i, rate);
      weights := weights + Spec.Weight(h[i], i);
    }
    return sum / weights;
  }

  class Controller {
    const cfg: Config
    /** The private fields, as one record. */
    var c: Spec.Ctl

    ghost predicate Valid()
      reads this
    {
      Spec.ValidConfig(cfg) && CtlInv(cfg, c)
    }

    constructor (cfg: Config)
      requires Spec.ValidConfig(cfg)
      ensures Valid() && c == Spec.Init(cfg) && this.cfg == cfg
    {
      this.cfg := cfg;
      c := Spec.Init(cfg);
      new;
      InitInv(cfg);
    }

    function GetFinalBitrate(): real
      reads this
    {
      Spec.MinR(c.rate, c.cubicRate)
    }

    /** The averages over the lossy frames, summed as the source does. */
    method AverageLosses() returns (averageRate: real, averageAck: real)
      ensures averageRate == Spec.AverageRate(c.lossSamples) && averageAck == Spec.AverageAck(c.lossSamples)
    {
      averageRate, averageAck := 0.0, 0.0;
      var acked, span := 0.0, 0.0;
      for i := 0 to |c.lossSamples|
        invariant averageRate == Spec.RateSum(c.lossSamples[..i])
        invariant acked == Spec.AckedSum(c.lossSamples[..i]) && span == Spec.SpanSum(c.lossSamples[..i])
      {
        assert c.lossSamples[..i + 1][..i] == c.lossSamples[..i];
        averageRate := averageRate + c.lossSamples[i].frameMbps;
        if c.lossSamples[i].ackLast > c.lossSamples[i].ackFirst {
          acked := acked + c.lossSamples[i].ackBytes;
          span := span + (c.lossSamples[i].ackLast - c.lossSamples[i].ackFirst) as real;
        }
      }
      assert c.lossSamples[..|c.lossSamples|] == c.lossSamples;
      if c.lossSamples != [] {
        averageRate := averageRate / |c.lossSamples| as real;
      }
      if span > 0.0 {
        averageAck := 8.0 * acked / span;
      }
    }

    method CheckShallowCongestion(fa: FrameAck, bur: real) returns (logged: seq<Event>)
      modifies this
      ensures (c, logged) == Spec.CheckShallow(cfg, old(c), fa, bur)
    {
      logged := [];
      hide Spec.AverageAck, Spec.AverageRate, Spec.CeilingAt;
      if !fa.lossy {
        c := c.(lossSamples := []);
      } else {
        var frameMbps := if fa.frameMbps > 0.0 then fa.frameMbps else c.rate;
        var sample := Spec.LossSample(fa.delay - fa.minDelay, frameMbps, fa.ackBytes, fa.ackFirst, fa.ackLast);
        c := c.(lossSamples := c.lossSamples + [sample]);
        if |c.lossSamples| > 3 {
          c := c.(lossSamples := c.lossSamples[1..]);
        }
      }
      var averageRate, averageAck := AverageLosses();
      if |c.lossSamples| == 3 && c.lossSamples[0].queue < Spec.L_SEC && averageAck < averageRate {
        c := c.(shallow := true, shallowAt := fa.now, lossSamples := []);
        c := c.(bSafe := Spec.MaxR(0.2 * averageAck, cfg.bMin));
        c := c.(bAgg := Spec.MaxR(averageRate, c.bSafe));
        c := c.(cubicRate := c.bSafe);
        logged := [LossCeilingSet(fa.fid, c.cubicRate, averageAck, averageRate)];
      }
      if c.shallow {
        c := c.(cubicRate := Spec.CeilingAt(cfg, c.bSafe, c.bAgg, Spec.Seconds(Sub64(fa.now, c.shallowAt))));
        if bur <= Spec.ALPHA && c.cubicRate >= c.rate * 0.95 {
          c := c.(shallow := false, cubicRate := cfg.bMax);
        }
      }
    }

    /** Pacing follows the BUR; an uncongested sample ends a fallback. */
    method PaceAndRestore(bur: real) returns (logged: seq<Event>)
      modifies this
      ensures (c, logged) == Spec.Restore(old(c), bur)
    {
      logged := [];
      hide Spec.PacingMultiplier;
      c := c.(pacing := Spec.PacingMultiplier(bur), lastBur := bur);
      if bur <= 1.0 && (c.state == Spec.Fallback || c.state == Spec.CongestedWait) {
        logged := [FallbackRestored(c.savedRate)];
        if c.fallbackPending && c.savedRate > 0.0 {
          c := c.(rate := c.savedRate);
        }
        c := c.(savedRate := 0.0, fallbackPending := false, state := Spec.Steady);
      }
    }

    /** Push the sample and drop the samples that are more than 200 ms old. */
    method Remember(fa: FrameAck, bur: real)
      modifies this
      ensures c == Spec.Remember(old(c), fa, bur)
    {
      c := c.(history := c.history + [Spec.Sample(bur, if fa.frameMbps > 0.0 then fa.frameMbps else c.rate, fa.now)]);
      ghost var pushed := c.history;
      while c.history != [] && Sub64(fa.now, c.history[0].ts) > Spec.HISTORY_WINDOW
        invariant c == old(c).(history := c.history)
        invariant Spec.Prune(pushed, fa.now) == Spec.Prune(c.history, fa.now)
        decreases |c.history|
      {
        c := c.(history := c.history[1..]);
      }
    }

    method CongestedSample(fa: FrameAck) returns (logged: seq<Event>)
      modifies this
      ensures (c, logged) == Spec.Congested(cfg, old(c), fa)
    {
      logged := [];
      hide Spec.DrainRate;
      c := c.(congested := c.congested + 1);
      if c.congested == 1 {
        c := c.(onsetSum := 0.0, onsetN := 0);
      }
      c := c.(onsetSum := c.onsetSum + fa.recvRate, onsetN := c.onsetN + 1);
      if c.congested == 1 && c.state == Spec.Steady {
        c := c.(savedRate := c.rate, fallbackPending := true, state := Spec.Fallback);
        c := c.(rate := Spec.Clamp(c.rate * (1.0 - Spec.ZETA), cfg.bMin, cfg.bMax));
        logged := [FallbackSet(fa.fid, c.savedRate, c.rate)];
      } else if c.congested == 2 && c.state != Spec.Draining {
        c := c.(state := Spec.CongestedWait);
      } else if c.congested >= 3 && c.state != Spec.Draining {
        c := c.(state := Spec.Draining, savedRate := 0.0, fallbackPending := false);
        var recvRate := c.onsetSum / c.onsetN as real;
        var drainRate := Spec.DrainRate(fa, recvRate);
        c := c.(rate := Spec.Clamp(Spec.ALPHA * recvRate - drainRate, cfg.bMin, cfg.bMax));
        c := c.(rateEpoch := c.rateEpoch + 1);
        c := c.(adjEpoch := c.rateEpoch);
        logged := [DrainStart(fa.fid, drainRate, recvRate, c.rate)];
      }
    }

    method UncongestedSample(fa: FrameAck, smooth: real) returns (logged: seq<Event>)
      requires Spec.ValidConfig(cfg)
      modifies this
      ensures (c, logged) == Spec.Uncongested(cfg, old(c), fa, smooth)
    {
      logged := [];
      hide Spec.NextBitrate;
      c := c.(congested := 0);
      if c.state == Spec.Draining {
        c := c.(state := Spec.Steady, framesUp := 0, savedRate := 0.0);
        c := c.(rate := Spec.MinR(Spec.MaxR(fa.recvRate, cfg.bMin), cfg.bMax));
        c := c.(rateEpoch := c.rateEpoch + 1);
        c := c.(adjEpoch := c.rateEpoch);
        c := c.(history := []);
        logged := [DrainEnd(fa.fid, c.rate)];
      } else {
        c := c.(framesUp := c.framesUp + 1);
        if fa.epoch >= c.adjEpoch {
          c := c.(rate := Spec.NextBitrate(cfg, c.rate, smooth, c.framesUp));
          c := c.(rateEpoch := c.rateEpoch + 1);
          c := c.(adjEpoch := c.rateEpoch);
        }
      }
    }

    /** Everything on_frame_acked does before its verdict on the sample. */
    method Observe(fa: FrameAck, bur: real) returns (smooth: real, logged: seq<Event>)
      requires Valid() && Spec.ValidAck(fa) && bur == Spec.FrameBur(fa)
      modifies this
      ensures (c, logged, smooth) == Spec.Observe(cfg, old(c), fa)
    {
      ghost var c0 := Spec.Admit(c, fa);
      if c.lastSampleId != 0 && fa.fid != c.lastSampleId + 1 {
        c := c.(congested := 0, lossSamples := []);
      }
      c := c.(lastSampleId := fa.fid);
      hide Spec.CheckShallow, Spec.Restore, Spec.Remember, Spec.FrameBur, Spec.SmoothedBur, Spec.Prune;
      assert c == c0;
      logged := CheckShallowCongestion(fa, bur);
      ghost var c1 := c;
      var restored := PaceAndRestore(bur);
      logged := logged + restored;
      ghost var c2 := c;
      Remember(fa, bur);
      ghost var c3 := c;
      assert Spec.ValidHistory(c.history) by {
        HistoryValid(cfg, old(c), fa);
      }
      smooth := SmoothedBur(c.history, c.rate);
      if smooth > 1.0 {
        c := c.(framesUp := 0);
      }
      var slot := (if fa.wall != 0 then fa.wall else fa.now) / 5_000_000;
      if slot != c.resetSlot {
        c := c.(framesUp := 0, resetSlot := slot);
      }
      assert c == Spec.ResetTau(c3, fa, smooth);
    }

    method OnFrameAcked(fa: FrameAck) returns (out: Spec.Output, logged: seq<Event>)
      requires Valid() && Spec.ValidAck(fa)
      modifies this
      ensures Valid()
      ensures (c, out, logged) == Spec.OnFrameAcked(cfg, old(c), fa)
    {
      hide Spec.Observe, Spec.Congested, Spec.Uncongested, Spec.CorrectedBur, Spec.RawBur, RatesInv, FallbackInv;
      if fa.fid <= c.lastSampleId {
        return Spec.Output(false, GetFinalBitrate(), c.pacing, c.lastBur), [];
      }
      AckedStages(cfg, c, fa);
      var bur := CorrectedBur(Spec.RawBur(fa.delay, fa.minDelay), fa.probes);
      var smooth;
      smooth, logged := Observe(fa, bur);
      var verdict;
      if bur > 1.0 {
        verdict := CongestedSample(fa);
      } else {
        verdict := UncongestedSample(fa, smooth);
      }
      logged := logged + verdict;
      logged := logged + [ControlSample(fa.fid, bur, GetFinalBitrate(), c.pacing, fa.recvRate, |fa.probes|)];
      out := Spec.Output(true, GetFinalBitrate(), c.pacing, c.lastBur);
    }

    method OnFrameLoss(now: u64, minGap: u64) returns (logged: seq<Event>)
      requires Valid()
      modifies this
      ensures Valid()
      ensures (c, logged) == Spec.OnFrameLoss(cfg, old(c), now, minGap)
    {
      logged := [];
      ApplyKeepsCtlInv(cfg, c, FrameLost(now, minGap));
      if now != 0 && c.lastLossBackoff != 0 && Sub64(now, c.lastLossBackoff) < minGap {
        return;
      }
      c := c.(lastLossBackoff := now, state := Spec.Draining, savedRate := 0.0, fallbackPending := false);
      c := c.(congested := 0, framesUp := 0);
      c := c.(rate := Spec.MaxR(c.rate * 0.5, cfg.bMin));
      c := c.(rateEpoch := c.rateEpoch + 1);
      c := c.(adjEpoch := c.rateEpoch);
      c := c.(history := [], lossSamples := []);
      logged := [LossBackoff(c.rate), DrainStart(0, 0.0, 0.0, c.rate)];
    }

    method ForceDrain()
      requires Valid()
      modifies this
      ensures Valid() && c == Spec.ForceDrain(old(c))
    {
      ApplyKeepsCtlInv(cfg, c, ForcedDrain);
      c := c.(state := Spec.Draining, savedRate := 0.0, fallbackPending := false, congested := 0);
    }

    method OnInflightAge(age: u64, baseRtt: u64) returns (out: Spec.Output, logged: seq<Event>)
      requires Valid()
      modifies this
      ensures Valid()
      ensures (c, out, logged) == Spec.OnInflightAge(cfg, old(c), age, baseRtt)
    {
      logged := [];
      ApplyKeepsCtlInv(cfg, c, InflightAge(age, baseRtt));
      if age < Spec.Add64(baseRtt, Spec.NEXT_DELAY_THRESH) || c.state != Spec.Steady {
        return Spec.Output(false, 0.0, 0.0, 0.0), [];
      }
      c := c.(savedRate := c.rate, fallbackPending := true, state := Spec.Fallback);
      c := c.(rate := Spec.MaxR(c.rate * (1.0 - Spec.ZETA), cfg.bMin));
      logged := [FallbackSet(0, c.savedRate, c.rate)];
      out := Spec.Output(true, GetFinalBitrate(), c.pacing, c.lastBur);
    }

    method TakeEncodingBitrate() returns (target: real, logged: seq<Event>)
      requires Valid()
      modifies this
      ensures Valid()
      ensures (c, target, logged) == Spec.TakeEncodingBitrate(cfg, old(c))
    {
      logged := [];
      ApplyKeepsCtlInv(cfg, c, TakeEncoding);
      target := GetFinalBitrate();
      if c.fallbackPending {
        c := c.(fallbackPending := false);
        c := c.(rate := Spec.MaxR(c.savedRate, cfg.bMin));
        c := c.(savedRate := 0.0);
        logged := [FallbackRestored(c.rate)];
      }
    }

    method OnRetransLossDetected() returns (logged: seq<Event>)
      ensures logged == [RetransLoss(c.rate)]
    {
      logged := [RetransLoss(c.rate)];
    }
  }

  lemma HistoryValid(cfg: Config, c: Spec.Ctl, fa: FrameAck)
    requires Spec.ValidConfig(cfg) && Spec.ValidAck(fa) && CtlInv(cfg, c)
    ensures var c1 := Spec.CheckShallow(cfg, Spec.Admit(c, fa), fa, Spec.FrameBur(fa)).0;
      Spec.ValidHistory(Spec.Remember(Spec.Restore(c1, Spec.FrameBur(fa)).0, fa, Spec.FrameBur(fa)).history)
  {
    var c0 := Spec.Admit(c, fa);
    CheckShallowFrame(cfg, c0, fa, Spec.FrameBur(fa));
    var c1 := Spec.CheckShallow(cfg, c0, fa, Spec.FrameBur(fa)).0;
    RestoreFrame(cfg, c1, Spec.FrameBur(fa));
    Spec.RememberKeepsHistory(Spec.Restore(c1, Spec.FrameBur(fa)).0, fa, Spec.FrameBur(fa));
  }
}
