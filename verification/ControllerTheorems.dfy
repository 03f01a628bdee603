/** The controller's promises, over all its runs. */
module ControllerTheorems {
  import opened Bytes
  import opened EventLog
  import opened Controller
  import opened ControllerRuns

  // ----- Rates stay within the configured bounds -----

  /** Whatever the receive rates and frame sizes, every rate the controller holds is in [B_MIN, B_MAX]. */
  lemma RatesInRange(cfg: Config, ops: seq<Op>)
    requires ValidConfig(cfg) && forall op :: op in ops ==> ValidOp(op)
    ensures CtlInv(cfg, Init(cfg))
    ensures var c := Run(cfg, Init(cfg), ops).0;
      && InRange(cfg, c.rate) && InRange(cfg, c.cubicRate) && InRange(cfg, c.FinalBitrate())
      && (c.fallbackPending ==> InRange(cfg, c.savedRate))
      && InRange(cfg, TakeEncodingBitrate(cfg, c).1)
  {
    RunKeepsInv(cfg, ops);
  }

  // ----- Drains -----

  ghost predicate StartsDrain(events: seq<Event>) {
    exists e :: e in events && e.DrainStart?
  }

  ghost function MeanOfLastThree(s: seq<Event>): real
    requires |s| >= 3 && forall e :: e in s ==> e.ControlSample?
  {
    (s[|s| - 3].recvRate + s[|s| - 2].recvRate + s[|s| - 1].recvRate) / 3.0
  }

  lemma RecvSumOfThree(s: seq<Event>)
    requires |s| >= 3 && forall e :: e in s ==> e.ControlSample?
    ensures RecvSum(s, 3) == s[|s| - 3].recvRate + s[|s| - 2].recvRate + s[|s| - 1].recvRate
  {
    var s1 := s[..|s| - 1];
    var s2 := s1[..|s1| - 1];
    assert RecvSum(s, 3) == RecvSum(s1, 2) + s[|s| - 1].recvRate;
    assert RecvSum(s1, 2) == RecvSum(s2, 1) + s1[|s1| - 1].recvRate;
    assert RecvSum(s2, 1) == RecvSum(s2[..|s2| - 1], 0) + s2[|s2| - 1].recvRate;
  }

  lemma VerdictDrains(cfg: Config, c: Ctl, fa: FrameAck, smooth: real)
    requires ValidConfig(cfg)
    ensures var (c', events) := Verdict(cfg, c, fa, smooth);
      if FrameBur(fa) > 1.0 && c.state != Draining && c.congested >= 2 then
        var mean := (c.onsetSum + fa.recvRate) / (c.onsetN + 1) as real;
        && events == [DrainStart(fa.fid, DrainRate(fa, mean), mean, c'.rate)]
        && c'.rate == Clamp(ALPHA * mean - DrainRate(fa, mean), cfg.bMin, cfg.bMax)
        && c'.state == Draining && !c'.fallbackPending
      else !StartsDrain(events)
  {
    hide FrameBur, DrainRate, NextBitrate;
  }

  /** A drain that a sample starts is logged under that sample's frame. */
  lemma DrainsNameTheirFrame(cfg: Config, c: Ctl, fa: FrameAck)
    requires ValidConfig(cfg) && ValidAck(fa) && CtlInv(cfg, c) && fa.fid > c.lastSampleId
    ensures forall e :: e in OnFrameAcked(cfg, c, fa).2 && e.DrainStart? ==> e.fid == fa.fid
  {
    AckedStages(cfg, c, fa);
    var (c1, seen, smooth) := Observe(cfg, c, fa);
    VerdictDrains(cfg, c1, fa, smooth);
    var (c2, verdict) := Verdict(cfg, c1, fa, smooth);
    hide OnFrameAcked, Observe, Verdict, FrameBur, RatesInv, FallbackInv, PacingMultiplier, DrainRate, Clamp;
    forall e | e in verdict && e.DrainStart?
      ensures e.fid == fa.fid
    {
      assert StartsDrain(verdict);
    }
  }

  /** The drain rule, for a sample that takes the controller from c to c' and makes the sample log s. */
  ghost predicate DrainRule(cfg: Config, c: Ctl, c': Ctl, fa: FrameAck, events: seq<Event>, s: seq<Event>)
    requires forall e :: e in s ==> e.ControlSample?
  {
    && (StartsDrain(events) <==> c.state != Draining && CongestedRun(s, 3))
    && (StartsDrain(events) ==>
          var mean := MeanOfLastThree(s);
          && !CongestedRun(s, 4)
          && DrainStart(fa.fid, DrainRate(fa, mean), mean, c'.rate) in events
          && c'.rate == Clamp(ALPHA * mean - DrainRate(fa, mean), cfg.bMin, cfg.bMax)
          && c'.state == Draining)
  }

  lemma MeanIsThird(sum: real, n: nat, s: seq<Event>)
    requires |s| >= 3 && forall e :: e in s ==> e.ControlSample?
    requires n == 3 && sum == s[|s| - 3].recvRate + s[|s| - 2].recvRate + s[|s| - 1].recvRate
    ensures sum / n as real == MeanOfLastThree(s)
  {
    assert n as real == 3.0;
  }

  /** The counters in which the verdict is taken say whether this is the third congested sample in a row. */
  lemma DrainCounters(cfg: Config, c: Ctl, c1: Ctl, fa: FrameAck, before: seq<Event>, sample: Event)
    requires (forall x :: x in before ==> x.ControlSample?) && CongestionInv(c, before)
    requires sample.ControlSample? && sample.fid == fa.fid > c.lastSampleId && sample.recvRate == fa.recvRate
    requires c1.congested == (if c.lastSampleId != 0 && fa.fid != c.lastSampleId + 1 then 0 else c.congested)
    requires c1.onsetSum == c.onsetSum && c1.onsetN == c.onsetN
    requires sample.bur > 1.0 ==> c1.state == c.state
    ensures var s := before + [sample];
      && ((sample.bur > 1.0 && c1.state != Draining && c1.congested >= 2) <==>
            (c.state != Draining && RunLength(s) >= 3))
      && (c.state != Draining && RunLength(s) >= 3 ==>
            RunLength(s) == 3 <= |s| && (c1.onsetSum + fa.recvRate) / (c1.onsetN + 1) as real == MeanOfLastThree(s))
  {
    var s := before + [sample];
    CountersFollow(c, before, sample);
    hide RunLength, RecvSum;
    if c.state != Draining && RunLength(s) >= 3 {
      assert c.congested == 2;
      RecvSumOfThree(s);
      MeanIsThird(c1.onsetSum + fa.recvRate, c1.onsetN + 1, s);
    }
  }

  lemma DrainStep(cfg: Config, c: Ctl, fa: FrameAck, before: seq<Event>)
    requires ValidConfig(cfg) && ValidAck(fa) && fa.fid > c.lastSampleId
    requires (forall x :: x in before ==> x.ControlSample?) && Inv(cfg, c, before)
    ensures var (c', out, events) := OnFrameAcked(cfg, c, fa);
      DrainRule(cfg, c, c', fa, events, before + [SampleEvent(c', fa, FrameBur(fa))])
  {
    hide OnFrameAcked, Observe, Verdict, FrameBur, RatesInv, FallbackInv, CongestionInv, PacingMultiplier, DrainRate,
      Clamp, MeanOfLastThree, StartsDrain, DrainRule, ValidAck;
    assert ValidCtl(c) by {
      CtlInvValid(cfg, c);
    }
    AckedStages(cfg, c, fa);
    ObserveFrame(cfg, c, fa);
    var (c', out, events) := OnFrameAcked(cfg, c, fa);
    var (c1, seen, smooth) := Observe(cfg, c, fa);
    var (c2, verdict) := Verdict(cfg, c1, fa, smooth);
    var sample := SampleEvent(c', fa, FrameBur(fa));
    assert sample.bur == FrameBur(fa) && sample.fid == fa.fid && sample.recvRate == fa.recvRate;
    VerdictDrains(cfg, c1, fa, smooth);
    DrainCounters(cfg, c, c1, fa, before, sample);
    hide *;
    RunLengthIsLongest(before + [sample], 3);
    RunLengthIsLongest(before + [sample], 4);
    DrainsInVerdict(seen, verdict, sample);
    AssembleDrainRule(cfg, c, c', fa, events, before + [sample], verdict);
  }

  lemma AssembleDrainRule(cfg: Config, c: Ctl, c': Ctl, fa: FrameAck, events: seq<Event>, s: seq<Event>,
                          verdict: seq<Event>)
    requires forall e :: e in s ==> e.ControlSample?
    requires StartsDrain(events) <==> StartsDrain(verdict)
    requires CongestedRun(s, 3) <==> RunLength(s) >= 3
    requires CongestedRun(s, 4) <==> RunLength(s) >= 4
    requires forall e :: e in verdict ==> e in events
    requires if c.state != Draining && RunLength(s) >= 3 then
               && RunLength(s) == 3 <= |s|
               && verdict == [DrainStart(fa.fid, DrainRate(fa, MeanOfLastThree(s)), MeanOfLastThree(s), c'.rate)]
               && c'.rate == Clamp(ALPHA * MeanOfLastThree(s) - DrainRate(fa, MeanOfLastThree(s)), cfg.bMin, cfg.bMax)
               && c'.state == Draining
             else !StartsDrain(verdict)
    ensures DrainRule(cfg, c, c', fa, events, s)
  {
    hide RunLength, CongestedRun, DrainRate, Clamp;
    assert verdict != [] ==> verdict[0] in verdict;
  }

  lemma DrainsInVerdict(seen: seq<Event>, verdict: seq<Event>, sample: Event)
    requires forall e :: e in seen ==> !e.DrainStart?
    requires !sample.DrainStart?
    ensures StartsDrain((seen + verdict) + [sample]) <==> StartsDrain(verdict)
  {
    var events := (seen + verdict) + [sample];
    assert forall e :: e in events <==> e in seen || e in verdict || e == sample;
  }

  /** A sample starts a drain exactly when the controller is not draining already and the last three
      samples are consecutive and congested; the new rate comes from the mean receive rate of those three. */
  lemma DrainIffThreeCongested(cfg: Config, ops: seq<Op>, fa: FrameAck)
    requires ValidConfig(cfg) && ValidAck(fa) && forall op :: op in ops ==> ValidOp(op)
    requires CtlInv(cfg, Init(cfg)) && fa.fid > Run(cfg, Init(cfg), ops).0.lastSampleId
    ensures var (c, log) := Run(cfg, Init(cfg), ops);
      var (c', out, events) := OnFrameAcked(cfg, c, fa);
      DrainRule(cfg, c, c', fa, events, Samples(log + events))
  {
    RunKeepsInv(cfg, ops);
    var (c, log) := Run(cfg, Init(cfg), ops);
    var (c', out, events) := OnFrameAcked(cfg, c, fa);
    DrainStep(cfg, c, fa, Samples(log));
    AckedSamples(cfg, c, fa);
    hide OnFrameAcked, Run, Inv, DrainRule, Samples, FrameBur;
    SamplesAppend(log, events);
  }

  ghost predicate EndsDrain(events: seq<Event>) {
    exists e :: e in events && e.DrainEnd?
  }

  /** The bytes in flight beyond what the path holds at the receive rate, over the base RTT. */
  function Excess(fa: FrameAck, recvRate: real): real {
    var excess := fa.inBytes - recvRate * fa.baseRtt * 1_000_000.0 / 8.0;
    if excess > 0.0 then excess else 0.0
  }

  /** What a drain takes off the rate empties the excess in the drain window of 200 ms. */
  lemma DrainEmptiesExcess(fa: FrameAck, recvRate: real)
    ensures DrainRate(fa, recvRate) * 1_000_000.0 / 8.0 * DRAIN_WIN == Excess(fa, recvRate)
  {
    var held := recvRate * fa.baseRtt;
    assert recvRate * 1_000_000.0 / 8.0 * fa.baseRtt == held * 1_000_000.0 / 8.0;
  }

  lemma VerdictEndsDrain(cfg: Config, c: Ctl, fa: FrameAck, smooth: real)
    requires ValidConfig(cfg)
    ensures var (c', events) := Verdict(cfg, c, fa, smooth);
      && (EndsDrain(events) <==> c.state == Draining && FrameBur(fa) <= 1.0)
      && (EndsDrain(events) ==>
            && events == [DrainEnd(fa.fid, c'.rate)] && c'.state == Steady && c'.history == [] && c'.framesUp == 0
            && c'.rate == MinR(MaxR(fa.recvRate, cfg.bMin), cfg.bMax))
  {
    hide FrameBur, DrainRate, NextBitrate;
    var (c', events) := Verdict(cfg, c, fa, smooth);
    assert events != [] ==> events[0] in events;
  }

  /** A drain ends exactly with the first sample without congestion, at the receive rate of that sample as far as the
      bounds allow, and with an empty history. */
  lemma DrainEndsUncongested(cfg: Config, c: Ctl, fa: FrameAck)
    requires ValidConfig(cfg) && ValidAck(fa) && CtlInv(cfg, c) && fa.fid > c.lastSampleId
    ensures var (c', out, events) := OnFrameAcked(cfg, c, fa);
      && (EndsDrain(events) <==> c.state == Draining && FrameBur(fa) <= 1.0)
      && (EndsDrain(events) ==>
            && DrainEnd(fa.fid, c'.rate) in events && c'.state == Steady && c'.history == [] && c'.framesUp == 0
            && (cfg.bMin <= fa.recvRate <= cfg.bMax ==> c'.rate == fa.recvRate)
            && (fa.recvRate < cfg.bMin ==> c'.rate == cfg.bMin) && (fa.recvRate > cfg.bMax ==> c'.rate == cfg.bMax))
  {
    CtlInvValid(cfg, c);
    hide OnFrameAcked, Verdict, FrameBur, CtlInv, EndsDrain, ValidAck, ValidCtl;
    var c1, seen, smooth := ObservedIn(cfg, c, fa);
    VerdictEndsDrain(cfg, c1, fa, smooth);
    var (c2, verdict) := Verdict(cfg, c1, fa, smooth);
    DrainEndsInVerdict(seen, verdict, SampleEvent(c2, fa, FrameBur(fa)));
  }

  /** The state in which the verdict on a sample is taken. */
  lemma ObservedIn(cfg: Config, c: Ctl, fa: FrameAck) returns (c1: Ctl, seen: seq<Event>, smooth: real)
    requires ValidConfig(cfg) && ValidAck(fa) && CtlInv(cfg, c) && ValidCtl(c) && fa.fid > c.lastSampleId
    ensures var (c', out, events) := OnFrameAcked(cfg, c, fa);
      var (c2, verdict) := Verdict(cfg, c1, fa, smooth);
      && c' == c2 && events == (seen + verdict) + [SampleEvent(c', fa, FrameBur(fa))]
    ensures (c1.state == Draining <==> c.state == Draining) && forall e :: e in seen ==> !e.DrainEnd?
  {
    hide OnFrameAcked, Observe, Verdict, FrameBur, RatesInv, FallbackInv, PacingMultiplier;
    AckedStages(cfg, c, fa);
    ObserveFrame(cfg, c, fa);
    var (d, s, m) := Observe(cfg, c, fa);
    c1, seen, smooth := d, s, m;
  }

  lemma DrainEndsInVerdict(seen: seq<Event>, verdict: seq<Event>, sample: Event)
    requires forall e :: e in seen ==> !e.DrainEnd?
    requires !sample.DrainEnd?
    ensures EndsDrain((seen + verdict) + [sample]) <==> EndsDrain(verdict)
    ensures forall e :: e in verdict ==> e in (seen + verdict) + [sample]
  {
    var events := (seen + verdict) + [sample];
    assert forall e :: e in events <==> e in seen || e in verdict || e == sample;
  }

  /** Whatever the call: a back-off comes from a lost frame outside the gap, and halves the rate, or leaves it at
      B_MIN; it drops the history and any fallback, and starts a drain. */
  lemma BackoffHalvesRate(cfg: Config, c: Ctl, op: Op, rate: real)
    requires ValidConfig(cfg) && ValidOp(op) && CtlInv(cfg, c)
    ensures ValidCtl(c)
    ensures var (c', events) := Apply(cfg, c, op);
      LossBackoff(rate) in events ==>
        && op.FrameLost? && c'.rate == rate && (2.0 * rate == c.rate || (c.rate < 2.0 * cfg.bMin && rate == cfg.bMin))
        && c'.state == Draining && !c'.fallbackPending && c'.history == [] && c'.lastLossBackoff == op.now
        && (op.now == 0 || c.lastLossBackoff == 0 || Sub64(op.now, c.lastLossBackoff) >= op.minGap)
  {
    CtlInvValid(cfg, c);
    if op.Acked? && op.fa.fid > c.lastSampleId {
      AckedStages(cfg, c, op.fa);
      var (c1, seen, smooth) := Observe(cfg, c, op.fa);
      var (c2, verdict) := Verdict(cfg, c1, op.fa, smooth);
      hide OnFrameAcked, Observe, Verdict, FrameBur, RatesInv, FallbackInv, PacingMultiplier;
    }
  }

  // ----- Temporary fallback -----

  ghost predicate SetsFallback(events: seq<Event>) {
    exists e :: e in events && e.FallbackSet?
  }

  /** Starting a fallback and consuming one for an encoded frame leave the underlying rate alone. */
  lemma FallbackNeutral(cfg: Config, c: Ctl, op: Op)
    requires ValidConfig(cfg) && ValidOp(op) && CtlInv(cfg, c)
    requires op.TakeEncoding? || op.InflightAge? || (op.Acked? && SetsFallback(Apply(cfg, c, op).1))
    ensures Apply(cfg, c, op).0.Underlying() == c.Underlying()
    ensures SetsFallback(Apply(cfg, c, op).1) ==>
              c.state == Steady && !c.fallbackPending && Apply(cfg, c, op).0.fallbackPending
  {
    if op.Acked? && op.fa.fid > c.lastSampleId {
      AckedStages(cfg, c, op.fa);
      ObserveFrame(cfg, c, op.fa);
      var (c1, seen, smooth) := Observe(cfg, c, op.fa);
      VerdictFallback(cfg, c1, op.fa, smooth);
      var (c2, verdict) := Verdict(cfg, c1, op.fa, smooth);
      hide OnFrameAcked, Observe, Verdict, FrameBur, RatesInv, PacingMultiplier;
      assert SetsFallback(verdict);
    }
  }

  lemma VerdictFallback(cfg: Config, c: Ctl, fa: FrameAck, smooth: real)
    requires ValidConfig(cfg)
    ensures var (c', events) := Verdict(cfg, c, fa, smooth);
      && (SetsFallback(events) ==>
            && FrameBur(fa) > 1.0 && c.state == Steady
            && c'.fallbackPending && c'.savedRate == c.rate && c'.state == Fallback)
      && (!SetsFallback(events) ==> c'.fallbackPending ==> c.fallbackPending)
      && (FrameBur(fa) <= 1.0 && c.state != Draining ==>
            c'.rate == if fa.epoch >= c.adjEpoch then NextBitrate(cfg, c.rate, smooth, c.framesUp + 1) else c.rate)
  {
    hide FrameBur, DrainRate, NextBitrate;
    assert forall x: Event :: x.FallbackSet? ==> SetsFallback([x]) by {
      forall x: Event | x.FallbackSet?
        ensures SetsFallback([x])
      {
        assert x in [x];
      }
    }
  }

  /** An uncongested sample ends a fallback: the rate step starts from the underlying rate, not the lowered one. */
  lemma FallbackEndsCleanly(cfg: Config, c: Ctl, fa: FrameAck)
    requires ValidConfig(cfg) && ValidAck(fa) && CtlInv(cfg, c)
    requires fa.fid > c.lastSampleId && FrameBur(fa) <= 1.0 && (c.state == Fallback || c.state == CongestedWait)
    ensures var c' := OnFrameAcked(cfg, c, fa).0;
      var (c1, seen, smooth) := Observe(cfg, c, fa);
      && c'.state == Steady && !c'.fallbackPending
      && c'.rate == if fa.epoch >= c.adjEpoch then NextBitrate(cfg, c.Underlying(), smooth, c1.framesUp + 1)
                    else c.Underlying()
  {
    AckedStages(cfg, c, fa);
    ObserveFrame(cfg, c, fa);
    var (c1, seen, smooth) := Observe(cfg, c, fa);
    VerdictFallback(cfg, c1, fa, smooth);
    VerdictCounters(cfg, c1, fa, smooth);
    hide OnFrameAcked, Observe, Verdict, FrameBur, PacingMultiplier, NextBitrate;
  }

  /** The call takes an encoding bitrate below what the underlying rate would give. */
  ghost predicate LoweredTake(cfg: Config, c: Ctl, op: Op) {
    op.TakeEncoding? && TakeEncodingBitrate(cfg, c).1 < MinR(c.Underlying(), c.cubicRate)
  }

  ghost function LoweredTakes(cfg: Config, c: Ctl, ops: seq<Op>): nat
    requires ValidConfig(cfg) && CtlInv(cfg, c) && forall op :: op in ops ==> ValidOp(op)
  {
    if ops == [] then 0
    else
      var before := ops[..|ops| - 1];
      LoweredTakes(cfg, c, before) + if LoweredTake(cfg, Run(cfg, c, before).0, ops[|ops| - 1]) then 1 else 0
  }

  function FallbackSets(log: seq<Event>): nat {
    if log == [] then 0 else FallbackSets(log[..|log| - 1]) + if log[|log| - 1].FallbackSet? then 1 else 0
  }

  lemma {:induction false} FallbackSetsAppend(a: seq<Event>, b: seq<Event>)
    ensures FallbackSets(a + b) == FallbackSets(a) + FallbackSets(b)
    ensures SetsFallback(b) ==> FallbackSets(b) >= 1
  {
    if b == [] {
      assert a + b == a;
    } else {
      var k := |b| - 1;
      assert (a + b)[..|a + b| - 1] == a + b[..k];
      FallbackSetsAppend(a, b[..k]);
      if SetsFallback(b) && !b[k].FallbackSet? {
        assert forall e :: e in b ==> e in b[..k] || e == b[k];
      }
    }
  }

  lemma PendingOnlyFromSet(cfg: Config, c: Ctl, op: Op)
    requires ValidConfig(cfg) && ValidOp(op) && CtlInv(cfg, c)
    ensures var (c', events) := Apply(cfg, c, op);
      && (c'.fallbackPending ==> SetsFallback(events) || (c.fallbackPending && !op.TakeEncoding?))
      && (SetsFallback(events) ==> !c.fallbackPending && !op.TakeEncoding?)
      && (LoweredTake(cfg, c, op) ==> c.fallbackPending)
  {
    var (c', events) := Apply(cfg, c, op);
    if SetsFallback(events) {
      if op.Acked? {
        FallbackNeutral(cfg, c, op);
      }
    }
    if op.Acked? && op.fa.fid > c.lastSampleId {
      AckedStages(cfg, c, op.fa);
      ObserveFrame(cfg, c, op.fa);
      var (c1, seen, smooth) := Observe(cfg, c, op.fa);
      VerdictFallback(cfg, c1, op.fa, smooth);
      var (c2, verdict) := Verdict(cfg, c1, op.fa, smooth);
      hide OnFrameAcked, Observe, Verdict, FrameBur, RatesInv, PacingMultiplier;
      assert SetsFallback(verdict) ==> SetsFallback(events);
    } else if op.InflightAge? {
      assert events != [] ==> events[0] in events;
    }
  }

  /** Over any run, the lowered encoding bitrates are no more than the fallbacks that were started:
      each fallback lowers at most one encoded frame. */
  lemma {:induction false} EachFallbackLowersOneFrame(cfg: Config, c: Ctl, ops: seq<Op>)
    requires ValidConfig(cfg) && CtlInv(cfg, c) && forall op :: op in ops ==> ValidOp(op)
    ensures var (c', log) := Run(cfg, c, ops);
      LoweredTakes(cfg, c, ops) + (if c'.fallbackPending then 1 else 0)
        <= FallbackSets(log) + if c.fallbackPending then 1 else 0
  {
    if ops != [] {
      var before, op := ops[..|ops| - 1], ops[|ops| - 1];
      EachFallbackLowersOneFrame(cfg, c, before);
      var (c1, log) := Run(cfg, c, before);
      var (c2, events) := Apply(cfg, c1, op);
      PendingOnlyFromSet(cfg, c1, op);
      FallbackSetsAppend(log, events);
      hide Apply, CtlInv, LoweredTake;
    }
  }
}
