/** What every run of the controller keeps, over any interleaving of its public calls. */
module ControllerRuns {
  import opened Bytes
  import opened EventLog
  import opened Controller

  // ----- Runs -----

  datatype Op =
    | Acked(fa: FrameAck)
    | FrameLost(now: u64, minGap: u64)
    | InflightAge(age: u64, baseRtt: u64)
    | TakeEncoding
    | ForcedDrain
    | ClearedHistory
    | RetransmissionLost

  ghost predicate ValidOp(op: Op) {
    op.Acked? ==> ValidAck(op.fa)
  }

  function Apply(cfg: Config, c: Ctl, op: Op): (r: (Ctl, seq<Event>))
    requires ValidConfig(cfg) && ValidCtl(c) && ValidOp(op)
  {
    match op
    case Acked(fa) => var (c', out, events) := OnFrameAcked(cfg, c, fa); (c', events)
    case FrameLost(now, minGap) => OnFrameLoss(cfg, c, now, minGap)
    case InflightAge(age, baseRtt) => var (c', out, events) := OnInflightAge(cfg, c, age, baseRtt); (c', events)
    case TakeEncoding => var (c', target, events) := TakeEncodingBitrate(cfg, c); (c', events)
    case ForcedDrain => (ForceDrain(c), [])
    case ClearedHistory => (c.(history := []), [])
    case RetransmissionLost => (c, [RetransLoss(c.rate)])
  }

  // ----- Congested runs of samples -----

  /** The last k samples have consecutive frame ids and BUR above 1. */
  ghost predicate CongestedRun(s: seq<Event>, k: nat)
    requires forall e :: e in s ==> e.ControlSample?
  {
    && k <= |s|
    && (forall i :: |s| - k <= i < |s| ==> s[i].bur > 1.0)
    && (forall i :: |s| - k < i < |s| ==> s[i].fid == s[i - 1].fid + 1)
  }

  /** The length of the longest such run. */
  ghost function RunLength(s: seq<Event>): nat
    requires forall e :: e in s ==> e.ControlSample?
  {
    var n := |s|;
    if n == 0 || s[n - 1].bur <= 1.0 then 0
    else if n >= 2 && s[n - 1].fid == s[n - 2].fid + 1 then RunLength(s[..n - 1]) + 1
    else 1
  }

  lemma {:induction false} RunLengthIsLongest(s: seq<Event>, k: nat)
    requires forall e :: e in s ==> e.ControlSample?
    ensures CongestedRun(s, k) <==> k <= RunLength(s)
  {
    var n := |s|;
    if n > 0 && k > 0 {
      RunLengthIsLongest(s[..n - 1], k - 1);
      if CongestedRun(s, k) {
        assert CongestedRun(s[..n - 1], k - 1);
        assert k >= 2 ==> s[n - 1].fid == s[n - 2].fid + 1;
      }
      if k <= RunLength(s) {
        assert CongestedRun(s, k);
      }
    }
  }

  /** The sum of the receive rates of the last k samples. */
  ghost function RecvSum(s: seq<Event>, k: nat): real
    requires k <= |s| && forall e :: e in s ==> e.ControlSample?
  {
    if k == 0 then 0.0 else RecvSum(s[..|s| - 1], k - 1) + s[|s| - 1].recvRate
  }

  ghost function LastId(s: seq<Event>): nat
    requires forall e :: e in s ==> e.ControlSample?
  {
    if s == [] then 0 else s[|s| - 1].fid
  }

  // ----- The invariant -----

  ghost predicate InRange(cfg: Config, r: real) { cfg.bMin <= r <= cfg.bMax }

  ghost predicate RatesInv(cfg: Config, c: Ctl) {
    && InRange(cfg, c.rate) && InRange(cfg, c.cubicRate) && InRange(cfg, c.FinalBitrate())
    && (if c.fallbackPending then InRange(cfg, c.savedRate) else c.savedRate == 0.0)
    && (if c.shallow then cfg.bMin <= c.bSafe <= c.bAgg else c.cubicRate == cfg.bMax)
    && c.pacing >= GAMMA_P
    && ValidHistory(c.history)
  }

  ghost predicate FallbackInv(cfg: Config, c: Ctl) {
    c.fallbackPending ==>
      && (c.state == Fallback || c.state == CongestedWait)
      && c.rate == MaxR((1.0 - ZETA) * c.savedRate, cfg.bMin)
  }

  /** congested counts the congested run; outside a drain it is its whole length. */
  ghost predicate CongestionInv(c: Ctl, s: seq<Event>)
    requires forall e :: e in s ==> e.ControlSample?
  {
    && c.lastSampleId == LastId(s) && (s != [] ==> c.lastSampleId > 0)
    && c.congested <= RunLength(s) <= |s|
    && (c.state != Draining ==> c.congested == RunLength(s))
    && (c.congested >= 1 ==> c.onsetN == c.congested && c.onsetSum == RecvSum(s, c.congested))
    && (c.state == Steady ==> c.congested == 0)
    && (c.state == Fallback ==> c.congested <= 1)
    && (c.state == CongestedWait ==> c.congested <= 2)
  }

  ghost predicate Inv(cfg: Config, c: Ctl, s: seq<Event>)
    requires forall e :: e in s ==> e.ControlSample?
  {
    RatesInv(cfg, c) && FallbackInv(cfg, c) && c.adjEpoch == c.rateEpoch && CongestionInv(c, s)
  }

  lemma InitInv(cfg: Config)
    requires ValidConfig(cfg)
    ensures Inv(cfg, Init(cfg), [])
  {
  }

  // ----- on_frame_acked -----

  lemma CeilingInRange(cfg: Config, bSafe: real, bAgg: real, t: real)
    requires ValidConfig(cfg) && cfg.bMin <= bSafe
    ensures InRange(cfg, CeilingAt(cfg, bSafe, bAgg, t))
  {
  }

  /** The loss ceiling is the only thing check_shallow_congestion touches. */
  lemma CheckShallowFrame(cfg: Config, c: Ctl, fa: FrameAck, bur: real)
    requires ValidConfig(cfg) && RatesInv(cfg, c)
    ensures var (c', events) := CheckShallow(cfg, c, fa, bur);
      && RatesInv(cfg, c')
      && c' == c.(shallow := c'.shallow, shallowAt := c'.shallowAt, lossSamples := c'.lossSamples,
                  bSafe := c'.bSafe, bAgg := c'.bAgg, cubicRate := c'.cubicRate)
      && (forall e :: e in events ==> e.LossCeilingSet?)
  {
    var ls := NextLossSamples(c, fa);
    var (c', events) := CheckShallow(cfg, c, fa, bur);
    hide AverageAck, AverageRate, CeilingAt;
    forall bSafe, bAgg, t | cfg.bMin <= bSafe
      ensures InRange(cfg, CeilingAt(cfg, bSafe, bAgg, t))
    {
      CeilingInRange(cfg, bSafe, bAgg, t);
    }
  }

  /** A fallback ends with an uncongested sample, which puts the saved rate back. */
  ghost predicate Restored(c: Ctl, c': Ctl, bur: real) {
    if bur <= 1.0 && (c.state == Fallback || c.state == CongestedWait)
    then c'.state == Steady && !c'.fallbackPending && c'.savedRate == 0.0 && c'.rate == c.Underlying()
    else
      && c'.state == c.state && c'.fallbackPending == c.fallbackPending
      && c'.savedRate == c.savedRate && c'.rate == c.rate
  }

  lemma RestoreFrame(cfg: Config, c: Ctl, bur: real)
    requires ValidConfig(cfg) && RatesInv(cfg, c) && FallbackInv(cfg, c)
    ensures var (c', events) := Restore(c, bur);
      && RatesInv(cfg, c') && FallbackInv(cfg, c') && Restored(c, c', bur)
      && c' == c.(pacing := PacingMultiplier(bur), lastBur := bur, rate := c'.rate, savedRate := c'.savedRate,
                  fallbackPending := c'.fallbackPending, state := c'.state)
      && (forall e :: e in events ==> e.FallbackRestored?)
  {
  }

  lemma ObserveFrame(cfg: Config, c: Ctl, fa: FrameAck)
    requires ValidConfig(cfg) && ValidAck(fa) && RatesInv(cfg, c) && FallbackInv(cfg, c)
    ensures var (c', events, smooth) := Observe(cfg, c, fa);
      && RatesInv(cfg, c') && FallbackInv(cfg, c')
      && Restored(c, c', FrameBur(fa))
      && c'.lastSampleId == fa.fid
      && c'.congested == (if c.lastSampleId != 0 && fa.fid != c.lastSampleId + 1 then 0 else c.congested)
      && c'.onsetSum == c.onsetSum && c'.onsetN == c.onsetN
      && c'.rateEpoch == c.rateEpoch && c'.adjEpoch == c.adjEpoch
      && c'.pacing == PacingMultiplier(FrameBur(fa)) && c'.lastBur == FrameBur(fa)
      && (forall e :: e in events ==> e.LossCeilingSet? || e.FallbackRestored?)
  {
    var bur := FrameBur(fa);
    var c0 := Admit(c, fa);
    assert RatesInv(cfg, c0) && FallbackInv(cfg, c0);
    CheckShallowFrame(cfg, c0, fa, bur);
    var (c1, shallowEvents) := CheckShallow(cfg, c0, fa, bur);
    assert FallbackInv(cfg, c1);
    RestoreFrame(cfg, c1, bur);
    var (c2, restoreEvents) := Restore(c1, bur);
    RememberKeepsHistory(c2, fa, bur);
    var c3 := Remember(c2, fa, bur);
    var smooth := SmoothedBur(c3.history, c3.rate);
    var c4 := ResetTau(c3, fa, smooth);
    assert Observe(cfg, c, fa) == (c4, shallowEvents + restoreEvents, smooth);
    hide CheckShallow, Restore, FrameBur, SmoothedBur, Prune, Observe, PacingMultiplier;
    assert c4 == c2.(history := c4.history, framesUp := c4.framesUp, resetSlot := c4.resetSlot);
  }

  /** What a verdict may log. */
  predicate VerdictEvent(e: Event) { e.FallbackSet? || e.DrainStart? || e.DrainEnd? }

  lemma CongestedFrame(cfg: Config, c: Ctl, fa: FrameAck)
    requires ValidConfig(cfg) && RatesInv(cfg, c) && FallbackInv(cfg, c) && c.adjEpoch == c.rateEpoch
    ensures var (c', events) := Congested(cfg, c, fa);
      && RatesInv(cfg, c') && FallbackInv(cfg, c') && c'.adjEpoch == c'.rateEpoch
      && c'.lastSampleId == c.lastSampleId && c'.pacing == c.pacing && c'.lastBur == c.lastBur
      && (forall e :: e in events ==> VerdictEvent(e))
  {
    hide DrainRate, PacingMultiplier, ValidHistory;
  }

  lemma UncongestedFrame(cfg: Config, c: Ctl, fa: FrameAck, smooth: real)
    requires ValidConfig(cfg) && RatesInv(cfg, c) && FallbackInv(cfg, c) && c.adjEpoch == c.rateEpoch
    requires c.state == Steady || c.state == Draining
    ensures var (c', events) := Uncongested(cfg, c, fa, smooth);
      && RatesInv(cfg, c') && FallbackInv(cfg, c') && c'.adjEpoch == c'.rateEpoch
      && c'.lastSampleId == c.lastSampleId && c'.pacing == c.pacing && c'.lastBur == c.lastBur
      && (forall e :: e in events ==> VerdictEvent(e))
  {
    hide NextBitrate;
  }

  lemma VerdictFrame(cfg: Config, c: Ctl, fa: FrameAck, smooth: real)
    requires ValidConfig(cfg) && RatesInv(cfg, c) && FallbackInv(cfg, c) && c.adjEpoch == c.rateEpoch
    requires FrameBur(fa) <= 1.0 ==> c.state == Steady || c.state == Draining
    ensures var (c', events) := Verdict(cfg, c, fa, smooth);
      && RatesInv(cfg, c') && FallbackInv(cfg, c') && c'.adjEpoch == c'.rateEpoch
      && c'.lastSampleId == c.lastSampleId && c'.pacing == c.pacing && c'.lastBur == c.lastBur
      && (forall e :: e in events ==> VerdictEvent(e))
  {
    hide FrameBur, Congested, Uncongested, RatesInv, FallbackInv;
    if FrameBur(fa) > 1.0 {
      CongestedFrame(cfg, c, fa);
    } else {
      UncongestedFrame(cfg, c, fa, smooth);
    }
  }

  lemma NoSamples(events: seq<Event>)
    requires forall e :: e in events ==> !e.ControlSample?
    ensures Samples(events) == []
  {
  }

  ghost predicate CtlInv(cfg: Config, c: Ctl) {
    RatesInv(cfg, c) && FallbackInv(cfg, c) && c.adjEpoch == c.rateEpoch
  }

  lemma CtlInvValid(cfg: Config, c: Ctl)
    requires ValidConfig(cfg) && CtlInv(cfg, c)
    ensures ValidCtl(c)
  {
  }

  /** The stages of an accepted ACK. */
  lemma AckedStages(cfg: Config, c: Ctl, fa: FrameAck)
    requires ValidConfig(cfg) && ValidAck(fa) && CtlInv(cfg, c) && fa.fid > c.lastSampleId
    ensures var (c1, seen, smooth) := Observe(cfg, c, fa);
      var (c2, verdict) := Verdict(cfg, c1, fa, smooth);
      var (c', out, events) := OnFrameAcked(cfg, c, fa);
      && c' == c2 && CtlInv(cfg, c') && c'.lastSampleId == fa.fid
      && events == (seen + verdict) + [SampleEvent(c', fa, FrameBur(fa))]
      && out == Output(true, c'.FinalBitrate(), c'.pacing, FrameBur(fa))
      && c'.pacing == PacingMultiplier(FrameBur(fa))
      && (forall e :: e in seen ==> e.LossCeilingSet? || e.FallbackRestored?)
      && (forall e :: e in verdict ==> VerdictEvent(e))
  {
    ObserveFrame(cfg, c, fa);
    var (c1, seen, smooth) := Observe(cfg, c, fa);
    VerdictFrame(cfg, c1, fa, smooth);
    hide Observe, Verdict, FrameBur, SampleEvent, RatesInv, FallbackInv, PacingMultiplier;
  }

  lemma SampleKind(c: Ctl, fa: FrameAck)
    ensures SampleEvent(c, fa, FrameBur(fa)).ControlSample?
  {
  }

  /** An accepted ACK adds exactly one sample to the log. */
  lemma AckedSamples(cfg: Config, c: Ctl, fa: FrameAck)
    requires ValidConfig(cfg) && ValidAck(fa) && CtlInv(cfg, c) && fa.fid > c.lastSampleId
    ensures var (c', out, events) := OnFrameAcked(cfg, c, fa);
      Samples(events) == [SampleEvent(c', fa, FrameBur(fa))]
  {
    hide Observe, Verdict, FrameBur, SampleEvent, RatesInv, FallbackInv, OnFrameAcked, PacingMultiplier, ValidAck,
      ValidHistory;
    assert ValidCtl(c) by {
      CtlInvValid(cfg, c);
    }
    AckedStages(cfg, c, fa);
    var (c1, seen, smooth) := Observe(cfg, c, fa);
    var (c2, verdict) := Verdict(cfg, c1, fa, smooth);
    var sample := SampleEvent(c2, fa, FrameBur(fa));
    assert sample.ControlSample? by {
      SampleKind(c2, fa);
    }
    NoSamples(seen + verdict);
    SamplesAppend(seen + verdict, [sample]);
    OneSample(sample);
  }

  lemma OneSample(e: Event)
    requires e.ControlSample?
    ensures Samples([e]) == [e]
  {
  }

  /** An accepted sample extends the congested run or ends it, and the counters follow. */
  lemma CountersFollow(c: Ctl, s: seq<Event>, e: Event)
    requires (forall x :: x in s ==> x.ControlSample?) && e.ControlSample?
    requires CongestionInv(c, s) && e.fid > c.lastSampleId
    ensures var kept := if c.lastSampleId != 0 && e.fid != c.lastSampleId + 1 then 0 else c.congested;
      && LastId(s + [e]) == e.fid
      && (e.bur <= 1.0 ==> RunLength(s + [e]) == 0)
      && (e.bur > 1.0 ==>
            && kept + 1 <= RunLength(s + [e]) <= |s| + 1
            && (c.state != Draining ==> RunLength(s + [e]) == kept + 1)
            && RecvSum(s + [e], kept + 1) == (if kept == 0 then 0.0 else c.onsetSum) + e.recvRate)
  {
    var t := s + [e];
    assert t[..|t| - 1] == s;
    hide Samples;
  }

  lemma AckedKeepsCongestion(cfg: Config, c: Ctl, fa: FrameAck, s: seq<Event>)
    requires ValidConfig(cfg) && ValidAck(fa) && fa.fid > c.lastSampleId
    requires (forall x :: x in s ==> x.ControlSample?) && Inv(cfg, c, s)
    ensures var c' := OnFrameAcked(cfg, c, fa).0;
      CongestionInv(c', s + [SampleEvent(c', fa, FrameBur(fa))])
  {
    AckedStages(cfg, c, fa);
    ObserveFrame(cfg, c, fa);
    var c' := OnFrameAcked(cfg, c, fa).0;
    var (c1, seen, smooth) := Observe(cfg, c, fa);
    hide OnFrameAcked, Observe, Verdict, FrameBur, RatesInv, FallbackInv, RunLength, RecvSum, PacingMultiplier;
    CountersFollow(c, s, SampleEvent(c', fa, FrameBur(fa)));
    VerdictCounters(cfg, c1, fa, smooth);
  }

  lemma VerdictCounters(cfg: Config, c: Ctl, fa: FrameAck, smooth: real)
    requires ValidConfig(cfg)
    ensures var c' := Verdict(cfg, c, fa, smooth).0;
      if FrameBur(fa) > 1.0 then
        && c'.congested == c.congested + 1
        && c'.onsetSum == (if c.congested == 0 then 0.0 else c.onsetSum) + fa.recvRate
        && c'.onsetN == (if c.congested == 0 then 0 else c.onsetN) + 1
        && c'.state == (if c.state == Draining || c.congested + 1 >= 3 then Draining
                        else if c.congested + 1 == 2 then CongestedWait
                        else if c.state == Steady then Fallback else c.state)
      else
        c'.congested == 0 && c'.state == (if c.state == Draining then Steady else c.state)
  {
    hide FrameBur, NextBitrate, DrainRate;
  }

  // ----- Every call, every run -----

  lemma OtherCallsKeepInv(cfg: Config, c: Ctl, op: Op, s: seq<Event>)
    requires ValidConfig(cfg) && !op.Acked?
    requires (forall x :: x in s ==> x.ControlSample?) && Inv(cfg, c, s)
    ensures Inv(cfg, Apply(cfg, c, op).0, s) && Samples(Apply(cfg, c, op).1) == []
  {
    var (c', events) := Apply(cfg, c, op);
    hide RunLength, RecvSum;
    NoSamples(events);
  }

  /** Every public call keeps the invariant. */
  lemma ApplyKeepsInv(cfg: Config, c: Ctl, op: Op, s: seq<Event>)
    requires ValidConfig(cfg) && ValidOp(op)
    requires (forall x :: x in s ==> x.ControlSample?) && Inv(cfg, c, s)
    ensures var (c', events) := Apply(cfg, c, op); Inv(cfg, c', s + Samples(events))
  {
    if op.Acked? {
      if op.fa.fid > c.lastSampleId {
        AckedStages(cfg, c, op.fa);
        AckedSamples(cfg, c, op.fa);
        AckedKeepsCongestion(cfg, c, op.fa, s);
      } else {
        assert s + Samples([]) == s;
      }
    } else {
      OtherCallsKeepInv(cfg, c, op, s);
      assert s + [] == s;
    }
  }

  lemma ApplyKeepsCtlInv(cfg: Config, c: Ctl, op: Op)
    requires ValidConfig(cfg) && ValidOp(op) && CtlInv(cfg, c)
    ensures CtlInv(cfg, Apply(cfg, c, op).0)
  {
    if op.Acked? && op.fa.fid > c.lastSampleId {
      AckedStages(cfg, c, op.fa);
    }
  }

  /** A run of calls: the state it reaches and the events it logs. */
  function Run(cfg: Config, c: Ctl, ops: seq<Op>): (r: (Ctl, seq<Event>))
    requires ValidConfig(cfg) && CtlInv(cfg, c) && forall op :: op in ops ==> ValidOp(op)
    ensures CtlInv(cfg, r.0)
  {
    if ops == [] then (c, [])
    else
      var (c1, log) := Run(cfg, c, ops[..|ops| - 1]);
      ApplyKeepsCtlInv(cfg, c1, ops[|ops| - 1]);
      var (c2, events) := Apply(cfg, c1, ops[|ops| - 1]);
      (c2, log + events)
  }

  /** Every state of every run satisfies the invariant, with the samples the run has logged. */
  lemma {:induction false} RunKeepsInv(cfg: Config, ops: seq<Op>)
    requires ValidConfig(cfg) && forall op :: op in ops ==> ValidOp(op)
    ensures CtlInv(cfg, Init(cfg))
    ensures var (c, log) := Run(cfg, Init(cfg), ops); Inv(cfg, c, Samples(log))
  {
    InitInv(cfg);
    if ops != [] {
      RunKeepsInv(cfg, ops[..|ops| - 1]);
      var (c, log) := Run(cfg, Init(cfg), ops[..|ops| - 1]);
      ApplyKeepsInv(cfg, c, ops[|ops| - 1], Samples(log));
      SamplesAppend(log, Apply(cfg, c, ops[|ops| - 1]).1);
    }
  }
}
