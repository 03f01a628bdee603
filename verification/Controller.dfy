/** The congestion controller (codes/pudica_algo.h, codes/pudica_algo.cc), over real numbers. */
module Controller {
  import opened Bytes
  import opened EventLog
  import Protocol

  // ----- Configuration and constants (PudicaConfig) -----

  const INTERVAL: nat := Protocol.INTERVAL
  const L_SEC: real := INTERVAL as real / 1_000_000.0
  const GAMMA_P: real := 1.25
  const ALPHA: real := 0.85
  const GAMMA_MI: real := 0.3
  const GAMMA_MD: real := 0.05
  const A_MIN: real := -1.0
  const A_MAX: real := GAMMA_MD
  const ZETA: real := 0.15
  const DRAIN_WIN: real := 0.2
  const NEXT_DELAY_THRESH: nat := 2 * INTERVAL
  const HISTORY_WINDOW: nat := 200_000
  const UINT64_MAX: u64 := 0xFFFF_FFFF_FFFF_FFFF

  /** The bitrate bounds, and the library functions the controller calls without the model fixing their values. */
  datatype Config = Config(bMin: real, bMax: real, log: real -> real, cbrt: real -> real)

  ghost predicate ValidConfig(cfg: Config) {
    0.0 < cfg.bMin <= cfg.bMax
  }

  function MinR(a: real, b: real): real { if b < a then b else a }
  function MaxR(a: real, b: real): real { if a < b then b else a }
  function Clamp(x: real, lo: real, hi: real): real { MinR(MaxR(x, lo), hi) }

  // ----- Samples and inputs -----

  datatype State = Steady | Fallback | CongestedWait | Draining

  datatype Sample = Sample(bur: real, rate: real, ts: u64)

  datatype LossSample = LossSample(queue: real, frameMbps: real, ackBytes: real, ackFirst: u64, ackLast: u64)

  datatype FrameAck = FrameAck(
    fid: u32, delay: real, minDelay: real, probes: seq<real>, recvRate: real, inBytes: real, now: u64,
    sentBitrate: real, lossy: bool, frameMbps: real, ackBytes: real, ackFirst: u64, ackLast: u64,
    epoch: nat, wall: u64, baseRtt: real)

  /** Probe delays are durations. */
  ghost predicate ValidAck(fa: FrameAck) {
    forall i :: 0 <= i < |fa.probes| ==> fa.probes[i] >= 0.0
  }

  datatype Output = Output(valid: bool, bitrate: real, pacing: real, bur: real)

  // ----- Estimators -----

  function RawBur(delay: real, minDelay: real): real {
    MaxR(0.0, (delay - minDelay) / L_SEC)
  }

  function PacingMultiplier(bur: real): (rho: real)
    ensures rho >= GAMMA_P
  {
    var r := MinR(MaxR(bur, 0.01), 1.0);
    assert GAMMA_P / r >= GAMMA_P;
    GAMMA_P / r
  }

  function CorrectedBur(raw: real, probes: seq<real>): (r: real)
    ensures (forall i :: 0 <= i < |probes| ==> probes[i] >= 0.0) ==> r >= raw
  {
    if probes == [] then raw
    else CorrectedBur(raw, probes[..|probes| - 1]) + probes[|probes| - 1] / L_SEC
  }

  /** The BUR of the frame an ACK reports. */
  function FrameBur(fa: FrameAck): (r: real)
    ensures ValidAck(fa) ==> r >= 0.0
  {
    CorrectedBur(RawBur(fa.delay, fa.minDelay), fa.probes)
  }

  ghost predicate ValidHistory(h: seq<Sample>) {
    forall s :: s in h ==> s.bur >= 0.0 && s.rate > 0.0
  }

  function Weight(s: Sample, k: nat): (w: real)
    ensures s.bur >= 0.0 && s.rate > 0.0 ==> w > 0.0
  {
    var a, b, c := MinR(s.bur + 1.0, 2.0), MinR(s.rate + 10.0, 50.0), (k + 1) as real + 20.0;
    assert a > 0.0 && b > 0.0 ==> a * b > 0.0;
    (a * b) * c
  }

  /** A sample's BUR scaled to the current rate. */
  function Rectified(s: Sample, rate: real): real {
    s.bur * (rate / MaxR(s.rate, 0.01))
  }

  function WeightSum(h: seq<Sample>, n: nat): (w: real)
    requires n <= |h|
    ensures ValidHistory(h) ==> w >= 0.0 && (n > 0 ==> w > 0.0)
  {
    if n == 0 then 0.0 else WeightSum(h, n - 1) + Weight(h[n - 1], n - 1)
  }

  function WeightedTerm(s: Sample, k: nat, rate: real): real {
    Weight(s, k) * Rectified(s, rate)
  }

  function WeightedSum(h: seq<Sample>, n: nat, rate: real): real
    requires n <= |h|
  {
    if n == 0 then 0.0 else WeightedSum(h, n - 1, rate) + WeightedTerm(h[n - 1], n - 1, rate)
  }

  function SmoothedBur(h: seq<Sample>, rate: real): real
    requires ValidHistory(h)
  {
    if h == [] then 0.0 else WeightedSum(h, |h|, rate) / WeightSum(h, |h|)
  }

  function Pow2(n: nat): (r: real)
    ensures r >= 1.0
  {
    if n == 0 then 1.0 else 2.0 * Pow2(n - 1)
  }

  function NextBitrate(cfg: Config, rate: real, bur: real, frames: nat): (r: real)
    requires ValidConfig(cfg)
    ensures cfg.bMin <= r <= cfg.bMax
  {
    var next :=
      if bur <= ALPHA then
        rate * (1.0 + GAMMA_MI * ((1.0 + ALPHA) / (2.0 * MaxR(bur, 0.01)) - 1.0))
      else if bur <= 1.0 then
        rate + AdditiveStep(cfg, rate, frames)
      else rate;
    Clamp(next, cfg.bMin, cfg.bMax)
  }

  function AdditiveStep(cfg: Config, rate: real, frames: nat): real
    requires ValidConfig(cfg)
  {
    var tau := if frames < 50 then frames else 50;
    var i := (cfg.bMax + Pow2(tau) / MaxR(cfg.log(rate), cfg.bMin)) * (GAMMA_MD / 2.0);
    MinR(MaxR(A_MIN, i - GAMMA_MD * rate), A_MAX * rate)
  }

  // ----- Controller state -----

  datatype Ctl = Ctl(
    history: seq<Sample>, rate: real, pacing: real, lastBur: real, state: State, savedRate: real,
    resetSlot: u64, framesUp: nat, rateEpoch: nat, adjEpoch: nat, onsetSum: real, onsetN: nat,
    lastLossBackoff: u64, cubicRate: real, shallow: bool, shallowAt: u64, congested: nat, lastSampleId: nat,
    lossSamples: seq<LossSample>, fallbackPending: bool, bAgg: real, bSafe: real)
  {
    function FinalBitrate(): real { MinR(rate, cubicRate) }

    /** The rate apart from a temporary fallback. */
    function Underlying(): real { if fallbackPending then savedRate else rate }
  }

  function Init(cfg: Config): Ctl {
    Ctl([], cfg.bMin, GAMMA_P, 0.0, Steady, 0.0, UINT64_MAX, 0, 0, 0, 0.0, 0, 0,
        cfg.bMax, false, 0, 0, 0, [], false, 0.0, 0.0)
  }

  // ----- check_shallow_congestion -----

  function RateSum(ls: seq<LossSample>): real {
    if ls == [] then 0.0 else RateSum(ls[..|ls| - 1]) + ls[|ls| - 1].frameMbps
  }

  function AckedSum(ls: seq<LossSample>): real {
    if ls == [] then 0.0
    else
      var last := ls[|ls| - 1];
      AckedSum(ls[..|ls| - 1]) + if last.ackLast > last.ackFirst then last.ackBytes else 0.0
  }

  function SpanSum(ls: seq<LossSample>): (r: real)
    ensures r >= 0.0
  {
    if ls == [] then 0.0
    else
      var last := ls[|ls| - 1];
      SpanSum(ls[..|ls| - 1]) + if last.ackLast > last.ackFirst then (last.ackLast - last.ackFirst) as real else 0.0
  }

  function AverageRate(ls: seq<LossSample>): real {
    if ls == [] then 0.0 else RateSum(ls) / |ls| as real
  }

  function AverageAck(ls: seq<LossSample>): real {
    if SpanSum(ls) > 0.0 then 8.0 * AckedSum(ls) / SpanSum(ls) else 0.0
  }

  function NextLossSamples(c: Ctl, fa: FrameAck): seq<LossSample> {
    if !fa.lossy then []
    else
      var pushed := c.lossSamples + [LossSample(fa.delay - fa.minDelay,
                                                if fa.frameMbps > 0.0 then fa.frameMbps else c.rate,
                                                fa.ackBytes, fa.ackFirst, fa.ackLast)];
      if |pushed| > 3 then pushed[1..] else pushed
  }

  predicate CeilingTriggered(ls: seq<LossSample>) {
    |ls| == 3 && ls[0].queue < L_SEC && AverageAck(ls) < AverageRate(ls)
  }

  function Cube(x: real): real { x * x * x }

  /** The cubic ceiling t seconds into an episode, with C = 1. */
  function CeilingAt(cfg: Config, bSafe: real, bAgg: real, t: real): real {
    var candidate := Cube(t - cfg.cbrt(bAgg - bSafe)) + bAgg;
    MinR(MaxR(candidate, bSafe), cfg.bMax)
  }

  function Seconds(us: nat): real { us as real / 1_000_000.0 }

  function CheckShallow(cfg: Config, c: Ctl, fa: FrameAck, bur: real): (Ctl, seq<Event>) {
    var ls := NextLossSamples(c, fa);
    var c1 := if CeilingTriggered(ls)
      then
        var bSafe := MaxR(0.2 * AverageAck(ls), cfg.bMin);
        c.(shallow := true, shallowAt := fa.now, lossSamples := [],
           bSafe := bSafe, bAgg := MaxR(AverageRate(ls), bSafe), cubicRate := bSafe)
      else c.(lossSamples := ls);
    var events := if CeilingTriggered(ls)
      then [LossCeilingSet(fa.fid, c1.cubicRate, AverageAck(ls), AverageRate(ls))]
      else [];
    if !c1.shallow then (c1, events)
    else
      var c2 := c1.(cubicRate := CeilingAt(cfg, c1.bSafe, c1.bAgg, Seconds(Sub64(fa.now, c1.shallowAt))));
      if bur <= ALPHA && c2.cubicRate >= c2.rate * 0.95
      then (c2.(shallow := false, cubicRate := cfg.bMax), events)
      else (c2, events)
  }

  // ----- on_frame_acked, stage by stage -----

  function Admit(c: Ctl, fa: FrameAck): Ctl {
    if c.lastSampleId != 0 && fa.fid != c.lastSampleId + 1
    then c.(congested := 0, lossSamples := [], lastSampleId := fa.fid)
    else c.(lastSampleId := fa.fid)
  }

  function Restore(c: Ctl, bur: real): (Ctl, seq<Event>) {
    var c1 := c.(pacing := PacingMultiplier(bur), lastBur := bur);
    if bur <= 1.0 && (c.state == Fallback || c.state == CongestedWait)
    then (c1.(rate := if c.fallbackPending && c.savedRate > 0.0 then c.savedRate else c.rate,
              savedRate := 0.0, fallbackPending := false, state := Steady),
          [FallbackRestored(c.savedRate)])
    else (c1, [])
  }

  /** The history without the samples that are more than 200 ms old. */
  function Prune(h: seq<Sample>, now: u64): (r: seq<Sample>)
    ensures forall s :: s in r ==> s in h
    ensures h != [] && h[|h| - 1].ts == now ==> r != []
  {
    if h != [] && Sub64(now, h[0].ts) > HISTORY_WINDOW then Prune(h[1..], now) else h
  }

  function Remember(c: Ctl, fa: FrameAck, bur: real): Ctl {
    var s := Sample(bur, if fa.frameMbps > 0.0 then fa.frameMbps else c.rate, fa.now);
    c.(history := Prune(c.history + [s], fa.now))
  }

  lemma RememberKeepsHistory(c: Ctl, fa: FrameAck, bur: real)
    requires ValidHistory(c.history) && c.rate > 0.0 && bur >= 0.0
    ensures ValidHistory(Remember(c, fa, bur).history) && Remember(c, fa, bur).history != []
  {
  }

  function ResetTau(c: Ctl, fa: FrameAck, smooth: real): Ctl {
    var slot := (if fa.wall != 0 then fa.wall else fa.now) / 5_000_000;
    c.(framesUp := if smooth > 1.0 || slot != c.resetSlot then 0 else c.framesUp, resetSlot := slot)
  }

  function QueuedBytes(fa: FrameAck, recvRate: real): real {
    MaxR(0.0, fa.inBytes - recvRate * 1_000_000.0 / 8.0 * fa.baseRtt)
  }

  function DrainRate(fa: FrameAck, recvRate: real): real {
    8.0 * QueuedBytes(fa, recvRate) / (DRAIN_WIN * 1_000_000.0)
  }

  function StartDrain(cfg: Config, c: Ctl, fa: FrameAck): (Ctl, seq<Event>)
    requires c.onsetN > 0
  {
    var recvRate := c.onsetSum / c.onsetN as real;
    var rate := Clamp(ALPHA * recvRate - DrainRate(fa, recvRate), cfg.bMin, cfg.bMax);
    (c.(state := Draining, savedRate := 0.0, fallbackPending := false, rate := rate,
        rateEpoch := c.rateEpoch + 1, adjEpoch := c.rateEpoch + 1),
     [DrainStart(fa.fid, DrainRate(fa, recvRate), recvRate, rate)])
  }

  function CountCongested(c: Ctl, fa: FrameAck): (r: Ctl)
    ensures r.onsetN > 0
  {
    if c.congested == 0 then c.(congested := 1, onsetSum := fa.recvRate, onsetN := 1)
    else c.(congested := c.congested + 1, onsetSum := c.onsetSum + fa.recvRate, onsetN := c.onsetN + 1)
  }

  function Congested(cfg: Config, c0: Ctl, fa: FrameAck): (Ctl, seq<Event>) {
    var c := CountCongested(c0, fa);
    if c.congested == 1 && c.state == Steady then
      var rate := Clamp(c.rate * (1.0 - ZETA), cfg.bMin, cfg.bMax);
      (c.(savedRate := c.rate, fallbackPending := true, state := Fallback, rate := rate),
       [FallbackSet(fa.fid, c.rate, rate)])
    else if c.congested == 2 && c.state != Draining then (c.(state := CongestedWait), [])
    else if c.congested >= 3 && c.state != Draining then StartDrain(cfg, c, fa)
    else (c, [])
  }

  function Uncongested(cfg: Config, c0: Ctl, fa: FrameAck, smooth: real): (Ctl, seq<Event>)
    requires ValidConfig(cfg)
  {
    var c := c0.(congested := 0);
    if c.state == Draining then
      var rate := MinR(MaxR(fa.recvRate, cfg.bMin), cfg.bMax);
      (c.(state := Steady, framesUp := 0, savedRate := 0.0, rate := rate,
          rateEpoch := c.rateEpoch + 1, adjEpoch := c.rateEpoch + 1, history := []),
       [DrainEnd(fa.fid, rate)])
    else
      var c1 := c.(framesUp := c.framesUp + 1);
      if fa.epoch >= c1.adjEpoch
      then (c1.(rate := NextBitrate(cfg, c1.rate, smooth, c1.framesUp),
                rateEpoch := c1.rateEpoch + 1, adjEpoch := c1.rateEpoch + 1), [])
      else (c1, [])
  }

  function SampleEvent(c: Ctl, fa: FrameAck, bur: real): Event {
    ControlSample(fa.fid, bur, c.FinalBitrate(), c.pacing, fa.recvRate, |fa.probes|)
  }

  ghost predicate ValidCtl(c: Ctl) {
    ValidHistory(c.history) && c.rate > 0.0 && (c.savedRate > 0.0 || c.savedRate == 0.0)
  }

  /** The state in which the verdict on the sample is taken, what was logged so far, and the smoothed BUR. */
  function Observe(cfg: Config, c: Ctl, fa: FrameAck): (Ctl, seq<Event>, real)
    requires ValidCtl(c) && ValidAck(fa)
  {
    var bur := FrameBur(fa);
    var (c1, shallowEvents) := CheckShallow(cfg, Admit(c, fa), fa, bur);
    var (c2, restoreEvents) := Restore(c1, bur);
    var c3 := Remember(c2, fa, bur);
    RememberKeepsHistory(c2, fa, bur);
    var smooth := SmoothedBur(c3.history, c3.rate);
    (ResetTau(c3, fa, smooth), shallowEvents + restoreEvents, smooth)
  }

  /** What the sample does to the state and the rate. */
  function Verdict(cfg: Config, c: Ctl, fa: FrameAck, smooth: real): (Ctl, seq<Event>)
    requires ValidConfig(cfg)
  {
    if FrameBur(fa) > 1.0 then Congested(cfg, c, fa) else Uncongested(cfg, c, fa, smooth)
  }

  function OnFrameAcked(cfg: Config, c: Ctl, fa: FrameAck): (Ctl, Output, seq<Event>)
    requires ValidConfig(cfg) && ValidCtl(c) && ValidAck(fa)
  {
    if fa.fid <= c.lastSampleId then (c, Output(false, c.FinalBitrate(), c.pacing, c.lastBur), [])
    else
      var (c1, events, smooth) := Observe(cfg, c, fa);
      var (c2, verdict) := Verdict(cfg, c1, fa, smooth);
      (c2, Output(true, c2.FinalBitrate(), c2.pacing, c2.lastBur),
       events + verdict + [SampleEvent(c2, fa, FrameBur(fa))])
  }

  // ----- The other calls -----

  function OnFrameLoss(cfg: Config, c: Ctl, now: u64, minGap: u64): (Ctl, seq<Event>) {
    if now != 0 && c.lastLossBackoff != 0 && Sub64(now, c.lastLossBackoff) < minGap then (c, [])
    else
      var rate := MaxR(c.rate * 0.5, cfg.bMin);
      (c.(lastLossBackoff := now, state := Draining, savedRate := 0.0, fallbackPending := false, congested := 0,
          framesUp := 0, rate := rate, rateEpoch := c.rateEpoch + 1, adjEpoch := c.rateEpoch + 1,
          history := [], lossSamples := []),
       [LossBackoff(rate), DrainStart(0, 0.0, 0.0, rate)])
  }

  function ForceDrain(c: Ctl): Ctl {
    c.(state := Draining, savedRate := 0.0, fallbackPending := false, congested := 0)
  }

  function Add64(a: nat, b: nat): u64 { (a + b) % TWO64 }

  function OnInflightAge(cfg: Config, c: Ctl, age: u64, baseRtt: u64): (Ctl, Output, seq<Event>) {
    if age < Add64(baseRtt, NEXT_DELAY_THRESH) || c.state != Steady then (c, Output(false, 0.0, 0.0, 0.0), [])
    else
      var rate := MaxR(c.rate * (1.0 - ZETA), cfg.bMin);
      var c1 := c.(savedRate := c.rate, fallbackPending := true, state := Fallback, rate := rate);
      (c1, Output(true, c1.FinalBitrate(), c1.pacing, c1.lastBur), [FallbackSet(0, c.rate, rate)])
  }

  function TakeEncodingBitrate(cfg: Config, c: Ctl): (Ctl, real, seq<Event>) {
    if !c.fallbackPending then (c, c.FinalBitrate(), [])
    else
      var rate := MaxR(c.savedRate, cfg.bMin);
      (c.(fallbackPending := false, rate := rate, savedRate := 0.0), c.FinalBitrate(), [FallbackRestored(rate)])
  }
}
