/** Rate epochs, over runs of the capture thread together with the controller. */
module CaptureEpochs {
  import opened Controller
  import opened ControllerRuns
  import opened ControllerTheorems

  datatype Step =
    | Encode                            // take_encoding_bitrate, then encoding_epoch, under one lock
    | SampleOf(frame: nat, fa: FrameAck) // on_frame_acked for a frame encoded before
    | Call(op: Op)                      // any other call

  /** The controller, the epoch tag of each encoded frame, how many frames were encoded when each epoch opened,
      and the frames whose samples drove a rate step, in order. */
  datatype Cap = Cap(c: Ctl, tags: seq<nat>, openedAt: seq<nat>, drivers: seq<nat>)

  ghost predicate Enabled(s: Cap, step: Step) {
    match step
    case Encode => true
    case SampleOf(frame, fa) => frame < |s.tags| && fa.epoch == s.tags[frame] && ValidAck(fa)
    case Call(op) => !op.Acked? && !op.TakeEncoding?
  }

  /** The sample drives a step of next_bitrate. */
  predicate StepsRate(c: Ctl, fa: FrameAck) {
    fa.fid > c.lastSampleId && FrameBur(fa) <= 1.0 && c.state != Draining && fa.epoch >= c.adjEpoch
  }

  /** An uncongested sample outside a drain runs next_bitrate exactly when StepsRate holds; otherwise the rate becomes
      the underlying one. */
  ghost predicate StepsExactly(cfg: Config, c: Ctl, fa: FrameAck)
    requires ValidConfig(cfg) && ValidAck(fa) && ValidCtl(c)
  {
    var (c1, seen, smooth) := Observe(cfg, c, fa);
    OnFrameAcked(cfg, c, fa).0.rate ==
      if StepsRate(c, fa) then NextBitrate(cfg, c.Underlying(), smooth, c1.framesUp + 1) else c.Underlying()
  }

  lemma RateStepsExactly(cfg: Config, c: Ctl, fa: FrameAck)
    requires ValidConfig(cfg) && ValidAck(fa) && CtlInv(cfg, c)
    requires fa.fid > c.lastSampleId && FrameBur(fa) <= 1.0 && c.state != Draining
    ensures StepsExactly(cfg, c, fa)
  {
    AckedStages(cfg, c, fa);
    ObserveFrame(cfg, c, fa);
    var (c1, seen, smooth) := Observe(cfg, c, fa);
    VerdictFallback(cfg, c1, fa, smooth);
    VerdictCounters(cfg, c1, fa, smooth);
    hide OnFrameAcked, Observe, Verdict, FrameBur, PacingMultiplier, NextBitrate;
  }

  function Open(s: Cap, c: Ctl, drivers: seq<nat>): Cap {
    Cap(c, s.tags, if c.rateEpoch == s.c.rateEpoch then s.openedAt else s.openedAt + [|s.tags|], drivers)
  }

  function Next(cfg: Config, s: Cap, step: Step): Cap
    requires ValidConfig(cfg) && CtlInv(cfg, s.c) && Enabled(s, step)
  {
    match step
    case Encode =>
      var c := TakeEncodingBitrate(cfg, s.c).0;
      s.(c := c, tags := s.tags + [c.rateEpoch])
    case SampleOf(frame, fa) =>
      Open(s, OnFrameAcked(cfg, s.c, fa).0, if StepsRate(s.c, fa) then s.drivers + [frame] else s.drivers)
    case Call(op) => Open(s, Apply(cfg, s.c, op).0, s.drivers)
  }

  ghost predicate EpochInv(cfg: Config, s: Cap) {
    && CtlInv(cfg, s.c)
    && |s.openedAt| == s.c.rateEpoch + 1
    && s.openedAt[s.c.rateEpoch] <= |s.tags|
    // a frame is tagged with the epoch that was open when it was encoded
    && (forall k :: 0 <= k < |s.tags| ==> s.tags[k] <= s.c.rateEpoch && s.openedAt[s.tags[k]] <= k)
    && (forall k :: s.openedAt[s.c.rateEpoch] <= k < |s.tags| ==> s.tags[k] == s.c.rateEpoch)
    // rate steps are driven by ever later frames, each encoded before the newest epoch
    && (forall i :: 0 <= i < |s.drivers| ==> s.drivers[i] < s.openedAt[s.c.rateEpoch])
    && (forall i, j :: 0 <= i < j < |s.drivers| ==> s.drivers[i] < s.drivers[j])
  }

  /** A sample opens at most one epoch, and always opens one when it drives a rate step. */
  lemma AckedEpochs(cfg: Config, c: Ctl, fa: FrameAck)
    requires ValidConfig(cfg) && ValidAck(fa) && CtlInv(cfg, c)
    ensures var c' := OnFrameAcked(cfg, c, fa).0;
      && CtlInv(cfg, c') && (c'.rateEpoch == c.rateEpoch || c'.rateEpoch == c.rateEpoch + 1)
      && (StepsRate(c, fa) ==> c'.rateEpoch == c.rateEpoch + 1)
  {
    hide FrameBur, RatesInv, FallbackInv, Observe;
    if fa.fid > c.lastSampleId {
      AckedStages(cfg, c, fa);
      ObserveFrame(cfg, c, fa);
    }
  }

  lemma OtherEpochs(cfg: Config, c: Ctl, op: Op)
    requires ValidConfig(cfg) && CtlInv(cfg, c) && !op.Acked?
    ensures var c' := Apply(cfg, c, op).0;
      CtlInv(cfg, c') && (c'.rateEpoch == c.rateEpoch || (op.FrameLost? && c'.rateEpoch == c.rateEpoch + 1))
  {
    ApplyKeepsCtlInv(cfg, c, op);
  }

  lemma NextKeepsEpochInv(cfg: Config, s: Cap, step: Step)
    requires ValidConfig(cfg) && EpochInv(cfg, s) && Enabled(s, step)
    ensures EpochInv(cfg, Next(cfg, s, step))
  {
    hide CtlInv, OnFrameAcked, StepsRate, ValidAck;
    match step
    case Encode => OtherEpochs(cfg, s.c, TakeEncoding);
    case SampleOf(frame, fa) =>
      AckedEpochs(cfg, s.c, fa);
      if StepsRate(s.c, fa) {
        DriverIsNew(cfg, s, frame, fa);
      }
    case Call(op) => OtherEpochs(cfg, s.c, op);
  }

  /** A frame whose sample drives a rate step was encoded in the current epoch, after the decision that opened it;
      so it drove no step before, and neither did any later frame. */
  lemma DriverIsNew(cfg: Config, s: Cap, frame: nat, fa: FrameAck)
    requires ValidConfig(cfg) && EpochInv(cfg, s) && Enabled(s, SampleOf(frame, fa)) && StepsRate(s.c, fa)
    ensures s.tags[frame] == s.c.rateEpoch
    ensures s.openedAt[s.c.rateEpoch] <= frame
    ensures forall i :: 0 <= i < |s.drivers| ==> s.drivers[i] < frame
  {
  }

  /** The rule for an uncongested sample of this frame outside a drain: it steps the rate if the frame was encoded
      after the decision that opened the current epoch, and so after every frame that drove a step before; else it
      leaves the underlying rate. */
  ghost predicate SampleRule(cfg: Config, s: Cap, frame: nat, fa: FrameAck)
    requires ValidConfig(cfg) && CtlInv(cfg, s.c) && Enabled(s, SampleOf(frame, fa))
  {
    var s' := Next(cfg, s, SampleOf(frame, fa));
    var (c1, seen, smooth) := Observe(cfg, s.c, fa);
    && |s.openedAt| == s.c.rateEpoch + 1
    && if s.openedAt[s.c.rateEpoch] <= frame then
         && s.tags[frame] == s.c.rateEpoch && (forall i :: 0 <= i < |s.drivers| ==> s.drivers[i] < frame)
         && s'.drivers == s.drivers + [frame] && s'.c.rateEpoch == s.c.rateEpoch + 1
         && s'.c.rate == NextBitrate(cfg, s.c.Underlying(), smooth, c1.framesUp + 1)
       else
         && s.tags[frame] < s.c.rateEpoch
         && s'.drivers == s.drivers && s'.c.rate == s.c.Underlying()
  }

  /** A frame carries the current epoch exactly when it was encoded after the decision that opened it. */
  lemma TagsTell(cfg: Config, s: Cap, frame: nat)
    requires ValidConfig(cfg) && EpochInv(cfg, s) && frame < |s.tags|
    ensures CtlInv(cfg, s.c) && s.c.adjEpoch == s.c.rateEpoch && |s.openedAt| == s.c.rateEpoch + 1
    ensures s.tags[frame] <= s.c.rateEpoch
    ensures s.tags[frame] == s.c.rateEpoch <==> s.openedAt[s.c.rateEpoch] <= frame
    ensures s.openedAt[s.c.rateEpoch] <= frame ==> forall i :: 0 <= i < |s.drivers| ==> s.drivers[i] < frame
  {
  }

  /** What the sample's step does: the rate of on_frame_acked, and a driver if it steps the rate. */
  lemma SampleStep(cfg: Config, s: Cap, frame: nat, fa: FrameAck)
    requires ValidConfig(cfg) && CtlInv(cfg, s.c) && Enabled(s, SampleOf(frame, fa))
    ensures var s' := Next(cfg, s, SampleOf(frame, fa));
      && ValidCtl(s.c) && s'.c == OnFrameAcked(cfg, s.c, fa).0
      && s'.drivers == if StepsRate(s.c, fa) then s.drivers + [frame] else s.drivers
  {
    CtlInvValid(cfg, s.c);
    hide CtlInv, OnFrameAcked, StepsRate, ValidAck, ValidCtl;
  }

  lemma SampleFollowsRule(cfg: Config, s: Cap, frame: nat, fa: FrameAck)
    requires ValidConfig(cfg) && EpochInv(cfg, s) && Enabled(s, SampleOf(frame, fa))
    requires fa.fid > s.c.lastSampleId && FrameBur(fa) <= 1.0 && s.c.state != Draining
    ensures SampleRule(cfg, s, frame, fa)
  {
    TagsTell(cfg, s, frame);
    hide EpochInv, CtlInv, OnFrameAcked, Observe, FrameBur, NextBitrate, ValidAck, ValidCtl, Next;
    SampleStep(cfg, s, frame, fa);
    RateStepsExactly(cfg, s.c, fa);
    AckedEpochs(cfg, s.c, fa);
    assert StepsRate(s.c, fa) <==> fa.epoch == s.c.rateEpoch;
  }

  /** The states of a run of capture and controller. */
  ghost predicate IsRun(cfg: Config, steps: seq<Step>, states: seq<Cap>)
    requires ValidConfig(cfg)
  {
    && |states| == |steps| + 1
    && states[0] == Cap(Init(cfg), [], [0], [])
    && forall i :: 0 <= i < |steps| ==>
         CtlInv(cfg, states[i].c) && Enabled(states[i], steps[i]) && states[i + 1] == Next(cfg, states[i], steps[i])
  }

  lemma {:induction false} RunKeepsEpochInv(cfg: Config, steps: seq<Step>, states: seq<Cap>, n: nat)
    requires ValidConfig(cfg) && IsRun(cfg, steps, states) && n < |states|
    ensures EpochInv(cfg, states[n])
    decreases n
  {
    if n == 0 {
      InitInv(cfg);
    } else {
      RunKeepsEpochInv(cfg, steps, states, n - 1);
      NextKeepsEpochInv(cfg, states[n - 1], steps[n - 1]);
      assert states[n - 1 + 1] == Next(cfg, states[n - 1], steps[n - 1]);
    }
  }

  /** In every run, an uncongested sample outside a drain steps the rate with next_bitrate exactly when its frame was
      encoded after the rate decision before it; and the frames that drive steps are all different, in encoding
      order. */
  lemma StepsWaitForFeedback(cfg: Config, steps: seq<Step>, states: seq<Cap>, n: nat)
    requires ValidConfig(cfg) && IsRun(cfg, steps, states) && n < |steps| && steps[n].SampleOf?
    requires steps[n].fa.fid > states[n].c.lastSampleId && FrameBur(steps[n].fa) <= 1.0
    requires states[n].c.state != Draining
    ensures states[n + 1] == Next(cfg, states[n], steps[n]) && SampleRule(cfg, states[n], steps[n].frame, steps[n].fa)
  {
    RunKeepsEpochInv(cfg, steps, states, n);
    SampleFollowsRule(cfg, states[n], steps[n].frame, steps[n].fa);
  }
}
