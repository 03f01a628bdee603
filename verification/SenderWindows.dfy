/** The listener's minimum one-way delay and RTT, over every run of the sender. */
module SenderWindows {
  import opened Bytes
  import opened Protocol
  import opened Packetizer
  import opened SlidingMin
  import Ctl = Controller
  import Runs = ControllerRuns
  import opened Sender
  import opened SenderRuns

  /** The step handles an ACK that echoes a send time. */
  predicate Observes(s: Sender, step: Step) {
    && step.Listen? && step.input.Ack? && step.input.a.flags != KEY_REQUEST
    && var a, i := step.input.a, Find(s.inflight, step.input.a.frameId);
       && i.Some? && UsableAck(s.inflight[i.value], a, step.now)
       && a.echoedSend != 0 && a.flags & RECOVERED == 0
  }

  /** The round-trip sample a step takes, if any. */
  function RttSample(s: Sender, step: Step): seq<Timed> {
    if Observes(s, step) then [Timed(step.now, step.now - step.input.a.echoedSend)] else []
  }

  /** The one-way delay sample a step takes, if any. */
  function OwdSample(s: Sender, step: Step): seq<Timed> {
    if Observes(s, step) then [Timed(step.now, step.input.a.recvTime - step.input.a.echoedSend)] else []
  }

  /** All samples of the first n steps. */
  ghost function RttSamples(steps: seq<Step>, states: seq<Sender>, n: nat): seq<Timed>
    requires |states| == |steps| + 1 && n <= |steps|
    decreases n
  {
    if n == 0 then [] else RttSamples(steps, states, n - 1) + RttSample(states[n - 1], steps[n - 1])
  }

  ghost function OwdSamples(steps: seq<Step>, states: seq<Sender>, n: nat): seq<Timed>
    requires |states| == |steps| + 1 && n <= |steps|
    decreases n
  {
    if n == 0 then [] else OwdSamples(steps, states, n - 1) + OwdSample(states[n - 1], steps[n - 1])
  }

  // ----- Who touches the deques -----

  /** The parts of the feedback that come from echoed send times. */
  ghost predicate SameWindows(a: Feedback, b: Feedback) {
    && b.rttSamples == a.rttSamples && b.owdSamples == a.owdSamples && b.minRtt == a.minRtt && b.minOwd == a.minOwd
    && b.srtt == a.srtt && b.rttvar == a.rttvar && b.retryDelay == a.retryDelay
  }

  lemma TimersKeepFeedback(cfg: Ctl.Config, s: Sender, now: u64, wall: nat -> u64)
    requires ValidSender(cfg, s)
    ensures Timers(cfg, s, now, wall).fb == s.fb
  {
    hide ValidSender, CheckAge, Resolve, MarkAll, AllDue, RetransmissionLost;
    QueueRetriesKeepsValid(cfg, s, now);
    CheckAgeKeepsValid(cfg, QueueRetries(s, now), now);
    ResolveExhausts(cfg, CheckAge(cfg, QueueRetries(s, now), now), now, wall);
  }

  lemma ObserveWireKeeps(fb: Feedback, a: RecvAck)
    ensures SameWindows(fb, ObserveWire(fb, a))
  {
    hide TrimWire;
  }

  ghost predicate Pushed(fb: Feedback, fb': Feedback, a: RecvAck, now: u64)
    requires a.echoedSend <= now
  {
    SameWindows(ObserveTimes(fb, a, now), fb')
  }

  lemma HandleAckPushes(s: Sender, a: RecvAck, now: u64)
    ensures var s', i := HandleAck(s, a, now), Find(s.inflight, a.frameId);
      if i.Some? && UsableAck(s.inflight[i.value], a, now) && a.echoedSend != 0 && a.flags & RECOVERED == 0
      then Pushed(s.fb, s'.fb, a, now)
      else SameWindows(s.fb, s'.fb)
  {
    hide Acknowledge, ObserveWire, Push, Find;
    if a.echoedSend <= now {
      ObserveWireKeeps(ObserveTimes(s.fb, a, now), a);
    }
    ObserveWireKeeps(s.fb, a);
  }

  lemma OtherStepsKeepFeedback(cfg: Ctl.Config, s: Sender, step: Step)
    requires ValidSender(cfg, s) && !step.Listen?
    ensures Next(cfg, s, step).fb == s.fb
  {
    hide ValidFrame, IdsRise, ValidPacer, Runs.CtlInv, Backlogged, NewSentFrame, RetryOne, PacerStep, StreamInfoPacket,
      Ctl.OnFrameLoss, Ctl.TakeEncodingBitrate, Ctl.ForceDrain;
    match step
    case Retry(now) => var events := RetryLogs(s, now);
    case Pace(now, running) => PacerTouches(s, now, running);
    case _ =>
  }

  lemma NextPushes(cfg: Ctl.Config, s: Sender, step: Step)
    requires ValidSender(cfg, s) && ValidStep(s, step)
    ensures var s' := Next(cfg, s, step);
      if Observes(s, step) then Pushed(s.fb, s'.fb, step.input.a, step.now) else SameWindows(s.fb, s'.fb)
  {
    if step.Listen? {
      hide ValidSender, HandleAck, Timers, Push, UsableAck;
      HandleInputKeepsValid(cfg, s, step.input, step.now);
      TimersKeepFeedback(cfg, HandleInput(s, step.input, step.now), step.now, step.wall);
      if step.input.Ack? {
        HandleAckPushes(s, step.input.a, step.now);
      }
    } else {
      hide ValidSender, Next;
      OtherStepsKeepFeedback(cfg, s, step);
    }
  }

  // ----- Over runs -----

  ghost predicate WindowInv(fb: Feedback, rtts: seq<Timed>, owds: seq<Timed>) {
    && fb.rttSamples == PushAll(rtts) && fb.owdSamples == PushAll(owds)
    && (if rtts == [] then fb.minRtt.None? else fb.rttSamples != [] && fb.minRtt == Some(fb.rttSamples[0].value))
    && (if owds == [] then fb.minOwd.None? else fb.owdSamples != [] && fb.minOwd == Some(fb.owdSamples[0].value))
  }

  lemma PushLast(samples: seq<Timed>, t: Timed)
    ensures PushAll(samples + [t]) == Push(PushAll(samples), t.at, t.value)
  {
    assert (samples + [t])[..|samples|] == samples;
  }

  lemma WindowStep(fb: Feedback, fb': Feedback, rtts: seq<Timed>, owds: seq<Timed>, s: Sender, step: Step)
    requires WindowInv(fb, rtts, owds)
    requires if Observes(s, step) then Pushed(fb, fb', step.input.a, step.now) else SameWindows(fb, fb')
    ensures WindowInv(fb', rtts + RttSample(s, step), owds + OwdSample(s, step))
  {
    hide Push, PushAll;
    if Observes(s, step) {
      PushLast(rtts, RttSample(s, step)[0]);
      PushLast(owds, OwdSample(s, step)[0]);
    } else {
      assert rtts + [] == rtts && owds + [] == owds;
    }
  }

  lemma WindowsAtStart(cfg: Ctl.Config, session: u64)
    requires Ctl.ValidConfig(cfg)
    ensures WindowInv(Init(cfg, session).fb, [], [])
  {
  }

  lemma {:induction false} RunKeepsWindows(cfg: Ctl.Config, session: u64, steps: seq<Step>, states: seq<Sender>, n: nat)
    requires Ctl.ValidConfig(cfg) && IsRun(cfg, session, steps, states) && n <= |steps|
    ensures WindowInv(states[n].fb, RttSamples(steps, states, n), OwdSamples(steps, states, n))
    decreases n
  {
    hide IsRun, WindowInv, Next, ValidSender, ValidStep, Observes, Pushed, SameWindows, RttSample, OwdSample;
    RunStart(cfg, session, steps, states);
    if n == 0 {
      WindowsAtStart(cfg, session);
    } else {
      RunKeepsWindows(cfg, session, steps, states, n - 1);
      RunStep(cfg, session, steps, states, n - 1);
      var s, step := states[n - 1], steps[n - 1];
      NextPushes(cfg, s, step);
      WindowStep(s.fb, states[n].fb, RttSamples(steps, states, n - 1), OwdSamples(steps, states, n - 1), s, step);
    }
  }

  /** The listener's clock does not go back. */
  ghost predicate ListensRise(steps: seq<Step>) {
    forall i, j :: 0 <= i < j < |steps| && steps[i].Listen? && steps[j].Listen? ==> steps[i].now <= steps[j].now
  }

  /** Every sample was taken by one of the first n steps. */
  ghost predicate TakenBy(samples: seq<Timed>, steps: seq<Step>, n: nat)
    requires n <= |steps|
  {
    forall t :: t in samples ==> exists i :: 0 <= i < n && steps[i].Listen? && steps[i].now == t.at
  }

  lemma TakenRise(samples: seq<Timed>, more: seq<Timed>, steps: seq<Step>, n: nat)
    requires n < |steps| && ListensRise(steps) && Risen(samples, steps, n)
    requires more == [] || (|more| == 1 && steps[n].Listen? && more[0].at == steps[n].now)
    ensures Risen(samples + more, steps, n + 1)
  {
    var all := samples + more;
    forall i | 0 <= i < |samples| && more != []
      ensures samples[i].at <= more[0].at
    {
      assert samples[i] in samples;
    }
    forall t | t in all
      ensures exists i :: 0 <= i < n + 1 && steps[i].Listen? && steps[i].now == t.at
    {
      if t in samples {
        var i :| 0 <= i < n && steps[i].Listen? && steps[i].now == t.at;
      }
    }
  }

  lemma SampleAt(s: Sender, step: Step)
    ensures var t := RttSample(s, step); t == [] || (|t| == 1 && step.Listen? && t[0].at == step.now)
    ensures var t := OwdSample(s, step); t == [] || (|t| == 1 && step.Listen? && t[0].at == step.now)
  {
    hide UsableAck, Find;
  }

  ghost predicate Risen(samples: seq<Timed>, steps: seq<Step>, n: nat)
    requires n <= |steps|
  {
    TimesRise(samples) && TakenBy(samples, steps, n)
  }

  lemma {:induction false} RttsRise(steps: seq<Step>, states: seq<Sender>, n: nat)
    requires |states| == |steps| + 1 && n <= |steps| && ListensRise(steps)
    ensures Risen(RttSamples(steps, states, n), steps, n)
    decreases n
  {
    if n > 0 {
      hide Risen, ListensRise, RttSample;
      RttsRise(steps, states, n - 1);
      SampleAt(states[n - 1], steps[n - 1]);
      TakenRise(RttSamples(steps, states, n - 1), RttSample(states[n - 1], steps[n - 1]), steps, n - 1);
    }
  }

  lemma {:induction false} OwdsRise(steps: seq<Step>, states: seq<Sender>, n: nat)
    requires |states| == |steps| + 1 && n <= |steps| && ListensRise(steps)
    ensures Risen(OwdSamples(steps, states, n), steps, n)
    decreases n
  {
    if n > 0 {
      hide Risen, ListensRise, OwdSample;
      OwdsRise(steps, states, n - 1);
      SampleAt(states[n - 1], steps[n - 1]);
      TakenRise(OwdSamples(steps, states, n - 1), OwdSample(states[n - 1], steps[n - 1]), steps, n - 1);
    }
  }

  /** In every state of every run, the sender's minimum RTT and one-way delay are the true minima over all samples of
      the ten seconds up to the last one. */
  lemma MinimaAreTrue(cfg: Ctl.Config, session: u64, steps: seq<Step>, states: seq<Sender>, n: nat)
    requires Ctl.ValidConfig(cfg) && IsRun(cfg, session, steps, states) && n <= |steps| && ListensRise(steps)
    ensures var rtts, owds, fb := RttSamples(steps, states, n), OwdSamples(steps, states, n), states[n].fb;
      && (fb.minRtt.None? <==> rtts == []) && (fb.minOwd.None? <==> owds == [])
      && (rtts != [] ==> IsWindowMin(rtts, rtts[|rtts| - 1].at, fb.minRtt.value))
      && (owds != [] ==> IsWindowMin(owds, owds[|owds| - 1].at, fb.minOwd.value))
  {
    RunKeepsWindows(cfg, session, steps, states, n);
    RttsRise(steps, states, n);
    OwdsRise(steps, states, n);
    hide IsRun, IsWindowMin, TimesRise, PushAll;
    var rtts, owds := RttSamples(steps, states, n), OwdSamples(steps, states, n);
    if rtts != [] {
      FrontIsWindowMin(rtts);
    }
    if owds != [] {
      FrontIsWindowMin(owds);
    }
  }

  // ----- The smoothed RTT and the retransmission timeout -----

  ghost predicate Bounds(samples: seq<Timed>, lo: real, hi: real) {
    forall t :: t in samples ==> lo <= t.value as real <= hi
  }

  /** The smoothed RTT is 0 before the first sample and between the samples after; its variation is no more than the
      larger of their spread and half the largest; the timeout is at least 20 ms and at least the smoothed RTT. */
  ghost predicate RttInv(fb: Feedback, samples: seq<Timed>) {
    && fb.rttvar >= 0.0 && fb.retryDelay >= 20_000
    && (samples == [] ==> fb.srtt == 0.0)
    && (samples != [] ==> fb.retryDelay >= fb.srtt.Floor)
    && (forall lo, hi :: 0.0 <= lo <= hi && Bounds(samples, lo, hi) && samples != [] ==>
          lo <= fb.srtt <= hi && fb.rttvar <= Ctl.MaxR(hi / 2.0, hi - lo))
  }

  lemma RttStep(fb: Feedback, samples: seq<Timed>, a: RecvAck, now: u64)
    requires RttInv(fb, samples) && a.echoedSend <= now
    ensures RttInv(ObserveTimes(fb, a, now), samples + [Timed(now, now - a.echoedSend)])
  {
    var t := Timed(now, now - a.echoedSend);
    var fb' := ObserveTimes(fb, a, now);
    hide Push;
    forall lo, hi | 0.0 <= lo <= hi && Bounds(samples + [t], lo, hi)
      ensures lo <= fb'.srtt <= hi && fb'.rttvar <= Ctl.MaxR(hi / 2.0, hi - lo)
    {
      assert t in samples + [t];
      assert forall u :: u in samples ==> u in samples + [t];
      assert Bounds(samples, lo, hi);
    }
  }

  lemma SameRtt(fb: Feedback, fb': Feedback, samples: seq<Timed>)
    requires RttInv(fb, samples) && SameWindows(fb, fb')
    ensures RttInv(fb', samples)
  {
  }

  lemma RttNext(fb: Feedback, fb': Feedback, rtts: seq<Timed>, s: Sender, step: Step)
    requires RttInv(fb, rtts)
    requires if Observes(s, step) then Pushed(fb, fb', step.input.a, step.now) else SameWindows(fb, fb')
    ensures RttInv(fb', rtts + RttSample(s, step))
  {
    hide RttInv, SameWindows, ObserveTimes, UsableAck;
    if Observes(s, step) {
      ObservesParts(s, step);
      RttStep(fb, rtts, step.input.a, step.now);
      SameRtt(ObserveTimes(fb, step.input.a, step.now), fb', rtts + RttSample(s, step));
    } else {
      SameRtt(fb, fb', rtts);
      assert rtts + [] == rtts;
    }
  }

  lemma RttAtStart(cfg: Ctl.Config, session: u64)
    requires Ctl.ValidConfig(cfg)
    ensures RttInv(Init(cfg, session).fb, [])
  {
  }

  /** In every state of every run the smoothed RTT is a mean of the samples taken, and the timeout is at least 20 ms. */
  lemma {:induction false} RunKeepsRtt(cfg: Ctl.Config, session: u64, steps: seq<Step>, states: seq<Sender>, n: nat)
    requires Ctl.ValidConfig(cfg) && IsRun(cfg, session, steps, states) && n <= |steps|
    ensures RttInv(states[n].fb, RttSamples(steps, states, n))
    decreases n
  {
    hide IsRun, RttInv, Next, ValidSender, ValidStep, Observes, Pushed, SameWindows, RttSample;
    RunStart(cfg, session, steps, states);
    if n == 0 {
      RttAtStart(cfg, session);
    } else {
      RunKeepsRtt(cfg, session, steps, states, n - 1);
      RunStep(cfg, session, steps, states, n - 1);
      var s, step := states[n - 1], steps[n - 1];
      NextPushes(cfg, s, step);
      RttNext(s.fb, states[n].fb, RttSamples(steps, states, n - 1), s, step);
    }
  }

  lemma ObservesParts(s: Sender, step: Step)
    requires Observes(s, step)
    ensures step.Listen? && step.input.Ack? && step.input.a.echoedSend <= step.now
    ensures RttSample(s, step) == [Timed(step.now, step.now - step.input.a.echoedSend)]
  {
  }

  /** Every round trip is shorter than the clock's range. */
  lemma {:induction false} SamplesBounded(cfg: Ctl.Config, session: u64, steps: seq<Step>, states: seq<Sender>, n: nat)
    requires Ctl.ValidConfig(cfg) && IsRun(cfg, session, steps, states) && n <= |steps|
    ensures |states| == |steps| + 1 && Bounds(RttSamples(steps, states, n), 0.0, INT64_MAX as real)
    decreases n
  {
    hide IsRun, Next, ValidSender, Observes;
    RunStart(cfg, session, steps, states);
    if n > 0 {
      SamplesBounded(cfg, session, steps, states, n - 1);
      RunStep(cfg, session, steps, states, n - 1);
      if Observes(states[n - 1], steps[n - 1]) {
        ObservesParts(states[n - 1], steps[n - 1]);
      }
    }
  }

  /** The smoothed RTT fits the 64-bit time it is converted to. */
  lemma RttFits(cfg: Ctl.Config, session: u64, steps: seq<Step>, states: seq<Sender>, n: nat)
    requires Ctl.ValidConfig(cfg) && IsRun(cfg, session, steps, states) && n <= |steps|
    ensures |states| == |steps| + 1 && states[n].fb.srtt <= INT64_MAX as real
  {
    hide IsRun;
    RunKeepsRtt(cfg, session, steps, states, n);
    SamplesBounded(cfg, session, steps, states, n);
  }
}
