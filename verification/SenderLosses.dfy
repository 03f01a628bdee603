/** The sender's back-offs on lost frames, over every run. */
module SenderLosses {
  import opened Bytes
  import opened Protocol
  import opened EventLog
  import opened Packetizer
  import Ctl = Controller
  import Runs = ControllerRuns
  import opened Sender
  import opened SenderRuns
  import opened SenderWindows

  function Backoffs(log: seq<Event>): nat {
    if log == [] then 0 else Backoffs(log[..|log| - 1]) + if log[|log| - 1].LossBackoff? then 1 else 0
  }

  lemma BackoffsNext(log: seq<Event>, e: Event)
    ensures Backoffs(log + [e]) == Backoffs(log) + if e.LossBackoff? then 1 else 0
  {
    assert (log + [e])[..|log|] == log;
  }

  lemma {:induction false} NoBackoffs(log: seq<Event>, events: seq<Event>)
    requires forall e :: e in events ==> !e.LossBackoff?
    ensures Backoffs(log + events) == Backoffs(log)
  {
    if events == [] {
      assert log + events == log;
    } else {
      var before, last := events[..|events| - 1], events[|events| - 1];
      NoBackoffs(log, before);
      BackoffsNext(log + before, last);
      assert log + events == (log + before) + [last];
      assert last in events;
    }
  }

  /** Between two states the controller backs off at most once, at this time, and not within the gap after the last
      time unless the clock reads less than it did then. */
  ghost predicate BacksOffOnce(s: Sender, s': Sender, now: u64, gap: nat) {
    var last := s.ctl.lastLossBackoff;
    if Backoffs(s'.log) == Backoffs(s.log) then s'.ctl.lastLossBackoff == last
    else
      && Backoffs(s'.log) == Backoffs(s.log) + 1 && s'.ctl.lastLossBackoff == now
      && (last == 0 || now < last || last + gap <= now)
  }

  /** After a back-off there is no second one at the same time. */
  lemma OnceTransitive(a: Sender, b: Sender, c: Sender, now: u64, gap: nat)
    requires BacksOffOnce(a, b, now, gap) && BacksOffOnce(b, c, now, gap) && now != 0 && gap > 0
    ensures BacksOffOnce(a, c, now, gap)
  {
  }

  /** Steps that log no back-off and leave the time of the last one. */
  lemma QuietOnce(s: Sender, s': Sender, events: seq<Event>, now: u64, gap: nat)
    requires s'.log == s.log + events && s'.ctl.lastLossBackoff == s.ctl.lastLossBackoff
    requires forall e :: e in events ==> !e.LossBackoff?
    ensures BacksOffOnce(s, s', now, gap)
  {
    NoBackoffs(s.log, events);
  }

  lemma SilentOnce(s: Sender, s': Sender, now: u64, gap: nat)
    requires s'.log == s.log && s'.ctl.lastLossBackoff == s.ctl.lastLossBackoff
    ensures BacksOffOnce(s, s', now, gap)
  {
    assert s.log == s.log + [];
    QuietOnce(s, s', [], now, gap);
  }

  // ----- The controller's calls -----

  lemma ObserveKeepsBackoff(cfg: Ctl.Config, c: Ctl.Ctl, fa: Ctl.FrameAck)
    requires Ctl.ValidCtl(c) && Ctl.ValidAck(fa)
    ensures Ctl.Observe(cfg, c, fa).0.lastLossBackoff == c.lastLossBackoff
  {
    hide Ctl.FrameBur, Ctl.CeilingAt, Ctl.AverageAck, Ctl.AverageRate, Ctl.Prune, Ctl.SmoothedBur, Ctl.ValidAck,
      Ctl.PacingMultiplier, Ctl.CeilingTriggered, Ctl.NextLossSamples;
  }

  lemma VerdictKeepsBackoff(cfg: Ctl.Config, c: Ctl.Ctl, fa: Ctl.FrameAck, smooth: real)
    requires Ctl.ValidConfig(cfg)
    ensures Ctl.Verdict(cfg, c, fa, smooth).0.lastLossBackoff == c.lastLossBackoff
  {
    hide Ctl.FrameBur, Ctl.NextBitrate, Ctl.DrainRate;
  }

  lemma AckedKeepsBackoff(cfg: Ctl.Config, c: Ctl.Ctl, fa: Ctl.FrameAck)
    requires Ctl.ValidConfig(cfg) && Ctl.ValidAck(fa) && Runs.CtlInv(cfg, c)
    ensures Ctl.ValidCtl(c)
    ensures var (c', out, events) := Ctl.OnFrameAcked(cfg, c, fa);
      c'.lastLossBackoff == c.lastLossBackoff && forall e :: e in events ==> !e.LossBackoff?
  {
    Runs.CtlInvValid(cfg, c);
    if fa.fid > c.lastSampleId {
      Runs.AckedStages(cfg, c, fa);
      ObserveKeepsBackoff(cfg, c, fa);
      var (c1, seen, smooth) := Ctl.Observe(cfg, c, fa);
      VerdictKeepsBackoff(cfg, c1, fa, smooth);
      hide Ctl.OnFrameAcked, Ctl.Observe, Ctl.Verdict, Ctl.FrameBur, Ctl.PacingMultiplier, Runs.CtlInv;
    }
  }

  // ----- resolve and timers -----

  /** on_frame_loss logs a back-off and a drain, or nothing. */
  lemma LossCounts(log: seq<Event>, loss: Event, events: seq<Event>, summary: Event)
    requires !loss.LossBackoff? && !summary.LossBackoff?
    requires events == [] || (|events| == 2 && events[0].LossBackoff? && !events[1].LossBackoff?)
    ensures Backoffs(log + [loss] + events + [summary]) == Backoffs(log) + if events == [] then 0 else 1
  {
    hide Backoffs;
    var lost := log + [loss];
    BackoffsNext(log, loss);
    BackoffsNext(lost + events, summary);
    if events == [] {
      assert lost + events == lost;
    } else {
      assert lost + events == lost + [events[0]] + [events[1]];
      BackoffsNext(lost, events[0]);
      BackoffsNext(lost + [events[0]], events[1]);
    }
  }

  /** The gap handed to on_frame_loss: the smoothed RTT, or two frame intervals if that is longer. */
  function LossGap(fb: Feedback): (gap: nat)
    ensures gap >= 2 * INTERVAL && gap >= fb.srtt.Floor
    ensures fb.srtt <= INT64_MAX as real ==> U64(gap) == gap
  {
    if fb.srtt.Floor > 2 * INTERVAL then fb.srtt.Floor else 2 * INTERVAL
  }

  lemma LossIsCall(cfg: Ctl.Config, s: Sender, now: u64, wall: nat -> u64)
    requires ValidSender(cfg, s) && s.inflight != [] && !s.inflight[0].delivered
    ensures var s' := SettleFirst(cfg, s, now, wall);
      var (c, events) := Ctl.OnFrameLoss(cfg, s.ctl, now, U64(LossGap(s.fb)));
      s'.ctl == c && s'.log == s.log + [FrameLoss(s.inflight[0].id)] + events + [SummaryOf(s.inflight[0])]
  {
    FrontValid(cfg, s);
    hide ValidSender, Ctl.OnFrameLoss;
  }

  lemma LossCall(cfg: Ctl.Config, c: Ctl.Ctl, now: u64, gap: u64)
    requires now != 0
    ensures var (c', events) := Ctl.OnFrameLoss(cfg, c, now, gap);
      if events == [] then c' == c
      else
        && |events| == 2 && events[0].LossBackoff? && !events[1].LossBackoff? && c'.lastLossBackoff == now
        && (c.lastLossBackoff == 0 || now < c.lastLossBackoff || c.lastLossBackoff + gap <= now)
  {
  }

  lemma LossOnce(cfg: Ctl.Config, s: Sender, now: u64, wall: nat -> u64)
    requires ValidSender(cfg, s) && s.inflight != [] && !s.inflight[0].delivered
    requires now != 0 && s.fb.srtt <= INT64_MAX as real
    ensures BacksOffOnce(s, SettleFirst(cfg, s, now, wall), now, LossGap(s.fb))
  {
    hide ValidSender, SettleFirst, Ctl.OnFrameLoss, Backoffs;
    LossIsCall(cfg, s, now, wall);
    var gap := LossGap(s.fb);
    LossCall(cfg, s.ctl, now, gap);
    var f := s.inflight[0];
    LossCounts(s.log, FrameLoss(f.id), Ctl.OnFrameLoss(cfg, s.ctl, now, gap).1, SummaryOf(f));
  }

  lemma SettleOnce(cfg: Ctl.Config, s: Sender, now: u64, wall: nat -> u64)
    requires ValidSender(cfg, s) && s.inflight != [] && now != 0 && s.fb.srtt <= INT64_MAX as real
    ensures BacksOffOnce(s, SettleFirst(cfg, s, now, wall), now, LossGap(s.fb))
  {
    hide BacksOffOnce, ValidSender, MakeAck, Ctl.OnFrameAcked, Ctl.OnFrameLoss;
    var f, s' := s.inflight[0], SettleFirst(cfg, s, now, wall);
    FrontValid(cfg, s);
    if !f.delivered {
      LossOnce(cfg, s, now, wall);
    } else if s.fb.minOwd.Some? {
      MakeAckValid(s, f, s.fb.minOwd.value, now, wall(f.id));
      var fa := MakeAck(s, f, s.fb.minOwd.value, now, wall(f.id));
      AckedKeepsBackoff(cfg, s.ctl, fa);
      QuietOnce(s, s', Ctl.OnFrameAcked(cfg, s.ctl, fa).2 + [SummaryOf(f)], now, LossGap(s.fb));
    } else {
      QuietOnce(s, s', [SummaryOf(f)], now, LossGap(s.fb));
    }
  }

  lemma FrontValid(cfg: Ctl.Config, s: Sender)
    requires ValidSender(cfg, s) && s.inflight != []
    ensures ValidFrame(s.inflight[0]) && Ctl.ValidConfig(cfg) && Runs.CtlInv(cfg, s.ctl)
  {
  }

  lemma {:induction false} ResolveOnce(cfg: Ctl.Config, s: Sender, now: u64, wall: nat -> u64)
    requires ValidSender(cfg, s) && now != 0 && s.fb.srtt <= INT64_MAX as real
    ensures BacksOffOnce(s, Resolve(cfg, s, now, wall), now, LossGap(s.fb))
    decreases |s.inflight|
  {
    hide BacksOffOnce, ValidSender, SettleFirst, Settled, PendingRetries;
    if s.inflight != [] && Settled(s.inflight[0], s.fb, now) {
      var s1 := SettleFirst(cfg, s, now, wall);
      SettleOnce(cfg, s, now, wall);
      ResolveOnce(cfg, s1, now, wall);
      OnceTransitive(s, s1, Resolve(cfg, s1, now, wall), now, LossGap(s.fb));
    } else {
      SilentOnce(s, Limits(s), now, LossGap(s.fb));
    }
  }

  lemma TimersOnce(cfg: Ctl.Config, s: Sender, now: u64, wall: nat -> u64)
    requires ValidSender(cfg, s) && now != 0 && s.fb.srtt <= INT64_MAX as real
    ensures BacksOffOnce(s, Timers(cfg, s, now, wall), now, LossGap(s.fb))
  {
    hide BacksOffOnce, ValidSender, QueueRetries, CheckAge, Resolve;
    QueueRetriesKeepsValid(cfg, s, now);
    var s1 := QueueRetries(s, now);
    CheckAgeKeepsValid(cfg, s1, now);
    var s2 := CheckAge(cfg, s1, now);
    QueueOnce(s, now, LossGap(s.fb));
    AgeOnce(cfg, s1, now, LossGap(s.fb));
    ResolveOnce(cfg, s2, now, wall);
    OnceTransitive(s, s1, s2, now, LossGap(s.fb));
    OnceTransitive(s, s2, Resolve(cfg, s2, now, wall), now, LossGap(s.fb));
  }

  lemma QueueOnce(s: Sender, now: u64, gap: nat)
    ensures QueueRetries(s, now).fb == s.fb && BacksOffOnce(s, QueueRetries(s, now), now, gap)
  {
    hide BacksOffOnce, RetransmissionLost, MarkAll, AllDue;
    var s' := QueueRetries(s, now);
    if s'.log == s.log {
      SilentOnce(s, s', now, gap);
    } else {
      QuietOnce(s, s', [RetransLoss(s.ctl.rate)], now, gap);
    }
  }

  lemma AgeOnce(cfg: Ctl.Config, s: Sender, now: u64, gap: nat)
    requires ValidSender(cfg, s)
    ensures BacksOffOnce(s, CheckAge(cfg, s, now), now, gap)
  {
    hide BacksOffOnce, ValidSender, OldestUndelivered;
    var oldest, s' := OldestUndelivered(s.inflight), CheckAge(cfg, s, now);
    if oldest.Some? {
      QuietOnce(s, s', Ctl.OnInflightAge(cfg, s.ctl, Sub64(now, oldest.value.createdAt), BaseRtt(s.fb)).2, now, gap);
    } else {
      SilentOnce(s, s', now, gap);
    }
  }

  // ----- Every step -----

  lemma InputOnce(s: Sender, input: Input, now: u64, gap: nat)
    ensures BacksOffOnce(s, HandleInput(s, input, now), now, gap)
  {
    hide BacksOffOnce, UsableAck, ObserveTimes, ObserveWire, Acknowledge, Find;
    var s' := HandleInput(s, input, now);
    if s'.log == s.log {
      SilentOnce(s, s', now, gap);
    } else {
      QuietOnce(s, s', [s'.log[|s.log|]], now, gap);
    }
  }

  ghost predicate NoBackoff(s: Sender, s': Sender) {
    Backoffs(s'.log) == Backoffs(s.log) && s'.ctl.lastLossBackoff == s.ctl.lastLossBackoff
  }

  lemma CaptureQuiet(cfg: Ctl.Config, s: Sender, capturedAt: u64)
    requires ValidSender(cfg, s)
    ensures NoBackoff(s, CaptureFrame(cfg, s, capturedAt))
  {
    hide ValidFrame, IdsRise, ValidPacer, Runs.CtlInv, Backlogged, Backoffs;
    OneLogged(s.log, CaptureFrame(cfg, s, capturedAt).log);
  }

  lemma EncodedQuiet(s: Sender, bytes: seq<byte>, keyframe: bool)
    ensures NoBackoff(s, PushFrame(s, bytes, keyframe))
  {
    hide Backoffs;
    OneLogged(s.log, PushFrame(s, bytes, keyframe).log);
  }

  lemma StartQuiet(s: Sender, started: u64, firstSent: u64)
    requires s.pacing >= Ctl.GAMMA_P
    ensures NoBackoff(s, StartFrame(s, started, firstSent))
  {
    hide NewSentFrame, Backoffs;
    OneLogged(s.log, StartFrame(s, started, firstSent).log);
  }

  /** Other steps than the listener's, and than a forced loss, do not back off. */
  lemma OtherStepsQuiet(cfg: Ctl.Config, s: Sender, step: Step)
    requires ValidSender(cfg, s) && !step.Listen? && !step.KeyLoss?
    ensures NoBackoff(s, Next(cfg, s, step))
  {
    hide ValidFrame, IdsRise, ValidPacer, Runs.CtlInv, CaptureFrame, PushFrame, StartFrame, RetryOne, PacerStep,
      StreamInfoPacket, Backoffs;
    match step
    case Capture(capturedAt) => CaptureQuiet(cfg, s, capturedAt);
    case Encoded(bytes, keyframe) => EncodedQuiet(s, bytes, keyframe);
    case Start(started, firstSent) => StartQuiet(s, started, firstSent);
    case Retry(now) =>
      var events := RetryLogs(s, now);
      NoBackoffs(s.log, events);
    case Pace(now, running) => PacerTouches(s, now, running);
    case _ =>
  }

  lemma OneLogged(log: seq<Event>, log': seq<Event>)
    requires log' == log || (|log'| == |log| + 1 && log <= log' && !log'[|log|].LossBackoff?)
    ensures Backoffs(log') == Backoffs(log)
  {
    if log' != log {
      assert log'[..|log|] == log;
    }
  }

  lemma ListenOnce(cfg: Ctl.Config, s: Sender, input: Input, now: u64, wall: nat -> u64)
    requires ValidSender(cfg, s) && now != 0
    ensures var s' := Next(cfg, s, Listen(input, now, wall));
      s'.fb.srtt <= INT64_MAX as real ==> BacksOffOnce(s, s', now, LossGap(s'.fb))
  {
    hide BacksOffOnce, ValidSender, HandleInput, Timers;
    HandleInputKeepsValid(cfg, s, input, now);
    var s1 := HandleInput(s, input, now);
    TimersKeepFeedback(cfg, s1, now, wall);
    if s1.fb.srtt <= INT64_MAX as real {
      InputOnce(s, input, now, LossGap(s1.fb));
      TimersOnce(cfg, s1, now, wall);
      OnceTransitive(s, s1, Timers(cfg, s1, now, wall), now, LossGap(s1.fb));
    }
  }

  // ----- Over runs -----

  /** A back-off: the listener's time, and the smoothed RTT then. */
  datatype Backoff = Backoff(at: u64, srtt: real)

  /** The back-offs of the first n steps. */
  ghost function BackoffsOf(steps: seq<Step>, states: seq<Sender>, n: nat): seq<Backoff>
    requires |states| == |steps| + 1 && n <= |steps|
    decreases n
  {
    if n == 0 then [] else BackoffsOf(steps, states, n - 1) + BackoffOf(steps[n - 1], states[n - 1], states[n])
  }

  function BackoffOf(step: Step, s: Sender, s': Sender): seq<Backoff> {
    if step.Listen? && Backoffs(s'.log) > Backoffs(s.log) then [Backoff(step.now, s'.fb.srtt)] else []
  }

  /** The second back-off comes the smoothed RTT and two frame intervals after the first, or at an earlier reading. */
  ghost predicate Apart(steps: seq<Step>, a: Backoff, b: Backoff) {
    || (a.at + 2 * INTERVAL <= b.at && a.at + b.srtt.Floor <= b.at)
    || (!ListensRise(steps) && b.at < a.at)
  }

  ghost predicate BackoffInv(steps: seq<Step>, n: nat, s: Sender, all: seq<Backoff>)
    requires n <= |steps|
  {
    && |all| == Backoffs(s.log)
    && (if all == [] then s.ctl.lastLossBackoff == 0 else 0 != s.ctl.lastLossBackoff == all[|all| - 1].at)
    && (s.ctl.lastLossBackoff != 0 ==>
          exists k :: 0 <= k < n && steps[k].Listen? && steps[k].now == s.ctl.lastLossBackoff)
    && forall i :: 0 < i < |all| ==> Apart(steps, all[i - 1], all[i])
  }

  lemma BackoffStep(steps: seq<Step>, n: nat, s: Sender, s': Sender, all: seq<Backoff>)
    requires n < |steps| && BackoffInv(steps, n, s, all)
    requires if steps[n].Listen? then steps[n].now != 0 && BacksOffOnce(s, s', steps[n].now, LossGap(s'.fb))
             else NoBackoff(s, s')
    ensures BackoffInv(steps, n + 1, s', all + BackoffOf(steps[n], s, s'))
  {
    hide Backoffs, LossGap;
    if Backoffs(s'.log) == Backoffs(s.log) {
      assert all + [] == all;
    } else if s.ctl.lastLossBackoff != 0 {
      var k :| 0 <= k < n && steps[k].Listen? && steps[k].now == s.ctl.lastLossBackoff;
      assert Apart(steps, all[|all| - 1], BackoffOf(steps[n], s, s')[0]);
    }
  }

  ghost predicate NoForcedLoss(steps: seq<Step>) {
    forall i :: 0 <= i < |steps| ==> !steps[i].KeyLoss?
  }

  lemma {:induction false} RunKeepsBackoffs(cfg: Ctl.Config, session: u64, steps: seq<Step>, states: seq<Sender>,
                                           n: nat)
    requires Ctl.ValidConfig(cfg) && IsRun(cfg, session, steps, states) && n <= |steps| && NoForcedLoss(steps)
    ensures |states| == |steps| + 1 && BackoffInv(steps, n, states[n], BackoffsOf(steps, states, n))
    decreases n
  {
    hide IsRun, BackoffInv, Next, ValidSender, BacksOffOnce, NoBackoff, Backoffs;
    RunStart(cfg, session, steps, states);
    if n == 0 {
      BackoffsAtStart(cfg, session, steps);
    } else {
      RunKeepsBackoffs(cfg, session, steps, states, n - 1);
      RunStep(cfg, session, steps, states, n - 1);
      RttFits(cfg, session, steps, states, n);
      var s, step := states[n - 1], steps[n - 1];
      if step.Listen? {
        ListenOnce(cfg, s, step.input, step.now, step.wall);
      } else {
        OtherStepsQuiet(cfg, s, step);
      }
      BackoffStep(steps, n - 1, s, states[n], BackoffsOf(steps, states, n - 1));
    }
  }

  lemma BackoffsAtStart(cfg: Ctl.Config, session: u64, steps: seq<Step>)
    requires Ctl.ValidConfig(cfg)
    ensures BackoffInv(steps, 0, Init(cfg, session), [])
  {
  }

  /** In a run without forced losses, however many frames are lost at once, the controller backs off at most once a
      listener step, and not again before two frame intervals and the smoothed RTT have passed. */
  lemma BackoffsAreSpaced(cfg: Ctl.Config, session: u64, steps: seq<Step>, states: seq<Sender>, n: nat)
    requires Ctl.ValidConfig(cfg) && IsRun(cfg, session, steps, states) && n <= |steps| && NoForcedLoss(steps)
    ensures |states| == |steps| + 1
    ensures var all := BackoffsOf(steps, states, n);
      |all| == Backoffs(states[n].log) && forall i :: 0 < i < |all| ==> Apart(steps, all[i - 1], all[i])
  {
    hide IsRun, Backoffs, BackoffsOf, Apart, NoForcedLoss;
    RunKeepsBackoffs(cfg, session, steps, states, n);
  }
}
