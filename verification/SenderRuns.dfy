/** Runs of the sender: every step keeps the state well formed. */
module SenderRuns {
  import opened Bytes
  import opened Protocol
  import opened EventLog
  import opened Reassembly
  import opened Packetizer
  import Ctl = Controller
  import Runs = ControllerRuns
  import Estimators
  import opened Sender

  /** Replacing a frame by one of the same shape keeps the in-flight map well formed. */
  lemma UpdateKeeps(inflight: seq<SentFrame>, nextId: nat, pacer: Pacer, i: nat, f: SentFrame)
    requires i < |inflight| && SameShape(inflight[i], f)
    requires forall k :: 0 <= k < |inflight| ==> ValidFrame(inflight[k])
    requires IdsRise(inflight, nextId) && ValidPacer(pacer, inflight)
    ensures var updated := inflight[i := f];
      && (forall k :: 0 <= k < |updated| ==> ValidFrame(updated[k]))
      && IdsRise(updated, nextId) && ValidPacer(pacer, updated)
  {
    assert ValidFrame(inflight[i]);
  }

  lemma CaptureKeepsValid(cfg: Ctl.Config, s: Sender, capturedAt: u64)
    requires ValidSender(cfg, s)
    ensures ValidSender(cfg, CaptureFrame(cfg, s, capturedAt))
  {
    hide ValidFrame, ValidPacer, IdsRise, Backlogged;
    Runs.ApplyKeepsCtlInv(cfg, s.ctl, Runs.TakeEncoding);
  }

  lemma StartKeepsValid(cfg: Ctl.Config, s: Sender, started: u64, firstSent: u64)
    requires ValidSender(cfg, s) && ClockReading(firstSent)
    ensures ValidSender(cfg, StartFrame(s, started, firstSent))
  {
    hide Runs.CtlInv, ProbeGap;
    if s.pacer.PacerIdle? && s.queue != [] && s.nextId < UINT32_MAX {
      var f := NewSentFrame(s.nextId, s.queue[0], started, firstSent, s.pacing);
      PacketCountExact(|s.queue[0].bytes|);
      assert s.queue[0] in s.queue;
      assert ValidFrame(f);
    }
  }

  /** The frames in flight as the log and the controller see them. */
  ghost predicate SameFlight(a: seq<SentFrame>, b: seq<SentFrame>) {
    && |a| == |b|
    && forall i :: 0 <= i < |a| ==>
         a[i].id == b[i].id && a[i].delivered == b[i].delivered && a[i].epoch == b[i].epoch
  }

  lemma UpdateSameFlight(inflight: seq<SentFrame>, i: nat, f: SentFrame)
    requires i < |inflight| && f.id == inflight[i].id && f.delivered == inflight[i].delivered
    requires f.epoch == inflight[i].epoch
    ensures SameFlight(inflight, inflight[i := f])
  {
  }

  lemma SameFlightRefl(inflight: seq<SentFrame>)
    ensures SameFlight(inflight, inflight)
  {
  }

  lemma SendTouches(s: Sender, fid: u32, count: nat, pid: nat, parity: seq<byte>, i: nat, now: u64)
    requires i < |s.inflight| && ValidFrame(s.inflight[i]) && s.session != 0
    requires |parity| == LOAD_SZ && pid < count == |s.inflight[i].packets|
    ensures var s' := SendDataStep(s, fid, count, pid, parity, i, now);
      && s' == s.(inflight := s'.inflight, wire := s'.wire, pacer := s'.pacer)
      && SameFlight(s.inflight, s'.inflight)
  {
    hide DataPacket, XorBytes;
  }

  /** The pacer touches the packets in flight, the wire and its own place. */
  lemma PacerTouches(s: Sender, now: u64, running: bool)
    requires s.session != 0 && ValidPacer(s.pacer, s.inflight)
    requires forall i :: 0 <= i < |s.inflight| ==> ValidFrame(s.inflight[i])
    ensures var s' := PacerStep(s, now, running);
      && s' == s.(inflight := s'.inflight, wire := s'.wire, pacer := s'.pacer)
      && SameFlight(s.inflight, s'.inflight)
  {
    hide ValidFrame, SendDataStep, ParityDatagram, ProbeHeader, Find, SameFlight;
    PacerKeepsFlight(s, now, running);
    match s.pacer
    case NextData(fid, count, pid, parity) =>
      var i := Find(s.inflight, fid);
      if pid < count && running && i.Some? {
        SendTouches(s, fid, count, pid, parity, i.value, now);
      }
    case _ =>
  }

  lemma PacerKeepsFlight(s: Sender, now: u64, running: bool)
    requires s.session != 0 && ValidPacer(s.pacer, s.inflight)
    requires forall i :: 0 <= i < |s.inflight| ==> ValidFrame(s.inflight[i])
    ensures SameFlight(s.inflight, PacerStep(s, now, running).inflight)
  {
    hide ValidFrame, SendDataStep, ParityDatagram, ProbeHeader, Find, SameFlight, ValidPacer;
    SameFlightRefl(s.inflight);
    match s.pacer
    case NextData(fid, count, pid, parity) =>
      PacerSends(s, now, running);
    case AllSent(fid) =>
      var i := Find(s.inflight, fid);
      if i.Some? {
        UpdateSameFlight(s.inflight, i.value, s.inflight[i.value].(allSent := true));
      }
    case ProbesDone(fid) =>
      var i := Find(s.inflight, fid);
      if i.Some? {
        UpdateSameFlight(s.inflight, i.value, s.inflight[i.value].(probesSentAt := now));
      }
    case _ =>
  }

  lemma PacerSends(s: Sender, now: u64, running: bool)
    requires s.session != 0 && s.pacer.NextData? && ValidPacer(s.pacer, s.inflight)
    requires forall i :: 0 <= i < |s.inflight| ==> ValidFrame(s.inflight[i])
    ensures SameFlight(s.inflight, PacerStep(s, now, running).inflight)
  {
    hide ValidFrame, SendDataStep, Find, SameFlight;
    SameFlightRefl(s.inflight);
    var i, p := Find(s.inflight, s.pacer.fid), s.pacer;
    if p.pid < p.count && running && i.Some? {
      SendTouches(s, p.fid, p.count, p.pid, p.parity, i.value, now);
    }
  }

  lemma WithPacketValid(f: SentFrame, pid: nat, p: SentPacket)
    requires ValidFrame(f) && pid < |f.packets|
    ensures ValidFrame(WithPacket(f, pid, p))
  {
  }

  /** retry_one touches the queue, the packets in flight and the wire, and logs at most a retransmission. */
  lemma {:induction false} RetryLogs(s: Sender, now: u64) returns (events: seq<Event>)
    requires s.session != 0 && forall i :: 0 <= i < |s.inflight| ==> ValidFrame(s.inflight[i])
    ensures var s' := RetryOne(s, now);
      && s' == s.(retries := s'.retries, inflight := s'.inflight, wire := s'.wire, log := s.log + events)
      && SameFlight(s.inflight, s'.inflight) && (forall e :: e in events ==> e.PacketRetransmitted?)
    decreases |s.retries|
  {
    hide ValidFrame, DataPacket;
    events := [];
    if s.retries != [] {
      var (fid, pid) := s.retries[0];
      var popped := s.(retries := s.retries[1..]);
      var i := Find(s.inflight, fid);
      if i.None? || pid >= |s.inflight[i.value].packets| {
        events := RetryLogs(popped, now);
      } else {
        var f := s.inflight[i.value];
        assert ValidFrame(f);
        var p := f.packets[pid].(retryQueued := false);
        WithPacketValid(f, pid, p);
        if p.acked {
          events := RetryLogs(popped.(inflight := s.inflight[i.value := WithPacket(f, pid, p)]), now);
        } else {
          events := [PacketRetransmitted(fid, pid, (p.attempt + 1) % TWO16)];
        }
      }
    }
  }

  lemma PaceDataKeepsValid(cfg: Ctl.Config, s: Sender, i: nat, now: u64)
    requires ValidSender(cfg, s) && s.pacer.NextData? && s.pacer.pid < s.pacer.count
    requires i < |s.inflight| && s.inflight[i].id == s.pacer.fid
    ensures ValidSender(cfg, SendDataStep(s, s.pacer.fid, s.pacer.count, s.pacer.pid, s.pacer.parity, i, now))
  {
    hide Runs.CtlInv, ValidFrame, IdsRise, DataPacket;
    var f, pid := s.inflight[i], s.pacer.pid;
    assert ValidFrame(f);
    UpdateKeeps(s.inflight, s.nextId, s.pacer, i, WithPacket(f, pid, f.packets[pid].(sentAt := now)));
  }

  lemma MarkKeepsValid(cfg: Ctl.Config, s: Sender, i: nat, f: SentFrame, pacer: Pacer)
    requires ValidSender(cfg, s) && i < |s.inflight| && SameShape(s.inflight[i], f)
    requires pacer.PacerIdle? || (pacer.NextProbe? && pacer.i == 0)
    ensures ValidSender(cfg, s.(pacer := pacer, inflight := s.inflight[i := f]))
  {
    hide Runs.CtlInv, ValidFrame, IdsRise;
    UpdateKeeps(s.inflight, s.nextId, PacerIdle, i, f);
  }

  lemma PaceKeepsValid(cfg: Ctl.Config, s: Sender, now: u64, running: bool)
    requires ValidSender(cfg, s)
    ensures ValidSender(cfg, PacerStep(s, now, running))
  {
    hide Runs.CtlInv, ValidFrame, IdsRise, SendDataStep, ParityDatagram, ProbeHeader, Find;
    match s.pacer
    case NextData(fid, count, pid, parity) =>
      var i := Find(s.inflight, fid);
      if pid < count && running && i.Some? {
        PaceDataKeepsValid(cfg, s, i.value, now);
      }
    case AllSent(fid) =>
      hide ValidPacer;
      PaceMarksKeepValid(cfg, s, now, running);
    case ProbesDone(fid) =>
      hide ValidPacer;
      PaceMarksKeepValid(cfg, s, now, running);
    case _ =>
  }

  lemma PaceMarksKeepValid(cfg: Ctl.Config, s: Sender, now: u64, running: bool)
    requires ValidSender(cfg, s) && (s.pacer.AllSent? || s.pacer.ProbesDone?)
    ensures ValidSender(cfg, PacerStep(s, now, running))
  {
    hide Runs.CtlInv, ValidFrame, IdsRise, Find;
    if s.pacer.AllSent? {
      var i := Find(s.inflight, s.pacer.fid);
      if i.Some? {
        MarkKeepsValid(cfg, s, i.value, s.inflight[i.value].(allSent := true), NextProbe(s.pacer.fid, 0));
      }
    } else {
      var i := Find(s.inflight, s.pacer.fid);
      if i.Some? {
        MarkKeepsValid(cfg, s, i.value, s.inflight[i.value].(probesSentAt := now), PacerIdle);
      }
    }
  }

  lemma {:induction false} RetryKeepsValid(cfg: Ctl.Config, s: Sender, now: u64)
    requires ValidSender(cfg, s)
    ensures ValidSender(cfg, RetryOne(s, now))
    decreases |s.retries|
  {
    hide Runs.CtlInv, ValidFrame, IdsRise, ValidPacer, DataPacket;
    if s.retries != [] {
      var (fid, pid) := s.retries[0];
      var popped := s.(retries := s.retries[1..]);
      var i := Find(s.inflight, fid);
      if i.None? || pid >= |s.inflight[i.value].packets| {
        RetryKeepsValid(cfg, popped, now);
      } else {
        var f := s.inflight[i.value];
        var p := f.packets[pid].(retryQueued := false);
        UpdateKeeps(s.inflight, s.nextId, s.pacer, i.value, WithPacket(f, pid, p));
        if p.acked {
          RetryKeepsValid(cfg, popped.(inflight := s.inflight[i.value := WithPacket(f, pid, p)]), now);
        } else {
          var sent := p.(attempt := (p.attempt + 1) % TWO16, sentAt := now);
          UpdateKeeps(s.inflight, s.nextId, s.pacer, i.value, WithPacket(f, pid, sent));
        }
      }
    }
  }

  lemma LossRate(cfg: Ctl.Config, c: Ctl.Ctl)
    requires Ctl.ValidConfig(cfg) && Runs.CtlInv(cfg, c)
    ensures Ctl.OnFrameLoss(cfg, c, 0, 0).0.FinalBitrate() > 0.0
  {
    Runs.ApplyKeepsCtlInv(cfg, c, Runs.FrameLost(0, 0));
  }

  lemma EncodedKeepsValid(cfg: Ctl.Config, s: Sender, bytes: seq<byte>, keyframe: bool)
    requires ValidSender(cfg, s)
    ensures ValidSender(cfg, PushFrame(s, bytes, keyframe))
  {
    hide ValidFrame, IdsRise, ValidPacer, Runs.CtlInv;
  }

  lemma KeysKeepValid(cfg: Ctl.Config, s: Sender, step: Step)
    requires ValidSender(cfg, s) && (step.KeyLoss? || step.KeyClear? || step.KeyDrain?)
    ensures ValidSender(cfg, Next(cfg, s, step))
  {
    hide ValidFrame, IdsRise, ValidPacer, Runs.CtlInv, Ctl.OnFrameLoss;
    match step
    case KeyLoss =>
      LossRate(cfg, s.ctl);
      Runs.ApplyKeepsCtlInv(cfg, s.ctl, Runs.FrameLost(0, 0));
    case KeyClear => Runs.ApplyKeepsCtlInv(cfg, s.ctl, Runs.ClearedHistory);
    case KeyDrain => Runs.ApplyKeepsCtlInv(cfg, s.ctl, Runs.ForcedDrain);
  }

  lemma FlagsKeepValid(cfg: Ctl.Config, s: Sender, step: Step)
    requires ValidSender(cfg, s) && (step.Announce? || step.KeyQuit?)
    ensures ValidSender(cfg, Next(cfg, s, step))
  {
    hide ValidFrame, IdsRise, ValidPacer, Runs.CtlInv, StreamInfoPacket;
  }

  /** Every step keeps the sender well formed. */
  lemma NextKeepsValid(cfg: Ctl.Config, s: Sender, step: Step)
    requires ValidSender(cfg, s) && ValidStep(s, step)
    ensures ValidSender(cfg, Next(cfg, s, step))
  {
    match step
    case Capture(capturedAt) =>
      hide ValidSender, CaptureFrame;
      CaptureKeepsValid(cfg, s, capturedAt);
    case Start(started, firstSent) =>
      hide ValidSender, StartFrame;
      StartKeepsValid(cfg, s, started, firstSent);
    case Pace(now, running) =>
      hide ValidSender, PacerStep;
      PaceKeepsValid(cfg, s, now, running);
    case Retry(now) =>
      hide ValidSender, RetryOne;
      RetryKeepsValid(cfg, s, now);
    case Listen(input, now, wall) =>
      hide HandleInput, ValidSender, Timers;
      HandleInputKeepsValid(cfg, s, input, now);
      var r := Timers(cfg, HandleInput(s, input, now), now, wall);
    case Encoded(bytes, keyframe) =>
      hide ValidSender, PushFrame;
      EncodedKeepsValid(cfg, s, bytes, keyframe);
    case Announce(_, _) =>
      hide ValidSender;
      FlagsKeepValid(cfg, s, step);
    case KeyQuit =>
      hide ValidSender;
      FlagsKeepValid(cfg, s, step);
    case _ =>
      hide ValidSender;
      KeysKeepValid(cfg, s, step);
  }

  // ----- Runs -----

  /** A run: the initial state, and each step's successor state. */
  ghost predicate IsRun(cfg: Ctl.Config, session: u64, steps: seq<Step>, states: seq<Sender>)
    requires Ctl.ValidConfig(cfg)
  {
    && session != 0
    && |states| == |steps| + 1 && states[0] == Init(cfg, session)
    && forall i :: 0 <= i < |steps| ==>
         && ValidSender(cfg, states[i]) && ValidStep(states[i], steps[i])
         && states[i + 1] == Next(cfg, states[i], steps[i])
  }

  /** Step n of a run. */
  lemma RunStep(cfg: Ctl.Config, session: u64, steps: seq<Step>, states: seq<Sender>, n: nat)
    requires Ctl.ValidConfig(cfg) && IsRun(cfg, session, steps, states) && n < |steps|
    ensures |states| == |steps| + 1 && ValidSender(cfg, states[n]) && ValidStep(states[n], steps[n])
    ensures states[n + 1] == Next(cfg, states[n], steps[n])
  {
    hide ValidSender, ValidStep, Next;
  }

  lemma RunStart(cfg: Ctl.Config, session: u64, steps: seq<Step>, states: seq<Sender>)
    requires Ctl.ValidConfig(cfg) && IsRun(cfg, session, steps, states)
    ensures session != 0 && |states| == |steps| + 1 && states[0] == Init(cfg, session)
  {
    hide ValidSender, ValidStep, Next;
  }

  lemma InitValid(cfg: Ctl.Config, session: u64)
    requires Ctl.ValidConfig(cfg) && session != 0
    ensures ValidSender(cfg, Init(cfg, session))
  {
    Runs.InitInv(cfg);
  }

  /** Runs do not get stuck: every state of a run is well formed, so any valid step extends it. */
  lemma RunStateValid(cfg: Ctl.Config, session: u64, steps: seq<Step>, states: seq<Sender>, n: nat)
    requires Ctl.ValidConfig(cfg) && IsRun(cfg, session, steps, states) && n < |states|
    ensures ValidSender(cfg, states[n])
  {
    RunStart(cfg, session, steps, states);
    if n == 0 {
      InitValid(cfg, session);
    } else {
      hide IsRun, ValidSender, ValidStep, Next;
      RunStep(cfg, session, steps, states, n - 1);
      NextKeepsValid(cfg, states[n - 1], steps[n - 1]);
    }
  }

  /** resolve stops only at a frame that must wait. */
  lemma {:induction false} ResolveExhausts(cfg: Ctl.Config, s: Sender, now: u64, wall: nat -> u64)
    requires ValidSender(cfg, s)
    ensures var s' := Resolve(cfg, s, now, wall);
      && s'.fb == s.fb && |s'.inflight| <= |s.inflight| && s'.inflight == s.inflight[|s.inflight| - |s'.inflight|..]
      && (forall i :: 0 <= i < |s.inflight| - |s'.inflight| ==> Settled(s.inflight[i], s.fb, now))
      && (s'.inflight != [] ==> !Settled(s'.inflight[0], s.fb, now))
    decreases |s.inflight|
  {
    hide ValidSender, SettleFirst, Settled, PendingRetries;
    if s.inflight != [] && Settled(s.inflight[0], s.fb, now) {
      ResolveExhausts(cfg, SettleFirst(cfg, s, now, wall), now, wall);
    }
  }

  // ----- The age of the oldest frame -----

  /** The age check looks at the frame in flight that was started first of those not delivered. */
  lemma {:induction false} OldestIsFirst(inflight: seq<SentFrame>)
    ensures var oldest := OldestUndelivered(inflight);
      && (oldest.None? <==> forall i :: 0 <= i < |inflight| ==> inflight[i].delivered)
      && (oldest.Some? ==> exists i :: 0 <= i < |inflight| && inflight[i] == oldest.value && !inflight[i].delivered
                                       && forall k :: 0 <= k < i ==> inflight[k].delivered)
  {
    if inflight != [] && inflight[0].delivered {
      var rest := inflight[1..];
      OldestIsFirst(rest);
      if OldestUndelivered(rest).Some? {
        var i :| 0 <= i < |rest| && rest[i] == OldestUndelivered(rest).value && !rest[i].delivered
                 && forall k :: 0 <= k < i ==> rest[k].delivered;
        assert inflight[i + 1] == rest[i];
        assert forall k :: 0 < k < i + 1 ==> inflight[k] == rest[k - 1];
      } else {
        assert forall i :: 0 < i < |inflight| ==> inflight[i] == rest[i - 1];
      }
    }
  }

  /** When the age check starts a fallback: in STEADY, for a frame that is overdue, and also for one that was started
      after the listener read its clock, because the subtraction of the two unsigned times then wraps. */
  lemma AgeFallbackExactly(cfg: Ctl.Config, s: Sender, now: u64)
    requires ValidSender(cfg, s) && ClockReading(now)
    requires OldestUndelivered(s.inflight).Some? && ClockReading(OldestUndelivered(s.inflight).value.createdAt)
    requires BaseRtt(s.fb) + Ctl.NEXT_DELAY_THRESH <= INT64_MAX
    ensures var created := OldestUndelivered(s.inflight).value.createdAt;
      CheckAge(cfg, s, now).log != s.log <==>
        s.ctl.state == Ctl.Steady && (now < created || now - created >= BaseRtt(s.fb) + Ctl.NEXT_DELAY_THRESH)
  {
    hide ValidFrame, IdsRise, ValidPacer, Runs.CtlInv, OldestUndelivered;
    var age := Sub64(now, OldestUndelivered(s.inflight).value.createdAt);
    var (c, out, events) := Ctl.OnInflightAge(cfg, s.ctl, age, BaseRtt(s.fb));
    assert CheckAge(cfg, s, now).log == s.log + events;
    assert |s.log + events| == |s.log| + |events|;
  }

  /** A frame is captured, encoded and started, and a listener that read its clock before comes to the timers. */
  function EarlySteps(started: u64, now: u64, wall: nat -> u64): seq<Step> {
    [Capture(started), Encoded([0], true), Start(started, started), Listen(NoDatagram, now, wall)]
  }

  /** The pacer is idle, nothing was sent, and no RTT is known. */
  ghost predicate Fresh(s: Sender) {
    s.pacer.PacerIdle? && s.inflight == [] && s.nextId == 1 && s.ctl.state == Ctl.Steady && s.fb.minRtt.None?
  }

  lemma FirstCapture(cfg: Ctl.Config, session: u64, capturedAt: u64)
    requires Ctl.ValidConfig(cfg) && session != 0
    ensures ValidSender(cfg, Init(cfg, session))
    ensures var s' := CaptureFrame(cfg, Init(cfg, session), capturedAt);
      ValidSender(cfg, s') && Fresh(s') && s'.queue == [] && s'.capture.Encoding?
  {
    InitValid(cfg, session);
    CaptureKeepsValid(cfg, Init(cfg, session), capturedAt);
    hide ValidSender;
    assert !Backlogged(cfg, Init(cfg, session));
  }

  lemma FirstEncoded(cfg: Ctl.Config, s: Sender)
    requires ValidSender(cfg, s) && Fresh(s) && s.queue == [] && s.capture.Encoding?
    ensures var s' := PushFrame(s, [0], true);
      ValidSender(cfg, s') && Fresh(s') && s'.queue != [] && s'.pacing >= Ctl.GAMMA_P
  {
    EncodedKeepsValid(cfg, s, [0], true);
    hide ValidSender;
  }

  lemma FirstStart(cfg: Ctl.Config, s: Sender, started: u64)
    requires ValidSender(cfg, s) && Fresh(s) && s.queue != [] && ClockReading(started)
    ensures var s' := StartFrame(s, started, started);
      && ValidSender(cfg, s') && JustStarted(s', started)
  {
    StartKeepsValid(cfg, s, started, started);
    hide ProbeGap;
  }

  /** One frame is in flight, started at this time, and nothing else has happened. */
  ghost predicate JustStarted(s: Sender, started: u64) {
    && s.ctl.state == Ctl.Steady && BaseRtt(s.fb) == 0 && |s.inflight| == 1
    && var f := s.inflight[0]; f.createdAt == started && !f.delivered && !f.allSent
  }

  /** The timers before such a frame's start: its age wraps, and a fallback starts. */
  lemma TimersFallBack(cfg: Ctl.Config, s: Sender, started: u64, now: u64, wall: nat -> u64)
    requires ValidSender(cfg, s) && JustStarted(s, started) && ClockReading(started) && now < started
    ensures Timers(cfg, s, now, wall).ctl.state == Ctl.Fallback && Timers(cfg, s, now, wall).ctl.fallbackPending
  {
    hide ValidFrame, IdsRise, ValidPacer, Runs.CtlInv, PendingRetries;
    QueueRetriesKeepsValid(cfg, s, now);
    CheckAgeKeepsValid(cfg, QueueRetries(s, now), now);
    var s1 := QueueRetries(s, now);
    assert s1.inflight == [Marked(s.inflight[0], now, s.fb.retryDelay)];
    assert OldestUndelivered(s1.inflight) == Some(s1.inflight[0]);
    var s2 := CheckAge(cfg, s1, now);
    assert s2.ctl.state == Ctl.Fallback && s2.inflight == s1.inflight;
  }

  ghost predicate IsStep(cfg: Ctl.Config, s: Sender, step: Step, s': Sender) {
    ValidSender(cfg, s) && ValidStep(s, step) && s' == Next(cfg, s, step)
  }

  lemma EarlyIsSteps(cfg: Ctl.Config, s: Sender, started: u64, now: u64, wall: nat -> u64)
    requires ValidSender(cfg, s) && ClockReading(started) && ClockReading(now)
    ensures IsStep(cfg, s, Capture(started), CaptureFrame(cfg, s, started))
    ensures IsStep(cfg, s, Encoded([0], true), PushFrame(s, [0], true))
    ensures IsStep(cfg, s, Start(started, started), StartFrame(s, started, started))
    ensures IsStep(cfg, s, Listen(NoDatagram, now, wall), Timers(cfg, s, now, wall))
  {
    hide ValidSender, Timers, CaptureFrame, StartFrame, PushFrame;
  }

  lemma RunOfFour(cfg: Ctl.Config, session: u64, steps: seq<Step>, states: seq<Sender>)
    requires Ctl.ValidConfig(cfg) && session != 0 && |steps| == 4 && |states| == 5 && states[0] == Init(cfg, session)
    requires IsStep(cfg, states[0], steps[0], states[1]) && IsStep(cfg, states[1], steps[1], states[2])
    requires IsStep(cfg, states[2], steps[2], states[3]) && IsStep(cfg, states[3], steps[3], states[4])
    ensures IsRun(cfg, session, steps, states)
  {
    hide ValidSender, ValidStep, Next;
    forall i | 0 <= i < 4
      ensures IsStep(cfg, states[i], steps[i], states[i + 1])
    {
      assert i == 0 || i == 1 || i == 2 || i == 3;
    }
  }

  /** The failing family: a run in which the only frame was started after the listener read its clock, so that it is
      not overdue, and yet a fallback starts. */
  lemma FreshFrameFallsBack(cfg: Ctl.Config, session: u64, started: u64, now: u64, wall: nat -> u64)
    requires Ctl.ValidConfig(cfg) && session != 0 && ClockReading(started) && ClockReading(now) && now < started
    ensures exists states: seq<Sender> :: |states| == 5 && IsRun(cfg, session, EarlySteps(started, now, wall), states)
              && JustStarted(states[3], started) && states[4].ctl.state == Ctl.Fallback && states[4].ctl.fallbackPending
  {
    hide ValidSender, Timers, CaptureFrame, StartFrame, PushFrame, IsRun, IsStep, Init, Fresh, JustStarted;
    var s0 := Init(cfg, session);
    FirstCapture(cfg, session, started);
    EarlyIsSteps(cfg, s0, started, now, wall);
    var s1 := CaptureFrame(cfg, s0, started);
    FirstEncoded(cfg, s1);
    EarlyIsSteps(cfg, s1, started, now, wall);
    var s2 := PushFrame(s1, [0], true);
    FirstStart(cfg, s2, started);
    EarlyIsSteps(cfg, s2, started, now, wall);
    var s3 := StartFrame(s2, started, started);
    EarlyIsSteps(cfg, s3, started, now, wall);
    TimersFallBack(cfg, s3, started, now, wall);
    RunOfFour(cfg, session, EarlySteps(started, now, wall), [s0, s1, s2, s3, Timers(cfg, s3, now, wall)]);
  }

  // ----- The BUR of a sample -----

  /** The probes of a frame in flight raise the BUR of its sample by less than 0.8, and never lower it. */
  lemma ProbesRaiseBurLittle(s: Sender, f: SentFrame, minOwd: int, now: u64, wall: u64)
    requires ValidFrame(f)
    ensures var fa := MakeAck(s, f, minOwd, now, wall);
      var raw := Ctl.RawBur(fa.delay, fa.minDelay);
      raw <= Ctl.FrameBur(fa) < raw + 0.8
  {
    hide FrameUdpBytes, Outstanding, FirstTries, Ctl.CorrectedBur, Ctl.RawBur;
    MakeAckValid(s, f, minOwd, now, wall);
    var fa := MakeAck(s, f, minOwd, now, wall);
    Estimators.ProbesAddLessThan(Ctl.RawBur(fa.delay, fa.minDelay), fa.probes, f.probeGap);
  }
}
