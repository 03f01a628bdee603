/** When the sender skips a frame, and when it limits its rate, over every run. */
module SenderBacklog {
  import opened Bytes
  import opened Protocol
  import opened EventLog
  import opened Reassembly
  import opened Packetizer
  import Ctl = Controller
  import Runs = ControllerRuns
  import Metrics
  import opened Reals
  import opened Sender
  import opened SenderRuns

  // ----- The backlog -----

  /** The bytes on the wire of all frames that are encoded but not started, as evaluations/metrics.py counts them. */
  function WireTotal(queue: seq<EncodedFrame>): nat {
    if queue == [] then 0
    else WireTotal(queue[..|queue| - 1]) + Metrics.FrameWireBytes(|queue[|queue| - 1].bytes| as real)
  }

  lemma FrameWireIs(bytes: u32)
    requires 1 <= bytes <= MAX_FRAME_BYTES
    ensures var packets := PacketCount(bytes);
      (packets + ParityCount(packets)) * (MAX_BUF + 28) + N_PROBE * (HEADER_SIZE + 28)
        == Metrics.FrameWireBytes(bytes as real)
  {
    PacketCountExact(bytes);
    Metrics.WireBytesMatchProtocol(bytes);
    hide PacketCount, ParityCount, Metrics.FrameWireBytes;
    var n := PacketCount(bytes) + ParityCount(PacketCount(bytes));
    assert U32(n) == n;
  }

  /** The backlog counts the first transmission of each queued frame in full: data, parity and probes with their
      headers. */
  lemma {:induction false} QueuedWireIsTotal(queue: seq<EncodedFrame>)
    requires forall e :: e in queue ==> LegalFrame(e.bytes)
    ensures QueuedWire(queue) == WireTotal(queue)
  {
    if queue != [] {
      var e := queue[|queue| - 1];
      assert e in queue && forall x :: x in queue[..|queue| - 1] ==> x in queue;
      QueuedWireIsTotal(queue[..|queue| - 1]);
      FrameWireIs(|e.bytes|);
      hide PacketCount, ParityCount, Metrics.FrameWireBytes;
      assert U32(|e.bytes|) == |e.bytes|;
    }
  }

  /** The rate by which the backlog is measured. */
  function SendRate(cfg: Ctl.Config, s: Sender): real {
    if s.limiting then Ctl.MaxR(s.fb.ackRate, cfg.bMin) else s.bitrate
  }

  lemma LongerThan(bits: real, rate: real, us: real)
    requires rate > 0.0
    ensures bits / (rate * 1_000_000.0) > us / 1_000_000.0 <==> bits > us * rate
  {
    MulPositive(rate, 1_000_000.0);
    var q := bits / (rate * 1_000_000.0);
    DivTimes(bits, rate * 1_000_000.0);
    assert bits == (q * 1_000_000.0) * rate;
    var x := q * 1_000_000.0;
    if x > us {
      MulPositive(x - us, rate);
      assert x * rate == us * rate + (x - us) * rate;
    } else {
      MulNonneg(us - x, rate);
      assert us * rate == x * rate + (us - x) * rate;
    }
  }

  /** The backlog in bits: what is queued, and what is in flight but not sent yet, at 1592 bytes a packet. */
  function BacklogBits(s: Sender): real { 8.0 * (WireTotal(s.queue) + 1592 * Unsent(s.inflight)) as real }

  lemma BackloggedExactly(cfg: Ctl.Config, s: Sender)
    requires Ctl.ValidConfig(cfg) && s.bitrate > 0.0 && forall e :: e in s.queue ==> LegalFrame(e.bytes)
    ensures SendRate(cfg, s) > 0.0
    ensures Backlogged(cfg, s) <==> |s.queue| >= 3 || BacklogBits(s) > 2.0 * INTERVAL as real * SendRate(cfg, s)
  {
    hide QueuedWire, WireTotal, Unsent;
    QueuedWireIsTotal(s.queue);
    var rate, us := SendRate(cfg, s), 2.0 * INTERVAL as real;
    var queued := QueuedWire(s.queue) + Unsent(s.inflight) * ((MAX_BUF + 28) * 5 / 4);
    assert queued == WireTotal(s.queue) + 1592 * Unsent(s.inflight);
    LongerThan(queued as real * 8.0, rate, us);
  }

  /** A frame is skipped exactly if three are queued, or if the backlog takes longer than two intervals at the rate:
      the bitrate, or the receive rate when limiting. */
  lemma SkipsExactly(cfg: Ctl.Config, s: Sender, capturedAt: u64)
    requires ValidSender(cfg, s) && s.capture.CaptureIdle?
    ensures var s' := CaptureFrame(cfg, s, capturedAt);
      if |s.queue| >= 3 || BacklogBits(s) > 2.0 * INTERVAL as real * SendRate(cfg, s)
      then s'.log == s.log + [FrameSkipped] && s'.capture.CaptureIdle?
      else
        && s'.capture.Encoding? && s'.capture.capturedAt == capturedAt && s'.capture.epoch == s.ctl.rateEpoch
        && s'.capture.target == Ctl.TakeEncodingBitrate(cfg, s.ctl).1
  {
    BackloggedExactly(cfg, s);
    hide ValidFrame, IdsRise, ValidPacer, Runs.CtlInv, Backlogged, BacklogBits, SendRate;
  }

  // ----- What is outstanding -----

  /** The outstanding bytes of a frame are all of its bytes before the first ACK and none after the last. */
  lemma {:induction false} UnackedBetween(f: SentFrame, n: nat)
    requires LegalFrame(f.bytes) && n <= |f.packets| == PacketCount(|f.bytes|)
    ensures (forall pid :: 0 <= pid < n ==> f.packets[pid].acked) ==> UnackedBytes(f, n) == 0
    ensures (forall pid :: 0 <= pid < n ==> !f.packets[pid].acked) ==>
              UnackedBytes(f, n) == Min(n * LOAD_SZ, |f.bytes|)
  {
    PacketCountExact(|f.bytes|);
    if n > 0 {
      UnackedBetween(f, n - 1);
    }
  }

  /** The ACK of a packet takes off what the packet carries. */
  lemma {:induction false} AckTakesOff(f: SentFrame, n: nat, pid: nat)
    requires n <= |f.packets| && pid < |f.packets| && !f.packets[pid].acked
    ensures var f' := WithPacket(f, pid, f.packets[pid].(acked := true));
      UnackedBytes(f, n) == UnackedBytes(f', n) + if pid < n then PayloadBytes(f, pid) else 0
  {
    if n > 0 {
      AckTakesOff(f, n - 1, pid);
    }
  }

  /** Every undelivered frame counts, and no other. */
  lemma {:induction false} OutstandingAdds(inflight: seq<SentFrame>, i: nat)
    requires i < |inflight|
    ensures var rest := inflight[..i] + inflight[i + 1..];
      var f, (count, bytes), (others, less) := inflight[i], Outstanding(inflight), Outstanding(rest);
      && count == others + (if f.delivered then 0 else 1)
      && bytes == less + (if f.delivered then 0 else UnackedBytes(f, |f.packets|))
  {
    hide UnackedBytes;
    var k := |inflight| - 1;
    var rest := inflight[..i] + inflight[i + 1..];
    if i == k {
      assert rest == inflight[..k];
    } else {
      OutstandingAdds(inflight[..k], i);
      assert inflight[..k][..i] + inflight[..k][i + 1..] == rest[..|rest| - 1];
      assert rest[|rest| - 1] == inflight[k];
    }
  }

  /** A packet awaits the ACK of a retransmission: it is not acknowledged, and was retransmitted or is queued for it. */
  predicate Awaits(p: SentPacket) { !p.acked && (p.attempt > 0 || p.retryQueued) }

  ghost function Awaiting(packets: seq<SentPacket>): set<nat> {
    set pid: nat | pid < |packets| && Awaits(packets[pid])
  }

  lemma {:induction false} PendingIsAwaiting(packets: seq<SentPacket>)
    ensures PendingIn(packets) == |Awaiting(packets)|
  {
    if packets == [] {
      assert Awaiting(packets) == {};
    } else {
      PendingIsAwaiting(packets[..|packets| - 1]);
      AwaitingLast(packets);
    }
  }

  lemma AwaitingLast(packets: seq<SentPacket>)
    requires packets != []
    ensures var k := |packets| - 1;
      |Awaiting(packets)| == |Awaiting(packets[..k])| + if Awaits(packets[k]) then 1 else 0
  {
    hide Awaits;
    var k := |packets| - 1;
    var before := packets[..k];
    assert forall pid: nat :: pid < k ==> packets[pid] == before[pid];
    if Awaits(packets[k]) {
      assert Awaiting(packets) == Awaiting(before) + {k};
    } else {
      assert Awaiting(packets) == Awaiting(before);
    }
  }

  // ----- The limit -----

  /** After every listener step the sender limits its rate if at least four packets await the ACK of a retransmission
      and one was lost before; it does not if fewer than two do and none is queued; and otherwise it does as before. */
  ghost predicate LimitRule(before: bool, s: Sender) {
    var pending := PendingRetries(s.inflight);
    if pending < 2 && s.retries == [] then !s.limiting
    else if s.retransLossSeen && pending >= 4 then s.limiting
    else s.limiting == before
  }

  lemma {:induction false} ResolveLimits(cfg: Ctl.Config, s: Sender, now: u64, wall: nat -> u64)
    requires ValidSender(cfg, s)
    ensures LimitRule(s.limiting, Resolve(cfg, s, now, wall))
    ensures Resolve(cfg, s, now, wall).retransLossSeen == s.retransLossSeen
    decreases |s.inflight|
  {
    hide ValidSender, SettleFirst, Settled, PendingRetries;
    if s.inflight != [] && Settled(s.inflight[0], s.fb, now) {
      ResolveLimits(cfg, SettleFirst(cfg, s, now, wall), now, wall);
    }
  }

  /** How often the loss of a retransmission was logged. */
  function LossesLogged(log: seq<Event>): nat {
    if log == [] then 0 else LossesLogged(log[..|log| - 1]) + if log[|log| - 1].RetransLoss? then 1 else 0
  }

  ghost predicate LimitInv(s: Sender) {
    (s.limiting ==> s.retransLossSeen) && LossesLogged(s.log) == if s.retransLossSeen then 1 else 0
  }

  lemma {:induction false} LossesAppend(a: seq<Event>, b: seq<Event>)
    ensures LossesLogged(a + b) == LossesLogged(a) + LossesLogged(b)
  {
    if b == [] {
      assert a + b == a;
    } else {
      assert (a + b)[..|a + b| - 1] == a + b[..|b| - 1];
      LossesAppend(a, b[..|b| - 1]);
    }
  }

  /** The log grows by events of other kinds. */
  ghost predicate NoLosses(log: seq<Event>, log': seq<Event>) {
    log <= log' && forall n :: |log| <= n < |log'| ==> !log'[n].RetransLoss?
  }

  lemma {:induction false} NoneLogged(events: seq<Event>)
    requires forall n :: 0 <= n < |events| ==> !events[n].RetransLoss?
    ensures LossesLogged(events) == 0
  {
    if events != [] {
      NoneLogged(events[..|events| - 1]);
    }
  }

  lemma SameLosses(log: seq<Event>, log': seq<Event>)
    requires NoLosses(log, log')
    ensures LossesLogged(log') == LossesLogged(log)
  {
    var more := log'[|log|..];
    assert log' == log + more;
    LossesAppend(log, more);
    assert forall n :: 0 <= n < |more| ==> more[n] == log'[|log| + n];
    NoneLogged(more);
  }

  lemma NoLossesTransitive(a: seq<Event>, b: seq<Event>, c: seq<Event>)
    requires NoLosses(a, b) && NoLosses(b, c)
    ensures NoLosses(a, c)
  {
    forall n | |a| <= n < |c|
      ensures !c[n].RetransLoss?
    {
      if n < |b| {
        assert c[n] == b[n];
      }
    }
  }

  // ----- The listener -----

  lemma InputLogs(s: Sender, input: Input, now: u64)
    ensures var s' := HandleInput(s, input, now);
      NoLosses(s.log, s'.log) && s'.limiting == s.limiting && s'.retransLossSeen == s.retransLossSeen
  {
    hide Acknowledge, ObserveTimes, ObserveWire, UsableAck, Find;
  }

  lemma AgeLogs(cfg: Ctl.Config, s: Sender, now: u64)
    ensures var s' := CheckAge(cfg, s, now);
      NoLosses(s.log, s'.log) && s'.limiting == s.limiting && s'.retransLossSeen == s.retransLossSeen
  {
    hide OldestUndelivered;
  }

  lemma AckedLogs(cfg: Ctl.Config, c: Ctl.Ctl, fa: Ctl.FrameAck)
    requires Ctl.ValidConfig(cfg) && Ctl.ValidAck(fa) && Runs.CtlInv(cfg, c)
    ensures Ctl.ValidCtl(c) && forall e :: e in Ctl.OnFrameAcked(cfg, c, fa).2 ==> !e.RetransLoss?
  {
    Runs.CtlInvValid(cfg, c);
    if fa.fid > c.lastSampleId {
      Runs.AckedStages(cfg, c, fa);
      hide Ctl.OnFrameAcked, Ctl.Observe, Ctl.Verdict, Ctl.FrameBur, Runs.RatesInv, Runs.FallbackInv;
    }
  }

  lemma FirstLogs(cfg: Ctl.Config, s: Sender, now: u64, wall: nat -> u64)
    requires ValidSender(cfg, s) && s.inflight != []
    ensures var s' := SettleFirst(cfg, s, now, wall); NoLosses(s.log, s'.log)
  {
    hide MakeAck, Ctl.OnFrameAcked, Runs.CtlInv, IdsRise, ValidPacer, ProbeCount;
    var f := s.inflight[0];
    assert ValidFrame(f);
    if f.delivered && s.fb.minOwd.Some? {
      MakeAckValid(s, f, s.fb.minOwd.value, now, wall(f.id));
      AckedLogs(cfg, s.ctl, MakeAck(s, f, s.fb.minOwd.value, now, wall(f.id)));
    }
    hide ValidFrame;
  }

  lemma {:induction false} ResolveLogs(cfg: Ctl.Config, s: Sender, now: u64, wall: nat -> u64)
    requires ValidSender(cfg, s)
    ensures NoLosses(s.log, Resolve(cfg, s, now, wall).log)
    decreases |s.inflight|
  {
    hide ValidSender, SettleFirst, Settled, PendingRetries, NoLosses;
    SameLog(s.log);
    if s.inflight != [] && Settled(s.inflight[0], s.fb, now) {
      var s1 := SettleFirst(cfg, s, now, wall);
      FirstLogs(cfg, s, now, wall);
      ResolveLogs(cfg, s1, now, wall);
      NoLossesTransitive(s.log, s1.log, Resolve(cfg, s1, now, wall).log);
    }
  }

  lemma SameLog(log: seq<Event>)
    ensures NoLosses(log, log)
  {
  }

  lemma MarksKeepLimit(s: Sender, now: u64)
    requires LimitInv(s)
    ensures LimitInv(QueueRetries(s, now)) && QueueRetries(s, now).limiting == s.limiting
  {
    hide AllDue, RetransmissionLost, MarkAll;
    var s' := QueueRetries(s, now);
    if s'.log != s.log {
      LossesAppend(s.log, [RetransLoss(s.ctl.rate)]);
      assert [RetransLoss(s.ctl.rate)][..0] == [];
    }
  }

  lemma LogKeepsLimit(s: Sender, s': Sender)
    requires LimitInv(s) && NoLosses(s.log, s'.log) && s'.retransLossSeen == s.retransLossSeen
    requires s'.limiting ==> s.limiting || s.retransLossSeen
    ensures LimitInv(s')
  {
    SameLosses(s.log, s'.log);
  }

  lemma ListenKeepsLimit(cfg: Ctl.Config, s: Sender, step: Step)
    requires ValidSender(cfg, s) && LimitInv(s) && step.Listen?
    ensures LimitInv(Next(cfg, s, step)) && LimitRule(s.limiting, Next(cfg, s, step))
  {
    hide ValidSender, HandleInput, QueueRetries, CheckAge, Resolve, LimitInv, NoLosses, PendingRetries;
    var input, now := step.input, step.now;
    var s1 := HandleInput(s, input, now);
    HandleInputKeepsValid(cfg, s, input, now);
    InputLogs(s, input, now);
    LimitParts(s);
    LogKeepsLimit(s, s1);
    QueueRetriesKeepsValid(cfg, s1, now);
    MarksKeepLimit(s1, now);
    var s2 := QueueRetries(s1, now);
    CheckAgeKeepsValid(cfg, s2, now);
    AgeLogs(cfg, s2, now);
    var s3 := CheckAge(cfg, s2, now);
    LogKeepsLimit(s2, s3);
    ResolveLogs(cfg, s3, now, step.wall);
    ResolveLimits(cfg, s3, now, step.wall);
    LimitParts(s3);
    LogKeepsLimit(s3, Resolve(cfg, s3, now, step.wall));
  }

  lemma LimitParts(s: Sender)
    requires LimitInv(s)
    ensures s.limiting ==> s.retransLossSeen
  {
  }

  // ----- Other steps, every run -----

  ghost predicate LimitUntouched(s: Sender, s': Sender) {
    NoLosses(s.log, s'.log) && s'.limiting == s.limiting && s'.retransLossSeen == s.retransLossSeen
  }

  lemma KeysUntouched(cfg: Ctl.Config, s: Sender, step: Step)
    requires ValidSender(cfg, s) && !step.Start? && !step.Pace? && !step.Retry? && !step.Listen? && !step.Capture?
    requires !step.Encoded?
    ensures LimitUntouched(s, Next(cfg, s, step))
  {
    hide StreamInfoPacket, ValidFrame, IdsRise, ValidPacer, Runs.CtlInv;
  }

  lemma CaptureUntouched(cfg: Ctl.Config, s: Sender, step: Step)
    requires ValidSender(cfg, s) && (step.Capture? || step.Encoded?)
    ensures LimitUntouched(s, Next(cfg, s, step))
  {
    hide Backlogged, ValidFrame, IdsRise, ValidPacer, Runs.CtlInv;
  }

  lemma StartUntouched(cfg: Ctl.Config, s: Sender, started: u64, firstSent: u64)
    requires ValidSender(cfg, s)
    ensures LimitUntouched(s, StartFrame(s, started, firstSent))
  {
    hide NewSentFrame, ValidFrame, IdsRise, ValidPacer, Runs.CtlInv;
  }

  lemma RetryUntouched(s: Sender, s': Sender, events: seq<Event>)
    requires s'.log == s.log + events && s'.limiting == s.limiting && s'.retransLossSeen == s.retransLossSeen
    requires forall e :: e in events ==> e.PacketRetransmitted?
    ensures LimitUntouched(s, s')
  {
    assert forall n :: |s.log| <= n < |s.log + events| ==> (s.log + events)[n] in events;
  }

  lemma OthersUntouched(cfg: Ctl.Config, s: Sender, step: Step)
    requires ValidSender(cfg, s) && !step.Listen?
    ensures LimitUntouched(s, Next(cfg, s, step))
  {
    hide ValidSender, NoLosses;
    SameLog(s.log);
    match step
    case Start(started, firstSent) => StartUntouched(cfg, s, started, firstSent);
    case Pace(now, running) =>
      hide PacerStep;
      FlightParts(cfg, s);
      PacerTouches(s, now, running);
    case Retry(now) =>
      hide RetryOne;
      FlightParts(cfg, s);
      var events := RetryLogs(s, now);
      RetryUntouched(s, RetryOne(s, now), events);
    case Capture(_) =>
      hide Next;
      CaptureUntouched(cfg, s, step);
    case Encoded(_, _) =>
      hide Next;
      CaptureUntouched(cfg, s, step);
    case _ =>
      hide Next;
      KeysUntouched(cfg, s, step);
  }

  lemma FlightParts(cfg: Ctl.Config, s: Sender)
    requires ValidSender(cfg, s)
    ensures s.session != 0 && ValidPacer(s.pacer, s.inflight)
    ensures forall i :: 0 <= i < |s.inflight| ==> ValidFrame(s.inflight[i])
  {
  }

  lemma LimitAtStart(cfg: Ctl.Config, session: u64)
    requires Ctl.ValidConfig(cfg)
    ensures LimitInv(Init(cfg, session))
  {
  }

  /** In every run, RETRANS_LOSS is logged at most once, and the rate is never limited before that; the limit is set
      and lifted by the listener's steps only, by the number of packets awaiting the ACK of a retransmission. */
  lemma {:induction false} LimitFollowsRetries(cfg: Ctl.Config, session: u64, steps: seq<Step>, states: seq<Sender>,
                                               n: nat)
    requires Ctl.ValidConfig(cfg) && IsRun(cfg, session, steps, states) && n <= |steps| < |states|
    ensures LimitInv(states[n])
    ensures n < |steps| ==>
              if steps[n].Listen? then LimitRule(states[n].limiting, states[n + 1])
              else states[n + 1].limiting == states[n].limiting
    decreases n
  {
    hide IsRun, LimitInv, Next, ValidSender, ValidStep, NoLosses, LimitRule;
    RunStart(cfg, session, steps, states);
    if n == 0 {
      LimitAtStart(cfg, session);
    } else {
      LimitFollowsRetries(cfg, session, steps, states, n - 1);
      RunStep(cfg, session, steps, states, n - 1);
      LimitNext(cfg, states[n - 1], steps[n - 1]);
    }
    if n < |steps| {
      RunStep(cfg, session, steps, states, n);
      LimitNext(cfg, states[n], steps[n]);
    }
  }

  lemma LimitNext(cfg: Ctl.Config, s: Sender, step: Step)
    requires ValidSender(cfg, s) && LimitInv(s)
    ensures LimitInv(Next(cfg, s, step))
    ensures if step.Listen? then LimitRule(s.limiting, Next(cfg, s, step))
            else Next(cfg, s, step).limiting == s.limiting
  {
    hide LimitInv, Next, ValidSender, NoLosses, LimitRule;
    if step.Listen? {
      ListenKeepsLimit(cfg, s, step);
    } else {
      OthersUntouched(cfg, s, step);
      LimitParts(s);
      LogKeepsLimit(s, Next(cfg, s, step));
    }
  }
}
