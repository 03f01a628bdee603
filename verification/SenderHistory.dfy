/** What the sender knows of a frame in flight, over every run: the ACKs it has handled, and the step that started
    it. */
module SenderHistory {
  import opened Bytes
  import opened Protocol
  import opened Reassembly
  import opened Packetizer
  import Ctl = Controller
  import Runs = ControllerRuns
  import opened Sender
  import opened SenderRuns
  import opened SenderRetries
  import SenderWire

  // ----- Handled ACKs -----

  /** The step handles an ACK for frame id, which is in flight: it names a probe or a packet that the frame has, and
      echoes no time later than the listener's clock. */
  ghost predicate Handles(s: Sender, step: Step, id: u32) {
    && step.Listen? && step.input.Ack? && step.input.a.flags != KEY_REQUEST && step.input.a.frameId == id
    && Find(s.inflight, id).Some? && UsableAck(s.inflight[Find(s.inflight, id).value], step.input.a, step.now)
  }

  /** What an ACK may tell of a frame. */
  datatype Kind = Completes | Answers(probe: nat) | Names(pid: nat) | FirstTry(pid: nat)

  /** The ACK reports its frame complete; answers this probe; reports this packet as there; is for the packet's first
      transmission. */
  predicate Fits(kind: Kind, a: RecvAck) {
    match kind
    case Completes => a.flags & FRAME_COMPLETE != 0
    case Answers(probe) => a.flags & PROBE != 0 && a.packetId == probe
    case Names(pid) => a.flags & FRAME_COMPLETE != 0 || (a.flags & PROBE == 0 && a.packetId == pid)
    case FirstTry(pid) => a.flags & PROBE == 0 && a.packetId == pid && a.flags & RECOVERED == 0 && a.retransSeq == 0
  }

  ghost predicate Tells(s: Sender, step: Step, id: u32, kind: Kind) {
    Handles(s, step, id) && Fits(kind, step.input.a)
  }

  /** The first ACK of this kind for frame id that the first n steps handled. */
  ghost function First(steps: seq<Step>, states: seq<Sender>, n: nat, id: u32, kind: Kind): Option<RecvAck>
    requires n <= |steps| && n <= |states|
    decreases n
  {
    if n == 0 then None
    else if First(steps, states, n - 1, id, kind).Some? then First(steps, states, n - 1, id, kind)
    else if Tells(states[n - 1], steps[n - 1], id, kind) then Some(steps[n - 1].input.a)
    else None
  }

  ghost predicate IsFirst(steps: seq<Step>, states: seq<Sender>, k: nat, id: u32, kind: Kind)
    requires k < |steps| && k < |states|
  {
    Tells(states[k], steps[k], id, kind) && forall j :: 0 <= j < k ==> !Tells(states[j], steps[j], id, kind)
  }

  /** It is that: some step handled it, and no step before handled one of the kind. */
  lemma {:induction false} FirstIsFirst(steps: seq<Step>, states: seq<Sender>, n: nat, id: u32, kind: Kind)
    requires n <= |steps| && n <= |states|
    ensures var first := First(steps, states, n, id, kind);
      && (first.None? <==> forall j :: 0 <= j < n ==> !Tells(states[j], steps[j], id, kind))
      && (first.Some? ==>
            exists k: nat :: k < n && IsFirst(steps, states, k, id, kind) && steps[k].input.a == first.value)
    decreases n
  {
    hide Tells;
    if n > 0 {
      FirstIsFirst(steps, states, n - 1, id, kind);
      if First(steps, states, n - 1, id, kind).None? && Tells(states[n - 1], steps[n - 1], id, kind) {
        assert IsFirst(steps, states, n - 1, id, kind);
      }
    }
  }

  // ----- A frame's record -----

  /** The step that started frame f, in state s: from the front of the encoded queue, with the pacing of that moment. */
  ghost predicate StartOf(s: Sender, step: Step, f: SentFrame) {
    && step.Start? && s.pacer.PacerIdle? && s.queue != [] && s.nextId == f.id && s.pacing >= Ctl.GAMMA_P
    && f.createdAt == step.started && f.firstSent == step.firstSent
    && f.bytes == s.queue[0].bytes && f.keyframe == s.queue[0].keyframe && f.epoch == s.queue[0].epoch
    && f.probeGap == (INTERVAL as real - INTERVAL as real / s.pacing) / 5.0 / 1_000_000.0
  }

  ghost predicate WasStarted(steps: seq<Step>, states: seq<Sender>, n: nat, f: SentFrame)
    requires n <= |steps| && n <= |states|
  {
    exists m :: 0 <= m < n && StartOf(states[m], steps[m], f)
  }

  /** f holds what the first n steps told of it. */
  ghost predicate Recorded(steps: seq<Step>, states: seq<Sender>, n: nat, f: SentFrame)
    requires n <= |steps| && n <= |states|
  {
    && (var done := First(steps, states, n, f.id, Completes);
        f.delivered == done.Some? && (done.Some? ==> f.deliveredAt == done.value.frameRecvTime))
    && |f.probes| == N_PROBE
    && (forall p: nat :: p < N_PROBE ==> f.probes[p] == First(steps, states, n, f.id, Answers(p)))
    && (forall pid: nat :: pid < |f.packets| ==>
          PacketRecorded(steps, states, n, f.id, pid, f.packets[pid]))
  }

  ghost predicate PacketRecorded(steps: seq<Step>, states: seq<Sender>, n: nat, id: u32, pid: nat, p: SentPacket)
    requires n <= |steps| && n <= |states|
  {
    && p.acked == First(steps, states, n, id, Names(pid)).Some?
    && p.firstTryRecv == match First(steps, states, n, id, FirstTry(pid)) case None => 0 case Some(a) => a.recvTime
  }

  // ----- One step -----

  /** The same record of a frame; what was sent of it when may differ. */
  ghost predicate SameRecord(f: SentFrame, f': SentFrame) {
    && f'.id == f.id && f'.createdAt == f.createdAt && f'.firstSent == f.firstSent && f'.bytes == f.bytes
    && f'.keyframe == f.keyframe && f'.epoch == f.epoch && f'.probeGap == f.probeGap
    && f'.delivered == f.delivered && f'.deliveredAt == f.deliveredAt && f'.probes == f.probes
    && |f'.packets| == |f.packets|
    && forall pid :: 0 <= pid < |f.packets| ==>
         f'.packets[pid].acked == f.packets[pid].acked && f'.packets[pid].firstTryRecv == f.packets[pid].firstTryRecv
  }

  ghost predicate SameRecords(a: seq<SentFrame>, b: seq<SentFrame>) {
    |a| == |b| && forall i :: 0 <= i < |a| ==> SameRecord(a[i], b[i])
  }

  lemma RecordsRefl(inflight: seq<SentFrame>)
    ensures SameRecords(inflight, inflight)
  {
  }

  lemma RecordsTransitive(a: seq<SentFrame>, b: seq<SentFrame>, c: seq<SentFrame>)
    requires SameRecords(a, b) && SameRecords(b, c)
    ensures SameRecords(a, c)
  {
    forall i | 0 <= i < |a|
      ensures SameRecord(a[i], c[i])
    {
      assert SameRecord(a[i], b[i]) && SameRecord(b[i], c[i]);
    }
  }

  lemma UpdateRecords(inflight: seq<SentFrame>, i: nat, f: SentFrame)
    requires i < |inflight| && SameRecord(inflight[i], f)
    ensures SameRecords(inflight, inflight[i := f])
  {
  }

  lemma PaceRecords(s: Sender, now: u64, running: bool)
    requires s.session != 0 && ValidPacer(s.pacer, s.inflight)
    requires forall i :: 0 <= i < |s.inflight| ==> ValidFrame(s.inflight[i])
    ensures SameRecords(s.inflight, PacerStep(s, now, running).inflight)
  {
    hide ValidFrame, SendDataStep, ParityDatagram, ProbeHeader, Find, SameRecords, ValidPacer;
    RecordsRefl(s.inflight);
    match s.pacer
    case NextData(fid, count, pid, parity) => SendRecords(s, now, running);
    case AllSent(fid) =>
      var i := Find(s.inflight, fid);
      if i.Some? {
        UpdateRecords(s.inflight, i.value, s.inflight[i.value].(allSent := true));
      }
    case ProbesDone(fid) =>
      var i := Find(s.inflight, fid);
      if i.Some? {
        UpdateRecords(s.inflight, i.value, s.inflight[i.value].(probesSentAt := now));
      }
    case _ =>
  }

  lemma SendRecords(s: Sender, now: u64, running: bool)
    requires s.session != 0 && s.pacer.NextData? && ValidPacer(s.pacer, s.inflight)
    requires forall i :: 0 <= i < |s.inflight| ==> ValidFrame(s.inflight[i])
    ensures SameRecords(s.inflight, PacerStep(s, now, running).inflight)
  {
    hide ValidFrame, DataPacket, XorBytes, Find, SameRecords;
    RecordsRefl(s.inflight);
    var i, p := Find(s.inflight, s.pacer.fid), s.pacer;
    if p.pid < p.count && running && i.Some? {
      var f := s.inflight[i.value];
      UpdateRecords(s.inflight, i.value, WithPacket(f, p.pid, f.packets[p.pid].(sentAt := now)));
    }
  }

  lemma {:induction false} RetryRecords(s: Sender, now: u64)
    requires s.session != 0 && forall i :: 0 <= i < |s.inflight| ==> ValidFrame(s.inflight[i])
    ensures SameRecords(s.inflight, RetryOne(s, now).inflight)
    decreases |s.retries|
  {
    hide ValidFrame, DataPacket, SameRecords;
    RecordsRefl(s.inflight);
    if s.retries != [] {
      var (fid, pid) := s.retries[0];
      var popped := s.(retries := s.retries[1..]);
      var i := Find(s.inflight, fid);
      if i.None? || pid >= |s.inflight[i.value].packets| {
        RetryRecords(popped, now);
      } else {
        var f := s.inflight[i.value];
        assert ValidFrame(f);
        var p := f.packets[pid].(retryQueued := false);
        WithPacketValid(f, pid, p);
        if p.acked {
          UpdateRecords(s.inflight, i.value, WithPacket(f, pid, p));
          var s1 := popped.(inflight := s.inflight[i.value := WithPacket(f, pid, p)]);
          RetryRecords(s1, now);
          RecordsTransitive(s.inflight, s1.inflight, RetryOne(s1, now).inflight);
        } else {
          UpdateRecords(s.inflight, i.value,
                        WithPacket(f, pid, p.(attempt := (p.attempt + 1) % TWO16, sentAt := now)));
        }
      }
    }
  }

  lemma MarkRecords(s: Sender, now: u64)
    ensures SameRecords(s.inflight, QueueRetries(s, now).inflight)
  {
    hide DueIn, AllDue, RetransmissionLost;
  }

  /** The frame after the ACK that the step handles, if it is for this frame. */
  ghost function After(s: Sender, step: Step, f: SentFrame): SentFrame {
    if Handles(s, step, f.id) then Acknowledge(f, step.input.a) else f
  }

  lemma InputRecords(s: Sender, nextId: nat, step: Step)
    requires step.Listen? && IdsRise(s.inflight, nextId)
    ensures var b := HandleInput(s, step.input, step.now).inflight;
      |b| == |s.inflight| && forall i :: 0 <= i < |b| ==> b[i] == After(s, step, s.inflight[i])
  {
    hide Acknowledge, ObserveTimes, ObserveWire, UsableAck, Find;
    var s' := HandleInput(s, step.input, step.now);
    if step.input.Ack? {
      var i := Find(s.inflight, step.input.a.frameId);
      forall k | 0 <= k < |s.inflight|
        ensures s'.inflight[k] == After(s, step, s.inflight[k])
      {
        if i.Some? && k != i.value {
          assert s.inflight[k].id != s.inflight[i.value].id;
        }
      }
    }
  }

  /** The frames in flight at the end of a listener step are the last ones of those before, and the ACK handled. */
  lemma ListenRecord(cfg: Ctl.Config, s: Sender, step: Step, j: nat) returns (i: nat)
    requires ValidSender(cfg, s) && QueueInv(s) && step.Listen?
    requires j < |Next(cfg, s, step).inflight|
    ensures i < |s.inflight| && SameRecord(After(s, step, s.inflight[i]), Next(cfg, s, step).inflight[j])
  {
    hide ValidSender, HandleInput, Timers, After, QueueInv, SameRecord;
    var s1 := HandleInput(s, step.input, step.now);
    IdsOf(cfg, s);
    InputRecords(s, s.nextId, step);
    hide IdsRise;
    HandleInputKeepsValid(cfg, s, step.input, step.now);
    HandleInputKeepsQueue(s, step.input, step.now);
    i := TimersRecord(cfg, s1, step.now, step.wall, j);
  }

  lemma TimersRecord(cfg: Ctl.Config, s: Sender, now: u64, wall: nat -> u64, j: nat) returns (i: nat)
    requires ValidSender(cfg, s) && QueueInv(s) && j < |Timers(cfg, s, now, wall).inflight|
    ensures i < |s.inflight| && SameRecord(s.inflight[i], Timers(cfg, s, now, wall).inflight[j])
  {
    hide ValidSender, QueueRetries, CheckAge, Resolve, RetryInv, SameRecord;
    QueueRetriesKeepsValid(cfg, s, now);
    QueueRetriesKeepsQueue(cfg, s, now);
    MarkRecords(s, now);
    var s2 := QueueRetries(s, now);
    CheckAgeKeepsValid(cfg, s2, now);
    var s3 := CheckAge(cfg, s2, now);
    ResolveKeepsQueue(cfg, s3, now, wall);
    var s4 := Resolve(cfg, s3, now, wall);
    var k: nat :| k <= |s3.inflight| && s4.inflight == s3.inflight[k..];
    i := k + j;
    assert s4.inflight[j] == s2.inflight[i];
  }

  lemma IdsOf(cfg: Ctl.Config, s: Sender)
    requires ValidSender(cfg, s)
    ensures IdsRise(s.inflight, s.nextId)
  {
  }

  /** The step starts a frame, which gets the next id. */
  ghost predicate Starts(s: Sender, step: Step) {
    step.Start? && s.pacer.PacerIdle? && s.queue != [] && s.nextId < UINT32_MAX
  }

  /** A frame in flight after a step was in flight before, and the step told of it what its ACK says. */
  lemma NextRecord(cfg: Ctl.Config, s: Sender, step: Step, j: nat) returns (i: nat)
    requires ValidSender(cfg, s) && ValidStep(s, step) && QueueInv(s) && j < |Next(cfg, s, step).inflight|
    requires !(Starts(s, step) && j == |s.inflight|)
    ensures i < |s.inflight| && SameRecord(After(s, step, s.inflight[i]), Next(cfg, s, step).inflight[j])
  {
    hide ValidSender, QueueInv, SameRecord;
    i := j;
    match step
    case Start(started, firstSent) => StartRecord(cfg, s, step, j);
    case Pace(now, running) =>
      hide PacerStep, ValidPacer;
      PaceParts(cfg, s);
      PaceRecords(s, now, running);
    case Retry(now) =>
      hide RetryOne, ValidPacer;
      PaceParts(cfg, s);
      RecordsRefl(s.inflight);
      RetryRecords(s, now);
    case Listen(input, now, wall) =>
      hide Next;
      i := ListenRecord(cfg, s, step, j);
    case _ =>
      hide Next;
      OtherStepsKeepPackets(cfg, s, step);
      RecordsRefl(s.inflight);
  }

  lemma PaceParts(cfg: Ctl.Config, s: Sender)
    requires ValidSender(cfg, s)
    ensures s.session != 0 && ValidPacer(s.pacer, s.inflight)
    ensures forall i :: 0 <= i < |s.inflight| ==> ValidFrame(s.inflight[i])
  {
  }

  lemma StartRecord(cfg: Ctl.Config, s: Sender, step: Step, j: nat)
    requires ValidSender(cfg, s) && step.Start? && j < |Next(cfg, s, step).inflight|
    requires !(Starts(s, step) && j == |s.inflight|)
    ensures j < |s.inflight| && SameRecord(After(s, step, s.inflight[j]), Next(cfg, s, step).inflight[j])
  {
    hide NewSentFrame, ValidFrame, Runs.CtlInv, ValidPacer;
    RecordsRefl(s.inflight);
  }

  // ----- What an ACK adds to a record -----

  /** No step tells of a frame that was not started yet. */
  lemma NotInFlight(cfg: Ctl.Config, s: Sender, step: Step, id: u32)
    requires ValidSender(cfg, s) && id >= s.nextId
    ensures !Handles(s, step, id)
  {
    hide ValidFrame, Runs.CtlInv, ValidPacer, UsableAck;
  }

  ghost predicate NothingTold(steps: seq<Step>, states: seq<Sender>, n: nat, id: u32)
    requires n <= |steps| && n <= |states|
  {
    forall kind :: First(steps, states, n, id, kind).None?
  }

  lemma RecordStays(steps: seq<Step>, states: seq<Sender>, n: nat, f: SentFrame)
    requires n < |steps| && n < |states| && Recorded(steps, states, n, f) && !Handles(states[n], steps[n], f.id)
    ensures Recorded(steps, states, n + 1, f)
  {
    hide Handles;
  }

  lemma AcknowledgedPacket(f: SentFrame, a: RecvAck, pid: nat)
    requires pid < |f.packets|
    ensures var f', p := Acknowledge(f, a), f.packets[pid];
      && |f'.packets| == |f.packets|
      && f'.packets[pid].acked == (p.acked || Fits(Names(pid), a))
      && f'.packets[pid].firstTryRecv
           == if Fits(FirstTry(pid), a) && p.firstTryRecv == 0 then a.recvTime else p.firstTryRecv
  {
    var p := f.packets[pid];
    var named := a.flags & PROBE == 0 && a.packetId == pid;
    var p1 := if named then AckPacket(p, a) else p;
    PacketAfter(f, a, pid);
    assert p1.firstTryRecv == if Fits(FirstTry(pid), a) && p.firstTryRecv == 0 then a.recvTime else p.firstTryRecv;
    hide Acknowledge;
  }

  lemma PacketAfter(f: SentFrame, a: RecvAck, pid: nat)
    requires pid < |f.packets|
    ensures var p := f.packets[pid];
      var p1 := if a.flags & PROBE == 0 && a.packetId == pid then AckPacket(p, a) else p;
      && |Acknowledge(f, a).packets| == |f.packets|
      && Acknowledge(f, a).packets[pid] == if a.flags & FRAME_COMPLETE != 0 then MarkAcked(p1) else p1
  {
    hide AckPacket, MarkAcked;
  }

  lemma AcknowledgedProbe(f: SentFrame, a: RecvAck, p: nat)
    requires p < |f.probes|
    ensures var f' := Acknowledge(f, a);
      && |f'.probes| == |f.probes|
      && f'.probes[p] == if f.probes[p].None? && Fits(Answers(p), a) then Some(a) else f.probes[p]
  {
    ProbesAfter(f, a);
    hide Acknowledge;
  }

  lemma ProbesAfter(f: SentFrame, a: RecvAck)
    ensures Acknowledge(f, a).probes
         == if a.flags & PROBE != 0 && a.packetId < |f.probes| && f.probes[a.packetId].None?
            then f.probes[a.packetId := Some(a)] else f.probes
  {
    hide AckPacket, MarkAcked;
  }

  lemma PacketTold(steps: seq<Step>, states: seq<Sender>, n: nat, f: SentFrame, pid: nat)
    requires n < |steps| && n < |states| && Handles(states[n], steps[n], f.id) && pid < |f.packets|
    requires steps[n].Listen? && steps[n].input.Ack? && steps[n].input.a.recvTime != 0
    requires PacketRecorded(steps, states, n, f.id, pid, f.packets[pid])
    requires First(steps, states, n, f.id, FirstTry(pid)).Some? ==> f.packets[pid].firstTryRecv != 0
    ensures var f' := Acknowledge(f, steps[n].input.a);
      |f'.packets| == |f.packets| && PacketRecorded(steps, states, n + 1, f.id, pid, f'.packets[pid])
  {
    hide Handles, Acknowledge, Fits;
    AcknowledgedPacket(f, steps[n].input.a, pid);
  }

  lemma ProbeTold(steps: seq<Step>, states: seq<Sender>, n: nat, f: SentFrame, p: nat)
    requires n < |steps| && n < |states| && Handles(states[n], steps[n], f.id) && p < N_PROBE == |f.probes|
    requires steps[n].Listen? && steps[n].input.Ack?
    requires f.probes[p] == First(steps, states, n, f.id, Answers(p))
    ensures var f' := Acknowledge(f, steps[n].input.a);
      |f'.probes| == N_PROBE && f'.probes[p] == First(steps, states, n + 1, f.id, Answers(p))
  {
    hide Handles, Acknowledge, Fits;
    AcknowledgedProbe(f, steps[n].input.a, p);
  }

  lemma DoneTold(steps: seq<Step>, states: seq<Sender>, n: nat, f: SentFrame)
    requires n < |steps| && n < |states| && Handles(states[n], steps[n], f.id) && Recorded(steps, states, n, f)
    ensures var f' := Acknowledge(f, steps[n].input.a);
      var done := First(steps, states, n + 1, f.id, Completes);
      f'.id == f.id && f'.delivered == done.Some? && (done.Some? ==> f'.deliveredAt == done.value.frameRecvTime)
  {
    hide Handles;
  }

  /** ACKs that were handled carry a time. */
  lemma FirstHasTime(cfg: Ctl.Config, session: u64, steps: seq<Step>, states: seq<Sender>, n: nat, id: u32, kind: Kind)
    requires Ctl.ValidConfig(cfg) && IsRun(cfg, session, steps, states) && n <= |steps| < |states|
    ensures First(steps, states, n, id, kind).Some? ==> First(steps, states, n, id, kind).value.recvTime != 0
  {
    FirstIsFirst(steps, states, n, id, kind);
    if First(steps, states, n, id, kind).Some? {
      var k: nat :| k < n && IsFirst(steps, states, k, id, kind)
                    && steps[k].input.a == First(steps, states, n, id, kind).value;
      StepHasTime(cfg, session, steps, states, k);
    }
  }

  lemma StepHasTime(cfg: Ctl.Config, session: u64, steps: seq<Step>, states: seq<Sender>, k: nat)
    requires Ctl.ValidConfig(cfg) && IsRun(cfg, session, steps, states) && k < |steps| < |states|
    ensures steps[k].Listen? && steps[k].input.Ack? ==> steps[k].input.a.recvTime != 0
  {
    hide ValidSender, Next;
    assert ValidStep(states[k], steps[k]);
  }

  lemma RecordAdds(cfg: Ctl.Config, session: u64, steps: seq<Step>, states: seq<Sender>, n: nat, f: SentFrame)
    requires Ctl.ValidConfig(cfg) && IsRun(cfg, session, steps, states) && n < |steps| < |states|
    requires Recorded(steps, states, n, f)
    ensures Recorded(steps, states, n + 1, After(states[n], steps[n], f))
  {
    hide IsRun, Handles, First;
    if Handles(states[n], steps[n], f.id) {
      assert steps[n].Listen? && steps[n].input.Ack? by {
        HandledIsAck(states[n], steps[n], f.id);
      }
      StepHasTime(cfg, session, steps, states, n);
      DoneTold(steps, states, n, f);
      AcknowledgeKeepsShape(f, steps[n].input.a);
      hide Acknowledge;
      forall p: nat | p < N_PROBE
        ensures Acknowledge(f, steps[n].input.a).probes[p] == First(steps, states, n + 1, f.id, Answers(p))
      {
        ProbeTold(steps, states, n, f, p);
      }
      forall pid: nat | pid < |f.packets|
        ensures PacketRecorded(steps, states, n + 1, f.id, pid, Acknowledge(f, steps[n].input.a).packets[pid])
      {
        FirstHasTime(cfg, session, steps, states, n, f.id, FirstTry(pid));
        PacketTold(steps, states, n, f, pid);
      }
    } else {
      RecordStays(steps, states, n, f);
    }
  }

  lemma HandledIsAck(s: Sender, step: Step, id: u32)
    requires Handles(s, step, id)
    ensures step.Listen? && step.input.Ack?
  {
  }

  lemma SameRecorded(steps: seq<Step>, states: seq<Sender>, n: nat, f: SentFrame, f': SentFrame)
    requires n <= |steps| && n <= |states| && Recorded(steps, states, n, f) && SameRecord(f, f')
    ensures Recorded(steps, states, n, f')
  {
    hide First;
  }

  lemma FreshRecorded(cfg: Ctl.Config, steps: seq<Step>, states: seq<Sender>, n: nat)
    requires n < |steps| && n < |states| && ValidSender(cfg, states[n]) && Starts(states[n], steps[n])
    requires NothingTold(steps, states, n + 1, states[n].nextId)
    ensures var s, s' := states[n], Next(cfg, states[n], steps[n]);
      |s'.inflight| == |s.inflight| + 1 && Recorded(steps, states, n + 1, s'.inflight[|s.inflight|])
      && StartOf(s, steps[n], s'.inflight[|s.inflight|])
  {
    hide First, ValidFrame, Runs.CtlInv, ValidPacer;
  }

  // ----- Every run -----

  /** Frames that were not started yet have no record. */
  lemma {:induction false} UnstartedUntold(cfg: Ctl.Config, session: u64, steps: seq<Step>, states: seq<Sender>, n: nat,
                                           id: u32)
    requires Ctl.ValidConfig(cfg) && IsRun(cfg, session, steps, states) && n <= |steps| < |states|
    requires id >= states[n].nextId
    ensures NothingTold(steps, states, n, id)
    ensures n < |steps| ==> NothingTold(steps, states, n + 1, id)
    decreases n
  {
    hide IsRun, Next, ValidStep, ValidSender, Handles;
    if n > 0 {
      IdsOnlyRise(cfg, session, steps, states, n - 1);
      UnstartedUntold(cfg, session, steps, states, n - 1, id);
    }
    if n < |steps| {
      RunStep(cfg, session, steps, states, n);
      NotInFlight(cfg, states[n], steps[n], id);
      var next := n + 1;
      forall kind
        ensures First(steps, states, next, id, kind).None?
      {
        assert First(steps, states, n, id, kind).None?;
      }
    }
  }

  lemma IdsOnlyRise(cfg: Ctl.Config, session: u64, steps: seq<Step>, states: seq<Sender>, n: nat)
    requires Ctl.ValidConfig(cfg) && IsRun(cfg, session, steps, states) && n < |steps| < |states|
    ensures states[n + 1].nextId >= states[n].nextId
  {
    hide IsRun, ValidStep, ValidSender, QueueInv, SendInv;
    RunStep(cfg, session, steps, states, n);
    RunKeepsSendInv(cfg, session, steps, states, n);
    QueueOfSends(states[n]);
    NextKeepsIds(cfg, states[n], steps[n]);
  }

  lemma NextKeepsIds(cfg: Ctl.Config, s: Sender, step: Step)
    requires ValidSender(cfg, s) && ValidStep(s, step) && QueueInv(s)
    ensures Next(cfg, s, step).nextId >= s.nextId
  {
    hide ValidSender, QueueInv;
    match step
    case Start(started, firstSent) =>
    case Pace(now, running) =>
      hide PacerStep;
      PaceParts(cfg, s);
      PacerTouches(s, now, running);
    case Retry(now) =>
      hide RetryOne;
      PaceParts(cfg, s);
      var events := RetryLogs(s, now);
    case Listen(input, now, wall) =>
      hide Next;
      ListenKeepsIds(cfg, s, input, now, wall);
    case _ =>
      hide Next;
      OtherStepsKeepPackets(cfg, s, step);
  }

  lemma ListenKeepsIds(cfg: Ctl.Config, s: Sender, input: Input, now: u64, wall: nat -> u64)
    requires ValidSender(cfg, s) && QueueInv(s)
    ensures Next(cfg, s, Listen(input, now, wall)).nextId == s.nextId
  {
    hide ValidSender, HandleInput, QueueRetries, CheckAge, Resolve, RetryInv, SenderWire.SameTx;
    var s1 := HandleInput(s, input, now);
    HandleInputKeepsValid(cfg, s, input, now);
    SenderWire.HandleInputSameTx(s, input, now);
    HandleInputKeepsQueue(s, input, now);
    QueueRetriesKeepsValid(cfg, s1, now);
    SenderWire.MarkSameTx(s1, now);
    QueueRetriesKeepsQueue(cfg, s1, now);
    CheckAgeKeepsValid(cfg, QueueRetries(s1, now), now);
    ResolveKeepsQueue(cfg, CheckAge(cfg, QueueRetries(s1, now), now), now, wall);
  }

  /** In every state of every run, what the sender holds of a frame in flight is what was told of it: it is delivered
      exactly if an ACK that reported it complete was handled, as of the time in the first one; a packet of it is
      acknowledged exactly if an ACK named it or reported the frame complete; a probe's ACK is the first that was
      handled; and the rest stands as at the frame's start. */
  lemma {:induction false} RecordsAreTrue(cfg: Ctl.Config, session: u64, steps: seq<Step>, states: seq<Sender>, n: nat,
                                          j: nat)
    requires Ctl.ValidConfig(cfg) && IsRun(cfg, session, steps, states) && n <= |steps| < |states|
    requires j < |states[n].inflight|
    ensures Recorded(steps, states, n, states[n].inflight[j]) && WasStarted(steps, states, n, states[n].inflight[j])
    decreases n
  {
    hide IsRun, Next, ValidStep, ValidSender, SendInv, QueueInv, Recorded, SameRecord, After, StartOf;
    RunStart(cfg, session, steps, states);
    if n > 0 {
      var k := n - 1;
      RunStep(cfg, session, steps, states, k);
      RunKeepsSendInv(cfg, session, steps, states, k);
      SenderWire.QueueOf(states[k], NoDatagram, 1);
      QueueOfSends(states[k]);
      if Starts(states[k], steps[k]) && j == |states[k].inflight| {
        UnstartedUntold(cfg, session, steps, states, k, states[k].nextId);
        FreshRecorded(cfg, steps, states, k);
      } else {
        var i := NextRecord(cfg, states[k], steps[k], j);
        RecordsAreTrue(cfg, session, steps, states, k, i);
        var f := states[k].inflight[i];
        RecordAdds(cfg, session, steps, states, k, f);
        SameRecorded(steps, states, n, After(states[k], steps[k], f), states[n].inflight[j]);
        StartedBefore(steps, states, k, f, states[n].inflight[j]);
      }
    }
  }

  lemma AcknowledgeKeepsStart(f: SentFrame, a: RecvAck)
    ensures var f' := Acknowledge(f, a);
      && SameShape(f, f') && f'.createdAt == f.createdAt && f'.epoch == f.epoch
  {
    hide AckPacket, MarkAcked;
  }

  lemma StartedBefore(steps: seq<Step>, states: seq<Sender>, n: nat, f: SentFrame, f': SentFrame)
    requires n < |steps| && n < |states| && WasStarted(steps, states, n, f)
    requires SameRecord(After(states[n], steps[n], f), f')
    ensures WasStarted(steps, states, n + 1, f')
  {
    hide Handles, Acknowledge;
    if Handles(states[n], steps[n], f.id) {
      HandledIsAck(states[n], steps[n], f.id);
      AcknowledgeKeepsStart(f, steps[n].input.a);
    }
    hide After;
    var m :| 0 <= m < n && StartOf(states[m], steps[m], f);
    assert StartOf(states[m], steps[m], f');
  }
}
