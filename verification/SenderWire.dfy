/** What the sender puts on the wire: over every run, only genuine packets of frames it sent. */
module SenderWire {
  import opened Bytes
  import opened Protocol
  import opened Reassembly
  import opened Packetizer
  import Ctl = Controller
  import Runs = ControllerRuns
  import opened Sender
  import opened SenderRuns
  import opened SenderRetries

  /** The frames sent so far, by id. */
  type Sent = map<u32, TxFrame>

  ghost predicate FromSent(sent: Sent, session: u64, d: Datagram) {
    || (exists width: u32, height: u32 :: d == StreamInfoPacket(session, width, height))
    || (d.h.frameId in sent && Genuine(sent[d.h.frameId], d))
  }

  ghost predicate SentFrames(sent: Sent, session: u64, nextId: nat) {
    && (forall fid :: fid in sent <==> 1 <= fid < nextId)
    && (forall fid :: fid in sent ==> LegalTx(sent[fid]) && sent[fid].id == fid && sent[fid].session == session)
  }

  ghost predicate Flying(sent: Sent, session: u64, inflight: seq<SentFrame>) {
    forall i :: 0 <= i < |inflight| ==> inflight[i].id in sent && sent[inflight[i].id] == Tx(session, inflight[i])
  }

  /** The pacer's running parity is the XOR of what it sent of the group so far. */
  ghost predicate PacerHolds(sent: Sent, pacer: Pacer) {
    match pacer
    case NextData(fid, count, pid, parity) =>
      && fid in sent && LegalTx(sent[fid]) && pid <= count == PacketCount(|sent[fid].bytes|)
      && (pid % FEC_K != 0 ==> parity == RunningParity(sent[fid], pid))
    case NextParity(fid, count, pid, parity) =>
      && fid in sent && LegalTx(sent[fid]) && pid < count == PacketCount(|sent[fid].bytes|)
      && ParityDue(pid, count) && parity == Parity(Chunks(sent[fid].bytes), pid / FEC_K)
      && ((pid + 1) % FEC_K != 0 ==> parity == RunningParity(sent[fid], pid + 1))
    case SendProbe(fid, i, h) =>
      && fid in sent && LegalTx(sent[fid]) && i < N_PROBE && h == ProbeHeader(sent[fid], i, 0)
    case _ => true
  }

  ghost predicate WireHolds(sent: Sent, session: u64, wire: seq<Datagram>) {
    forall d :: d in wire ==> FromSent(sent, session, d)
  }

  ghost predicate GenuineInv(sent: Sent, session: u64, s: Sender) {
    && s.session == session
    && SentFrames(sent, session, s.nextId) && Flying(sent, session, s.inflight) && PacerHolds(sent, s.pacer)
    && WireHolds(sent, session, s.wire)
  }

  lemma DataIsGenuine(f: TxFrame, pid: nat, attempt: u16, now: u64)
    requires LegalTx(f) && pid < PacketCount(|f.bytes|) && ClockReading(now)
    ensures Genuine(f, DataPacket(f, pid, attempt, now)) && DataPacket(f, pid, attempt, now).h.frameId == f.id
  {
    hide DataPacket;
    DataPacketFrame(f, pid, attempt, now);
  }

  lemma WireGrows(sent: Sent, session: u64, wire: seq<Datagram>, f: TxFrame, d: Datagram)
    requires WireHolds(sent, session, wire) && f.id in sent && sent[f.id] == f && Genuine(f, d)
    ensures WireHolds(sent, session, wire + [d])
  {
    hide Genuine;
    GenuineAccepted(f, d);
  }

  // ----- The pacer -----

  lemma GroupsFit(pid: nat, count: nat)
    requires pid < count && ParityDue(pid, count)
    ensures GroupStart(pid / FEC_K) + 1 < count
  {
  }

  lemma SendDataGenuine(sent: Sent, session: u64, s: Sender, i: nat, now: u64)
    requires GenuineInv(sent, session, s) && s.session != 0 && ClockReading(now)
    requires s.pacer.NextData? && s.pacer.pid < s.pacer.count && |s.pacer.parity| == LOAD_SZ
    requires i < |s.inflight| && s.inflight[i].id == s.pacer.fid && ValidFrame(s.inflight[i])
    requires |s.inflight[i].packets| == s.pacer.count
    ensures GenuineInv(sent, session, SendDataStep(s, s.pacer.fid, s.pacer.count, s.pacer.pid, s.pacer.parity, i, now))
  {
    hide WireHolds, SentFrames, Genuine, RunningParity, Parity, XorBytes, Chunk, Zeros;
    var f, pid := s.inflight[i], s.pacer.pid;
    var tx := Tx(s.session, f);
    assert sent[f.id] == tx;
    DataIsGenuine(tx, pid, 0, now);
    WireGrows(sent, s.session, s.wire, tx, DataPacket(tx, pid, 0, now));
    RunningParityNext(tx, pid);
    GroupPositions(pid, s.pacer.count);
  }

  lemma ParityGenuine(sent: Sent, session: u64, s: Sender, i: nat, now: u64)
    requires GenuineInv(sent, session, s) && s.session != 0 && ClockReading(now)
    requires s.pacer.NextParity? && i < |s.inflight| && s.inflight[i].id == s.pacer.fid && ValidFrame(s.inflight[i])
    requires s.pacer.pid < |s.inflight[i].packets|
    ensures var d := ParityDatagram(s.session, s.inflight[i], s.pacer.pid, s.pacer.parity, now);
      WireHolds(sent, s.session, s.wire + [d])
  {
    hide WireHolds, SentFrames, RunningParity, Parity, Chunks;
    var tx, pid := Tx(s.session, s.inflight[i]), s.pacer.pid;
    GroupsFit(pid, s.pacer.count);
    assert Genuine(tx, ParityPacket(tx, pid / FEC_K, now));
    WireGrows(sent, s.session, s.wire, tx, ParityPacket(tx, pid / FEC_K, now));
  }

  lemma ProbeGenuine(sent: Sent, session: u64, s: Sender, now: u64)
    requires GenuineInv(sent, session, s) && ClockReading(now) && s.pacer.SendProbe?
    ensures WireHolds(sent, s.session, s.wire + [Datagram(s.pacer.h.(sendTime := now), [])])
  {
    hide WireHolds, Flying;
    var tx := sent[s.pacer.fid];
    assert Datagram(s.pacer.h.(sendTime := now), []) == ProbePacket(tx, s.pacer.i, now);
    assert Genuine(tx, ProbePacket(tx, s.pacer.i, now));
    WireGrows(sent, s.session, s.wire, tx, ProbePacket(tx, s.pacer.i, now));
  }

  lemma PaceGenuine(sent: Sent, session: u64, s: Sender, now: u64, running: bool)
    requires s.session != 0 && ValidPacer(s.pacer, s.inflight)
    requires forall i :: 0 <= i < |s.inflight| ==> ValidFrame(s.inflight[i])
    requires GenuineInv(sent, session, s) && ClockReading(now)
    ensures GenuineInv(sent, session, PacerStep(s, now, running))
  {
    hide ValidFrame, WireHolds, SentFrames, SendDataStep, ParityDatagram, ProbeHeader, RunningParity, Parity, Chunks,
      Find;
    match s.pacer
    case NextData(fid, count, pid, parity) =>
      var i := Find(s.inflight, fid);
      if pid < count && running && i.Some? {
        SendDataGenuine(sent, session, s, i.value, now);
      }
    case NextParity(fid, count, pid, parity) =>
      var i := Find(s.inflight, fid);
      if i.Some? {
        assert ValidFrame(s.inflight[i.value]);
        ParityGenuine(sent, session, s, i.value, now);
      }
    case SendProbe(fid, k, h) => ProbeGenuine(sent, session, s, now);
    case _ =>
      hide PacerStep;
      MarksGenuine(sent, session, s, now, running);
  }

  lemma MarksGenuine(sent: Sent, session: u64, s: Sender, now: u64, running: bool)
    requires s.session != 0 && ValidPacer(s.pacer, s.inflight)
    requires forall i :: 0 <= i < |s.inflight| ==> ValidFrame(s.inflight[i])
    requires GenuineInv(sent, session, s) && !s.pacer.NextData? && !s.pacer.NextParity? && !s.pacer.SendProbe?
    ensures GenuineInv(sent, session, PacerStep(s, now, running))
  {
    hide ValidFrame, WireHolds, SentFrames, ProbeHeader, Find;
    if s.pacer.NextProbe? {
      var i := Find(s.inflight, s.pacer.fid);
      if i.Some? {
        assert ValidFrame(s.inflight[i.value]);
        ValidFrameIsLegal(s.session, s.inflight[i.value]);
      }
    }
  }

  lemma ValidFrameIsLegal(session: u64, f: SentFrame)
    requires session != 0 && ValidFrame(f)
    ensures LegalTx(Tx(session, f))
  {
  }

  // ----- The other steps -----

  lemma {:induction false} RetryGenuine(sent: Sent, session: u64, s: Sender, now: u64)
    requires s.session != 0 && forall i :: 0 <= i < |s.inflight| ==> ValidFrame(s.inflight[i])
    requires GenuineInv(sent, session, s) && ClockReading(now)
    ensures GenuineInv(sent, session, RetryOne(s, now))
    decreases |s.retries|
  {
    hide DataPacket, WireHolds, SentFrames, PacerHolds;
    if s.retries != [] {
      var (fid, pid) := s.retries[0];
      var popped := s.(retries := s.retries[1..]);
      var i := Find(s.inflight, fid);
      if i.None? || pid >= |s.inflight[i.value].packets| {
        RetryGenuine(sent, session, popped, now);
      } else {
        var f := s.inflight[i.value];
        assert ValidFrame(f);
        var p := f.packets[pid].(retryQueued := false);
        if p.acked {
          RetryGenuine(sent, session, popped.(inflight := s.inflight[i.value := WithPacket(f, pid, p)]), now);
        } else {
          var attempt := (p.attempt + 1) % TWO16;
          DataIsGenuine(Tx(s.session, f), pid, attempt, now);
          WireGrows(sent, s.session, s.wire, Tx(s.session, f), DataPacket(Tx(s.session, f), pid, attempt, now));
        }
      }
    }
  }

  /** The frames sent, after a step that may start one. */
  ghost function Started(sent: Sent, s: Sender, step: Step): Sent
    requires s.pacing >= Ctl.GAMMA_P
  {
    if step.Start? && s.pacer.PacerIdle? && s.queue != [] && s.nextId < UINT32_MAX
    then sent[s.nextId := Tx(s.session, NewSentFrame(s.nextId, s.queue[0], step.started, step.firstSent, s.pacing))]
    else sent
  }

  lemma StartGenuine(cfg: Ctl.Config, sent: Sent, session: u64, s: Sender, started: u64, firstSent: u64)
    requires ValidSender(cfg, s) && GenuineInv(sent, session, s) && ClockReading(firstSent)
    ensures GenuineInv(Started(sent, s, Start(started, firstSent)), session, StartFrame(s, started, firstSent))
  {
    hide Runs.CtlInv, ValidPacer, ProbeGap, ValidFrame, Genuine, RunningParity, StreamInfoPacket;
    if s.pacer.PacerIdle? && s.queue != [] && s.nextId < UINT32_MAX {
      assert s.queue[0] in s.queue;
      var f := NewSentFrame(s.nextId, s.queue[0], started, firstSent, s.pacing);
      var sent' := Started(sent, s, Start(started, firstSent));
      assert LegalTx(Tx(s.session, f));
      forall d | d in s.wire
        ensures FromSent(sent', s.session, d)
      {
        assert FromSent(sent, s.session, d);
      }
    }
  }

  /** Frames keep what the wire carries of them. */
  ghost predicate SameTx(a: seq<SentFrame>, b: seq<SentFrame>) {
    |a| == |b| && forall i :: 0 <= i < |a| ==>
      && b[i].id == a[i].id && b[i].bytes == a[i].bytes
      && b[i].firstSent == a[i].firstSent && b[i].keyframe == a[i].keyframe
  }

  lemma ListenGenuine(cfg: Ctl.Config, sent: Sent, session: u64, s: Sender, input: Input, now: u64, wall: nat -> u64)
    requires ValidSender(cfg, s) && SendInv(s) && ValidStep(s, Listen(input, now, wall)) && GenuineInv(sent, session, s)
    ensures GenuineInv(sent, session, Next(cfg, s, Listen(input, now, wall)))
  {
    hide ValidSender, HandleInput, SendInv, WireHolds, SentFrames, PacerHolds, QueueRetries, CheckAge, Resolve,
      RetryInv;
    var s1 := HandleInput(s, input, now);
    HandleInputKeepsValid(cfg, s, input, now);
    HandleInputSameTx(s, input, now);
    QueueRetriesKeepsValid(cfg, s1, now);
    var s2 := QueueRetries(s1, now);
    MarkSameTx(s1, now);
    CheckAgeKeepsValid(cfg, s2, now);
    var s3 := CheckAge(cfg, s2, now);
    QueueOf(s, input, now);
    QueueRetriesKeepsQueue(cfg, s1, now);
    ResolveKeepsQueue(cfg, s3, now, wall);
    var k: nat :| k <= |s3.inflight| && Resolve(cfg, s3, now, wall).inflight == s3.inflight[k..];
  }

  lemma QueueOf(s: Sender, input: Input, now: u64)
    requires SendInv(s)
    ensures QueueInv(HandleInput(s, input, now))
  {
    hide QueueInv;
    HandleInputKeepsQueue(s, input, now);
  }

  lemma HandleInputSameTx(s: Sender, input: Input, now: u64)
    ensures var s' := HandleInput(s, input, now);
      && SameTx(s.inflight, s'.inflight) && s'.wire == s.wire && s'.pacer == s.pacer && s'.nextId == s.nextId
      && s'.session == s.session
  {
    hide Acknowledge, ObserveTimes, ObserveWire, UsableAck, Find;
    match input
    case NoDatagram =>
    case KeyRequest(fid, served) =>
    case Ack(a) =>
      var i := Find(s.inflight, a.frameId);
      if i.Some? {
        AcknowledgeKeepsShape(s.inflight[i.value], a);
      }
  }

  lemma MarkSameTx(s: Sender, now: u64)
    ensures var s' := QueueRetries(s, now);
      && SameTx(s.inflight, s'.inflight) && s'.wire == s.wire && s'.pacer == s.pacer && s'.nextId == s.nextId
      && s'.session == s.session
  {
    hide DueIn, AllDue, RetransmissionLost;
  }

  lemma AnnounceGenuine(sent: Sent, session: u64, s: Sender, width: u32, height: u32)
    requires GenuineInv(sent, session, s)
    ensures WireHolds(sent, s.session, s.wire + [StreamInfoPacket(s.session, width, height)])
  {
    hide Genuine, StreamInfoPacket;
  }

  lemma NextKeepsGenuine(cfg: Ctl.Config, sent: Sent, session: u64, s: Sender, step: Step)
    requires ValidSender(cfg, s) && ValidStep(s, step) && SendInv(s) && GenuineInv(sent, session, s)
    ensures GenuineInv(Started(sent, s, step), session, Next(cfg, s, step))
  {
    hide ValidFrame, IdsRise, ValidPacer, Runs.CtlInv, SendInv;
    match step
    case Start(started, firstSent) =>
      hide StartFrame, GenuineInv, Started;
      StartGenuine(cfg, sent, session, s, started, firstSent);
    case Pace(now, running) =>
      hide PacerStep, GenuineInv;
      PaceGenuine(sent, session, s, now, running);
    case Retry(now) =>
      hide RetryOne, GenuineInv;
      RetryGenuine(sent, session, s, now);
    case Listen(input, now, wall) =>
      hide Next, GenuineInv;
      ListenGenuine(cfg, sent, session, s, input, now, wall);
    case Announce(width, height) =>
      hide SentFrames, Flying, PacerHolds, WireHolds, StreamInfoPacket;
      AnnounceGenuine(sent, session, s, width, height);
    case _ =>
      hide Next, SentFrames, Flying, PacerHolds, WireHolds;
      OtherStepsKeepPackets(cfg, s, step);
  }

  /** The frames sent in the first n steps. */
  ghost function SentUpTo(steps: seq<Step>, states: seq<Sender>, n: nat): Sent
    requires n <= |steps| && n <= |states| && forall i :: 0 <= i < n ==> states[i].pacing >= Ctl.GAMMA_P
    decreases n
  {
    if n == 0 then map[] else Started(SentUpTo(steps, states, n - 1), states[n - 1], steps[n - 1])
  }

  /** In a run the pacing multiplier never falls below GAMMA_P. */
  lemma RunPacing(cfg: Ctl.Config, session: u64, steps: seq<Step>, states: seq<Sender>)
    requires Ctl.ValidConfig(cfg) && IsRun(cfg, session, steps, states)
    ensures |states| == |steps| + 1 && forall i :: 0 <= i < |steps| ==> states[i].pacing >= Ctl.GAMMA_P
  {
    hide ValidFrame, IdsRise, ValidPacer, Runs.CtlInv, ValidStep, Next;
  }

  /** In every run there is one frame behind each id, and every datagram on the wire is a stream announcement or a
      packet of the frame its header names: its data chunk, its group's parity or one of its probes. */
  lemma {:induction false} RunIsGenuine(cfg: Ctl.Config, session: u64, steps: seq<Step>, states: seq<Sender>, n: nat)
    requires Ctl.ValidConfig(cfg) && IsRun(cfg, session, steps, states) && n < |states|
    ensures |states| == |steps| + 1 && forall i :: 0 <= i < |steps| ==> states[i].pacing >= Ctl.GAMMA_P
    ensures GenuineInv(SentUpTo(steps, states, n), session, states[n])
    decreases n
  {
    hide IsRun, SendInv, GenuineInv, Next, ValidStep, ValidSender, Started;
    RunPacing(cfg, session, steps, states);
    RunStart(cfg, session, steps, states);
    if n == 0 {
      GenuineAtStart(cfg, session);
    } else {
      RunIsGenuine(cfg, session, steps, states, n - 1);
      RunKeepsSendInv(cfg, session, steps, states, n - 1);
      RunStep(cfg, session, steps, states, n - 1);
      NextKeepsGenuine(cfg, SentUpTo(steps, states, n - 1), session, states[n - 1], steps[n - 1]);
    }
  }

  lemma GenuineAtStart(cfg: Ctl.Config, session: u64)
    requires Ctl.ValidConfig(cfg)
    ensures GenuineInv(map[], session, Init(cfg, session))
  {
  }

  /** The record of a sent frame does not change. */
  lemma {:induction false} SentGrows(cfg: Ctl.Config, session: u64, steps: seq<Step>, states: seq<Sender>, k: nat,
                                     n: nat)
    requires Ctl.ValidConfig(cfg) && IsRun(cfg, session, steps, states) && k <= n < |states|
    requires |states| == |steps| + 1 && forall i :: 0 <= i < |steps| ==> states[i].pacing >= Ctl.GAMMA_P
    ensures var a, b := SentUpTo(steps, states, k), SentUpTo(steps, states, n);
      forall id :: id in a ==> id in b && b[id] == a[id]
    decreases n
  {
    hide IsRun, Started, Flying, PacerHolds, WireHolds, SentFrames;
    if k < n {
      SentGrows(cfg, session, steps, states, k, n - 1);
      RunIsGenuine(cfg, session, steps, states, n - 1);
      StartedGrows(SentUpTo(steps, states, n - 1), session, states[n - 1], steps[n - 1]);
    }
  }

  lemma StartedGrows(sent: Sent, session: u64, s: Sender, step: Step)
    requires s.pacing >= Ctl.GAMMA_P && SentFrames(sent, session, s.nextId)
    ensures forall id :: id in sent ==> id in Started(sent, s, step) && Started(sent, s, step)[id] == sent[id]
  {
  }

  /** Every datagram the sender ever sends passes the receiver's decode with its header unchanged. */
  lemma EveryDatagramAccepted(cfg: Ctl.Config, session: u64, steps: seq<Step>, states: seq<Sender>, n: nat, d: Datagram)
    requires Ctl.ValidConfig(cfg) && IsRun(cfg, session, steps, states) && n < |states| && d in states[n].wire
    ensures d.Accepted() && d.h.session == session && Parse(Wire(d)) == Some(d)
  {
    hide IsRun, Genuine, StreamInfoPacket, SentUpTo;
    RunStart(cfg, session, steps, states);
    RunIsGenuine(cfg, session, steps, states, n);
    var sent := SentUpTo(steps, states, n);
    assert FromSent(sent, session, d);
    if width: u32, height: u32 :| d == StreamInfoPacket(session, width, height) {
      StreamInfoAccepted(session, width, height);
      StreamInfoSession(session, width, height);
      WireRoundTrip(d);
    } else {
      GenuineAccepted(sent[d.h.frameId], d);
    }
  }

  lemma StreamInfoSession(session: u64, width: u32, height: u32)
    ensures StreamInfoPacket(session, width, height).h.session == session
  {
  }
}
