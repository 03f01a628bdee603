/** The sender (codes/sender.cc, SentFrame in codes/transport.h): each locked block is one atomic step. */
module Sender {
  import opened Bytes
  import opened Protocol
  import opened EventLog
  import opened Reassembly
  import opened Packetizer
  import Ctl = Controller
  import Runs = ControllerRuns
  import opened SlidingMin

  // ----- Frames in flight -----

  datatype SentPacket = SentPacket(sentAt: u64, firstTryRecv: u64, attempt: u16, acked: bool, retryQueued: bool)

  datatype SentFrame = SentFrame(
    id: u32, createdAt: u64, firstSent: u64, deliveredAt: u64, probesSentAt: u64, epoch: nat,
    probeGap: real, keyframe: bool, allSent: bool, delivered: bool, loss: bool,
    bytes: seq<byte>, packets: seq<SentPacket>, probes: seq<Option<RecvAck>>)

  /** Payload bytes of packet pid before padding. */
  function PayloadBytes(f: SentFrame, pid: nat): nat
    requires pid < |f.packets|
  {
    Min(LOAD_SZ, Max0(|f.bytes| - pid * LOAD_SZ))
  }

  function Max0(x: int): nat { if x < 0 then 0 else x }

  function ProbeCount(probes: seq<Option<RecvAck>>): (n: nat)
    ensures n <= |probes|
  {
    if probes == [] then 0
    else ProbeCount(probes[..|probes| - 1]) + if probes[|probes| - 1].Some? then 1 else 0
  }

  function MarkAcked(p: SentPacket): SentPacket { p.(acked := true, retryQueued := false) }

  function AckPacket(p: SentPacket, a: RecvAck): SentPacket {
    var first := a.flags & RECOVERED == 0 && a.retransSeq == 0 && p.firstTryRecv == 0;
    MarkAcked(if first then p.(firstTryRecv := a.recvTime) else p)
  }

  /** SentFrame::acknowledge. */
  function Acknowledge(f: SentFrame, a: RecvAck): SentFrame {
    var f1 := if a.flags & RECOVERED != 0 then f.(loss := true) else f;
    var f2 :=
      if a.flags & PROBE != 0 then
        if a.packetId < |f1.probes| && f1.probes[a.packetId].None?
        then f1.(probes := f1.probes[a.packetId := Some(a)]) else f1
      else if a.packetId < |f1.packets|
      then f1.(packets := f1.packets[a.packetId := AckPacket(f1.packets[a.packetId], a)]) else f1;
    if a.flags & FRAME_COMPLETE != 0 then
      f2.(delivered := true, deliveredAt := if f2.delivered then f2.deliveredAt else a.frameRecvTime,
          packets := seq(|f2.packets|, i requires 0 <= i < |f2.packets| => MarkAcked(f2.packets[i])))
    else f2
  }

  /** The frame as the wire carries it. */
  function Tx(session: u64, f: SentFrame): TxFrame {
    TxFrame(session, f.id, f.firstSent, f.keyframe, f.bytes)
  }

  // ----- The sender's state -----

  datatype EncodedFrame = EncodedFrame(bytes: seq<byte>, target: real, keyframe: bool, epoch: nat, capturedAt: u64)

  /** What the listener learns from ACKs. min_owd and min_rtt are None while they hold INT64_MAX. */
  datatype Feedback = Feedback(
    srtt: real, rttvar: real, ackRate: real, retryDelay: nat, minOwd: Option<int>, owdSamples: seq<Timed>,
    wireSamples: seq<(u64, u64)>, minRtt: Option<int>, rttSamples: seq<Timed>)

  datatype Capture = CaptureIdle | Encoding(target: real, epoch: nat, capturedAt: u64)

  /** Where the pacer thread stands in its loop over a frame. */
  datatype Pacer =
    | PacerIdle
    | NextData(fid: u32, count: nat, pid: nat, parity: seq<byte>)
    | NextParity(fid: u32, count: nat, pid: nat, parity: seq<byte>)
    | AllSent(fid: u32)
    | NextProbe(fid: u32, i: nat)
    | SendProbe(fid: u32, i: nat, h: PktHeader)
    | ProbesDone(fid: u32)

  datatype Sender = Sender(
    session: u64, running: bool, bitrate: real, pacing: real, queue: seq<EncodedFrame>,
    retries: seq<(u32, nat)>, inflight: seq<SentFrame>, log: seq<Event>, ctl: Ctl.Ctl, nextId: nat,
    fb: Feedback, retransLossSeen: bool, limiting: bool, capture: Capture, pacer: Pacer, wire: seq<Datagram>)

  function Init(cfg: Ctl.Config, session: u64): Sender {
    Sender(session, true, cfg.bMin, 1.25, [], [], [], [], Ctl.Init(cfg), 1,
           Feedback(0.0, 0.0, 0.0, 100_000, None, [], [], None, []), false, false, CaptureIdle, PacerIdle, [])
  }

  /** inflight.find(fid): the in-flight map is kept as its frames in id order. */
  function Find(inflight: seq<SentFrame>, fid: u32): (r: Option<nat>)
    ensures r.Some? ==> r.value < |inflight| && inflight[r.value].id == fid
    ensures r.None? ==> forall i :: 0 <= i < |inflight| ==> inflight[i].id != fid
  {
    if inflight == [] then None
    else if inflight[|inflight| - 1].id == fid then Some(|inflight| - 1)
    else Find(inflight[..|inflight| - 1], fid)
  }

  // ----- outstanding, pending_retries -----

  function UnackedBytes(f: SentFrame, n: nat): nat
    requires n <= |f.packets|
  {
    if n == 0 then 0
    else UnackedBytes(f, n - 1) + if f.packets[n - 1].acked then 0 else PayloadBytes(f, n - 1)
  }

  /** The number of undelivered frames and their unacknowledged payload bytes. */
  function Outstanding(inflight: seq<SentFrame>): (nat, nat) {
    if inflight == [] then (0, 0)
    else
      var (count, bytes) := Outstanding(inflight[..|inflight| - 1]);
      var f := inflight[|inflight| - 1];
      if f.delivered then (count, bytes) else (count + 1, bytes + UnackedBytes(f, |f.packets|))
  }

  predicate Pending(p: SentPacket) { !p.acked && (p.attempt > 0 || p.retryQueued) }

  function PendingIn(packets: seq<SentPacket>): nat {
    if packets == [] then 0
    else PendingIn(packets[..|packets| - 1]) + if Pending(packets[|packets| - 1]) then 1 else 0
  }

  function PendingRetries(inflight: seq<SentFrame>): nat {
    if inflight == [] then 0
    else PendingRetries(inflight[..|inflight| - 1]) + PendingIn(inflight[|inflight| - 1].packets)
  }

  // ----- resolve -----

  predicate Expired(f: SentFrame, now: u64) {
    now >= f.createdAt && now - f.createdAt > FRAME_TIMEOUT
  }

  predicate ProbesReady(f: SentFrame, fb: Feedback, now: u64) {
    || ProbeCount(f.probes) == N_PROBE
    || (f.probesSentAt != 0 && now >= f.probesSentAt && now - f.probesSentAt > fb.retryDelay)
  }

  predicate Settled(f: SentFrame, fb: Feedback, now: u64) {
    Expired(f, now) || (f.delivered && ProbesReady(f, fb, now))
  }

  /** The delay charged to one probe: its queueing, clipped by the time since delivery and the probe spacing. */
  function ProbeDelay(f: SentFrame, probe: Option<RecvAck>, minOwd: int): real {
    match probe
    case None => f.probeGap
    case Some(p) =>
      var queue := Ctl.MaxR(0.0, (p.recvTime as real - p.echoedSend as real - minOwd as real) / 1_000_000.0);
      var sinceLast := if p.recvTime >= f.deliveredAt then (p.recvTime - f.deliveredAt) as real / 1_000_000.0 else 0.0;
      Ctl.MinR(Ctl.MinR(queue, sinceLast), f.probeGap)
  }

  /** First-try arrivals among the first n packets: payload bytes, first and last arrival. */
  function FirstTries(f: SentFrame, n: nat): (r: (nat, u64, u64))
    requires n <= |f.packets|
  {
    if n == 0 then (0, Ctl.UINT64_MAX, 0)
    else
      var (bytes, first, last) := FirstTries(f, n - 1);
      var t := f.packets[n - 1].firstTryRecv;
      if t == 0 then (bytes, first, last)
      else (bytes + PayloadBytes(f, n - 1), if t < first then t else first, if t > last then t else last)
  }

  /** The sample resolve hands to the controller. */
  function MakeAck(s: Sender, f: SentFrame, minOwd: int, now: u64, wall: u64): Ctl.FrameAck
    requires LegalFrame(f.bytes)
  {
    var size := |f.bytes| as real;
    var udp := FrameUdpBytes(|f.bytes|) as real;
    assert udp > 0.0;
    var (bytes, first, last) := FirstTries(f, |f.packets|);
    var mbps := size * 8.0 / INTERVAL as real;
    Ctl.FrameAck(
      f.id, (f.deliveredAt as int - f.firstSent as int) as real / 1_000_000.0, minOwd as real / 1_000_000.0,
      seq(|f.probes|, i requires 0 <= i < |f.probes| => ProbeDelay(f, f.probes[i], minOwd)),
      s.fb.ackRate * size / udp, Outstanding(s.inflight).1 as real, now, mbps, f.loss, mbps,
      bytes as real, if last == 0 then 0 else first, last, f.epoch, wall,
      match s.fb.minRtt case None => 0.0 case Some(rtt) => rtt as real / 1_000_000.0)
  }

  ghost predicate ValidFrame(f: SentFrame) {
    && LegalFrame(f.bytes) && 0 < f.id < UINT32_MAX && ClockReading(f.firstSent)
    && 0.0 <= f.probeGap && 5.0 * f.probeGap < Ctl.L_SEC && |f.probes| == N_PROBE
    && |f.packets| == PacketCount(|f.bytes|)
  }

  /** The pacer's place in its frame, as long as the frame is in flight. */
  ghost predicate ValidPacer(pacer: Pacer, inflight: seq<SentFrame>) {
    match pacer
    case NextData(fid, count, pid, parity) =>
      && pid <= count && |parity| == LOAD_SZ
      && (forall i :: 0 <= i < |inflight| && inflight[i].id == fid ==> |inflight[i].packets| == count)
    case NextParity(fid, count, pid, parity) =>
      && pid < count && |parity| == LOAD_SZ && ParityDue(pid, count)
      && (forall i :: 0 <= i < |inflight| && inflight[i].id == fid ==> |inflight[i].packets| == count)
    case NextProbe(fid, i) => i <= N_PROBE
    case SendProbe(fid, i, h) => i < N_PROBE
    case _ => true
  }

  ghost predicate ValidSender(cfg: Ctl.Config, s: Sender) {
    && Ctl.ValidConfig(cfg) && Runs.CtlInv(cfg, s.ctl)
    && s.session != 0 && s.bitrate > 0.0 && s.pacing >= Ctl.GAMMA_P
    && (forall e :: e in s.queue ==> LegalFrame(e.bytes))
    && (forall i :: 0 <= i < |s.inflight| ==> ValidFrame(s.inflight[i]))
    && IdsRise(s.inflight, s.nextId) && ValidPacer(s.pacer, s.inflight)
  }

  /** The in-flight map is in id order, and ids are handed out upwards. */
  ghost predicate IdsRise(inflight: seq<SentFrame>, nextId: nat) {
    && 1 <= nextId <= UINT32_MAX
    && (forall i :: 0 <= i < |inflight| ==> inflight[i].id < nextId)
    && (forall i, j :: 0 <= i < j < |inflight| ==> inflight[i].id < inflight[j].id)
  }

  /** Frames that keep what validity is about. */
  ghost predicate SameShape(f: SentFrame, f': SentFrame) {
    && f'.id == f.id && f'.bytes == f.bytes && f'.firstSent == f.firstSent && f'.probeGap == f.probeGap
    && f'.keyframe == f.keyframe && |f'.probes| == |f.probes| && |f'.packets| == |f.packets|
  }

  lemma AcknowledgeKeepsShape(f: SentFrame, a: RecvAck)
    ensures SameShape(f, Acknowledge(f, a))
  {
  }

  lemma MakeAckValid(s: Sender, f: SentFrame, minOwd: int, now: u64, wall: u64)
    requires ValidFrame(f)
    ensures Ctl.ValidAck(MakeAck(s, f, minOwd, now, wall))
    ensures var fa := MakeAck(s, f, minOwd, now, wall); fa.fid == f.id && |fa.probes| == N_PROBE && fa.epoch == f.epoch
  {
    hide FrameUdpBytes;
  }

  function Store(s: Sender, out: Ctl.Output): Sender {
    if out.valid then s.(bitrate := out.bitrate, pacing := out.pacing) else s
  }

  /** Sample or write off the oldest frame. */
  function Settle(cfg: Ctl.Config, s: Sender, f: SentFrame, now: u64, wall: u64): Sender
    requires ValidSender(cfg, s) && ValidFrame(f)
  {
    if f.delivered && s.fb.minOwd.Some? then
      MakeAckValid(s, f, s.fb.minOwd.value, now, wall);
      var (c, out, events) := Ctl.OnFrameAcked(cfg, s.ctl, MakeAck(s, f, s.fb.minOwd.value, now, wall));
      Store(s.(ctl := c, log := s.log + events), out)
    else if !f.delivered then
      var gap := if s.fb.srtt.Floor > 2 * INTERVAL then s.fb.srtt.Floor else 2 * INTERVAL;
      var (c, events) := Ctl.OnFrameLoss(cfg, s.ctl, now, U64(gap));
      s.(ctl := c, log := s.log + [FrameLoss(f.id)] + events, bitrate := c.FinalBitrate(), pacing := c.pacing)
    else s
  }

  function U64(n: nat): u64 { n % TWO64 }

  function SummaryOf(f: SentFrame): Event {
    ProbeSummary(f.id, N_PROBE, ProbeCount(f.probes))
  }

  lemma AckedOutput(cfg: Ctl.Config, c: Ctl.Ctl, fa: Ctl.FrameAck)
    requires Ctl.ValidConfig(cfg) && Runs.CtlInv(cfg, c) && Ctl.ValidAck(fa)
    ensures var (c', out, events) := Ctl.OnFrameAcked(cfg, c, fa);
      Runs.CtlInv(cfg, c') && out.bitrate > 0.0 && out.pacing >= Ctl.GAMMA_P
  {
    if fa.fid > c.lastSampleId {
      Runs.AckedStages(cfg, c, fa);
      hide Ctl.OnFrameAcked, Ctl.Observe, Ctl.Verdict, Ctl.FrameBur;
    }
  }

  lemma SettleKeepsValid(cfg: Ctl.Config, s: Sender, f: SentFrame, now: u64, wall: u64)
    requires ValidSender(cfg, s) && ValidFrame(f)
    ensures var s' := Settle(cfg, s, f, now, wall);
      && ValidSender(cfg, s')
      && s' == s.(ctl := s'.ctl, log := s'.log, bitrate := s'.bitrate, pacing := s'.pacing)
  {
    if f.delivered && s.fb.minOwd.Some? {
      MakeAckValid(s, f, s.fb.minOwd.value, now, wall);
      var fa := MakeAck(s, f, s.fb.minOwd.value, now, wall);
      hide MakeAck;
      AckedOutput(cfg, s.ctl, fa);
      hide Runs.CtlInv;
    } else if !f.delivered {
      var gap := if s.fb.srtt.Floor > 2 * INTERVAL then s.fb.srtt.Floor else 2 * INTERVAL;
      Runs.ApplyKeepsCtlInv(cfg, s.ctl, Runs.FrameLost(now, U64(gap)));
    }
  }

  function Limits(s: Sender): Sender {
    var pending := PendingRetries(s.inflight);
    var on := s.limiting || (s.retransLossSeen && pending >= 4);
    s.(limiting := on && !(pending < 2 && s.retries == []))
  }

  /** Settle the frame at the front and forget it. */
  function SettleFirst(cfg: Ctl.Config, s: Sender, now: u64, wall: nat -> u64): (r: Sender)
    requires ValidSender(cfg, s) && s.inflight != []
    ensures ValidSender(cfg, r)
    ensures r == s.(ctl := r.ctl, log := r.log, bitrate := r.bitrate, pacing := r.pacing, inflight := s.inflight[1..])
  {
    var f := s.inflight[0];
    SettleKeepsValid(cfg, s, f, now, wall(f.id));
    var s1 := Settle(cfg, s, f, now, wall(f.id));
    s1.(log := s1.log + [SummaryOf(f)], inflight := s.inflight[1..])
  }

  /** resolve: settle frames in order, up to the first that must wait. */
  function Resolve(cfg: Ctl.Config, s: Sender, now: u64, wall: nat -> u64): (r: Sender)
    requires ValidSender(cfg, s)
    ensures ValidSender(cfg, r)
    decreases |s.inflight|
  {
    if s.inflight != [] && Settled(s.inflight[0], s.fb, now)
    then Resolve(cfg, SettleFirst(cfg, s, now, wall), now, wall)
    else Limits(s)
  }

  // ----- timers -----

  /** The packet's retransmission timer has run out. */
  predicate Due(p: SentPacket, now: u64, retryDelay: nat) {
    !p.acked && !p.retryQueued && p.sentAt != 0 && now >= p.sentAt && now - p.sentAt >= retryDelay && p.attempt < 8
  }

  predicate Retriable(f: SentFrame) { !f.delivered && f.allSent }

  predicate DueIn(f: SentFrame, pid: nat, now: u64, retryDelay: nat)
    requires pid < |f.packets|
  {
    Retriable(f) && Due(f.packets[pid], now, retryDelay)
  }

  function Marked(f: SentFrame, now: u64, retryDelay: nat): SentFrame {
    f.(packets := seq(|f.packets|, i requires 0 <= i < |f.packets| =>
                        if DueIn(f, i, now, retryDelay) then f.packets[i].(retryQueued := true) else f.packets[i]),
       loss := f.loss || exists i :: 0 <= i < |f.packets| && DueIn(f, i, now, retryDelay))
  }

  function MarkAll(inflight: seq<SentFrame>, now: u64, retryDelay: nat): seq<SentFrame> {
    seq(|inflight|, i requires 0 <= i < |inflight| => Marked(inflight[i], now, retryDelay))
  }

  /** The due packets among a frame's first n, in order. */
  function DuePackets(f: SentFrame, n: nat, now: u64, retryDelay: nat): seq<(u32, nat)>
    requires n <= |f.packets|
  {
    if n == 0 then []
    else DuePackets(f, n - 1, now, retryDelay) + if DueIn(f, n - 1, now, retryDelay) then [(f.id, n - 1)] else []
  }

  function AllDue(inflight: seq<SentFrame>, now: u64, retryDelay: nat): seq<(u32, nat)> {
    if inflight == [] then []
    else
      var f := inflight[|inflight| - 1];
      AllDue(inflight[..|inflight| - 1], now, retryDelay) + DuePackets(f, |f.packets|, now, retryDelay)
  }

  /** Some packet times out that was retransmitted before. */
  predicate RetransmissionLost(inflight: seq<SentFrame>, now: u64, retryDelay: nat) {
    exists i, j :: 0 <= i < |inflight| && 0 <= j < |inflight[i].packets|
      && DueIn(inflight[i], j, now, retryDelay) && inflight[i].packets[j].attempt > 0
  }

  function QueueRetries(s: Sender, now: u64): Sender {
    var delay := s.fb.retryDelay;
    var lost := !s.retransLossSeen && RetransmissionLost(s.inflight, now, delay);
    s.(inflight := MarkAll(s.inflight, now, delay),
       retries := s.retries + AllDue(s.inflight, now, delay),
       retransLossSeen := s.retransLossSeen || lost,
       log := if lost then s.log + [RetransLoss(s.ctl.rate)] else s.log)
  }

  /** The first frame not yet delivered. */
  function OldestUndelivered(inflight: seq<SentFrame>): Option<SentFrame> {
    if inflight == [] then None
    else if !inflight[0].delivered then Some(inflight[0])
    else OldestUndelivered(inflight[1..])
  }

  function BaseRtt(fb: Feedback): u64 {
    match fb.minRtt
    case None => 0
    case Some(v) => U64(Max0(v))
  }

  function CheckAge(cfg: Ctl.Config, s: Sender, now: u64): Sender {
    match OldestUndelivered(s.inflight)
    case None => s
    case Some(f) =>
      var (c, out, events) := Ctl.OnInflightAge(cfg, s.ctl, Sub64(now, f.createdAt), BaseRtt(s.fb));
      Store(s.(ctl := c, log := s.log + events), out)
  }

  lemma CheckAgeKeepsValid(cfg: Ctl.Config, s: Sender, now: u64)
    requires ValidSender(cfg, s)
    ensures var s' := CheckAge(cfg, s, now);
      && ValidSender(cfg, s')
      && s' == s.(ctl := s'.ctl, log := s'.log, bitrate := s'.bitrate, pacing := s'.pacing)
  {
    hide ValidFrame, ValidPacer, OldestUndelivered;
    var oldest := OldestUndelivered(s.inflight);
    if oldest.Some? {
      Runs.ApplyKeepsCtlInv(cfg, s.ctl, Runs.InflightAge(Sub64(now, oldest.value.createdAt), BaseRtt(s.fb)));
    }
  }

  lemma QueueRetriesKeepsValid(cfg: Ctl.Config, s: Sender, now: u64)
    requires ValidSender(cfg, s)
    ensures ValidSender(cfg, QueueRetries(s, now))
  {
  }

  function Timers(cfg: Ctl.Config, s: Sender, now: u64, wall: nat -> u64): (r: Sender)
    requires ValidSender(cfg, s)
    ensures ValidSender(cfg, r)
  {
    QueueRetriesKeepsValid(cfg, s, now);
    CheckAgeKeepsValid(cfg, QueueRetries(s, now), now);
    Resolve(cfg, CheckAge(cfg, QueueRetries(s, now), now), now, wall)
  }

  // ----- The listener's ACK branch -----

  function Abs(x: real): real { if x < 0.0 then -x else x }

  /** RTT, retransmission timeout and the sliding minima, from an ACK that echoes a send time. */
  function ObserveTimes(fb: Feedback, a: RecvAck, now: u64): Feedback
    requires a.echoedSend <= now
  {
    var rtt := (now - a.echoedSend) as real;
    var rttvar := if fb.srtt == 0.0 then rtt / 2.0 else 0.75 * fb.rttvar + 0.25 * Abs(fb.srtt - rtt);
    var srtt := if fb.srtt == 0.0 then rtt else 0.875 * fb.srtt + 0.125 * rtt;
    var timeout := (srtt + 4.0 * rttvar).Floor;
    var rtts := Push(fb.rttSamples, now, now - a.echoedSend);
    var owds := Push(fb.owdSamples, now, a.recvTime - a.echoedSend);
    fb.(srtt := srtt, rttvar := rttvar, retryDelay := if timeout > 20_000 then timeout else 20_000,
        rttSamples := rtts, minRtt := Some(rtts[0].value), owdSamples := owds, minOwd := Some(owds[0].value))
  }

  function TrimWire(w: seq<(u64, u64)>, recvTime: u64): (r: seq<(u64, u64)>)
    ensures w != [] ==> r != []
  {
    if |w| > 2 && Sub64(recvTime, w[1].0) > 200_000 then TrimWire(w[1..], recvTime) else w
  }

  /** The receive rate over about the last 200 ms of the receiver's byte counter. */
  function ObserveWire(fb: Feedback, a: RecvAck): Feedback {
    var w := fb.wireSamples;
    if w != [] && !(a.recvTime > w[|w| - 1].0 && a.wireBytes >= w[|w| - 1].1) then fb
    else
      var w' := TrimWire(w + [(a.recvTime, a.wireBytes)], a.recvTime);
      fb.(wireSamples := w',
          ackRate := if a.recvTime > w'[0].0
                     then 8.0 * Sub64(a.wireBytes, w'[0].1) as real / (a.recvTime - w'[0].0) as real
                     else fb.ackRate)
  }

  predicate UsableAck(f: SentFrame, a: RecvAck, now: u64) {
    && (if a.flags & PROBE != 0 then a.packetId < N_PROBE else a.packetId < |f.packets|)
    && a.echoedSend <= now
  }

  function HandleAck(s: Sender, a: RecvAck, now: u64): Sender {
    match Find(s.inflight, a.frameId)
    case None => s
    case Some(i) =>
      var f := s.inflight[i];
      if !UsableAck(f, a, now) then s
      else
        var fb1 := if a.echoedSend != 0 && a.flags & RECOVERED == 0 then ObserveTimes(s.fb, a, now) else s.fb;
        var f' := Acknowledge(f, a);
        s.(fb := ObserveWire(fb1, a), inflight := s.inflight[i := f'],
           log := if !f.delivered && f'.delivered then s.log + [FrameDelivered(f.id, f'.loss)] else s.log)
  }

  // ----- capture -----

  /** Wire bytes of a frame still queued, and of each packet not yet sent. */
  function QueuedWire(queue: seq<EncodedFrame>): nat {
    if queue == [] then 0
    else
      var packets := PacketCount(U32(|queue[|queue| - 1].bytes|));
      QueuedWire(queue[..|queue| - 1])
      + (packets + ParityCount(packets)) * (MAX_BUF + 28) + N_PROBE * (HEADER_SIZE + 28)
  }

  function UnsentIn(packets: seq<SentPacket>): nat {
    if packets == [] then 0
    else UnsentIn(packets[..|packets| - 1]) + if packets[|packets| - 1].sentAt == 0 then 1 else 0
  }

  function Unsent(inflight: seq<SentFrame>): nat {
    if inflight == [] then 0 else Unsent(inflight[..|inflight| - 1]) + UnsentIn(inflight[|inflight| - 1].packets)
  }

  predicate Backlogged(cfg: Ctl.Config, s: Sender)
    requires Ctl.ValidConfig(cfg) && s.bitrate > 0.0
  {
    var queued := QueuedWire(s.queue) + Unsent(s.inflight) * ((MAX_BUF + 28) * 5 / 4);
    var rate := if s.limiting then Ctl.MaxR(s.fb.ackRate, cfg.bMin) else s.bitrate;
    assert rate > 0.0;
    queued as real * 8.0 / (rate * 1_000_000.0) > 2.0 * INTERVAL as real / 1_000_000.0 || |s.queue| >= 3
  }

  // ----- The capture thread -----

  /** The locked block that decides whether to encode, and at which rate and epoch. */
  function CaptureFrame(cfg: Ctl.Config, s: Sender, capturedAt: u64): Sender
    requires ValidSender(cfg, s)
  {
    if !s.capture.CaptureIdle? then s
    else if Backlogged(cfg, s) then
      s.(bitrate := s.ctl.FinalBitrate(), log := s.log + [FrameSkipped])
    else
      var (c, target, events) := Ctl.TakeEncodingBitrate(cfg, s.ctl);
      s.(ctl := c, log := s.log + events, bitrate := c.FinalBitrate(),
         capture := Encoding(target, c.rateEpoch, capturedAt))
  }

  /** An exception in a worker: guarded stops the sender. */
  function Fail(s: Sender): Sender {
    s.(running := false, log := s.log + [Failed])
  }

  /** The encoder's output enters the pacer's queue. */
  function PushFrame(s: Sender, bytes: seq<byte>, keyframe: bool): Sender {
    match s.capture
    case CaptureIdle => s
    case Encoding(target, epoch, capturedAt) =>
      var idle := s.(capture := CaptureIdle);
      if bytes == [] then idle
      else if |bytes| > MAX_FRAME_BYTES then Fail(idle)
      else idle.(queue := s.queue + [EncodedFrame(bytes, target, keyframe, epoch, capturedAt)])
  }

  // ----- The pacer thread -----

  /** The spacing of probes: (INTERVAL - INTERVAL/rho) / (N_PROBE + 1), in seconds; less than a fifth of the
      interval. */
  function ProbeGap(rho: real): (gap: real)
    requires rho >= Ctl.GAMMA_P
    ensures 0.0 <= gap && 5.0 * gap < Ctl.L_SEC
  {
    var sensible := INTERVAL as real / rho;
    assert 0.0 < sensible <= INTERVAL as real;
    (INTERVAL as real - sensible) / (N_PROBE + 1) as real / 1_000_000.0
  }

  function NewSentFrame(id: u32, e: EncodedFrame, started: u64, firstSent: u64, rho: real): SentFrame
    requires rho >= Ctl.GAMMA_P
  {
    SentFrame(id, started, firstSent, 0, 0, e.epoch, ProbeGap(rho), e.keyframe, false, false, false, e.bytes,
              seq(PacketCount(U32(|e.bytes|)), _ => SentPacket(0, 0, 0, false, false)),
              [None, None, None, None])
  }

  /** The block that takes a frame from the queue, numbers it and puts it in flight. */
  function StartFrame(s: Sender, started: u64, firstSent: u64): Sender
    requires s.pacing >= Ctl.GAMMA_P
  {
    if !s.pacer.PacerIdle? || s.queue == [] then s
    else
      var e := s.queue[0];
      var rest := s.(queue := s.queue[1..]);
      if s.nextId >= UINT32_MAX then Fail(rest)
      else
        var f := NewSentFrame(s.nextId, e, started, firstSent, s.pacing);
        rest.(nextId := s.nextId + 1, inflight := s.inflight + [f],
              log := s.log + [FrameSent(s.nextId, |e.bytes|)],
              pacer := NextData(s.nextId, |f.packets|, 0, Zeros(LOAD_SZ)))
  }

  function WithPacket(f: SentFrame, pid: nat, p: SentPacket): SentFrame
    requires pid < |f.packets|
  {
    f.(packets := f.packets[pid := p])
  }

  /** Send data packet pid and fold it into the running parity. */
  function SendDataStep(s: Sender, fid: u32, count: nat, pid: nat, parity: seq<byte>, i: nat, now: u64): Sender
    requires i < |s.inflight| && ValidFrame(s.inflight[i]) && s.session != 0
    requires |parity| == LOAD_SZ && pid < count == |s.inflight[i].packets|
  {
    var f := s.inflight[i];
    var d := DataPacket(Tx(s.session, f), pid, 0, now);
    var parity' := XorBytes(if pid % FEC_K == 0 then Zeros(LOAD_SZ) else parity, d.payload);
    s.(inflight := s.inflight[i := WithPacket(f, pid, f.packets[pid].(sentAt := now))],
       wire := s.wire + [d],
       pacer := if ParityDue(pid, count) then NextParity(fid, count, pid, parity')
                else NextData(fid, count, pid + 1, parity'))
  }

  function ParityDatagram(session: u64, f: SentFrame, pid: nat, parity: seq<byte>, now: u64): Datagram
    requires session != 0 && ValidFrame(f) && pid < |f.packets|
  {
    Datagram(ParityHeader(Tx(session, f), pid / FEC_K, now), parity)
  }

  /** The next block of the pacer's loop over its frame; a frame no longer in flight ends the loop it is in.
      running is what the loop's head read of the atomic flag. */
  function PacerStep(s: Sender, now: u64, running: bool): Sender
    requires s.session != 0 && ValidPacer(s.pacer, s.inflight)
    requires forall i :: 0 <= i < |s.inflight| ==> ValidFrame(s.inflight[i])
  {
    match s.pacer
    case PacerIdle => s
    case NextData(fid, count, pid, parity) =>
      if pid >= count || !running then s.(pacer := AllSent(fid))
      else (
        match Find(s.inflight, fid)
        case None => s.(pacer := AllSent(fid))
        case Some(i) => SendDataStep(s, fid, count, pid, parity, i, now)
      )
    case NextParity(fid, count, pid, parity) => (
      match Find(s.inflight, fid)
      case None => s.(pacer := AllSent(fid))
      case Some(i) =>
        assert ValidFrame(s.inflight[i]);
        s.(wire := s.wire + [ParityDatagram(s.session, s.inflight[i], pid, parity, now)],
           pacer := NextData(fid, count, pid + 1, parity))
      )
    case AllSent(fid) => (
      var next := s.(pacer := NextProbe(fid, 0));
      match Find(s.inflight, fid)
      case None => next
      case Some(i) => next.(inflight := s.inflight[i := s.inflight[i].(allSent := true)])
      )
    case NextProbe(fid, k) =>
      if k >= N_PROBE || !running then s.(pacer := ProbesDone(fid))
      else (
        match Find(s.inflight, fid)
        case None => s.(pacer := ProbesDone(fid))
        case Some(i) =>
          assert ValidFrame(s.inflight[i]);
          s.(pacer := SendProbe(fid, k, ProbeHeader(Tx(s.session, s.inflight[i]), k, 0)))
      )
    case SendProbe(fid, k, h) =>
      s.(wire := s.wire + [Datagram(h.(sendTime := now), [])], pacer := NextProbe(fid, k + 1))
    case ProbesDone(fid) => (
      var idle := s.(pacer := PacerIdle);
      match Find(s.inflight, fid)
      case None => idle
      case Some(i) => idle.(inflight := s.inflight[i := s.inflight[i].(probesSentAt := now)])
      )
  }

  /** retry_one: drop queue entries that are no longer wanted, and retransmit the first that is. */
  function RetryOne(s: Sender, now: u64): Sender
    requires s.session != 0 && forall i :: 0 <= i < |s.inflight| ==> ValidFrame(s.inflight[i])
    decreases |s.retries|
  {
    if s.retries == [] then s
    else
      var (fid, pid) := s.retries[0];
      var popped := s.(retries := s.retries[1..]);
      match Find(s.inflight, fid)
      case None => RetryOne(popped, now)
      case Some(i) =>
        var f := s.inflight[i];
        assert ValidFrame(f);
        if pid >= |f.packets| then RetryOne(popped, now)
        else
          var p := f.packets[pid].(retryQueued := false);
          assert ValidFrame(WithPacket(f, pid, p));
          if p.acked then RetryOne(popped.(inflight := s.inflight[i := WithPacket(f, pid, p)]), now)
          else
            var sent := p.(attempt := (p.attempt + 1) % TWO16, sentAt := now);
            popped.(inflight := s.inflight[i := WithPacket(f, pid, sent)],
                    wire := s.wire + [DataPacket(Tx(s.session, f), pid, sent.attempt, now)],
                    log := s.log + [PacketRetransmitted(fid, pid, sent.attempt)])
  }

  /** retry_one runs at the head of the pacer's loops. */
  predicate MayRetry(s: Sender) {
    s.pacer.PacerIdle? || s.pacer.NextData?
  }

  // ----- All steps -----

  datatype Input = NoDatagram | KeyRequest(fid: u32, served: bool) | Ack(a: RecvAck)

  datatype Step =
    | Capture(capturedAt: u64)
    | Encoded(bytes: seq<byte>, keyframe: bool)
    | Start(started: u64, firstSent: u64)
    | Pace(now: u64, running: bool)
    | Retry(now: u64)
    | Announce(width: u32, height: u32)
    | Listen(input: Input, now: u64, wall: nat -> u64)
    | KeyLoss
    | KeyClear
    | KeyDrain
    | KeyQuit

  /** Clocks read positive times, and a loop's head may have read running before it was cleared, never before it was
      set; the listener only handles ACKs that decode accepts and that carry its session. */
  ghost predicate ValidStep(s: Sender, step: Step) {
    match step
    case Start(started, firstSent) => ClockReading(started) && ClockReading(firstSent)
    case Pace(now, running) => ClockReading(now) && (!running ==> !s.running)
    case Retry(now) => ClockReading(now)
    case Listen(input, now, wall) =>
      ClockReading(now) && (input.Ack? ==> AckAccepted(input.a) && input.a.session == s.session)
    case _ => true
  }

  function HandleInput(s: Sender, input: Input, now: u64): Sender {
    match input
    case NoDatagram => s
    case KeyRequest(fid, served) => if served then s.(log := s.log + [KeyframeRequested(fid)]) else s
    case Ack(a) => if a.flags == KEY_REQUEST then s else HandleAck(s, a, now)
  }

  lemma HandleInputKeepsValid(cfg: Ctl.Config, s: Sender, input: Input, now: u64)
    requires ValidSender(cfg, s)
    ensures ValidSender(cfg, HandleInput(s, input, now))
  {
    hide Acknowledge, ObserveTimes, ObserveWire, Runs.CtlInv, UsableAck, Find;
    if input.Ack? {
      var i := Find(s.inflight, input.a.frameId);
      if i.Some? {
        assert ValidFrame(s.inflight[i.value]);
        AcknowledgeKeepsShape(s.inflight[i.value], input.a);
      }
    }
  }

  function Next(cfg: Ctl.Config, s: Sender, step: Step): Sender
    requires ValidSender(cfg, s)
  {
    match step
    case Capture(capturedAt) => CaptureFrame(cfg, s, capturedAt)
    case Encoded(bytes, keyframe) => PushFrame(s, bytes, keyframe)
    case Start(started, firstSent) => StartFrame(s, started, firstSent)
    case Pace(now, running) => PacerStep(s, now, running)
    case Retry(now) => if MayRetry(s) then RetryOne(s, now) else s
    case Announce(width, height) =>
      if s.pacer.PacerIdle? then s.(wire := s.wire + [StreamInfoPacket(s.session, width, height)]) else s
    case Listen(input, now, wall) =>
      HandleInputKeepsValid(cfg, s, input, now);
      Timers(cfg, HandleInput(s, input, now), now, wall)
    case KeyLoss =>
      var (c, events) := Ctl.OnFrameLoss(cfg, s.ctl, 0, 0);
      s.(ctl := c, log := s.log + events, bitrate := c.FinalBitrate())
    case KeyClear => s.(ctl := s.ctl.(history := []))
    case KeyDrain => s.(ctl := Ctl.ForceDrain(s.ctl))
    case KeyQuit => s.(running := false)
  }

  /** What stop logs for the frames still in flight. */
  function StopEvents(inflight: seq<SentFrame>): seq<Event> {
    if inflight == [] then []
    else
      var f := inflight[|inflight| - 1];
      StopEvents(inflight[..|inflight| - 1]) + (if f.delivered then [] else [FrameLoss(f.id)]) + [SummaryOf(f)]
  }

  function Stop(s: Sender): Sender {
    s.(running := false, log := s.log + StopEvents(s.inflight), inflight := [], queue := [], retries := [])
  }
}
