/** The retransmission queue and how often a packet is sent (timers, retry_one, acknowledge in codes/sender.cc). */
module SenderRetries {
  import opened Bytes
  import opened Protocol
  import opened Reassembly
  import opened Packetizer
  import Ctl = Controller
  import Runs = ControllerRuns
  import opened Sender
  import opened SenderRuns

  type Pair = (u32, nat)

  // ----- The queue invariant -----

  ghost predicate NoDuplicates(retries: seq<Pair>) {
    forall i, j :: 0 <= i < j < |retries| ==> retries[i] != retries[j]
  }

  /** A packet, and whether the queue holds it. */
  ghost predicate PacketInv(p: SentPacket, queued: bool) {
    && (if p.acked then !p.retryQueued else (p.retryQueued <==> queued))
    && p.attempt <= 8 && (p.retryQueued ==> p.attempt < 8 && p.sentAt != 0)
    && (p.sentAt == 0 ==> p.attempt == 0)
  }

  ghost predicate FrameInv(f: SentFrame, retries: seq<Pair>) {
    && (forall pid :: 0 <= pid < |f.packets| ==> PacketInv(f.packets[pid], (f.id, pid) in retries))
    && (forall r :: r in retries && r.0 == f.id ==> r.1 < |f.packets|)
  }

  ghost predicate RetryInv(retries: seq<Pair>, inflight: seq<SentFrame>, nextId: nat) {
    && NoDuplicates(retries)
    && (forall r :: r in retries ==> r.0 < nextId)
    && (forall i :: 0 <= i < |inflight| ==> FrameInv(inflight[i], retries))
  }

  ghost predicate QueueInv(s: Sender) { RetryInv(s.retries, s.inflight, s.nextId) }

  lemma UpdateKeepsQueue(s: Sender, i: nat, f: SentFrame)
    requires QueueInv(s) && i < |s.inflight| && FrameInv(f, s.retries)
    ensures RetryInv(s.retries, s.inflight[i := f], s.nextId)
  {
  }

  // ----- timers -----

  lemma {:induction false} DuePacketsMembers(f: SentFrame, n: nat, now: u64, delay: nat)
    requires n <= |f.packets|
    ensures forall r :: r in DuePackets(f, n, now, delay) <==> r.0 == f.id && r.1 < n && DueIn(f, r.1, now, delay)
    ensures NoDuplicates(DuePackets(f, n, now, delay))
  {
    if n > 0 {
      DuePacketsMembers(f, n - 1, now, delay);
      hide DueIn;
      var before := DuePackets(f, n - 1, now, delay);
      assert DuePackets(f, n, now, delay) == before + if DueIn(f, n - 1, now, delay) then [(f.id, n - 1)] else [];
      assert forall r :: r in before ==> r.1 < n - 1;
      AppendDistinct(before, if DueIn(f, n - 1, now, delay) then [(f.id, n - 1)] else []);
    }
  }

  lemma AppendDistinct(a: seq<Pair>, b: seq<Pair>)
    requires NoDuplicates(a) && NoDuplicates(b) && forall r :: r in a ==> r !in b
    ensures NoDuplicates(a + b)
    ensures forall r :: r in a + b <==> r in a || r in b
  {
    forall i, j | 0 <= i < j < |a + b|
      ensures (a + b)[i] != (a + b)[j]
    {
      if i < |a| <= j {
        assert a[i] in a && b[j - |a|] in b;
      }
    }
  }

  ghost predicate DuePair(inflight: seq<SentFrame>, r: Pair, now: u64, delay: nat) {
    exists i :: 0 <= i < |inflight| && inflight[i].id == r.0 && r.1 < |inflight[i].packets|
                && DueIn(inflight[i], r.1, now, delay)
  }

  lemma DuePairLast(inflight: seq<SentFrame>, r: Pair, now: u64, delay: nat)
    requires inflight != []
    ensures var k := |inflight| - 1;
      DuePair(inflight, r, now, delay) <==>
        || DuePair(inflight[..k], r, now, delay)
        || (inflight[k].id == r.0 && r.1 < |inflight[k].packets| && DueIn(inflight[k], r.1, now, delay))
  {
    hide DueIn;
    var k := |inflight| - 1;
    assert forall i :: 0 <= i < k ==> inflight[..k][i] == inflight[i];
  }

  lemma {:induction false} AllDueMembers(inflight: seq<SentFrame>, nextId: nat, now: u64, delay: nat)
    requires IdsRise(inflight, nextId)
    ensures forall r: Pair :: r in AllDue(inflight, now, delay) <==> DuePair(inflight, r, now, delay)
    ensures NoDuplicates(AllDue(inflight, now, delay))
  {
    if inflight != [] {
      var k := |inflight| - 1;
      var f := inflight[k];
      AllDueMembers(inflight[..k], nextId, now, delay);
      DuePacketsMembers(f, |f.packets|, now, delay);
      var before, last := AllDue(inflight[..k], now, delay), DuePackets(f, |f.packets|, now, delay);
      assert AllDue(inflight, now, delay) == before + last;
      hide DueIn, DuePackets, NoDuplicates;
      forall r: Pair
        ensures r in before ==> r !in last
        ensures DuePair(inflight, r, now, delay) <==> r in before || r in last
      {
        DuePairLast(inflight, r, now, delay);
      }
      hide DuePair;
      AppendDistinct(before, last);
    }
  }

  lemma DueIsNew(s: Sender, r: Pair, now: u64, delay: nat)
    requires QueueInv(s) && DuePair(s.inflight, r, now, delay)
    ensures r !in s.retries
  {
    var i :| 0 <= i < |s.inflight| && s.inflight[i].id == r.0 && r.1 < |s.inflight[i].packets|
             && DueIn(s.inflight[i], r.1, now, delay);
    assert FrameInv(s.inflight[i], s.retries);
    assert PacketInv(s.inflight[i].packets[r.1], r in s.retries);
  }

  /** Every packet timers queues was not in the queue, and is marked. */
  lemma QueueRetriesKeepsQueue(cfg: Ctl.Config, s: Sender, now: u64)
    requires ValidSender(cfg, s) && QueueInv(s)
    ensures QueueInv(QueueRetries(s, now))
  {
    hide ValidFrame, ValidPacer, Runs.CtlInv;
    var delay := s.fb.retryDelay;
    var due := AllDue(s.inflight, now, delay);
    AllDueMembers(s.inflight, s.nextId, now, delay);
    forall r | r in due
      ensures r !in s.retries
    {
      DueIsNew(s, r, now, delay);
    }
    AppendDistinct(s.retries, due);
    forall i | 0 <= i < |s.inflight|
      ensures FrameInv(Marked(s.inflight[i], now, delay), s.retries + due)
    {
      MarkedKeepsFrame(s.inflight, s.nextId, i, s.retries, due, now, delay);
    }
  }

  lemma MarkedKeepsFrame(inflight: seq<SentFrame>, nextId: nat, i: nat, retries: seq<Pair>, due: seq<Pair>,
                         now: u64, delay: nat)
    requires i < |inflight| && IdsRise(inflight, nextId) && FrameInv(inflight[i], retries)
    requires forall r: Pair :: r in due <==> DuePair(inflight, r, now, delay)
    ensures FrameInv(Marked(inflight[i], now, delay), retries + due)
  {
    var f := inflight[i];
    forall pid: nat
      ensures (f.id, pid) in due <==> pid < |f.packets| && DueIn(f, pid, now, delay)
    {
      if DuePair(inflight, (f.id, pid), now, delay) {
        var k :| 0 <= k < |inflight| && inflight[k].id == f.id && pid < |inflight[k].packets|
                 && DueIn(inflight[k], pid, now, delay);
        assert k == i;
      }
    }
    hide DuePair;
    forall r | r in retries + due && r.0 == f.id
      ensures r.1 < |f.packets|
    {
      if r !in retries {
        assert (f.id, r.1) in due;
      }
    }
  }

  // ----- acknowledge -----

  /** Acknowledged, and otherwise as it was. */
  predicate AckedForm(p: SentPacket, p': SentPacket) {
    p'.acked && !p'.retryQueued && p'.sentAt == p.sentAt && p'.attempt == p.attempt
  }

  /** An ACK leaves a packet alone or acknowledges it. */
  lemma AcknowledgePacket(f: SentFrame, a: RecvAck, pid: nat)
    requires pid < |f.packets|
    ensures var f' := Acknowledge(f, a);
      && f'.id == f.id && |f'.packets| == |f.packets|
      && (f'.packets[pid] == f.packets[pid] || AckedForm(f.packets[pid], f'.packets[pid]))
  {
    assert AckedForm(f.packets[pid], AckPacket(f.packets[pid], a));
    assert AckedForm(f.packets[pid], MarkAcked(f.packets[pid]));
    assert AckedForm(f.packets[pid], MarkAcked(AckPacket(f.packets[pid], a)));
    hide AckPacket, MarkAcked, AckedForm;
  }

  lemma AcknowledgeKeepsFrame(f: SentFrame, a: RecvAck, retries: seq<Pair>)
    requires FrameInv(f, retries)
    ensures FrameInv(Acknowledge(f, a), retries)
  {
    var f' := Acknowledge(f, a);
    AcknowledgeKeepsShape(f, a);
    hide Acknowledge;
    forall pid: nat | pid < |f'.packets|
      ensures PacketInv(f'.packets[pid], (f'.id, pid) in retries)
    {
      AcknowledgePacket(f, a, pid);
      assert PacketInv(f.packets[pid], (f.id, pid) in retries);
    }
  }

  lemma AcknowledgeKeepsQueue(s: Sender, i: nat, a: RecvAck)
    requires QueueInv(s) && i < |s.inflight|
    ensures RetryInv(s.retries, s.inflight[i := Acknowledge(s.inflight[i], a)], s.nextId)
  {
    hide Acknowledge, FrameInv;
    AcknowledgeKeepsFrame(s.inflight[i], a, s.retries);
    UpdateKeepsQueue(s, i, Acknowledge(s.inflight[i], a));
  }

  lemma HandleInputKeepsQueue(s: Sender, input: Input, now: u64)
    requires QueueInv(s)
    ensures QueueInv(HandleInput(s, input, now))
  {
    hide Acknowledge, ObserveTimes, ObserveWire, UsableAck, Find, FrameInv, RetryInv;
    var s' := HandleInput(s, input, now);
    assert s'.retries == s.retries && s'.nextId == s.nextId;
    match input
    case NoDatagram =>
    case KeyRequest(fid, served) =>
      assert s'.inflight == s.inflight;
    case Ack(a) =>
      var i := Find(s.inflight, a.frameId);
      if i.Some? {
        AcknowledgeKeepsQueue(s, i.value, a);
      }
  }

  // ----- retry_one -----

  /** Taking the front off the queue touches only that packet's entry. */
  lemma PopMembers(retries: seq<Pair>)
    requires retries != [] && NoDuplicates(retries)
    ensures NoDuplicates(retries[1..]) && retries[0] !in retries[1..]
    ensures forall r :: r in retries <==> r == retries[0] || r in retries[1..]
  {
  }

  lemma PopKeepsOther(f: SentFrame, retries: seq<Pair>)
    requires retries != [] && NoDuplicates(retries) && FrameInv(f, retries) && f.id != retries[0].0
    ensures FrameInv(f, retries[1..])
  {
    PopMembers(retries);
  }

  /** The packet at the front of the queue is a packet of its frame; after the pop its mark is off the queue's
      record. */
  lemma PopKeepsFrame(f: SentFrame, retries: seq<Pair>, p: SentPacket)
    requires retries != [] && NoDuplicates(retries) && FrameInv(f, retries) && f.id == retries[0].0
    requires retries[0].1 < |f.packets| && PacketInv(p, false)
    ensures FrameInv(WithPacket(f, retries[0].1, p), retries[1..])
  {
    PopMembers(retries);
  }

  /** Taking off the front, and leaving its frame's packet in a state that fits an empty queue entry. */
  lemma PopKeepsQueue(s: Sender, i: nat, p: SentPacket)
    requires QueueInv(s) && s.retries != [] && IdsRise(s.inflight, s.nextId)
    requires i < |s.inflight| && s.inflight[i].id == s.retries[0].0 && s.retries[0].1 < |s.inflight[i].packets|
    requires PacketInv(p, false)
    ensures RetryInv(s.retries[1..], s.inflight[i := WithPacket(s.inflight[i], s.retries[0].1, p)], s.nextId)
  {
    hide PacketInv, FrameInv, WithPacket;
    PopMembers(s.retries);
    var f := WithPacket(s.inflight[i], s.retries[0].1, p);
    PopKeepsFrame(s.inflight[i], s.retries, p);
    var updated := s.inflight[i := f];
    forall k | 0 <= k < |updated|
      ensures FrameInv(updated[k], s.retries[1..])
    {
      if k != i {
        assert s.inflight[k].id != s.inflight[i].id;
        PopKeepsOther(s.inflight[k], s.retries);
      }
    }
  }

  lemma PopKeepsQueueGone(s: Sender)
    requires QueueInv(s) && s.retries != [] && Find(s.inflight, s.retries[0].0).None?
    ensures RetryInv(s.retries[1..], s.inflight, s.nextId)
  {
    hide PacketInv, FrameInv;
    PopMembers(s.retries);
    forall k | 0 <= k < |s.inflight|
      ensures FrameInv(s.inflight[k], s.retries[1..])
    {
      PopKeepsOther(s.inflight[k], s.retries);
    }
  }

  /** An entry of the queue whose frame is in flight names one of its packets: the unchecked index is in range. */
  lemma FrontInRange(s: Sender, i: nat)
    requires QueueInv(s) && s.retries != [] && i < |s.inflight| && s.inflight[i].id == s.retries[0].0
    ensures var pid := s.retries[0].1;
      pid < |s.inflight[i].packets| && PacketInv(s.inflight[i].packets[pid], true)
  {
    assert s.retries[0] in s.retries;
    assert FrameInv(s.inflight[i], s.retries);
  }

  lemma {:induction false} RetryOneKeepsQueue(cfg: Ctl.Config, s: Sender, now: u64)
    requires ValidSender(cfg, s) && QueueInv(s) && ClockReading(now)
    ensures QueueInv(RetryOne(s, now))
    decreases |s.retries|
  {
    hide Runs.CtlInv, ValidFrame, IdsRise, ValidPacer, DataPacket, FrameInv, RetryInv;
    if s.retries != [] {
      var (fid, pid) := s.retries[0];
      var popped := s.(retries := s.retries[1..]);
      var i := Find(s.inflight, fid);
      if i.None? {
        PopKeepsQueueGone(s);
        RetryOneKeepsQueue(cfg, popped, now);
      } else {
        FrontInRange(s, i.value);
        var f := s.inflight[i.value];
        var p := f.packets[pid].(retryQueued := false);
        UpdateKeeps(s.inflight, s.nextId, s.pacer, i.value, WithPacket(f, pid, p));
        if p.acked {
          PopKeepsQueue(s, i.value, p);
          RetryOneKeepsQueue(cfg, popped.(inflight := s.inflight[i.value := WithPacket(f, pid, p)]), now);
        } else {
          PopKeepsQueue(s, i.value, p.(attempt := (p.attempt + 1) % TWO16, sentAt := now));
        }
      }
    }
  }

  // ----- Every step keeps the queue invariant -----

  lemma {:induction false} ResolveKeepsQueue(cfg: Ctl.Config, s: Sender, now: u64, wall: nat -> u64)
    requires ValidSender(cfg, s) && QueueInv(s)
    ensures var s' := Resolve(cfg, s, now, wall);
      QueueInv(s') && s'.wire == s.wire && s'.pacer == s.pacer && s'.nextId == s.nextId && s'.session == s.session
    ensures exists k: nat :: k <= |s.inflight| && Resolve(cfg, s, now, wall).inflight == s.inflight[k..]
    decreases |s.inflight|
  {
    hide ValidSender, SettleFirst, Settled, FrameInv, PendingRetries;
    if s.inflight != [] && Settled(s.inflight[0], s.fb, now) {
      var s1 := SettleFirst(cfg, s, now, wall);
      ResolveKeepsQueue(cfg, s1, now, wall);
      var k: nat :| k <= |s1.inflight| && Resolve(cfg, s1, now, wall).inflight == s1.inflight[k..];
      assert s1.inflight[k..] == s.inflight[k + 1..];
    } else {
      assert s.inflight == s.inflight[0..];
    }
  }

  lemma StartKeepsQueue(cfg: Ctl.Config, s: Sender, started: u64, firstSent: u64)
    requires ValidSender(cfg, s) && QueueInv(s)
    ensures QueueInv(StartFrame(s, started, firstSent))
  {
    hide Runs.CtlInv, ValidPacer, ProbeGap, ValidFrame;
    if s.pacer.PacerIdle? && s.queue != [] && s.nextId < UINT32_MAX {
      assert FrameInv(NewSentFrame(s.nextId, s.queue[0], started, firstSent, s.pacing), s.retries);
    }
  }

  lemma PaceKeepsQueue(cfg: Ctl.Config, s: Sender, now: u64, running: bool)
    requires ValidSender(cfg, s) && QueueInv(s) && ClockReading(now)
    ensures QueueInv(PacerStep(s, now, running))
  {
    hide Runs.CtlInv, IdsRise, ValidFrame, DataPacket, ParityDatagram, ProbeHeader, XorBytes, Find, RetryInv;
    match s.pacer
    case NextData(fid, count, pid, parity) =>
      var i := Find(s.inflight, fid);
      if pid < count && running && i.Some? {
        var f := s.inflight[i.value];
        SentKeepsFrame(s, i.value, pid, now);
        UpdateKeepsQueue(s, i.value, WithPacket(f, pid, f.packets[pid].(sentAt := now)));
      }
    case AllSent(fid) =>
      var i := Find(s.inflight, fid);
      if i.Some? {
        MarkKeepsFrame(s, i.value, true, s.inflight[i.value].probesSentAt);
        UpdateKeepsQueue(s, i.value, s.inflight[i.value].(allSent := true));
      }
    case ProbesDone(fid) =>
      var i := Find(s.inflight, fid);
      if i.Some? {
        MarkKeepsFrame(s, i.value, s.inflight[i.value].allSent, now);
        UpdateKeepsQueue(s, i.value, s.inflight[i.value].(probesSentAt := now));
      }
    case _ =>
  }

  lemma SentKeepsFrame(s: Sender, i: nat, pid: nat, now: u64)
    requires QueueInv(s) && i < |s.inflight| && pid < |s.inflight[i].packets| && now != 0
    ensures FrameInv(WithPacket(s.inflight[i], pid, s.inflight[i].packets[pid].(sentAt := now)), s.retries)
  {
    assert FrameInv(s.inflight[i], s.retries);
  }

  lemma MarkKeepsFrame(s: Sender, i: nat, allSent: bool, probesSentAt: u64)
    requires QueueInv(s) && i < |s.inflight|
    ensures FrameInv(s.inflight[i].(allSent := allSent, probesSentAt := probesSentAt), s.retries)
  {
    assert FrameInv(s.inflight[i], s.retries);
  }

  /** The capture thread and the keyboard leave the queue, the frames in flight and the pacer alone. */
  ghost predicate SamePackets(s: Sender, s': Sender) {
    && s'.retries == s.retries && s'.inflight == s.inflight && s'.nextId == s.nextId && s'.pacer == s.pacer
    && s'.session == s.session
  }

  lemma OtherStepsKeepPackets(cfg: Ctl.Config, s: Sender, step: Step)
    requires ValidSender(cfg, s)
    requires !step.Start? && !step.Pace? && !step.Retry? && !step.Listen?
    ensures var s' := Next(cfg, s, step);
      && SamePackets(s, s')
      && s'.wire == (if step.Announce? && s.pacer.PacerIdle?
                     then s.wire + [StreamInfoPacket(s.session, step.width, step.height)] else s.wire)
  {
    hide ValidFrame, IdsRise, ValidPacer, Runs.CtlInv, StreamInfoPacket, Ctl.OnFrameLoss, Ctl.ForceDrain, CaptureFrame,
      PushFrame;
    match step
    case Capture(capturedAt) => CaptureKeepsPackets(cfg, s, capturedAt);
    case Encoded(bytes, keyframe) => EncodedKeepsPackets(s, bytes, keyframe);
    case _ =>
  }

  lemma CaptureKeepsPackets(cfg: Ctl.Config, s: Sender, capturedAt: u64)
    requires ValidSender(cfg, s)
    ensures var s' := CaptureFrame(cfg, s, capturedAt); SamePackets(s, s') && s'.wire == s.wire
  {
    hide ValidFrame, IdsRise, ValidPacer, Runs.CtlInv, Ctl.TakeEncodingBitrate, Backlogged;
  }

  lemma EncodedKeepsPackets(s: Sender, bytes: seq<byte>, keyframe: bool)
    ensures var s' := PushFrame(s, bytes, keyframe); SamePackets(s, s') && s'.wire == s.wire
  {
  }

  // ----- Transmissions -----

  predicate IsTransmission(d: Datagram, fid: u32, pid: nat) {
    d.h.flags & (PROBE | FEC | STREAM_INFO) == 0 && d.h.frameId == fid && d.h.packetId == pid
  }

  /** The attempt numbers of a data packet's transmissions, in order. */
  function Transmissions(wire: seq<Datagram>, fid: u32, pid: nat): seq<nat> {
    if wire == [] then []
    else
      var d := wire[|wire| - 1];
      Transmissions(wire[..|wire| - 1], fid, pid) + if IsTransmission(d, fid, pid) then [d.h.retransSeq] else []
  }

  lemma TransmissionsAppend(wire: seq<Datagram>, d: Datagram, fid: u32, pid: nat)
    ensures Transmissions(wire + [d], fid, pid)
         == if IsTransmission(d, fid, pid) then Transmissions(wire, fid, pid) + [d.h.retransSeq]
            else Transmissions(wire, fid, pid)
  {
    assert (wire + [d])[..|wire|] == wire;
  }

  /** Numbered from 0, one after the other, and at most nine. */
  ghost predicate InOrder(ts: seq<nat>) {
    |ts| <= 9 && forall k :: 0 <= k < |ts| ==> ts[k] == k
  }

  function Tries(p: SentPacket): nat { if p.sentAt == 0 then 0 else p.attempt + 1 }

  /** The pacer has not yet sent the packets ahead of it. */
  ghost predicate PacerAhead(pacer: Pacer, inflight: seq<SentFrame>) {
    match pacer
    case NextData(fid, count, pid, parity) => UnsentFrom(inflight, fid, pid)
    case NextParity(fid, count, pid, parity) => UnsentFrom(inflight, fid, pid + 1)
    case SendProbe(fid, i, h) => h.flags == PROBE
    case _ => true
  }

  ghost predicate UnsentFrom(inflight: seq<SentFrame>, fid: u32, pid: nat) {
    forall i, q :: 0 <= i < |inflight| && inflight[i].id == fid && pid <= q < |inflight[i].packets| ==>
      inflight[i].packets[q].sentAt == 0
  }

  ghost predicate Counted(wire: seq<Datagram>, f: SentFrame) {
    forall pid :: 0 <= pid < |f.packets| ==> |Transmissions(wire, f.id, pid)| == Tries(f.packets[pid])
  }

  ghost predicate WireInv(wire: seq<Datagram>, inflight: seq<SentFrame>, nextId: nat) {
    && (forall fid: u32, pid: nat :: InOrder(Transmissions(wire, fid, pid)))
    && (forall fid: u32, pid: nat :: fid >= nextId ==> Transmissions(wire, fid, pid) == [])
    && (forall i :: 0 <= i < |inflight| ==> Counted(wire, inflight[i]))
  }

  ghost predicate SendInv(s: Sender) {
    QueueInv(s) && WireInv(s.wire, s.inflight, s.nextId) && PacerAhead(s.pacer, s.inflight)
  }

  lemma QueueOfSends(s: Sender)
    requires SendInv(s)
    ensures QueueInv(s)
  {
  }

  /** The frames as far as transmissions are concerned. */
  ghost predicate SameTries(a: seq<SentFrame>, b: seq<SentFrame>) {
    |a| == |b| && forall i :: 0 <= i < |a| ==> FrameTries(a[i], b[i])
  }

  ghost predicate FrameTries(f: SentFrame, f': SentFrame) {
    && f'.id == f.id && |f'.packets| == |f.packets|
    && forall pid :: 0 <= pid < |f.packets| ==>
         f'.packets[pid].sentAt == f.packets[pid].sentAt && f'.packets[pid].attempt == f.packets[pid].attempt
  }

  lemma SameTriesKeep(wire: seq<Datagram>, a: seq<SentFrame>, b: seq<SentFrame>, nextId: nat, pacer: Pacer)
    requires WireInv(wire, a, nextId) && PacerAhead(pacer, a) && SameTries(a, b)
    ensures WireInv(wire, b, nextId) && PacerAhead(pacer, b)
  {
    hide Transmissions, InOrder;
    forall i | 0 <= i < |b|
      ensures Counted(wire, b[i]) && FrameTries(a[i], b[i])
    {
      assert Counted(wire, a[i]);
    }
  }

  /** One more transmission of a packet in flight. */
  lemma TransmitKeeps(wire: seq<Datagram>, inflight: seq<SentFrame>, nextId: nat, i: nat, pid: nat, p: SentPacket,
                      d: Datagram)
    requires WireInv(wire, inflight, nextId) && IdsRise(inflight, nextId)
    requires i < |inflight| && pid < |inflight[i].packets|
    requires IsTransmission(d, inflight[i].id, pid) && d.h.retransSeq == Tries(inflight[i].packets[pid]) <= 8
    requires Tries(p) == Tries(inflight[i].packets[pid]) + 1
    ensures WireInv(wire + [d], inflight[i := WithPacket(inflight[i], pid, p)], nextId)
  {
    hide Transmissions, IsTransmission;
    var f := inflight[i];
    forall fid: u32, q: nat
      ensures Transmissions(wire + [d], fid, q)
           == if fid == f.id && q == pid then Transmissions(wire, fid, q) + [d.h.retransSeq]
              else Transmissions(wire, fid, q)
    {
      TransmissionsAppend(wire, d, fid, q);
      TransmissionOfOne(d, f.id, pid, fid, q);
    }
    assert Counted(wire, f);
    assert InOrder(Transmissions(wire, f.id, pid));
    var updated := inflight[i := WithPacket(f, pid, p)];
    forall k | 0 <= k < |updated|
      ensures Counted(wire + [d], updated[k])
    {
      assert Counted(wire, inflight[k]);
    }
  }

  lemma TransmissionOfOne(d: Datagram, fid: u32, pid: nat, fid': u32, pid': nat)
    requires IsTransmission(d, fid, pid)
    ensures IsTransmission(d, fid', pid') <==> fid' == fid && pid' == pid
  {
  }

  lemma OtherDatagramKeeps(wire: seq<Datagram>, inflight: seq<SentFrame>, nextId: nat, d: Datagram)
    requires WireInv(wire, inflight, nextId) && forall fid: u32, pid: nat :: !IsTransmission(d, fid, pid)
    ensures WireInv(wire + [d], inflight, nextId)
  {
    hide Transmissions, IsTransmission, InOrder;
    forall fid: u32, pid: nat
      ensures Transmissions(wire + [d], fid, pid) == Transmissions(wire, fid, pid)
    {
      TransmissionsAppend(wire, d, fid, pid);
    }
    forall k | 0 <= k < |inflight|
      ensures Counted(wire + [d], inflight[k])
    {
      assert Counted(wire, inflight[k]);
    }
  }

  lemma DataIsTransmission(f: TxFrame, pid: nat, attempt: u16, now: u64)
    requires LegalTx(f) && pid < PacketCount(|f.bytes|)
    ensures IsTransmission(DataPacket(f, pid, attempt, now), f.id, pid)
    ensures DataPacket(f, pid, attempt, now).h.retransSeq == attempt
  {
    var flags := DataFlags(pid, PacketCount(|f.bytes|), f.keyframe);
    assert flags & (PROBE | FEC | STREAM_INFO) == 0;
  }

  lemma ProbeIsNot(h: PktHeader, now: u64)
    requires h.flags == PROBE
    ensures forall fid: u32, pid: nat :: !IsTransmission(Datagram(h.(sendTime := now), []), fid, pid)
  {
    assert PROBE & (PROBE | FEC | STREAM_INFO) != 0;
  }

  lemma ParityIsNot(session: u64, f: SentFrame, pid: nat, parity: seq<byte>, now: u64)
    requires session != 0 && ValidFrame(f) && pid < |f.packets|
    ensures forall fid: u32, q: nat :: !IsTransmission(ParityDatagram(session, f, pid, parity, now), fid, q)
  {
    assert FEC & (PROBE | FEC | STREAM_INFO) != 0;
  }

  lemma StreamInfoIsNot(session: u64, width: u32, height: u32)
    ensures forall fid: u32, pid: nat :: !IsTransmission(StreamInfoPacket(session, width, height), fid, pid)
  {
    assert STREAM_INFO & (PROBE | FEC | STREAM_INFO) != 0;
  }

  // ----- Every step keeps the transmission counts -----

  /** The pacer sends a packet for the first time. */
  lemma SendKeepsSends(s: Sender, i: nat, now: u64)
    requires SendInv(s) && IdsRise(s.inflight, s.nextId) && s.session != 0 && now != 0
    requires s.pacer.NextData? && s.pacer.pid < s.pacer.count && |s.pacer.parity| == LOAD_SZ
    requires i < |s.inflight| && s.inflight[i].id == s.pacer.fid && ValidFrame(s.inflight[i])
    requires |s.inflight[i].packets| == s.pacer.count
    ensures var s' := SendDataStep(s, s.pacer.fid, s.pacer.count, s.pacer.pid, s.pacer.parity, i, now);
      && WireInv(s'.wire, s'.inflight, s'.nextId) && PacerAhead(s'.pacer, s'.inflight)
  {
    hide WireInv, RetryInv, XorBytes, DataPacket;
    var f, pid := s.inflight[i], s.pacer.pid;
    var p := f.packets[pid];
    assert p.sentAt == 0;
    assert PacketInv(p, (f.id, pid) in s.retries) by {
      PacketOf(s, i, pid);
    }
    DataIsTransmission(Tx(s.session, f), pid, 0, now);
    TransmitKeeps(s.wire, s.inflight, s.nextId, i, pid, p.(sentAt := now), DataPacket(Tx(s.session, f), pid, 0, now));
  }

  lemma PacketOf(s: Sender, i: nat, pid: nat)
    requires QueueInv(s) && i < |s.inflight| && pid < |s.inflight[i].packets|
    ensures PacketInv(s.inflight[i].packets[pid], (s.inflight[i].id, pid) in s.retries)
  {
    assert FrameInv(s.inflight[i], s.retries);
  }

  lemma PaceKeepsSends(s: Sender, now: u64, running: bool)
    requires s.session != 0 && ValidPacer(s.pacer, s.inflight) && IdsRise(s.inflight, s.nextId)
    requires forall i :: 0 <= i < |s.inflight| ==> ValidFrame(s.inflight[i])
    requires SendInv(s) && ClockReading(now)
    ensures var s' := PacerStep(s, now, running);
      WireInv(s'.wire, s'.inflight, s'.nextId) && PacerAhead(s'.pacer, s'.inflight)
  {
    hide ValidFrame, WireInv, QueueInv, ParityDatagram, ProbeHeader, Find, SendDataStep, IdsRise, SameTries,
      UnsentFrom;
    match s.pacer
    case NextData(fid, count, pid, parity) =>
      var i := Find(s.inflight, fid);
      if pid < count && running && i.Some? {
        SendKeepsSends(s, i.value, now);
      }
    case NextParity(fid, count, pid, parity) =>
      var i := Find(s.inflight, fid);
      if i.Some? {
        assert ValidFrame(s.inflight[i.value]);
        ParityIsNot(s.session, s.inflight[i.value], pid, parity, now);
        OtherDatagramKeeps(s.wire, s.inflight, s.nextId,
                           ParityDatagram(s.session, s.inflight[i.value], pid, parity, now));
      }
    case SendProbe(fid, k, h) =>
      ProbeIsNot(h, now);
      OtherDatagramKeeps(s.wire, s.inflight, s.nextId, Datagram(h.(sendTime := now), []));
    case NextProbe(fid, k) =>
      ProbeHeaderFlags(s);
    case _ => MarkKeepsSends(s, now, running);
  }

  lemma ProbeHeaderFlags(s: Sender)
    requires s.session != 0 && forall i :: 0 <= i < |s.inflight| ==> ValidFrame(s.inflight[i])
    ensures forall i, k :: 0 <= i < |s.inflight| && 0 <= k < N_PROBE ==>
              ValidFrame(s.inflight[i]) && ProbeHeader(Tx(s.session, s.inflight[i]), k, 0).flags == PROBE
  {
    hide PacketCount;
    forall i, k | 0 <= i < |s.inflight| && 0 <= k < N_PROBE
      ensures ValidFrame(s.inflight[i]) && ProbeHeader(Tx(s.session, s.inflight[i]), k, 0).flags == PROBE
    {
      assert ValidFrame(s.inflight[i]);
    }
  }

  /** The pacer's marks on its frame. */
  lemma MarkKeepsSends(s: Sender, now: u64, running: bool)
    requires SendInv(s) && s.session != 0 && ValidPacer(s.pacer, s.inflight)
    requires forall i :: 0 <= i < |s.inflight| ==> ValidFrame(s.inflight[i])
    requires s.pacer.PacerIdle? || s.pacer.AllSent? || s.pacer.ProbesDone?
    ensures var s' := PacerStep(s, now, running);
      WireInv(s'.wire, s'.inflight, s'.nextId) && PacerAhead(s'.pacer, s'.inflight)
  {
    hide WireInv, QueueInv, ValidFrame, Find;
    var s' := PacerStep(s, now, running);
    assert SameTries(s.inflight, s'.inflight);
    hide SameTries;
    SameTriesKeep(s.wire, s.inflight, s'.inflight, s.nextId, PacerIdle);
  }

  /** retry_one sends at most one packet, with the next attempt number. */
  lemma {:induction false} RetryKeepsSends(s: Sender, now: u64)
    requires s.session != 0 && ValidPacer(s.pacer, s.inflight) && IdsRise(s.inflight, s.nextId)
    requires forall i :: 0 <= i < |s.inflight| ==> ValidFrame(s.inflight[i])
    requires SendInv(s) && ClockReading(now) && MayRetry(s)
    ensures var s' := RetryOne(s, now);
      WireInv(s'.wire, s'.inflight, s'.nextId) && PacerAhead(s'.pacer, s'.inflight)
    decreases |s.retries|
  {
    hide ValidFrame, IdsRise, ValidPacer, DataPacket, FrameInv, RetryInv, WireInv, PacerAhead, SameTries, PacketInv;
    if s.retries != [] {
      var (fid, pid) := s.retries[0];
      var popped := s.(retries := s.retries[1..]);
      var i := Find(s.inflight, fid);
      if i.None? {
        PopKeepsQueueGone(s);
        RetryKeepsSends(popped, now);
      } else {
        FrontInRange(s, i.value);
        var f := s.inflight[i.value];
        var p := f.packets[pid].(retryQueued := false);
        var cleared := s.inflight[i.value := WithPacket(f, pid, p)];
        UpdateKeeps(s.inflight, s.nextId, s.pacer, i.value, WithPacket(f, pid, p));
        if p.acked {
          assert PacketInv(p, false) by {
            ClearedFits(f.packets[pid]);
          }
          PopKeepsQueue(s, i.value, p);
          ClearedSameTries(s.inflight, i.value, pid);
          SameTriesKeep(s.wire, s.inflight, cleared, s.nextId, s.pacer);
          RetryKeepsSends(popped.(inflight := cleared), now);
        } else {
          RetransmitKeeps(s, i.value, now);
        }
      }
    }
  }

  lemma ClearedFits(p: SentPacket)
    requires PacketInv(p, true) && p.acked
    ensures PacketInv(p.(retryQueued := false), false)
  {
  }

  lemma ClearedSameTries(inflight: seq<SentFrame>, i: nat, pid: nat)
    requires i < |inflight| && pid < |inflight[i].packets|
    ensures var p := inflight[i].packets[pid].(retryQueued := false);
      SameTries(inflight, inflight[i := WithPacket(inflight[i], pid, p)])
  {
  }

  /** The retransmission of the packet at the front of the queue. */
  lemma RetransmitKeeps(s: Sender, i: nat, now: u64)
    requires SendInv(s) && IdsRise(s.inflight, s.nextId) && s.session != 0 && now != 0 && MayRetry(s)
    requires s.retries != [] && i < |s.inflight| && s.inflight[i].id == s.retries[0].0 && ValidFrame(s.inflight[i])
    requires s.retries[0].1 < |s.inflight[i].packets|
    requires var p := s.inflight[i].packets[s.retries[0].1]; PacketInv(p, true) && !p.acked
    ensures var f, pid := s.inflight[i], s.retries[0].1;
      var p := f.packets[pid];
      var sent := p.(retryQueued := false, attempt := (p.attempt + 1) % TWO16, sentAt := now);
      var inflight := s.inflight[i := WithPacket(f, pid, sent)];
      && WireInv(s.wire + [DataPacket(Tx(s.session, f), pid, sent.attempt, now)], inflight, s.nextId)
      && PacerAhead(s.pacer, inflight)
  {
    hide WireInv, QueueInv, DataPacket;
    var f, pid := s.inflight[i], s.retries[0].1;
    var p := f.packets[pid];
    var sent := p.(retryQueued := false, attempt := (p.attempt + 1) % TWO16, sentAt := now);
    assert Tries(sent) == Tries(p) + 1 == sent.attempt + 1;
    DataIsTransmission(Tx(s.session, f), pid, sent.attempt, now);
    TransmitKeeps(s.wire, s.inflight, s.nextId, i, pid, sent, DataPacket(Tx(s.session, f), pid, sent.attempt, now));
  }

  lemma StartKeepsSends(cfg: Ctl.Config, s: Sender, started: u64, firstSent: u64)
    requires ValidSender(cfg, s) && SendInv(s)
    ensures SendInv(StartFrame(s, started, firstSent))
  {
    StartKeepsQueue(cfg, s, started, firstSent);
    hide Runs.CtlInv, ValidPacer, ProbeGap, ValidFrame, QueueInv, Transmissions, InOrder;
    if s.pacer.PacerIdle? && s.queue != [] && s.nextId < UINT32_MAX {
      assert Counted(s.wire, NewSentFrame(s.nextId, s.queue[0], started, firstSent, s.pacing));
      assert forall i :: 0 <= i < |s.inflight| ==> Counted(s.wire, s.inflight[i]);
    }
  }

  lemma AcknowledgeTries(f: SentFrame, a: RecvAck)
    ensures FrameTries(f, Acknowledge(f, a))
  {
    hide Acknowledge;
    AcknowledgeKeepsShape(f, a);
    forall pid: nat | pid < |f.packets|
      ensures var p, p' := f.packets[pid], Acknowledge(f, a).packets[pid];
        p'.sentAt == p.sentAt && p'.attempt == p.attempt
    {
      AcknowledgePacket(f, a, pid);
    }
  }

  lemma HandleInputTries(s: Sender, input: Input, now: u64)
    ensures var s' := HandleInput(s, input, now);
      SameTries(s.inflight, s'.inflight) && s'.wire == s.wire && s'.pacer == s.pacer && s'.nextId == s.nextId
  {
    hide Acknowledge, ObserveTimes, ObserveWire, UsableAck, Find;
    match input
    case NoDatagram =>
    case KeyRequest(fid, served) =>
    case Ack(a) =>
      var i := Find(s.inflight, a.frameId);
      if i.Some? {
        AcknowledgeTries(s.inflight[i.value], a);
      }
  }

  lemma ListenKeepsSends(cfg: Ctl.Config, s: Sender, input: Input, now: u64, wall: nat -> u64)
    requires ValidSender(cfg, s) && SendInv(s) && ValidStep(s, Listen(input, now, wall))
    ensures SendInv(Next(cfg, s, Listen(input, now, wall)))
  {
    hide ValidSender, HandleInput, RetryInv, WireInv, PacerAhead, SameTries, QueueRetries, CheckAge, Resolve;
    var s1 := HandleInput(s, input, now);
    HandleInputKeepsValid(cfg, s, input, now);
    HandleInputKeepsQueue(s, input, now);
    HandleInputTries(s, input, now);
    SameTriesKeep(s.wire, s.inflight, s1.inflight, s.nextId, s.pacer);
    QueueRetriesKeepsValid(cfg, s1, now);
    QueueRetriesKeepsQueue(cfg, s1, now);
    MarkSameTries(s1, now);
    var s2 := QueueRetries(s1, now);
    SameTriesKeep(s1.wire, s1.inflight, s2.inflight, s1.nextId, s1.pacer);
    CheckAgeKeepsValid(cfg, s2, now);
    var s3 := CheckAge(cfg, s2, now);
    ResolveKeepsQueue(cfg, s3, now, wall);
    var k: nat :| k <= |s3.inflight| && Resolve(cfg, s3, now, wall).inflight == s3.inflight[k..];
    DropKeeps(s3.wire, s3.inflight, s3.nextId, s3.pacer, k);
  }

  lemma MarkSameTries(s: Sender, now: u64)
    ensures var s' := QueueRetries(s, now);
      SameTries(s.inflight, s'.inflight) && s'.wire == s.wire && s'.pacer == s.pacer && s'.nextId == s.nextId
  {
    hide DueIn, AllDue, RetransmissionLost;
  }

  lemma DropKeeps(wire: seq<Datagram>, inflight: seq<SentFrame>, nextId: nat, pacer: Pacer, k: nat)
    requires WireInv(wire, inflight, nextId) && PacerAhead(pacer, inflight) && k <= |inflight|
    ensures WireInv(wire, inflight[k..], nextId) && PacerAhead(pacer, inflight[k..])
  {
    hide Transmissions, InOrder, Counted;
  }

  lemma NextKeepsSends(cfg: Ctl.Config, s: Sender, step: Step)
    requires ValidSender(cfg, s) && ValidStep(s, step) && SendInv(s)
    ensures SendInv(Next(cfg, s, step))
  {
    match step
    case Start(started, firstSent) =>
      hide ValidSender, StartFrame, SendInv;
      StartKeepsSends(cfg, s, started, firstSent);
    case Pace(now, running) =>
      hide PacerStep, ValidPacer, IdsRise, ValidFrame, Runs.CtlInv, QueueInv, WireInv, PacerAhead;
      PaceKeepsQueue(cfg, s, now, running);
      PaceKeepsSends(s, now, running);
    case Retry(now) =>
      hide RetryOne, ValidPacer, IdsRise, ValidFrame, Runs.CtlInv, QueueInv, WireInv, PacerAhead;
      if MayRetry(s) {
        RetryOneKeepsQueue(cfg, s, now);
        RetryKeepsSends(s, now);
      }
    case Listen(input, now, wall) =>
      hide ValidSender, Next, SendInv;
      ListenKeepsSends(cfg, s, input, now, wall);
    case Announce(width, height) =>
      hide ValidSender, RetryInv, WireInv, PacerAhead, StreamInfoPacket;
      StreamInfoIsNot(s.session, width, height);
      OtherDatagramKeeps(s.wire, s.inflight, s.nextId, StreamInfoPacket(s.session, width, height));
    case _ =>
      hide ValidSender, RetryInv, WireInv, PacerAhead, Next;
      OtherStepsKeepPackets(cfg, s, step);
  }

  lemma InitSendInv(cfg: Ctl.Config, session: u64)
    requires Ctl.ValidConfig(cfg)
    ensures SendInv(Init(cfg, session))
  {
    assert forall fid: u32, pid: nat :: Transmissions([], fid, pid) == [];
  }

  lemma {:induction false} RunKeepsSendInv(cfg: Ctl.Config, session: u64, steps: seq<Step>, states: seq<Sender>, n: nat)
    requires Ctl.ValidConfig(cfg) && IsRun(cfg, session, steps, states) && n < |states|
    ensures SendInv(states[n])
    decreases n
  {
    hide IsRun, SendInv, Next, ValidSender, ValidStep;
    RunStart(cfg, session, steps, states);
    if n == 0 {
      InitSendInv(cfg, session);
    } else {
      RunKeepsSendInv(cfg, session, steps, states, n - 1);
      RunStep(cfg, session, steps, states, n - 1);
      NextKeepsSends(cfg, states[n - 1], steps[n - 1]);
    }
  }

  /** In every state of every run, the retransmission queue holds no pair twice; an unacknowledged packet in flight is
      marked as queued exactly when it is in the queue; and no packet has been transmitted more than nine times, its
      transmissions being numbered 0, 1, 2 and so on. */
  lemma RetransmissionsAreBounded(cfg: Ctl.Config, session: u64, steps: seq<Step>, states: seq<Sender>, n: nat)
    requires Ctl.ValidConfig(cfg) && IsRun(cfg, session, steps, states) && n < |states|
    ensures var s := states[n];
      && NoDuplicates(s.retries)
      && (forall i, pid: nat ::
            0 <= i < |s.inflight| && pid < |s.inflight[i].packets| && !s.inflight[i].packets[pid].acked ==>
            (s.inflight[i].packets[pid].retryQueued <==> (s.inflight[i].id, pid) in s.retries))
      && (forall fid: u32, pid: nat :: InOrder(Transmissions(s.wire, fid, pid)))
  {
    RunKeepsSendInv(cfg, session, steps, states, n);
    var s := states[n];
    hide IsRun, Transmissions, InOrder;
    forall i, pid: nat | 0 <= i < |s.inflight| && pid < |s.inflight[i].packets| && !s.inflight[i].packets[pid].acked
      ensures s.inflight[i].packets[pid].retryQueued <==> (s.inflight[i].id, pid) in s.retries
    {
      PacketOf(s, i, pid);
    }
  }
}
