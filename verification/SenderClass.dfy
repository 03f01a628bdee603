/** The sender object, updated in place as in codes/sender.cc, against the functions of module Sender. */
module SenderClass {
  import opened Bytes
  import opened Protocol
  import opened EventLog
  import opened Reassembly
  import opened Packetizer
  import opened SlidingMin
  import Ctl = Controller
  import Runs = ControllerRuns
  import opened ControllerClass
  import Spec = Sender
  import SenderRuns

  type SentFrame = Spec.SentFrame
  type SentPacket = Spec.SentPacket
  type Pair = (u32, nat)

  // ----- Loops over one frame -----

  method CountProbes(probes: seq<Option<RecvAck>>) returns (n: nat)
    ensures n == Spec.ProbeCount(probes)
  {
    n := 0;
    for i := 0 to |probes|
      invariant n == Spec.ProbeCount(probes[..i])
    {
      assert probes[..i + 1][..i] == probes[..i];
      if probes[i].Some? {
        n := n + 1;
      }
    }
    assert probes[..|probes|] == probes;
  }

  /** The queueing delay charged to each probe; a missing probe counts as fully queued. */
  method ProbeDelays(f: SentFrame, minOwd: int) returns (probes: seq<real>)
    ensures probes == seq(|f.probes|, i requires 0 <= i < |f.probes| => Spec.ProbeDelay(f, f.probes[i], minOwd))
  {
    probes := [];
    for i := 0 to |f.probes|
      invariant |probes| == i
      invariant forall k :: 0 <= k < i ==> probes[k] == Spec.ProbeDelay(f, f.probes[k], minOwd)
    {
      match f.probes[i]
      case None => probes := probes + [f.probeGap];
      case Some(p) =>
        var queue := Ctl.MaxR(0.0, (p.recvTime as real - p.echoedSend as real - minOwd as real) / 1_000_000.0);
        var sinceLast := if p.recvTime >= f.deliveredAt then (p.recvTime - f.deliveredAt) as real / 1_000_000.0
          else 0.0;
        probes := probes + [Ctl.MinR(Ctl.MinR(queue, sinceLast), f.probeGap)];
    }
  }

  /** First-try arrivals: payload bytes, first and last arrival. */
  method MeasureFirstTries(f: SentFrame) returns (bytes: nat, first: u64, last: u64)
    ensures (bytes, first, last) == Spec.FirstTries(f, |f.packets|)
  {
    bytes, first, last := 0, Ctl.UINT64_MAX, 0;
    for i := 0 to |f.packets|
      invariant (bytes, first, last) == Spec.FirstTries(f, i)
    {
      var t := f.packets[i].firstTryRecv;
      if t != 0 {
        bytes := bytes + Spec.PayloadBytes(f, i);
        first := if t < first then t else first;
        last := if t > last then t else last;
      }
    }
  }

  method CountUnacked(f: SentFrame) returns (bytes: nat)
    ensures bytes == Spec.UnackedBytes(f, |f.packets|)
  {
    bytes := 0;
    for i := 0 to |f.packets|
      invariant bytes == Spec.UnackedBytes(f, i)
    {
      if !f.packets[i].acked {
        bytes := bytes + Spec.PayloadBytes(f, i);
      }
    }
  }

  method CountPending(packets: seq<SentPacket>) returns (n: nat)
    ensures n == Spec.PendingIn(packets)
  {
    n := 0;
    for i := 0 to |packets|
      invariant n == Spec.PendingIn(packets[..i])
    {
      assert packets[..i + 1][..i] == packets[..i];
      if !packets[i].acked && (packets[i].attempt > 0 || packets[i].retryQueued) {
        n := n + 1;
      }
    }
    assert packets[..|packets|] == packets;
  }

  /** acknowledge: note the probe or the packet; a complete frame is delivered and all its packets are acknowledged. */
  method Acknowledge(f: SentFrame, a: RecvAck) returns (r: SentFrame)
    ensures r == Spec.Acknowledge(f, a)
  {
    r := f;
    if a.flags & RECOVERED != 0 {
      r := r.(loss := true);
    }
    if a.flags & PROBE != 0 {
      if a.packetId < |r.probes| && r.probes[a.packetId].None? {
        r := r.(probes := r.probes[a.packetId := Some(a)]);
      }
    } else if a.packetId < |r.packets| {
      var p := r.packets[a.packetId];
      if a.flags & RECOVERED == 0 && a.retransSeq == 0 && p.firstTryRecv == 0 {
        p := p.(firstTryRecv := a.recvTime);
      }
      p := p.(acked := true, retryQueued := false);
      r := r.(packets := r.packets[a.packetId := p]);
    }
    if a.flags & FRAME_COMPLETE != 0 {
      if !r.delivered {
        r := r.(deliveredAt := a.frameRecvTime);
      }
      r := r.(delivered := true);
      var packets := MarkAllAcked(r.packets);
      r := r.(packets := packets);
    }
  }

  method MarkAllAcked(packets: seq<SentPacket>) returns (r: seq<SentPacket>)
    ensures r == seq(|packets|, i requires 0 <= i < |packets| => Spec.MarkAcked(packets[i]))
  {
    r := packets;
    for i := 0 to |packets|
      invariant |r| == |packets|
      invariant forall k :: 0 <= k < i ==> r[k] == Spec.MarkAcked(packets[k])
      invariant forall k :: i <= k < |packets| ==> r[k] == packets[k]
    {
      r := r[i := r[i].(acked := true, retryQueued := false)];
    }
  }

  /** The packet loop of timers over a frame: mark and queue what is due. */
  method MarkDue(f: SentFrame, now: u64, delay: nat) returns (r: SentFrame, due: seq<Pair>, lost: bool)
    requires Spec.Retriable(f)
    ensures r == Spec.Marked(f, now, delay) && due == Spec.DuePackets(f, |f.packets|, now, delay)
    ensures lost <==> LostIn(f, now, delay)
  {
    var packets, loss := f.packets, f.loss;
    due, lost := [], false;
    for pid := 0 to |f.packets|
      invariant |packets| == |f.packets|
      invariant forall k :: 0 <= k < pid ==>
                  (packets[k] == if Spec.DueIn(f, k, now, delay) then f.packets[k].(retryQueued := true)
                                 else f.packets[k])
      invariant forall k :: pid <= k < |packets| ==> packets[k] == f.packets[k]
      invariant loss <==> f.loss || exists k :: 0 <= k < pid && Spec.DueIn(f, k, now, delay)
      invariant due == Spec.DuePackets(f, pid, now, delay)
      invariant lost <==> exists k :: 0 <= k < pid && Spec.DueIn(f, k, now, delay) && f.packets[k].attempt > 0
    {
      var p := packets[pid];
      if !p.acked && !p.retryQueued && p.sentAt != 0 && now >= p.sentAt && now - p.sentAt >= delay && p.attempt < 8 {
        assert Spec.DueIn(f, pid, now, delay);
        if p.attempt > 0 {
          lost := true;
        }
        packets := packets[pid := p.(retryQueued := true)];
        loss := true;
        due := due + [(f.id, pid)];
      } else {
        assert !Spec.DueIn(f, pid, now, delay);
        assert due + [] == due;
      }
    }
    r := f.(packets := packets, loss := loss);
  }

  /** Frames that timers passes over stay as they are. */
  lemma NotRetriable(f: SentFrame, now: u64, delay: nat)
    requires !Spec.Retriable(f)
    ensures Spec.Marked(f, now, delay) == f && Spec.DuePackets(f, |f.packets|, now, delay) == []
    ensures !LostIn(f, now, delay)
  {
    assert Spec.Marked(f, now, delay).packets == f.packets;
    NothingDue(f, |f.packets|, now, delay);
  }

  lemma {:induction false} NothingDue(f: SentFrame, n: nat, now: u64, delay: nat)
    requires !Spec.Retriable(f) && n <= |f.packets|
    ensures Spec.DuePackets(f, n, now, delay) == []
  {
    if n > 0 {
      NothingDue(f, n - 1, now, delay);
    }
  }

  /** Drop receive-rate samples older than about 200 ms, keeping two. */
  method TrimWire(w: seq<(u64, u64)>, recvTime: u64) returns (r: seq<(u64, u64)>)
    ensures r == Spec.TrimWire(w, recvTime)
  {
    r := w;
    while |r| > 2 && Sub64(recvTime, r[1].0) > 200_000
      invariant Spec.TrimWire(r, recvTime) == Spec.TrimWire(w, recvTime)
      decreases |r|
    {
      r := r[1..];
    }
  }

  // ----- The object -----

  class Sender {
    const cfg: Ctl.Config
    const ctrl: Controller
    /** The fields the mutex guards, as one record; its controller state is a copy of ctrl's. */
    var s: Spec.Sender

    ghost predicate Valid()
      reads this, ctrl
    {
      ctrl.Valid() && ctrl.cfg == cfg && ctrl.c == s.ctl && Spec.ValidSender(cfg, s)
    }

    constructor (cfg: Ctl.Config, session: u64)
      requires Ctl.ValidConfig(cfg) && session != 0
      ensures Valid() && s == Spec.Init(cfg, session) && this.cfg == cfg && fresh(ctrl)
    {
      this.cfg := cfg;
      var controller := new Controller(cfg);
      ctrl := controller;
      s := Spec.Init(cfg, session);
      new;
      SenderRuns.InitValid(cfg, session);
    }

    method Outstanding() returns (count: nat, bytes: nat)
      ensures (count, bytes) == Spec.Outstanding(s.inflight)
    {
      count, bytes := 0, 0;
      for i := 0 to |s.inflight|
        invariant (count, bytes) == Spec.Outstanding(s.inflight[..i])
      {
        assert s.inflight[..i + 1][..i] == s.inflight[..i];
        if !s.inflight[i].delivered {
          var unacked := CountUnacked(s.inflight[i]);
          count, bytes := count + 1, bytes + unacked;
        }
      }
      assert s.inflight[..|s.inflight|] == s.inflight;
    }

    method PendingRetries() returns (n: nat)
      ensures n == Spec.PendingRetries(s.inflight)
    {
      n := 0;
      for i := 0 to |s.inflight|
        invariant n == Spec.PendingRetries(s.inflight[..i])
      {
        assert s.inflight[..i + 1][..i] == s.inflight[..i];
        var pending := CountPending(s.inflight[i].packets);
        n := n + pending;
      }
      assert s.inflight[..|s.inflight|] == s.inflight;
    }

    /** The sample for a delivered frame. */
    method MakeAck(f: SentFrame, minOwd: int, now: u64, wall: u64) returns (fa: Ctl.FrameAck)
      requires LegalFrame(f.bytes)
      ensures fa == Spec.MakeAck(s, f, minOwd, now, wall)
    {
      hide Spec.FirstTries, Spec.Outstanding, FrameUdpBytes, Spec.ProbeDelay;
      var probes := ProbeDelays(f, minOwd);
      var count, bytes := Outstanding();
      UdpPositive(|f.bytes|);
      var size, udp := |f.bytes| as real, FrameUdpBytes(|f.bytes|) as real;
      var acked, first, last := MeasureFirstTries(f);
      var mbps := size * 8.0 / INTERVAL as real;
      var baseRtt := match s.fb.minRtt case None => 0.0 case Some(rtt) => rtt as real / 1_000_000.0;
      fa := Ctl.FrameAck(
        f.id, (f.deliveredAt as int - f.firstSent as int) as real / 1_000_000.0, minOwd as real / 1_000_000.0,
        probes, s.fb.ackRate * size / udp, bytes as real, now, mbps, f.loss, mbps,
        acked as real, if last == 0 then 0 else first, last, f.epoch, wall, baseRtt);
      assert fa.probes == Spec.MakeAck(s, f, minOwd, now, wall).probes;
    }

    method StoreOutput(out: Ctl.Output)
      modifies this
      ensures s == Spec.Store(old(s), out)
    {
      if out.valid {
        s := s.(bitrate := out.bitrate, pacing := out.pacing);
      }
    }

    /** Sample the oldest frame, or write it off. */
    method Settle(f: SentFrame, now: u64, wall: u64)
      requires Valid() && Spec.ValidFrame(f)
      modifies this, ctrl
      ensures Valid() && s == Spec.Settle(cfg, old(s), f, now, wall)
    {
      hide Spec.MakeAck, Ctl.OnFrameAcked, Ctl.OnFrameLoss, Spec.ValidFrame, Runs.CtlInv;
      Spec.SettleKeepsValid(cfg, s, f, now, wall);
      if f.delivered && s.fb.minOwd.Some? {
        Spec.MakeAckValid(s, f, s.fb.minOwd.value, now, wall);
        LegalBytes(f);
        var fa := MakeAck(f, s.fb.minOwd.value, now, wall);
        var out, logged := ctrl.OnFrameAcked(fa);
        s := s.(ctl := ctrl.c, log := s.log + logged);
        StoreOutput(out);
      } else if !f.delivered {
        s := s.(log := s.log + [FrameLoss(f.id)]);
        var gap := if s.fb.srtt.Floor > 2 * INTERVAL then s.fb.srtt.Floor else 2 * INTERVAL;
        var logged := ctrl.OnFrameLoss(now, Spec.U64(gap));
        s := s.(ctl := ctrl.c, log := s.log + logged);
        s := s.(bitrate := ctrl.GetFinalBitrate(), pacing := ctrl.c.pacing);
      }
    }

    /** resolve: settle frames in order. */
    method Resolve(now: u64, wall: nat -> u64)
      requires Valid()
      modifies this, ctrl
      ensures Valid() && s == Spec.Resolve(cfg, old(s), now, wall)
    {
      hide Spec.ValidSender, Spec.Settle, Spec.SettleFirst, Spec.ValidFrame;
      while s.inflight != []
        invariant Valid() && Spec.Resolve(cfg, s, now, wall) == Spec.Resolve(cfg, old(s), now, wall)
        decreases |s.inflight|
      {
        var f := s.inflight[0];
        var expired := now >= f.createdAt && now - f.createdAt > FRAME_TIMEOUT;
        var received := CountProbes(f.probes);
        var probesReady := received == N_PROBE
          || (f.probesSentAt != 0 && now >= f.probesSentAt && now - f.probesSentAt > s.fb.retryDelay);
        if !expired && !(f.delivered && probesReady) {
          break;
        }
        FrontValid(cfg, s);
        SettleFirstIs(cfg, s, now, wall);
        Settle(f, now, wall(f.id));
        s := s.(log := s.log + [ProbeSummary(f.id, N_PROBE, received)], inflight := s.inflight[1..]);
      }
      UpdateLimit();
    }

    /** The reactive rate limit. */
    method UpdateLimit()
      requires Valid()
      modifies this
      ensures Valid() && s == Spec.Limits(old(s))
    {
      LimitsValid(cfg, s);
      hide Spec.ValidSender;
      var pending := PendingRetries();
      if s.retransLossSeen && pending >= 4 {
        s := s.(limiting := true);
      }
      if pending < 2 && s.retries == [] {
        s := s.(limiting := false);
      }
    }

    /** The frame loop of timers. */
    method QueueRetries(now: u64)
      requires Valid()
      modifies this, ctrl
      ensures Valid() && s == Spec.QueueRetries(old(s), now)
    {
      hide Spec.Marked, Spec.DuePackets, Spec.ValidSender, Runs.CtlInv, QueuedUpTo, Spec.QueueRetries, Spec.DueIn;
      Spec.QueueRetriesKeepsValid(cfg, s, now);
      ghost var was := s;
      QueuedNone(was, now);
      var n := |s.inflight|;
      for i := 0 to n
        invariant ctrl.c == was.ctl && ctrl.cfg == cfg && ctrl.Valid()
        invariant s == QueuedUpTo(was, i, now)
      {
        QueuedNext(was, i, now);
        var f := s.inflight[i];
        if f.delivered || !f.allSent {
          NotRetriable(f, now, s.fb.retryDelay);
          assert s.inflight[i := f] == s.inflight && s.retries + [] == s.retries;
        } else {
          var marked, due, lost := MarkDue(f, now, s.fb.retryDelay);
          if lost && !s.retransLossSeen {
            var logged := ctrl.OnRetransLossDetected();
            s := s.(retransLossSeen := true, log := s.log + logged);
          }
          s := s.(inflight := s.inflight[i := marked], retries := s.retries + due);
        }
      }
      QueuedAll(was, now);
    }

    method Timers(now: u64, wall: nat -> u64)
      requires Valid()
      modifies this, ctrl
      ensures Valid() && s == Spec.Timers(cfg, old(s), now, wall)
    {
      hide Spec.ValidSender, Spec.QueueRetries, Spec.Resolve;
      QueueRetries(now);
      Spec.CheckAgeKeepsValid(cfg, s, now);
      var oldest := FindUndelivered(s.inflight);
      if oldest.Some? {
        var out, logged := ctrl.OnInflightAge(Sub64(now, oldest.value.createdAt), Spec.BaseRtt(s.fb));
        s := s.(ctl := ctrl.c, log := s.log + logged);
        StoreOutput(out);
      }
      Resolve(now, wall);
    }

    /** The listener's handling of an ACK of this session. */
    method OnAck(a: RecvAck, now: u64)
      requires Valid() && AckAccepted(a) && a.session == s.session && a.flags != KEY_REQUEST
      modifies this
      ensures Valid() && s == Spec.HandleAck(old(s), a, now)
    {
      hide Spec.ValidSender, Spec.Acknowledge, Push, Spec.TrimWire, AckAccepted;
      Spec.HandleInputKeepsValid(cfg, s, Spec.Ack(a), now);
      ghost var was := s;
      var i := Spec.Find(s.inflight, a.frameId);
      if i.None? {
        return;
      }
      var f := s.inflight[i.value];
      var valid := if a.flags & PROBE != 0 then a.packetId < N_PROBE else a.packetId < |f.packets|;
      if !valid || a.echoedSend > now {
        return;
      }
      if a.echoedSend != 0 && a.flags & RECOVERED == 0 {
        var fb := ObserveTimes(s.fb, a, now);
        s := s.(fb := fb);
      }
      var fb := ObserveWire(s.fb, a);
      s := s.(fb := fb);
      var f' := Acknowledge(f, a);
      s := s.(inflight := s.inflight[i.value := f']);
      if !f.delivered && f'.delivered {
        s := s.(log := s.log + [FrameDelivered(f.id, f'.loss)]);
      }
    }

    /** retry_one. */
    method RetryOne(now: u64)
      requires Valid() && ClockReading(now)
      modifies this
      ensures Valid() && s == Spec.RetryOne(old(s), now)
    {
      SenderRuns.RetryKeepsValid(cfg, s, now);
      FramesValid(cfg, s);
      ghost var events := SenderRuns.RetryLogs(s, now);
      hide Spec.ValidSender, Spec.ValidFrame, Spec.RetryOne;
      s := RetryLoop(s, now);
    }

    method QueuedWire() returns (queued: nat)
      ensures queued == Spec.QueuedWire(s.queue)
    {
      queued := 0;
      for i := 0 to |s.queue|
        invariant queued == Spec.QueuedWire(s.queue[..i])
      {
        assert s.queue[..i + 1][..i] == s.queue[..i];
        var packets := PacketCount(U32(|s.queue[i].bytes|));
        queued := queued + (packets + ParityCount(packets)) * (MAX_BUF + 28) + N_PROBE * (HEADER_SIZE + 28);
      }
      assert s.queue[..|s.queue|] == s.queue;
    }

    method Unsent() returns (unsent: nat)
      ensures unsent == Spec.Unsent(s.inflight)
    {
      unsent := 0;
      for i := 0 to |s.inflight|
        invariant unsent == Spec.Unsent(s.inflight[..i])
      {
        assert s.inflight[..i + 1][..i] == s.inflight[..i];
        var more := CountUnsent(s.inflight[i].packets);
        unsent := unsent + more;
      }
      assert s.inflight[..|s.inflight|] == s.inflight;
    }

    /** The test for skipping a capture: what waits to be sent, and how long that takes. */
    method Backlogged() returns (skip: bool)
      requires Ctl.ValidConfig(cfg) && s.bitrate > 0.0
      ensures skip == Spec.Backlogged(cfg, s)
    {
      hide Spec.QueuedWire, Spec.Unsent;
      var queued := QueuedWire();
      var unsent := Unsent();
      queued := queued + unsent * ((MAX_BUF + 28) * 5 / 4);
      var rate := if s.limiting then Ctl.MaxR(s.fb.ackRate, cfg.bMin) else s.bitrate;
      assert rate > 0.0;
      skip := queued as real * 8.0 / (rate * 1_000_000.0) > 2.0 * INTERVAL as real / 1_000_000.0 || |s.queue| >= 3;
    }

    /** stop: log what became of the frames in flight, and forget everything. */
    method Stop()
      modifies this
      ensures s == Spec.Stop(old(s))
    {
      var inflight, logged := s.inflight, [];
      for i := 0 to |inflight|
        invariant s == old(s) && logged == Spec.StopEvents(inflight[..i])
      {
        var f := inflight[i];
        assert inflight[..i + 1][..i] == inflight[..i];
        var received := CountProbes(f.probes);
        if !f.delivered {
          logged := logged + [FrameLoss(f.id)];
        } else {
          assert logged + [] == logged;
        }
        logged := logged + [ProbeSummary(f.id, N_PROBE, received)];
      }
      assert inflight[..|inflight|] == inflight;
      s := s.(running := false, log := s.log + logged, inflight := [], queue := [], retries := []);
    }
  }

  /** find_if: the first frame not yet delivered. */
  method FindUndelivered(inflight: seq<SentFrame>) returns (r: Option<SentFrame>)
    ensures r == Spec.OldestUndelivered(inflight)
  {
    for i := 0 to |inflight|
      invariant Spec.OldestUndelivered(inflight[i..]) == Spec.OldestUndelivered(inflight)
    {
      if !inflight[i].delivered {
        return Some(inflight[i]);
      }
      assert inflight[i..][1..] == inflight[i + 1..];
    }
    return None;
  }

  method CountUnsent(packets: seq<SentPacket>) returns (n: nat)
    ensures n == Spec.UnsentIn(packets)
  {
    n := 0;
    for i := 0 to |packets|
      invariant n == Spec.UnsentIn(packets[..i])
    {
      assert packets[..i + 1][..i] == packets[..i];
      if packets[i].sentAt == 0 {
        n := n + 1;
      }
    }
    assert packets[..|packets|] == packets;
  }

  /** RTT smoothing, the retransmission timeout and the two sliding minima. */
  method ObserveTimes(fb: Spec.Feedback, a: RecvAck, now: u64) returns (r: Spec.Feedback)
    requires a.echoedSend <= now
    ensures r == Spec.ObserveTimes(fb, a, now)
  {
    hide Push;
    r := fb;
    var rtt := (now - a.echoedSend) as real;
    if r.srtt == 0.0 {
      r := r.(srtt := rtt, rttvar := rtt / 2.0);
    } else {
      r := r.(rttvar := 0.75 * r.rttvar + 0.25 * Spec.Abs(r.srtt - rtt));
      r := r.(srtt := 0.875 * r.srtt + 0.125 * rtt);
    }
    var timeout := (r.srtt + 4.0 * r.rttvar).Floor;
    r := r.(retryDelay := if timeout > 20_000 then timeout else 20_000);
    var rtts, minRtt := Observe(r.rttSamples, now, now - a.echoedSend);
    r := r.(rttSamples := rtts, minRtt := Some(minRtt));
    var owds, minOwd := Observe(r.owdSamples, now, a.recvTime - a.echoedSend);
    r := r.(owdSamples := owds, minOwd := Some(minOwd));
  }

  method ObserveWire(fb: Spec.Feedback, a: RecvAck) returns (r: Spec.Feedback)
    ensures r == Spec.ObserveWire(fb, a)
  {
    hide Spec.TrimWire;
    r := fb;
    var w := r.wireSamples;
    if w == [] || (a.recvTime > w[|w| - 1].0 && a.wireBytes >= w[|w| - 1].1) {
      w := TrimWire(w + [(a.recvTime, a.wireBytes)], a.recvTime);
      r := r.(wireSamples := w);
      var (ts, total) := w[0];
      if a.recvTime > ts {
        r := r.(ackRate := 8.0 * Sub64(a.wireBytes, total) as real / (a.recvTime - ts) as real);
      }
    }
  }

  lemma FrontValid(cfg: Ctl.Config, s: Spec.Sender)
    requires Spec.ValidSender(cfg, s) && s.inflight != []
    ensures Spec.ValidFrame(s.inflight[0])
  {
  }

  lemma SettleFirstIs(cfg: Ctl.Config, s: Spec.Sender, now: u64, wall: nat -> u64)
    requires Spec.ValidSender(cfg, s) && s.inflight != [] && Spec.ValidFrame(s.inflight[0])
    ensures var f := s.inflight[0];
      var s1 := Spec.Settle(cfg, s, f, now, wall(f.id));
      && s1.inflight == s.inflight
      && Spec.SettleFirst(cfg, s, now, wall) == s1.(log := s1.log + [Spec.SummaryOf(f)], inflight := s.inflight[1..])
  {
    hide Spec.Settle, Spec.ValidSender, Spec.ValidFrame;
    Spec.SettleKeepsValid(cfg, s, s.inflight[0], now, wall(s.inflight[0].id));
  }

  lemma LimitsValid(cfg: Ctl.Config, s: Spec.Sender)
    requires Spec.ValidSender(cfg, s)
    ensures Spec.ValidSender(cfg, Spec.Limits(s))
  {
  }

  /** The state after timers has been through the first n frames. */
  ghost function QueuedUpTo(s: Spec.Sender, n: nat, now: u64): Spec.Sender
    requires n <= |s.inflight|
  {
    var delay := s.fb.retryDelay;
    var lost := !s.retransLossSeen && Spec.RetransmissionLost(s.inflight[..n], now, delay);
    s.(inflight := Spec.MarkAll(s.inflight[..n], now, delay) + s.inflight[n..],
       retries := s.retries + Spec.AllDue(s.inflight[..n], now, delay),
       retransLossSeen := s.retransLossSeen || lost,
       log := if lost then s.log + [RetransLoss(s.ctl.rate)] else s.log)
  }

  lemma QueuedNone(s: Spec.Sender, now: u64)
    ensures QueuedUpTo(s, 0, now) == s
  {
    assert s.retries + [] == s.retries;
    assert Spec.MarkAll(s.inflight[..0], now, s.fb.retryDelay) + s.inflight[0..] == s.inflight;
  }

  lemma QueuedAll(s: Spec.Sender, now: u64)
    ensures QueuedUpTo(s, |s.inflight|, now) == Spec.QueueRetries(s, now) && Spec.QueueRetries(s, now).ctl == s.ctl
  {
    hide Spec.RetransmissionLost, Spec.Marked;
    assert s.inflight[..|s.inflight|] == s.inflight;
    var all := Spec.MarkAll(s.inflight, now, s.fb.retryDelay);
    assert all + s.inflight[|s.inflight|..] == all;
  }

  /** A packet of the frame times out that was retransmitted before. */
  ghost predicate LostIn(f: SentFrame, now: u64, delay: nat) {
    exists j :: 0 <= j < |f.packets| && Spec.DueIn(f, j, now, delay) && f.packets[j].attempt > 0
  }

  /** One more frame. */
  lemma QueuedNext(s: Spec.Sender, i: nat, now: u64)
    requires i < |s.inflight|
    ensures var f, was, delay := s.inflight[i], QueuedUpTo(s, i, now), s.fb.retryDelay;
      && was.inflight[i] == f && |was.inflight| == |s.inflight| && was.fb == s.fb && was.ctl == s.ctl
      && QueuedUpTo(s, i + 1, now) ==
           was.(inflight := was.inflight[i := Spec.Marked(f, now, delay)],
                retries := was.retries + Spec.DuePackets(f, |f.packets|, now, delay),
                retransLossSeen := was.retransLossSeen || LostIn(f, now, delay),
                log := if LostIn(f, now, delay) && !was.retransLossSeen
                       then was.log + [RetransLoss(s.ctl.rate)] else was.log)
  {
    hide Spec.DueIn, Spec.DuePackets, Spec.Marked, Spec.AllDue, LostIn;
    var f, was, delay := s.inflight[i], QueuedUpTo(s, i, now), s.fb.retryDelay;
    var all, more := Spec.AllDue(s.inflight[..i], now, delay), Spec.DuePackets(f, |f.packets|, now, delay);
    AllDueNext(s.inflight, i, now, delay);
    LostNext(s.inflight, i, now, delay);
    assert was.inflight[i := Spec.Marked(f, now, delay)] == QueuedUpTo(s, i + 1, now).inflight;
    assert s.retries + (all + more) == (s.retries + all) + more;
  }

  lemma AllDueNext(inflight: seq<SentFrame>, i: nat, now: u64, delay: nat)
    requires i < |inflight|
    ensures var f := inflight[i];
      Spec.AllDue(inflight[..i + 1], now, delay)
        == Spec.AllDue(inflight[..i], now, delay) + Spec.DuePackets(f, |f.packets|, now, delay)
  {
    assert inflight[..i + 1][..i] == inflight[..i];
  }

  lemma LostNext(inflight: seq<SentFrame>, i: nat, now: u64, delay: nat)
    requires i < |inflight|
    ensures Spec.RetransmissionLost(inflight[..i + 1], now, delay)
       <==> Spec.RetransmissionLost(inflight[..i], now, delay) || LostIn(inflight[i], now, delay)
  {
    hide Spec.DueIn;
    var a, b := inflight[..i], inflight[..i + 1];
    assert forall k :: 0 <= k < i ==> a[k] == b[k];
    assert b[i] == inflight[i];
    if Spec.RetransmissionLost(a, now, delay) {
      var k, j :| 0 <= k < |a| && 0 <= j < |a[k].packets|
        && Spec.DueIn(a[k], j, now, delay) && a[k].packets[j].attempt > 0;
      assert b[k] == a[k];
    }
  }

  lemma LegalBytes(f: SentFrame)
    requires Spec.ValidFrame(f)
    ensures LegalFrame(f.bytes)
  {
  }

  lemma UdpPositive(bytes: u32)
    ensures FrameUdpBytes(bytes) as real > 0.0
  {
    assert FrameUdpBytes(bytes) > 0;
  }

  /** Take entries off the queue until one is still wanted, and send its packet again. */
  method RetryLoop(s: Spec.Sender, now: u64) returns (r: Spec.Sender)
    requires s.session != 0 && AllValid(s.inflight)
    ensures r == Spec.RetryOne(s, now)
  {
    hide DataPacket, Spec.ValidFrame, Spec.RetryOne, Spec.Find, Spec.WithPacket;
    r := s;
    while r.retries != []
      invariant r.session != 0 && AllValid(r.inflight) && Spec.RetryOne(r, now) == Spec.RetryOne(s, now)
      decreases |r.retries|
    {
      RetryNext(r, now);
      var (fid, pid) := r.retries[0];
      r := r.(retries := r.retries[1..]);
      var i := Spec.Find(r.inflight, fid);
      if i.None? || pid >= |r.inflight[i.value].packets| {
        continue;
      }
      var f := r.inflight[i.value];
      var p := f.packets[pid].(retryQueued := false);
      if p.acked {
        r := r.(inflight := r.inflight[i.value := Spec.WithPacket(f, pid, p)]);
        continue;
      }
      p := p.(attempt := (p.attempt + 1) % TWO16, sentAt := now);
      r := r.(inflight := r.inflight[i.value := Spec.WithPacket(f, pid, p)],
              wire := r.wire + [DataPacket(Spec.Tx(r.session, f), pid, p.attempt, now)],
              log := r.log + [PacketRetransmitted(f.id, pid, p.attempt)]);
      return;
    }
    RetryNothing(r, now);
  }

  ghost predicate AllValid(inflight: seq<SentFrame>) {
    forall k :: 0 <= k < |inflight| ==> Spec.ValidFrame(inflight[k])
  }

  lemma FramesValid(cfg: Ctl.Config, s: Spec.Sender)
    requires Spec.ValidSender(cfg, s)
    ensures s.session != 0 && AllValid(s.inflight)
  {
  }

  lemma RetryNothing(s: Spec.Sender, now: u64)
    requires s.session != 0 && AllValid(s.inflight) && s.retries == []
    ensures Spec.RetryOne(s, now) == s
  {
  }

  /** One turn of retry_one's loop. */
  lemma RetryNext(s: Spec.Sender, now: u64)
    requires s.session != 0 && AllValid(s.inflight) && s.retries != []
    ensures var popped, i, pid := s.(retries := s.retries[1..]), Spec.Find(s.inflight, s.retries[0].0), s.retries[0].1;
      if i.None? || pid >= |s.inflight[i.value].packets| then Spec.RetryOne(s, now) == Spec.RetryOne(popped, now)
      else
        var f := s.inflight[i.value];
        var p := f.packets[pid].(retryQueued := false);
        && Spec.ValidFrame(f) && AllValid(s.inflight[i.value := Spec.WithPacket(f, pid, p)])
        && if p.acked then
             Spec.RetryOne(s, now)
               == Spec.RetryOne(popped.(inflight := s.inflight[i.value := Spec.WithPacket(f, pid, p)]), now)
           else
             var sent := p.(attempt := (p.attempt + 1) % TWO16, sentAt := now);
             && LegalTx(Spec.Tx(s.session, f)) && pid < PacketCount(|f.bytes|)
             && Spec.RetryOne(s, now) ==
               popped.(inflight := s.inflight[i.value := Spec.WithPacket(f, pid, sent)],
                       wire := s.wire + [DataPacket(Spec.Tx(s.session, f), pid, sent.attempt, now)],
                       log := s.log + [PacketRetransmitted(f.id, pid, sent.attempt)])
  {
    hide DataPacket, Spec.Tx;
    var i, pid := Spec.Find(s.inflight, s.retries[0].0), s.retries[0].1;
    if i.Some? && pid < |s.inflight[i.value].packets| {
      var f := s.inflight[i.value];
      assert Spec.ValidFrame(f);
      SenderRuns.WithPacketValid(f, pid, f.packets[pid].(retryQueued := false));
      LegalOf(s.session, f);
      hide Spec.ValidFrame;
    }
  }

  lemma LegalOf(session: u64, f: SentFrame)
    requires session != 0 && Spec.ValidFrame(f)
    ensures LegalTx(Spec.Tx(session, f)) && |f.packets| == PacketCount(|f.bytes|)
  {
  }
}
