/** The pacer, over every run of the sender: it leaves out no packet of a frame it paces. */
module SenderPacing {
  import opened Bytes
  import opened Protocol
  import opened Reassembly
  import opened Packetizer
  import Ctl = Controller
  import Runs = ControllerRuns
  import opened Sender
  import opened SenderRuns
  import opened SenderRetries
  import opened SenderWire

  // ----- What is on the wire -----

  /** Data packet pid went out as a first transmission. */
  ghost predicate DataSent(wire: seq<Datagram>, tx: TxFrame, pid: nat) {
    LegalTx(tx) && pid < PacketCount(|tx.bytes|) && exists at: u64 :: DataPacket(tx, pid, 0, at) in wire
  }

  ghost predicate ParitySent(wire: seq<Datagram>, tx: TxFrame, group: nat) {
    && LegalTx(tx) && GroupStart(group) + 1 < PacketCount(|tx.bytes|)
    && exists at: u64 :: ParityPacket(tx, group, at) in wire
  }

  ghost predicate ProbeSent(wire: seq<Datagram>, tx: TxFrame, i: nat) {
    LegalTx(tx) && i < N_PROBE && exists at: u64 :: ProbePacket(tx, i, at) in wire
  }

  ghost predicate PacketSent(wire: seq<Datagram>, session: u64, f: SentFrame, pid: nat) {
    pid < |f.packets| && f.packets[pid].sentAt != 0 && DataSent(wire, Tx(session, f), pid)
  }

  /** The first n data packets went out, and the parity packets due with them. */
  ghost predicate SentThrough(wire: seq<Datagram>, session: u64, f: SentFrame, n: nat) {
    && (forall pid: nat :: pid < n ==> PacketSent(wire, session, f, pid))
    && (forall pid: nat :: pid < n && ParityDue(pid, |f.packets|) ==>
          ParitySent(wire, Tx(session, f), pid / FEC_K))
  }

  ghost predicate ProbesThrough(wire: seq<Datagram>, session: u64, f: SentFrame, n: nat) {
    forall i: nat :: i < n ==> ProbeSent(wire, Tx(session, f), i)
  }

  /** All of frame f went out, and the pacer marked it so. */
  ghost predicate Whole(wire: seq<Datagram>, session: u64, f: SentFrame) {
    && SentThrough(wire, session, f, |f.packets|) && ProbesThrough(wire, session, f, N_PROBE)
    && f.allSent && f.probesSentAt != 0
  }

  /** What is out of frame f when the pacer stands here in it. */
  ghost predicate InPlace(pacer: Pacer, wire: seq<Datagram>, session: u64, f: SentFrame) {
    match pacer
    case PacerIdle => true
    case NextData(fid, count, pid, parity) => SentThrough(wire, session, f, pid)
    case NextParity(fid, count, pid, parity) =>
      SentThrough(wire, session, f, pid) && PacketSent(wire, session, f, pid)
    case AllSent(fid) => SentThrough(wire, session, f, |f.packets|)
    case NextProbe(fid, i) =>
      SentThrough(wire, session, f, |f.packets|) && f.allSent && ProbesThrough(wire, session, f, i)
    case SendProbe(fid, i, h) =>
      SentThrough(wire, session, f, |f.packets|) && f.allSent && ProbesThrough(wire, session, f, i)
    case ProbesDone(fid) =>
      SentThrough(wire, session, f, |f.packets|) && f.allSent && ProbesThrough(wire, session, f, N_PROBE)
  }

  predicate IsPaced(pacer: Pacer, f: SentFrame) { !pacer.PacerIdle? && pacer.fid == f.id }

  /** A frame is in the pacer's hands, or out; nothing is said of frames older than first. */
  ghost predicate PacedTo(first: nat, pacer: Pacer, wire: seq<Datagram>, session: u64, f: SentFrame) {
    if IsPaced(pacer, f) then InPlace(pacer, wire, session, f) else f.id >= first ==> Whole(wire, session, f)
  }

  ghost predicate PacedInv(first: nat, s: Sender) {
    forall i :: 0 <= i < |s.inflight| ==> PacedTo(first, s.pacer, s.wire, s.session, s.inflight[i])
  }

  // ----- The other steps -----

  /** b is frame a, with packets that were sent still sent. */
  ghost predicate KeepsSent(a: SentFrame, b: SentFrame) {
    && b.id == a.id && b.bytes == a.bytes && b.firstSent == a.firstSent && b.keyframe == a.keyframe
    && |b.packets| == |a.packets| && (a.allSent ==> b.allSent) && (a.probesSentAt != 0 ==> b.probesSentAt != 0)
    && forall p :: 0 <= p < |a.packets| && a.packets[p].sentAt != 0 ==> b.packets[p].sentAt != 0
  }

  ghost predicate AllKeepSent(a: seq<SentFrame>, b: seq<SentFrame>) {
    |a| == |b| && forall i :: 0 <= i < |a| ==> KeepsSent(a[i], b[i])
  }

  /** What is on the wire stays there. */
  lemma SentGrow(wire: seq<Datagram>, more: seq<Datagram>, tx: TxFrame, n: nat)
    ensures DataSent(wire, tx, n) ==> DataSent(wire + more, tx, n)
    ensures ParitySent(wire, tx, n) ==> ParitySent(wire + more, tx, n)
    ensures ProbeSent(wire, tx, n) ==> ProbeSent(wire + more, tx, n)
  {
    hide DataPacket, ParityPacket, ProbePacket, LegalTx;
    var all := wire + more;
    if DataSent(wire, tx, n) {
      var at: u64 :| DataPacket(tx, n, 0, at) in wire;
      assert DataPacket(tx, n, 0, at) in all;
    }
    if ParitySent(wire, tx, n) {
      var at: u64 :| ParityPacket(tx, n, at) in wire;
      assert ParityPacket(tx, n, at) in all;
    }
    if ProbeSent(wire, tx, n) {
      var at: u64 :| ProbePacket(tx, n, at) in wire;
      assert ProbePacket(tx, n, at) in all;
    }
  }

  lemma KeptPacket(wire: seq<Datagram>, more: seq<Datagram>, session: u64, a: SentFrame, b: SentFrame, pid: nat)
    requires KeepsSent(a, b) && PacketSent(wire, session, a, pid)
    ensures PacketSent(wire + more, session, b, pid)
  {
    SentGrow(wire, more, Tx(session, a), pid);
    hide DataSent;
  }

  lemma KeptThrough(wire: seq<Datagram>, more: seq<Datagram>, session: u64, a: SentFrame, b: SentFrame, n: nat)
    requires KeepsSent(a, b) && SentThrough(wire, session, a, n)
    ensures SentThrough(wire + more, session, b, n)
  {
    hide PacketSent, ParitySent;
    forall pid: nat | pid < n
      ensures PacketSent(wire + more, session, b, pid)
    {
      KeptPacket(wire, more, session, a, b, pid);
    }
    forall pid: nat | pid < n && ParityDue(pid, |b.packets|)
      ensures ParitySent(wire + more, Tx(session, b), pid / FEC_K)
    {
      SentGrow(wire, more, Tx(session, a), pid / FEC_K);
    }
  }

  lemma KeptProbes(wire: seq<Datagram>, more: seq<Datagram>, session: u64, a: SentFrame, b: SentFrame, n: nat)
    requires KeepsSent(a, b) && ProbesThrough(wire, session, a, n)
    ensures ProbesThrough(wire + more, session, b, n)
  {
    hide ProbeSent;
    forall i: nat | i < n
      ensures ProbeSent(wire + more, Tx(session, b), i)
    {
      SentGrow(wire, more, Tx(session, a), i);
    }
  }

  lemma KeptInPlace(pacer: Pacer, wire: seq<Datagram>, more: seq<Datagram>, session: u64, a: SentFrame, b: SentFrame)
    requires InPlace(pacer, wire, session, a) && KeepsSent(a, b)
    ensures InPlace(pacer, wire + more, session, b)
  {
    hide SentThrough, PacketSent, ProbesThrough;
    match pacer
    case PacerIdle =>
    case NextData(_, _, pid, _) => KeptThrough(wire, more, session, a, b, pid);
    case NextParity(_, _, pid, _) =>
      KeptThrough(wire, more, session, a, b, pid);
      KeptPacket(wire, more, session, a, b, pid);
    case AllSent(_) => KeptThrough(wire, more, session, a, b, |a.packets|);
    case NextProbe(_, i) =>
      KeptThrough(wire, more, session, a, b, |a.packets|);
      KeptProbes(wire, more, session, a, b, i);
    case SendProbe(_, i, _) =>
      KeptThrough(wire, more, session, a, b, |a.packets|);
      KeptProbes(wire, more, session, a, b, i);
    case ProbesDone(_) =>
      KeptThrough(wire, more, session, a, b, |a.packets|);
      KeptProbes(wire, more, session, a, b, N_PROBE);
  }

  lemma KeptWhole(wire: seq<Datagram>, more: seq<Datagram>, session: u64, a: SentFrame, b: SentFrame)
    requires Whole(wire, session, a) && KeepsSent(a, b)
    ensures Whole(wire + more, session, b)
  {
    hide SentThrough, ProbesThrough;
    KeptThrough(wire, more, session, a, b, |a.packets|);
    KeptProbes(wire, more, session, a, b, N_PROBE);
  }

  lemma KeptPaced(first: nat, pacer: Pacer, wire: seq<Datagram>, more: seq<Datagram>, session: u64, a: SentFrame,
                  b: SentFrame)
    requires PacedTo(first, pacer, wire, session, a) && KeepsSent(a, b)
    ensures PacedTo(first, pacer, wire + more, session, b)
  {
    hide InPlace, Whole;
    if IsPaced(pacer, a) {
      KeptInPlace(pacer, wire, more, session, a, b);
    } else if a.id >= first {
      KeptWhole(wire, more, session, a, b);
    }
  }

  lemma KeptInv(first: nat, s: Sender, s': Sender, more: seq<Datagram>)
    requires PacedInv(first, s) && AllKeepSent(s.inflight, s'.inflight)
    requires s'.wire == s.wire + more && s'.session == s.session && s'.pacer == s.pacer
    ensures PacedInv(first, s')
  {
    hide PacedTo, KeepsSent;
    forall i | 0 <= i < |s'.inflight|
      ensures PacedTo(first, s'.pacer, s'.wire, s'.session, s'.inflight[i])
    {
      KeptPaced(first, s.pacer, s.wire, more, s.session, s.inflight[i], s'.inflight[i]);
    }
  }

  // ----- The pacer's steps -----

  /** A block of the pacer: it stays on its frame or ends with it, and touches no other. */
  ghost predicate OnItsFrame(s: Sender, s': Sender, more: seq<Datagram>) {
    && !s.pacer.PacerIdle? && (s'.pacer.PacerIdle? || s'.pacer.fid == s.pacer.fid)
    && s'.session == s.session && s'.wire == s.wire + more && |s'.inflight| == |s.inflight|
    && forall k :: 0 <= k < |s.inflight| && s.inflight[k].id != s.pacer.fid ==> s'.inflight[k] == s.inflight[k]
  }

  lemma SendOnItsFrame(s: Sender, i: nat, now: u64) returns (more: seq<Datagram>)
    requires s.session != 0 && s.pacer.NextData? && s.pacer.pid < s.pacer.count && |s.pacer.parity| == LOAD_SZ
    requires i < |s.inflight| && s.inflight[i].id == s.pacer.fid && ValidFrame(s.inflight[i])
    requires s.pacer.count == |s.inflight[i].packets|
    ensures var p := s.pacer; OnItsFrame(s, SendDataStep(s, p.fid, p.count, p.pid, p.parity, i, now), more)
  {
    more := [DataPacket(Tx(s.session, s.inflight[i]), s.pacer.pid, 0, now)];
    hide DataPacket, XorBytes, ValidFrame;
  }

  lemma StepOnItsFrame(s: Sender, now: u64) returns (more: seq<Datagram>)
    requires s.session != 0 && ValidPacer(s.pacer, s.inflight) && !s.pacer.PacerIdle?
    requires forall i :: 0 <= i < |s.inflight| ==> ValidFrame(s.inflight[i])
    ensures OnItsFrame(s, PacerStep(s, now, true), more)
  {
    hide ValidFrame, ParityDatagram, ProbeHeader, SendDataStep, Find;
    more := [];
    assert s.wire + [] == s.wire;
    var i := Find(s.inflight, s.pacer.fid);
    if i.Some? && s.pacer.NextData? && s.pacer.pid < s.pacer.count {
      hide OnItsFrame;
      more := SendOnItsFrame(s, i.value, now);
    } else if i.Some? && s.pacer.NextParity? {
      more := [ParityDatagram(s.session, s.inflight[i.value], s.pacer.pid, s.pacer.parity, now)];
    } else if s.pacer.SendProbe? {
      more := [Datagram(s.pacer.h.(sendTime := now), [])];
    }
  }

  /** Nothing needs to be said of the other frames. */
  lemma OthersPaced(first: nat, s: Sender, s': Sender, more: seq<Datagram>)
    requires PacedInv(first, s) && OnItsFrame(s, s', more)
    requires forall k :: 0 <= k < |s.inflight| && s.inflight[k].id == s.pacer.fid ==>
               PacedTo(first, s'.pacer, s'.wire, s'.session, s'.inflight[k])
    ensures PacedInv(first, s')
  {
    hide InPlace, Whole;
    forall k | 0 <= k < |s'.inflight|
      ensures PacedTo(first, s'.pacer, s'.wire, s'.session, s'.inflight[k])
    {
      if s.inflight[k].id != s.pacer.fid {
        var f := s.inflight[k];
        assert PacedTo(first, s.pacer, s.wire, s.session, f) && KeepsSent(f, f);
        if f.id >= first {
          KeptWhole(s.wire, more, s.session, f, f);
        }
      }
    }
  }

  lemma ThroughNext(wire: seq<Datagram>, session: u64, f: SentFrame, pid: nat)
    requires SentThrough(wire, session, f, pid) && PacketSent(wire, session, f, pid)
    requires ParityDue(pid, |f.packets|) ==> ParitySent(wire, Tx(session, f), pid / FEC_K)
    ensures SentThrough(wire, session, f, pid + 1)
  {
    hide PacketSent, ParitySent;
  }

  lemma DataPaced(s: Sender, i: nat, now: u64)
    requires s.session != 0 && s.pacer.NextData? && s.pacer.pid < s.pacer.count && |s.pacer.parity| == LOAD_SZ
    requires i < |s.inflight| && s.inflight[i].id == s.pacer.fid && ValidFrame(s.inflight[i]) && now != 0
    requires |s.inflight[i].packets| == s.pacer.count && SentThrough(s.wire, s.session, s.inflight[i], s.pacer.pid)
    ensures var s' := SendDataStep(s, s.pacer.fid, s.pacer.count, s.pacer.pid, s.pacer.parity, i, now);
      !s'.pacer.PacerIdle? && InPlace(s'.pacer, s'.wire, s.session, s'.inflight[i])
  {
    hide XorBytes, DataPacket;
    var f, pid := s.inflight[i], s.pacer.pid;
    var d := DataPacket(Tx(s.session, f), pid, 0, now);
    var b := WithPacket(f, pid, f.packets[pid].(sentAt := now));
    assert Tx(s.session, b) == Tx(s.session, f) && LegalTx(Tx(s.session, f));
    assert PacketSent(s.wire + [d], s.session, b, pid) by {
      assert d in s.wire + [d];
    }
    assert KeepsSent(f, b);
    hide PacketSent, SentThrough, KeepsSent, ValidFrame, LegalTx;
    KeptThrough(s.wire, [d], s.session, f, b, pid);
    if !ParityDue(pid, s.pacer.count) {
      ThroughNext(s.wire + [d], s.session, b, pid);
    }
  }

  lemma ParityPaced(sent: Sent, session: u64, s: Sender, i: nat, now: u64)
    requires GenuineInv(sent, session, s) && s.session != 0 && s.pacer.NextParity?
    requires i < |s.inflight| && s.inflight[i].id == s.pacer.fid && ValidFrame(s.inflight[i])
    requires s.pacer.pid < |s.inflight[i].packets| && |s.pacer.parity| == LOAD_SZ
    requires InPlace(s.pacer, s.wire, s.session, s.inflight[i])
    ensures var d := ParityDatagram(s.session, s.inflight[i], s.pacer.pid, s.pacer.parity, now);
      SentThrough(s.wire + [d], s.session, s.inflight[i], s.pacer.pid + 1)
  {
    hide WireHolds, SentFrames, RunningParity, Parity, Chunks, SentThrough, PacketSent;
    var f, pid := s.inflight[i], s.pacer.pid;
    var tx := Tx(s.session, f);
    assert sent[f.id] == tx;
    GroupsFit(pid, s.pacer.count);
    var d := ParityDatagram(s.session, f, pid, s.pacer.parity, now);
    assert d == ParityPacket(tx, pid / FEC_K, now);
    assert ParitySent(s.wire + [d], tx, pid / FEC_K) by {
      assert d in s.wire + [d];
    }
    hide ParitySent, GenuineInv, ValidFrame;
    KeptThrough(s.wire, [d], s.session, f, f, pid);
    KeptPacket(s.wire, [d], s.session, f, f, pid);
    ThroughNext(s.wire + [d], s.session, f, pid);
  }

  lemma ProbePaced(sent: Sent, session: u64, s: Sender, i: nat, now: u64)
    requires GenuineInv(sent, session, s) && s.pacer.SendProbe?
    requires i < |s.inflight| && s.inflight[i].id == s.pacer.fid
    requires InPlace(s.pacer, s.wire, s.session, s.inflight[i])
    ensures var d := Datagram(s.pacer.h.(sendTime := now), []);
      InPlace(NextProbe(s.pacer.fid, s.pacer.i + 1), s.wire + [d], s.session, s.inflight[i])
  {
    hide WireHolds, SentFrames, SentThrough;
    var f, k := s.inflight[i], s.pacer.i;
    var tx := Tx(s.session, f);
    assert sent[f.id] == tx;
    var d := Datagram(s.pacer.h.(sendTime := now), []);
    assert d == ProbePacket(tx, k, now);
    assert ProbeSent(s.wire + [d], tx, k) by {
      assert d in s.wire + [d];
    }
    hide ProbeSent, GenuineInv;
    KeptThrough(s.wire, [d], s.session, f, f, |f.packets|);
    KeptProbes(s.wire, [d], s.session, f, f, k);
  }

  /** The pacer's frame after the step. */
  lemma ItsFrameInPlace(cfg: Ctl.Config, sent: Sent, session: u64, s: Sender, i: nat, now: u64)
    requires ValidSender(cfg, s) && GenuineInv(sent, session, s) && ClockReading(now)
    requires !s.pacer.PacerIdle? && Find(s.inflight, s.pacer.fid) == Some(i)
    requires InPlace(s.pacer, s.wire, s.session, s.inflight[i])
    ensures var s' := PacerStep(s, now, true);
      && |s'.inflight| == |s.inflight|
      && (if s'.pacer.PacerIdle? then Whole(s'.wire, s'.session, s'.inflight[i])
          else InPlace(s'.pacer, s'.wire, s'.session, s'.inflight[i]))
  {
    hide SentThrough, PacketSent, ProbesThrough, GenuineInv, Runs.CtlInv, SendDataStep, ParityDatagram, ProbeHeader,
      Find, IdsRise;
    var f := s.inflight[i];
    assert ValidFrame(f);
    match s.pacer
    case NextData(fid, count, pid, parity) =>
      assert |f.packets| == count;
      if pid < count {
        SameFlightRefl(s.inflight);
        SendTouches(s, fid, count, pid, parity, i, now);
        DataPaced(s, i, now);
      }
    case NextParity(fid, count, pid, parity) => ParityPaced(sent, session, s, i, now);
    case SendProbe(fid, k, h) => ProbePaced(sent, session, s, i, now);
    case _ =>
      hide PacerStep;
      MarksInPlace(s, i, now);
  }

  lemma MarksInPlace(s: Sender, i: nat, now: u64)
    requires s.session != 0 && ValidPacer(s.pacer, s.inflight) && now != 0
    requires s.pacer.AllSent? || s.pacer.NextProbe? || s.pacer.ProbesDone?
    requires forall i :: 0 <= i < |s.inflight| ==> ValidFrame(s.inflight[i])
    requires Find(s.inflight, s.pacer.fid) == Some(i) && InPlace(s.pacer, s.wire, s.session, s.inflight[i])
    ensures var s' := PacerStep(s, now, true);
      && |s'.inflight| == |s.inflight|
      && (if s'.pacer.PacerIdle? then Whole(s'.wire, s'.session, s'.inflight[i])
          else InPlace(s'.pacer, s'.wire, s'.session, s'.inflight[i]))
  {
    hide SentThrough, PacketSent, ProbesThrough, ProbeHeader, ValidFrame, Find;
    var f := s.inflight[i];
    assert s.wire + [] == s.wire;
    if s.pacer.AllSent? {
      KeptThrough(s.wire, [], s.session, f, f.(allSent := true), |f.packets|);
      NoProbesYet(s.wire, s.session, f.(allSent := true));
    } else if s.pacer.ProbesDone? {
      KeptThrough(s.wire, [], s.session, f, f.(probesSentAt := now), |f.packets|);
      KeptProbes(s.wire, [], s.session, f, f.(probesSentAt := now), N_PROBE);
    }
  }

  lemma NoProbesYet(wire: seq<Datagram>, session: u64, f: SentFrame)
    ensures ProbesThrough(wire, session, f, 0)
  {
  }

  lemma PaceKeepsPaced(cfg: Ctl.Config, sent: Sent, session: u64, first: nat, s: Sender, now: u64)
    requires ValidSender(cfg, s) && GenuineInv(sent, session, s) && ClockReading(now) && PacedInv(first, s)
    ensures PacedInv(first, PacerStep(s, now, true))
  {
    hide InPlace, Whole, GenuineInv, Runs.CtlInv, PacerStep, ValidFrame, ValidPacer;
    if s.pacer.PacerIdle? {
      IdleStays(s, now);
    } else {
      var s' := PacerStep(s, now, true);
      var more := StepOnItsFrame(s, now);
      var i := Find(s.inflight, s.pacer.fid);
      if i.Some? {
        assert PacedTo(first, s.pacer, s.wire, s.session, s.inflight[i.value]);
        ItsFrameInPlace(cfg, sent, session, s, i.value, now);
        PacerKeepsFlight(s, now, true);
        assert forall k :: 0 <= k < |s.inflight| && s.inflight[k].id == s.pacer.fid ==> k == i.value;
      }
      hide Find;
      OthersPaced(first, s, s', more);
    }
  }

  lemma IdleStays(s: Sender, now: u64)
    requires s.session != 0 && s.pacer.PacerIdle? && forall i :: 0 <= i < |s.inflight| ==> ValidFrame(s.inflight[i])
    ensures PacerStep(s, now, true) == s
  {
    hide ValidFrame;
  }

  // ----- Every step -----

  lemma KeepsSentRefl(inflight: seq<SentFrame>)
    ensures AllKeepSent(inflight, inflight)
  {
  }

  lemma KeepsSentTransitive(a: seq<SentFrame>, b: seq<SentFrame>, c: seq<SentFrame>)
    requires AllKeepSent(a, b) && AllKeepSent(b, c)
    ensures AllKeepSent(a, c)
  {
    forall i | 0 <= i < |a|
      ensures KeepsSent(a[i], c[i])
    {
      assert KeepsSent(a[i], b[i]) && KeepsSent(b[i], c[i]);
    }
  }

  lemma UpdateKeepsSent(inflight: seq<SentFrame>, i: nat, f: SentFrame)
    requires i < |inflight| && KeepsSent(inflight[i], f)
    ensures AllKeepSent(inflight, inflight[i := f])
  {
  }

  lemma {:induction false} RetryKeepsSent(s: Sender, now: u64) returns (more: seq<Datagram>)
    requires s.session != 0 && now != 0 && forall i :: 0 <= i < |s.inflight| ==> ValidFrame(s.inflight[i])
    ensures AllKeepSent(s.inflight, RetryOne(s, now).inflight) && RetryOne(s, now).wire == s.wire + more
    decreases |s.retries|
  {
    hide ValidFrame, DataPacket, AllKeepSent;
    KeepsSentRefl(s.inflight);
    more := [];
    if s.retries != [] {
      var (fid, pid) := s.retries[0];
      var popped := s.(retries := s.retries[1..]);
      var i := Find(s.inflight, fid);
      if i.None? || pid >= |s.inflight[i.value].packets| {
        more := RetryKeepsSent(popped, now);
      } else {
        var f := s.inflight[i.value];
        assert ValidFrame(f);
        var p := f.packets[pid].(retryQueued := false);
        WithPacketValid(f, pid, p);
        if p.acked {
          var g := WithPacket(f, pid, p);
          UpdateKeepsSent(s.inflight, i.value, g);
          var s1 := popped.(inflight := s.inflight[i.value := g]);
          more := RetryKeepsSent(s1, now);
          KeepsSentTransitive(s.inflight, s1.inflight, RetryOne(s1, now).inflight);
        } else {
          var sent := p.(attempt := (p.attempt + 1) % TWO16, sentAt := now);
          UpdateKeepsSent(s.inflight, i.value, WithPacket(f, pid, sent));
          more := [DataPacket(Tx(s.session, f), pid, sent.attempt, now)];
        }
      }
    }
  }

  lemma AcknowledgeKeepsSent(f: SentFrame, a: RecvAck)
    ensures KeepsSent(f, Acknowledge(f, a))
  {
    AcknowledgeKeepsShape(f, a);
    assert Acknowledge(f, a).allSent == f.allSent && Acknowledge(f, a).probesSentAt == f.probesSentAt;
    hide Acknowledge;
    forall pid | 0 <= pid < |f.packets|
      ensures Acknowledge(f, a).packets[pid].sentAt == f.packets[pid].sentAt
    {
      AcknowledgePacket(f, a, pid);
    }
  }

  lemma InputKeepsSent(s: Sender, input: Input, now: u64)
    ensures AllKeepSent(s.inflight, HandleInput(s, input, now).inflight)
  {
    hide ObserveTimes, ObserveWire, UsableAck, Find, Acknowledge, AllKeepSent, KeepsSent;
    KeepsSentRefl(s.inflight);
    if input.Ack? {
      var i := Find(s.inflight, input.a.frameId);
      if i.Some? {
        var f := s.inflight[i.value];
        AcknowledgeKeepsSent(f, input.a);
        UpdateKeepsSent(s.inflight, i.value, Acknowledge(f, input.a));
      }
    }
  }

  lemma MarksKeepSent(s: Sender, now: u64)
    ensures AllKeepSent(s.inflight, QueueRetries(s, now).inflight)
  {
    hide DueIn, AllDue, RetransmissionLost;
  }

  lemma ListenKeepsPaced(cfg: Ctl.Config, first: nat, s: Sender, input: Input, now: u64, wall: nat -> u64)
    requires ValidSender(cfg, s) && QueueInv(s) && PacedInv(first, s)
    ensures PacedInv(first, Next(cfg, s, Listen(input, now, wall)))
  {
    hide ValidSender, HandleInput, QueueRetries, CheckAge, Resolve, PacedInv, AllKeepSent, RetryInv, SameTx;
    var s1 := HandleInput(s, input, now);
    HandleInputKeepsValid(cfg, s, input, now);
    HandleInputSameTx(s, input, now);
    InputKeepsSent(s, input, now);
    HandleInputKeepsQueue(s, input, now);
    QueueRetriesKeepsValid(cfg, s1, now);
    var s2 := QueueRetries(s1, now);
    MarkSameTx(s1, now);
    MarksKeepSent(s1, now);
    KeepsSentTransitive(s.inflight, s1.inflight, s2.inflight);
    CheckAgeKeepsValid(cfg, s2, now);
    var s3 := CheckAge(cfg, s2, now);
    assert s.wire + [] == s.wire;
    KeptInv(first, s, s3, []);
    QueueRetriesKeepsQueue(cfg, s1, now);
    ResolveKeepsQueue(cfg, s3, now, wall);
    var s4 := Resolve(cfg, s3, now, wall);
    var k: nat :| k <= |s3.inflight| && s4.inflight == s3.inflight[k..];
    RestPaced(first, s3, s4, k);
  }

  lemma RestPaced(first: nat, s: Sender, s': Sender, k: nat)
    requires PacedInv(first, s) && k <= |s.inflight| && s'.inflight == s.inflight[k..]
    requires s'.wire == s.wire && s'.session == s.session && s'.pacer == s.pacer
    ensures PacedInv(first, s')
  {
    hide PacedTo;
    forall i | 0 <= i < |s'.inflight|
      ensures PacedTo(first, s'.pacer, s'.wire, s'.session, s'.inflight[i])
    {
      assert s'.inflight[i] == s.inflight[k + i];
    }
  }

  lemma StartKeepsPaced(cfg: Ctl.Config, first: nat, s: Sender, started: u64, firstSent: u64)
    requires ValidSender(cfg, s) && PacedInv(first, s)
    ensures PacedInv(first, StartFrame(s, started, firstSent))
  {
    hide NewSentFrame, PacketSent, ParitySent, Whole, ValidFrame, Runs.CtlInv;
    if s.pacer.PacerIdle? && s.queue != [] && s.nextId < UINT32_MAX {
      var s' := StartFrame(s, started, firstSent);
      forall i | 0 <= i < |s'.inflight|
        ensures PacedTo(first, s'.pacer, s'.wire, s'.session, s'.inflight[i])
      {
        if i < |s.inflight| {
          assert PacedTo(first, s.pacer, s.wire, s.session, s.inflight[i]);
        } else {
          StartsFresh(s, started, firstSent);
        }
      }
    }
  }

  lemma StartsFresh(s: Sender, started: u64, firstSent: u64)
    requires s.pacing >= Ctl.GAMMA_P && s.pacer.PacerIdle? && s.queue != [] && s.nextId < UINT32_MAX
    ensures var s' := StartFrame(s, started, firstSent);
      && s'.inflight[|s.inflight|].id == s.nextId
      && InPlace(s'.pacer, s'.wire, s'.session, s'.inflight[|s.inflight|])
  {
  }

  /** Every step but one of the pacer that reads running as false. */
  lemma NextKeepsPaced(cfg: Ctl.Config, sent: Sent, session: u64, first: nat, s: Sender, step: Step)
    requires ValidSender(cfg, s) && ValidStep(s, step) && QueueInv(s) && GenuineInv(sent, session, s)
    requires PacedInv(first, s)
    requires step.Pace? ==> step.running
    ensures PacedInv(first, Next(cfg, s, step))
  {
    hide ValidSender, QueueInv, GenuineInv, PacedInv, AllKeepSent;
    match step
    case Start(started, firstSent) =>
      hide StartFrame;
      PacingHolds(cfg, s);
      StartKeepsPaced(cfg, first, s, started, firstSent);
    case Pace(now, running) =>
      hide PacerStep;
      PaceKeepsPaced(cfg, sent, session, first, s, now);
    case Retry(now) =>
      hide RetryOne;
      PacingHolds(cfg, s);
      var more := RetryKeepsSent(s, now);
      var events := RetryLogs(s, now);
      KeptInv(first, s, RetryOne(s, now), more);
    case Listen(input, now, wall) =>
      hide Next;
      ListenKeepsPaced(cfg, first, s, input, now, wall);
    case Announce(width, height) =>
      hide StreamInfoPacket;
      KeepsSentRefl(s.inflight);
      assert s.wire + [] == s.wire;
      var info := StreamInfoPacket(s.session, width, height);
      KeptInv(first, s, Next(cfg, s, step), if s.pacer.PacerIdle? then [info] else []);
    case _ =>
      hide Next, StreamInfoPacket;
      OtherStepsKeepPackets(cfg, s, step);
      KeepsSentRefl(s.inflight);
      assert s.wire + [] == s.wire;
      KeptInv(first, s, Next(cfg, s, step), []);
  }

  lemma PacingHolds(cfg: Ctl.Config, s: Sender)
    requires ValidSender(cfg, s)
    ensures s.pacing >= Ctl.GAMMA_P && s.session != 0 && ValidPacer(s.pacer, s.inflight)
    ensures forall i :: 0 <= i < |s.inflight| ==> ValidFrame(s.inflight[i])
  {
  }

  // ----- Over runs -----

  /** No block of the pacer between states m and n read running as false. */
  ghost predicate Undisturbed(steps: seq<Step>, m: nat, n: nat)
    requires m <= n <= |steps|
  {
    forall k :: m <= k < n && steps[k].Pace? ==> steps[k].running
  }

  lemma {:induction false} RunPaces(cfg: Ctl.Config, session: u64, steps: seq<Step>, states: seq<Sender>, m: nat,
                                    n: nat)
    requires Ctl.ValidConfig(cfg) && IsRun(cfg, session, steps, states) && m <= n <= |steps| < |states|
    requires states[m].pacer.PacerIdle? && Undisturbed(steps, m, n)
    ensures PacedInv(states[m].nextId, states[n])
    decreases n
  {
    hide IsRun, SendInv, GenuineInv, Next, ValidStep, ValidSender, PacedInv, QueueInv;
    if n == m {
      RunStateValid(cfg, session, steps, states, n);
      OldFrames(cfg, states[n]);
    } else {
      RunPaces(cfg, session, steps, states, m, n - 1);
      RunStep(cfg, session, steps, states, n - 1);
      RunIsGenuine(cfg, session, steps, states, n - 1);
      RunKeepsSendInv(cfg, session, steps, states, n - 1);
      QueueOfSends(states[n - 1]);
      NextKeepsPaced(cfg, SentUpTo(steps, states, n - 1), session, states[m].nextId, states[n - 1],
                     steps[n - 1]);
    }
  }

  lemma OldFrames(cfg: Ctl.Config, s: Sender)
    requires ValidSender(cfg, s) && s.pacer.PacerIdle?
    ensures PacedInv(s.nextId, s)
  {
    hide Whole, ValidFrame, Runs.CtlInv;
  }

  /** The last packet of a group of two or more is where its parity packet is sent. */
  lemma GroupIsDue(group: nat, count: nat) returns (pid: nat)
    requires GroupStart(group) + 1 < count
    ensures pid < count && ParityDue(pid, count) && pid / FEC_K == group
  {
    pid := GroupEnd(group, count) - 1;
  }

  lemma AllGroupsSent(wire: seq<Datagram>, session: u64, f: SentFrame)
    requires SentThrough(wire, session, f, |f.packets|)
    ensures forall group: nat :: GroupStart(group) + 1 < |f.packets| ==> ParitySent(wire, Tx(session, f), group)
  {
    hide PacketSent, ParitySent;
    forall group: nat | GroupStart(group) + 1 < |f.packets|
      ensures ParitySent(wire, Tx(session, f), group)
    {
      var pid := GroupIsDue(group, |f.packets|);
    }
  }

  /** The pacer is through with the data and parity packets of frame f. */
  predicate PacketsDone(pacer: Pacer, f: SentFrame) {
    IsPaced(pacer, f) ==> !pacer.NextData? && !pacer.NextParity?
  }

  predicate ProbesDone(pacer: Pacer, f: SentFrame) { IsPaced(pacer, f) ==> pacer.ProbesDone? }

  /** The pacer leaves nothing out. Take a frame in flight that was started after a state m in which the pacer was
      idle, and suppose that no block of the pacer since then read running as false. Once the pacer is through with
      its packets, every data packet went out as attempt 0 and the parity packet of every group of two or more; once
      it is through with its probes, all four of them did; and when it has left the frame, it has marked it so. */
  lemma FramesAreSentWhole(cfg: Ctl.Config, session: u64, steps: seq<Step>, states: seq<Sender>, m: nat, n: nat, i: nat)
    requires Ctl.ValidConfig(cfg) && IsRun(cfg, session, steps, states) && m <= n <= |steps| < |states|
    requires states[m].pacer.PacerIdle? && Undisturbed(steps, m, n)
    requires i < |states[n].inflight| && states[n].inflight[i].id >= states[m].nextId
    requires PacketsDone(states[n].pacer, states[n].inflight[i])
    ensures var f, wire, pacer := states[n].inflight[i], states[n].wire, states[n].pacer;
      && LegalFrame(f.bytes) && |f.packets| == PacketCount(|f.bytes|)
      && (forall pid: nat :: pid < |f.packets| ==> f.packets[pid].sentAt != 0 && DataSent(wire, Tx(session, f), pid))
      && (forall group: nat :: GroupStart(group) + 1 < |f.packets| ==> ParitySent(wire, Tx(session, f), group))
      && (ProbesDone(pacer, f) ==> forall k: nat :: k < N_PROBE ==> ProbeSent(wire, Tx(session, f), k))
      && (!IsPaced(pacer, f) ==> f.allSent && f.probesSentAt != 0)
  {
    var s, f := states[n], states[n].inflight[i];
    RunPaces(cfg, session, steps, states, m, n);
    ItsFrame(cfg, session, steps, states, states[m].nextId, n, i);
    hide IsRun, PacedInv, DataSent, ParitySent, ProbeSent;
    assert SentThrough(s.wire, session, f, |f.packets|);
    AllGroupsSent(s.wire, session, f);
    forall pid: nat | pid < |f.packets|
      ensures f.packets[pid].sentAt != 0 && DataSent(s.wire, Tx(session, f), pid)
    {
      assert PacketSent(s.wire, session, f, pid);
    }
  }

  lemma ItsFrame(cfg: Ctl.Config, session: u64, steps: seq<Step>, states: seq<Sender>, first: nat, n: nat, i: nat)
    requires Ctl.ValidConfig(cfg) && IsRun(cfg, session, steps, states) && n <= |steps| < |states|
    requires PacedInv(first, states[n]) && i < |states[n].inflight|
    ensures ValidFrame(states[n].inflight[i]) && states[n].session == session
    ensures PacedTo(first, states[n].pacer, states[n].wire, session, states[n].inflight[i])
  {
    hide IsRun, PacedTo, ValidFrame, Runs.CtlInv, ValidPacer, SentFrames, Flying, PacerHolds, WireHolds;
    RunStateValid(cfg, session, steps, states, n);
    RunIsGenuine(cfg, session, steps, states, n);
  }

  /** How many blocks the pacer may still need for its frame. */
  function Left(pacer: Pacer): int {
    match pacer
    case PacerIdle => 0
    case NextData(fid, count, pid, parity) => 2 * (count - pid) + 12
    case NextParity(fid, count, pid, parity) => 2 * (count - pid) + 11
    case AllSent(fid) => 11
    case NextProbe(fid, i) => 2 * (N_PROBE - i) + 2
    case SendProbe(fid, i, h) => 2 * (N_PROBE - i) + 1
    case ProbesDone(fid) => 1
  }

  function Blocks(steps: seq<Step>): nat {
    if steps == [] then 0 else Blocks(steps[..|steps| - 1]) + if steps[|steps| - 1].Pace? then 1 else 0
  }

  lemma PaceProgresses(s: Sender, now: u64, running: bool)
    requires s.session != 0 && ValidPacer(s.pacer, s.inflight) && !s.pacer.PacerIdle?
    requires forall i :: 0 <= i < |s.inflight| ==> ValidFrame(s.inflight[i])
    ensures 0 < Left(s.pacer) && 0 <= Left(PacerStep(s, now, running).pacer) < Left(s.pacer)
  {
    hide ValidFrame, Find, ParityDatagram, ProbeHeader, SendDataStep;
    if s.pacer.NextData? && s.pacer.pid < s.pacer.count {
      SendMoves(s, now);
    }
  }

  lemma SendMoves(s: Sender, now: u64)
    requires s.session != 0 && ValidPacer(s.pacer, s.inflight) && s.pacer.NextData? && s.pacer.pid < s.pacer.count
    requires forall i :: 0 <= i < |s.inflight| ==> ValidFrame(s.inflight[i])
    ensures var p := s.pacer;
      forall i: nat :: i < |s.inflight| && s.inflight[i].id == p.fid ==>
        && ValidFrame(s.inflight[i]) && p.count == |s.inflight[i].packets|
        && var q := SendDataStep(s, p.fid, p.count, p.pid, p.parity, i, now).pacer;
           0 <= Left(q) < Left(p)
  {
    hide ValidFrame, XorBytes, DataPacket;
  }

  lemma OnlyPacingMoves(cfg: Ctl.Config, s: Sender, step: Step)
    requires ValidSender(cfg, s) && ValidStep(s, step) && QueueInv(s) && !step.Pace? && !s.pacer.PacerIdle?
    ensures Next(cfg, s, step).pacer == s.pacer
  {
    hide ValidSender, QueueInv;
    match step
    case Start(started, firstSent) =>
    case Retry(now) =>
      hide RetryOne;
      PacingHolds(cfg, s);
      var events := RetryLogs(s, now);
    case Listen(input, now, wall) =>
      hide Next;
      ListenKeepsPacer(cfg, s, input, now, wall);
    case _ =>
      hide Next;
      OtherStepsKeepPackets(cfg, s, step);
  }

  lemma ListenKeepsPacer(cfg: Ctl.Config, s: Sender, input: Input, now: u64, wall: nat -> u64)
    requires ValidSender(cfg, s) && QueueInv(s)
    ensures Next(cfg, s, Listen(input, now, wall)).pacer == s.pacer
  {
    hide ValidSender, HandleInput, QueueRetries, CheckAge, Resolve, RetryInv, SameTx;
    var s1 := HandleInput(s, input, now);
    HandleInputKeepsValid(cfg, s, input, now);
    HandleInputSameTx(s, input, now);
    HandleInputKeepsQueue(s, input, now);
    QueueRetriesKeepsValid(cfg, s1, now);
    var s2 := QueueRetries(s1, now);
    MarkSameTx(s1, now);
    CheckAgeKeepsValid(cfg, s2, now);
    QueueRetriesKeepsQueue(cfg, s1, now);
    ResolveKeepsQueue(cfg, CheckAge(cfg, s2, now), now, wall);
  }

  /** The pacer finishes every frame: from a state in which it is busy, it is idle again after at most Left of its
      blocks, which is 2 * count + 12 at the start of a frame of count packets. */
  lemma {:induction false} PacerFinishes(cfg: Ctl.Config, session: u64, steps: seq<Step>, states: seq<Sender>, m: nat,
                                         n: nat)
    requires Ctl.ValidConfig(cfg) && IsRun(cfg, session, steps, states) && m <= n <= |steps| < |states|
    requires forall k :: m <= k < n ==> !states[k].pacer.PacerIdle?
    ensures 0 <= Left(states[n].pacer) && Blocks(steps[m..n]) + Left(states[n].pacer) <= Left(states[m].pacer)
    decreases n
  {
    hide IsRun, SendInv, Next, ValidStep, ValidSender, QueueInv;
    if n == m {
      RunStateValid(cfg, session, steps, states, n);
      LeftIsNat(cfg, states[n]);
    } else {
      PacerFinishes(cfg, session, steps, states, m, n - 1);
      assert steps[m..n][..n - 1 - m] == steps[m..n - 1];
      RunStep(cfg, session, steps, states, n - 1);
      RunKeepsSendInv(cfg, session, steps, states, n - 1);
      QueueOfSends(states[n - 1]);
      if steps[n - 1].Pace? {
        PacingHolds(cfg, states[n - 1]);
        PaceProgresses(states[n - 1], steps[n - 1].now, steps[n - 1].running);
        PaceIsStep(cfg, states[n - 1], steps[n - 1]);
      } else {
        OnlyPacingMoves(cfg, states[n - 1], steps[n - 1]);
      }
    }
  }

  lemma PaceIsStep(cfg: Ctl.Config, s: Sender, step: Step)
    requires ValidSender(cfg, s) && step.Pace?
    ensures Next(cfg, s, step) == PacerStep(s, step.now, step.running)
  {
    hide ValidSender, PacerStep;
  }

  lemma LeftIsNat(cfg: Ctl.Config, s: Sender)
    requires ValidSender(cfg, s)
    ensures 0 <= Left(s.pacer)
  {
    hide ValidFrame, IdsRise, Runs.CtlInv;
  }
}
