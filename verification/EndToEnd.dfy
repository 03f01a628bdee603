/** From the sender's frames to the receiver's decoder: what the network may lose, repeat or reorder on the way. */
module EndToEnd {
  import opened Bytes
  import opened Protocol
  import opened Reassembly
  import opened Packetizer
  import Ctl = Controller
  import Sender
  import SenderRuns
  import opened SenderWire
  import opened Receiver
  import opened ReceiverPlayout
  import opened ReceiverAcks

  // ----- One frame -----

  /** The arrival that a packet of a frame amounts to; probes carry no data. */
  ghost function ArrivalsOf(d: Datagram): set<Arrival> {
    if d.h.flags == FEC then {ParityArrives(d.h.fecGroup)}
    else if d.h.flags & PROBE == 0 then {DataArrives(d.h.packetId)}
    else {}
  }

  ghost predicate Sendable(arrived: set<Arrival>, count: nat) {
    forall a :: a in arrived ==>
      match a
      case DataArrives(pid) => pid < count
      case ParityArrives(group) => GroupStart(group) + 1 < count
  }

  ghost predicate SomeData(arrived: set<Arrival>) {
    exists pid: nat :: DataArrives(pid) in arrived
  }

  /** f is what the receiver makes of tx after these arrivals. */
  ghost predicate Rebuilding(f: RxFrame, tx: TxFrame, arrived: set<Arrival>) {
    && LegalTx(tx) && FrameOk(f) && f.size == |tx.bytes| && f.frameTime == tx.firstSent
    && ReassemblyInv(f, arrived, Chunks(tx.bytes)) && Sendable(arrived, PacketCount(|tx.bytes|))
    && (f.keyframe ==> tx.keyframe) && (SomeData(arrived) ==> f.keyframe == tx.keyframe)
  }

  /** Which branch of the packet handler a data packet takes. */
  lemma DataBranch(tx: TxFrame, pid: nat, attempt: u16, now: u64)
    requires LegalTx(tx) && pid < PacketCount(|tx.bytes|)
    ensures var d := DataPacket(tx, pid, attempt, now);
      && d.h.flags != FEC && d.h.flags & PROBE == 0 && d.h.flags != STREAM_INFO && d.h.packetId == pid
      && d.payload == Chunk(tx.bytes, pid) && (d.h.flags & KEYFRAME != 0 <==> tx.keyframe)
  {
    var flags := DataFlags(pid, PacketCount(|tx.bytes|), tx.keyframe);
    assert flags & PROBE == 0 && flags & FEC == 0 && flags & STREAM_INFO == 0;
    assert flags & KEYFRAME != 0 <==> tx.keyframe;
  }

  lemma ParityBranch(tx: TxFrame, group: nat, now: u64)
    requires LegalTx(tx) && GroupStart(group) < PacketCount(|tx.bytes|)
    ensures var d := ParityPacket(tx, group, now);
      && d.h.flags == FEC && d.h.fecGroup == group && d.payload == Parity(Chunks(tx.bytes), group)
      && d.h.flags & KEYFRAME == 0
  {
  }

  lemma ProbeBranch(tx: TxFrame, i: nat, now: u64)
    requires LegalTx(tx) && i < N_PROBE
    ensures var d := ProbePacket(tx, i, now); d.h.flags == PROBE && d.h.flags & PROBE != 0 && d.h.flags & KEYFRAME == 0
  {
  }

  lemma StoreDataRebuilds(f: RxFrame, tx: TxFrame, arrived: set<Arrival>, pid: nat)
    requires Rebuilding(f, tx, arrived) && pid < PacketCount(|tx.bytes|) && pid * LOAD_SZ < |tx.bytes|
    ensures Rebuilding(StoreData(f, pid, Chunk(tx.bytes, pid), tx.keyframe).0, tx, arrived + {DataArrives(pid)})
  {
    hide Recovered, WellFormed, Chunk, PacketCount, GroupInv;
    var cs := Chunks(tx.bytes);
    assert cs[pid] == Chunk(tx.bytes, pid);
    hide Chunks;
    var f1 := f.(keyframe := f.keyframe || tx.keyframe);
    OtherFields(f, f1, arrived, cs);
    ReceiveStep(f1, DataArrives(pid), arrived, cs);
    var f2 := WithPayload(f1, pid, cs[pid]);
    RecoveredShape(f2, pid / FEC_K);
    assert DataArrives(pid) in arrived + {DataArrives(pid)};
  }

  /** Reassembly does not look at the other fields of the frame. */
  lemma OtherFields(f: RxFrame, g: RxFrame, arrived: set<Arrival>, cs: seq<seq<byte>>)
    requires Uniform(cs) && WellFormed(f) && ReassemblyInv(f, arrived, cs)
    requires g.payloads == f.payloads && g.parity == f.parity && g.received == f.received
    ensures WellFormed(g) && ReassemblyInv(g, arrived, cs)
  {
    forall group: nat
      ensures GroupInv(g, group, arrived, cs)
    {
      assert GroupInv(f, group, arrived, cs);
    }
  }

  lemma StoreParityRebuilds(f: RxFrame, tx: TxFrame, arrived: set<Arrival>, group: nat)
    requires Rebuilding(f, tx, arrived) && GroupStart(group) + 1 < PacketCount(|tx.bytes|)
    ensures Rebuilding(StoreParity(f, group, Parity(Chunks(tx.bytes), group)).0, tx, arrived + {ParityArrives(group)})
  {
    hide Recovered, WellFormed, Chunks, PacketCount, GroupInv, Parity;
    var cs := Chunks(tx.bytes);
    ReceiveStep(f, ParityArrives(group), arrived, cs);
    var f1 := WithParity(f, group, Parity(cs, group));
    RecoveredShape(f1, group);
    if SomeData(arrived + {ParityArrives(group)}) {
      var pid: nat :| DataArrives(pid) in arrived + {ParityArrives(group)};
      assert DataArrives(pid) in arrived;
    }
  }

  /** A genuine packet moves the receiver's frame on to what the larger set of arrivals determines. */
  lemma StoreRebuilds(f: RxFrame, tx: TxFrame, arrived: set<Arrival>, d: Datagram)
    requires Rebuilding(f, tx, arrived) && Genuine(tx, d)
    ensures d.Accepted() && d.h.flags != STREAM_INFO && f.Matches(d.h)
    ensures Rebuilding(Store(f, d).0, tx, arrived + ArrivalsOf(d))
  {
    hide Rebuilding, DataPacket, ParityPacket, ProbePacket, StoreData, StoreParity, HeaderAccepted, FrameOk;
    GenuineAccepted(tx, d);
    RebuildingParts(f, tx, arrived);
    if pid: nat, attempt: u16, now: u64 :|
      pid < PacketCount(|tx.bytes|) && ClockReading(now) && d == DataPacket(tx, pid, attempt, now)
    {
      DataBranch(tx, pid, attempt, now);
      PacketCountExact(|tx.bytes|);
      StoreDataRebuilds(f, tx, arrived, pid);
    } else if group: nat, now: u64 :|
      GroupStart(group) + 1 < PacketCount(|tx.bytes|) && ClockReading(now) && d == ParityPacket(tx, group, now)
    {
      ParityBranch(tx, group, now);
      StoreParityRebuilds(f, tx, arrived, group);
    } else {
      var i: nat, now: u64 :| i < N_PROBE && ClockReading(now) && d == ProbePacket(tx, i, now);
      ProbeBranch(tx, i, now);
      assert arrived + {} == arrived;
    }
  }

  lemma RebuildingParts(f: RxFrame, tx: TxFrame, arrived: set<Arrival>)
    requires Rebuilding(f, tx, arrived)
    ensures LegalTx(tx) && FrameOk(f) && f.size == |tx.bytes| && f.frameTime == tx.firstSent
  {
  }

  lemma FlagsOfGenuine(tx: TxFrame, d: Datagram)
    requires Genuine(tx, d)
    ensures d.h.flags & KEYFRAME != 0 ==> tx.keyframe
    ensures d.h.flags != STREAM_INFO
  {
    hide DataPacket, ParityPacket, ProbePacket, PacketCount;
    if pid: nat, attempt: u16, now: u64 :|
      pid < PacketCount(|tx.bytes|) && ClockReading(now) && d == DataPacket(tx, pid, attempt, now)
    {
      DataBranch(tx, pid, attempt, now);
    } else if group: nat, now: u64 :|
      GroupStart(group) + 1 < PacketCount(|tx.bytes|) && ClockReading(now) && d == ParityPacket(tx, group, now)
    {
      ParityBranch(tx, group, now);
    } else {
      var i: nat, now: u64 :| i < N_PROBE && ClockReading(now) && d == ProbePacket(tx, i, now);
      ProbeBranch(tx, i, now);
    }
  }

  lemma NewFrameRebuilds(tx: TxFrame, d: Datagram, now: u64)
    requires Genuine(tx, d)
    ensures Rebuilding(NewFrame(d.h, now), tx, {})
  {
    hide HeaderAccepted, Chunks;
    GenuineAccepted(tx, d);
    FlagsOfGenuine(tx, d);
    hide Genuine;
    NewFrameWellFormed(d.h, now);
    NothingArrived(NewFrame(d.h, now), Chunks(tx.bytes));
    hide ReassemblyInv, WellFormed;
  }

  /** Completeness is a matter of which packets arrived, and a complete frame is the sender's, byte for byte. */
  lemma CompleteIsSent(f: RxFrame, tx: TxFrame, arrived: set<Arrival>)
    requires Rebuilding(f, tx, arrived)
    ensures f.Complete() <==>
              forall i: nat :: i < PacketCount(|tx.bytes|) ==> Deliverable(arrived, PacketCount(|tx.bytes|), i)
    ensures f.Complete() ==>
              AssembleFirst(f.payloads, |f.payloads|, f.size) == tx.bytes && f.keyframe == tx.keyframe
  {
    var cs := Chunks(tx.bytes);
    PacketCountExact(|tx.bytes|);
    CountPresentAll(f.payloads);
    forall i: nat | i < |cs|
      ensures f.payloads[i] == if Deliverable(arrived, |cs|, i) then cs[i] else []
    {
      assert GroupInv(f, i / FEC_K, arrived, cs) && InGroup(i, i / FEC_K, |cs|);
    }
    hide Deliverable, PacketCount, Chunks, CountPresent;
    if f.Complete() {
      assert f.payloads == cs;
      AssembleChunks(tx.bytes);
      FirstArrival(arrived, |cs|);
    }
  }

  ghost predicate AllDeliverable(tx: TxFrame, arrived: set<Arrival>) {
    && |tx.bytes| < TWO32
    && forall i: nat :: i < PacketCount(|tx.bytes|) ==> Deliverable(arrived, PacketCount(|tx.bytes|), i)
  }

  lemma DeliverableGrows(tx: TxFrame, arrived: set<Arrival>, more: set<Arrival>)
    requires AllDeliverable(tx, arrived) && arrived <= more
    ensures AllDeliverable(tx, more)
  {
    forall i: nat | i < PacketCount(|tx.bytes|)
      ensures Deliverable(more, PacketCount(|tx.bytes|), i)
    {
      assert Deliverable(arrived, PacketCount(|tx.bytes|), i);
    }
  }

  /** A frame of one packet needs that packet; a larger one cannot be rebuilt from parity alone. */
  lemma FirstArrival(arrived: set<Arrival>, count: nat)
    requires count > 0 && Sendable(arrived, count) && Deliverable(arrived, count, 0)
    ensures SomeData(arrived)
  {
    if DataArrives(0) !in arrived {
      assert ParityArrives(0) in arrived;
      assert InGroup(1, 0, count);
    }
  }

  function StoreAll(f: RxFrame, ds: seq<Datagram>): (r: RxFrame)
    requires FrameOk(f) && forall d :: d in ds ==> d.Accepted() && d.h.flags != STREAM_INFO
    ensures FrameOk(r)
  {
    if ds == [] then f else Store(StoreAll(f, ds[..|ds| - 1]), ds[|ds| - 1]).0
  }

  ghost function AllArrivals(ds: seq<Datagram>): set<Arrival> {
    if ds == [] then {} else AllArrivals(ds[..|ds| - 1]) + ArrivalsOf(ds[|ds| - 1])
  }

  lemma {:induction false} StoreAllRebuilds(f: RxFrame, tx: TxFrame, ds: seq<Datagram>)
    requires Rebuilding(f, tx, {}) && forall d :: d in ds ==> Genuine(tx, d)
    ensures forall d :: d in ds ==> d.Accepted() && d.h.flags != STREAM_INFO
    ensures Rebuilding(StoreAll(f, ds), tx, AllArrivals(ds))
  {
    hide Rebuilding, Genuine, Store, HeaderAccepted, FrameOk;
    RebuildingParts(f, tx, {});
    forall d | d in ds
      ensures d.Accepted() && d.h.flags != STREAM_INFO
    {
      GenuineAccepted(tx, d);
      FlagsOfGenuine(tx, d);
    }
    if ds != [] {
      var before, last := ds[..|ds| - 1], ds[|ds| - 1];
      StoreAllRebuilds(f, tx, before);
      StoreRebuilds(StoreAll(f, before), tx, AllArrivals(before), last);
    }
  }

  /** Any sequence of a frame's packets, first transmissions, retransmissions, parity and probes, in any order, with
      repetitions and gaps, completes the frame exactly when each data packet is there or its group's parity and other
      packets are; and then the receiver holds the sender's bytes. */
  lemma FrameSurvives(tx: TxFrame, first: Datagram, now: u64, ds: seq<Datagram>)
    requires Genuine(tx, first) && forall d :: d in ds ==> Genuine(tx, d)
    ensures FrameOk(NewFrame(first.h, now)) && forall d :: d in ds ==> d.Accepted() && d.h.flags != STREAM_INFO
    ensures var f := StoreAll(NewFrame(first.h, now), ds);
      && (f.Complete() <==> forall i: nat :: i < PacketCount(|tx.bytes|) ==>
                              Deliverable(AllArrivals(ds), PacketCount(|tx.bytes|), i))
      && (f.Complete() ==> AssembleFirst(f.payloads, |f.payloads|, f.size) == tx.bytes && f.keyframe == tx.keyframe)
  {
    hide Rebuilding, Genuine, StoreAll, AllArrivals, Deliverable, FrameOk;
    NewFrameRebuilds(tx, first, now);
    RebuildingParts(NewFrame(first.h, now), tx, {});
    StoreAllRebuilds(NewFrame(first.h, now), tx, ds);
    CompleteIsSent(StoreAll(NewFrame(first.h, now), ds), tx, AllArrivals(ds));
  }

  // ----- The whole receiver -----

  /** What was sent in a session, and the receiver's inputs so far. */
  datatype Exchange = Exchange(sent: Sent, session: u64, inputs: seq<Input>)

  /** The packets of a frame among some inputs. */
  ghost function ArrivedIn(inputs: seq<Input>, session: u64, id: u32): set<Arrival> {
    if inputs == [] then {}
    else
      var input := inputs[|inputs| - 1];
      var before := ArrivedIn(inputs[..|inputs| - 1], session, id);
      if input.Bytes? && Parse(input.bytes).Some?
         && Parse(input.bytes).value.h.session == session && Parse(input.bytes).value.h.frameId == id
      then before + ArrivalsOf(Parse(input.bytes).value) else before
  }

  lemma ArrivedLast(inputs: seq<Input>, session: u64, id: u32)
    requires inputs != []
    ensures ArrivedIn(inputs[..|inputs| - 1], session, id) <= ArrivedIn(inputs, session, id)
    ensures var input := inputs[|inputs| - 1];
      input.Bytes? && Parse(input.bytes).Some?
      && Parse(input.bytes).value.h.session == session && Parse(input.bytes).value.h.frameId == id
      ==> ArrivalsOf(Parse(input.bytes).value) <= ArrivedIn(inputs, session, id)
  {
    hide Parse, ArrivalsOf;
  }

  /** The entry is a frame that was sent, rebuilt from packets that came in. */
  ghost predicate EntryIsSent(e: Entry, x: Exchange) {
    && e.id in x.sent
    && exists arrived: set<Arrival> ::
         Rebuilding(e.frame, x.sent[e.id], arrived) && arrived <= ArrivedIn(x.inputs, x.session, e.id)
  }

  ghost predicate FramesAreSent(s: Receiver, x: Exchange) {
    s.session == x.session ==> forall i :: 0 <= i < |s.frames| ==> EntryIsSent(s.frames[i], x)
  }

  /** Frames of this session reach the decoder as they were sent. */
  ghost predicate DecodesAreSent(trace: seq<Playback>, sent: Sent, session: u64) {
    forall e :: e in trace && e.Decode? && e.session == session ==>
      e.id in sent && e.bytes == sent[e.id].bytes && e.keyframe == sent[e.id].keyframe
  }

  /** An ACK that reports a frame complete. */
  predicate ReportsComplete(a: RecvAck, session: u64) { a.session == session && a.flags & FRAME_COMPLETE != 0 }

  /** What ACKs report complete can be rebuilt from what came in. */
  ghost predicate ReportsAreTrue(acks: seq<RecvAck>, x: Exchange) {
    forall a :: a in acks && ReportsComplete(a, x.session) ==>
      a.frameId in x.sent && AllDeliverable(x.sent[a.frameId], ArrivedIn(x.inputs, x.session, a.frameId))
  }

  ghost predicate IntactInv(s: Receiver, x: Exchange) {
    && ValidFrames(s.frames) && FramesAreSent(s, x)
    && DecodesAreSent(s.trace, x.sent, x.session) && ReportsAreTrue(s.acks, x)
  }

  lemma EntryMore(e: Entry, x: Exchange, input: Input)
    requires EntryIsSent(e, x)
    ensures EntryIsSent(e, x.(inputs := x.inputs + [input]))
  {
    hide Rebuilding, ArrivedIn;
    var all := x.inputs + [input];
    assert all[..|all| - 1] == x.inputs;
    ArrivedLast(all, x.session, e.id);
  }

  /** More inputs make nothing false. */
  lemma MoreInputs(s: Receiver, x: Exchange, input: Input)
    requires IntactInv(s, x)
    ensures IntactInv(s, x.(inputs := x.inputs + [input]))
  {
    hide ValidFrames, EntryIsSent, DecodesAreSent, AllDeliverable, ArrivedIn, ReportsComplete;
    var all := x.inputs + [input];
    assert all[..|all| - 1] == x.inputs;
    forall a | a in s.acks && ReportsComplete(a, x.session)
      ensures AllDeliverable(x.sent[a.frameId], ArrivedIn(all, x.session, a.frameId))
    {
      ArrivedLast(all, x.session, a.frameId);
      DeliverableGrows(x.sent[a.frameId], ArrivedIn(x.inputs, x.session, a.frameId),
                       ArrivedIn(all, x.session, a.frameId));
    }
    if s.session == x.session {
      forall i | 0 <= i < |s.frames|
        ensures EntryIsSent(s.frames[i], x.(inputs := all))
      {
        EntryMore(s.frames[i], x, input);
      }
    }
  }

  lemma StampRebuilds(f: RxFrame, tx: TxFrame, arrived: set<Arrival>, now: u64)
    requires Rebuilding(f, tx, arrived)
    ensures Rebuilding(f.(completedAt := now), tx, arrived)
  {
    OtherFields(f, f.(completedAt := now), arrived, Chunks(tx.bytes));
  }

  lemma NewIsSent(d: Datagram, now: u64, x: Exchange)
    requires d.h.frameId in x.sent && Genuine(x.sent[d.h.frameId], d)
    ensures EntryIsSent(Entry(d.h.frameId, NewFrame(d.h, now), false), x)
  {
    hide Genuine, Rebuilding, NewFrame;
    NewFrameRebuilds(x.sent[d.h.frameId], d, now);
    assert {} <= ArrivedIn(x.inputs, x.session, d.h.frameId);
  }

  lemma AdmitIsSent(s: Receiver, d: Datagram, now: u64, x: Exchange)
    requires FramesAreSent(s, x) && s.session == x.session
    requires d.h.frameId in x.sent && Genuine(x.sent[d.h.frameId], d)
    ensures FramesAreSent(Admit(s, d.h, now), x)
  {
    hide Genuine, EntryIsSent, Find, Allocated, LowerBound, NewFrame;
    NewIsSent(d, now, x);
  }

  /** What storing a genuine packet makes of an entry, and what its ACKs report. */
  lemma StoreIsSent(e: Entry, d: Datagram, now: u64, x: Exchange)
    requires EntryIsSent(e, x) && e.id == d.h.frameId && d.h.frameId in x.sent && Genuine(x.sent[d.h.frameId], d)
    requires ArrivalsOf(d) <= ArrivedIn(x.inputs, x.session, e.id)
    ensures d.Accepted() && d.h.flags != STREAM_INFO && FrameOk(e.frame)
    ensures var f := Store(e.frame, d).0;
      var f' := if f.Complete() && f.completedAt == 0 then f.(completedAt := now) else f;
      && EntryIsSent(e.(frame := f'), x)
      && (f'.Complete() ==> AllDeliverable(x.sent[e.id], ArrivedIn(x.inputs, x.session, e.id)))
  {
    hide Rebuilding, Genuine, Store, ArrivedIn, HeaderAccepted, ArrivalsOf, Deliverable, FrameOk;
    var tx := x.sent[e.id];
    var arrived :| Rebuilding(e.frame, tx, arrived) && arrived <= ArrivedIn(x.inputs, x.session, e.id);
    RebuildingParts(e.frame, tx, arrived);
    StoreRebuilds(e.frame, tx, arrived, d);
    var f := Store(e.frame, d).0;
    var f' := if f.Complete() && f.completedAt == 0 then f.(completedAt := now) else f;
    StampRebuilds(f, tx, arrived + ArrivalsOf(d), now);
    RebuildingParts(f', tx, arrived + ArrivalsOf(d));
    CompleteIsSent(f', tx, arrived + ArrivalsOf(d));
    if f'.Complete() {
      DeliverableGrows(tx, arrived + ArrivalsOf(d), ArrivedIn(x.inputs, x.session, e.id));
    }
    assert arrived + ArrivalsOf(d) <= ArrivedIn(x.inputs, x.session, e.id);
  }

  /** The ACKs for a packet report its frame complete only if it is. */
  lemma AcksReport(s: Receiver, d: Datagram, f: RxFrame, now: u64, recovered: Option<nat>)
    requires d.Accepted() && d.h.flags != STREAM_INFO
    ensures forall a :: a in AcksFor(s, d.h, f, now, recovered) && a.flags & FRAME_COMPLETE != 0 ==>
              a.frameId == d.h.frameId && f.Complete()
  {
    hide HeaderAccepted;
    FlagsOfAck(RECOVERED, f.Complete());
    if d.h.flags != FEC {
      AcceptedFlags(d);
      FlagsOfAck(d.h.flags, f.Complete());
    }
  }

  lemma PacketReports(s: Receiver, d: Datagram, now: u64, x: Exchange)
    requires IntactInv(s, x) && d.Accepted() && d.h.flags != STREAM_INFO
    requires s.session == x.session ==>
      && d.h.frameId in x.sent && Genuine(x.sent[d.h.frameId], d)
      && ArrivalsOf(d) <= ArrivedIn(x.inputs, x.session, d.h.frameId)
    ensures FramesAreSent(TakePacket(s, d, now), x) && ReportsAreTrue(TakePacket(s, d, now).acks, x)
  {
    hide Genuine, EntryIsSent, Find, Admit, Store, AcksFor, HeaderAccepted, FrameOk, AllDeliverable, ArrivedIn,
      ArrivalsOf;
    AdmitKeepsFrames(s, d, now);
    AdmitFrame(s, d.h, now);
    var s1 := Admit(s, d.h, now);
    if s.session == x.session {
      AdmitIsSent(s, d, now, x);
    }
    var i := Find(s1.frames, d.h.frameId);
    if i.Some? && s1.frames[i.value].frame.Matches(d.h) {
      var e := s1.frames[i.value];
      assert FrameOk(e.frame);
      var (f, recovered) := Store(e.frame, d);
      var f' := if f.Complete() && f.completedAt == 0 then f.(completedAt := now) else f;
      AcksReport(s1, d, f', now, recovered);
      AcksOfSession(s1, d.h, f', now, recovered);
      if s.session == x.session {
        StoreIsSent(e, d, now, x);
      }
    }
  }

  lemma AcksOfSession(s: Receiver, h: PktHeader, f: RxFrame, now: u64, recovered: Option<nat>)
    ensures forall a :: a in AcksFor(s, h, f, now, recovered) ==> a.session == s.session
  {
  }

  lemma PacketIsSent(s: Receiver, d: Datagram, now: u64, x: Exchange)
    requires IntactInv(s, x) && d.Accepted() && d.h.flags != STREAM_INFO
    requires s.session == x.session ==>
      && d.h.frameId in x.sent && Genuine(x.sent[d.h.frameId], d)
      && ArrivalsOf(d) <= ArrivedIn(x.inputs, x.session, d.h.frameId)
    ensures IntactInv(TakePacket(s, d, now), x)
  {
    hide Genuine, FramesAreSent, ReportsAreTrue, TakePacket, HeaderAccepted, FrameOk, ArrivedIn, ArrivalsOf;
    PacketReports(s, d, now, x);
    PacketKeepsFrames(s, d, now);
    PacketFrame(s, d, now);
  }

  /** The datagram is the last input. */
  ghost predicate JustCame(d: Datagram, x: Exchange) {
    && x.inputs != [] && x.inputs[|x.inputs| - 1].Bytes?
    && Parse(x.inputs[|x.inputs| - 1].bytes) == Some(d)
  }

  lemma InSessionIsSent(s: Receiver, d: Datagram, now: u64, x: Exchange)
    requires IntactInv(s, x) && d.Accepted() && d.h.session == s.session && FromSession(d, x.sent, x.session)
    requires JustCame(d, x)
    ensures IntactInv(TakeInSession(s, d, now), x)
  {
    hide IntactInv, Genuine, FromSent, TakePacket, TakeStreamInfo, ArrivedIn, ArrivalsOf, Parse;
    var s1 := s.(wireBytes := (s.wireBytes + d.Size()) % TWO64);
    CountingKeeps(s, s1.wireBytes, x);
    if d.h.flags == STREAM_INFO {
      StreamInfoIsSent(s1, d.payload, x);
    } else {
      hide HeaderAccepted;
      if s.session == x.session {
        NotStreamInfo(d, x.sent, x.session);
        ArrivedLast(x.inputs, x.session, d.h.frameId);
      }
      PacketIsSent(s1, d, now, x);
    }
  }

  lemma CountingKeeps(s: Receiver, wireBytes: u64, x: Exchange)
    requires IntactInv(s, x)
    ensures IntactInv(s.(wireBytes := wireBytes), x) && ValidFrames(s.frames)
  {
    hide EntryIsSent, ValidFrames;
  }

  lemma StreamInfoIsSent(s: Receiver, payload: seq<byte>, x: Exchange)
    requires IntactInv(s, x) && |payload| == 8
    ensures IntactInv(TakeStreamInfo(s, payload), x)
  {
    hide EntryIsSent, ValidFrames, ReportsAreTrue;
  }

  /** What arrives under the session is what its sender put on the wire. */
  ghost predicate FromSession(d: Datagram, sent: Sent, session: u64) {
    d.h.session == session ==> FromSent(sent, session, d)
  }

  lemma NotStreamInfo(d: Datagram, sent: Sent, session: u64)
    requires FromSent(sent, session, d) && d.h.flags != STREAM_INFO
    ensures d.h.frameId in sent && Genuine(sent[d.h.frameId], d)
  {
    hide Genuine;
  }

  ghost predicate InputFromSession(input: Input, sent: Sent, session: u64) {
    input.Bytes? && Parse(input.bytes).Some? ==> FromSession(Parse(input.bytes).value, sent, session)
  }

  lemma InputIsSent(s: Receiver, input: Input, now: u64, x: Exchange)
    requires IntactInv(s, x) && InputFromSession(input, x.sent, x.session)
    requires x.inputs != [] && x.inputs[|x.inputs| - 1] == input
    ensures IntactInv(TakeInput(s, input, now), x)
  {
    hide Parse, TakeInSession, FromSession, FrameOk, EntryIsSent, HeaderAccepted, ReportsAreTrue;
    if input.Bytes? && Parse(input.bytes).Some? {
      var d := Parse(input.bytes).value;
      WireCanonical(input.bytes);
      var retired := if s.session != 0 then s.retired + {s.session} else s.retired;
      InSessionIsSent(Open(s.(retired := retired), d.h.session, input.from), d, now, x);
      if s.session == d.h.session {
        InSessionIsSent(s, d, now, x);
      }
    }
  }

  lemma RequestReports(s: Receiver, id: u32, now: u64, x: Exchange)
    requires ReportsAreTrue(s.acks, x)
    ensures ReportsAreTrue(RequestKey(s, id, now).acks, x)
  {
    hide AllDeliverable, ArrivedIn;
    assert KEY_REQUEST & FRAME_COMPLETE == 0;
  }

  lemma ShowIsSent(s: Receiver, e: Entry, now: u64, decode: u32 -> Outcome, x: Exchange)
    requires DecodesAreSent(s.trace, x.sent, x.session) && e.frame.Complete() && ReportsAreTrue(s.acks, x)
    requires s.session == x.session ==> EntryIsSent(e, x)
    ensures var s' := Show(s, e, now, decode);
      DecodesAreSent(s'.trace, x.sent, x.session) && ReportsAreTrue(s'.acks, x)
  {
    hide AssembleFirst, Rebuilding, RequestKey, ReportsAreTrue, ArrivedIn, Deliverable;
    forall r: Receiver | r.acks == s.acks
      ensures ReportsAreTrue(RequestKey(r, e.id, now).acks, x) && RequestKey(r, e.id, now).trace == r.trace
    {
      RequestReports(r, e.id, now, x);
      RequestTrace(r, e.id, now);
    }
    if s.session == x.session {
      var arrived :| Rebuilding(e.frame, x.sent[e.id], arrived);
      CompleteIsSent(e.frame, x.sent[e.id], arrived);
    }
  }

  lemma RequestTrace(s: Receiver, id: u32, now: u64)
    ensures RequestKey(s, id, now).trace == s.trace
  {
  }

  lemma MarkedIsSent(s: Receiver, s': Receiver, i: nat, x: Exchange)
    requires FramesAreSent(s, x) && i < |s.frames| && s'.session == s.session
    requires s'.frames == s.frames[i := s.frames[i].(played := true)]
    ensures FramesAreSent(s', x)
  {
    hide Rebuilding, ArrivedIn;
    if s.session == x.session {
      assert EntryIsSent(s.frames[i], x);
      assert EntryIsSent(s'.frames[i], x);
    }
    hide EntryIsSent;
  }

  lemma DeliverOneShows(s: Receiver, i: nat, now: u64, decode: u32 -> Outcome, x: Exchange)
    requires FramesAreSent(s, x) && DecodesAreSent(s.trace, x.sent, x.session) && ReportsAreTrue(s.acks, x)
    requires i < |s.frames| && DeliverOne(s, i, now, decode).Some?
    ensures var s' := DeliverOne(s, i, now, decode).value;
      DecodesAreSent(s'.trace, x.sent, x.session) && ReportsAreTrue(s'.acks, x)
  {
    hide EntryIsSent, DecodesAreSent, ReportsAreTrue, Show, Waited;
    if s.frames[i].frame.Complete() {
      ShowIsSent(SkipTo(s, i), s.frames[i], now, decode, x);
    }
  }

  lemma DeliverOneIsSent(s: Receiver, i: nat, now: u64, decode: u32 -> Outcome, x: Exchange)
    requires IntactInv(s, x) && i < |s.frames| && DeliverOne(s, i, now, decode).Some?
    ensures IntactInv(DeliverOne(s, i, now, decode).value, x)
  {
    DeliverOneFrames(s, i, now, decode);
    assert s.frames[i].id < UINT32_MAX;
    hide DecodesAreSent, ReportsAreTrue, FramesAreSent, ValidFrames, DeliverOne;
    DeliverOneMarks(s, i, now, decode);
    DeliverOneSession(s, i, now, decode);
    DeliverOneShows(s, i, now, decode, x);
    MarkedIsSent(s, DeliverOne(s, i, now, decode).value, i, x);
  }

  lemma {:induction false} DeliverIsSent(s: Receiver, now: u64, decode: u32 -> Outcome, x: Exchange)
    requires IntactInv(s, x)
    ensures IntactInv(Deliver(s, now, decode), x)
    decreases |s.frames| - LowerBound(s.frames, s.next)
  {
    hide DeliverOne, Front, LowerBound, ValidFrames, FramesAreSent, DecodesAreSent, ReportsAreTrue;
    if s.frames != [] && (s.headless || s.decoder) {
      var i := Front(s, now);
      if i.Some? && DeliverOne(s, i.value, now, decode).Some? {
        DeliverOneFrames(s, i.value, now, decode);
        DeliverOneIsSent(s, i.value, now, decode, x);
        DeliverIsSent(DeliverOne(s, i.value, now, decode).value, now, decode, x);
      }
    }
  }

  lemma ExpireIsSent(s: Receiver, now: u64, x: Exchange)
    requires IntactInv(s, x)
    ensures IntactInv(Expire(s, now), x)
  {
    hide FrameOk, Stale, DecodesAreSent, EntryIsSent, SweepAll, ReportsAreTrue;
    SweepKeeps(s.frames, now, s.next, s.needKey);
    var kept := SweepAll(s.frames, now, s.next, s.needKey).kept;
    if s.session == x.session {
      forall i | 0 <= i < |kept|
        ensures EntryIsSent(kept[i], x)
      {
        assert kept[i] in s.frames;
      }
    }
  }

  lemma PassIsSent(s: Receiver, step: Step, x: Exchange)
    requires IntactInv(s, x) && InputFromSession(step.input, x.sent, x.session)
    requires x.inputs != [] && x.inputs[|x.inputs| - 1] == step.input
    ensures IntactInv(Pass(s, step.input, step.now, step.decode), x)
  {
    hide ValidFrames, FramesAreSent, DecodesAreSent, TakeInput, Deliver, Expire, InputFromSession, ReportsAreTrue;
    if !s.halted {
      InputIsSent(s, step.input, step.now, x);
      var s1 := TakeInput(s, step.input, step.now);
      if !s1.halted {
        DeliverIsSent(s1, step.now, step.decode, x);
        ExpireIsSent(Deliver(s1, step.now, step.decode), step.now, x);
      }
    }
  }

  ghost function Inputs(steps: seq<Step>, n: nat): (inputs: seq<Input>)
    requires n <= |steps|
    ensures |inputs| == n
  {
    if n == 0 then [] else Inputs(steps, n - 1) + [steps[n - 1].input]
  }

  /** In every run of the receiver, every frame it decodes in the session is one that was sent in it, byte for byte
      and with the sender's keyframe mark, whatever was lost, repeated, reordered or rebuilt from parity; and it
      reports a frame complete only if every packet of it came in or can be rebuilt from what did. */
  lemma {:induction false} RunIsSent(headless: bool, steps: seq<Step>, states: seq<Receiver>, n: nat, sent: Sent,
                                     session: u64)
    requires IsRun(headless, steps, states) && n < |states| && session != 0
    requires forall i :: 0 <= i < |steps| ==> InputFromSession(steps[i].input, sent, session)
    ensures IntactInv(states[n], Exchange(sent, session, Inputs(steps, n)))
    decreases n
  {
    hide IsRun, IntactInv, Pass, ValidFrames, InputFromSession;
    RunStart(headless, steps, states);
    if n == 0 {
      StartsIntact(headless, sent, session);
    } else {
      RunIsSent(headless, steps, states, n - 1, sent, session);
      var step, x := steps[n - 1], Exchange(sent, session, Inputs(steps, n - 1));
      MoreInputs(states[n - 1], x, step.input);
      RunStep(headless, steps, states, n - 1);
      PassIsSent(states[n - 1], step, x.(inputs := x.inputs + [step.input]));
    }
  }

  lemma StartsIntact(headless: bool, sent: Sent, session: u64)
    ensures IntactInv(Init(headless), Exchange(sent, session, []))
  {
  }

  // ----- Sender, network and receiver -----

  /** The network delivers nothing under the session that the sender did not put on the wire. */
  ghost predicate Delivers(wire: seq<Datagram>, session: u64, input: Input) {
    input.Bytes? && Parse(input.bytes).Some? && Parse(input.bytes).value.h.session == session ==>
      Parse(input.bytes).value in wire
  }

  lemma NetworkIsHonest(sent: Sent, session: u64, wire: seq<Datagram>, rxSteps: seq<Step>)
    requires WireHolds(sent, session, wire)
    requires forall i :: 0 <= i < |rxSteps| ==> Delivers(wire, session, rxSteps[i].input)
    ensures forall i :: 0 <= i < |rxSteps| ==> InputFromSession(rxSteps[i].input, sent, session)
  {
    hide FromSent, Parse;
    forall i | 0 <= i < |rxSteps|
      ensures InputFromSession(rxSteps[i].input, sent, session)
    {
      assert Delivers(wire, session, rxSteps[i].input);
    }
  }

  /** Any run of the sender and any run of the receiver, with a network between them that may lose, repeat, delay and
      reorder datagrams and mix in other senders: whatever reaches the decoder in the session is a frame of the
      sender, and whatever the receiver reports complete in it can be rebuilt from what came in. */
  lemma FramesArriveIntact(cfg: Ctl.Config, session: u64, steps: seq<Sender.Step>, states: seq<Sender.Sender>,
                           headless: bool, rxSteps: seq<Step>, rxStates: seq<Receiver>, n: nat)
    requires Ctl.ValidConfig(cfg) && SenderRuns.IsRun(cfg, session, steps, states)
    requires IsRun(headless, rxSteps, rxStates) && n < |rxStates|
    requires forall i :: 0 <= i < |rxSteps| ==> Delivers(states[|steps|].wire, session, rxSteps[i].input)
    ensures |states| == |steps| + 1 && forall i :: 0 <= i < |steps| ==> states[i].pacing >= Ctl.GAMMA_P
    ensures var sent := SentUpTo(steps, states, |steps|);
      && DecodesAreSent(rxStates[n].trace, sent, session)
      && ReportsAreTrue(rxStates[n].acks, Exchange(sent, session, Inputs(rxSteps, n)))
  {
    hide IsRun, SenderRuns.IsRun, WireHolds, InputFromSession, Delivers, ReportsAreTrue, SentUpTo;
    SenderRuns.RunStart(cfg, session, steps, states);
    RunIsGenuine(cfg, session, steps, states, |steps|);
    var sent := SentUpTo(steps, states, |steps|);
    NetworkIsHonest(sent, session, states[|steps|].wire, rxSteps);
    RunIsSent(headless, rxSteps, rxStates, n, sent, session);
  }
}
