/** Which packet an ACK of the receiver answers, and that every packet it takes is answered, over every run. */
module ReceiverAnswers {
  import opened Bytes
  import opened Protocol
  import opened Reassembly
  import opened Receiver
  import opened ReceiverPlayout
  import opened ReceiverAcks

  // ----- One packet -----

  /** a answers datagram d: it names the datagram's packet and attempt and echoes its send time. */
  predicate IsAnswer(a: RecvAck, d: Datagram, now: u64) {
    && d.h.flags != STREAM_INFO && d.h.flags != FEC
    && a.session == d.h.session && a.frameId == d.h.frameId && a.packetId == d.h.packetId
    && a.retransSeq == d.h.retransSeq && a.echoedSend == d.h.sendTime && a.recvTime == now
    && (a.flags == d.h.flags || a.flags == d.h.flags | FRAME_COMPLETE)
  }

  /** a reports that packet pid of the datagram's frame was rebuilt from it; it echoes no send time. */
  predicate IsRecovery(a: RecvAck, d: Datagram, pid: nat, now: u64) {
    && d.h.flags != STREAM_INFO && a.session == d.h.session && a.frameId == d.h.frameId && a.packetId == pid
    && a.retransSeq == 0 && a.echoedSend == 0 && a.recvTime == now
    && (a.flags == RECOVERED || a.flags == RECOVERED | FRAME_COMPLETE)
  }

  predicate IsRequest(a: RecvAck, now: u64) { a.flags == KEY_REQUEST && a.recvTime == now }

  /** The flag and the time by which an ACK reports the state of its frame. */
  predicate Reports(a: RecvAck, f: RxFrame) {
    (a.flags & FRAME_COMPLETE != 0 <==> f.Complete()) && a.frameRecvTime == f.completedAt
  }

  /** The datagram is data packet pid itself. */
  predicate Own(d: Datagram, pid: nat) {
    d.h.flags != FEC && d.h.flags & PROBE == 0 && pid == d.h.packetId
  }

  /** Packet pid of the frame was absent and is there, though it is not what came in. */
  predicate Rebuilt(f: RxFrame, f': RxFrame, d: Datagram, pid: nat) {
    pid < |f.payloads| == |f'.payloads| && !Own(d, pid) && f.payloads[pid] == [] && f'.payloads[pid] != []
  }

  /** recover names the packet it rebuilt, if it did, and adds no other. */
  lemma RecoveredNames(f: RxFrame, group: nat)
    requires WellFormed(f)
    ensures var (f', r) := Recovered(f, group);
      && |f'.payloads| == |f.payloads|
      && forall pid :: 0 <= pid < |f.payloads| ==>
           (r == Some(pid) <==> f.payloads[pid] == [] && f'.payloads[pid] != [])
    ensures Recovered(f, group).1.Some? ==> Recovered(f, group).1.value < |f.payloads|
  {
    hide CountPresent;
    if group in f.parity {
      var lo, hi := GroupStart(group), GroupEnd(group, |f.payloads|);
      MissingOne(f.payloads, lo, hi);
      hide MissingIn;
    }
  }

  lemma StoreParityNames(f: RxFrame, d: Datagram)
    requires FrameOk(f) && |d.payload| == LOAD_SZ && d.h.flags == FEC
    ensures var (f', r) := StoreParity(f, d.h.fecGroup, d.payload);
      && |f'.payloads| == |f.payloads| && (r.Some? ==> r.value < |f.payloads|)
      && forall pid: nat :: r == Some(pid) <==> Rebuilt(f, f', d, pid)
  {
    hide Recovered, CountPresent;
    RecoveredNames(WithParity(f, d.h.fecGroup, d.payload), d.h.fecGroup);
  }

  lemma StoreDataNames(f: RxFrame, d: Datagram)
    requires FrameOk(f) && |d.payload| == LOAD_SZ && d.h.flags != FEC && d.h.flags & PROBE == 0
    ensures var (f', r) := StoreData(f, d.h.packetId, d.payload, d.h.flags & KEYFRAME != 0);
      && |f'.payloads| == |f.payloads| && (r.Some? ==> r.value < |f.payloads|)
      && forall pid: nat :: r == Some(pid) <==> Rebuilt(f, f', d, pid)
  {
    hide Recovered, CountPresent;
    var f1 := f.(keyframe := f.keyframe || d.h.flags & KEYFRAME != 0);
    RecoveredNames(WithPayload(f1, d.h.packetId, d.payload), d.h.packetId / FEC_K);
  }

  lemma StoreNames(f: RxFrame, d: Datagram)
    requires FrameOk(f) && d.Accepted() && d.h.flags != STREAM_INFO
    ensures var (f', r) := Store(f, d);
      && |f'.payloads| == |f.payloads| && (r.Some? ==> r.value < |f.payloads|)
      && forall pid: nat :: r == Some(pid) <==> Rebuilt(f, f', d, pid)
  {
    PayloadFits(d);
    hide HeaderAccepted, StoreParity, StoreData, FrameOk;
    if d.h.flags == FEC {
      StoreParityNames(f, d);
    } else if d.h.flags & PROBE == 0 {
      StoreDataNames(f, d);
    }
  }

  /** The frame a datagram names is held, with the size and time that it states. */
  ghost predicate Holds(s: Receiver, d: Datagram) {
    Find(s.frames, d.h.frameId).Some? && s.frames[Find(s.frames, d.h.frameId).value].frame.Matches(d.h)
  }

  /** The frame as it is held before the packet: the one under its id, or a new one. */
  function FrameBefore(s: Receiver, d: Datagram, now: u64): RxFrame {
    if Find(s.frames, d.h.frameId).Some? then s.frames[Find(s.frames, d.h.frameId).value].frame
    else NewFrame(d.h, now)
  }

  /** The ACKs that a packet of a held frame calls forth: one for each packet rebuilt from it, of which there is at
      most one, and then its own, unless it is a parity packet. */
  ghost predicate AnswersTo(more: seq<RecvAck>, d: Datagram, f: RxFrame, f': RxFrame, wireBytes: u64, now: u64) {
    && |more| == (if exists pid :: Rebuilt(f, f', d, pid) then 1 else 0) + (if d.h.flags == FEC then 0 else 1)
    && (forall a :: a in more ==> Reports(a, f') && a.wireBytes == wireBytes)
    && (forall pid :: Rebuilt(f, f', d, pid) ==> IsRecovery(more[0], d, pid, now))
    && (d.h.flags != FEC ==> IsAnswer(more[|more| - 1], d, now))
  }

  lemma AnswerParts(s: Receiver, d: Datagram, f': RxFrame, now: u64)
    requires d.Accepted() && d.h.flags != STREAM_INFO && d.h.flags != FEC && s.session == d.h.session
    ensures var a := AckFor(s, d.h, f', now, d.h.packetId, d.h.flags, d.h.sendTime, d.h.retransSeq);
      IsAnswer(a, d, now) && Reports(a, f') && a.wireBytes == s.wireBytes
  {
    AcceptedFlags(d);
    FlagsOfAck(d.h.flags, f'.Complete());
    NoFlag(d.h.flags);
  }

  lemma NoFlag(flags: byte)
    ensures flags | 0 == flags
  {
  }

  lemma RecoveryParts(s: Receiver, d: Datagram, f': RxFrame, now: u64, pid: nat)
    requires d.Accepted() && d.h.flags != STREAM_INFO && s.session == d.h.session && pid < TWO32
    ensures var a := AckFor(s, d.h, f', now, U32(pid), RECOVERED, 0, 0);
      IsRecovery(a, d, pid, now) && Reports(a, f') && a.wireBytes == s.wireBytes
  {
    FlagsOfAck(RECOVERED, f'.Complete());
    NoFlag(RECOVERED);
  }

  lemma AcksAnswer(s: Receiver, d: Datagram, f: RxFrame, f': RxFrame, now: u64, recovered: Option<nat>)
    requires d.Accepted() && d.h.flags != STREAM_INFO && s.session == d.h.session
    requires recovered.Some? ==> recovered.value < TWO32
    requires forall pid: nat :: recovered == Some(pid) <==> Rebuilt(f, f', d, pid)
    ensures AnswersTo(AcksFor(s, d.h, f', now, recovered), d, f, f', s.wireBytes, now)
  {
    hide HeaderAccepted, AckFor, IsAnswer, IsRecovery, Reports, Rebuilt;
    if recovered.Some? {
      RecoveryParts(s, d, f', now, recovered.value);
      assert Rebuilt(f, f', d, recovered.value);
    }
    if d.h.flags != FEC {
      AnswerParts(s, d, f', now);
    }
  }

  lemma FrameCount(f: RxFrame)
    requires FrameOk(f)
    ensures |f.payloads| < TWO32
  {
    PacketCountExact(f.size);
  }

  lemma InsertFinds(frames: seq<Entry>, e: Entry)
    requires ValidFrames(frames) && FrameOk(e.frame) && 0 < e.id < UINT32_MAX && Find(frames, e.id).None?
    ensures var i := LowerBound(frames, e.id); Find(Insert(frames, e), e.id) == Some(i) && Insert(frames, e)[i] == e
  {
    InsertKeeps(frames, e);
    hide FrameOk, Find;
    var all, i := Insert(frames, e), LowerBound(frames, e.id);
    assert all[i] == e;
  }

  /** The receiver takes a new frame exactly if it is not behind the play-out position, less than 256 ahead of it, and
      there is room for it among 256 frames and 16 MiB. */
  ghost predicate HasRoom(s: Receiver, d: Datagram) {
    && s.next <= d.h.frameId < s.next + WINDOW && |s.frames| < WINDOW
    && Allocated(s.frames) + d.h.frameBytes <= MAX_BYTES
  }

  lemma AdmitHolds(s: Receiver, d: Datagram, now: u64)
    requires ValidFrames(s.frames) && d.Accepted() && d.h.flags != STREAM_INFO
    ensures var s1 := Admit(s, d.h, now);
      var i := Find(s1.frames, d.h.frameId);
      && (i.Some? <==> Find(s.frames, d.h.frameId).Some? || HasRoom(s, d))
      && (i.Some? ==> s1.frames[i.value].frame == FrameBefore(s, d, now))
      && s1 == s.(frames := s1.frames)
  {
    PayloadFits(d);
    hide FrameOk, HeaderAccepted, Find, Allocated, LowerBound, Insert, ValidFrames;
    NewFrameWellFormed(d.h, now);
    if Find(s.frames, d.h.frameId).None? && HasRoom(s, d) {
      NewFrameOk(d, now);
      InsertFinds(s.frames, Entry(d.h.frameId, NewFrame(d.h, now), false));
    }
  }

  lemma NewFrameOk(d: Datagram, now: u64)
    requires d.Accepted() && d.h.flags != STREAM_INFO
    ensures FrameOk(NewFrame(d.h, now))
  {
    PayloadFits(d);
    NewFrameWellFormed(d.h, now);
  }

  lemma UpdateFinds(frames: seq<Entry>, id: u32, i: nat, e: Entry)
    requires ValidFrames(frames) && Find(frames, id) == Some(i) && e.id == id && FrameOk(e.frame)
    ensures Find(frames[i := e], id) == Some(i)
  {
    hide FrameOk, Find;
    assert frames[i := e][i].id == id;
  }

  /** A packet of the session is answered exactly if its frame is held afterwards, which it is if it was before or
      there is room for it. */
  lemma PacketIsAnswered(s: Receiver, d: Datagram, now: u64) returns (more: seq<RecvAck>)
    requires ValidFrames(s.frames) && d.Accepted() && d.h.flags != STREAM_INFO && s.session == d.h.session
    ensures var s' := TakePacket(s, d, now);
      && s'.acks == s.acks + more
      && (Holds(s', d) <==> Holds(s, d) || (Find(s.frames, d.h.frameId).None? && HasRoom(s, d)))
      && (if Holds(s', d)
          then AnswersTo(more, d, FrameBefore(s, d, now), s'.frames[Find(s'.frames, d.h.frameId).value].frame,
                         s.wireBytes, now)
          else more == [])
  {
    hide HeaderAccepted, Store, AcksFor, FrameOk, Find, Admit, HasRoom, AnswersTo, Rebuilt;
    AdmitHolds(s, d, now);
    AdmitKeepsFrames(s, d, now);
    var s1 := Admit(s, d.h, now);
    var i := Find(s1.frames, d.h.frameId);
    more := [];
    assert s.acks + [] == s.acks;
    if i.Some? {
      var e := s1.frames[i.value];
      assert FrameOk(e.frame);
      NewMatches(d, now);
      if e.frame.Matches(d.h) {
        more := HeldIsAnswered(s1, d, i.value, now);
      }
    }
  }

  lemma HeldIsAnswered(s: Receiver, d: Datagram, i: nat, now: u64) returns (more: seq<RecvAck>)
    requires ValidFrames(s.frames) && d.Accepted() && d.h.flags != STREAM_INFO && s.session == d.h.session
    requires Find(s.frames, d.h.frameId) == Some(i) && FrameOk(s.frames[i].frame) && s.frames[i].frame.Matches(d.h)
    ensures var (f, recovered) := Store(s.frames[i].frame, d);
      var f' := if f.Complete() && f.completedAt == 0 then f.(completedAt := now) else f;
      && more == AcksFor(s, d.h, f', now, recovered)
      && AnswersTo(more, d, s.frames[i].frame, f', s.wireBytes, now) && f'.Matches(d.h)
      && Find(s.frames[i := s.frames[i].(frame := f')], d.h.frameId) == Some(i)
  {
    hide HeaderAccepted, Store, AcksFor, Find, AnswersTo, Rebuilt;
    var e := s.frames[i];
    var (f, recovered) := Store(e.frame, d);
    var f' := if f.Complete() && f.completedAt == 0 then f.(completedAt := now) else f;
    StoreNames(e.frame, d);
    FrameCount(e.frame);
    StampedNames(e.frame, f, f', d, recovered);
    AcksAnswer(s, d, e.frame, f', now, recovered);
    more := AcksFor(s, d.h, f', now, recovered);
    StoredMatches(e.frame, f', d, now);
    UpdateFinds(s.frames, d.h.frameId, i, e.(frame := f'));
  }

  lemma NewMatches(d: Datagram, now: u64)
    ensures NewFrame(d.h, now).Matches(d.h)
  {
  }

  lemma StampedNames(f: RxFrame, g: RxFrame, g': RxFrame, d: Datagram, r: Option<nat>)
    requires g'.payloads == g.payloads && forall pid: nat :: r == Some(pid) <==> Rebuilt(f, g, d, pid)
    ensures forall pid: nat :: r == Some(pid) <==> Rebuilt(f, g', d, pid)
  {
    forall pid: nat
      ensures r == Some(pid) <==> Rebuilt(f, g', d, pid)
    {
      assert Rebuilt(f, g, d, pid) <==> Rebuilt(f, g', d, pid);
    }
  }

  lemma StoredMatches(f: RxFrame, f': RxFrame, d: Datagram, now: u64)
    requires FrameOk(f) && d.Accepted() && d.h.flags != STREAM_INFO && f.Matches(d.h)
    requires f' == Store(f, d).0 || f' == Store(f, d).0.(completedAt := now)
    ensures f'.Matches(d.h) && FrameOk(f')
  {
    PayloadFits(d);
    hide HeaderAccepted, Recovered;
    if d.h.flags == FEC {
      RecoveredShape(WithParity(f, d.h.fecGroup, d.payload), d.h.fecGroup);
    } else if d.h.flags & PROBE == 0 {
      var f1 := f.(keyframe := f.keyframe || d.h.flags & KEYFRAME != 0);
      RecoveredShape(WithPayload(f1, d.h.packetId, d.payload), d.h.packetId / FEC_K);
    }
  }

  // ----- Every ACK answers a packet -----

  /** The receiver holds packet pid of the frame that d names. */
  ghost predicate HasPacket(s: Receiver, d: Datagram, pid: nat) {
    Find(s.frames, d.h.frameId).Some? && pid < |HeldFrame(s, d).payloads| && HeldFrame(s, d).payloads[pid] != []
  }

  /** What is held under the datagram's frame id. */
  function HeldFrame(s: Receiver, d: Datagram): RxFrame
    requires Find(s.frames, d.h.frameId).Some?
  {
    s.frames[Find(s.frames, d.h.frameId).value].frame
  }

  /** The ACK is a keyframe request, or answers the datagram that is the pass's input, or reports a packet rebuilt
      from it, which the receiver holds once it has taken the input; taken is that state. */
  ghost predicate Explained(a: RecvAck, taken: Receiver, input: Input, now: u64) {
    || IsRequest(a, now)
    || (input.Bytes? && Parse(input.bytes).Some? && taken.session == a.session
        && var d := Parse(input.bytes).value;
           IsAnswer(a, d, now) || exists pid: nat :: IsRecovery(a, d, pid, now) && HasPacket(taken, d, pid))
  }

  /** The ACKs grow by such ones. */
  ghost predicate AcksGrow(acks: seq<RecvAck>, acks': seq<RecvAck>, taken: Receiver, input: Input, now: u64) {
    acks <= acks' && forall n :: |acks| <= n < |acks'| ==> Explained(acks'[n], taken, input, now)
  }

  lemma GrowTransitive(a: seq<RecvAck>, b: seq<RecvAck>, c: seq<RecvAck>, taken: Receiver, input: Input, now: u64)
    requires AcksGrow(a, b, taken, input, now) && AcksGrow(b, c, taken, input, now)
    ensures AcksGrow(a, c, taken, input, now)
  {
    hide Explained;
    forall n | |a| <= n < |c|
      ensures Explained(c[n], taken, input, now)
    {
      if n < |b| {
        assert c[n] == b[n];
      }
    }
  }

  lemma AnswersExplained(more: seq<RecvAck>, d: Datagram, f: RxFrame, wireBytes: u64, taken: Receiver, input: Input,
                         now: u64)
    requires input.Bytes? && Parse(input.bytes) == Some(d) && taken.session == d.h.session
    requires Find(taken.frames, d.h.frameId).Some?
    requires AnswersTo(more, d, f, HeldFrame(taken, d), wireBytes, now)
    ensures forall n :: 0 <= n < |more| ==> Explained(more[n], taken, input, now)
  {
    hide Parse, Reports, HeldFrame, Find;
    if pid :| Rebuilt(f, HeldFrame(taken, d), d, pid) {
      assert IsRecovery(more[0], d, pid, now) && HasPacket(taken, d, pid);
      assert d.h.flags == FEC ==> |more| == 1;
      assert d.h.flags != FEC ==> |more| == 2;
    } else {
      assert d.h.flags == FEC ==> |more| == 0;
      assert d.h.flags != FEC ==> |more| == 1;
    }
  }

  lemma InSessionExplained(s: Receiver, d: Datagram, input: Input, now: u64)
    requires ValidFrames(s.frames) && d.Accepted() && s.session == d.h.session
    requires input.Bytes? && Parse(input.bytes) == Some(d)
    ensures AcksGrow(s.acks, TakeInSession(s, d, now).acks, TakeInSession(s, d, now), input, now)
  {
    hide ValidFrames, TakePacket, Parse, AnswersTo, Explained, HasRoom, Find;
    var s1 := s.(wireBytes := (s.wireBytes + d.Size()) % TWO64);
    if d.h.flags != STREAM_INFO {
      hide HeaderAccepted, UnplayedAhead;
      var more := PacketIsAnswered(s1, d, now);
      PacketFrame(s1, d, now);
      var s' := TakePacket(s1, d, now);
      if Holds(s', d) {
        AnswersExplained(more, d, FrameBefore(s1, d, now), s1.wireBytes, s', input, now);
      }
    } else {
      hide HeaderAccepted;
    }
  }

  lemma InputExplained(s: Receiver, input: Input, now: u64)
    requires ValidFrames(s.frames)
    ensures AcksGrow(s.acks, TakeInput(s, input, now).acks, TakeInput(s, input, now), input, now)
  {
    hide Parse, TakeInSession, ValidFrames, HeaderAccepted, Explained;
    if input.Bytes? && Parse(input.bytes).Some? {
      var d := Parse(input.bytes).value;
      WireCanonical(input.bytes);
      NoneValid();
      var retired := if s.session != 0 then s.retired + {s.session} else s.retired;
      InSessionExplained(Open(s.(retired := retired), d.h.session, input.from), d, input, now);
      if s.session == d.h.session {
        InSessionExplained(s, d, input, now);
      }
    }
  }

  lemma RequestExplained(s: Receiver, id: u32, taken: Receiver, input: Input, now: u64)
    ensures AcksGrow(s.acks, RequestKey(s, id, now).acks, taken, input, now)
  {
  }

  lemma ShowExplained(s: Receiver, e: Entry, taken: Receiver, input: Input, now: u64, decode: u32 -> Outcome)
    ensures AcksGrow(s.acks, Show(s, e, now, decode).acks, taken, input, now)
  {
    hide AssembleFirst, RequestKey, AcksGrow;
    forall r: Receiver
      ensures AcksGrow(r.acks, RequestKey(r, e.id, now).acks, taken, input, now)
      ensures AcksGrow(r.acks, r.acks, taken, input, now)
    {
      RequestExplained(r, e.id, taken, input, now);
      NoAcks(r.acks, taken, input, now);
    }
  }

  lemma NoAcks(acks: seq<RecvAck>, taken: Receiver, input: Input, now: u64)
    ensures AcksGrow(acks, acks, taken, input, now)
  {
  }

  lemma DeliverOneExplained(s: Receiver, i: nat, taken: Receiver, input: Input, now: u64, decode: u32 -> Outcome)
    requires i < |s.frames| && DeliverOne(s, i, now, decode).Some?
    ensures AcksGrow(s.acks, DeliverOne(s, i, now, decode).value.acks, taken, input, now)
  {
    hide Show, AcksGrow, Waited;
    NoAcks(s.acks, taken, input, now);
    ShowExplained(SkipTo(s, i), s.frames[i], taken, input, now, decode);
  }

  lemma {:induction false} DeliverExplained(s: Receiver, taken: Receiver, input: Input, now: u64,
                                            decode: u32 -> Outcome)
    requires ValidFrames(s.frames)
    ensures AcksGrow(s.acks, Deliver(s, now, decode).acks, taken, input, now)
    decreases |s.frames| - LowerBound(s.frames, s.next)
  {
    hide DeliverOne, Front, LowerBound, ValidFrames, AcksGrow;
    NoAcks(s.acks, taken, input, now);
    if s.frames != [] && (s.headless || s.decoder) {
      var i := Front(s, now);
      if i.Some? && DeliverOne(s, i.value, now, decode).Some? {
        var s1 := DeliverOne(s, i.value, now, decode).value;
        DeliverOneFrames(s, i.value, now, decode);
        DeliverOneExplained(s, i.value, taken, input, now, decode);
        DeliverExplained(s1, taken, input, now, decode);
        GrowTransitive(s.acks, s1.acks, Deliver(s1, now, decode).acks, taken, input, now);
      }
    }
  }

  lemma PassExplained(s: Receiver, step: Step)
    requires ValidFrames(s.frames)
    ensures AcksGrow(s.acks, Pass(s, step.input, step.now, step.decode).acks, TakeInput(s, step.input, step.now),
                     step.input, step.now)
  {
    hide TakeInput, Deliver, SweepAll, ValidFrames, AcksGrow;
    var taken := TakeInput(s, step.input, step.now);
    NoAcks(s.acks, taken, step.input, step.now);
    if !s.halted {
      InputExplained(s, step.input, step.now);
      TakeKeepsFrames(s, step.input, step.now);
      if !taken.halted {
        DeliverExplained(taken, taken, step.input, step.now, step.decode);
        GrowTransitive(s.acks, taken.acks, Deliver(taken, step.now, step.decode).acks, taken, step.input, step.now);
      }
    }
  }

  ghost predicate ExplainedAt(a: RecvAck, steps: seq<Step>, states: seq<Receiver>, i: nat)
    requires i < |steps| && i < |states|
  {
    && ValidFrames(states[i].frames)
    && Explained(a, TakeInput(states[i], steps[i].input, steps[i].now), steps[i].input, steps[i].now)
  }

  /** In every run, every ACK that is no keyframe request answers a datagram that came in: under its frame, packet and
      attempt number, with its send time echoed, and with its flags; or it reports, flagged RECOVERED, a packet of the
      datagram's frame that was rebuilt from it and that the receiver then holds. */
  lemma {:induction false} EveryAckAnswers(headless: bool, steps: seq<Step>, states: seq<Receiver>, n: nat, a: RecvAck)
    returns (i: nat)
    requires IsRun(headless, steps, states) && n < |states| && |states| == |steps| + 1 && a in states[n].acks
    ensures i < n && ExplainedAt(a, steps, states, i)
    decreases n
  {
    hide IsRun, Explained, Pass, ValidFrames, PlayInv, TakeInput;
    RunStart(headless, steps, states);
    if n > 0 {
      var k := n - 1;
      RunStep(headless, steps, states, k);
      RunKeepsPlay(headless, steps, states, k);
      PlayValid(states[k]);
      PassExplained(states[k], steps[k]);
      if a in states[k].acks {
        i := EveryAckAnswers(headless, steps, states, k, a);
      } else {
        i := k;
      }
    }
  }

  // ----- Every packet is answered -----

  /** The receiver is in the datagram's session, takes packets from where it came, and holds its frame. */
  ghost predicate Serves(s: Receiver, input: Input, d: Datagram) {
    input.Bytes? && Parse(input.bytes) == Some(d) && s.session == d.h.session && s.peer == input.from && Holds(s, d)
  }

  /** From number m on, the ACKs answer d, and report what was rebuilt from it when its frame went from f to f'. */
  ghost predicate AnsweredFrom(acks: seq<RecvAck>, m: nat, d: Datagram, f: RxFrame, f': RxFrame, now: u64) {
    && (d.h.flags != FEC ==>
          exists n :: m <= n < |acks| && IsAnswer(acks[n], d, now) && Reports(acks[n], f'))
    && (forall pid :: Rebuilt(f, f', d, pid) ==>
          exists n :: m <= n < |acks| && IsRecovery(acks[n], d, pid, now) && Reports(acks[n], f'))
  }

  lemma AnsweredByThese(acks: seq<RecvAck>, more: seq<RecvAck>, d: Datagram, f: RxFrame, f': RxFrame, wireBytes: u64,
                        now: u64)
    requires AnswersTo(more, d, f, f', wireBytes, now)
    ensures AnsweredFrom(acks + more, |acks|, d, f, f', now)
  {
    hide Rebuilt, Reports, IsAnswer, IsRecovery;
    var all := acks + more;
    if d.h.flags != FEC {
      var n := |all| - 1;
      assert all[n] == more[|more| - 1] && more[|more| - 1] in more;
    }
    forall pid | Rebuilt(f, f', d, pid)
      ensures exists n :: |acks| <= n < |all| && IsRecovery(all[n], d, pid, now) && Reports(all[n], f')
    {
      assert all[|acks|] == more[0] && more[0] in more;
    }
  }

  lemma AnsweredMore(acks: seq<RecvAck>, acks': seq<RecvAck>, m: nat, d: Datagram, f: RxFrame, f': RxFrame, now: u64)
    requires AnsweredFrom(acks, m, d, f, f', now) && acks <= acks'
    ensures AnsweredFrom(acks', m, d, f, f', now)
  {
    hide Rebuilt, Reports, IsAnswer, IsRecovery;
    forall pid | Rebuilt(f, f', d, pid)
      ensures exists n :: m <= n < |acks'| && IsRecovery(acks'[n], d, pid, now) && Reports(acks'[n], f')
    {
      var n :| m <= n < |acks| && IsRecovery(acks[n], d, pid, now) && Reports(acks[n], f');
      assert acks'[n] == acks[n];
    }
    if d.h.flags != FEC {
      var n :| m <= n < |acks| && IsAnswer(acks[n], d, now) && Reports(acks[n], f');
      assert acks'[n] == acks[n];
    }
  }

  lemma InSessionAnswers(s: Receiver, d: Datagram, now: u64)
    requires ValidFrames(s.frames) && d.Accepted() && s.session == d.h.session && d.h.flags != STREAM_INFO
    ensures var s' := TakeInSession(s, d, now);
      Holds(s', d) ==>
        Find(s'.frames, d.h.frameId).Some?
        && AnsweredFrom(s'.acks, |s.acks|, d, FrameBefore(s, d, now), HeldFrame(s', d), now)
  {
    hide ValidFrames, TakePacket, AnswersTo, AnsweredFrom, HasRoom, Find, HeaderAccepted;
    var s1 := s.(wireBytes := (s.wireBytes + d.Size()) % TWO64);
    var more := PacketIsAnswered(s1, d, now);
    var s' := TakePacket(s1, d, now);
    if Holds(s', d) {
      AnsweredByThese(s.acks, more, d, FrameBefore(s1, d, now), HeldFrame(s', d), s1.wireBytes, now);
    }
  }

  /** The frame before the input; a session that starts with it holds nothing yet. */
  function BeforeInput(s: Receiver, d: Datagram, now: u64): RxFrame {
    if s.session == d.h.session then FrameBefore(s, d, now) else NewFrame(d.h, now)
  }

  /** The state in which the input was taken: the one before, or a new session. */
  lemma ServedIn(s: Receiver, input: Input, d: Datagram, now: u64) returns (base: Receiver)
    requires PlayInv(s) && !s.halted && ValidFrames(s.frames) && input.Bytes? && Parse(input.bytes) == Some(d)
    requires var s' := TakeInput(s, input, now); s'.session == d.h.session && s'.peer == input.from
    ensures d.Accepted() && ValidFrames(base.frames) && base.session == d.h.session && base.acks == s.acks
    ensures TakeInput(s, input, now) == TakeInSession(base, d, now)
    ensures if s.session == d.h.session then base == s else base.frames == [] && base.wireBytes == 0
  {
    assert s.session !in s.retired;
    hide PlayInv, Parse, TakeInSession, ValidFrames, HeaderAccepted;
    WireCanonical(input.bytes);
    NonZero(d);
    NoneValid();
    var retired := if s.session != 0 then s.retired + {s.session} else s.retired;
    base := if s.session == d.h.session then s else Open(s.(retired := retired), d.h.session, input.from);
  }

  lemma InputAnswers(s: Receiver, input: Input, d: Datagram, now: u64)
    requires PlayInv(s) && !s.halted && input.Bytes? && Parse(input.bytes) == Some(d) && d.h.flags != STREAM_INFO
    requires ValidFrames(s.frames) && Serves(TakeInput(s, input, now), input, d)
    ensures var s' := TakeInput(s, input, now);
      && Find(s'.frames, d.h.frameId).Some?
      && AnsweredFrom(s'.acks, |s.acks|, d, BeforeInput(s, d, now), HeldFrame(s', d), now)
  {
    hide PlayInv, Parse, TakeInput, TakeInSession, ValidFrames, HeaderAccepted, AnsweredFrom, Find, HeldFrame, Holds,
      FrameBefore;
    var base := ServedIn(s, input, d, now);
    InSessionAnswers(base, d, now);
    if base.frames == [] {
      OpenHoldsNothing(base, d, now);
    }
  }

  lemma NonZero(d: Datagram)
    requires d.Accepted()
    ensures d.h.session != 0
  {
  }

  lemma OpenHoldsNothing(s: Receiver, d: Datagram, now: u64)
    requires s.frames == []
    ensures FrameBefore(s, d, now) == NewFrame(d.h, now)
  {
  }

  /** In every run, every packet that the receiver takes in its session, and whose frame it holds then, is answered in
      the same pass, under its own number, and so is each packet that was rebuilt from it; and these ACKs report the
      frame complete exactly if it is, with the time of its completion. */
  lemma EveryPacketIsAnswered(headless: bool, steps: seq<Step>, states: seq<Receiver>, i: nat, d: Datagram)
    requires IsRun(headless, steps, states) && i < |steps| && |states| == |steps| + 1 && !states[i].halted
    requires steps[i].input.Bytes? && Parse(steps[i].input.bytes) == Some(d) && d.h.flags != STREAM_INFO
    requires ValidFrames(states[i].frames)
    requires Serves(TakeInput(states[i], steps[i].input, steps[i].now), steps[i].input, d)
    ensures var s' := TakeInput(states[i], steps[i].input, steps[i].now);
      && Find(s'.frames, d.h.frameId).Some?
      && AnsweredFrom(states[i + 1].acks, |states[i].acks|, d, BeforeInput(states[i], d, steps[i].now),
                      HeldFrame(s', d), steps[i].now)
  {
    hide IsRun, PlayInv, Parse, TakeInput, AnsweredFrom, HeldFrame, BeforeInput, Serves, Pass, ValidFrames, Find;
    RunStep(headless, steps, states, i);
    RunKeepsPlay(headless, steps, states, i);
    InputAnswers(states[i], steps[i].input, d, steps[i].now);
    var s' := TakeInput(states[i], steps[i].input, steps[i].now);
    AcksStay(states[i], steps[i]);
    AnsweredMore(s'.acks, states[i + 1].acks, |states[i].acks|, d, BeforeInput(states[i], d, steps[i].now),
                 HeldFrame(s', d), steps[i].now);
  }

  lemma AcksStay(s: Receiver, step: Step)
    requires ValidFrames(s.frames) && !s.halted
    ensures TakeInput(s, step.input, step.now).acks <= Pass(s, step.input, step.now, step.decode).acks
  {
    hide TakeInput, Deliver, SweepAll, ValidFrames, Explained;
    TakeKeepsFrames(s, step.input, step.now);
    var s1 := TakeInput(s, step.input, step.now);
    if !s1.halted {
      DeliverExplained(s1, s1, step.input, step.now, step.decode);
    }
  }

  // ----- Sessions -----

  /** The datagram starts a session: it is of one that is not over, none is open or it is of another, and then it
      announces a stream or is of frame 1. */
  predicate Begins(s: Receiver, d: Datagram) {
    && d.h.session !in s.retired
    && (s.session == 0 || (d.h.session != s.session && (d.h.flags == STREAM_INFO || d.h.frameId == 1)))
  }

  /** The sessions that are over once this one is left. */
  function Left(s: Receiver): set<u64> { s.retired + if s.session != 0 then {s.session} else {} }

  /** A session just begun: from this address, with nothing held, decoded or counted. */
  ghost predicate JustBegun(s: Receiver, base: Receiver, d: Datagram, from: Address) {
    && base.session == d.h.session && base.peer == from && base.retired == Left(s)
    && base.frames == [] && base.next == 1 && base.wireBytes == 0 && base.needKey && !base.decoder && base.width == 0
    && base.trace == s.trace + [Opened(d.h.session)] && base.acks == s.acks && base.lastKeyRequest == s.lastKeyRequest
    && base.headless == s.headless && !base.halted
  }

  /** What a datagram does to the session: it may begin one, with the old one over for good, and the receiver stops at
      the 65th that is over; it is taken in the open session if it is of it and comes from where its first one came
      from; and otherwise nothing happens. */
  lemma SessionsExactly(s: Receiver, from: Address, d: Datagram, now: u64) returns (base: Receiver)
    requires ValidFrames(s.frames) && d.Accepted() && s.session !in s.retired && !s.halted
    ensures var s' := Take(s, from, d, now);
      if Begins(s, d) then
        if |Left(s)| > 64 then s'.halted && s'.frames == s.frames && s'.trace == s.trace && s'.acks == s.acks
        else JustBegun(s, base, d, from) && ValidFrames(base.frames) && s' == TakeInSession(base, d, now)
      else if d.h.session == s.session && from == s.peer then s' == TakeInSession(s, d, now)
      else s' == s
  {
    hide TakeInSession, ValidFrames, HeaderAccepted;
    NoneValid();
    var retired := if s.session != 0 then s.retired + {s.session} else s.retired;
    assert retired == Left(s);
    base := Open(s.(retired := retired), d.h.session, from);
  }

  // ----- The byte counter -----

  /** The pass takes a datagram in the session that it belongs to. */
  ghost predicate TakesIn(s: Receiver, step: Step) {
    && step.input.Bytes? && Parse(step.input.bytes).Some? && ValidFrames(s.frames)
    && var taken := TakeInput(s, step.input, step.now);
       taken.session == Parse(step.input.bytes).value.h.session && taken.peer == step.input.from
  }

  /** The sizes of the datagrams taken in the current session by the first n passes. */
  ghost function BytesTaken(steps: seq<Step>, states: seq<Receiver>, n: nat): nat
    requires n <= |steps| && n <= |states|
    decreases n
  {
    if n == 0 then 0
    else
      var s, step, before := states[n - 1], steps[n - 1], BytesTaken(steps, states, n - 1);
      if TakesIn(s, step) then
        var d := Parse(step.input.bytes).value;
        (if s.session == d.h.session then before else 0) + d.Size()
      else before
  }

  lemma InSessionCounts(s: Receiver, d: Datagram, now: u64)
    requires ValidFrames(s.frames) && d.Accepted()
    ensures var s' := TakeInSession(s, d, now);
      s'.wireBytes == (s.wireBytes + d.Size()) % TWO64 && s'.session == s.session && s'.peer == s.peer
  {
    hide TakePacket, ValidFrames, UnplayedAhead;
    if d.h.flags != STREAM_INFO {
      hide HeaderAccepted;
      PacketFrame(s.(wireBytes := (s.wireBytes + d.Size()) % TWO64), d, now);
    } else {
      hide HeaderAccepted;
    }
  }

  lemma NotTaken(s: Receiver, step: Step)
    requires ValidFrames(s.frames) && !s.halted && !TakesIn(s, step)
    ensures var s' := TakeInput(s, step.input, step.now); !s'.halted ==> s' == s
  {
    hide Parse, TakeInSession, ValidFrames, HeaderAccepted;
    if step.input.Bytes? && Parse(step.input.bytes).Some? {
      var d := Parse(step.input.bytes).value;
      WireCanonical(step.input.bytes);
      NoneValid();
      var retired := if s.session != 0 then s.retired + {s.session} else s.retired;
      InSessionCounts(Open(s.(retired := retired), d.h.session, step.input.from), d, step.now);
      InSessionCounts(s, d, step.now);
    }
  }

  lemma {:induction false} DeliverKeepsCount(s: Receiver, now: u64, decode: u32 -> Outcome)
    requires ValidFrames(s.frames)
    ensures Deliver(s, now, decode).wireBytes == s.wireBytes
    decreases |s.frames| - LowerBound(s.frames, s.next)
  {
    hide DeliverOne, Front, LowerBound, ValidFrames;
    if s.frames != [] && (s.headless || s.decoder) {
      var i := Front(s, now);
      if i.Some? && DeliverOne(s, i.value, now, decode).Some? {
        DeliverOneFrames(s, i.value, now, decode);
        TurnKeepsCount(s, i.value, now, decode);
        DeliverKeepsCount(DeliverOne(s, i.value, now, decode).value, now, decode);
      }
    }
  }

  lemma TurnKeepsCount(s: Receiver, i: nat, now: u64, decode: u32 -> Outcome)
    requires i < |s.frames| && DeliverOne(s, i, now, decode).Some?
    ensures DeliverOne(s, i, now, decode).value.wireBytes == s.wireBytes
  {
    hide Show, Waited;
    ShowKeepsFrames(SkipTo(s, i), s.frames[i], now, decode);
  }

  lemma PassCounts(s: Receiver, step: Step)
    requires PlayInv(s) && ValidFrames(s.frames) && !s.halted
    ensures var s' := Pass(s, step.input, step.now, step.decode);
      !s'.halted ==>
        s'.wireBytes ==
          if TakesIn(s, step) then
            var d := Parse(step.input.bytes).value;
            ((if s.session == d.h.session then s.wireBytes else 0) + d.Size()) % TWO64
          else s.wireBytes
  {
    hide PlayInv, TakeInput, Deliver, SweepAll, ValidFrames, Parse, TakeInSession, HeaderAccepted;
    TakeKeepsFrames(s, step.input, step.now);
    var s1 := TakeInput(s, step.input, step.now);
    if TakesIn(s, step) {
      var d := Parse(step.input.bytes).value;
      var base := ServedIn(s, step.input, d, step.now);
      InSessionCounts(base, d, step.now);
    } else {
      NotTaken(s, step);
    }
    if !s1.halted {
      DeliverKeepsCount(s1, step.now, step.decode);
    }
  }

  /** In every run, the byte counter that each ACK carries is the size of all datagrams taken in the session so far,
      as a 64-bit number. */
  lemma {:induction false} CounterIsTrue(headless: bool, steps: seq<Step>, states: seq<Receiver>, n: nat)
    requires IsRun(headless, steps, states) && n <= |steps| < |states| && !states[n].halted
    ensures states[n].wireBytes == BytesTaken(steps, states, n) % TWO64
    decreases n
  {
    hide IsRun, PlayInv, Pass, ValidFrames, TakesIn, Parse;
    RunStart(headless, steps, states);
    if n > 0 {
      var k := n - 1;
      RunStep(headless, steps, states, k);
      RunKeepsPlay(headless, steps, states, k);
      StaysHalted(states[k], steps[k]);
      CounterIsTrue(headless, steps, states, k);
      PassCounts(states[k], steps[k]);
      if TakesIn(states[k], steps[k]) {
        TakesParts(states[k], steps[k]);
        AddMod(BytesTaken(steps, states, k), Parse(steps[k].input.bytes).value.Size());
      }
    }
  }

  lemma TakesParts(s: Receiver, step: Step)
    requires TakesIn(s, step)
    ensures step.input.Bytes? && Parse(step.input.bytes).Some?
  {
  }

  lemma AddMod(a: nat, b: nat)
    ensures (a % TWO64 + b) % TWO64 == (a + b) % TWO64
  {
  }

  lemma StaysHalted(s: Receiver, step: Step)
    requires ValidFrames(s.frames)
    ensures s.halted ==> Pass(s, step.input, step.now, step.decode).halted
  {
  }
}
