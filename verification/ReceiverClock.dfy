/** The receiver's clock, and what its stepping back does. */
module ReceiverClock {
  import opened Bytes
  import opened Protocol
  import opened Reassembly
  import opened Packetizer
  import opened Receiver
  import opened ReceiverPlayout
  import opened ReceiverAcks

  // ----- Arrival times -----

  const MAX_WAIT: nat := 1_000_000

  /** arrival_us: the steady clock less the time the packet waited in the socket, as far as the kernel's stamp and the
      realtime clock tell. */
  function Arrival(steady: u64, waited: int): u64 {
    if 0 <= waited < MAX_WAIT && waited < steady then steady - waited else steady
  }

  /** What a pass reads when the steady clock shows this. */
  ghost predicate Reads(step: Step, steady: u64) {
    if step.input.Bytes? && step.input.bytes != [] then exists waited: int :: step.now == Arrival(steady, waited)
    else step.now == steady
  }

  ghost predicate IsClock(steps: seq<Step>, steady: seq<u64>) {
    && |steady| == |steps| && (forall i, j :: 0 <= i < j < |steady| ==> steady[i] <= steady[j])
    && forall i :: 0 <= i < |steps| ==> Reads(steps[i], steady[i])
  }

  /** The times of the steps are ones the receiver can read. */
  ghost predicate Clocked(steps: seq<Step>) { exists steady: seq<u64> :: IsClock(steps, steady) }

  /** The time never steps back by a second or more, and it steps back only to a datagram. */
  lemma ClockStepsBackLittle(steps: seq<Step>, i: nat, j: nat)
    requires Clocked(steps) && i <= j < |steps|
    ensures steps[i].now < steps[j].now + MAX_WAIT
    ensures steps[j].input.Timeout? ==> steps[i].now <= steps[j].now
  {
    var steady: seq<u64> :| IsClock(steps, steady);
    assert Reads(steps[i], steady[i]) && Reads(steps[j], steady[j]);
  }

  /** Any step back by less than a second can happen: all passes but the last read the steady clock as it is, and the
      last datagram seems to have waited. */
  lemma StepsBack(steps: seq<Step>, at: u64, now: u64)
    requires steps != [] && 0 < now < at && at - now < MAX_WAIT
    requires forall i :: 0 <= i < |steps| ==> steps[i].input.Bytes? && steps[i].input.bytes != []
    requires forall i :: 0 <= i < |steps| - 1 ==> steps[i].now == at
    requires steps[|steps| - 1].now == now
    ensures Clocked(steps)
  {
    var steady := seq(|steps|, _ => at);
    forall i | 0 <= i < |steps|
      ensures Reads(steps[i], steady[i])
    {
      assert steps[i].now == Arrival(at, if i == |steps| - 1 then at - now else 0);
    }
    assert IsClock(steps, steady);
  }

  // ----- A frame is given up -----

  /** A data packet of frame 1, which has more packets. */
  ghost predicate OpensFrame(d: Datagram) {
    && d.Accepted() && d.h.flags & (PROBE | FEC | STREAM_INFO) == 0
    && d.h.frameId == 1 && d.h.frameBytes > LOAD_SZ
  }

  lemma FirstOfFrame(f: RxFrame, d: Datagram, now: u64)
    requires OpensFrame(d) && f == NewFrame(d.h, now) && FrameOk(f)
    ensures d.h.flags != STREAM_INFO && d.h.flags != FEC && d.h.flags & PROBE == 0
    ensures var f' := Store(f, d).0; f'.firstSeen == now && !f'.Complete() && Store(f, d).1.None?
  {
    PacketCountExact(d.h.frameBytes);
    assert FEC & (PROBE | FEC | STREAM_INFO) != 0 && STREAM_INFO & (PROBE | FEC | STREAM_INFO) != 0;
    assert d.h.flags & PROBE == 0;
    PayloadFits(d);
    hide CountPresent, HeaderAccepted;
    var f1 := f.(keyframe := f.keyframe || d.h.flags & KEYFRAME != 0);
    assert Store(f, d) == StoreData(f, d.h.packetId, d.payload, d.h.flags & KEYFRAME != 0);
    assert WithPayload(f1, d.h.packetId, d.payload).parity == map[];
  }

  /** An empty map admits the frame next in line. */
  lemma FirstAdmitted(s: Receiver, d: Datagram, now: u64)
    requires d.Accepted() && d.h.flags != STREAM_INFO && s.frames == [] && s.next == d.h.frameId
    ensures Admit(s, d.h, now).frames == [Entry(d.h.frameId, NewFrame(d.h, now), false)]
    ensures FrameOk(NewFrame(d.h, now))
  {
    PayloadFits(d);
    NewFrameWellFormed(d.h, now);
    hide HeaderAccepted, WellFormed, CountPresent;
  }

  lemma FirstIsHeld(s: Receiver, d: Datagram, now: u64)
    requires OpensFrame(d) && s.frames == [] && s.next == 1 && ValidFrames(s.frames)
    ensures d.h.flags != STREAM_INFO
    ensures var s' := TakePacket(s, d, now);
      && |s'.frames| == 1 && s'.next == 1
      && s'.headless == s.headless && s'.decoder == s.decoder && s'.halted == s.halted
      && var e := s'.frames[0]; e.id == 1 && !e.played && e.frame.firstSeen == now && !e.frame.Complete()
  {
    assert d.h.flags & STREAM_INFO == 0;
    OpensParts(d);
    FirstAdmitted(s, d, now);
    FirstOfFrame(NewFrame(d.h, now), d, now);
    AdmitFrame(s, d.h, now);
    hide Store, HeaderAccepted, AcksFor, NewFrame, FrameOk, Admit, OpensFrame;
    var s1 := Admit(s, d.h, now);
    assert s1.frames[0].id == 1;
  }

  /** One incomplete frame, number 1, is held since this time; there is no decoder yet. */
  ghost predicate Holds(s: Receiver, seen: u64) {
    && !s.halted && !s.headless && !s.decoder && s.next == 1 && |s.frames| == 1
    && var e := s.frames[0]; e.id == 1 && !e.played && e.frame.firstSeen == seen && !e.frame.Complete()
  }

  lemma FirstPass(from: Address, d: Datagram, seen: u64, decode: u32 -> Outcome)
    requires OpensFrame(d)
    ensures ValidFrames(Init(false).frames) && Holds(Pass(Init(false), Bytes(from, Wire(d)), seen, decode), seen)
  {
    hide TakePacket, HeaderAccepted, OpensFrame, Parse, Wire, NewFrame;
    var s, input := Init(false), Bytes(from, Wire(d));
    assert d.Accepted() && d.h.frameId == 1 by {
      OpensParts(d);
    }
    WireRoundTrip(d);
    var begun := Open(s, d.h.session, from);
    var counted := begun.(wireBytes := (begun.wireBytes + d.Size()) % TWO64);
    FirstIsHeld(counted, d, seen);
    TakeKeepsFrames(s, input, seen);
    var s1 := TakeInput(s, input, seen);
    assert s1 == TakePacket(counted, d, seen);
    assert Deliver(s1, seen, decode) == s1;
    SweepOne(s1.frames[0], seen, s1.next, s1.needKey);
    assert s1.frames == [s1.frames[0]];
  }

  lemma OpensParts(d: Datagram)
    requires OpensFrame(d)
    ensures d.Accepted() && d.h.frameId == 1
  {
  }

  lemma SweepOne(e: Entry, now: u64, next: u32, needKey: bool)
    ensures SweepAll([e], now, next, needKey) ==
              if !Stale(e, now) then Sweep([e], next, needKey)
              else if e.played then Sweep([], next, needKey)
              else Sweep([], if U32(e.id + 1) > next then U32(e.id + 1) else next, true)
  {
    assert [e][..0] == [];
    assert SweepAll([], now, next, needKey) == Sweep([], next, needKey);
  }

  lemma SecondPass(s: Receiver, from: Address, stray: seq<byte>, seen: u64, now: u64, decode: u32 -> Outcome)
    requires ValidFrames(s.frames) && Holds(s, seen) && now < seen && ClockReading(now) && ClockReading(seen)
    requires Parse(stray).None?
    ensures var s' := Pass(s, Bytes(from, stray), now, decode); s'.frames == [] && s'.next == 2 && s'.needKey
  {
    hide Stale, Parse;
    var e := s.frames[0];
    assert s.frames == [e];
    TimeoutsExactly(e, now);
    SweepOne(e, now, s.next, s.needKey);
    assert Deliver(s, now, decode) == s;
  }

  /** The failing family: a frame whose first packet was read at a later time than the next datagram is given up in
      that pass, however short the time between them; any stray datagram does it. */
  lemma SteppedBackIsDropped(from: Address, d: Datagram, stray: seq<byte>, seen: u64, now: u64, decode: u32 -> Outcome)
    requires OpensFrame(d) && ClockReading(seen) && ClockReading(now) && now < seen
    requires stray != [] && Parse(stray).None?
    ensures var steps := [Step(Bytes(from, Wire(d)), seen, decode), Step(Bytes(from, stray), now, decode)];
      && (seen - now < MAX_WAIT ==> Clocked(steps))
      && exists states: seq<Receiver> :: |states| == 3 && IsRun(false, steps, states)
           && Holds(states[1], seen) && states[2].frames == [] && states[2].next == 2 && states[2].needKey
  {
    hide OpensFrame, Wire, Pass, Parse, Clocked, IsRun, Holds, ValidFrames;
    var step1, step2 := Step(Bytes(from, Wire(d)), seen, decode), Step(Bytes(from, stray), now, decode);
    var s0 := Init(false);
    RunBegins(false);
    FirstPass(from, d, seen, decode);
    var s1 := Pass(s0, step1.input, seen, decode);
    RunGrows(false, [], [s0], step1);
    assert [] + [step1] == [step1] && [s0] + [s1] == [s0, s1];
    RunGrows(false, [step1], [s0, s1], step2);
    SecondPass(s1, from, stray, seen, now, decode);
    var s2 := Pass(s1, step2.input, now, decode);
    assert [step1] + [step2] == [step1, step2] && [s0, s1] + [s2] == [s0, s1, s2];
    var steps := [step1, step2];
    WireNotEmpty(d);
    if seen - now < MAX_WAIT {
      StepsBack(steps, seen, now);
    }
  }

  lemma WireNotEmpty(d: Datagram)
    ensures Wire(d) != []
  {
    WireRoundTrip(d);
    hide Wire;
  }

  /** There are such datagrams: the first packet of a frame of two, and a single byte. */
  lemma OpensFrameExists(session: u64, t: u64)
    requires session != 0 && ClockReading(t)
    ensures OpensFrame(DataPacket(TxFrame(session, 1, t, true, Zeros(2 * LOAD_SZ)), 0, 0, t))
    ensures Parse([0]).None?
  {
    DataPacketAccepted(TxFrame(session, 1, t, true, Zeros(2 * LOAD_SZ)), 0, 0, t);
    assert (FIRST | KEYFRAME) & (PROBE | FEC | STREAM_INFO) == 0;
  }

  // ----- An ACK is refused -----

  /** The only packet of its frame. */
  ghost predicate FillsFrame(d: Datagram) {
    d.Accepted() && d.h.flags & (PROBE | FEC | STREAM_INFO) == 0 && d.h.frameBytes <= LOAD_SZ
  }

  /** The packet fills a new frame, and changes a complete one no more. */
  lemma OnlyPacket(f: RxFrame, d: Datagram)
    requires FillsFrame(d) && FrameOk(f) && f.parity == map[] && f.Matches(d.h)
    requires f.payloads == [[]] || f.Complete()
    ensures d.h.flags != STREAM_INFO && d.h.flags != FEC && d.h.flags & PROBE == 0
    ensures var f' := Store(f, d).0;
      f'.Complete() && f'.firstSeen == f.firstSeen && f'.completedAt == f.completedAt && f'.parity == map[]
      && f'.keyframe == (f.keyframe || d.h.flags & KEYFRAME != 0) && f'.Matches(d.h) && Store(f, d).1.None?
  {
    assert FEC & (PROBE | FEC | STREAM_INFO) != 0 && STREAM_INFO & (PROBE | FEC | STREAM_INFO) != 0;
    assert d.h.flags & PROBE == 0;
    PayloadFits(d);
    PacketCountExact(d.h.frameBytes);
    assert d.h.packetId == 0 && |f.payloads| == 1;
    if f.Complete() {
      CountPresentAll(f.payloads);
    }
    hide HeaderAccepted, PacketCount;
    var f1 := f.(keyframe := f.keyframe || d.h.flags & KEYFRAME != 0);
    assert Store(f, d) == StoreData(f, d.h.packetId, d.payload, d.h.flags & KEYFRAME != 0);
    assert WithPayload(f1, d.h.packetId, d.payload).parity == map[];
  }

  lemma FillsParts(d: Datagram)
    requires FillsFrame(d)
    ensures d.Accepted() && d.h.session != 0 && 0 < d.h.frameId < UINT32_MAX
    ensures d.h.flags != STREAM_INFO && d.h.flags != FEC
  {
    assert FEC & (PROBE | FEC | STREAM_INFO) != 0 && STREAM_INFO & (PROBE | FEC | STREAM_INFO) != 0;
  }

  /** The frame is next in line, and there is room for it after the ones held. */
  ghost predicate HasRoom(s: Receiver, d: Datagram) {
    && s.next == d.h.frameId && (forall i :: 0 <= i < |s.frames| ==> s.frames[i].id < d.h.frameId)
    && |s.frames| < WINDOW && Allocated(s.frames) + LOAD_SZ <= MAX_BYTES
  }

  /** The packet's frame, complete since this time. */
  ghost predicate IsFilled(e: Entry, d: Datagram, at: u64) {
    && e.id == d.h.frameId && !e.played && FrameOk(e.frame) && e.frame.Matches(d.h)
    && e.frame.firstSeen == at && e.frame.completedAt == at && e.frame.Complete() && e.frame.parity == map[]
    && (e.frame.keyframe <==> d.h.flags & KEYFRAME != 0)
  }

  /** Frame 1 is held and complete since this time. */
  ghost predicate HoldsComplete(s: Receiver, d: Datagram, at: u64) {
    && !s.halted && !s.headless && !s.decoder && s.session == d.h.session && s.next == d.h.frameId == 1
    && |s.frames| == 1 && IsFilled(s.frames[0], d, at)
  }

  lemma AdmittedLast(s: Receiver, d: Datagram, at: u64)
    requires FillsFrame(d) && ValidFrames(s.frames) && HasRoom(s, d)
    ensures Admit(s, d.h, at) == s.(frames := s.frames + [Entry(d.h.frameId, NewFrame(d.h, at), false)])
    ensures FrameOk(NewFrame(d.h, at)) && NewFrame(d.h, at).payloads == [[]]
  {
    FillsParts(d);
    PayloadFits(d);
    PacketCountExact(d.h.frameBytes);
    NewFrameWellFormed(d.h, at);
    hide WellFormed, Allocated, HeaderAccepted, FillsFrame;
    var i := LowerBound(s.frames, d.h.frameId);
    assert i == |s.frames|;
    assert s.frames[..i] == s.frames && s.frames[i..] == [];
  }

  lemma Completes(s: Receiver, d: Datagram, at: u64) returns (e: Entry)
    requires FillsFrame(d) && ValidFrames(s.frames) && HasRoom(s, d) && at != 0
    ensures d.h.flags != STREAM_INFO && IsFilled(e, d, at)
    ensures var s' := TakePacket(s, d, at);
      && s' == s.(frames := s.frames + [e], delivered := s'.delivered, acks := s'.acks)
      && KeyTimes(s'.acks) == KeyTimes(s.acks)
  {
    FillsParts(d);
    AdmittedLast(s, d, at);
    var new0, s1 := Entry(d.h.frameId, NewFrame(d.h, at), false), Admit(s, d.h, at);
    OnlyPacket(new0.frame, d);
    hide Store, HeaderAccepted, AcksFor, FillsFrame, FrameOk, HasRoom, Admit;
    var k := |s.frames|;
    assert s1.frames[k] == new0 && Find(s1.frames, d.h.frameId) == Some(k);
    var (f, recovered) := Store(new0.frame, d);
    e := new0.(frame := f.(completedAt := at));
    assert s1.frames[k := e] == s.frames + [e];
    NoKeyRequests(s1, d, e.frame, at, recovered);
    KeyTimesAppend(s.acks, AcksFor(s1, d.h, e.frame, at, recovered));
  }

  lemma NoKeyRequests(s: Receiver, d: Datagram, f: RxFrame, now: u64, recovered: Option<nat>)
    requires d.Accepted() && d.h.flags != STREAM_INFO
    ensures forall a :: a in AcksFor(s, d.h, f, now, recovered) ==> a.flags != KEY_REQUEST
  {
    FlagsOfAck(RECOVERED, f.Complete());
    if d.h.flags != FEC {
      AcceptedFlags(d);
      FlagsOfAck(d.h.flags, f.Complete());
    }
    hide HeaderAccepted;
  }

  lemma FillPass(from: Address, d: Datagram, at: u64, decode: u32 -> Outcome)
    requires FillsFrame(d) && d.h.frameId == 1 && ClockReading(at)
    ensures ValidFrames(Init(false).frames)
    ensures var s' := Pass(Init(false), Bytes(from, Wire(d)), at, decode);
      HoldsComplete(s', d, at) && s'.peer == from && s'.retired == {}
  {
    hide TakePacket, HeaderAccepted, FillsFrame, Parse, Wire, FrameOk;
    var s, input := Init(false), Bytes(from, Wire(d));
    FillsParts(d);
    WireRoundTrip(d);
    var begun := Open(s, d.h.session, from);
    var counted := begun.(wireBytes := (begun.wireBytes + d.Size()) % TWO64);
    var e := Completes(counted, d, at);
    TakeKeepsFrames(s, input, at);
    var s1 := TakeInput(s, input, at);
    assert s1 == TakePacket(counted, d, at);
    assert Deliver(s1, at, decode) == s1;
    assert s1.frames == [e];
    SweepOne(e, at, s1.next, s1.needKey);
  }

  /** The packet again: it is acknowledged with the time now and the completion time of before. */
  lemma RepeatedPacket(s: Receiver, d: Datagram, at: u64, now: u64)
    requires FillsFrame(d) && d.h.frameId == 1 && HoldsComplete(s, d, at) && ValidFrames(s.frames) && at != 0
    ensures d.h.flags != STREAM_INFO
    ensures var s' := TakePacket(s, d, now);
      && !s'.halted && !s'.headless && !s'.decoder && s'.acks != []
      && var a := s'.acks[|s'.acks| - 1]; a.recvTime == now && a.frameRecvTime == at
  {
    FillsParts(d);
    OnlyPacket(s.frames[0].frame, d);
    assert Find(s.frames, 1) == Some(0);
    hide Store, HeaderAccepted, AckFor, FrameOk;
    var (f, recovered) := Store(s.frames[0].frame, d);
    assert AcksFor(s, d.h, f, now, recovered)
        == [AckFor(s, d.h, f, now, d.h.packetId, d.h.flags, d.h.sendTime, d.h.retransSeq)];
    AckTimes(s, d.h, f, now);
  }

  lemma AckTimes(s: Receiver, h: PktHeader, f: RxFrame, now: u64)
    ensures var a := AckFor(s, h, f, now, h.packetId, h.flags, h.sendTime, h.retransSeq);
      a.recvTime == now && a.frameRecvTime == f.completedAt
  {
  }

  lemma RepeatPass(s: Receiver, from: Address, d: Datagram, at: u64, now: u64, decode: u32 -> Outcome)
    requires FillsFrame(d) && d.h.frameId == 1 && HoldsComplete(s, d, at) && ValidFrames(s.frames) && at != 0
    requires s.peer == from && s.retired == {}
    ensures var s' := Pass(s, Bytes(from, Wire(d)), now, decode);
      s'.acks != [] && var a := s'.acks[|s'.acks| - 1]; a.recvTime == now && a.frameRecvTime == at
  {
    hide TakePacket, HeaderAccepted, FillsFrame, Parse, Wire, FrameOk;
    FillsParts(d);
    WireRoundTrip(d);
    var counted := s.(wireBytes := (s.wireBytes + d.Size()) % TWO64);
    assert HoldsComplete(counted, d, at);
    RepeatedPacket(counted, d, at, now);
    TakeKeepsFrames(s, Bytes(from, Wire(d)), now);
    var s1 := TakeInput(s, Bytes(from, Wire(d)), now);
    assert s1 == TakePacket(counted, d, now);
    assert Deliver(s1, now, decode) == s1;
    hide SweepAll;
  }

  lemma LateIsRefused(steps: seq<Step>, states: seq<Receiver>, at: u64, now: u64)
    requires IsRun(false, steps, states) && |steps| == 2 && |states| == 3 && ClockReading(at) && ClockReading(now)
    requires steps[0].now == at && steps[1].now == now < at && states[2].acks != []
    requires var a := states[2].acks[|states[2].acks| - 1]; a.recvTime == now && a.frameRecvTime == at
    ensures DecodeAck(EncodeAck(states[2].acks[|states[2].acks| - 1])) == None
  {
    hide IsRun;
    EveryAckAccepted(false, steps, states, 2, states[2].acks[|states[2].acks| - 1]);
  }

  /** The failing family: a frame of one packet is completed, and the packet arrives again when the clock reads less.
      The ACK for it does not decode. */
  lemma SteppedBackIsRefused(from: Address, d: Datagram, at: u64, now: u64, decode: u32 -> Outcome)
    requires FillsFrame(d) && d.h.frameId == 1 && ClockReading(at) && ClockReading(now) && now < at
    ensures var steps := [Step(Bytes(from, Wire(d)), at, decode), Step(Bytes(from, Wire(d)), now, decode)];
      && (at - now < MAX_WAIT ==> Clocked(steps))
      && exists states: seq<Receiver> :: |states| == 3 && IsRun(false, steps, states)
           && states[2].acks != [] && DecodeAck(EncodeAck(states[2].acks[|states[2].acks| - 1])) == None
  {
    hide FillsFrame, Wire, Pass, AckAccepted, Clocked, IsRun, HoldsComplete, ValidFrames;
    var input := Bytes(from, Wire(d));
    var step1, step2 := Step(input, at, decode), Step(input, now, decode);
    var s0 := Init(false);
    RunBegins(false);
    FillPass(from, d, at, decode);
    var s1 := Pass(s0, input, at, decode);
    RunGrows(false, [], [s0], step1);
    assert [] + [step1] == [step1] && [s0] + [s1] == [s0, s1];
    RunGrows(false, [step1], [s0, s1], step2);
    RepeatPass(s1, from, d, at, now, decode);
    var s2 := Pass(s1, input, now, decode);
    assert [step1] + [step2] == [step1, step2] && [s0, s1] + [s2] == [s0, s1, s2];
    var steps, states := [step1, step2], [s0, s1, s2];
    LateIsRefused(steps, states, at, now);
    WireNotEmpty(d);
    if at - now < MAX_WAIT {
      StepsBack(steps, at, now);
    }
  }

  /** Such a packet exists. */
  lemma FillsFrameExists(session: u64, t: u64)
    requires session != 0 && ClockReading(t)
    ensures FillsFrame(DataPacket(TxFrame(session, 1, t, true, Zeros(LOAD_SZ)), 0, 0, t))
  {
    DataPacketAccepted(TxFrame(session, 1, t, true, Zeros(LOAD_SZ)), 0, 0, t);
    assert (FIRST | LAST | KEYFRAME) & (PROBE | FEC | STREAM_INFO) == 0;
  }

  // ----- Keyframes are asked for again -----

  /** The session has a decoder that waits for a keyframe, and a request is due. */
  ghost predicate Asks(s: Receiver, from: Address, session: u64, now: u64) {
    && !s.halted && !s.headless && s.decoder && s.needKey && s.session == session != 0 && s.peer == from
    && session !in s.retired && (s.lastKeyRequest == 0 || now < s.lastKeyRequest <= INT64_MAX)
  }

  /** What asking for a keyframe leaves. */
  ghost predicate Asked(s: Receiver, s': Receiver, now: u64) {
    KeyTimes(s'.acks) == KeyTimes(s.acks) + [now] && s'.lastKeyRequest == now && s'.needKey
  }

  lemma RequestAsks(s: Receiver, from: Address, id: u32, now: u64)
    requires Asks(s, from, s.session, now) && ClockReading(now)
    ensures var s' := RequestKey(s, id, now);
      Asked(s, s', now) && s' == s.(acks := s'.acks, lastKeyRequest := now)
  {
    KeyRequestExactly(s, id, now);
    var a := RecvAck(KEY_REQUEST, 0, s.session, 0, now, 0, 0, if id != 0 then id else 1, 0);
    KeyTimesNext(s.acks, a);
    hide KeyTimes;
  }

  /** A complete frame that is no keyframe is passed over, and a keyframe is asked for. */
  lemma DeliverAsks(s: Receiver, from: Address, now: u64, decode: u32 -> Outcome, i: nat)
    requires ValidFrames(s.frames) && |s.frames| == i + 1 && Asks(s, from, s.session, now) && ClockReading(now)
    requires var e := s.frames[i]; e.id == s.next && !e.played && e.frame.Complete() && !e.frame.keyframe
    ensures var s' := Deliver(s, now, decode);
      && Asked(s, s', now) && s'.next == s.next + 1 && s'.frames == s.frames[i := s.frames[i].(played := true)]
      && s' == s.(frames := s'.frames, next := s'.next, acks := s'.acks, lastKeyRequest := now)
  {
    hide FrameOk, Asked, RequestKey, LowerBound, Waited;
    var e := s.frames[i];
    assert e.id < UINT32_MAX;
    assert LowerBound(s.frames, s.next) == i;
    RequestAsks(s, from, e.id, now);
    var s1 := RequestKey(s, e.id, now);
    var s2 := Advance(MarkPlayed(s1, i));
    assert DeliverOne(s, i, now, decode) == Some(s2);
    DeliverOneFrames(s, i, now, decode);
    hide DeliverOne, ValidFrames;
    assert Front(s, now) == Some(i) && Front(s2, now) == None;
    assert Deliver(s2, now, decode) == s2;
    AskedOn(s, s1, s2, now);
  }

  lemma AskedOn(s: Receiver, s1: Receiver, s2: Receiver, now: u64)
    requires Asked(s, s1, now) && s2.acks == s1.acks && s2.lastKeyRequest == s1.lastKeyRequest && s2.needKey
    ensures Asked(s, s2, now)
  {
  }

  lemma InfoPass(from: Address, session: u64, at: u64, decode: u32 -> Outcome)
    requires session != 0
    ensures ValidFrames(Init(false).frames)
    ensures var s' := Pass(Init(false), Bytes(from, Wire(StreamInfoPacket(session, 2, 2))), at, decode);
      Asks(s', from, session, at) && s'.frames == [] && s'.next == 1 && s'.acks == []
  {
    var s, d := Init(false), StreamInfoPacket(session, 2, 2);
    StreamInfoAccepted(session, 2, 2);
    WireRoundTrip(d);
    hide Wire, Parse, HeaderAccepted;
    var s1 := TakeInput(s, Bytes(from, Wire(d)), at);
    assert s1.frames == [] && s1.decoder;
    assert Deliver(s1, at, decode) == s1;
  }

  /** The only packet of the next frame arrives, not a keyframe. */
  lemma AskPass(s: Receiver, from: Address, d: Datagram, now: u64, decode: u32 -> Outcome)
    returns (e: Entry, s2: Receiver)
    requires ValidFrames(s.frames) && FillsFrame(d) && d.h.flags & KEYFRAME == 0 && HasRoom(s, d)
    requires Asks(s, from, d.h.session, now) && ClockReading(now)
    ensures Pass(s, Bytes(from, Wire(d)), now, decode) == Expire(s2, now) && Asked(s, s2, now)
    ensures IsFilled(e.(played := false), d, now) && e.played && s2.frames == s.frames + [e]
    ensures s2.next == s.next + 1 && s2.session == s.session && s2.peer == s.peer && s2.retired == s.retired
    ensures s2.headless == s.headless && s2.decoder == s.decoder && s2.halted == s.halted
  {
    hide TakePacket, HeaderAccepted, FillsFrame, Parse, Wire, Asked, KeyTimes;
    FillsParts(d);
    WireRoundTrip(d);
    var input := Bytes(from, Wire(d));
    var counted := s.(wireBytes := (s.wireBytes + d.Size()) % TWO64);
    e := Completes(counted, d, now);
    TakeKeepsFrames(s, input, now);
    var s1 := TakeInput(s, input, now);
    assert s1 == TakePacket(counted, d, now);
    var i := |s.frames|;
    assert s1.frames[i] == e;
    hide ValidFrames, IsFilled, Deliver, Expire;
    FilledIsShown(e, d, now);
    DeliverAsks(s1, from, now, decode, i);
    s2 := Deliver(s1, now, decode);
    assert Asked(s, s2, now) by {
      AskedSince(s, s1, s2, now);
    }
    FilledPlayed(e, d, now);
    assert s2.frames == s.frames + [e.(played := true)];
    e := e.(played := true);
  }

  lemma FilledIsShown(e: Entry, d: Datagram, now: u64)
    requires IsFilled(e, d, now) && d.h.flags & KEYFRAME == 0
    ensures e.id == d.h.frameId && !e.played && e.frame.Complete() && !e.frame.keyframe
  {
  }

  lemma FilledPlayed(e: Entry, d: Datagram, now: u64)
    requires IsFilled(e, d, now)
    ensures IsFilled(e.(played := true).(played := false), d, now)
  {
    assert e.(played := true).(played := false) == e;
  }

  lemma AskedSince(s: Receiver, s1: Receiver, s2: Receiver, now: u64)
    requires Asked(s1, s2, now) && KeyTimes(s1.acks) == KeyTimes(s.acks)
    ensures Asked(s, s2, now)
  {
  }

  /** The first frame: the session goes on waiting, and an earlier reading makes the next request due. */
  lemma FirstAsk(s: Receiver, from: Address, d: Datagram, at: u64, now: u64, decode: u32 -> Outcome)
    requires ValidFrames(s.frames) && FillsFrame(d) && d.h.flags & KEYFRAME == 0 && d.h.frameId == 1
    requires s.frames == [] && s.next == 1 && s.acks == []
    requires Asks(s, from, d.h.session, at) && ClockReading(at) && now < at
    ensures var s' := Pass(s, Bytes(from, Wire(d)), at, decode);
      && KeyTimes(s'.acks) == [at] && Asks(s', from, d.h.session, now)
      && s'.next == 2 && |s'.frames| == 1 && s'.frames[0].id == 1 && s'.frames[0].frame.size <= LOAD_SZ
  {
    hide FillsFrame, Wire, Pass, ValidFrames, HasRoom, Expire, IsFilled;
    RoomForFirst(s, d);
    var e, s2 := AskPass(s, from, d, at, decode);
    assert s2.frames == [e];
    FilledKept(s2, e, d, at);
    assert KeyTimes(s2.acks) == [at];
    hide KeyTimes;
  }

  lemma RoomForFirst(s: Receiver, d: Datagram)
    requires s.next == 1 == d.h.frameId && s.frames == []
    ensures HasRoom(s, d)
  {
  }

  lemma FilledKept(s: Receiver, e: Entry, d: Datagram, at: u64)
    requires FillsFrame(d) && s.frames == [e] && e.played && IsFilled(e.(played := false), d, at)
    ensures Expire(s, at) == s && e.id == d.h.frameId && e.frame.size <= LOAD_SZ
  {
    hide HeaderAccepted, FrameOk;
    SweepOne(e, at, s.next, s.needKey);
  }

  /** The failing family: two frames that wait for a keyframe complete while the clock steps back, and it is asked for
      twice, however short the time between them. */
  lemma SteppedBackAsksAgain(from: Address, d1: Datagram, d2: Datagram, at: u64, now: u64, decode: u32 -> Outcome)
    requires FillsFrame(d1) && d1.h.flags & KEYFRAME == 0 && d1.h.frameId == 1
    requires FillsFrame(d2) && d2.h.flags & KEYFRAME == 0 && d2.h.frameId == 2 && d2.h.session == d1.h.session
    requires ClockReading(at) && ClockReading(now) && now < at
    ensures var steps := [Step(Bytes(from, Wire(StreamInfoPacket(d1.h.session, 2, 2))), at, decode),
                          Step(Bytes(from, Wire(d1)), at, decode), Step(Bytes(from, Wire(d2)), now, decode)];
      && (at - now < MAX_WAIT ==> Clocked(steps))
      && exists states: seq<Receiver> :: |states| == 4 && IsRun(false, steps, states)
           && KeyTimes(states[3].acks) == [at, now]
  {
    hide FillsFrame, Wire, Pass, Clocked, Asks, KeyTimes, ValidFrames, HasRoom, IsRun, IsFilled;
    var info, session := StreamInfoPacket(d1.h.session, 2, 2), d1.h.session;
    var step1, step2 := Step(Bytes(from, Wire(info)), at, decode), Step(Bytes(from, Wire(d1)), at, decode);
    var step3 := Step(Bytes(from, Wire(d2)), now, decode);
    FillsParts(d1);
    var s0 := Init(false);
    RunBegins(false);
    InfoPass(from, session, at, decode);
    var s1 := Pass(s0, step1.input, at, decode);
    RunGrows(false, [], [s0], step1);
    assert [] + [step1] == [step1] && [s0] + [s1] == [s0, s1];
    RunGrows(false, [step1], [s0, s1], step2);
    FirstAsk(s1, from, d1, at, now, decode);
    var s2 := Pass(s1, step2.input, at, decode);
    assert [step1] + [step2] == [step1, step2] && [s0, s1] + [s2] == [s0, s1, s2];
    RunGrows(false, [step1, step2], [s0, s1, s2], step3);
    RoomForSecond(s2, d2);
    var e, s3 := AskPass(s2, from, d2, now, decode);
    var steps, last := [step1, step2, step3], Pass(s2, step3.input, now, decode);
    assert [step1, step2] + [step3] == steps && [s0, s1, s2] + [last] == [s0, s1, s2, last];
    assert [at] + [now] == [at, now];
    WireNotEmpty(info);
    WireNotEmpty(d1);
    WireNotEmpty(d2);
    if at - now < MAX_WAIT {
      StepsBack(steps, at, now);
    }
  }

  lemma RoomForSecond(s: Receiver, d: Datagram)
    requires s.next == 2 == d.h.frameId && |s.frames| == 1 && s.frames[0].id == 1 && s.frames[0].frame.size <= LOAD_SZ
    ensures HasRoom(s, d)
  {
    assert s.frames[..0] == [];
    assert Allocated(s.frames) == Allocated([]) + s.frames[0].frame.size;
  }

  /** There are such packets. */
  lemma AskingPacketsExist(session: u64, id: u32, t: u64)
    requires session != 0 && ClockReading(t) && 0 < id < UINT32_MAX
    ensures var d := DataPacket(TxFrame(session, id, t, false, Zeros(LOAD_SZ)), 0, 0, t);
      FillsFrame(d) && d.h.flags & KEYFRAME == 0 && d.h.frameId == id && d.h.session == session
  {
    DataPacketAccepted(TxFrame(session, id, t, false, Zeros(LOAD_SZ)), 0, 0, t);
    assert (FIRST | LAST) & (PROBE | FEC | STREAM_INFO) == 0 && (FIRST | LAST) & KEYFRAME == 0;
  }
}
