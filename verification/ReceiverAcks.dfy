/** The ACKs and keyframe requests the receiver builds, and the memory it holds, over every run. */
module ReceiverAcks {
  import opened Bytes
  import opened Protocol
  import opened Reassembly
  import opened Packetizer
  import opened Receiver
  import opened ReceiverPlayout

  // ----- One ACK -----

  /** The flags of an accepted packet that is acknowledged under its own flags. */
  predicate Acknowledged(h: PktHeader) { h.flags != STREAM_INFO && h.flags != FEC }

  lemma FlagsOfAck(flags: byte, complete: bool)
    requires flags == PROBE || flags == RECOVERED || flags & !(FIRST | LAST | KEYFRAME) == 0
    ensures var f := flags | (if complete then FRAME_COMPLETE else 0);
      && f != KEY_REQUEST && f & (FEC | STREAM_INFO) == 0 && (f & FRAME_COMPLETE != 0 <==> complete)
      && (f & PROBE != 0 <==> flags == PROBE) && (f & RECOVERED != 0 <==> flags == RECOVERED)
      && (flags == PROBE ==> f & !(PROBE | FRAME_COMPLETE) == 0)
      && (flags == RECOVERED ==> f & !(RECOVERED | FRAME_COMPLETE) == 0)
      && (flags != PROBE && flags != RECOVERED ==> f & !(FIRST | LAST | KEYFRAME | FRAME_COMPLETE) == 0)
  {
  }

  lemma AcceptedFlags(d: Datagram)
    requires d.Accepted() && Acknowledged(d.h)
    ensures d.h.flags == PROBE || d.h.flags & !(FIRST | LAST | KEYFRAME) == 0
    ensures d.h.flags != RECOVERED
  {
    assert RECOVERED & !(FIRST | LAST | KEYFRAME) != 0;
    assert RECOVERED & STREAM_INFO == 0 && RECOVERED & PROBE == 0 && RECOVERED & FEC == 0;
  }

  /** A frame has a completion time exactly when it is complete. */
  ghost predicate Stamped(f: RxFrame) { f.Complete() <==> f.completedAt != 0 }

  /** An ACK for a packet that decode accepted is refused in two cases: it answers a probe that claims to be a
      retransmission (the sender builds no such probe), or the clock has stepped back since the frame completed. */
  lemma AckIsAccepted(s: Receiver, d: Datagram, f: RxFrame, now: u64)
    requires d.Accepted() && Acknowledged(d.h) && s.session != 0 && ClockReading(now) && Stamped(f)
    ensures AckAccepted(AckFor(s, d.h, f, now, d.h.packetId, d.h.flags, d.h.sendTime, d.h.retransSeq))
       <==> !(d.h.flags == PROBE && d.h.retransSeq != 0) && f.completedAt <= now
  {
    AcceptedFlags(d);
    FlagsOfAck(d.h.flags, f.Complete());
    assert PROBE & STREAM_INFO == 0;
  }

  lemma RecoveredAckIsAccepted(s: Receiver, d: Datagram, f: RxFrame, now: u64, pid: u32)
    requires d.Accepted() && d.h.flags != STREAM_INFO && s.session != 0 && ClockReading(now) && Stamped(f)
    ensures AckAccepted(AckFor(s, d.h, f, now, pid, RECOVERED, 0, 0)) <==> f.completedAt <= now
  {
    FlagsOfAck(RECOVERED, f.Complete());
    PayloadFits(d);
    hide HeaderAccepted;
  }

  // ----- The invariant -----

  /** What may be known of a run: the clock never steps back; probes carry no attempt number. */
  datatype Given = Given(clockRises: bool, probesFirst: bool)

  predicate OnTime(a: RecvAck) { a.frameRecvTime <= a.recvTime }

  predicate ProbeUnnumbered(a: RecvAck) { a.flags & PROBE != 0 ==> a.retransSeq == 0 }

  ghost predicate AckOk(g: Given, a: RecvAck) {
    && (AckAccepted(a) <==> OnTime(a) && ProbeUnnumbered(a))
    && (g.clockRises ==> OnTime(a)) && (g.probesFirst ==> ProbeUnnumbered(a))
  }

  ghost predicate AllOk(g: Given, acks: seq<RecvAck>) {
    forall a :: a in acks ==> AckOk(g, a)
  }

  /** Stamped, and not after now unless the clock may step back. */
  ghost predicate StampedBy(g: Given, f: RxFrame, now: u64) {
    Stamped(f) && (g.clockRises ==> f.completedAt <= now)
  }

  ghost predicate AllStamped(g: Given, frames: seq<Entry>, now: u64) {
    forall i :: 0 <= i < |frames| ==> StampedBy(g, frames[i].frame, now)
  }

  /** When the keyframe requests among these ACKs were made. */
  function KeyTimes(acks: seq<RecvAck>): seq<u64> {
    if acks == [] then []
    else
      var a := acks[|acks| - 1];
      KeyTimes(acks[..|acks| - 1]) + if a.flags == KEY_REQUEST then [a.recvTime] else []
  }

  lemma {:induction false} KeyTimesAppend(a: seq<RecvAck>, b: seq<RecvAck>)
    requires forall x :: x in b ==> x.flags != KEY_REQUEST
    ensures KeyTimes(a + b) == KeyTimes(a)
  {
    if b == [] {
      assert a + b == a;
    } else {
      assert (a + b)[..|a + b| - 1] == a + b[..|b| - 1];
      KeyTimesAppend(a, b[..|b| - 1]);
      assert KeyTimes(a) + [] == KeyTimes(a);
    }
  }

  /** Each request is at least 200 ms after the one before, or the clock has stepped back in between; last is the time
      of the newest. */
  ghost predicate Spaced(g: Given, times: seq<u64>, last: u64) {
    && (if times == [] then last == 0 else last != 0 && times[|times| - 1] == last)
    && forall i :: 0 < i < |times| ==>
         times[i - 1] + KEY_INTERVAL <= times[i] || (!g.clockRises && times[i] < times[i - 1])
  }

  ghost predicate AcksOk(g: Given, acks: seq<RecvAck>, last: u64, now: u64) {
    AllOk(g, acks) && Spaced(g, KeyTimes(acks), last) && (g.clockRises ==> last <= now)
  }

  ghost predicate AckInv(g: Given, s: Receiver, now: u64) {
    ValidFrames(s.frames) && AcksOk(g, s.acks, s.lastKeyRequest, now) && AllStamped(g, s.frames, now)
  }

  lemma KeyTimesNext(acks: seq<RecvAck>, a: RecvAck)
    requires a.flags == KEY_REQUEST
    ensures KeyTimes(acks + [a]) == KeyTimes(acks) + [a.recvTime]
  {
    assert (acks + [a])[..|acks|] == acks;
  }

  lemma SpacedNext(g: Given, times: seq<u64>, last: u64, now: u64)
    requires Spaced(g, times, last) && now != 0
    requires last == 0 || last + KEY_INTERVAL <= now || (!g.clockRises && now < last)
    ensures Spaced(g, times + [now], now)
  {
  }

  /** A keyframe request is accepted, and keeps its distance from the one before. */
  lemma KeyRequestOk(g: Given, s: Receiver, id: u32, now: u64)
    requires AcksOk(g, s.acks, s.lastKeyRequest, now) && ClockReading(now)
    ensures var s' := RequestKey(s, id, now); AcksOk(g, s'.acks, s'.lastKeyRequest, now)
  {
    hide Spaced, KeyTimes;
    var a := RecvAck(KEY_REQUEST, 0, s.session, 0, now, 0, 0, if id != 0 then id else 1, 0);
    if RequestKey(s, id, now) != s {
      assert AckAccepted(a);
      KeyTimesNext(s.acks, a);
      SpacedNext(g, KeyTimes(s.acks), s.lastKeyRequest, now);
    }
  }

  /** When a keyframe is asked for: 200 ms after the last time, and also whenever the clock reads less than it did
      then, because the subtraction of the two unsigned times wraps. */
  lemma KeyRequestExactly(s: Receiver, id: u32, now: u64)
    requires ClockReading(now) && s.lastKeyRequest <= INT64_MAX
    ensures var s', last := RequestKey(s, id, now), s.lastKeyRequest;
      if s.headless || s.session == 0 || (last != 0 && last <= now < last + KEY_INTERVAL) then s' == s
      else |s'.acks| == |s.acks| + 1 && s'.acks[|s.acks|].recvTime == now && s'.lastKeyRequest == now
  {
    assert now < s.lastKeyRequest ==> Sub64(now, s.lastKeyRequest) >= TWO64 - INT64_MAX;
  }

  /** ACKs for packets leave the keyframe requests alone. */
  lemma AcksAppend(g: Given, acks: seq<RecvAck>, more: seq<RecvAck>, last: u64, now: u64)
    requires AcksOk(g, acks, last, now) && AllOk(g, more) && forall a :: a in more ==> a.flags != KEY_REQUEST
    ensures AcksOk(g, acks + more, last, now)
  {
    hide AckOk;
    KeyTimesAppend(acks, more);
  }

  lemma AckInvLater(g: Given, s: Receiver, now: u64, later: u64)
    requires AckInv(g, s, now) && (g.clockRises ==> now <= later)
    ensures AckInv(g, s, later)
  {
    hide AllOk, Spaced, ValidFrames;
  }

  /** Packets only add to a frame. */
  lemma RecoveredGrows(f: RxFrame, group: nat)
    requires WellFormed(f)
    ensures Recovered(f, group).0.received >= f.received && Recovered(f, group).0.completedAt == f.completedAt
  {
    hide WellFormed, MissingIn, XorRange, CountPresent;
  }

  lemma StoreGrows(f: RxFrame, d: Datagram)
    requires FrameOk(f) && d.Accepted() && d.h.flags != STREAM_INFO
    ensures var f' := Store(f, d).0;
      f'.received >= f.received && f'.completedAt == f.completedAt && |f'.payloads| == |f.payloads|
  {
    PayloadFits(d);
    hide HeaderAccepted, Recovered;
    if d.h.flags == FEC {
      var f1 := WithParity(f, d.h.fecGroup, d.payload);
      RecoveredGrows(f1, d.h.fecGroup);
      RecoveredShape(f1, d.h.fecGroup);
    } else if d.h.flags & PROBE == 0 {
      var f1 := f.(keyframe := f.keyframe || d.h.flags & KEYFRAME != 0);
      var f2 := WithPayload(f1, d.h.packetId, d.payload);
      RecoveredGrows(f2, d.h.packetId / FEC_K);
      RecoveredShape(f2, d.h.packetId / FEC_K);
    }
  }

  lemma StoreStamped(g: Given, f: RxFrame, d: Datagram, now: u64)
    requires FrameOk(f) && d.Accepted() && d.h.flags != STREAM_INFO && StampedBy(g, f, now) && now != 0
    ensures var f1 := Store(f, d).0;
      StampedBy(g, if f1.Complete() && f1.completedAt == 0 then f1.(completedAt := now) else f1, now)
  {
    hide Store, HeaderAccepted, PacketCount;
    StoreGrows(f, d);
    ReceivedBound(Store(f, d).0);
  }

  lemma ReceivedBound(f: RxFrame)
    requires FrameOk(f)
    ensures f.received <= |f.payloads|
  {
  }

  lemma NewFrameStamped(h: PktHeader, now: u64)
    requires 1 <= h.frameBytes <= MAX_FRAME_BYTES
    ensures NewFrame(h, now).completedAt == 0 && Stamped(NewFrame(h, now))
  {
    PacketCountExact(h.frameBytes);
  }

  lemma AdmitStamped(g: Given, s: Receiver, d: Datagram, now: u64)
    requires AllStamped(g, s.frames, now) && d.Accepted() && d.h.flags != STREAM_INFO
    ensures AllStamped(g, Admit(s, d.h, now).frames, now)
  {
    PayloadFits(d);
    NewFrameStamped(d.h, now);
    hide Find, Allocated, NewFrame, LowerBound, HeaderAccepted, Stamped;
  }

  /** The sender's probes are numbered 0. */
  ghost predicate ProbesFirst(d: Datagram) { d.h.flags == PROBE ==> d.h.retransSeq == 0 }

  lemma AcksForOk(g: Given, s: Receiver, d: Datagram, f: RxFrame, now: u64, recovered: Option<nat>)
    requires d.Accepted() && d.h.flags != STREAM_INFO && s.session != 0 && ClockReading(now) && StampedBy(g, f, now)
    requires g.probesFirst ==> ProbesFirst(d)
    ensures AllOk(g, AcksFor(s, d.h, f, now, recovered))
    ensures forall a :: a in AcksFor(s, d.h, f, now, recovered) ==> a.flags != KEY_REQUEST
  {
    hide AckAccepted, HeaderAccepted, Stamped;
    FlagsOfAck(RECOVERED, f.Complete());
    if recovered.Some? {
      RecoveredAckIsAccepted(s, d, f, now, U32(recovered.value));
    }
    if d.h.flags != FEC {
      AckIsAccepted(s, d, f, now);
      AcceptedFlags(d);
      FlagsOfAck(d.h.flags, f.Complete());
    }
  }

  lemma PacketKeepsAcks(g: Given, s: Receiver, d: Datagram, now: u64)
    requires AckInv(g, s, now) && d.Accepted() && d.h.flags != STREAM_INFO && s.session != 0 && ClockReading(now)
    requires g.probesFirst ==> ProbesFirst(d)
    ensures AckInv(g, TakePacket(s, d, now), now)
  {
    hide Store, HeaderAccepted, AcksFor, FrameOk, Find, Admit, StampedBy, AcksOk, ProbesFirst, UnplayedAhead;
    PacketKeepsFrames(s, d, now);
    AdmitKeepsFrames(s, d, now);
    AdmitStamped(g, s, d, now);
    AdmitFrame(s, d.h, now);
    var s1 := Admit(s, d.h, now);
    var i := Find(s1.frames, d.h.frameId);
    if i.Some? && s1.frames[i.value].frame.Matches(d.h) {
      var e := s1.frames[i.value];
      assert FrameOk(e.frame);
      StoreStamped(g, e.frame, d, now);
      var (f, recovered) := Store(e.frame, d);
      var f' := if f.Complete() && f.completedAt == 0 then f.(completedAt := now) else f;
      AcksForOk(g, s1, d, f', now, recovered);
      AcksAppend(g, s.acks, AcksFor(s1, d.h, f', now, recovered), s.lastKeyRequest, now);
    }
  }

  // ----- Every pass keeps the invariant -----

  ghost predicate ValidInput(input: Input) {
    input.Bytes? && Parse(input.bytes).Some? ==> ProbesFirst(Parse(input.bytes).value)
  }

  lemma InSessionKeepsAcks(g: Given, s: Receiver, d: Datagram, now: u64)
    requires AckInv(g, s, now) && d.Accepted() && s.session != 0 && ClockReading(now)
    requires (g.probesFirst ==> ProbesFirst(d))
    ensures AckInv(g, TakeInSession(s, d, now), now)
  {
    hide ValidFrames, TakePacket, AcksOk, AllStamped, ProbesFirst;
    if d.h.flags != STREAM_INFO {
      hide HeaderAccepted;
      PacketKeepsAcks(g, s.(wireBytes := (s.wireBytes + d.Size()) % TWO64), d, now);
    } else {
      hide HeaderAccepted;
    }
  }

  lemma InputKeepsAcks(g: Given, s: Receiver, input: Input, now: u64)
    requires AckInv(g, s, now) && (g.probesFirst ==> ValidInput(input)) && ClockReading(now)
    ensures AckInv(g, TakeInput(s, input, now), now)
  {
    hide AcksOk, Parse, TakeInSession, ProbesFirst, FrameOk;
    if input.Bytes? && Parse(input.bytes).Some? {
      var d := Parse(input.bytes).value;
      WireCanonical(input.bytes);
      NonZeroSession(d);
      hide HeaderAccepted;
      var retired := if s.session != 0 then s.retired + {s.session} else s.retired;
      InSessionKeepsAcks(g, Open(s.(retired := retired), d.h.session, input.from), d, now);
      if s.session == d.h.session {
        InSessionKeepsAcks(g, s, d, now);
      }
    }
  }

  lemma ShowKeepsAcks(g: Given, s: Receiver, e: Entry, now: u64, decode: u32 -> Outcome)
    requires AcksOk(g, s.acks, s.lastKeyRequest, now) && ClockReading(now)
    ensures var s' := Show(s, e, now, decode); AcksOk(g, s'.acks, s'.lastKeyRequest, now)
  {
    hide AssembleFirst, AcksOk, RequestKey;
    forall r: Receiver | r.acks == s.acks && r.lastKeyRequest == s.lastKeyRequest
      ensures var r' := RequestKey(r, e.id, now); AcksOk(g, r'.acks, r'.lastKeyRequest, now)
    {
      KeyRequestOk(g, r, e.id, now);
    }
  }

  lemma DeliverOneKeepsAcks(g: Given, s: Receiver, i: nat, now: u64, decode: u32 -> Outcome)
    requires AckInv(g, s, now) && i < |s.frames| && ClockReading(now) && DeliverOne(s, i, now, decode).Some?
    ensures AckInv(g, DeliverOne(s, i, now, decode).value, now)
  {
    hide FrameOk, Show, AcksOk, StampedBy, Waited;
    DeliverOneFrames(s, i, now, decode);
    assert FrameOk(s.frames[i].frame);
    DeliverOneMarks(s, i, now, decode);
    ShowKeepsAcks(g, SkipTo(s, i), s.frames[i], now, decode);
    hide ValidFrames;
  }

  lemma {:induction false} DeliverKeepsAcks(g: Given, s: Receiver, now: u64, decode: u32 -> Outcome)
    requires AckInv(g, s, now) && ClockReading(now)
    ensures AckInv(g, Deliver(s, now, decode), now)
    decreases |s.frames| - LowerBound(s.frames, s.next)
  {
    hide DeliverOne, Front, LowerBound, ValidFrames, AcksOk, AllStamped;
    if s.frames != [] && (s.headless || s.decoder) {
      var i := Front(s, now);
      if i.Some? && DeliverOne(s, i.value, now, decode).Some? {
        DeliverOneFrames(s, i.value, now, decode);
        DeliverOneKeepsAcks(g, s, i.value, now, decode);
        DeliverKeepsAcks(g, DeliverOne(s, i.value, now, decode).value, now, decode);
      }
    }
  }

  lemma ExpireKeepsAcks(g: Given, s: Receiver, now: u64)
    requires AckInv(g, s, now)
    ensures AckInv(g, Expire(s, now), now)
  {
    hide FrameOk, Stale, AcksOk, StampedBy, SweepAll;
    SweepKeeps(s.frames, now, s.next, s.needKey);
    var kept := SweepAll(s.frames, now, s.next, s.needKey).kept;
    forall i | 0 <= i < |kept|
      ensures StampedBy(g, kept[i].frame, now)
    {
      assert kept[i] in s.frames;
    }
  }

  lemma PassKeepsAcks(g: Given, s: Receiver, step: Step)
    requires AckInv(g, s, step.now) && (g.probesFirst ==> ValidInput(step.input)) && ClockReading(step.now)
    ensures AckInv(g, Pass(s, step.input, step.now, step.decode), step.now)
  {
    hide ValidFrames, AcksOk, AllStamped, TakeInput, Deliver, Expire, ValidInput;
    if !s.halted {
      InputKeepsAcks(g, s, step.input, step.now);
      var s1 := TakeInput(s, step.input, step.now);
      if !s1.halted {
        DeliverKeepsAcks(g, s1, step.now, step.decode);
        ExpireKeepsAcks(g, Deliver(s1, step.now, step.decode), step.now);
      }
    }
  }

  ghost predicate PositiveClock(steps: seq<Step>) {
    forall i :: 0 <= i < |steps| ==> ClockReading(steps[i].now)
  }

  /** What the steps of a run give. */
  ghost function GivenBy(steps: seq<Step>): Given {
    Given(forall i, j :: 0 <= i < j < |steps| ==> steps[i].now <= steps[j].now,
          forall i :: 0 <= i < |steps| ==> ValidInput(steps[i].input))
  }

  lemma InitAckInv(g: Given, headless: bool)
    ensures AckInv(g, Init(headless), 0)
  {
  }

  lemma {:induction false} RunKeepsAcks(headless: bool, steps: seq<Step>, states: seq<Receiver>, n: nat)
    requires IsRun(headless, steps, states) && PositiveClock(steps) && n < |states|
    ensures AckInv(GivenBy(steps), states[n], if n == 0 then 0 else steps[n - 1].now)
    decreases n
  {
    hide IsRun, AckInv, ValidFrames, Pass, ValidInput, ClockReading;
    var g := GivenBy(steps);
    RunStart(headless, steps, states);
    if n == 0 {
      InitAckInv(g, headless);
    } else {
      RunKeepsAcks(headless, steps, states, n - 1);
      RunStep(headless, steps, states, n - 1);
      AckInvLater(g, states[n - 1], if n == 1 then 0 else steps[n - 2].now, steps[n - 1].now);
      PassKeepsAcks(g, states[n - 1], steps[n - 1]);
    }
  }

  /** An ACK or keyframe request the receiver builds decodes to what it says exactly when the clock reads no less than
      when the frame completed and the packet was no numbered probe; with a clock that never steps back and the
      sender's probes, that is always. */
  lemma EveryAckAccepted(headless: bool, steps: seq<Step>, states: seq<Receiver>, n: nat, a: RecvAck)
    requires IsRun(headless, steps, states) && PositiveClock(steps) && n < |states| && a in states[n].acks
    ensures DecodeAck(EncodeAck(a)) == if OnTime(a) && ProbeUnnumbered(a) then Some(a) else None
    ensures GivenBy(steps).clockRises ==> OnTime(a)
    ensures GivenBy(steps).probesFirst ==> ProbeUnnumbered(a)
  {
    RunKeepsAcks(headless, steps, states, n);
    AckRoundTrip(a);
    hide IsRun, ValidFrames, AllStamped, Spaced, AckAccepted, PositiveClock, GivenBy;
    assert AckOk(GivenBy(steps), a);
  }

  /** Each keyframe request, over all sessions, is made at least 200 ms after the one before it, or the clock has
      stepped back between the two; so they are 200 ms apart when it never does. */
  lemma KeyRequestsAreSpaced(headless: bool, steps: seq<Step>, states: seq<Receiver>, n: nat, i: nat)
    requires IsRun(headless, steps, states) && PositiveClock(steps) && n < |states|
    requires 0 < i < |KeyTimes(states[n].acks)|
    ensures var times := KeyTimes(states[n].acks);
      times[i - 1] + KEY_INTERVAL <= times[i] || (!GivenBy(steps).clockRises && times[i] < times[i - 1])
  {
    RunKeepsAcks(headless, steps, states, n);
  }

  // ----- Memory -----

  ghost predicate MemoryInv(s: Receiver) {
    ValidFrames(s.frames) && |s.frames| <= WINDOW && Allocated(s.frames) <= MAX_BYTES
  }

  lemma {:induction false} AllocatedAppend(a: seq<Entry>, b: seq<Entry>)
    ensures Allocated(a + b) == Allocated(a) + Allocated(b)
  {
    if b == [] {
      assert a + b == a;
    } else {
      assert (a + b)[..|a + b| - 1] == a + b[..|b| - 1];
      AllocatedAppend(a, b[..|b| - 1]);
    }
  }

  /** Sizes are fixed when a frame is admitted. */
  lemma {:induction false} AllocatedSame(a: seq<Entry>, b: seq<Entry>)
    requires |a| == |b| && forall i :: 0 <= i < |a| ==> a[i].frame.size == b[i].frame.size
    ensures Allocated(a) == Allocated(b)
  {
    if a != [] {
      AllocatedSame(a[..|a| - 1], b[..|b| - 1]);
    }
  }

  lemma InsertAllocates(frames: seq<Entry>, e: Entry)
    ensures Allocated(Insert(frames, e)) == Allocated(frames) + e.frame.size
    ensures |Insert(frames, e)| == |frames| + 1
  {
    hide LowerBound;
    var i := LowerBound(frames, e.id);
    AllocatedAppend(frames[..i] + [e], frames[i..]);
    AllocatedAppend(frames[..i], [e]);
    AllocatedAppend(frames[..i], frames[i..]);
    assert frames[..i] + frames[i..] == frames;
    assert Allocated([e]) == e.frame.size;
  }

  lemma AdmitKeepsMemory(s: Receiver, d: Datagram, now: u64)
    requires MemoryInv(s) && d.Accepted() && d.h.flags != STREAM_INFO
    ensures MemoryInv(Admit(s, d.h, now))
  {
    hide FrameOk, HeaderAccepted, Find, Insert, Allocated;
    AdmitKeepsFrames(s, d, now);
    InsertAllocates(s.frames, Entry(d.h.frameId, NewFrame(d.h, now), false));
  }

  lemma PacketKeepsMemory(s: Receiver, d: Datagram, now: u64)
    requires MemoryInv(s) && d.Accepted() && d.h.flags != STREAM_INFO
    ensures MemoryInv(TakePacket(s, d, now))
  {
    hide Store, HeaderAccepted, AcksFor, FrameOk, Find, Admit, Allocated;
    AdmitKeepsMemory(s, d, now);
    PacketKeepsFrames(s, d, now);
    var s1, s' := Admit(s, d.h, now), TakePacket(s, d, now);
    var i := Find(s1.frames, d.h.frameId);
    if i.Some? && s1.frames[i.value].frame.Matches(d.h) {
      assert FrameOk(s1.frames[i.value].frame);
      StoreSize(s1.frames[i.value].frame, d);
      hide ValidFrames;
      AllocatedSame(s1.frames, s'.frames);
    }
  }

  lemma StoreSize(f: RxFrame, d: Datagram)
    requires FrameOk(f) && d.Accepted() && d.h.flags != STREAM_INFO
    ensures Store(f, d).0.size == f.size
  {
    PayloadFits(d);
    hide HeaderAccepted, Recovered;
    if d.h.flags == FEC {
      RecoveredShape(WithParity(f, d.h.fecGroup, d.payload),
                     d.h.fecGroup);
    } else if d.h.flags & PROBE == 0 {
      var f1 := f.(keyframe := f.keyframe || d.h.flags & KEYFRAME != 0);
      RecoveredShape(WithPayload(f1, d.h.packetId, d.payload), d.h.packetId / FEC_K);
    }
  }

  lemma InSessionKeepsMemory(s: Receiver, d: Datagram, now: u64)
    requires MemoryInv(s) && d.Accepted()
    ensures MemoryInv(TakeInSession(s, d, now))
  {
    hide ValidFrames, TakePacket, Allocated;
    if d.h.flags != STREAM_INFO {
      hide HeaderAccepted;
      PacketKeepsMemory(s.(wireBytes := (s.wireBytes + d.Size()) % TWO64), d, now);
    } else {
      hide HeaderAccepted;
    }
  }

  lemma InputKeepsMemory(s: Receiver, input: Input, now: u64)
    requires MemoryInv(s)
    ensures MemoryInv(TakeInput(s, input, now))
  {
    hide Parse, TakeInSession, FrameOk, HeaderAccepted;
    if input.Bytes? && Parse(input.bytes).Some? {
      var d := Parse(input.bytes).value;
      WireCanonical(input.bytes);
      var retired := if s.session != 0 then s.retired + {s.session} else s.retired;
      InSessionKeepsMemory(Open(s.(retired := retired), d.h.session, input.from), d, now);
      InSessionKeepsMemory(s, d, now);
    }
  }

  lemma {:induction false} DeliverKeepsMemory(s: Receiver, now: u64, decode: u32 -> Outcome)
    requires MemoryInv(s)
    ensures MemoryInv(Deliver(s, now, decode))
    decreases |s.frames| - LowerBound(s.frames, s.next)
  {
    hide DeliverOne, Front, LowerBound, FrameOk;
    if s.frames != [] && (s.headless || s.decoder) {
      var i := Front(s, now);
      if i.Some? && DeliverOne(s, i.value, now, decode).Some? {
        var s' := DeliverOne(s, i.value, now, decode).value;
        DeliverOneFrames(s, i.value, now, decode);
        assert FrameOk(s.frames[i.value].frame);
        DeliverOneMarks(s, i.value, now, decode);
        AllocatedSame(s.frames, s'.frames);
        hide ValidFrames;
        DeliverKeepsMemory(s', now, decode);
      }
    }
  }

  lemma {:induction false} SweepFrees(frames: seq<Entry>, now: u64, next: u32, needKey: bool)
    ensures Allocated(SweepAll(frames, now, next, needKey).kept) <= Allocated(frames)
  {
    hide Stale;
    if frames != [] {
      var e := frames[|frames| - 1];
      SweepFrees(frames[..|frames| - 1], now, next, needKey);
      AllocatedAppend(SweepAll(frames[..|frames| - 1], now, next, needKey).kept, [e]);
      assert Allocated([e]) == e.frame.size;
    }
  }

  /** At most 256 frames and 16 MiB of declared frame bytes are ever held. */
  lemma {:induction false} MemoryIsBounded(headless: bool, steps: seq<Step>, states: seq<Receiver>, n: nat)
    requires IsRun(headless, steps, states) && n < |states|
    ensures MemoryInv(states[n])
    decreases n
  {
    hide IsRun, MemoryInv, Pass, ValidFrames;
    RunStart(headless, steps, states);
    if n == 0 {
      InitMemory(headless);
    } else {
      MemoryIsBounded(headless, steps, states, n - 1);
      RunStep(headless, steps, states, n - 1);
      PassKeepsMemory(states[n - 1], steps[n - 1]);
    }
  }

  lemma InitMemory(headless: bool)
    ensures MemoryInv(Init(headless))
  {
  }

  lemma PassKeepsMemory(s: Receiver, step: Step)
    requires MemoryInv(s)
    ensures MemoryInv(Pass(s, step.input, step.now, step.decode))
  {
    hide FrameOk, TakeInput, Deliver, SweepAll;
    if !s.halted {
      InputKeepsMemory(s, step.input, step.now);
      var s1 := TakeInput(s, step.input, step.now);
      if !s1.halted {
        DeliverKeepsMemory(s1, step.now, step.decode);
        var s2 := Deliver(s1, step.now, step.decode);
        SweepKeeps(s2.frames, step.now, s2.next, s2.needKey);
        SweepFrees(s2.frames, step.now, s2.next, s2.needKey);
      }
    }
  }
}
