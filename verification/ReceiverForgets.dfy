/** A run in which a frame is not decoded although the one before it was: the sweep forgot an older frame in between. */
module ReceiverForgets {
  import opened Bytes
  import opened Protocol
  import opened Reassembly
  import opened Packetizer
  import opened Receiver
  import opened ReceiverPlayout
  import ReceiverAnswers
  import Clock = ReceiverClock

  const WAIT: nat := 2 * FRAME_TIMEOUT

  // ----- Taking a packet that is its whole frame -----

  /** There is room for the frame, among a few frames of one packet. */
  ghost predicate Room(s: Receiver, d: Datagram) {
    && ValidFrames(s.frames) && Find(s.frames, d.h.frameId).None? && |s.frames| <= 2
    && s.next <= d.h.frameId < s.next + WINDOW
    && forall i :: 0 <= i < |s.frames| ==> s.frames[i].frame.size <= LOAD_SZ
  }

  lemma {:induction false} FewBytes(frames: seq<Entry>)
    requires forall i :: 0 <= i < |frames| ==> frames[i].frame.size <= LOAD_SZ
    ensures Allocated(frames) <= |frames| * LOAD_SZ
  {
    if frames != [] {
      FewBytes(frames[..|frames| - 1]);
    }
  }

  lemma NewFilled(d: Datagram, now: u64)
    requires Clock.FillsFrame(d) && now != 0
    ensures d.h.flags != STREAM_INFO
    ensures var f := NewFrame(d.h, now);
      && FrameOk(f) && f.parity == map[] && f.Matches(d.h) && f.payloads == [[]] && f.firstSeen == now
      && f.completedAt == 0 && f.size == d.h.frameBytes && f.keyframe == (d.h.flags & KEYFRAME != 0)
  {
    Clock.FillsParts(d);
    PayloadFits(d);
    PacketCountExact(d.h.frameBytes);
    NewFrameWellFormed(d.h, now);
  }

  /** Replacing the entry that was inserted. */
  lemma InsertOther(frames: seq<Entry>, e: Entry, g: Entry)
    requires g.id == e.id
    ensures Insert(frames, e)[LowerBound(frames, e.id) := g] == Insert(frames, g)
  {
    hide LowerBound;
    var i := LowerBound(frames, e.id);
    assert (frames[..i] + [e] + frames[i..])[i := g] == frames[..i] + [g] + frames[i..];
  }

  lemma Filled(s: Receiver, d: Datagram, now: u64) returns (e: Entry)
    requires Clock.FillsFrame(d) && Room(s, d) && now != 0
    ensures d.h.flags != STREAM_INFO && Clock.IsFilled(e, d, now)
    ensures var s' := TakePacket(s, d, now);
      s' == s.(frames := Insert(s.frames, e), delivered := s'.delivered, acks := s'.acks)
  {
    Clock.FillsParts(d);
    NewFilled(d, now);
    FewBytes(s.frames);
    var new0 := Entry(d.h.frameId, NewFrame(d.h, now), false);
    Clock.OnlyPacket(new0.frame, d);
    ReceiverAnswers.InsertFinds(s.frames, new0);
    hide Store, HeaderAccepted, AcksFor, Clock.FillsFrame, FrameOk, Insert, NewFrame, LowerBound, ValidFrames;
    var s1 := Admit(s, d.h, now);
    assert s1 == s.(frames := Insert(s.frames, new0)) by {
      assert Allocated(s.frames) + d.h.frameBytes <= MAX_BYTES;
    }
    var (f, recovered) := Store(new0.frame, d);
    e := new0.(frame := f.(completedAt := now));
    InsertOther(s.frames, new0, e);
  }

  /** Both packets of the session, and the picture size, are taken in it. */
  lemma FilledInput(s: Receiver, from: Address, d: Datagram, now: u64) returns (e: Entry)
    requires Clock.FillsFrame(d) && now != 0 && s.retired == {} && Room(s, d)
    requires s.session == d.h.session && s.peer == from
    ensures Clock.IsFilled(e, d, now)
    ensures var s' := TakeInput(s, Bytes(from, Wire(d)), now);
      s' == s.(wireBytes := s'.wireBytes, frames := Insert(s.frames, e), delivered := s'.delivered, acks := s'.acks)
  {
    hide TakePacket, HeaderAccepted, Clock.FillsFrame, Parse, Wire, FrameOk, Insert, Find;
    Clock.FillsParts(d);
    WireRoundTrip(d);
    e := Filled(s.(wireBytes := (s.wireBytes + d.Size()) % TWO64), d, now);
  }

  lemma FirstInput(from: Address, d: Datagram, now: u64) returns (e: Entry)
    requires Clock.FillsFrame(d) && now != 0 && 1 <= d.h.frameId < 1 + WINDOW
    ensures Clock.IsFilled(e, d, now)
    ensures var s0 := Init(false).(session := d.h.session, peer := from, trace := [Opened(d.h.session)]);
      var s' := TakeInput(Init(false), Bytes(from, Wire(d)), now);
      s' == s0.(wireBytes := s'.wireBytes, frames := [e], delivered := s'.delivered, acks := s'.acks)
  {
    hide TakePacket, HeaderAccepted, Clock.FillsFrame, Parse, Wire, FrameOk;
    Clock.FillsParts(d);
    WireRoundTrip(d);
    var begun := Open(Init(false), d.h.session, from);
    e := Filled(begun.(wireBytes := (begun.wireBytes + d.Size()) % TWO64), d, now);
    assert Insert([], e) == [e];
  }

  lemma InfoInput(s: Receiver, from: Address, size: u32, now: u64)
    requires 2 <= size <= 8192 && size % 2 == 0 && s.session != 0 && s.retired == {} && s.peer == from && !s.headless
    requires s.width == 0 && ValidFrames(s.frames)
    ensures var s' := TakeInput(s, Bytes(from, Wire(StreamInfoPacket(s.session, size, size))), now);
      s' == s.(wireBytes := s'.wireBytes, decoder := true, needKey := true, width := size, height := size,
               trace := s.trace + [NewDecoder(size, size)])
  {
    hide Parse, Wire, ValidFrames;
    var d := StreamInfoPacket(s.session, size, size);
    StreamInfoAccepted(s.session, size, size);
    WireRoundTrip(d);
  }

  // ----- The sweep -----

  lemma SweepLast(frames: seq<Entry>, e: Entry, now: u64, next: u32, needKey: bool)
    ensures SweepAll([], now, next, needKey) == Sweep([], next, needKey)
    ensures var w := SweepAll(frames, now, next, needKey);
      SweepAll(frames + [e], now, next, needKey) ==
        if !Stale(e, now) then w.(kept := w.kept + [e])
        else if e.played then w
        else w.(next := if U32(e.id + 1) > w.next then U32(e.id + 1) else w.next, needKey := true)
  {
    assert (frames + [e])[..|frames|] == frames;
  }

  lemma StaleWhen(e: Entry, now: u64)
    requires ClockReading(now) && ClockReading(e.frame.firstSeen) && e.frame.firstSeen <= now
    ensures Stale(e, now) <==> now - e.frame.firstSeen > WAIT
  {
    hide Stale;
    TimeoutsExactly(e, now);
  }

  // ----- The run -----

  /** The datagrams of the run: the only packets of frames 1 to 4, of which frame 3 is a keyframe and frame 4 is not. */
  ghost predicate Frames(ds: seq<Datagram>) {
    && |ds| == 4 && (forall i :: 0 <= i < 4 ==> Clock.FillsFrame(ds[i]) && ds[i].h.frameId == i + 1)
    && (forall i :: 0 <= i < 4 ==> ds[i].h.session == ds[0].h.session)
    && ds[2].h.flags & KEYFRAME != 0 && ds[3].h.flags & KEYFRAME == 0
  }

  /** The state, as far as it matters: frames held in the datagrams' session, which came from here. */
  ghost predicate In(s: Receiver, session: u64, from: Address, frames: seq<Entry>, next: u32) {
    && !s.halted && !s.headless && s.session == session != 0 && s.peer == from && s.retired == {}
    && s.frames == frames && s.next == next && ValidFrames(frames)
  }

  lemma FilledParts(e: Entry, d: Datagram, at: u64)
    requires Clock.FillsFrame(d) && Clock.IsFilled(e, d, at)
    ensures e.id == d.h.frameId && !e.played && FrameOk(e.frame) && e.frame.firstSeen == at && e.frame.Complete()
    ensures e.frame.size <= LOAD_SZ && (e.frame.keyframe <==> d.h.flags & KEYFRAME != 0)
  {
  }

  /** Frame 2 opens the session; there is no decoder yet. */
  lemma Pass0(from: Address, d: Datagram, now: u64, decode: u32 -> Outcome) returns (e: Entry)
    requires Clock.FillsFrame(d) && d.h.frameId == 2 && ClockReading(now)
    ensures ValidFrames(Init(false).frames) && Clock.IsFilled(e, d, now)
    ensures var s' := Pass(Init(false), Bytes(from, Wire(d)), now, decode);
      In(s', d.h.session, from, [e], 1) && !s'.decoder && s'.width == 0
  {
    hide TakeInput, Wire, Clock.FillsFrame, Clock.IsFilled, FrameOk, Stale;
    Clock.FillsParts(d);
    e := FirstInput(from, d, now);
    FilledParts(e, d, now);
    var input := Bytes(from, Wire(d));
    TakeKeepsFrames(Init(false), input, now);
    var s1 := TakeInput(Init(false), input, now);
    assert Deliver(s1, now, decode) == s1;
    StaleWhen(e, now);
    SweepLast([], e, now, s1.next, s1.needKey);
    assert [] + [e] == [e];
  }

  /** Frame 1 arrives later. */
  lemma Pass1(s: Receiver, from: Address, d: Datagram, e2: Entry, now: u64, decode: u32 -> Outcome) returns (e1: Entry)
    requires Clock.FillsFrame(d) && d.h.frameId == 1 && In(s, d.h.session, from, [e2], 1) && !s.decoder && s.width == 0
    requires e2.id == 2 && ClockReading(now) && e2.frame.size <= LOAD_SZ
    requires ClockReading(e2.frame.firstSeen) && now == e2.frame.firstSeen + WAIT
    ensures Clock.IsFilled(e1, d, now)
    ensures var s' := Pass(s, Bytes(from, Wire(d)), now, decode);
      In(s', d.h.session, from, [e1, e2], 1) && !s'.decoder && s'.width == 0
  {
    hide TakeInput, Wire, Clock.FillsFrame, Clock.IsFilled, FrameOk, Stale;
    Clock.FillsParts(d);
    e1 := FilledInput(s, from, d, now);
    FilledParts(e1, d, now);
    var input := Bytes(from, Wire(d));
    TakeKeepsFrames(s, input, now);
    var s1 := TakeInput(s, input, now);
    assert s1.frames == [e1, e2];
    assert Deliver(s1, now, decode) == s1;
    StaleWhen(e1, now);
    StaleWhen(e2, now);
    SweepLast([], e1, now, s1.next, s1.needKey);
    SweepLast([e1], e2, now, s1.next, s1.needKey);
    assert [] + [e1] == [e1] && [e1] + [e2] == [e1, e2];
  }

  /** Frame 3 arrives, and frame 2 is forgotten: the position moves past frame 1. */
  lemma Pass2(s: Receiver, from: Address, d: Datagram, e1: Entry, e2: Entry, now: u64, decode: u32 -> Outcome)
    returns (e3: Entry)
    requires Clock.FillsFrame(d) && d.h.frameId == 3 && In(s, d.h.session, from, [e1, e2], 1) && !s.decoder
    requires s.width == 0 && e1.id == 1 && e2.id == 2 && !e2.played && ClockReading(now)
    requires e1.frame.size <= LOAD_SZ && e2.frame.size <= LOAD_SZ
    requires ClockReading(e2.frame.firstSeen) && now == e2.frame.firstSeen + WAIT + 1
    requires e1.frame.firstSeen == now - 1
    ensures Clock.IsFilled(e3, d, now)
    ensures var s' := Pass(s, Bytes(from, Wire(d)), now, decode);
      In(s', d.h.session, from, [e1, e3], 3) && !s'.decoder && s'.width == 0
  {
    hide TakeInput, Wire, Clock.FillsFrame, Clock.IsFilled, FrameOk, Stale;
    Clock.FillsParts(d);
    e3 := FilledInput(s, from, d, now);
    FilledParts(e3, d, now);
    var input := Bytes(from, Wire(d));
    TakeKeepsFrames(s, input, now);
    var s1 := TakeInput(s, input, now);
    InsertLast(s.frames, e3);
    assert s1.frames == [e1, e2, e3];
    assert Deliver(s1, now, decode) == s1;
    StaleWhen(e1, now);
    StaleWhen(e2, now);
    StaleWhen(e3, now);
    SweepMiddle(e1, e2, e3, now, s1.needKey);
  }

  lemma SweepMiddle(e1: Entry, e2: Entry, e3: Entry, now: u64, needKey: bool)
    requires !Stale(e1, now) && Stale(e2, now) && !Stale(e3, now) && e2.id == 2 && !e2.played
    ensures SweepAll([e1, e2, e3], now, 1, needKey) == Sweep([e1, e3], 3, true)
  {
    hide Stale, SweepAll;
    SweepLast([], e1, now, 1, needKey);
    SweepLast([e1], e2, now, 1, needKey);
    SweepLast([e1, e2], e3, now, 1, needKey);
    assert [] + [e1] == [e1] && [e1] + [e2] == [e1, e2] && [e1, e2] + [e3] == [e1, e2, e3] && [e1] + [e3] == [e1, e3];
  }

  lemma InsertLast(frames: seq<Entry>, e: Entry)
    requires forall i :: 0 <= i < |frames| ==> frames[i].id < e.id
    ensures Insert(frames, e) == frames + [e]
  {
    hide LowerBound;
    var i := LowerBound(frames, e.id);
    assert i == |frames|;
    assert frames[..i] == frames && frames[i..] == [];
  }

  /** The picture size is known: frame 3 is decoded, and then frame 1 is forgotten. */
  lemma Pass3(s: Receiver, from: Address, size: u32, e1: Entry, e3: Entry, now: u64, decode: u32 -> Outcome)
    requires In(s, s.session, from, [e1, e3], 3) && s.width == 0 && 2 <= size <= 8192 && size % 2 == 0
    requires e1.id == 1 && !e1.played && e3.id == 3 && !e3.played && e3.frame.keyframe && e3.frame.Complete()
    requires ClockReading(now) && ClockReading(e1.frame.firstSeen) && now == e1.frame.firstSeen + WAIT + 1
    requires e3.frame.firstSeen == now - WAIT && !decode(3).Broken?
    ensures var s' := Pass(s, Bytes(from, Wire(StreamInfoPacket(s.session, size, size))), now, decode);
      && In(s', s.session, from, [e3.(played := true)], 4) && s'.decoder && s'.needKey
      && JustDecoded(s'.trace, s.session, 4)
  {
    hide TakeInput, Wire, FrameOk, Stale, StreamInfoPacket;
    InfoInput(s, from, size, now);
    var input := Bytes(from, Wire(StreamInfoPacket(s.session, size, size)));
    TakeKeepsFrames(s, input, now);
    var s1 := TakeInput(s, input, now);
    FrontOfTwo(s1, e1, e3, now);
    Decoded(s1, e3, now, decode);
    var s2 := DeliverOne(s1, 1, now, decode).value;
    hide Show, DeliverOne;
    DeliverOneFrames(s1, 1, now, decode);
    assert s2.frames == [e1, e3.(played := true)];
    assert Deliver(s1, now, decode) == s2;
    StaleWhen(e1, now);
    StaleWhen(e3, now);
    SameStale(e3, now);
    SweepFront(e1, e3.(played := true), now, s2.needKey);
  }

  lemma SameStale(e: Entry, now: u64)
    ensures Stale(e.(played := true), now) == Stale(e, now)
  {
  }

  lemma FrontOfTwo(s: Receiver, e1: Entry, e3: Entry, now: u64)
    requires s.frames == [e1, e3] && s.next == 3 && e1.id == 1 && e3.id == 3
    ensures Front(s, now) == Some(1)
  {
    hide Waited, LowerBound;
    var i := LowerBound(s.frames, 3);
    assert s.frames[0] == e1 && s.frames[1] == e3;
    assert i == 1;
  }

  lemma Decoded(s: Receiver, e: Entry, now: u64, decode: u32 -> Outcome)
    requires |s.frames| == 2 && s.frames[1] == e && s.next == e.id == 3 && s.needKey && !s.headless
    requires e.frame.keyframe && e.frame.Complete() && !e.played && !decode(3).Broken?
    ensures DeliverOne(s, 1, now, decode).Some?
    ensures var s' := DeliverOne(s, 1, now, decode).value;
      && s' == s.(frames := s.frames[1 := e.(played := true)], next := 4, needKey := false, decoded := s'.decoded,
                  trace := s'.trace)
      && JustDecoded(s'.trace, s.session, 4)
  {
    hide AssembleFirst;
  }

  lemma SweepFront(e1: Entry, e3: Entry, now: u64, needKey: bool)
    requires Stale(e1, now) && !Stale(e3, now) && e1.id == 1 && !e1.played
    ensures SweepAll([e1, e3], now, 4, needKey) == Sweep([e3], 4, true)
  {
    hide Stale, SweepAll;
    SweepLast([], e1, now, 4, needKey);
    SweepLast([e1], e3, now, 4, needKey);
    assert [] + [e1] == [e1] && [e1] + [e3] == [e1, e3] && [] + [e3] == [e3];
  }

  /** Frame 4 arrives in full and is passed over, although frame 3 was decoded last. */
  ghost predicate PassedOver(s: Receiver, step: Step, s': Receiver) {
    && ValidFrames(s.frames)
    && var s1 := TakeInput(s, step.input, step.now);
       && ValidFrames(s1.frames) && |s1.frames| == 2 && s1.frames[1].id == 4 == s1.next && s1.frames[1].frame.Complete()
       && Deliver(s1, step.now, step.decode).next == 5
       && s1.trace == s.trace && JustDecoded(s.trace, s.session, 4) && s'.trace == s.trace
  }

  lemma Pass4(s: Receiver, from: Address, d: Datagram, e3: Entry, now: u64, decode: u32 -> Outcome)
    requires Clock.FillsFrame(d) && d.h.frameId == 4 && d.h.flags & KEYFRAME == 0 && ClockReading(now)
    requires In(s, d.h.session, from, [e3], 4) && s.decoder && s.needKey && JustDecoded(s.trace, s.session, 4)
    requires e3.id == 3 && e3.frame.size <= LOAD_SZ
    ensures var step := Step(Bytes(from, Wire(d)), now, decode);
      PassedOver(s, step, Pass(s, step.input, now, decode))
  {
    hide TakeInput, Wire, Clock.FillsFrame, Clock.IsFilled, FrameOk, Stale, JustDecoded;
    Clock.FillsParts(d);
    var e4 := FilledInput(s, from, d, now);
    FilledParts(e4, d, now);
    var input := Bytes(from, Wire(d));
    TakeKeepsFrames(s, input, now);
    var s1 := TakeInput(s, input, now);
    InsertLast(s.frames, e4);
    assert s1.frames == [e3, e4];
    Skipped(s1, e3, e4, now, decode);
    hide SweepAll;
  }

  lemma Skipped(s: Receiver, e3: Entry, e4: Entry, now: u64, decode: u32 -> Outcome)
    requires s.frames == [e3, e4] && s.next == 4 && e3.id == 3 && e4.id == 4 && s.needKey && !s.headless && s.decoder
    requires !e4.played && e4.frame.Complete() && !e4.frame.keyframe && ValidFrames(s.frames)
    ensures var s' := Deliver(s, now, decode); s'.next == 5 && s'.trace == s.trace
  {
    hide Waited, ValidFrames;
    assert Front(s, now) == Some(1);
    var s1 := DeliverOne(s, 1, now, decode).value;
    DeliverOneFrames(s, 1, now, decode);
    assert s1.next == 5 && s1.trace == s.trace;
    assert Front(s1, now).None?;
  }

  /** The steps of the run. */
  ghost function ForgetfulSteps(from: Address, ds: seq<Datagram>, size: u32, t: nat, decode: u32 -> Outcome): seq<Step>
    requires Frames(ds) && ClockReading(t) && t + 2 * WAIT + 1 <= INT64_MAX
  {
    var info := StreamInfoPacket(ds[0].h.session, size, size);
    [Step(Bytes(from, Wire(ds[1])), t, decode), Step(Bytes(from, Wire(ds[0])), t + WAIT, decode),
     Step(Bytes(from, Wire(ds[2])), t + WAIT + 1, decode), Step(Bytes(from, Wire(info)), t + 2 * WAIT + 1, decode),
     Step(Bytes(from, Wire(ds[3])), t + 2 * WAIT + 1, decode)]
  }

  ghost predicate Passes(s: Receiver, step: Step, s': Receiver) {
    ValidFrames(s.frames) && s' == Pass(s, step.input, step.now, step.decode)
  }

  lemma RunOfFive(steps: seq<Step>, states: seq<Receiver>)
    requires |steps| == 5 && |states| == 6 && states[0] == Init(false)
    requires Passes(states[0], steps[0], states[1]) && Passes(states[1], steps[1], states[2])
    requires Passes(states[2], steps[2], states[3]) && Passes(states[3], steps[3], states[4])
    requires Passes(states[4], steps[4], states[5])
    ensures IsRun(false, steps, states)
  {
    hide Pass, ValidFrames;
    forall i | 0 <= i < 5
      ensures Passes(states[i], steps[i], states[i + 1])
    {
      assert i == 0 || i == 1 || i == 2 || i == 3 || i == 4;
    }
  }

  /** A frame can be passed over though the one before it was decoded last, without an error: in this run, with a
      clock that never steps back, frame 1 is still waiting when the sweep moves the position past it, and is
      forgotten after frame 3 is decoded; frame 4 is then passed over as if a keyframe were needed. */
  lemma ForgottenFrameCostsAnother(from: Address, ds: seq<Datagram>, size: u32, t: nat, decode: u32 -> Outcome)
    requires Frames(ds) && ClockReading(t) && t + 2 * WAIT + 1 <= INT64_MAX && 2 <= size <= 8192 && size % 2 == 0
    requires !decode(3).Broken?
    ensures var steps := ForgetfulSteps(from, ds, size, t, decode);
      exists states: seq<Receiver> :: |states| == 6 && IsRun(false, steps, states) && !states[4].halted
        && PassedOver(states[4], steps[4], states[5])
  {
    hide Pass, Wire, Clock.FillsFrame, Clock.IsFilled, FrameOk, IsRun, PassedOver, ValidFrames, Init;
    var steps := ForgetfulSteps(from, ds, size, t, decode);
    var s0 := Init(false);
    var e2 := Pass0(from, ds[1], t, decode);
    FilledParts(e2, ds[1], t);
    var s1 := Pass(s0, steps[0].input, steps[0].now, decode);
    var e1 := Pass1(s1, from, ds[0], e2, t + WAIT, decode);
    FilledParts(e1, ds[0], t + WAIT);
    var s2 := Pass(s1, steps[1].input, steps[1].now, decode);
    var e3 := Pass2(s2, from, ds[2], e1, e2, t + WAIT + 1, decode);
    FilledParts(e3, ds[2], t + WAIT + 1);
    var s3 := Pass(s2, steps[2].input, steps[2].now, decode);
    Pass3(s3, from, size, e1, e3, t + 2 * WAIT + 1, decode);
    var s4 := Pass(s3, steps[3].input, steps[3].now, decode);
    Pass4(s4, from, ds[3], e3.(played := true), t + 2 * WAIT + 1, decode);
    var s5 := Pass(s4, steps[4].input, steps[4].now, decode);
    RunOfFive(steps, [s0, s1, s2, s3, s4, s5]);
  }

  /** There are such datagrams. */
  lemma FramesExist(session: u64, t: u64) returns (ds: seq<Datagram>)
    requires session != 0 && ClockReading(t)
    ensures Frames(ds) && ds[0].h.session == session
  {
    var a, b := TxFrame(session, 1, t, true, [0]), TxFrame(session, 2, t, true, [0]);
    var c, d := TxFrame(session, 3, t, true, [0]), TxFrame(session, 4, t, false, [0]);
    ds := [DataPacket(a, 0, 0, t), DataPacket(b, 0, 0, t), DataPacket(c, 0, 0, t), DataPacket(d, 0, 0, t)];
    OnePacket(a, t);
    OnePacket(b, t);
    OnePacket(c, t);
    OnePacket(d, t);
    hide DataPacket, Clock.FillsFrame;
  }

  lemma OnePacket(f: TxFrame, t: u64)
    requires LegalTx(f) && |f.bytes| == 1 && ClockReading(t)
    ensures PacketCount(|f.bytes|) == 1
    ensures var d := DataPacket(f, 0, 0, t);
      && Clock.FillsFrame(d) && d.h.frameId == f.id && d.h.session == f.session
      && (d.h.flags & KEYFRAME != 0 <==> f.keyframe)
  {
    PacketCountExact(1);
    DataPacketAccepted(f, 0, 0, t);
    assert (FIRST | LAST | KEYFRAME) & (PROBE | FEC | STREAM_INFO) == 0 && (FIRST | LAST) & KEYFRAME == 0;
    assert (FIRST | LAST | 0) == FIRST | LAST && (FIRST | LAST | KEYFRAME) & KEYFRAME != 0;
    assert (FIRST | LAST) & (PROBE | FEC | STREAM_INFO) == 0;
  }
}
