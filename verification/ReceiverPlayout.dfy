/** What the decoder sees, over every run of the receiver. */
module ReceiverPlayout {
  import opened Bytes
  import opened Protocol
  import opened Reassembly
  import opened Packetizer
  import opened Receiver

  // ----- Legal playback -----

  /** The last frame shown in the current session; 0 if none. */
  function LastShown(trace: seq<Playback>): nat {
    if trace == [] then 0
    else
      match trace[|trace| - 1]
      case Opened(session) => 0
      case Decode(session, id, keyframe, bytes, outcome) => id
      case Tally(id) => id
      case _ => LastShown(trace[..|trace| - 1])
  }

  /** The session last opened; 0 if none. */
  function Current(trace: seq<Playback>): u64 {
    if trace == [] then 0
    else if trace[|trace| - 1].Opened? then trace[|trace| - 1].session
    else Current(trace[..|trace| - 1])
  }

  ghost predicate WasOpened(trace: seq<Playback>, session: u64) { Opened(session) in trace }

  /** The decoder can take frame id next: it was just reset, or it decoded the frame before without an error. */
  ghost predicate References(before: seq<Playback>, session: u64, id: u32, keyframe: bool) {
    && before != []
    && var e := before[|before| - 1];
       || (e.Reset? && keyframe)
       || (e.Decode? && e.session == session && e.id + 1 == id && !e.outcome.Broken?)
  }

  ghost predicate LegalPlay(before: seq<Playback>, e: Playback) {
    match e
    case Opened(session) => session != 0 && !WasOpened(before, session)
    case Decode(session, id, keyframe, bytes, outcome) =>
      session == Current(before) && id > LastShown(before) && References(before, session, id, keyframe)
    case Tally(id) => id > LastShown(before)
    case _ => true
  }

  ghost predicate LegalTrace(trace: seq<Playback>) {
    forall n :: 0 <= n < |trace| ==> LegalPlay(trace[..n], trace[n])
  }

  lemma LegalAppend(trace: seq<Playback>, e: Playback)
    requires LegalTrace(trace) && LegalPlay(trace, e)
    ensures LegalTrace(trace + [e])
  {
    hide LegalPlay;
    var all := trace + [e];
    forall n | 0 <= n < |all|
      ensures LegalPlay(all[..n], all[n])
    {
      if n < |trace| {
        assert all[..n] == trace[..n];
      } else {
        assert all[..n] == trace;
      }
    }
  }

  lemma TraceAppend(trace: seq<Playback>, e: Playback)
    ensures Current(trace + [e]) == if e.Opened? then e.session else Current(trace)
    ensures LastShown(trace + [e]) == match e
      case Opened(session) => 0
      case Decode(session, id, keyframe, bytes, outcome) => id
      case Tally(id) => id
      case _ => LastShown(trace)
  {
    assert (trace + [e])[..|trace|] == trace;
  }

  // ----- The invariant -----

  ghost predicate JustDecoded(trace: seq<Playback>, session: u64, next: nat) {
    && trace != []
    && var e := trace[|trace| - 1];
       e.Decode? && e.session == session && e.id + 1 == next && !e.outcome.Broken?
  }

  ghost predicate SessionsInv(s: Receiver) {
    && s.session !in s.retired && (s.halted || |s.retired| <= MAX_RETIRED)
    && (forall session :: WasOpened(s.trace, session) ==> session == s.session || session in s.retired)
  }

  ghost predicate UnplayedAhead(frames: seq<Entry>, next: nat) {
    forall i :: 0 <= i < |frames| && frames[i].id >= next ==> !frames[i].played
  }

  ghost predicate TraceInv(s: Receiver) {
    && LegalTrace(s.trace) && s.session == Current(s.trace) && LastShown(s.trace) < s.next
    && (!s.needKey ==> JustDecoded(s.trace, s.session, s.next)) && (s.headless ==> s.needKey)
  }

  ghost predicate PlayInv(s: Receiver) {
    && ValidFrames(s.frames) && LegalTrace(s.trace)
    && (!s.halted ==> SessionsInv(s) && UnplayedAhead(s.frames, s.next) && TraceInv(s))
  }

  lemma InitPlayInv(headless: bool)
    ensures PlayInv(Init(headless))
  {
  }

  // ----- A datagram -----

  lemma PacketKeepsPlay(s: Receiver, d: Datagram, now: u64)
    requires PlayInv(s) && d.Accepted() && d.h.flags != STREAM_INFO
    ensures PlayInv(TakePacket(s, d, now))
  {
    PacketKeepsFrames(s, d, now);
    PacketFrame(s, d, now);
    hide TakePacket, HeaderAccepted, LegalTrace, JustDecoded, LastShown, Current;
  }

  /** A packet changes one frame's contents, or adds a frame that is not played. */
  lemma PacketFrame(s: Receiver, d: Datagram, now: u64)
    requires ValidFrames(s.frames) && d.Accepted() && d.h.flags != STREAM_INFO
    ensures var s' := TakePacket(s, d, now);
      && s' == s.(frames := s'.frames, delivered := s'.delivered, acks := s'.acks)
      && (UnplayedAhead(s.frames, s.next) ==> UnplayedAhead(s'.frames, s.next))
  {
    hide Store, HeaderAccepted, AcksFor, FrameOk, Find, Admit;
    AdmitKeepsFrames(s, d, now);
    AdmitFrame(s, d.h, now);
    var s1 := Admit(s, d.h, now);
    var i := Find(s1.frames, d.h.frameId);
    if i.Some? {
      assert FrameOk(s1.frames[i.value].frame);
    }
  }

  lemma AdmitFrame(s: Receiver, h: PktHeader, now: u64)
    ensures var s' := Admit(s, h, now);
      s' == s.(frames := s'.frames) && (UnplayedAhead(s.frames, s.next) ==> UnplayedAhead(s'.frames, s.next))
  {
    hide Find, Allocated, LowerBound, NewFrame;
  }

  lemma StreamInfoKeepsPlay(s: Receiver, payload: seq<byte>)
    requires PlayInv(s) && !s.halted && |payload| == 8
    ensures PlayInv(TakeStreamInfo(s, payload))
  {
    hide LegalTrace, LastShown, Current, FrameOk;
    var s' := TakeStreamInfo(s, payload);
    if s'.trace != s.trace {
      var e := s'.trace[|s.trace|];
      assert s'.trace == s.trace + [e] && e.NewDecoder?;
      LegalAppend(s.trace, e);
      TraceAppend(s.trace, e);
    }
  }

  lemma InSessionKeepsPlay(s: Receiver, d: Datagram, now: u64)
    requires PlayInv(s) && !s.halted && d.Accepted()
    ensures PlayInv(TakeInSession(s, d, now))
  {
    hide ValidFrames, UnplayedAhead, LegalTrace, LastShown, Current, JustDecoded, TakePacket, TakeStreamInfo;
    var s1 := s.(wireBytes := (s.wireBytes + d.Size()) % TWO64);
    assert PlayInv(s1);
    if d.h.flags == STREAM_INFO {
      StreamInfoKeepsPlay(s1, d.payload);
    } else {
      hide HeaderAccepted;
      PacketKeepsPlay(s1, d, now);
    }
  }

  lemma OpenKeepsPlay(s: Receiver, session: u64, from: Address)
    requires PlayInv(s) && !s.halted && session != 0 && session != s.session && session !in s.retired
    requires |if s.session != 0 then s.retired + {s.session} else s.retired| <= MAX_RETIRED
    ensures var retired := if s.session != 0 then s.retired + {s.session} else s.retired;
      PlayInv(Open(s.(retired := retired), session, from))
  {
    hide LegalTrace, LastShown, Current, JustDecoded, ValidFrames;
    LegalAppend(s.trace, Opened(session));
    TraceAppend(s.trace, Opened(session));
    NoneValid();
    forall x | WasOpened(s.trace + [Opened(session)], x)
      ensures WasOpened(s.trace, x) || x == session
    {
    }
    ZeroNotOpened(s.trace);
  }

  lemma NoneValid()
    ensures ValidFrames([])
  {
  }

  lemma ZeroNotOpened(trace: seq<Playback>)
    requires LegalTrace(trace)
    ensures !WasOpened(trace, 0)
  {
    forall n | 0 <= n < |trace|
      ensures trace[n] != Opened(0)
    {
      assert LegalPlay(trace[..n], trace[n]);
    }
  }

  lemma TakeKeepsPlay(s: Receiver, from: Address, d: Datagram, now: u64)
    requires PlayInv(s) && !s.halted && d.Accepted()
    ensures PlayInv(Take(s, from, d, now))
  {
    hide PlayInv, TakeInSession, ValidFrames;
    assert ValidFrames(s.frames) by {
      PlayValid(s);
    }
    if d.h.session in s.retired {
    } else if s.session == 0 || (d.h.session != s.session && StartsSession(d.h)) {
      var retired := if s.session != 0 then s.retired + {s.session} else s.retired;
      if |retired| <= MAX_RETIRED {
        OpenKeepsPlay(s, d.h.session, from);
        InSessionKeepsPlay(Open(s.(retired := retired), d.h.session, from), d, now);
      } else {
        HaltKeepsPlay(s, retired);
      }
    } else if from == s.peer && d.h.session == s.session {
      InSessionKeepsPlay(s, d, now);
    }
  }

  lemma PlayValid(s: Receiver)
    requires PlayInv(s)
    ensures ValidFrames(s.frames)
  {
  }

  lemma HaltKeepsPlay(s: Receiver, retired: set<u64>)
    requires PlayInv(s)
    ensures PlayInv(s.(retired := retired, halted := true))
  {
  }

  // ----- The delivery loop -----

  lemma ShowKeepsTrace(s: Receiver, e: Entry, now: u64, decode: u32 -> Outcome)
    requires TraceInv(s) && e.id == s.next < UINT32_MAX
    ensures var s' := Show(s, e, now, decode);
      && LegalTrace(s'.trace) && s'.session == Current(s'.trace) && LastShown(s'.trace) <= s.next
      && (!s'.needKey ==> JustDecoded(s'.trace, s'.session, s.next + 1))
      && (forall x :: WasOpened(s'.trace, x) ==> WasOpened(s.trace, x))
  {
    hide AssembleFirst, LegalTrace, LastShown, Current;
    if s.headless {
      LegalAppend(s.trace, Tally(e.id));
      TraceAppend(s.trace, Tally(e.id));
    } else if s.needKey && !e.frame.keyframe {
    } else {
      var bytes := AssembleFirst(e.frame.payloads, |e.frame.payloads|, e.frame.size);
      var shown := Decode(s.session, e.id, e.frame.keyframe, bytes, decode(e.id));
      var ready := s.trace + if s.needKey then [Reset] else [];
      if s.needKey {
        LegalAppend(s.trace, Reset);
        TraceAppend(s.trace, Reset);
      } else {
        assert ready == s.trace;
      }
      assert LegalPlay(ready, shown);
      LegalAppend(ready, shown);
      TraceAppend(ready, shown);
    }
  }

  /** Skipping to a later frame asks for a keyframe, so that nothing is expected of the decoder. */
  lemma SkipKeepsTrace(s: Receiver, i: nat)
    requires TraceInv(s) && i < |s.frames| && s.frames[i].id >= s.next
    ensures var s1 := SkipTo(s, i); TraceInv(s1) && s1.next == s.frames[i].id && s1.trace == s.trace
  {
    hide LegalTrace, LastShown, Current, JustDecoded;
  }

  /** A frame passed over without showing it leaves a keyframe to wait for. */
  lemma PassOverKeepsTrace(s: Receiver)
    requires TraceInv(s) && s.next < UINT32_MAX
    ensures TraceInv(Advance(s.(needKey := true)))
  {
    hide LegalTrace, LastShown, Current, JustDecoded;
  }

  lemma ShownKeepsTrace(s: Receiver, e: Entry, now: u64, decode: u32 -> Outcome)
    requires TraceInv(s) && e.id == s.next < UINT32_MAX
    ensures var s' := Advance(Show(s, e, now, decode));
      TraceInv(s') && forall x :: WasOpened(s'.trace, x) ==> WasOpened(s.trace, x)
  {
    ShowKeepsTrace(s, e, now, decode);
    ShowKeepsFrames(s, e, now, decode);
    ShowNeedsKey(s, e, now, decode);
    hide LegalTrace, LastShown, Current, JustDecoded, Show, WasOpened;
  }

  lemma ShowNeedsKey(s: Receiver, e: Entry, now: u64, decode: u32 -> Outcome)
    requires s.headless ==> s.needKey
    ensures s.headless ==> Show(s, e, now, decode).needKey
  {
    hide AssembleFirst;
  }

  /** The trace part of one turn. */
  lemma DeliverOneTrace(s: Receiver, i: nat, now: u64, decode: u32 -> Outcome)
    requires TraceInv(s) && i < |s.frames| && s.next <= s.frames[i].id < UINT32_MAX && !s.frames[i].played
    requires DeliverOne(s, i, now, decode).Some?
    ensures var s' := DeliverOne(s, i, now, decode).value;
      TraceInv(s') && forall x :: WasOpened(s'.trace, x) ==> WasOpened(s.trace, x)
  {
    hide LegalTrace, LastShown, Current, JustDecoded, Show, SkipTo, WasOpened, Waited;
    var s1, e := SkipTo(s, i), s.frames[i];
    SkipKeepsTrace(s, i);
    if e.frame.Complete() {
      ShownKeepsTrace(s1, e, now, decode);
      ShowKeepsFrames(s1, e, now, decode);
    } else {
      PassOverKeepsTrace(s1);
    }
  }

  lemma DeliverOneKeepsPlay(s: Receiver, i: nat, now: u64, decode: u32 -> Outcome)
    requires PlayInv(s) && !s.halted && i < |s.frames| && s.frames[i].id >= s.next
    requires DeliverOne(s, i, now, decode).Some?
    ensures var s' := DeliverOne(s, i, now, decode).value; PlayInv(s') && !s'.halted
  {
    assert 0 < s.frames[i].id < UINT32_MAX && !s.frames[i].played;
    DeliverOneFrames(s, i, now, decode);
    DeliverOneMarks(s, i, now, decode);
    UnplayedAfter(s.frames, i);
    DeliverOneTrace(s, i, now, decode);
    DeliverOneSession(s, i, now, decode);
    hide ValidFrames, TraceInv, UnplayedAhead, DeliverOne, WasOpened;
  }

  lemma UnplayedAfter(frames: seq<Entry>, i: nat)
    requires ValidFrames(frames) && i < |frames| && UnplayedAhead(frames, frames[i].id)
    ensures UnplayedAhead(frames[i := frames[i].(played := true)], frames[i].id + 1)
  {
  }

  lemma {:induction false} DeliverKeepsPlay(s: Receiver, now: u64, decode: u32 -> Outcome)
    requires PlayInv(s) && !s.halted
    ensures var s' := Deliver(s, now, decode); PlayInv(s') && !s'.halted && s'.next >= s.next && s'.session == s.session
    decreases |s.frames| - LowerBound(s.frames, s.next)
  {
    hide PlayInv, DeliverOne, Front, LowerBound, ValidFrames;
    PlayValid(s);
    if s.frames != [] && (s.headless || s.decoder) {
      var i := Front(s, now);
      if i.Some? && DeliverOne(s, i.value, now, decode).Some? {
        DeliverOneFrames(s, i.value, now, decode);
        DeliverOneKeepsPlay(s, i.value, now, decode);
        DeliverOneSession(s, i.value, now, decode);
        DeliverKeepsPlay(DeliverOne(s, i.value, now, decode).value, now, decode);
      }
    }
  }

  lemma DeliverOneSession(s: Receiver, i: nat, now: u64, decode: u32 -> Outcome)
    requires i < |s.frames| && DeliverOne(s, i, now, decode).Some?
    ensures var s' := DeliverOne(s, i, now, decode).value;
      s'.session == s.session && s'.retired == s.retired && s'.halted == s.halted
  {
    hide Show;
    ShowKeepsFrames(SkipTo(s, i), s.frames[i], now, decode);
  }

  // ----- Expiry -----

  /** When a frame counts as stale or as waited for: after its timeout, and also whenever the clock reads less than
      when the frame was first seen, because the subtraction of the two unsigned times then wraps. */
  lemma TimeoutsExactly(e: Entry, now: u64)
    requires ClockReading(now) && ClockReading(e.frame.firstSeen)
    ensures var seen := e.frame.firstSeen;
      && (Stale(e, now) <==> now < seen || now - seen > 2 * FRAME_TIMEOUT)
      && (Waited(e.frame, now, FRAME_TIMEOUT) <==> now < seen || now - seen >= FRAME_TIMEOUT)
  {
    assert now < e.frame.firstSeen ==> Sub64(now, e.frame.firstSeen) >= TWO64 - INT64_MAX;
  }

  /** The sweep keeps exactly the fresh frames, in order. */
  lemma {:induction false} SweepKeeps(frames: seq<Entry>, now: u64, next: u32, needKey: bool)
    requires ValidFrames(frames)
    ensures var w := SweepAll(frames, now, next, needKey);
      ValidFrames(w.kept) && |w.kept| <= |frames| && forall e :: e in w.kept <==> e in frames && !Stale(e, now)
  {
    hide FrameOk, Stale;
    if frames != [] {
      var before, e := frames[..|frames| - 1], frames[|frames| - 1];
      assert frames == before + [e];
      ValidPrefix(frames);
      hide ValidFrames;
      SweepKeeps(before, now, next, needKey);
      assert forall x :: x in frames <==> x in before || x == e;
      SweepOrder(before, e, SweepAll(before, now, next, needKey).kept);
    }
  }

  /** It moves the position only forwards, just past the last unplayed frame it forgets, and then a keyframe is
      needed. */
  lemma {:induction false} SweepMoves(frames: seq<Entry>, now: u64, next: u32, needKey: bool)
    requires ValidFrames(frames)
    ensures var w := SweepAll(frames, now, next, needKey);
      && w.next >= next && (w.next != next ==> w.needKey)
      && (w.needKey <==> needKey || exists e :: e in frames && Stale(e, now) && !e.played)
      && (forall e :: e in frames && Stale(e, now) && !e.played ==> e.id < w.next)
      && (w.next == next || exists e :: e in frames && Stale(e, now) && !e.played && w.next == e.id + 1)
  {
    hide FrameOk, Stale;
    if frames != [] {
      var before, e := frames[..|frames| - 1], frames[|frames| - 1];
      assert FrameOk(e.frame) && e.id < UINT32_MAX;
      assert frames == before + [e];
      assert forall x :: x in frames <==> x in before || x == e;
      SweepMoves(before, now, next, needKey);
      hide ValidFrames;
    }
  }

  lemma ValidPrefix(frames: seq<Entry>)
    requires ValidFrames(frames) && frames != []
    ensures ValidFrames(frames[..|frames| - 1])
  {
    hide FrameOk;
  }

  lemma SweepOrder(before: seq<Entry>, e: Entry, kept: seq<Entry>)
    requires ValidFrames(before + [e]) && ValidFrames(kept) && forall x :: x in kept ==> x in before
    ensures ValidFrames(kept + [e])
  {
    hide FrameOk;
    var all := before + [e];
    assert all[|before|] == e;
    forall i | 0 <= i < |kept|
      ensures kept[i].id < e.id
    {
      assert kept[i] in before;
      var j :| 0 <= j < |before| && before[j] == kept[i];
      assert all[j] == kept[i];
    }
  }

  lemma ExpireKeepsPlay(s: Receiver, now: u64)
    requires PlayInv(s) && !s.halted
    ensures var s' := Expire(s, now); PlayInv(s') && !s'.halted && s'.next >= s.next && s'.session == s.session
  {
    hide FrameOk, Stale, LegalTrace, LastShown, Current, JustDecoded, SweepAll;
    SweepKeeps(s.frames, now, s.next, s.needKey);
    SweepMoves(s.frames, now, s.next, s.needKey);
    var w := SweepAll(s.frames, now, s.next, s.needKey);
    forall i | 0 <= i < |w.kept| && w.kept[i].id >= w.next
      ensures !w.kept[i].played
    {
      assert w.kept[i] in s.frames;
    }
  }

  // ----- Runs -----

  datatype Step = Step(input: Input, now: u64, decode: u32 -> Outcome)

  ghost predicate IsRun(headless: bool, steps: seq<Step>, states: seq<Receiver>) {
    && |states| == |steps| + 1 && states[0] == Init(headless)
    && forall i :: 0 <= i < |steps| ==>
         && ValidFrames(states[i].frames)
         && states[i + 1] == Pass(states[i], steps[i].input, steps[i].now, steps[i].decode)
  }

  /** Step n of a run. */
  lemma RunStep(headless: bool, steps: seq<Step>, states: seq<Receiver>, n: nat)
    requires IsRun(headless, steps, states) && n < |steps|
    ensures |states| == |steps| + 1 && ValidFrames(states[n].frames)
    ensures states[n + 1] == Pass(states[n], steps[n].input, steps[n].now, steps[n].decode)
  {
    hide Pass, ValidFrames;
  }

  lemma RunStart(headless: bool, steps: seq<Step>, states: seq<Receiver>)
    requires IsRun(headless, steps, states)
    ensures |states| == |steps| + 1 && states[0] == Init(headless)
  {
    hide Pass, ValidFrames;
  }

  lemma InputKeepsPlay(s: Receiver, input: Input, now: u64)
    requires PlayInv(s) && !s.halted
    ensures PlayInv(TakeInput(s, input, now))
  {
    hide PlayInv, Take, Parse;
    PlayValid(s);
    if input.Bytes? && Parse(input.bytes).Some? {
      WireCanonical(input.bytes);
      TakeKeepsPlay(s, input.from, Parse(input.bytes).value, now);
    }
  }

  lemma PassKeepsPlay(s: Receiver, step: Step)
    requires PlayInv(s) && ValidFrames(s.frames)
    ensures PlayInv(Pass(s, step.input, step.now, step.decode))
  {
    hide PlayInv, TakeInput, Deliver, Expire, ValidFrames;
    if !s.halted {
      InputKeepsPlay(s, step.input, step.now);
      var s1 := TakeInput(s, step.input, step.now);
      if !s1.halted {
        PlayValid(s1);
        DeliverKeepsPlay(s1, step.now, step.decode);
        ExpireKeepsPlay(Deliver(s1, step.now, step.decode), step.now);
      }
    }
  }

  lemma {:induction false} RunKeepsPlay(headless: bool, steps: seq<Step>, states: seq<Receiver>, n: nat)
    requires IsRun(headless, steps, states) && n < |states|
    ensures PlayInv(states[n])
    decreases n
  {
    hide IsRun, PlayInv, Pass, ValidFrames;
    RunStart(headless, steps, states);
    if n == 0 {
      InitPlayInv(headless);
    } else {
      RunKeepsPlay(headless, steps, states, n - 1);
      RunStep(headless, steps, states, n - 1);
      PassKeepsPlay(states[n - 1], steps[n - 1]);
    }
  }

  /** Runs do not get stuck: every state of a run is well formed, so any step extends it. */
  lemma RunGrows(headless: bool, steps: seq<Step>, states: seq<Receiver>, step: Step)
    requires IsRun(headless, steps, states)
    ensures |states| == |steps| + 1 && ValidFrames(states[|steps|].frames)
    ensures var s' := Pass(states[|steps|], step.input, step.now, step.decode);
      IsRun(headless, steps + [step], states + [s'])
  {
    hide Pass, ValidFrames, PlayInv, Init;
    var n, s := |steps|, states[|steps|];
    RunKeepsPlay(headless, steps, states, n);
    PlayValid(s);
    var all, more := steps + [step], states + [Pass(s, step.input, step.now, step.decode)];
    forall i | 0 <= i <= n
      ensures ValidFrames(more[i].frames)
      ensures more[i + 1] == Pass(more[i], all[i].input, all[i].now, all[i].decode)
    {
      if i < n {
        RunStep(headless, steps, states, i);
      }
    }
  }

  lemma RunBegins(headless: bool)
    ensures IsRun(headless, [], [Init(headless)])
  {
  }

  // ----- What the decoder is given -----

  /** The order in which frames reach the decoder. */
  lemma DecodeOrder(trace: seq<Playback>, m: nat, n: nat)
    requires LegalTrace(trace) && m < n < |trace| && trace[m].Decode? && trace[n].Decode?
    ensures trace[m].session == trace[n].session ==> trace[m].id < trace[n].id
  {
    assert LegalPlay(trace[..n], trace[n]) && LegalPlay(trace[..m], trace[m]);
    if trace[m].session == trace[n].session {
      ShownSince(trace, m, n);
    }
  }

  /** Within a session the position in the trace only moves up. */
  lemma {:induction false} ShownSince(trace: seq<Playback>, m: nat, n: nat)
    requires LegalTrace(trace) && m < n <= |trace| && trace[m].Decode? && Current(trace[..n]) == trace[m].session
    ensures LastShown(trace[..n]) >= trace[m].id
    decreases n
  {
    assert trace[..n][..n - 1] == trace[..n - 1];
    assert LegalPlay(trace[..n - 1], trace[n - 1]);
    assert LegalPlay(trace[..m], trace[m]);
    if n - 1 > m {
      hide LastShown;
      OpenedOnce(trace, m, n - 1);
      ShownSince(trace, m, n - 1);
      TraceAppend(trace[..n - 1], trace[n - 1]);
      assert trace[..n] == trace[..n - 1] + [trace[n - 1]];
    }
  }

  /** The session of an earlier decode is not opened again. */
  lemma OpenedOnce(trace: seq<Playback>, m: nat, n: nat)
    requires LegalTrace(trace) && m < n < |trace| && trace[m].Decode?
    ensures trace[n] != Opened(trace[m].session)
  {
    assert LegalPlay(trace[..n], trace[n]);
    assert LegalPlay(trace[..m], trace[m]);
    if trace[m].session != 0 {
      CurrentWasOpened(trace[..m]);
      assert trace[..n][..m] == trace[..m];
      assert forall e :: e in trace[..m] ==> e in trace[..n];
    }
  }

  lemma {:induction false} CurrentWasOpened(trace: seq<Playback>)
    requires Current(trace) != 0
    ensures WasOpened(trace, Current(trace))
  {
    if !trace[|trace| - 1].Opened? {
      CurrentWasOpened(trace[..|trace| - 1]);
    }
  }

  /** The decoder is given this entry: complete, all of its declared bytes. */
  ghost predicate IsDecodeOf(d: Playback, session: u64, e: Entry) {
    && d.Decode? && d.session == session && d.id == e.id && d.keyframe == e.frame.keyframe
    && e.frame.Complete() && |d.bytes| == e.frame.size
    && d.bytes == AssembleFirst(e.frame.payloads, |e.frame.payloads|, e.frame.size)
  }

  ghost predicate DecodedFrom(d: Playback, s: Receiver) {
    exists i :: 0 <= i < |s.frames| && IsDecodeOf(d, s.session, s.frames[i])
  }

  /** From s to s' the trace grows, and what is decoded was held in s. */
  ghost predicate DecodesHeld(s: Receiver, s': Receiver) {
    s.trace <= s'.trace
    && forall n :: |s.trace| <= n < |s'.trace| && s'.trace[n].Decode? ==> DecodedFrom(s'.trace[n], s)
  }

  lemma CompleteLength(f: RxFrame)
    requires FrameOk(f) && f.Complete()
    ensures |AssembleFirst(f.payloads, |f.payloads|, f.size)| == f.size
  {
    CountPresentAll(f.payloads);
    PacketCountExact(f.size);
    AssembleFirstLength(f.payloads, |f.payloads|, f.size);
  }

  lemma ShowDecodes(s: Receiver, e: Entry, now: u64, decode: u32 -> Outcome)
    requires FrameOk(e.frame) && e.frame.Complete()
    ensures var s' := Show(s, e, now, decode);
      s.trace <= s'.trace
      && forall n :: |s.trace| <= n < |s'.trace| && s'.trace[n].Decode? ==> IsDecodeOf(s'.trace[n], s.session, e)
  {
    CompleteLength(e.frame);
    hide AssembleFirst, FrameOk;
  }

  lemma DeliverOneDecodes(s: Receiver, i: nat, now: u64, decode: u32 -> Outcome)
    requires ValidFrames(s.frames) && i < |s.frames| && DeliverOne(s, i, now, decode).Some?
    ensures DecodesHeld(s, DeliverOne(s, i, now, decode).value)
  {
    var e := s.frames[i];
    assert FrameOk(e.frame);
    hide FrameOk, Show, IsDecodeOf, Waited, ValidFrames;
    if e.frame.Complete() {
      ShowDecodes(SkipTo(s, i), e, now, decode);
    }
  }

  /** Marking an entry as played changes nothing of what can be decoded. */
  lemma DecodedBefore(d: Playback, s: Receiver, s': Receiver, i: nat)
    requires i < |s.frames| && s'.session == s.session && s'.frames == s.frames[i := s.frames[i].(played := true)]
    requires DecodedFrom(d, s')
    ensures DecodedFrom(d, s)
  {
    hide AssembleFirst;
    var k :| 0 <= k < |s'.frames| && IsDecodeOf(d, s'.session, s'.frames[k]);
    assert IsDecodeOf(d, s.session, s.frames[k]);
  }

  lemma HeldTransitive(s: Receiver, s1: Receiver, s2: Receiver, i: nat)
    requires DecodesHeld(s, s1) && DecodesHeld(s1, s2)
    requires i < |s.frames| && s1.session == s.session && s1.frames == s.frames[i := s.frames[i].(played := true)]
    ensures DecodesHeld(s, s2)
  {
    hide DecodedFrom;
    forall n | |s.trace| <= n < |s2.trace| && s2.trace[n].Decode?
      ensures DecodedFrom(s2.trace[n], s)
    {
      if n < |s1.trace| {
        assert s2.trace[n] == s1.trace[n];
      } else {
        DecodedBefore(s2.trace[n], s, s1, i);
      }
    }
  }

  lemma {:induction false} DeliverDecodes(s: Receiver, now: u64, decode: u32 -> Outcome)
    requires ValidFrames(s.frames)
    ensures DecodesHeld(s, Deliver(s, now, decode))
    decreases |s.frames| - LowerBound(s.frames, s.next)
  {
    hide DeliverOne, Front, LowerBound, ValidFrames, DecodesHeld;
    NothingDecoded(s);
    if s.frames != [] && (s.headless || s.decoder) {
      var i := Front(s, now);
      if i.Some? && DeliverOne(s, i.value, now, decode).Some? {
        var s1 := DeliverOne(s, i.value, now, decode).value;
        DeliverOneFrames(s, i.value, now, decode);
        IdInRange(s, i.value);
        DeliverOneMarks(s, i.value, now, decode);
        DeliverOneSession(s, i.value, now, decode);
        DeliverOneDecodes(s, i.value, now, decode);
        DeliverDecodes(s1, now, decode);
        HeldTransitive(s, s1, Deliver(s1, now, decode), i.value);
      }
    }
  }

  lemma IdInRange(s: Receiver, i: nat)
    requires ValidFrames(s.frames) && i < |s.frames|
    ensures s.frames[i].id < UINT32_MAX
  {
  }

  lemma NothingDecoded(s: Receiver)
    ensures DecodesHeld(s, s)
  {
  }

  ghost predicate NoDecodes(before: seq<Playback>, after: seq<Playback>) {
    before <= after && forall n :: |before| <= n < |after| ==> !after[n].Decode?
  }

  lemma InSessionDecodesNothing(s: Receiver, d: Datagram, now: u64)
    requires ValidFrames(s.frames) && d.Accepted()
    ensures NoDecodes(s.trace, TakeInSession(s, d, now).trace)
  {
    hide TakePacket, ValidFrames;
    if d.h.flags != STREAM_INFO {
      hide HeaderAccepted;
      PacketFrame(s.(wireBytes := (s.wireBytes + d.Size()) % TWO64), d, now);
    } else {
      hide HeaderAccepted;
    }
  }

  lemma InputDecodesNothing(s: Receiver, input: Input, now: u64)
    requires ValidFrames(s.frames)
    ensures NoDecodes(s.trace, TakeInput(s, input, now).trace)
  {
    hide Parse, TakeInSession, ValidFrames, HeaderAccepted;
    if input.Bytes? && Parse(input.bytes).Some? {
      var d := Parse(input.bytes).value;
      WireCanonical(input.bytes);
      NoneValid();
      var retired := if s.session != 0 then s.retired + {s.session} else s.retired;
      InSessionDecodesNothing(Open(s.(retired := retired), d.h.session, input.from), d, now);
      InSessionDecodesNothing(s, d, now);
    }
  }

  /** What a pass decodes was complete once its input was taken. */
  lemma PassDecodes(s: Receiver, step: Step, n: nat)
    requires PlayInv(s) && ValidFrames(s.frames)
    requires var s' := Pass(s, step.input, step.now, step.decode); n < |s'.trace| && s'.trace[n].Decode?
    ensures var s' := Pass(s, step.input, step.now, step.decode);
      s.trace <= s'.trace && (n < |s.trace| || DecodedFrom(s'.trace[n], TakeInput(s, step.input, step.now)))
  {
    hide PlayInv, TakeInput, Deliver, SweepAll, ValidFrames, DecodedFrom;
    if !s.halted {
      InputDecodesNothing(s, step.input, step.now);
      TakeKeepsFrames(s, step.input, step.now);
      var s1 := TakeInput(s, step.input, step.now);
      DeliverDecodes(s1, step.now, step.decode);
    }
  }

  lemma {:induction false} DecodeHappened(headless: bool, steps: seq<Step>, states: seq<Receiver>, k: nat, n: nat)
    returns (i: nat)
    requires IsRun(headless, steps, states) && k < |states|
    requires n < |states[k].trace| && states[k].trace[n].Decode?
    ensures i < k && |states| == |steps| + 1 && ValidFrames(states[i].frames)
    ensures DecodedFrom(states[k].trace[n], TakeInput(states[i], steps[i].input, steps[i].now))
    decreases k
  {
    hide IsRun, PlayInv, ValidFrames, Pass, TakeInput, DecodedFrom;
    RunStart(headless, steps, states);
    if k > 0 {
      RunStep(headless, steps, states, k - 1);
      RunKeepsPlay(headless, steps, states, k - 1);
      PassDecodes(states[k - 1], steps[k - 1], n);
      if n < |states[k - 1].trace| {
        i := DecodeHappened(headless, steps, states, k - 1, n);
      } else {
        i := k - 1;
      }
    }
  }

  /** In every run, within a session frames reach the decoder in strictly increasing order, each at most once; the
      decoder is always ready for them: it was just reset for a keyframe, or the frame before was its last and
      decoded without an error; and each was complete when an earlier pass had taken its input, with all its declared
      bytes. */
  lemma DecoderIsSafe(headless: bool, steps: seq<Step>, states: seq<Receiver>, k: nat, n: nat)
    requires IsRun(headless, steps, states) && k < |states|
    requires n < |states[k].trace| && states[k].trace[n].Decode?
    ensures var trace, d := states[k].trace, states[k].trace[n];
      && (forall m: nat :: m < n && trace[m].Decode? && trace[m].session == d.session ==> trace[m].id < d.id)
      && n > 0
      && (var e := trace[n - 1];
          || (e.Reset? && d.keyframe)
          || (e.Decode? && e.session == d.session && e.id + 1 == d.id && !e.outcome.Broken?))
      && exists i: nat :: i < k && DecodedFrom(d, TakeInput(states[i], steps[i].input, steps[i].now))
  {
    RunKeepsPlay(headless, steps, states, k);
    var trace := states[k].trace;
    var i := DecodeHappened(headless, steps, states, k, n);
    hide IsRun, TakeInput, DecodedFrom, ValidFrames;
    forall m: nat | m < n && trace[m].Decode? && trace[m].session == trace[n].session
      ensures trace[m].id < trace[n].id
    {
      DecodeOrder(trace, m, n);
    }
    assert LegalPlay(trace[..n], trace[n]);
  }

  // ----- The play-out position -----

  /** State s' can come after s: within a session the position does not move back, and a session that was left never
      returns. */
  ghost predicate Follows(s: Receiver, s': Receiver) {
    && s.retired <= s'.retired
    && if s'.session == s.session then s'.next >= s.next
       else s'.session != 0 && s'.session !in s.retired && (s.session != 0 ==> s.session in s'.retired)
  }

  lemma FollowsTransitive(a: Receiver, b: Receiver, c: Receiver)
    requires Follows(a, b) && Follows(b, c)
    ensures Follows(a, c)
  {
  }

  lemma PassFollows(s: Receiver, step: Step)
    requires PlayInv(s) && ValidFrames(s.frames)
    ensures Follows(s, Pass(s, step.input, step.now, step.decode))
  {
    hide PlayInv, TakeInput, Deliver, Expire, Parse, ValidFrames;
    if !s.halted {
      InputKeepsPlay(s, step.input, step.now);
      TakePosition(s, step.input, step.now);
      var s1 := TakeInput(s, step.input, step.now);
      if !s1.halted {
        PlayValid(s1);
        DeliverKeepsPlay(s1, step.now, step.decode);
        DeliverRetired(s1, step.now, step.decode);
        var s2 := Deliver(s1, step.now, step.decode);
        ExpireKeepsPlay(s2, step.now);
        ExpireRetired(s2, step.now);
      }
    }
  }

  /** Over any stretch of any run the position never moves back within a session (so it never wraps), and past
      sessions never return. */
  lemma {:induction false} PositionOnlyAdvances(headless: bool, steps: seq<Step>, states: seq<Receiver>, i: nat, j: nat)
    requires IsRun(headless, steps, states) && i <= j < |states|
    ensures Follows(states[i], states[j])
    decreases j
  {
    hide IsRun, Follows, PlayInv, ValidFrames, Pass;
    if i == j {
      FollowsItself(states[i]);
    } else {
      PositionOnlyAdvances(headless, steps, states, i, j - 1);
      RunStart(headless, steps, states);
      RunStep(headless, steps, states, j - 1);
      RunKeepsPlay(headless, steps, states, j - 1);
      PassFollows(states[j - 1], steps[j - 1]);
      FollowsTransitive(states[i], states[j - 1], states[j]);
    }
  }

  lemma FollowsItself(s: Receiver)
    ensures Follows(s, s)
  {
  }

  lemma NonZeroSession(d: Datagram)
    requires d.Accepted()
    ensures d.h.session != 0
  {
  }

  lemma TakePosition(s: Receiver, input: Input, now: u64)
    requires PlayInv(s) && !s.halted && ValidFrames(s.frames)
    ensures Follows(s, TakeInput(s, input, now))
  {
    hide UnplayedAhead, TraceInv, WasOpened, Parse, TakeInSession, ValidFrames;
    if input.Bytes? && Parse(input.bytes).Some? {
      var d := Parse(input.bytes).value;
      WireCanonical(input.bytes);
      NonZeroSession(d);
      NoneValid();
      hide HeaderAccepted;
      var retired := if s.session != 0 then s.retired + {s.session} else s.retired;
      InSessionPosition(Open(s.(retired := retired), d.h.session, input.from), d, now);
      InSessionPosition(s, d, now);
    }
  }

  lemma InSessionPosition(s: Receiver, d: Datagram, now: u64)
    requires ValidFrames(s.frames) && d.Accepted()
    ensures var s' := TakeInSession(s, d, now); s'.session == s.session && s'.next == s.next && s'.retired == s.retired
  {
    hide TakePacket, FrameOk;
    if d.h.flags != STREAM_INFO {
      hide HeaderAccepted;
      PacketFrame(s.(wireBytes := (s.wireBytes + d.Size()) % TWO64), d, now);
    } else {
      hide HeaderAccepted;
    }
  }

  lemma {:induction false} DeliverRetired(s: Receiver, now: u64, decode: u32 -> Outcome)
    requires ValidFrames(s.frames)
    ensures Deliver(s, now, decode).retired == s.retired
    decreases |s.frames| - LowerBound(s.frames, s.next)
  {
    hide DeliverOne, Front, LowerBound, ValidFrames;
    if s.frames != [] && (s.headless || s.decoder) {
      var i := Front(s, now);
      if i.Some? && DeliverOne(s, i.value, now, decode).Some? {
        DeliverOneFrames(s, i.value, now, decode);
        DeliverOneSession(s, i.value, now, decode);
        DeliverRetired(DeliverOne(s, i.value, now, decode).value, now, decode);
      }
    }
  }

  lemma ExpireRetired(s: Receiver, now: u64)
    ensures Expire(s, now).retired == s.retired
  {
  }

  /** The delivery loop stops only when there is nothing to deliver: the first frame at or after the position has not
      been waited for long enough, and if it is the next in line it has not arrived in full either. (After a gap even
      a complete frame has to wait.) */
  lemma {:induction false} DeliverExhausts(s: Receiver, now: u64, decode: u32 -> Outcome)
    requires ValidFrames(s.frames)
    ensures var s' := Deliver(s, now, decode);
      var i := LowerBound(s'.frames, s'.next);
      (s'.headless || s'.decoder) && i < |s'.frames| ==>
        && !Waited(s'.frames[i].frame, now, FRAME_TIMEOUT)
        && (s'.frames[i].id == s'.next ==> !s'.frames[i].frame.Complete())
    decreases |s.frames| - LowerBound(s.frames, s.next)
  {
    hide FrameOk, LowerBound, Waited;
    if s.frames != [] && (s.headless || s.decoder) {
      var i := Front(s, now);
      if i.Some? && DeliverOne(s, i.value, now, decode).Some? {
        DeliverOneFrames(s, i.value, now, decode);
        hide DeliverOne, ValidFrames;
        DeliverExhausts(DeliverOne(s, i.value, now, decode).value, now, decode);
      }
    }
  }
}
