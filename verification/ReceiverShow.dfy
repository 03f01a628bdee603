/** Which frames the delivery loop gives to the decoder, over every run of the receiver. */
module ReceiverShow {
  import opened Bytes
  import opened Protocol
  import opened Reassembly
  import opened Packetizer
  import opened Receiver
  import opened ReceiverPlayout

  // ----- What is expected of the decoder -----

  /** No keyframe is awaited exactly if the last thing done to the decoder was to decode the frame before the position
      without an error, and no frame was forgotten since. */
  ghost predicate KeyIff(s: Receiver, forgot: bool) {
    !s.needKey <==> JustDecoded(s.trace, s.session, s.next) && !forgot
  }

  /** The decoder is given this entry, and makes of it what it makes of it. */
  ghost predicate Given(d: Playback, session: u64, e: Entry, decode: u32 -> Outcome) {
    IsDecodeOf(d, session, e) && d.outcome == decode(e.id)
  }

  /** The trace grew from a to t, and b is where entry e came up: the end of a, or of the last frame before e that
      was decoded since. From there, a frame that follows the one decoded last goes to the decoder as it is, a
      keyframe goes to a decoder that was reset for it, and any other is passed over. */
  ghost predicate ShownRight(a: seq<Playback>, t: seq<Playback>, b: nat, session: u64, e: Entry, forgot: bool,
                             decode: u32 -> Outcome)
  {
    && |a| <= b <= |t| && a <= t
    && (b == |a| || (t[b - 1].Decode? && t[b - 1].session == session && t[b - 1].id < e.id))
    && (forall n :: b <= n < |t| && t[n].Decode? ==> t[n].id >= e.id)
    && if JustDecoded(t[..b], session, e.id) && !(b == |a| && forgot) then
         b < |t| && Given(t[b], session, e, decode)
       else if e.frame.keyframe then
         b + 1 < |t| && t[b] == Reset && Given(t[b + 1], session, e, decode)
       else forall n :: |a| <= n < |t| && t[n].Decode? ==> t[n].id != e.id
  }

  /** The position came to entry x in its turn, or had to wait for it. */
  ghost predicate InTurn(frames: seq<Entry>, next: u32, x: nat, now: u64)
    requires x < |frames|
  {
    || frames[x].id == next || (x > 0 && frames[x - 1].id + 1 == frames[x].id)
    || Waited(frames[x].frame, now, FRAME_TIMEOUT)
  }

  // ----- One turn -----

  /** The same for the turn of the entry itself. */
  ghost predicate TurnShows(a: seq<Playback>, t: seq<Playback>, session: u64, e: Entry, forgot: bool,
                            decode: u32 -> Outcome)
  {
    && a <= t
    && if JustDecoded(a, session, e.id) && !forgot then |t| == |a| + 1 && Given(t[|a|], session, e, decode)
       else if e.frame.keyframe then
         |t| == |a| + 2 && t[|a|] == Reset && Given(t[|a| + 1], session, e, decode)
       else t == a
  }

  lemma ShowShows(s: Receiver, e: Entry, now: u64, decode: u32 -> Outcome)
    requires FrameOk(e.frame) && e.frame.Complete() && !s.headless
    ensures var s' := Show(s, e, now, decode);
      && s.trace <= s'.trace
      && (if !s.needKey then |s'.trace| == |s.trace| + 1 && Given(s'.trace[|s.trace|], s.session, e, decode)
          else if e.frame.keyframe then
            |s'.trace| == |s.trace| + 2 && s'.trace[|s.trace|] == Reset
            && Given(s'.trace[|s.trace| + 1], s.session, e, decode)
          else s'.trace == s.trace)
      && (s'.needKey <==> if s'.trace == s.trace then s.needKey else decode(e.id).Broken?)
  {
    CompleteLength(e.frame);
    hide AssembleFirst, FrameOk;
  }

  /** Nothing was decoded at or after the position. */
  lemma NotJustDecoded(s: Receiver, id: nat)
    requires LastShown(s.trace) < s.next < id
    ensures !JustDecoded(s.trace, s.session, id)
  {
  }

  ghost function StillForgot(forgot: bool, a: seq<Playback>, t: seq<Playback>): bool {
    forgot && NoDecodes(a, t)
  }

  lemma SkipKeepsKey(s: Receiver, i: nat, forgot: bool)
    requires TraceInv(s) && KeyIff(s, forgot) && i < |s.frames| && s.frames[i].id >= s.next
    ensures KeyIff(SkipTo(s, i), forgot)
  {
    hide LegalTrace, LastShown, Current, JustDecoded;
    if s.frames[i].id != s.next {
      NotJustDecoded(s, s.frames[i].id);
    }
  }

  lemma TurnIsShown(s: Receiver, i: nat, now: u64, decode: u32 -> Outcome, forgot: bool)
    requires TraceInv(s) && KeyIff(s, forgot) && !s.headless && ValidFrames(s.frames)
    requires i < |s.frames| && s.frames[i].id >= s.next && !s.frames[i].played
    requires DeliverOne(s, i, now, decode).Some?
    ensures var s', e := DeliverOne(s, i, now, decode).value, s.frames[i];
      && (if e.frame.Complete() then TurnShows(s.trace, s'.trace, s.session, e, forgot, decode)
          else s'.trace == s.trace && Waited(e.frame, now, FRAME_TIMEOUT))
      && s'.needKey == (if e.frame.Complete() && s'.trace != s.trace then decode(e.id).Broken? else true)
  {
    assert FrameOk(s.frames[i].frame);
    SkipKeepsKey(s, i, forgot);
    hide FrameOk, Show, JustDecoded, LegalTrace, LastShown, Current, Given, ValidFrames, Waited;
    var s1, e := SkipTo(s, i), s.frames[i];
    if e.frame.Complete() {
      ShowShows(s1, e, now, decode);
    }
  }

  lemma TurnKeepsKey(s: Receiver, i: nat, now: u64, decode: u32 -> Outcome, forgot: bool)
    requires TraceInv(s) && KeyIff(s, forgot) && !s.headless && ValidFrames(s.frames)
    requires i < |s.frames| && s.frames[i].id >= s.next && !s.frames[i].played
    requires DeliverOne(s, i, now, decode).Some?
    ensures var s' := DeliverOne(s, i, now, decode).value;
      KeyIff(s', StillForgot(forgot, s.trace, s'.trace)) && s'.session == s.session
  {
    TurnIsShown(s, i, now, decode, forgot);
    DeliverOneFrames(s, i, now, decode);
    DeliverOneSession(s, i, now, decode);
    var s', e := DeliverOne(s, i, now, decode).value, s.frames[i];
    hide DeliverOne, ValidFrames, LegalTrace, LastShown, Current;
    if s'.trace == s.trace {
      NotDecodedHere(s, e.id);
    } else {
      var last := s'.trace[|s'.trace| - 1];
      assert Given(last, s.session, e, decode);
      assert !NoDecodes(s.trace, s'.trace);
    }
  }

  lemma NotDecodedHere(s: Receiver, id: nat)
    requires LastShown(s.trace) < s.next <= id
    ensures !JustDecoded(s.trace, s.session, id + 1)
  {
  }

  // ----- The delivery loop -----

  /** The loop decodes nothing behind the position. */
  ghost predicate DecodesAhead(a: seq<Playback>, t: seq<Playback>, next: nat) {
    a <= t && forall n :: |a| <= n < |t| && t[n].Decode? ==> t[n].id >= next
  }

  lemma AheadTransitive(a: seq<Playback>, b: seq<Playback>, c: seq<Playback>, next: nat, next': nat)
    requires DecodesAhead(a, b, next) && DecodesAhead(b, c, next') && next <= next'
    ensures DecodesAhead(a, c, next)
  {
    forall n | |a| <= n < |c| && c[n].Decode?
      ensures c[n].id >= next
    {
      if n < |b| {
        assert c[n] == b[n];
      }
    }
  }

  lemma TurnDecodesAhead(s: Receiver, i: nat, now: u64, decode: u32 -> Outcome)
    requires ValidFrames(s.frames) && i < |s.frames| && s.frames[i].id >= s.next
    requires DeliverOne(s, i, now, decode).Some?
    ensures DecodesAhead(s.trace, DeliverOne(s, i, now, decode).value.trace, s.next)
  {
    var e := s.frames[i];
    assert FrameOk(e.frame);
    hide FrameOk, Show, Waited, ValidFrames, IsDecodeOf;
    if e.frame.Complete() {
      ShowDecodes(SkipTo(s, i), e, now, decode);
      DecodeNames(s.session, e);
    }
  }

  lemma DecodeNames(session: u64, e: Entry)
    ensures forall d :: IsDecodeOf(d, session, e) ==> d.Decode? && d.id == e.id
  {
  }

  lemma {:induction false} DeliverDecodesAhead(s: Receiver, now: u64, decode: u32 -> Outcome)
    requires ValidFrames(s.frames)
    ensures DecodesAhead(s.trace, Deliver(s, now, decode).trace, s.next) && Deliver(s, now, decode).next >= s.next
    decreases |s.frames| - LowerBound(s.frames, s.next)
  {
    hide DeliverOne, Front, LowerBound, ValidFrames, DecodesAhead;
    NothingAhead(s);
    if s.frames != [] && (s.headless || s.decoder) {
      var i := Front(s, now);
      if i.Some? && DeliverOne(s, i.value, now, decode).Some? {
        var s1 := DeliverOne(s, i.value, now, decode).value;
        DeliverOneFrames(s, i.value, now, decode);
        TurnDecodesAhead(s, i.value, now, decode);
        DeliverDecodesAhead(s1, now, decode);
        AheadTransitive(s.trace, s1.trace, Deliver(s1, now, decode).trace, s.next, s1.next);
      }
    }
  }

  lemma NothingAhead(s: Receiver)
    ensures DecodesAhead(s.trace, s.trace, s.next)
  {
  }

  /** The entry whose turn it is, seen from the end of the loop. */
  lemma ShownHere(a: seq<Playback>, t1: seq<Playback>, t: seq<Playback>, session: u64, e: Entry, forgot: bool,
                  decode: u32 -> Outcome)
    requires TurnShows(a, t1, session, e, forgot, decode) && DecodesAhead(t1, t, e.id + 1)
    ensures ShownRight(a, t, |a|, session, e, forgot, decode)
  {
    hide JustDecoded, IsDecodeOf;
    assert t[..|a|] == a;
    DecodeNames(session, e);
    assert forall n :: 0 <= n < |t1| ==> t[n] == t1[n];
  }

  /** An entry whose turn came later. */
  lemma ShownLater(a: seq<Playback>, t1: seq<Playback>, t: seq<Playback>, b: nat, session: u64, f: Entry, e: Entry,
                   forgot: bool, decode: u32 -> Outcome)
    requires f.id < e.id
    requires t1 == a || TurnShows(a, t1, session, f, forgot, decode)
    requires ShownRight(t1, t, b, session, e, StillForgot(forgot, a, t1), decode)
    ensures ShownRight(a, t, b, session, e, forgot, decode)
  {
    hide JustDecoded, IsDecodeOf;
    DecodeNames(session, f);
    if t1 != a {
      var last := t1[|t1| - 1];
      assert Given(last, session, f, decode) && last.Decode? && last.id == f.id;
      assert t[|t1| - 1] == last;
      assert !NoDecodes(a, t1);
      GivenSession(last, session, f, decode);
      assert forall n :: |a| <= n < |t1| && t1[n].Decode? ==> t1[n].id == f.id;
      assert forall n :: 0 <= n < |t1| ==> t[n] == t1[n];
    } else {
      assert NoDecodes(a, t1);
    }
  }

  lemma GivenSession(d: Playback, session: u64, e: Entry, decode: u32 -> Outcome)
    requires Given(d, session, e, decode)
    ensures d.Decode? && d.session == session && d.id == e.id
  {
  }

  /** Entry x, which the loop passes, was shown as it should be, or was incomplete and waited for; either way the
      position came to it in its turn, or after a wait. */
  ghost predicate PassedRight(s: Receiver, t: seq<Playback>, b: nat, x: nat, now: u64, decode: u32 -> Outcome,
                              forgot: bool)
    requires x < |s.frames|
  {
    && InTurn(s.frames, s.next, x, now)
    && if s.frames[x].frame.Complete() then ShownRight(s.trace, t, b, s.session, s.frames[x], forgot, decode)
       else Waited(s.frames[x].frame, now, FRAME_TIMEOUT)
  }

  ghost predicate ShowInv(s: Receiver, forgot: bool) {
    PlayInv(s) && ValidFrames(s.frames) && !s.halted && !s.headless && KeyIff(s, forgot)
  }

  /** A turn of the loop at entry i. */
  lemma TurnKeepsShow(s: Receiver, i: nat, now: u64, decode: u32 -> Outcome, forgot: bool)
    requires ShowInv(s, forgot) && i < |s.frames| && s.frames[i].id >= s.next && DeliverOne(s, i, now, decode).Some?
    ensures var s' := DeliverOne(s, i, now, decode).value;
      && ShowInv(s', StillForgot(forgot, s.trace, s'.trace)) && s'.session == s.session
      && s'.next == s.frames[i].id + 1 && s'.frames == s.frames[i := s.frames[i].(played := true)]
  {
    TurnParts(s, i);
    DeliverOneKeepsPlay(s, i, now, decode);
    DeliverOneFrames(s, i, now, decode);
    DeliverOneMarks(s, i, now, decode);
    TurnKeepsKey(s, i, now, decode, forgot);
    TurnHeadless(s, i, now, decode);
    hide PlayInv, ValidFrames, DeliverOne, KeyIff, NoDecodes;
  }

  lemma TurnParts(s: Receiver, i: nat)
    requires PlayInv(s) && !s.halted && i < |s.frames| && s.frames[i].id >= s.next
    ensures TraceInv(s) && !s.frames[i].played && s.frames[i].id < UINT32_MAX
  {
  }

  lemma TurnHeadless(s: Receiver, i: nat, now: u64, decode: u32 -> Outcome)
    requires i < |s.frames| && DeliverOne(s, i, now, decode).Some?
    ensures DeliverOne(s, i, now, decode).value.headless == s.headless
  {
    hide Show, Waited;
    ShowKeepsFrames(SkipTo(s, i), s.frames[i], now, decode);
  }

  lemma FrontIsFirst(s: Receiver, i: nat, x: nat, now: u64)
    requires ValidFrames(s.frames) && Front(s, now) == Some(i) && x < |s.frames| && s.next <= s.frames[x].id
    ensures i <= x && InTurn(s.frames, s.next, i, now) && s.frames[i].id <= s.frames[x].id
  {
    hide FrameOk, Waited;
  }

  lemma {:induction false} DeliverShows(s: Receiver, now: u64, decode: u32 -> Outcome, forgot: bool, x: nat)
    returns (b: nat)
    requires ShowInv(s, forgot) && x < |s.frames|
    requires s.next <= s.frames[x].id < Deliver(s, now, decode).next
    ensures PassedRight(s, Deliver(s, now, decode).trace, b, x, now, decode, forgot)
    decreases |s.frames| - LowerBound(s.frames, s.next)
  {
    hide ShownRight, DeliverOne, Front, LowerBound, ValidFrames, PlayInv, KeyIff, Waited, InTurn, TurnShows, NoDecodes,
      DecodesAhead;
    b := |s.trace|;
    var i := Front(s, now).value;
    FrontIsFirst(s, i, x, now);
    TurnParts(s, i);
    TurnIsShown(s, i, now, decode, forgot);
    TurnKeepsShow(s, i, now, decode, forgot);
    DeliverOneFrames(s, i, now, decode);
    var s1 := DeliverOne(s, i, now, decode).value;
    var t := Deliver(s1, now, decode).trace;
    if x == i {
      DeliverDecodesAhead(s1, now, decode);
      if s.frames[i].frame.Complete() {
        ShownHere(s.trace, s1.trace, t, s.session, s.frames[i], forgot, decode);
      }
    } else {
      RisingIds(s.frames, i, x);
      b := DeliverShows(s1, now, decode, StillForgot(forgot, s.trace, s1.trace), x);
      LaterInTurn(s.frames, s.next, i, x, now);
      if s.frames[x].frame.Complete() {
        ShownLater(s.trace, s1.trace, t, b, s.session, s.frames[i], s.frames[x], forgot, decode);
      }
    }
  }

  lemma RisingIds(frames: seq<Entry>, i: nat, x: nat)
    requires ValidFrames(frames) && i < x < |frames|
    ensures frames[i].id < frames[x].id
  {
  }

  lemma LaterInTurn(frames: seq<Entry>, next: u32, i: nat, x: nat, now: u64)
    requires ValidFrames(frames) && i < x < |frames| && frames[i].id >= next && frames[i].id < UINT32_MAX
    requires InTurn(frames[i := frames[i].(played := true)], U32(frames[i].id + 1), x, now)
    ensures InTurn(frames, next, x, now)
  {
    hide FrameOk, Waited;
  }

  // ----- Every pass -----

  lemma PacketKeepsShow(s: Receiver, d: Datagram, now: u64, forgot: bool)
    requires ValidFrames(s.frames) && d.Accepted() && KeyIff(s, forgot)
    ensures KeyIff(TakeInSession(s, d, now), forgot) && TakeInSession(s, d, now).headless == s.headless
  {
    hide TakePacket, ValidFrames, UnplayedAhead;
    if d.h.flags != STREAM_INFO {
      hide HeaderAccepted;
      PacketFrame(s.(wireBytes := (s.wireBytes + d.Size()) % TWO64), d, now);
    } else {
      hide HeaderAccepted;
    }
  }

  lemma InputKeepsShow(s: Receiver, input: Input, now: u64, forgot: bool)
    requires ShowInv(s, forgot) && !TakeInput(s, input, now).halted
    ensures ShowInv(TakeInput(s, input, now), forgot)
  {
    InputKeepsPlay(s, input, now);
    TakeKeepsFrames(s, input, now);
    hide PlayInv, ValidFrames, KeyIff, TakeInput;
    InputKeepsKey(s, input, now, forgot);
  }

  lemma InputKeepsKey(s: Receiver, input: Input, now: u64, forgot: bool)
    requires ValidFrames(s.frames) && KeyIff(s, forgot)
    ensures KeyIff(TakeInput(s, input, now), forgot) && TakeInput(s, input, now).headless == s.headless
  {
    hide Parse, TakeInSession, ValidFrames, HeaderAccepted, KeyIff;
    if input.Bytes? && Parse(input.bytes).Some? {
      var d := Parse(input.bytes).value;
      WireCanonical(input.bytes);
      NoneValid();
      var retired := if s.session != 0 then s.retired + {s.session} else s.retired;
      var s1 := s.(retired := retired);
      OpenKeepsKey(s1, d.h.session, input.from, forgot);
      PacketKeepsShow(Open(s1, d.h.session, input.from), d, now, forgot);
      PacketKeepsShow(s, d, now, forgot);
      HaltKeepsKey(s, retired, forgot);
    }
  }

  lemma OpenKeepsKey(s: Receiver, session: u64, from: Address, forgot: bool)
    ensures KeyIff(Open(s, session, from), forgot)
  {
  }

  lemma HaltKeepsKey(s: Receiver, retired: set<u64>, forgot: bool)
    requires KeyIff(s, forgot)
    ensures KeyIff(s.(retired := retired, halted := true), forgot)
  {
  }

  lemma {:induction false} DeliverKeepsShow(s: Receiver, now: u64, decode: u32 -> Outcome, forgot: bool)
    requires ShowInv(s, forgot)
    ensures ShowInv(Deliver(s, now, decode), StillForgot(forgot, s.trace, Deliver(s, now, decode).trace))
    decreases |s.frames| - LowerBound(s.frames, s.next)
  {
    hide DeliverOne, Front, LowerBound, ValidFrames, PlayInv, KeyIff, NoDecodes;
    NothingYet(s.trace);
    if s.frames != [] && (s.headless || s.decoder) {
      var i := Front(s, now);
      if i.Some? && DeliverOne(s, i.value, now, decode).Some? {
        var s1 := DeliverOne(s, i.value, now, decode).value;
        TurnKeepsShow(s, i.value, now, decode, forgot);
        DeliverOneFrames(s, i.value, now, decode);
        DeliverKeepsShow(s1, now, decode, StillForgot(forgot, s.trace, s1.trace));
        TurnDecodesAhead(s, i.value, now, decode);
        DeliverDecodesAhead(s1, now, decode);
        NoDecodesTransitive(s.trace, s1.trace, Deliver(s1, now, decode).trace);
      }
    }
  }

  lemma NothingYet(t: seq<Playback>)
    ensures NoDecodes(t, t)
  {
  }

  lemma NoDecodesTransitive(a: seq<Playback>, b: seq<Playback>, c: seq<Playback>)
    requires a <= b <= c
    ensures NoDecodes(a, c) <==> NoDecodes(a, b) && NoDecodes(b, c)
  {
    assert forall n :: 0 <= n < |b| ==> c[n] == b[n];
  }

  /** The sweep forgets a frame that was never played. */
  ghost predicate SweepForgets(frames: seq<Entry>, now: u64) {
    exists e :: e in frames && Stale(e, now) && !e.played
  }

  lemma ExpireKeepsKey(s: Receiver, now: u64, forgot: bool)
    requires ShowInv(s, forgot)
    ensures ShowInv(Expire(s, now), forgot || SweepForgets(s.frames, now))
  {
    ExpireKeepsPlay(s, now);
    SweepKeeps(s.frames, now, s.next, s.needKey);
    SweepMoves(s.frames, now, s.next, s.needKey);
    SweepStays(s.frames, now, s.next, s.needKey);
    hide PlayInv, ValidFrames, SweepAll, Stale, JustDecoded;
  }

  lemma {:induction false} SweepStays(frames: seq<Entry>, now: u64, next: u32, needKey: bool)
    ensures !SweepForgets(frames, now) ==> SweepAll(frames, now, next, needKey).next == next
  {
    hide Stale;
    if frames != [] && !SweepForgets(frames, now) {
      var before, e := frames[..|frames| - 1], frames[|frames| - 1];
      assert forall x :: x in before ==> x in frames;
      assert e in frames;
      assert !SweepForgets(before, now);
      SweepStays(before, now, next, needKey);
    }
  }

  /** Whether a frame that was never played has been forgotten since the last decoded one. */
  ghost function ForgotAfter(s: Receiver, step: Step, forgot: bool): bool
    requires ValidFrames(s.frames)
  {
    var s1 := TakeInput(s, step.input, step.now);
    TakeKeepsFrames(s, step.input, step.now);
    if s.halted || s1.halted then forgot
    else
      var s2 := Deliver(s1, step.now, step.decode);
      StillForgot(forgot, s1.trace, s2.trace) || SweepForgets(s2.frames, step.now)
  }

  ghost function Forgot(steps: seq<Step>, states: seq<Receiver>, n: nat): bool
    requires n <= |steps| && n <= |states| && forall i :: 0 <= i < n ==> ValidFrames(states[i].frames)
    decreases n
  {
    n > 0 && ForgotAfter(states[n - 1], steps[n - 1], Forgot(steps, states, n - 1))
  }

  lemma PassKeepsShow(s: Receiver, step: Step, forgot: bool)
    requires ShowInv(s, forgot)
    ensures var s' := Pass(s, step.input, step.now, step.decode);
      !s'.halted ==> ShowInv(s', ForgotAfter(s, step, forgot))
  {
    hide ShowInv, PlayInv, KeyIff, TakeInput, Deliver, Expire, ValidFrames, NoDecodes, SweepForgets;
    ShowParts(s, forgot);
    var s1 := TakeInput(s, step.input, step.now);
    if !s1.halted {
      InputKeepsShow(s, step.input, step.now, forgot);
      TakeKeepsFrames(s, step.input, step.now);
      DeliverKeepsShow(s1, step.now, step.decode, forgot);
      var s2 := Deliver(s1, step.now, step.decode);
      ExpireKeepsKey(s2, step.now, StillForgot(forgot, s1.trace, s2.trace));
    }
  }

  lemma ShowParts(s: Receiver, forgot: bool)
    requires ShowInv(s, forgot)
    ensures ValidFrames(s.frames) && !s.halted
  {
  }

  lemma {:induction false} RunKeepsShow(steps: seq<Step>, states: seq<Receiver>, n: nat)
    requires IsRun(false, steps, states) && n <= |steps| < |states| && !states[n].halted
    ensures forall i :: 0 <= i < n ==> ValidFrames(states[i].frames)
    ensures ShowInv(states[n], Forgot(steps, states, n))
    decreases n
  {
    hide IsRun, ShowInv, Pass, ForgotAfter, ValidFrames;
    RunStart(false, steps, states);
    if n == 0 {
      ShowAtStart();
    } else {
      RunStep(false, steps, states, n - 1);
      HaltedStays(states[n - 1], steps[n - 1]);
      RunKeepsShow(steps, states, n - 1);
      PassKeepsShow(states[n - 1], steps[n - 1], Forgot(steps, states, n - 1));
    }
  }

  lemma ShowAtStart()
    ensures ShowInv(Init(false), false)
  {
    InitPlayInv(false);
  }

  lemma HaltedStays(s: Receiver, step: Step)
    requires ValidFrames(s.frames)
    ensures s.halted ==> Pass(s, step.input, step.now, step.decode).halted
  {
  }

  /** In every run of a receiver with a picture: take a frame that the delivery loop passes in a pass. If it is
      complete, the decoder is given it exactly if it is a keyframe, or the last thing the decoder did was to decode
      the frame before it without an error and no frame that was never played has been forgotten since; and the
      decoder is reset for a keyframe unless the latter holds. If it is not complete, it was waited for; and so was
      the frame after a gap. */
  lemma FramesAreShown(steps: seq<Step>, states: seq<Receiver>, n: nat, x: nat) returns (b: nat)
    requires IsRun(false, steps, states) && n < |steps| < |states| && !states[n].halted
    requires ValidFrames(states[n].frames) && ValidFrames(TakeInput(states[n], steps[n].input, steps[n].now).frames)
    requires var s1 := TakeInput(states[n], steps[n].input, steps[n].now);
      && !s1.halted && x < |s1.frames|
      && s1.next <= s1.frames[x].id < Deliver(s1, steps[n].now, steps[n].decode).next
    ensures forall i :: 0 <= i < n ==> ValidFrames(states[i].frames)
    ensures PassedRight(TakeInput(states[n], steps[n].input, steps[n].now), states[n + 1].trace, b, x, steps[n].now,
                        steps[n].decode, Forgot(steps, states, n))
  {
    hide IsRun, ShowInv, Deliver, PassedRight, TakeInput, SweepAll, ValidFrames;
    RunKeepsShow(steps, states, n);
    RunStep(false, steps, states, n);
    var step := steps[n];
    var s1 := TakeInput(states[n], step.input, step.now);
    InputKeepsShow(states[n], step.input, step.now, Forgot(steps, states, n));
    b := DeliverShows(s1, step.now, step.decode, Forgot(steps, states, n), x);
  }

  // ----- Keyframe requests -----

  /** A keyframe was asked for within the last 200 ms, unless no session is open. */
  ghost predicate RecentlyAsked(s: Receiver, now: u64) {
    s.session != 0 ==> s.lastKeyRequest != 0 && Sub64(now, s.lastKeyRequest) < KEY_INTERVAL
  }

  /** The frame was not decoded when the trace grew from a to t, or it was with an error. */
  ghost predicate NeedsKey(a: seq<Playback>, t: seq<Playback>, e: Entry, decode: u32 -> Outcome) {
    decode(e.id).Broken? || forall n :: |a| <= n < |t| && t[n].Decode? ==> t[n].id != e.id
  }

  lemma ShowAsks(s: Receiver, e: Entry, now: u64, decode: u32 -> Outcome)
    requires !s.headless && now != 0
    ensures var s' := Show(s, e, now, decode);
      && (RecentlyAsked(s, now) ==> RecentlyAsked(s', now))
      && ((s.needKey && !e.frame.keyframe) || decode(e.id).Broken? ==> RecentlyAsked(s', now))
  {
    hide AssembleFirst;
  }

  lemma TurnAsks(s: Receiver, i: nat, now: u64, decode: u32 -> Outcome)
    requires ValidFrames(s.frames) && i < |s.frames| && !s.headless && now != 0 && !s.frames[i].played
    requires DeliverOne(s, i, now, decode).Some?
    ensures var s', e := DeliverOne(s, i, now, decode).value, s.frames[i];
      && (RecentlyAsked(s, now) ==> RecentlyAsked(s', now))
      && (e.frame.Complete() && NeedsKey(s.trace, s'.trace, e, decode) ==> RecentlyAsked(s', now))
  {
    assert FrameOk(s.frames[i].frame);
    hide FrameOk, Show, Waited, ValidFrames, IsDecodeOf, RecentlyAsked;
    var s1, e := SkipTo(s, i), s.frames[i];
    SkipAsks(s, i, now);
    if e.frame.Complete() {
      ShowAsks(s1, e, now, decode);
      ShowShows(s1, e, now, decode);
      DecodeNames(s1.session, e);
      var s' := DeliverOne(s, i, now, decode).value;
      AskedAlike(Show(s1, e, now, decode), s', now);
      if !(s1.needKey && !e.frame.keyframe) {
        var n := |s'.trace| - 1;
        assert |s.trace| <= n && Given(s'.trace[n], s1.session, e, decode);
      }
    } else {
      AskedAlike(s1, DeliverOne(s, i, now, decode).value, now);
    }
  }

  lemma SkipAsks(s: Receiver, i: nat, now: u64)
    requires i < |s.frames|
    ensures RecentlyAsked(SkipTo(s, i), now) <==> RecentlyAsked(s, now)
  {
  }

  lemma AskedAlike(s: Receiver, s': Receiver, now: u64)
    requires s'.session == s.session && s'.lastKeyRequest == s.lastKeyRequest
    ensures RecentlyAsked(s', now) <==> RecentlyAsked(s, now)
  {
  }

  lemma {:induction false} DeliverKeepsAsked(s: Receiver, now: u64, decode: u32 -> Outcome, forgot: bool)
    requires ShowInv(s, forgot) && now != 0 && RecentlyAsked(s, now)
    ensures RecentlyAsked(Deliver(s, now, decode), now)
    decreases |s.frames| - LowerBound(s.frames, s.next)
  {
    hide DeliverOne, Front, LowerBound, ValidFrames, PlayInv, KeyIff, RecentlyAsked, NeedsKey;
    if s.frames != [] && (s.headless || s.decoder) {
      var i := Front(s, now);
      if i.Some? && DeliverOne(s, i.value, now, decode).Some? {
        TurnParts(s, i.value);
        TurnKeepsShow(s, i.value, now, decode, forgot);
        TurnAsks(s, i.value, now, decode);
        DeliverOneFrames(s, i.value, now, decode);
        var s1 := DeliverOne(s, i.value, now, decode).value;
        DeliverKeepsAsked(s1, now, decode, StillForgot(forgot, s.trace, s1.trace));
      }
    }
  }

  lemma NeedsKeyLater(a: seq<Playback>, b: seq<Playback>, t: seq<Playback>, e: Entry, decode: u32 -> Outcome)
    requires NeedsKey(a, t, e, decode) && a <= b <= t
    ensures NeedsKey(a, b, e, decode) && NeedsKey(b, t, e, decode)
  {
    assert forall n :: 0 <= n < |b| ==> t[n] == b[n];
  }

  lemma {:induction false} DeliverAsks(s: Receiver, now: u64, decode: u32 -> Outcome, forgot: bool, x: nat)
    requires ShowInv(s, forgot) && now != 0 && x < |s.frames| && s.frames[x].frame.Complete()
    requires s.next <= s.frames[x].id < Deliver(s, now, decode).next
    requires NeedsKey(s.trace, Deliver(s, now, decode).trace, s.frames[x], decode)
    ensures RecentlyAsked(Deliver(s, now, decode), now)
    decreases |s.frames| - LowerBound(s.frames, s.next)
  {
    hide DeliverOne, Front, LowerBound, ValidFrames, PlayInv, KeyIff, InTurn, RecentlyAsked, NeedsKey;
    var i := Front(s, now).value;
    FrontIsFirst(s, i, x, now);
    TurnParts(s, i);
    TurnKeepsShow(s, i, now, decode, forgot);
    TurnAsks(s, i, now, decode);
    DeliverOneFrames(s, i, now, decode);
    var s1 := DeliverOne(s, i, now, decode).value;
    TurnDecodesAhead(s, i, now, decode);
    DeliverDecodesAhead(s1, now, decode);
    NeedsKeyLater(s.trace, s1.trace, Deliver(s1, now, decode).trace, s.frames[x], decode);
    var forgot' := StillForgot(forgot, s.trace, s1.trace);
    if x == i {
      DeliverKeepsAsked(s1, now, decode, forgot');
    } else {
      RisingIds(s.frames, i, x);
      SameNeeds(s1.trace, Deliver(s1, now, decode).trace, s.frames[x], s1.frames[x], decode);
      DeliverAsks(s1, now, decode, forgot', x);
    }
  }

  lemma SameNeeds(a: seq<Playback>, t: seq<Playback>, e: Entry, e': Entry, decode: u32 -> Outcome)
    requires NeedsKey(a, t, e, decode) && e'.id == e.id
    ensures NeedsKey(a, t, e', decode)
  {
  }

  /** In every run of a receiver with a picture: whenever the delivery loop passes a complete frame that is not
      decoded, or that is decoded with an error, a keyframe has been asked for within the 200 ms before the end of
      the pass. */
  lemma KeyframesAreAskedFor(steps: seq<Step>, states: seq<Receiver>, n: nat, x: nat)
    requires IsRun(false, steps, states) && n < |steps| < |states| && !states[n].halted && steps[n].now != 0
    requires ValidFrames(states[n].frames) && ValidFrames(TakeInput(states[n], steps[n].input, steps[n].now).frames)
    requires var s1 := TakeInput(states[n], steps[n].input, steps[n].now);
      && !s1.halted && x < |s1.frames| && s1.frames[x].frame.Complete()
      && s1.next <= s1.frames[x].id < Deliver(s1, steps[n].now, steps[n].decode).next
      && NeedsKey(s1.trace, states[n + 1].trace, s1.frames[x], steps[n].decode)
    ensures RecentlyAsked(states[n + 1], steps[n].now)
  {
    hide IsRun, ShowInv, Deliver, TakeInput, SweepAll, ValidFrames, RecentlyAsked, NeedsKey;
    RunKeepsShow(steps, states, n);
    RunStep(false, steps, states, n);
    var step := steps[n];
    var s1 := TakeInput(states[n], step.input, step.now);
    InputKeepsShow(states[n], step.input, step.now, Forgot(steps, states, n));
    DeliverAsks(s1, step.now, step.decode, Forgot(steps, states, n), x);
    AskedAlike(Deliver(s1, step.now, step.decode), states[n + 1], step.now);
  }

  // ----- The decoder in use -----

  /** The size of the decoder that was made last in the session. */
  function LastDecoder(trace: seq<Playback>): Option<(u32, u32)> {
    if trace == [] then None
    else
      match trace[|trace| - 1]
      case Opened(_) => None
      case NewDecoder(w, h) => Some((w, h))
      case _ => LastDecoder(trace[..|trace| - 1])
  }

  /** There is a decoder exactly if one was made in the session, and it has the size announced last. */
  ghost predicate DecoderInv(s: Receiver) {
    && !s.headless && (!s.decoder ==> s.width == 0)
    && LastDecoder(s.trace) == if s.decoder then Some((s.width, s.height)) else None
  }

  lemma DecoderAppend(trace: seq<Playback>, e: Playback)
    ensures LastDecoder(trace + [e]) == match e
      case Opened(_) => None
      case NewDecoder(w, h) => Some((w, h))
      case _ => LastDecoder(trace)
  {
    assert (trace + [e])[..|trace|] == trace;
  }

  lemma StreamInfoDecoder(s: Receiver, payload: seq<byte>)
    requires DecoderInv(s) && |payload| == 8
    ensures DecoderInv(TakeStreamInfo(s, payload))
  {
    Pow256Values();
    var w, h := FromBigEndian(payload[0..4]), FromBigEndian(payload[4..8]);
    DecoderAppend(s.trace, NewDecoder(w, h));
    hide LastDecoder;
  }

  lemma InSessionDecoder(s: Receiver, d: Datagram, now: u64)
    requires ValidFrames(s.frames) && d.Accepted() && DecoderInv(s)
    ensures DecoderInv(TakeInSession(s, d, now))
  {
    hide ValidFrames, TakePacket, TakeStreamInfo, UnplayedAhead, LastDecoder;
    var s1 := s.(wireBytes := (s.wireBytes + d.Size()) % TWO64);
    if d.h.flags == STREAM_INFO {
      StreamInfoDecoder(s1, d.payload);
    } else {
      hide HeaderAccepted;
      PacketFrame(s1, d, now);
    }
  }

  lemma InputDecoder(s: Receiver, input: Input, now: u64)
    requires ValidFrames(s.frames) && DecoderInv(s)
    ensures DecoderInv(TakeInput(s, input, now))
  {
    hide Parse, TakeInSession, ValidFrames, HeaderAccepted, DecoderInv;
    if input.Bytes? && Parse(input.bytes).Some? {
      var d := Parse(input.bytes).value;
      WireCanonical(input.bytes);
      NoneValid();
      var retired := if s.session != 0 then s.retired + {s.session} else s.retired;
      OpenDecoder(s, retired, d.h.session, input.from);
      InSessionDecoder(Open(s.(retired := retired), d.h.session, input.from), d, now);
      InSessionDecoder(s, d, now);
    }
  }

  lemma OpenDecoder(s: Receiver, retired: set<u64>, session: u64, from: Address)
    requires DecoderInv(s)
    ensures DecoderInv(Open(s.(retired := retired), session, from))
    ensures DecoderInv(s.(retired := retired, halted := true))
  {
    DecoderAppend(s.trace, Opened(session));
  }

  lemma ShowDecoder(s: Receiver, e: Entry, now: u64, decode: u32 -> Outcome)
    requires DecoderInv(s)
    ensures DecoderInv(Show(s, e, now, decode))
  {
    var bytes := AssembleFirst(e.frame.payloads, |e.frame.payloads|, e.frame.size);
    var shown := Decode(s.session, e.id, e.frame.keyframe, bytes, decode(e.id));
    DecoderAppend(s.trace, Reset);
    DecoderAppend(s.trace + [Reset], shown);
    DecoderAppend(s.trace, shown);
    assert s.trace + [] == s.trace;
    hide LastDecoder, AssembleFirst;
  }

  lemma TurnDecoder(s: Receiver, i: nat, now: u64, decode: u32 -> Outcome)
    requires DecoderInv(s) && i < |s.frames| && DeliverOne(s, i, now, decode).Some?
    ensures DecoderInv(DeliverOne(s, i, now, decode).value)
  {
    hide Show, Waited, LastDecoder;
    ShowDecoder(SkipTo(s, i), s.frames[i], now, decode);
  }

  lemma {:induction false} DeliverDecoder(s: Receiver, now: u64, decode: u32 -> Outcome)
    requires ValidFrames(s.frames) && DecoderInv(s)
    ensures DecoderInv(Deliver(s, now, decode))
    decreases |s.frames| - LowerBound(s.frames, s.next)
  {
    hide DeliverOne, Front, LowerBound, ValidFrames, DecoderInv;
    if s.frames != [] && (s.headless || s.decoder) {
      var i := Front(s, now);
      if i.Some? && DeliverOne(s, i.value, now, decode).Some? {
        DeliverOneFrames(s, i.value, now, decode);
        TurnDecoder(s, i.value, now, decode);
        DeliverDecoder(DeliverOne(s, i.value, now, decode).value, now, decode);
      }
    }
  }

  lemma PassDecoder(s: Receiver, step: Step)
    requires ValidFrames(s.frames) && DecoderInv(s)
    ensures DecoderInv(Pass(s, step.input, step.now, step.decode))
  {
    hide TakeInput, Deliver, SweepAll, ValidFrames, LastDecoder;
    if !s.halted {
      InputDecoder(s, step.input, step.now);
      TakeKeepsFrames(s, step.input, step.now);
      var s1 := TakeInput(s, step.input, step.now);
      if !s1.halted {
        DeliverDecoder(s1, step.now, step.decode);
      }
    }
  }

  /** In every run of a receiver with a picture, there is a decoder exactly if one was made since the session was
      opened, and the one made last has the size announced last. */
  lemma {:induction false} DecoderHasSize(steps: seq<Step>, states: seq<Receiver>, n: nat)
    requires IsRun(false, steps, states) && n <= |steps| < |states|
    ensures DecoderInv(states[n])
    decreases n
  {
    hide IsRun, DecoderInv, Pass, ValidFrames;
    RunStart(false, steps, states);
    if n == 0 {
      DecoderAtStart();
    } else {
      DecoderHasSize(steps, states, n - 1);
      RunStep(false, steps, states, n - 1);
      PassDecoder(states[n - 1], steps[n - 1]);
    }
  }

  lemma DecoderAtStart()
    ensures DecoderInv(Init(false))
  {
  }

  /** An announcement of a size from 2 to 8192, even both ways, leaves a decoder of that size; any other changes
      nothing. */
  lemma AnnouncedSizeIsTaken(s: Receiver, width: u32, height: u32)
    requires DecoderInv(s)
    ensures var payload := StreamInfoPacket(s.session, width, height).payload;
      && |payload| == 8
      && var s' := TakeStreamInfo(s, payload);
         if 2 <= width <= 8192 && 2 <= height <= 8192 && width % 2 == 0 && height % 2 == 0
         then s'.decoder && s'.width == width && s'.height == height
              && (s'.trace != s.trace <==> !s.decoder || s.width != width || s.height != height)
         else s' == s
  {
    if s.session != 0 {
      StreamInfoAccepted(s.session, width, height);
    } else {
      StreamInfoAccepted(1, width, height);
      assert StreamInfoPacket(1, width, height).payload == StreamInfoPacket(0, width, height).payload;
    }
    hide LastDecoder, FromBigEndian;
  }
}
