/** The rate epochs of CaptureEpochs, over every run of the sender. */
module SenderEpochs {
  import opened Bytes
  import opened Protocol
  import opened Packetizer
  import Ctl = Controller
  import Runs = ControllerRuns
  import Epochs = CaptureEpochs
  import opened Sender
  import opened SenderRuns
  import SenderLog
  import SenderLosses

  // ----- Which encoding each frame is -----

  /** The controller with its encodings, and the number of the encoding under way, of each queued frame and of each
      frame in flight. */
  datatype Track = Track(cap: Epochs.Cap, encoding: nat, queued: seq<nat>, flying: seq<nat>)

  function Begin(cfg: Ctl.Config): Track {
    Track(Epochs.Cap(Ctl.Init(cfg), [], [0], []), 0, [], [])
  }

  ghost predicate Rising(numbers: seq<nat>, limit: nat) {
    && (forall i, j :: 0 <= i < j < |numbers| ==> numbers[i] < numbers[j])
    && (forall i :: 0 <= i < |numbers| ==> numbers[i] < limit)
  }

  /** The encodings with these numbers were tagged with these epochs. */
  ghost predicate Tagged(numbers: seq<nat>, epochs: seq<nat>, tags: seq<nat>) {
    |numbers| == |epochs| && forall i :: 0 <= i < |numbers| ==> numbers[i] < |tags| && tags[numbers[i]] == epochs[i]
  }

  function QueueEpochs(queue: seq<EncodedFrame>): seq<nat> {
    seq(|queue|, i requires 0 <= i < |queue| => queue[i].epoch)
  }

  function FlightEpochs(inflight: seq<SentFrame>): seq<nat> {
    seq(|inflight|, i requires 0 <= i < |inflight| => inflight[i].epoch)
  }

  /** The number every queued frame and frame in flight is below. */
  function Limit(s: Sender, t: Track): nat { if s.capture.Encoding? then t.encoding else |t.cap.tags| }

  /** The frames are encoded frames, with the epochs they were tagged with, in encoding order. */
  ghost predicate FramesLinked(s: Sender, t: Track) {
    && Tagged(t.queued, QueueEpochs(s.queue), t.cap.tags) && Tagged(t.flying, FlightEpochs(s.inflight), t.cap.tags)
    && (s.capture.Encoding? ==> t.encoding < |t.cap.tags| && t.cap.tags[t.encoding] == s.capture.epoch)
    && Rising(t.flying + t.queued, Limit(s, t))
  }

  ghost predicate Linked(cfg: Ctl.Config, s: Sender, t: Track) {
    && ValidSender(cfg, s) && t.cap.c == s.ctl && Epochs.EpochInv(cfg, t.cap) && FramesLinked(s, t)
  }

  lemma BeginLinked(cfg: Ctl.Config, session: u64)
    requires Ctl.ValidConfig(cfg) && session != 0
    ensures Linked(cfg, Init(cfg, session), Begin(cfg))
  {
    InitValid(cfg, session);
  }

  /** A call of the controller that touches no frame. */
  function Called(cfg: Ctl.Config, t: Track, op: Runs.Op): (r: Track)
    requires Ctl.ValidConfig(cfg) && Epochs.EpochInv(cfg, t.cap) && !op.Acked? && !op.TakeEncoding?
    ensures Epochs.EpochInv(cfg, r.cap) && r.cap.tags == t.cap.tags && r == t.(cap := r.cap)
    ensures r.cap.c == Runs.Apply(cfg, t.cap.c, op).0
  {
    Epochs.NextKeepsEpochInv(cfg, t.cap, Epochs.Call(op));
    hide Epochs.EpochInv, Runs.Apply;
    t.(cap := Epochs.Next(cfg, t.cap, Epochs.Call(op)))
  }

  // ----- The steps that move frames -----

  /** Steps that leave the controller alone, and the frames but for their packets. */
  ghost predicate SameFrames(s: Sender, s': Sender) {
    s'.queue == s.queue && s'.capture == s.capture && FlightEpochs(s'.inflight) == FlightEpochs(s.inflight)
  }

  lemma SameFramesLinked(cfg: Ctl.Config, s: Sender, s': Sender, t: Track, t': Track)
    requires Linked(cfg, s, t) && ValidSender(cfg, s') && SameFrames(s, s') && t'.cap.c == s'.ctl
    requires Epochs.EpochInv(cfg, t'.cap) && t'.cap.tags == t.cap.tags && t' == t.(cap := t'.cap)
    ensures Linked(cfg, s', t')
  {
    hide ValidSender, Epochs.EpochInv, Tagged, Rising;
  }

  /** The encoding of a frame: it gets the next number. */
  function CaptureTrack(cfg: Ctl.Config, s: Sender, t: Track): Track
    requires Linked(cfg, s, t)
  {
    if !s.capture.CaptureIdle? || Backlogged(cfg, s) then t
    else t.(cap := Epochs.Next(cfg, t.cap, Epochs.Encode), encoding := |t.cap.tags|)
  }

  lemma CaptureEncodes(cfg: Ctl.Config, s: Sender, capturedAt: u64)
    requires ValidSender(cfg, s)
    ensures var s', c := CaptureFrame(cfg, s, capturedAt), Ctl.TakeEncodingBitrate(cfg, s.ctl).0;
      && s'.queue == s.queue && s'.inflight == s.inflight
      && if !s.capture.CaptureIdle? || Backlogged(cfg, s) then s'.ctl == s.ctl && s'.capture == s.capture
         else s'.ctl == c && s'.capture.Encoding? && s'.capture.epoch == c.rateEpoch
  {
    hide ValidFrame, IdsRise, ValidPacer, Runs.CtlInv, Ctl.TakeEncodingBitrate, Backlogged;
  }

  lemma CaptureLinked(cfg: Ctl.Config, s: Sender, t: Track, capturedAt: u64)
    requires Linked(cfg, s, t)
    ensures Linked(cfg, CaptureFrame(cfg, s, capturedAt), CaptureTrack(cfg, s, t))
  {
    Epochs.NextKeepsEpochInv(cfg, t.cap, Epochs.Encode);
    CaptureKeepsValid(cfg, s, capturedAt);
    CaptureEncodes(cfg, s, capturedAt);
    hide ValidSender, Epochs.EpochInv, Backlogged, Ctl.TakeEncodingBitrate, Tagged, Rising, QueueEpochs, FlightEpochs,
      CaptureFrame;
    var epoch := Ctl.TakeEncodingBitrate(cfg, s.ctl).0.rateEpoch;
    TaggedMore(t.queued, QueueEpochs(s.queue), t.cap.tags, epoch);
    TaggedMore(t.flying, FlightEpochs(s.inflight), t.cap.tags, epoch);
  }

  lemma TaggedMore(numbers: seq<nat>, epochs: seq<nat>, tags: seq<nat>, epoch: nat)
    requires Tagged(numbers, epochs, tags)
    ensures Tagged(numbers, epochs, tags + [epoch])
  {
  }

  function EncodedTrack(s: Sender, t: Track, bytes: seq<byte>): Track {
    if s.capture.CaptureIdle? || bytes == [] || |bytes| > MAX_FRAME_BYTES then t
    else t.(queued := t.queued + [t.encoding])
  }

  lemma EncodedLinked(cfg: Ctl.Config, s: Sender, t: Track, bytes: seq<byte>, keyframe: bool)
    requires Linked(cfg, s, t)
    ensures Linked(cfg, PushFrame(s, bytes, keyframe), EncodedTrack(s, t, bytes))
  {
    EncodedKeepsValid(cfg, s, bytes, keyframe);
    hide ValidSender, Epochs.EpochInv, FlightEpochs, Tagged, Rising, QueueEpochs;
    if s.capture.Encoding? {
      var all := t.flying + t.queued;
      assert t.flying + (t.queued + [t.encoding]) == all + [t.encoding];
      RisingMore(all, t.encoding, |t.cap.tags|);
      if bytes != [] && |bytes| <= MAX_FRAME_BYTES {
        var e := EncodedFrame(bytes, s.capture.target, keyframe, s.capture.epoch, s.capture.capturedAt);
        QueueGrows(s.queue, e);
        TaggedOne(t.queued, QueueEpochs(s.queue), t.cap.tags, t.encoding);
      }
    }
  }

  lemma RisingMore(numbers: seq<nat>, n: nat, limit: nat)
    requires Rising(numbers, n) && n < limit
    ensures Rising(numbers + [n], limit) && Rising(numbers, limit)
  {
  }

  lemma QueueGrows(queue: seq<EncodedFrame>, e: EncodedFrame)
    ensures QueueEpochs(queue + [e]) == QueueEpochs(queue) + [e.epoch]
  {
  }

  lemma TaggedOne(numbers: seq<nat>, epochs: seq<nat>, tags: seq<nat>, n: nat)
    requires Tagged(numbers, epochs, tags) && n < |tags|
    ensures Tagged(numbers + [n], epochs + [tags[n]], tags)
  {
  }

  function StartTrack(s: Sender, t: Track): Track
    requires |t.queued| == |s.queue|
  {
    if !s.pacer.PacerIdle? || s.queue == [] then t
    else if s.nextId >= UINT32_MAX then t.(queued := t.queued[1..])
    else t.(queued := t.queued[1..], flying := t.flying + [t.queued[0]])
  }

  lemma StartLinked(cfg: Ctl.Config, s: Sender, t: Track, started: u64, firstSent: u64)
    requires Linked(cfg, s, t) && ClockReading(firstSent)
    ensures Linked(cfg, StartFrame(s, started, firstSent), StartTrack(s, t))
  {
    StartKeepsValid(cfg, s, started, firstSent);
    hide ValidSender, Epochs.EpochInv, ProbeGap, FlightEpochs, Tagged, Rising, QueueEpochs;
    TaggedLengths(s, t);
    if s.queue != [] {
      var queue, tags, n := QueueEpochs(s.queue), t.cap.tags, t.queued[0];
      assert (t.flying + [n]) + t.queued[1..] == t.flying + t.queued;
      DropOne(t.flying, t.queued, Limit(s, t));
      QueueShrinks(s.queue);
      TaggedRest(t.queued, queue, tags);
      TaggedOne(t.flying, FlightEpochs(s.inflight), tags, n);
      forall f: SentFrame
        ensures FlightEpochs(s.inflight + [f]) == FlightEpochs(s.inflight) + [f.epoch]
      {
        FlightGrows(s.inflight, f);
      }
    }
  }

  lemma TaggedLengths(s: Sender, t: Track)
    requires FramesLinked(s, t)
    ensures |t.queued| == |s.queue| && |t.flying| == |s.inflight|
  {
  }

  lemma QueueShrinks(queue: seq<EncodedFrame>)
    requires queue != []
    ensures QueueEpochs(queue[1..]) == QueueEpochs(queue)[1..] && QueueEpochs(queue)[0] == queue[0].epoch
  {
  }

  lemma TaggedRest(numbers: seq<nat>, epochs: seq<nat>, tags: seq<nat>)
    requires Tagged(numbers, epochs, tags) && numbers != []
    ensures Tagged(numbers[1..], epochs[1..], tags) && numbers[0] < |tags| && tags[numbers[0]] == epochs[0]
  {
  }

  lemma FlightGrows(inflight: seq<SentFrame>, f: SentFrame)
    ensures FlightEpochs(inflight + [f]) == FlightEpochs(inflight) + [f.epoch]
  {
  }

  lemma DropOne(a: seq<nat>, b: seq<nat>, limit: nat)
    requires Rising(a + b, limit)
    ensures b != [] ==> Rising(a + b[1..], limit)
    ensures a != [] ==> Rising(a[1..] + b, limit)
  {
    if b != [] {
      var all, less := a + b, a + b[1..];
      forall i | 0 <= i < |less|
        ensures less[i] == all[if i < |a| then i else i + 1]
      {
      }
    }
    if a != [] {
      assert a[1..] + b == (a + b)[1..];
    }
  }

  // ----- resolve -----

  /** The sample that settling the front of the map gives the controller. */
  function FrontSample(s: Sender, now: u64, wall: nat -> u64): Ctl.FrameAck
    requires s.inflight != [] && ValidFrame(s.inflight[0]) && s.fb.minOwd.Some?
  {
    var f := s.inflight[0];
    MakeAck(s, f, s.fb.minOwd.value, now, wall(f.id))
  }

  predicate Sampled(s: Sender)
    requires s.inflight != []
  {
    s.inflight[0].delivered && s.fb.minOwd.Some?
  }

  /** That sample is of an encoded frame, tagged with its epoch. */
  lemma SampleEnabled(cfg: Ctl.Config, s: Sender, t: Track, now: u64, wall: nat -> u64)
    requires Linked(cfg, s, t) && s.inflight != [] && s.fb.minOwd.Some?
    ensures ValidFrame(s.inflight[0]) && |t.flying| == |s.inflight|
    ensures Ctl.ValidConfig(cfg) && Runs.CtlInv(cfg, t.cap.c)
    ensures Epochs.Enabled(t.cap, Epochs.SampleOf(t.flying[0], FrontSample(s, now, wall)))
  {
    assert ValidFrame(s.inflight[0]);
    MakeAckValid(s, s.inflight[0], s.fb.minOwd.value, now, wall(s.inflight[0].id));
    hide ValidFrame, MakeAck, Ctl.ValidAck, Runs.CtlInv, IdsRise, ValidPacer;
    FlightShrinks(s.inflight);
    TaggedRest(t.flying, FlightEpochs(s.inflight), t.cap.tags);
  }

  lemma FlightShrinks(inflight: seq<SentFrame>)
    requires inflight != []
    ensures FlightEpochs(inflight[1..]) == FlightEpochs(inflight)[1..] && FlightEpochs(inflight)[0] == inflight[0].epoch
  {
  }

  function SettleTrack(cfg: Ctl.Config, s: Sender, t: Track, now: u64, wall: nat -> u64): Track
    requires Linked(cfg, s, t) && s.inflight != []
  {
    TaggedLengths(s, t);
    var rest := t.(flying := t.flying[1..]);
    if Sampled(s) then
      SampleEnabled(cfg, s, t, now, wall);
      rest.(cap := Epochs.Next(cfg, t.cap, Epochs.SampleOf(t.flying[0], FrontSample(s, now, wall))))
    else if !s.inflight[0].delivered then Called(cfg, rest, Runs.FrameLost(now, U64(SenderLosses.LossGap(s.fb))))
    else rest
  }

  /** What settling the front frame does to the controller. */
  lemma SettleCalls(cfg: Ctl.Config, s: Sender, t: Track, now: u64, wall: nat -> u64)
    requires Linked(cfg, s, t) && s.inflight != []
    ensures var s', c' := SettleFirst(cfg, s, now, wall), SettleTrack(cfg, s, t, now, wall).cap.c;
      s'.ctl == c'
  {
    hide FramesLinked, ValidFrame, IdsRise, ValidPacer, Runs.CtlInv, MakeAck, Ctl.OnFrameAcked, Ctl.OnFrameLoss, Called,
      Epochs.EpochInv;
    TaggedLengths(s, t);
    if Sampled(s) {
      SampleEnabled(cfg, s, t, now, wall);
    } else if !s.inflight[0].delivered {
      assert ValidFrame(s.inflight[0]);
    }
  }

  lemma SettleKeepsEpochs(cfg: Ctl.Config, s: Sender, t: Track, now: u64, wall: nat -> u64)
    requires Linked(cfg, s, t) && s.inflight != []
    ensures var t' := SettleTrack(cfg, s, t, now, wall);
      Epochs.EpochInv(cfg, t'.cap) && t'.cap.tags == t.cap.tags && t' == t.(cap := t'.cap, flying := t.flying[1..])
  {
    hide FramesLinked, ValidSender, MakeAck, Called, Epochs.EpochInv, FrontSample;
    TaggedLengths(s, t);
    if Sampled(s) {
      SampleEnabled(cfg, s, t, now, wall);
      Epochs.NextKeepsEpochInv(cfg, t.cap, Epochs.SampleOf(t.flying[0], FrontSample(s, now, wall)));
    }
  }

  lemma SettleLinked(cfg: Ctl.Config, s: Sender, t: Track, now: u64, wall: nat -> u64)
    requires Linked(cfg, s, t) && s.inflight != []
    ensures Linked(cfg, SettleFirst(cfg, s, now, wall), SettleTrack(cfg, s, t, now, wall))
  {
    SettleCalls(cfg, s, t, now, wall);
    SettleKeepsEpochs(cfg, s, t, now, wall);
    hide ValidSender, SettleFirst, SettleTrack, Epochs.EpochInv, Tagged, Rising, FlightEpochs, QueueEpochs;
    TaggedLengths(s, t);
    FlightShrinks(s.inflight);
    TaggedRest(t.flying, FlightEpochs(s.inflight), t.cap.tags);
    DropOne(t.flying, t.queued, Limit(s, t));
  }

  /** The sender and its encodings when resolve has settled k frames. */
  ghost function Resolved(cfg: Ctl.Config, s: Sender, t: Track, now: u64, wall: nat -> u64, k: nat)
    : (r: (Sender, Track))
    requires Linked(cfg, s, t) && k <= |s.inflight|
    ensures Linked(cfg, r.0, r.1) && |r.0.inflight| == |s.inflight| - k && r.0.fb == s.fb
    ensures r.0.inflight == s.inflight[k..]
    decreases k
  {
    hide Linked, SettleTrack;
    if k == 0 then (s, t)
    else
      assert ValidSender(cfg, s) by {
        LinkedValid(cfg, s, t);
      }
      SettleLinked(cfg, s, t, now, wall);
      Resolved(cfg, SettleFirst(cfg, s, now, wall), SettleTrack(cfg, s, t, now, wall), now, wall, k - 1)
  }

  lemma LinkedValid(cfg: Ctl.Config, s: Sender, t: Track)
    requires Linked(cfg, s, t)
    ensures ValidSender(cfg, s)
  {
  }

  /** How many frames resolve settles. */
  function Settles(cfg: Ctl.Config, s: Sender, now: u64, wall: nat -> u64): (k: nat)
    requires ValidSender(cfg, s)
    ensures k <= |s.inflight| && forall i :: 0 <= i < k ==> Settled(s.inflight[i], s.fb, now)
  {
    ResolveExhausts(cfg, s, now, wall);
    |s.inflight| - |Resolve(cfg, s, now, wall).inflight|
  }

  lemma {:induction false} ResolveIsResolved(cfg: Ctl.Config, s: Sender, t: Track, now: u64, wall: nat -> u64)
    requires Linked(cfg, s, t)
    ensures ValidSender(cfg, s)
    ensures Resolve(cfg, s, now, wall) == Limits(Resolved(cfg, s, t, now, wall, Settles(cfg, s, now, wall)).0)
    decreases |s.inflight|
  {
    hide Linked, ValidSender, SettleFirst, SettleTrack, Settled, Limits;
    LinkedValid(cfg, s, t);
    ResolveExhausts(cfg, s, now, wall);
    LimitsKeepFlight(s);
    if s.inflight != [] && Settled(s.inflight[0], s.fb, now) {
      SettleLinked(cfg, s, t, now, wall);
      ResolveIsResolved(cfg, SettleFirst(cfg, s, now, wall), SettleTrack(cfg, s, t, now, wall), now, wall);
    }
  }

  lemma LimitsKeepFlight(s: Sender)
    ensures var s' := Limits(s); s'.inflight == s.inflight && SameFrames(s, s') && s'.ctl == s.ctl
  {
    hide PendingRetries, FlightEpochs;
  }

  // ----- The listener -----

  lemma InputKeepsFrames(s: Sender, input: Input, now: u64)
    ensures SameFrames(s, HandleInput(s, input, now)) && HandleInput(s, input, now).ctl == s.ctl
  {
    hide ObserveTimes, ObserveWire, UsableAck, Find;
  }

  lemma QueueKeepsFrames(s: Sender, now: u64)
    ensures SameFrames(s, QueueRetries(s, now)) && QueueRetries(s, now).ctl == s.ctl
  {
    hide AllDue, RetransmissionLost, DueIn;
  }

  function AgeTrack(cfg: Ctl.Config, s: Sender, t: Track, now: u64): Track
    requires Linked(cfg, s, t)
  {
    match OldestUndelivered(s.inflight)
    case None => t
    case Some(f) => Called(cfg, t, Runs.InflightAge(Sub64(now, f.createdAt), BaseRtt(s.fb)))
  }

  lemma AgeLinked(cfg: Ctl.Config, s: Sender, t: Track, now: u64)
    requires Linked(cfg, s, t)
    ensures Linked(cfg, CheckAge(cfg, s, now), AgeTrack(cfg, s, t, now))
  {
    CheckAgeKeepsValid(cfg, s, now);
    var s', t' := CheckAge(cfg, s, now), AgeTrack(cfg, s, t, now);
    assert t'.cap.c == s'.ctl by {
      hide ValidFrame, IdsRise, ValidPacer, Runs.CtlInv, FramesLinked, Epochs.EpochInv, OldestUndelivered, Called,
        Ctl.OnInflightAge;
    }
    hide FramesLinked, OldestUndelivered, ValidSender, Epochs.EpochInv, Called, CheckAge;
    SameFramesLinked(cfg, s, s', t, t');
  }

  /** The sender and its encodings when the listener comes to resolve. */
  ghost function ToResolve(cfg: Ctl.Config, s: Sender, t: Track, input: Input, now: u64): (r: (Sender, Track))
    requires Linked(cfg, s, t)
    ensures Linked(cfg, r.0, r.1)
    ensures ValidSender(cfg, s) && ValidSender(cfg, QueueRetries(HandleInput(s, input, now), now))
    ensures r.0 == CheckAge(cfg, QueueRetries(HandleInput(s, input, now), now), now)
    ensures |r.0.inflight| == |s.inflight|
  {
    hide SameFrames, HandleInput, QueueRetries, CheckAge, AgeTrack, FramesLinked, ValidSender, Epochs.EpochInv;
    var s1 := HandleInput(s, input, now);
    var s2 := QueueRetries(s1, now);
    HandleInputKeepsValid(cfg, s, input, now);
    QueueRetriesKeepsValid(cfg, s1, now);
    InputKeepsFrames(s, input, now);
    QueueKeepsFrames(s1, now);
    SameFramesLinked(cfg, s, s1, t, t);
    SameFramesLinked(cfg, s1, s2, t, t);
    TaggedLengths(s, t);
    TaggedLengths(s2, t);
    AgeLinked(cfg, s2, t, now);
    CheckAgeKeepsValid(cfg, s2, now);
    (CheckAge(cfg, s2, now), AgeTrack(cfg, s2, t, now))
  }

  lemma ListenLinked(cfg: Ctl.Config, s: Sender, t: Track, input: Input, now: u64, wall: nat -> u64)
    requires Linked(cfg, s, t)
    ensures ValidSender(cfg, s)
    ensures var (s3, t3) := ToResolve(cfg, s, t, input, now);
      Linked(cfg, Next(cfg, s, Listen(input, now, wall)),
             Resolved(cfg, s3, t3, now, wall, Settles(cfg, s3, now, wall)).1)
  {
    hide Linked, HandleInput, QueueRetries, CheckAge, Resolve, Limits, Settles, Resolved, SameFrames;
    LinkedValid(cfg, s, t);
    HandleInputKeepsValid(cfg, s, input, now);
    var (s3, t3) := ToResolve(cfg, s, t, input, now);
    ResolveIsResolved(cfg, s3, t3, now, wall);
    var (s4, t4) := Resolved(cfg, s3, t3, now, wall, Settles(cfg, s3, now, wall));
    LimitsLinked(cfg, s4, t4);
    assert Next(cfg, s, Listen(input, now, wall)) == Resolve(cfg, s3, now, wall);
  }

  lemma LimitsLinked(cfg: Ctl.Config, s: Sender, t: Track)
    requires Linked(cfg, s, t)
    ensures Linked(cfg, Limits(s), t)
  {
    LimitsKeepFlight(s);
    assert ValidSender(cfg, Limits(s));
    hide ValidSender, Limits, SameFrames, FramesLinked, Epochs.EpochInv;
    SameFramesLinked(cfg, s, Limits(s), t, t);
  }

  // ----- Every step -----

  ghost function TrackStep(cfg: Ctl.Config, s: Sender, t: Track, step: Step): Track
    requires Linked(cfg, s, t)
  {
    LinkedValid(cfg, s, t);
    match step
    case Capture(_) => CaptureTrack(cfg, s, t)
    case Encoded(bytes, _) => EncodedTrack(s, t, bytes)
    case Start(_, _) =>
      TaggedLengths(s, t);
      StartTrack(s, t)
    case Listen(input, now, wall) =>
      var (s3, t3) := ToResolve(cfg, s, t, input, now);
      Resolved(cfg, s3, t3, now, wall, Settles(cfg, s3, now, wall)).1
    case KeyLoss => Called(cfg, t, Runs.FrameLost(0, 0))
    case KeyClear => Called(cfg, t, Runs.ClearedHistory)
    case KeyDrain => Called(cfg, t, Runs.ForcedDrain)
    case _ => t
  }

  lemma SameFlightFrames(s: Sender, s': Sender)
    requires SameFlight(s.inflight, s'.inflight) && s'.queue == s.queue && s'.capture == s.capture
    ensures SameFrames(s, s')
  {
  }

  lemma PacketsLinked(cfg: Ctl.Config, s: Sender, t: Track, step: Step)
    requires Linked(cfg, s, t) && ValidStep(s, step) && (step.Pace? || step.Retry?)
    ensures ValidSender(cfg, s) && Linked(cfg, Next(cfg, s, step), t)
  {
    NextKeepsValid(cfg, s, step);
    assert s.session != 0 && ValidPacer(s.pacer, s.inflight);
    var s' := Next(cfg, s, step);
    SameFlightRefl(s.inflight);
    if step.Pace? {
      PacerTouches(s, step.now, step.running);
    } else {
      var events := RetryLogs(s, step.now);
    }
    hide PacerStep, RetryOne, ValidSender, SameFlight, FramesLinked, Epochs.EpochInv, SameFrames;
    SameFlightFrames(s, s');
    SameFramesLinked(cfg, s, s', t, t);
  }

  lemma KeysLinked(cfg: Ctl.Config, s: Sender, t: Track, step: Step)
    requires Linked(cfg, s, t) && (step.KeyLoss? || step.KeyClear? || step.KeyDrain?)
    ensures ValidSender(cfg, s) && Linked(cfg, Next(cfg, s, step), TrackStep(cfg, s, t, step))
  {
    KeysKeepValid(cfg, s, step);
    hide ValidSender, FramesLinked, Epochs.EpochInv, SameFrames, Called, Ctl.OnFrameLoss;
    var s', t' := Next(cfg, s, step), TrackStep(cfg, s, t, step);
    SameFlightRefl(s.inflight);
    SameFlightFrames(s, s');
    SameFramesLinked(cfg, s, s', t, t');
  }

  lemma FlagsLinked(cfg: Ctl.Config, s: Sender, t: Track, step: Step)
    requires Linked(cfg, s, t) && (step.KeyQuit? || step.Announce?)
    ensures ValidSender(cfg, s) && Linked(cfg, Next(cfg, s, step), t)
  {
    FlagsKeepValid(cfg, s, step);
    hide ValidSender, FramesLinked, Epochs.EpochInv, SameFrames, StreamInfoPacket;
    var s' := Next(cfg, s, step);
    SameFlightRefl(s.inflight);
    SameFlightFrames(s, s');
    SameFramesLinked(cfg, s, s', t, t);
  }

  lemma StepLinked(cfg: Ctl.Config, s: Sender, t: Track, step: Step)
    requires Linked(cfg, s, t) && ValidSender(cfg, s) && ValidStep(s, step)
    ensures Linked(cfg, Next(cfg, s, step), TrackStep(cfg, s, t, step))
  {
    hide Linked, ValidSender;
    match step
    case Capture(capturedAt) =>
      hide CaptureFrame, CaptureTrack;
      CaptureLinked(cfg, s, t, capturedAt);
    case Encoded(bytes, keyframe) =>
      hide PushFrame, EncodedTrack;
      EncodedLinked(cfg, s, t, bytes, keyframe);
    case Start(started, firstSent) =>
      hide StartFrame, StartTrack;
      StartLinked(cfg, s, t, started, firstSent);
    case Listen(input, now, wall) =>
      hide HandleInput, Timers, ToResolve, Resolved;
      ListenLinked(cfg, s, t, input, now, wall);
    case Pace(_, _) =>
      hide Next;
      PacketsLinked(cfg, s, t, step);
    case Retry(_) =>
      hide Next;
      PacketsLinked(cfg, s, t, step);
    case KeyQuit =>
      hide Next;
      FlagsLinked(cfg, s, t, step);
    case Announce(_, _) =>
      hide Next;
      FlagsLinked(cfg, s, t, step);
    case _ =>
      hide Next, TrackStep;
      KeysLinked(cfg, s, t, step);
  }

  // ----- Over runs -----

  /** The encodings behind state n of a run. */
  ghost function TrackAt(cfg: Ctl.Config, session: u64, steps: seq<Step>, states: seq<Sender>, n: nat): (t: Track)
    requires Ctl.ValidConfig(cfg) && IsRun(cfg, session, steps, states) && n <= |steps|
    ensures |states| == |steps| + 1 && Linked(cfg, states[n], t)
    decreases n
  {
    hide IsRun, Linked, Next, ValidSender, ValidStep, TrackStep;
    RunStart(cfg, session, steps, states);
    if n == 0 then
      BeginLinked(cfg, session);
      Begin(cfg)
    else
      RunStep(cfg, session, steps, states, n - 1);
      var t := TrackAt(cfg, session, steps, states, n - 1);
      StepLinked(cfg, states[n - 1], t, steps[n - 1]);
      TrackStep(cfg, states[n - 1], t, steps[n - 1])
  }

  /** The sender and its encodings when resolve, in listener step n, has settled k frames. */
  ghost function AtSample(cfg: Ctl.Config, session: u64, steps: seq<Step>, states: seq<Sender>, n: nat, k: nat)
    : (r: (Sender, Track))
    requires Ctl.ValidConfig(cfg) && IsRun(cfg, session, steps, states) && n < |steps| && steps[n].Listen?
    requires |states| == |steps| + 1 && k <= |states[n].inflight|
    ensures Linked(cfg, r.0, r.1)
  {
    hide IsRun, Linked, HandleInput, QueueRetries, CheckAge, TrackAt;
    var step := steps[n];
    var (s, t) := ToResolve(cfg, states[n], TrackAt(cfg, session, steps, states, n), step.input, step.now);
    Resolved(cfg, s, t, step.now, step.wall, k)
  }

  lemma {:induction false} ResolvedNext(cfg: Ctl.Config, s: Sender, t: Track, now: u64, wall: nat -> u64, k: nat)
    requires Linked(cfg, s, t) && k < |s.inflight|
    ensures var (s', t') := Resolved(cfg, s, t, now, wall, k);
      Resolved(cfg, s, t, now, wall, k + 1) == (SettleFirst(cfg, s', now, wall), SettleTrack(cfg, s', t', now, wall))
    decreases k
  {
    hide Linked, SettleTrack, SettleFirst;
    LinkedValid(cfg, s, t);
    SettleLinked(cfg, s, t, now, wall);
    if k > 0 {
      ResolvedNext(cfg, SettleFirst(cfg, s, now, wall), SettleTrack(cfg, s, t, now, wall), now, wall, k - 1);
    }
  }

  /** The listener step ends with what resolve leaves after the last frame it settles. */
  lemma StepEndsResolved(cfg: Ctl.Config, session: u64, steps: seq<Step>, states: seq<Sender>, n: nat) returns (k: nat)
    requires Ctl.ValidConfig(cfg) && IsRun(cfg, session, steps, states) && n < |steps| && steps[n].Listen?
    ensures |states| == |steps| + 1 && k <= |states[n].inflight|
    ensures states[n + 1] == Limits(AtSample(cfg, session, steps, states, n, k).0)
  {
    hide IsRun, Linked, HandleInput, QueueRetries, CheckAge, TrackAt, Resolved, Settles, Resolve, ToResolve, Limits;
    RunStep(cfg, session, steps, states, n);
    var step := steps[n];
    var (s, t) := ToResolve(cfg, states[n], TrackAt(cfg, session, steps, states, n), step.input, step.now);
    ResolveIsResolved(cfg, s, t, step.now, step.wall);
    k := Settles(cfg, s, step.now, step.wall);
  }

  lemma {:induction false} ResolvedKeepsLog(cfg: Ctl.Config, s: Sender, t: Track, now: u64, wall: nat -> u64, k: nat)
    requires Linked(cfg, s, t) && k <= |s.inflight| && SenderLog.LogInv(s)
    ensures SenderLog.LogInv(Resolved(cfg, s, t, now, wall, k).0)
    decreases k
  {
    hide Linked, SettleTrack, SettleFirst, SenderLog.LogInv;
    LinkedValid(cfg, s, t);
    if k > 0 {
      SettleLinked(cfg, s, t, now, wall);
      SenderLog.SettleFirstKeeps(cfg, s, now, wall);
      ResolvedKeepsLog(cfg, SettleFirst(cfg, s, now, wall), SettleTrack(cfg, s, t, now, wall), now, wall, k - 1);
    }
  }

  lemma ToResolveKeepsLog(cfg: Ctl.Config, s: Sender, t: Track, input: Input, now: u64)
    requires Linked(cfg, s, t) && SenderLog.LogInv(s)
    ensures SenderLog.LogInv(ToResolve(cfg, s, t, input, now).0)
  {
    hide Linked, HandleInput, QueueRetries, CheckAge, SenderLog.LogInv;
    LinkedValid(cfg, s, t);
    HandleInputKeepsValid(cfg, s, input, now);
    var s1 := HandleInput(s, input, now);
    QueueRetriesKeepsValid(cfg, s1, now);
    SenderLog.HandleInputKeeps(cfg, s, input, now);
    SenderLog.QueueRetriesKeeps(s1, now);
    SenderLog.CheckAgeKeeps(cfg, QueueRetries(s1, now), now);
  }

  lemma SampleIsFresh(cfg: Ctl.Config, session: u64, steps: seq<Step>, states: seq<Sender>, n: nat, k: nat)
    requires Ctl.ValidConfig(cfg) && IsRun(cfg, session, steps, states) && n < |steps| && steps[n].Listen?
    requires |states| == |steps| + 1 && k < |states[n].inflight|
    ensures var s := AtSample(cfg, session, steps, states, n, k).0;
      s.inflight != [] && s.inflight[0].id > s.ctl.lastSampleId
  {
    hide IsRun, Linked, ToResolve, Resolved, SenderLog.LogInv, TrackAt;
    var t, step := TrackAt(cfg, session, steps, states, n), steps[n];
    SenderLog.RunKeepsLogInv(cfg, session, steps, states, n);
    ToResolveKeepsLog(cfg, states[n], t, step.input, step.now);
    var (s3, t3) := ToResolve(cfg, states[n], t, step.input, step.now);
    ResolvedKeepsLog(cfg, s3, t3, step.now, step.wall, k);
    SenderLog.FrontUnsampled(AtSample(cfg, session, steps, states, n, k).0);
  }

  /** The front frame gives an uncongested sample, outside a drain. */
  ghost predicate Uncongested(s: Sender, now: u64, wall: nat -> u64) {
    && s.inflight != [] && ValidFrame(s.inflight[0]) && Sampled(s) && s.ctl.state != Ctl.Draining
    && Ctl.FrameBur(FrontSample(s, now, wall)) <= 1.0
  }

  /** The sample of the front frame, encoding t.flying[0], took the controller to after, by the rule. */
  ghost predicate FollowedRule(cfg: Ctl.Config, s: Sender, t: Track, after: Ctl.Ctl, now: u64, wall: nat -> u64) {
    && s.inflight != [] && ValidFrame(s.inflight[0]) && s.fb.minOwd.Some? && t.flying != []
    && Ctl.ValidConfig(cfg) && Runs.CtlInv(cfg, t.cap.c)
    && var sample := Epochs.SampleOf(t.flying[0], FrontSample(s, now, wall));
       && Epochs.Enabled(t.cap, sample) && after == Epochs.Next(cfg, t.cap, sample).c
       && Epochs.SampleRule(cfg, t.cap, t.flying[0], sample.fa)
  }

  /** In every run of the sender, when a listener step samples a delivered frame without congestion and outside a
      drain, the rate steps with next_bitrate exactly if that frame was encoded after the rate decision before it. */
  lemma SamplesWaitForFeedback(cfg: Ctl.Config, session: u64, steps: seq<Step>, states: seq<Sender>, n: nat, k: nat)
    requires Ctl.ValidConfig(cfg) && IsRun(cfg, session, steps, states) && n < |steps| && steps[n].Listen?
    requires |states| == |steps| + 1 && k < |states[n].inflight|
    requires Uncongested(AtSample(cfg, session, steps, states, n, k).0, steps[n].now, steps[n].wall)
    ensures var (s, t) := AtSample(cfg, session, steps, states, n, k);
      var after := AtSample(cfg, session, steps, states, n, k + 1).0.ctl;
      Linked(cfg, s, t) && FollowedRule(cfg, s, t, after, steps[n].now, steps[n].wall)
  {
    hide IsRun, ToResolve, Resolved, TrackAt, MakeAck, Ctl.FrameBur, FramesLinked, Epochs.EpochInv, Epochs.SampleRule,
      ValidSender, Epochs.Next;
    var step := steps[n];
    var (s, t) := AtSample(cfg, session, steps, states, n, k);
    SampleIsFresh(cfg, session, steps, states, n, k);
    SampleEnabled(cfg, s, t, step.now, step.wall);
    FrontSampleId(s, step.now, step.wall);
    Epochs.SampleFollowsRule(cfg, t.cap, t.flying[0], FrontSample(s, step.now, step.wall));
    var (s3, t3) := ToResolve(cfg, states[n], TrackAt(cfg, session, steps, states, n), step.input, step.now);
    ResolvedNext(cfg, s3, t3, step.now, step.wall, k);
    SettleCalls(cfg, s, t, step.now, step.wall);
  }

  lemma FrontSampleId(s: Sender, now: u64, wall: nat -> u64)
    requires s.inflight != [] && ValidFrame(s.inflight[0]) && s.fb.minOwd.Some?
    ensures FrontSample(s, now, wall).fid == s.inflight[0].id
  {
    MakeAckValid(s, s.inflight[0], s.fb.minOwd.value, now, wall(s.inflight[0].id));
    hide MakeAck;
  }
}
