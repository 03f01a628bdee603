/** From the encoder to the decoder: frames are sent in the order in which they were encoded, none changed or left
    out. */
module SenderOrder {
  import opened Bytes
  import opened Reassembly
  import opened Packetizer
  import Ctl = Controller
  import Runs = ControllerRuns
  import opened Sender
  import opened SenderRuns
  import opened SenderWire
  import EndToEnd
  import Receiver
  import ReceiverPlayout

  /** The step hands over the encoder's output: it was asked for, and is a legal frame. */
  ghost predicate Encodes(s: Sender, step: Step) {
    step.Encoded? && s.capture.Encoding? && LegalFrame(step.bytes)
  }

  /** The frames that the encoder handed over in the first n steps. */
  ghost function EncodedFrames(steps: seq<Step>, states: seq<Sender>, n: nat): seq<EncodedFrame>
    requires n <= |steps| && n <= |states|
    decreases n
  {
    if n == 0 then []
    else
      var s, step, before := states[n - 1], steps[n - 1], EncodedFrames(steps, states, n - 1);
      if Encodes(s, step)
      then before + [EncodedFrame(step.bytes, s.capture.target, step.keyframe, s.capture.epoch, s.capture.capturedAt)]
      else before
  }

  /** Frame id is the one encoded in that place. */
  ghost predicate InPlace(sent: Sent, all: seq<EncodedFrame>, id: u32) {
    id in sent ==>
      && 1 <= id <= |all| && sent[id].bytes == all[id - 1].bytes && sent[id].keyframe == all[id - 1].keyframe
  }

  /** Frames get their ids in the order in which they were encoded, and the queue holds the rest. */
  ghost predicate OrderInv(s: Sender, all: seq<EncodedFrame>, sent: Sent) {
    && (forall id: u32 :: InPlace(sent, all, id))
    && 1 <= s.nextId && (s.nextId < UINT32_MAX ==> s.nextId - 1 <= |all| && s.queue == all[s.nextId - 1..])
  }

  // ----- The queue -----

  lemma SettleKeepsQueue(cfg: Ctl.Config, s: Sender, now: u64, wall: nat -> u64)
    requires ValidSender(cfg, s)
    ensures Resolve(cfg, s, now, wall).queue == s.queue && Resolve(cfg, s, now, wall).nextId == s.nextId
    decreases |s.inflight|
  {
    hide ValidSender, SettleFirst, Settled, PendingRetries;
    if s.inflight != [] && Settled(s.inflight[0], s.fb, now) {
      SettleKeepsQueue(cfg, SettleFirst(cfg, s, now, wall), now, wall);
    }
  }

  lemma InputKeepsEncoded(s: Sender, input: Input, now: u64)
    ensures var s' := HandleInput(s, input, now); s'.queue == s.queue && s'.nextId == s.nextId
  {
    hide Acknowledge, ObserveTimes, ObserveWire, UsableAck, Find;
  }

  lemma ListenKeepsEncoded(cfg: Ctl.Config, s: Sender, step: Step)
    requires ValidSender(cfg, s) && step.Listen?
    ensures var s' := Next(cfg, s, step); s'.queue == s.queue && s'.nextId == s.nextId
  {
    hide ValidSender, HandleInput, CheckAge, Resolve, MarkAll, AllDue, RetransmissionLost;
    var s1 := HandleInput(s, step.input, step.now);
    HandleInputKeepsValid(cfg, s, step.input, step.now);
    InputKeepsEncoded(s, step.input, step.now);
    QueueRetriesKeepsValid(cfg, s1, step.now);
    var s2 := QueueRetries(s1, step.now);
    CheckAgeKeepsValid(cfg, s2, step.now);
    SettleKeepsQueue(cfg, CheckAge(cfg, s2, step.now), step.now, step.wall);
  }

  lemma OthersKeepEncoded(cfg: Ctl.Config, s: Sender, step: Step)
    requires ValidSender(cfg, s) && !step.Start? && !step.Encoded? && !step.Listen?
    ensures var s' := Next(cfg, s, step); s'.queue == s.queue && s'.nextId == s.nextId
  {
    hide Runs.CtlInv, ValidFrame, IdsRise, ValidPacer, Backlogged, StreamInfoPacket, PacerStep, RetryOne,
      Ctl.OnFrameLoss, Ctl.ForceDrain, Ctl.TakeEncodingBitrate;
    match step
    case Pace(now, running) => PacerTouches(s, now, running);
    case Retry(now) => var events := RetryLogs(s, now);
    case _ =>
  }

  lemma EncodedKeepsOrder(cfg: Ctl.Config, s: Sender, step: Step, all: seq<EncodedFrame>, sent: Sent)
    requires ValidSender(cfg, s) && OrderInv(s, all, sent) && step.Encoded?
    ensures var e := if Encodes(s, step)
        then [EncodedFrame(step.bytes, s.capture.target, step.keyframe, s.capture.epoch, s.capture.capturedAt)] else [];
      OrderInv(Next(cfg, s, step), all + e, sent)
  {
    hide Runs.CtlInv, ValidFrame, IdsRise, ValidPacer;
    var e := if Encodes(s, step)
      then [EncodedFrame(step.bytes, s.capture.target, step.keyframe, s.capture.epoch, s.capture.capturedAt)] else [];
    forall id: u32
      ensures InPlace(sent, all + e, id)
    {
      assert InPlace(sent, all, id);
    }
    assert Next(cfg, s, step).queue == s.queue + e;
    assert s.nextId < UINT32_MAX ==> (all + e)[s.nextId - 1..] == all[s.nextId - 1..] + e;
  }

  lemma StartKeepsOrder(cfg: Ctl.Config, s: Sender, step: Step, all: seq<EncodedFrame>, sent: Sent)
    requires ValidSender(cfg, s) && OrderInv(s, all, sent) && step.Start?
    ensures OrderInv(Next(cfg, s, step), all, Started(sent, s, step))
  {
    hide Runs.CtlInv, ValidFrame, IdsRise, ValidPacer, ProbeGap;
    var sent' := Started(sent, s, step);
    if s.pacer.PacerIdle? && s.queue != [] && s.nextId < UINT32_MAX {
      assert s.queue[0] == all[s.nextId - 1];
      forall id: u32
        ensures InPlace(sent', all, id)
      {
        assert InPlace(sent, all, id);
      }
    }
  }

  lemma NextKeepsOrder(cfg: Ctl.Config, s: Sender, step: Step, all: seq<EncodedFrame>, sent: Sent)
    requires ValidSender(cfg, s) && OrderInv(s, all, sent)
    ensures var e := if Encodes(s, step)
        then [EncodedFrame(step.bytes, s.capture.target, step.keyframe, s.capture.epoch, s.capture.capturedAt)] else [];
      OrderInv(Next(cfg, s, step), all + e, Started(sent, s, step))
  {
    hide OrderInv, Next, Runs.CtlInv, ValidFrame, IdsRise, ValidPacer;
    assert all + [] == all;
    if step.Start? {
      StartKeepsOrder(cfg, s, step, all, sent);
    } else if step.Encoded? {
      EncodedKeepsOrder(cfg, s, step, all, sent);
    } else {
      if step.Listen? {
        ListenKeepsEncoded(cfg, s, step);
      } else {
        OthersKeepEncoded(cfg, s, step);
      }
      SameOrder(s, Next(cfg, s, step), all, sent);
    }
  }

  lemma SameOrder(s: Sender, s': Sender, all: seq<EncodedFrame>, sent: Sent)
    requires OrderInv(s, all, sent) && s'.queue == s.queue && s'.nextId == s.nextId
    ensures OrderInv(s', all, sent)
  {
  }

  lemma NothingEncoded(cfg: Ctl.Config, session: u64)
    requires Ctl.ValidConfig(cfg)
    ensures OrderInv(Init(cfg, session), [], map[])
  {
  }

  /** In every run, frame number i on the wire is the i-th frame that the encoder handed over, and those not sent yet
      wait in the queue, in order. */
  lemma {:induction false} FramesAreSentInOrder(cfg: Ctl.Config, session: u64, steps: seq<Step>, states: seq<Sender>,
                                                n: nat)
    requires Ctl.ValidConfig(cfg) && IsRun(cfg, session, steps, states) && n <= |steps| < |states|
    ensures forall i :: 0 <= i < |steps| ==> states[i].pacing >= Ctl.GAMMA_P
    ensures OrderInv(states[n], EncodedFrames(steps, states, n), SentUpTo(steps, states, n))
    decreases n
  {
    hide IsRun, OrderInv, Next, ValidSender, ValidStep, Started;
    RunPacing(cfg, session, steps, states);
    RunStart(cfg, session, steps, states);
    if n == 0 {
      NothingEncoded(cfg, session);
    } else {
      FramesAreSentInOrder(cfg, session, steps, states, n - 1);
      RunStep(cfg, session, steps, states, n - 1);
      var all := EncodedFrames(steps, states, n - 1);
      NextKeepsOrder(cfg, states[n - 1], steps[n - 1], all, SentUpTo(steps, states, n - 1));
      assert all + [] == all;
    }
  }

  /** For any run of the sender, any run of the receiver and any network that invents no datagrams in the session:
      frame i of the session reaches the decoder, if it does, as the i-th frame that the encoder handed over. */
  lemma DecodedIsEncoded(cfg: Ctl.Config, session: u64, steps: seq<Step>, states: seq<Sender>, headless: bool,
                         rxSteps: seq<ReceiverPlayout.Step>, rxStates: seq<Receiver.Receiver>, n: nat, k: nat)
    requires Ctl.ValidConfig(cfg) && IsRun(cfg, session, steps, states) && |states| == |steps| + 1
    requires ReceiverPlayout.IsRun(headless, rxSteps, rxStates) && n < |rxStates|
    requires forall i :: 0 <= i < |rxSteps| ==> EndToEnd.Delivers(states[|steps|].wire, session, rxSteps[i].input)
    requires k < |rxStates[n].trace| && rxStates[n].trace[k].Decode? && rxStates[n].trace[k].session == session
    ensures var d, all := rxStates[n].trace[k], EncodedFrames(steps, states, |steps|);
      1 <= d.id <= |all| && d.bytes == all[d.id - 1].bytes && d.keyframe == all[d.id - 1].keyframe
  {
    hide IsRun, ReceiverPlayout.IsRun, EndToEnd.Delivers, EndToEnd.ReportsAreTrue, SentUpTo, EncodedFrames,
      EndToEnd.Inputs;
    EndToEnd.FramesArriveIntact(cfg, session, steps, states, headless, rxSteps, rxStates, n);
    FramesAreSentInOrder(cfg, session, steps, states, |steps|);
    var d := rxStates[n].trace[k];
    assert d in rxStates[n].trace;
    assert InPlace(SentUpTo(steps, states, |steps|), EncodedFrames(steps, states, |steps|), d.id);
  }
}
