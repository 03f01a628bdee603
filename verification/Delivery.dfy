/** The loop closed: what the sender takes for delivered has reached the receiver. */
module Delivery {
  import opened Bytes
  import opened Protocol
  import Ctl = Controller
  import Runs = ControllerRuns
  import opened Sender
  import opened SenderRuns
  import opened SenderRetries
  import opened SenderWire
  import opened EndToEnd
  import opened Reassembly
  import opened Packetizer
  import Receiver
  import ReceiverPlayout
  import ReceiverAnswers
  import opened SenderHistory

  ghost predicate DeliveredIn(inflight: seq<SentFrame>, id: u32) {
    exists i :: 0 <= i < |inflight| && inflight[i].id == id && inflight[i].delivered
  }

  /** The step handles an ACK that reports frame id complete. */
  ghost predicate CompletesFrame(step: Step, id: u32) {
    step.Listen? && step.input.Ack? && step.input.a.frameId == id && step.input.a.flags & FRAME_COMPLETE != 0
  }

  lemma SameFlightDelivers(a: seq<SentFrame>, b: seq<SentFrame>)
    requires SameFlight(a, b)
    ensures forall id :: DeliveredIn(b, id) ==> DeliveredIn(a, id)
  {
    forall id | DeliveredIn(b, id)
      ensures DeliveredIn(a, id)
    {
      var i :| 0 <= i < |b| && b[i].id == id && b[i].delivered;
      assert a[i].id == id && a[i].delivered;
    }
  }

  lemma AcknowledgeDelivers(f: SentFrame, a: RecvAck)
    ensures var f' := Acknowledge(f, a);
      f'.id == f.id && (f'.delivered ==> f.delivered || a.flags & FRAME_COMPLETE != 0)
  {
  }

  lemma HandleInputDelivers(s: Sender, step: Step)
    requires step.Listen?
    ensures forall id :: DeliveredIn(HandleInput(s, step.input, step.now).inflight, id) ==>
              DeliveredIn(s.inflight, id) || CompletesFrame(step, id)
  {
    hide Acknowledge, ObserveTimes, ObserveWire, UsableAck, Find;
    var s' := HandleInput(s, step.input, step.now);
    if step.input.Ack? {
      var a := step.input.a;
      var i := Find(s.inflight, a.frameId);
      if i.Some? {
        AcknowledgeDelivers(s.inflight[i.value], a);
        forall id | DeliveredIn(s'.inflight, id)
          ensures DeliveredIn(s.inflight, id) || CompletesFrame(step, id)
        {
          var k :| 0 <= k < |s'.inflight| && s'.inflight[k].id == id && s'.inflight[k].delivered;
          if k != i.value {
            assert s.inflight[k] == s'.inflight[k];
          }
        }
      }
    }
  }

  lemma MarksDeliver(s: Sender, now: u64)
    ensures SameFlight(s.inflight, QueueRetries(s, now).inflight)
  {
    hide DueIn, AllDue, RetransmissionLost;
  }

  lemma TimersDeliver(cfg: Ctl.Config, s: Sender, now: u64, wall: nat -> u64)
    requires ValidSender(cfg, s) && QueueInv(s)
    ensures forall id :: DeliveredIn(Timers(cfg, s, now, wall).inflight, id) ==> DeliveredIn(s.inflight, id)
  {
    hide ValidSender, QueueRetries, CheckAge, Resolve, RetryInv, SameFlight, DeliveredIn;
    QueueRetriesKeepsValid(cfg, s, now);
    QueueRetriesKeepsQueue(cfg, s, now);
    MarksDeliver(s, now);
    var s1 := QueueRetries(s, now);
    SameFlightDelivers(s.inflight, s1.inflight);
    CheckAgeKeepsValid(cfg, s1, now);
    var s2 := CheckAge(cfg, s1, now);
    ResolveKeepsQueue(cfg, s2, now, wall);
    var k: nat :| k <= |s2.inflight| && Resolve(cfg, s2, now, wall).inflight == s2.inflight[k..];
    DropDelivers(s2.inflight, k);
  }

  lemma DropDelivers(inflight: seq<SentFrame>, k: nat)
    requires k <= |inflight|
    ensures forall id :: DeliveredIn(inflight[k..], id) ==> DeliveredIn(inflight, id)
  {
    var rest := inflight[k..];
    forall id | DeliveredIn(rest, id)
      ensures DeliveredIn(inflight, id)
    {
      var i :| 0 <= i < |rest| && rest[i].id == id && rest[i].delivered;
      assert inflight[k + i] == rest[i];
    }
  }

  lemma StartDelivers(s: Sender, started: u64, firstSent: u64)
    requires s.pacing >= Ctl.GAMMA_P
    ensures forall id :: DeliveredIn(StartFrame(s, started, firstSent).inflight, id) ==> DeliveredIn(s.inflight, id)
  {
    hide ProbeGap;
    var s' := StartFrame(s, started, firstSent);
    forall id | DeliveredIn(s'.inflight, id)
      ensures DeliveredIn(s.inflight, id)
    {
      var i :| 0 <= i < |s'.inflight| && s'.inflight[i].id == id && s'.inflight[i].delivered;
      assert i < |s.inflight| && s.inflight[i] == s'.inflight[i];
    }
  }

  /** Only an ACK that reports it complete makes a frame delivered. */
  lemma NextDelivers(cfg: Ctl.Config, s: Sender, step: Step)
    requires ValidSender(cfg, s) && ValidStep(s, step) && QueueInv(s)
    ensures forall id :: DeliveredIn(Next(cfg, s, step).inflight, id) ==>
              DeliveredIn(s.inflight, id) || CompletesFrame(step, id)
  {
    hide DeliveredIn, CompletesFrame, QueueInv, IdsRise, ValidFrame, ValidPacer, Runs.CtlInv, SameFlight;
    match step
    case Start(started, firstSent) =>
      hide StartFrame;
      StartDelivers(s, started, firstSent);
    case Pace(now, running) =>
      hide PacerStep;
      PacerTouches(s, now, running);
      SameFlightDelivers(s.inflight, PacerStep(s, now, running).inflight);
    case Retry(now) =>
      hide RetryOne;
      var events := RetryLogs(s, now);
      SameFlightDelivers(s.inflight, RetryOne(s, now).inflight);
    case Listen(input, now, wall) =>
      hide HandleInput, Timers, ValidSender;
      HandleInputKeepsValid(cfg, s, input, now);
      QueueOfInput(s, input, now);
      HandleInputDelivers(s, step);
      TimersDeliver(cfg, HandleInput(s, input, now), now, wall);
    case _ =>
      hide Next, ValidSender;
      OtherStepsKeepPackets(cfg, s, step);
  }

  lemma QueueOfInput(s: Sender, input: Input, now: u64)
    requires QueueInv(s)
    ensures QueueInv(HandleInput(s, input, now))
  {
    HandleInputKeepsQueue(s, input, now);
  }

  /** One of the first n steps handled an ACK that reports frame id complete. */
  ghost predicate Reported(steps: seq<Step>, n: nat, id: u32)
    requires n <= |steps|
  {
    exists k :: 0 <= k < n && CompletesFrame(steps[k], id)
  }

  lemma {:induction false} DeliveredWasReported(cfg: Ctl.Config, session: u64, steps: seq<Step>, states: seq<Sender>,
                                                n: nat)
    requires Ctl.ValidConfig(cfg) && IsRun(cfg, session, steps, states) && n <= |steps|
    ensures forall id :: DeliveredIn(states[n].inflight, id) ==> Reported(steps, n, id)
    decreases n
  {
    hide IsRun, DeliveredIn, Reported, Next, ValidSender, ValidStep, SendInv;
    RunStart(cfg, session, steps, states);
    if n == 0 {
      NothingInFlight(cfg, session);
    } else {
      DeliveredWasReported(cfg, session, steps, states, n - 1);
      RunKeepsSendInv(cfg, session, steps, states, n - 1);
      RunStep(cfg, session, steps, states, n - 1);
      QueueOfSends(states[n - 1]);
      NextDelivers(cfg, states[n - 1], steps[n - 1]);
      forall id | DeliveredIn(states[n].inflight, id)
        ensures Reported(steps, n, id)
      {
        ReportedNext(steps, n - 1, id);
      }
    }
  }

  lemma NothingInFlight(cfg: Ctl.Config, session: u64)
    requires Ctl.ValidConfig(cfg)
    ensures forall id :: !DeliveredIn(Init(cfg, session).inflight, id)
  {
  }

  lemma ReportedNext(steps: seq<Step>, n: nat, id: u32)
    requires n < |steps|
    ensures Reported(steps, n, id) || CompletesFrame(steps[n], id) ==> Reported(steps, n + 1, id)
  {
    hide CompletesFrame;
    if Reported(steps, n, id) {
      var k :| 0 <= k < n && CompletesFrame(steps[k], id);
    }
  }

  /** The network delivers to the sender only ACKs that the receiver built. */
  ghost predicate FromReceiver(step: Step, acks: seq<RecvAck>) {
    step.Listen? && step.input.Ack? ==> step.input.a in acks
  }

  lemma StepSession(cfg: Ctl.Config, session: u64, steps: seq<Step>, states: seq<Sender>, k: nat)
    requires Ctl.ValidConfig(cfg) && IsRun(cfg, session, steps, states) && k < |steps|
    ensures steps[k].Listen? && steps[k].input.Ack? ==> steps[k].input.a.session == session
  {
    hide IsRun, ValidSender, Next, SentUpTo, SentFrames, Flying, PacerHolds, WireHolds, AckAccepted;
    RunStep(cfg, session, steps, states, k);
    RunIsGenuine(cfg, session, steps, states, k);
  }

  /** For any run of the sender, any run of the receiver and any network that invents no datagrams in the session:
      whatever frame the sender takes for delivered, in any state, has reached the receiver: each of its data packets
      came in, or its group's parity and other packets did. */
  lemma DeliveredFramesArrived(cfg: Ctl.Config, session: u64, steps: seq<Step>, states: seq<Sender>, headless: bool,
                               rxSteps: seq<ReceiverPlayout.Step>, rxStates: seq<Receiver.Receiver>, k: nat, i: nat)
    requires Ctl.ValidConfig(cfg) && IsRun(cfg, session, steps, states)
    requires ReceiverPlayout.IsRun(headless, rxSteps, rxStates)
    requires |states| == |steps| + 1 && |rxStates| == |rxSteps| + 1
    requires forall j :: 0 <= j < |rxSteps| ==> Delivers(states[|steps|].wire, session, rxSteps[j].input)
    requires forall j :: 0 <= j < |steps| ==> FromReceiver(steps[j], rxStates[|rxSteps|].acks)
    requires k < |states| && i < |states[k].inflight| && states[k].inflight[i].delivered
    ensures var f := states[k].inflight[i];
      AllDeliverable(Tx(session, f), ArrivedIn(Inputs(rxSteps, |rxSteps|), session, f.id))
  {
    hide AllDeliverable, ArrivedIn, SentUpTo, Delivers, IsRun, ReceiverPlayout.IsRun, GenuineInv, ReportsAreTrue,
      DecodesAreSent, CompletesFrame, Inputs;
    var f, n := states[k].inflight[i], |steps|;
    FramesArriveIntact(cfg, session, steps, states, headless, rxSteps, rxStates, |rxSteps|);
    RunIsGenuine(cfg, session, steps, states, k);
    SentGrows(cfg, session, steps, states, k, n);
    DeliveredWasReported(cfg, session, steps, states, k);
    assert DeliveredIn(states[k].inflight, f.id);
    var j :| 0 <= j < k && CompletesFrame(steps[j], f.id);
    StepSession(cfg, session, steps, states, j);
    assert FromReceiver(steps[j], rxStates[|rxSteps|].acks);
    ReportedArrived(steps[j], f.id, rxStates[|rxSteps|].acks,
                    Exchange(SentUpTo(steps, states, n), session, Inputs(rxSteps, |rxSteps|)));
    SentOfFlight(SentUpTo(steps, states, k), session, states[k], i);
  }

  lemma ReportedArrived(step: Step, id: u32, acks: seq<RecvAck>, x: Exchange)
    requires CompletesFrame(step, id) && FromReceiver(step, acks)
    requires step.Listen? && step.input.Ack? ==> step.input.a.session == x.session
    requires ReportsAreTrue(acks, x)
    ensures id in x.sent && AllDeliverable(x.sent[id], ArrivedIn(x.inputs, x.session, id))
  {
    hide AllDeliverable, ArrivedIn;
  }

  lemma SentOfFlight(sent: Sent, session: u64, s: Sender, i: nat)
    requires GenuineInv(sent, session, s) && i < |s.inflight|
    ensures s.inflight[i].id in sent && sent[s.inflight[i].id] == Tx(session, s.inflight[i])
  {
  }

  // ----- Acknowledged packets -----

  /** Packet pid of the frame came in, or its group's parity and other packets did. */
  ghost predicate PacketDeliverable(tx: TxFrame, arrived: set<Arrival>, pid: nat) {
    |tx.bytes| < TWO32 && Deliverable(arrived, PacketCount(|tx.bytes|), pid)
  }

  /** An ACK of the session that is for a packet. */
  predicate ReportsPacket(a: RecvAck, session: u64) {
    a.session == session && a.flags != KEY_REQUEST && a.flags & PROBE == 0
  }

  lemma {:induction false} ArrivedGrows(rxSteps: seq<ReceiverPlayout.Step>, i: nat, n: nat, session: u64, id: u32)
    requires i <= n <= |rxSteps|
    ensures ArrivedIn(Inputs(rxSteps, i), session, id) <= ArrivedIn(Inputs(rxSteps, n), session, id)
    decreases n
  {
    hide ArrivedIn;
    if i < n {
      ArrivedGrows(rxSteps, i, n - 1, session, id);
      ArrivedLast(Inputs(rxSteps, n), session, id);
      assert Inputs(rxSteps, n)[..n - 1] == Inputs(rxSteps, n - 1);
    }
  }

  lemma PacketDeliverableGrows(tx: TxFrame, arrived: set<Arrival>, more: set<Arrival>, pid: nat)
    requires PacketDeliverable(tx, arrived, pid) && arrived <= more
    ensures PacketDeliverable(tx, more, pid)
  {
  }

  /** A packet that the receiver holds of a frame that was sent is deliverable. */
  lemma HeldIsDeliverable(e: Receiver.Entry, x: Exchange, pid: nat)
    requires EntryIsSent(e, x) && pid < |e.frame.payloads| && e.frame.payloads[pid] != []
    ensures PacketDeliverable(x.sent[e.id], ArrivedIn(x.inputs, x.session, e.id), pid)
  {
    hide ArrivedIn;
    var tx := x.sent[e.id];
    var arrived :| Rebuilding(e.frame, tx, arrived) && arrived <= ArrivedIn(x.inputs, x.session, e.id);
    RebuiltIsDeliverable(e.frame, tx, arrived, pid);
    PacketDeliverableGrows(tx, arrived, ArrivedIn(x.inputs, x.session, e.id), pid);
  }

  lemma RebuiltIsDeliverable(f: RxFrame, tx: TxFrame, arrived: set<Arrival>, pid: nat)
    requires Rebuilding(f, tx, arrived) && pid < |f.payloads| && f.payloads[pid] != []
    ensures PacketDeliverable(tx, arrived, pid)
  {
    var cs := Chunks(tx.bytes);
    assert GroupInv(f, pid / FEC_K, arrived, cs) && InGroup(pid, pid / FEC_K, |cs|);
  }

  /** The answer to a data packet. */
  lemma AnswerIsDeliverable(a: RecvAck, d: Datagram, now: u64, x: Exchange)
    requires ReportsPacket(a, x.session) && ReceiverAnswers.IsAnswer(a, d, now) && FromSession(d, x.sent, x.session)
    requires JustCame(d, x)
    ensures a.frameId in x.sent
    ensures PacketDeliverable(x.sent[a.frameId], ArrivedIn(x.inputs, x.session, a.frameId), a.packetId)
  {
    hide ArrivedIn, Genuine, FromSent, Parse;
    NotStreamInfo(d, x.sent, x.session);
    ArrivedLast(x.inputs, x.session, d.h.frameId);
    ProbeFlag(d.h.flags);
    assert ArrivalsOf(d) == {DataArrives(d.h.packetId)};
    GenuineLegal(x.sent[d.h.frameId], d);
  }

  lemma ProbeFlag(flags: byte)
    ensures (flags | FRAME_COMPLETE) & PROBE == flags & PROBE
  {
  }

  lemma GenuineLegal(tx: TxFrame, d: Datagram)
    requires Genuine(tx, d)
    ensures |tx.bytes| < TWO32
  {
  }

  /** An ACK for a packet is for one that came in, or that was rebuilt from what did. */
  lemma ReportedPacketArrived(a: RecvAck, taken: Receiver.Receiver, input: Receiver.Input, now: u64, x: Exchange)
    requires ReportsPacket(a, x.session) && ReceiverAnswers.Explained(a, taken, input, now) && IntactInv(taken, x)
    requires x.inputs != [] && x.inputs[|x.inputs| - 1] == input && InputFromSession(input, x.sent, x.session)
    ensures a.frameId in x.sent
    ensures PacketDeliverable(x.sent[a.frameId], ArrivedIn(x.inputs, x.session, a.frameId), a.packetId)
  {
    hide ArrivedIn, Parse, FromSession, ReportsAreTrue, DecodesAreSent, PacketDeliverable, EntryIsSent,
      Receiver.ValidFrames, Receiver.Find;
    var d := Parse(input.bytes).value;
    if ReceiverAnswers.IsAnswer(a, d, now) {
      AnswerIsDeliverable(a, d, now, x);
    } else {
      var pid: nat :| ReceiverAnswers.IsRecovery(a, d, pid, now) && ReceiverAnswers.HasPacket(taken, d, pid);
      var i := Receiver.Find(taken.frames, d.h.frameId).value;
      assert EntryIsSent(taken.frames[i], x);
      SentEntry(taken.frames[i], x);
      HeldIsDeliverable(taken.frames[i], x, pid);
    }
  }

  lemma SentEntry(e: Receiver.Entry, x: Exchange)
    requires EntryIsSent(e, x)
    ensures e.id in x.sent
  {
  }

  /** In every run of the receiver, every ACK for a packet of the session is for one that came in, or that can be
      rebuilt from what did. */
  lemma PacketReportsAreTrue(headless: bool, rxSteps: seq<ReceiverPlayout.Step>, rxStates: seq<Receiver.Receiver>,
                             n: nat, sent: Sent, session: u64, a: RecvAck)
    requires ReceiverPlayout.IsRun(headless, rxSteps, rxStates) && n < |rxStates| == |rxSteps| + 1 && session != 0
    requires forall i :: 0 <= i < |rxSteps| ==> InputFromSession(rxSteps[i].input, sent, session)
    requires a in rxStates[n].acks && ReportsPacket(a, session)
    ensures a.frameId in sent
    ensures PacketDeliverable(sent[a.frameId], ArrivedIn(Inputs(rxSteps, n), session, a.frameId), a.packetId)
  {
    hide ReceiverPlayout.IsRun, InputFromSession, IntactInv, ArrivedIn, PacketDeliverable, Receiver.ValidFrames,
      ReceiverAnswers.Explained, Receiver.TakeInput;
    var i := ReceiverAnswers.EveryAckAnswers(headless, rxSteps, rxStates, n, a);
    var step, x := rxSteps[i], Exchange(sent, session, Inputs(rxSteps, i));
    RunIsSent(headless, rxSteps, rxStates, i, sent, session);
    MoreInputs(rxStates[i], x, step.input);
    var x1 := x.(inputs := x.inputs + [step.input]);
    InputIsSent(rxStates[i], step.input, step.now, x1);
    ReportedPacketArrived(a, Receiver.TakeInput(rxStates[i], step.input, step.now), step.input, step.now, x1);
    assert x1.inputs == Inputs(rxSteps, i + 1);
    ArrivedGrows(rxSteps, i + 1, n, session, a.frameId);
    PacketDeliverableGrows(sent[a.frameId], ArrivedIn(x1.inputs, session, a.frameId),
                           ArrivedIn(Inputs(rxSteps, n), session, a.frameId), a.packetId);
  }

  /** For the same runs and network: whatever packet of a frame in flight the sender takes for acknowledged, in any
      state, has reached the receiver itself, or its group's parity and other packets have. So a packet that is
      neither there nor rebuildable stays unacknowledged, and its retransmission timer runs on. */
  lemma AckedPacketsArrived(cfg: Ctl.Config, session: u64, steps: seq<Step>, states: seq<Sender>, headless: bool,
                            rxSteps: seq<ReceiverPlayout.Step>, rxStates: seq<Receiver.Receiver>, k: nat, i: nat,
                            pid: nat)
    requires Ctl.ValidConfig(cfg) && IsRun(cfg, session, steps, states)
    requires ReceiverPlayout.IsRun(headless, rxSteps, rxStates)
    requires |states| == |steps| + 1 && |rxStates| == |rxSteps| + 1
    requires forall j :: 0 <= j < |rxSteps| ==> Delivers(states[|steps|].wire, session, rxSteps[j].input)
    requires forall j :: 0 <= j < |steps| ==> FromReceiver(steps[j], rxStates[|rxSteps|].acks)
    requires k < |states| && i < |states[k].inflight| && pid < |states[k].inflight[i].packets|
    requires states[k].inflight[i].packets[pid].acked
    ensures var f := states[k].inflight[i];
      PacketDeliverable(Tx(session, f), ArrivedIn(Inputs(rxSteps, |rxSteps|), session, f.id), pid)
  {
    hide ArrivedIn, SentUpTo, Delivers, IsRun, ReceiverPlayout.IsRun, GenuineInv, ReportsAreTrue, InputFromSession,
      DecodesAreSent, Inputs, PacketDeliverable, AllDeliverable, First, WasStarted, Recorded, ValidFrame, FromReceiver,
      IsFirst, Tells;
    var f, n := states[k].inflight[i], |steps|;
    var j := AckedWasTold(cfg, session, steps, states, k, i, pid);
    FramesArriveIntact(cfg, session, steps, states, headless, rxSteps, rxStates, |rxSteps|);
    RunIsGenuine(cfg, session, steps, states, k);
    RunIsGenuine(cfg, session, steps, states, n);
    SentGrows(cfg, session, steps, states, k, n);
    SentOfFlight(SentUpTo(steps, states, k), session, states[k], i);
    StepSession(cfg, session, steps, states, j);
    assert FromReceiver(steps[j], rxStates[|rxSteps|].acks);
    SentHonestly(cfg, session, steps, states, rxSteps);
    ToldArrived(states[j], steps[j], f, pid, headless, rxSteps, rxStates,
                Exchange(SentUpTo(steps, states, n), session, Inputs(rxSteps, |rxSteps|)));
  }

  lemma SentHonestly(cfg: Ctl.Config, session: u64, steps: seq<Step>, states: seq<Sender>,
                     rxSteps: seq<ReceiverPlayout.Step>)
    requires Ctl.ValidConfig(cfg) && IsRun(cfg, session, steps, states) && |states| == |steps| + 1
    requires forall j :: 0 <= j < |rxSteps| ==> Delivers(states[|steps|].wire, session, rxSteps[j].input)
    ensures session != 0 && forall i :: 0 <= i < |steps| ==> states[i].pacing >= Ctl.GAMMA_P
    ensures forall i :: 0 <= i < |rxSteps| ==>
              InputFromSession(rxSteps[i].input, SentUpTo(steps, states, |steps|), session)
  {
    hide IsRun, WireHolds, InputFromSession, Delivers, SentUpTo, SentFrames, Flying, PacerHolds;
    RunStart(cfg, session, steps, states);
    RunIsGenuine(cfg, session, steps, states, |steps|);
    NetworkIsHonest(SentUpTo(steps, states, |steps|), session, states[|steps|].wire, rxSteps);
  }

  /** Some step handled an ACK that names the packet, or reports its frame complete. */
  lemma AckedWasTold(cfg: Ctl.Config, session: u64, steps: seq<Step>, states: seq<Sender>, k: nat, i: nat, pid: nat)
    returns (j: nat)
    requires Ctl.ValidConfig(cfg) && IsRun(cfg, session, steps, states) && k < |states| == |steps| + 1
    requires i < |states[k].inflight| && pid < |states[k].inflight[i].packets|
    requires states[k].inflight[i].packets[pid].acked
    ensures j < k && Tells(states[j], steps[j], states[k].inflight[i].id, Names(pid))
    ensures pid < PacketCountOf(states[k].inflight[i])
  {
    hide IsRun, First, WasStarted, ValidFrame, Tells;
    var f := states[k].inflight[i];
    RecordsAreTrue(cfg, session, steps, states, k, i);
    FirstIsFirst(steps, states, k, f.id, Names(pid));
    assert PacketRecorded(steps, states, k, f.id, pid, f.packets[pid]);
    j :| 0 <= j < k && IsFirst(steps, states, j, f.id, Names(pid));
    CountOf(cfg, session, steps, states, k, i);
  }

  function PacketCountOf(f: SentFrame): nat { PacketCount(U32(|f.bytes|)) }

  lemma CountOf(cfg: Ctl.Config, session: u64, steps: seq<Step>, states: seq<Sender>, k: nat, i: nat)
    requires Ctl.ValidConfig(cfg) && IsRun(cfg, session, steps, states) && k < |states| == |steps| + 1
    requires i < |states[k].inflight|
    ensures |states[k].inflight[i].packets| == PacketCountOf(states[k].inflight[i])
  {
    hide IsRun, Runs.CtlInv, ValidPacer;
    RunStateValid(cfg, session, steps, states, k);
    assert ValidFrame(states[k].inflight[i]);
  }

  lemma ToldArrived(s: Sender, step: Step, f: SentFrame, pid: nat, headless: bool, rxSteps: seq<ReceiverPlayout.Step>,
                    rxStates: seq<Receiver.Receiver>, x: Exchange)
    requires Tells(s, step, f.id, Names(pid)) && pid < PacketCountOf(f) && x.session != 0
    requires ReceiverPlayout.IsRun(headless, rxSteps, rxStates) && |rxStates| == |rxSteps| + 1
    requires x.inputs == Inputs(rxSteps, |rxSteps|) && FromReceiver(step, rxStates[|rxSteps|].acks)
    requires step.Listen? && step.input.Ack? ==> step.input.a.session == x.session
    requires ReportsAreTrue(rxStates[|rxSteps|].acks, x)
    requires forall i :: 0 <= i < |rxSteps| ==> InputFromSession(rxSteps[i].input, x.sent, x.session)
    requires f.id in x.sent && x.sent[f.id] == Tx(x.session, f)
    ensures PacketDeliverable(Tx(x.session, f), ArrivedIn(x.inputs, x.session, f.id), pid)
  {
    hide ReceiverPlayout.IsRun, InputFromSession, ArrivedIn, Inputs, Deliverable, Find, UsableAck;
    var a := step.input.a;
    if a.flags & FRAME_COMPLETE == 0 {
      PacketReportsAreTrue(headless, rxSteps, rxStates, |rxSteps|, x.sent, x.session, a);
    }
  }
}
