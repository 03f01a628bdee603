/** Which frames in flight count as lossy, over every run of the sender. */
module SenderMarks {
  import opened Bytes
  import opened Protocol
  import opened Reassembly
  import opened Packetizer
  import Ctl = Controller
  import Runs = ControllerRuns
  import opened Sender
  import opened SenderRuns
  import opened SenderRetries
  import opened SenderHistory
  import SenderTimers

  /** Frame id has an entry in the retransmission queue. */
  ghost predicate Queued(retries: seq<Pair>, id: u32) {
    exists r :: r in retries && r.0 == id
  }

  /** A step handled an ACK for a packet of the frame that was rebuilt from parity. */
  ghost predicate WasRecovered(steps: seq<Step>, states: seq<Sender>, n: nat, id: u32)
    requires n <= |steps| && n <= |states|
  {
    exists k :: 0 <= k < n && Recovers(states[k], steps[k], id)
  }

  ghost predicate Recovers(s: Sender, step: Step, id: u32) {
    Handles(s, step, id) && step.input.a.flags & RECOVERED != 0
  }

  /** The frame had an entry in the queue in one of the first n + 1 states. */
  ghost predicate WasQueued(states: seq<Sender>, n: nat, id: u32)
    requires n < |states|
  {
    exists k :: 0 <= k <= n && Queued(states[k].retries, id)
  }

  ghost predicate LossRecorded(steps: seq<Step>, states: seq<Sender>, n: nat, f: SentFrame)
    requires n <= |steps| && n < |states|
  {
    f.loss <==> WasRecovered(steps, states, n, f.id) || WasQueued(states, n, f.id)
  }

  // ----- The timers -----

  lemma MarkedIfQueued(s: Sender, nextId: nat, now: u64, i: nat)
    requires QueueInv(s) && IdsRise(s.inflight, nextId) && i < |s.inflight|
    ensures var f, s' := s.inflight[i], QueueRetries(s, now);
      && |s'.inflight| == |s.inflight| && s'.inflight[i].id == f.id
      && (s'.inflight[i].loss <==> f.loss || NewlyQueued(s, s', f.id))
  {
    var f, delay := s.inflight[i], s.fb.retryDelay;
    var due := AllDue(s.inflight, now, delay);
    AllDueMembers(s.inflight, nextId, now, delay);
    hide AllDue, RetransmissionLost, QueueInv, NoDuplicates;
    assert forall r :: r in s.retries + due <==> r in s.retries || r in due;
    if pid :| 0 <= pid < |f.packets| && DueIn(f, pid, now, delay) {
      assert DuePair(s.inflight, (f.id, pid), now, delay);
      DueIsNew(s, (f.id, pid), now, delay);
    }
    if r :| r in due && r.0 == f.id {
      DueOfFrame(s.inflight, nextId, i, r, now, delay);
    }
  }

  lemma DueOfFrame(inflight: seq<SentFrame>, nextId: nat, i: nat, r: Pair, now: u64, delay: nat)
    requires IdsRise(inflight, nextId) && i < |inflight| && DuePair(inflight, r, now, delay) && r.0 == inflight[i].id
    ensures r.1 < |inflight[i].packets| && DueIn(inflight[i], r.1, now, delay)
  {
    hide DueIn;
    var k :| 0 <= k < |inflight| && inflight[k].id == r.0 && r.1 < |inflight[k].packets|
             && DueIn(inflight[k], r.1, now, delay);
    assert k == i;
  }

  // ----- One step -----

  /** What a step makes of a frame's mark. */
  ghost predicate MarkStep(s: Sender, step: Step, s': Sender, f: SentFrame, f': SentFrame) {
    && f'.id == f.id
    && (f'.loss <==> f.loss || Recovers(s, step, f.id) || NewlyQueued(s, s', f.id))
  }

  ghost predicate NewlyQueued(s: Sender, s': Sender, id: u32) {
    exists r :: r in s'.retries && r !in s.retries && r.0 == id
  }

  lemma AcknowledgeMarks(f: SentFrame, a: RecvAck)
    ensures Acknowledge(f, a).loss <==> f.loss || a.flags & RECOVERED != 0
    ensures Acknowledge(f, a).id == f.id
  {
    hide AckPacket, MarkAcked;
  }

  lemma ListenMarks(cfg: Ctl.Config, s: Sender, step: Step, j: nat) returns (i: nat)
    requires ValidSender(cfg, s) && QueueInv(s) && step.Listen? && j < |Next(cfg, s, step).inflight|
    ensures i < |s.inflight| && MarkStep(s, step, Next(cfg, s, step), s.inflight[i], Next(cfg, s, step).inflight[j])
  {
    hide ValidSender, HandleInput, Timers, After, QueueInv, Handles, Acknowledge;
    var s1 := HandleInput(s, step.input, step.now);
    IdsOf(cfg, s);
    InputRecords(s, s.nextId, step);
    InputKeepsRetries(s, step.input, step.now);
    hide IdsRise;
    HandleInputKeepsValid(cfg, s, step.input, step.now);
    HandleInputKeepsQueue(s, step.input, step.now);
    i := TimersMark(cfg, s1, step.now, step.wall, j);
    var id, s' := s.inflight[i].id, Next(cfg, s, step);
    assert NewlyQueued(s1, s', id) <==> NewlyQueued(s, s', id);
    AfterMarks(s, step, s.inflight[i]);
  }

  /** After the marks, the timers only drop frames from the front. */
  lemma TimersEnd(cfg: Ctl.Config, s: Sender, now: u64, wall: nat -> u64, j: nat) returns (i: nat)
    requires ValidSender(cfg, s) && QueueInv(s) && j < |Timers(cfg, s, now, wall).inflight|
    ensures var s', s2 := Timers(cfg, s, now, wall), QueueRetries(s, now);
      i < |s2.inflight| && s'.inflight[j] == s2.inflight[i] && s'.retries == s2.retries
  {
    hide ValidSender, QueueRetries, CheckAge, Resolve, RetryInv;
    QueueRetriesKeepsValid(cfg, s, now);
    QueueRetriesKeepsQueue(cfg, s, now);
    var s2 := QueueRetries(s, now);
    CheckAgeKeepsValid(cfg, s2, now);
    var s3 := CheckAge(cfg, s2, now);
    assert s3.inflight == s2.inflight && s3.retries == s2.retries;
    assert Timers(cfg, s, now, wall) == Resolve(cfg, s3, now, wall);
    i := ResolveEnd(cfg, s3, now, wall, j);
  }

  lemma ResolveEnd(cfg: Ctl.Config, s: Sender, now: u64, wall: nat -> u64, j: nat) returns (i: nat)
    requires ValidSender(cfg, s) && QueueInv(s) && j < |Resolve(cfg, s, now, wall).inflight|
    ensures var s' := Resolve(cfg, s, now, wall);
      i < |s.inflight| && s'.inflight[j] == s.inflight[i] && s'.retries == s.retries
  {
    hide ValidSender, Resolve, QueueInv;
    ResolveKeepsQueue(cfg, s, now, wall);
    SenderTimers.ResolveKeepsRetries(cfg, s, now, wall);
    var s' := Resolve(cfg, s, now, wall);
    var k: nat :| k <= |s.inflight| && s'.inflight == s.inflight[k..];
    i := k + j;
  }

  lemma TimersMark(cfg: Ctl.Config, s: Sender, now: u64, wall: nat -> u64, j: nat) returns (i: nat)
    requires ValidSender(cfg, s) && QueueInv(s) && j < |Timers(cfg, s, now, wall).inflight|
    ensures var s' := Timers(cfg, s, now, wall);
      && i < |s.inflight| && s'.inflight[j].id == s.inflight[i].id
      && (s'.inflight[j].loss <==> s.inflight[i].loss || NewlyQueued(s, s', s.inflight[i].id))
  {
    hide ValidSender, QueueRetries, Timers, QueueInv, SameRecord, NewlyQueued, IdsRise;
    i := TimersEnd(cfg, s, now, wall, j);
    MarkRecords(s, now);
    IdsOf(cfg, s);
    MarkedIfQueued(s, s.nextId, now, i);
    SameNewly(s, QueueRetries(s, now), Timers(cfg, s, now, wall), s.inflight[i].id);
  }

  lemma SameNewly(s: Sender, a: Sender, b: Sender, id: u32)
    requires a.retries == b.retries
    ensures NewlyQueued(s, a, id) <==> NewlyQueued(s, b, id)
  {
  }

  lemma AfterMarks(s: Sender, step: Step, f: SentFrame)
    ensures After(s, step, f).id == f.id && (After(s, step, f).loss <==> f.loss || Recovers(s, step, f.id))
  {
    hide Handles, Acknowledge;
    if Handles(s, step, f.id) {
      HandledIsAck(s, step, f.id);
      AcknowledgeMarks(f, step.input.a);
    }
  }

  lemma InputKeepsRetries(s: Sender, input: Input, now: u64)
    ensures HandleInput(s, input, now).retries == s.retries
  {
    hide Acknowledge, ObserveTimes, ObserveWire, UsableAck, Find;
  }

  /** Frames with the same marks. */
  ghost predicate SameMarks(a: seq<SentFrame>, b: seq<SentFrame>) {
    |a| == |b| && forall i :: 0 <= i < |a| ==> b[i].id == a[i].id && b[i].loss == a[i].loss
  }

  lemma PaceKeepsMarks(s: Sender, now: u64, running: bool)
    requires s.session != 0 && ValidPacer(s.pacer, s.inflight)
    requires forall i :: 0 <= i < |s.inflight| ==> ValidFrame(s.inflight[i])
    ensures SameMarks(s.inflight, PacerStep(s, now, running).inflight)
  {
    hide ValidFrame, ParityDatagram, ProbeHeader, Find, ValidPacer, SendDataStep;
    if s.pacer.NextData? {
      SendKeepsMarks(s, now, running);
    }
  }

  lemma SendKeepsMarks(s: Sender, now: u64, running: bool)
    requires s.session != 0 && s.pacer.NextData? && ValidPacer(s.pacer, s.inflight)
    requires forall i :: 0 <= i < |s.inflight| ==> ValidFrame(s.inflight[i])
    ensures SameMarks(s.inflight, PacerStep(s, now, running).inflight)
  {
    hide ValidFrame, Find, DataPacket, XorBytes;
  }

  lemma {:induction false} RetryKeepsMarks(s: Sender, now: u64)
    requires s.session != 0 && forall i :: 0 <= i < |s.inflight| ==> ValidFrame(s.inflight[i])
    ensures var s' := RetryOne(s, now);
      SameMarks(s.inflight, s'.inflight) && forall r :: r in s'.retries ==> r in s.retries
    decreases |s.retries|
  {
    hide ValidFrame, DataPacket;
    if s.retries != [] {
      var (fid, pid) := s.retries[0];
      var popped := s.(retries := s.retries[1..]);
      assert forall r :: r in popped.retries ==> r in s.retries;
      var i := Find(s.inflight, fid);
      if i.None? || pid >= |s.inflight[i.value].packets| {
        RetryKeepsMarks(popped, now);
      } else {
        var f := s.inflight[i.value];
        assert ValidFrame(f);
        var p := f.packets[pid].(retryQueued := false);
        WithPacketValid(f, pid, p);
        if p.acked {
          RetryKeepsMarks(popped.(inflight := s.inflight[i.value := WithPacket(f, pid, p)]), now);
        }
      }
    }
  }

  /** Steps other than the listener's change no mark and queue nothing. */
  lemma OthersKeepMarks(cfg: Ctl.Config, s: Sender, step: Step, j: nat)
    requires ValidSender(cfg, s) && !step.Listen? && j < |Next(cfg, s, step).inflight|
    requires !(Starts(s, step) && j == |s.inflight|)
    ensures var s' := Next(cfg, s, step);
      && j < |s.inflight| && s'.inflight[j].id == s.inflight[j].id && s'.inflight[j].loss == s.inflight[j].loss
      && forall r :: r in s'.retries ==> r in s.retries
  {
    hide ValidSender;
    match step
    case Start(started, firstSent) => StartKeepsMarks(cfg, s, step, j);
    case Pace(now, running) =>
      hide PacerStep, ValidPacer;
      PaceParts(cfg, s);
      PaceKeepsMarks(s, now, running);
      PacerTouches(s, now, running);
    case Retry(now) =>
      hide RetryOne, ValidPacer;
      PaceParts(cfg, s);
      RetryKeepsMarks(s, now);
    case _ =>
      hide Next;
      OtherStepsKeepPackets(cfg, s, step);
  }

  lemma StartKeepsMarks(cfg: Ctl.Config, s: Sender, step: Step, j: nat)
    requires ValidSender(cfg, s) && step.Start? && j < |Next(cfg, s, step).inflight|
    requires !(Starts(s, step) && j == |s.inflight|)
    ensures j < |s.inflight| && Next(cfg, s, step).inflight[j] == s.inflight[j]
    ensures Next(cfg, s, step).retries == s.retries
  {
    hide NewSentFrame, ValidFrame, Runs.CtlInv, ValidPacer;
  }

  // ----- Every run -----

  lemma {:induction false} UnstartedUnqueued(cfg: Ctl.Config, session: u64, steps: seq<Step>, states: seq<Sender>,
                                             n: nat, id: u32)
    requires Ctl.ValidConfig(cfg) && IsRun(cfg, session, steps, states) && n <= |steps| < |states|
    requires id >= states[n].nextId
    ensures !WasQueued(states, n, id) && !WasRecovered(steps, states, n, id)
    decreases n
  {
    hide IsRun, SendInv, Handles;
    RunKeepsSendInv(cfg, session, steps, states, n);
    NotQueued(states[n], id);
    if n > 0 {
      IdsOnlyRise(cfg, session, steps, states, n - 1);
      UnstartedUnqueued(cfg, session, steps, states, n - 1, id);
      NotHandled(cfg, session, steps, states, n - 1, id);
      QueuedNext(states, n - 1, id);
    }
  }

  lemma NotHandled(cfg: Ctl.Config, session: u64, steps: seq<Step>, states: seq<Sender>, n: nat, id: u32)
    requires Ctl.ValidConfig(cfg) && IsRun(cfg, session, steps, states) && n < |steps| < |states|
    requires id >= states[n].nextId
    ensures !Handles(states[n], steps[n], id)
  {
    hide IsRun, Next, ValidStep, ValidSender, Handles;
    RunStep(cfg, session, steps, states, n);
    NotInFlight(cfg, states[n], steps[n], id);
  }

  lemma NotQueued(s: Sender, id: u32)
    requires SendInv(s) && id >= s.nextId
    ensures !Queued(s.retries, id)
  {
    hide NoDuplicates, FrameInv;
  }

  lemma QueuedNext(states: seq<Sender>, n: nat, id: u32)
    requires n + 1 < |states|
    ensures WasQueued(states, n + 1, id) <==> WasQueued(states, n, id) || Queued(states[n + 1].retries, id)
  {
    hide Queued;
  }

  lemma RecoveredNext(steps: seq<Step>, states: seq<Sender>, n: nat, id: u32)
    requires n < |steps| && n < |states|
    ensures WasRecovered(steps, states, n + 1, id) <==>
              WasRecovered(steps, states, n, id) || Recovers(states[n], steps[n], id)
  {
    hide Recovers;
  }

  lemma MarkRecorded(steps: seq<Step>, states: seq<Sender>, n: nat, f: SentFrame, f': SentFrame)
    requires n < |steps| && n + 1 < |states| && LossRecorded(steps, states, n, f)
    requires MarkStep(states[n], steps[n], states[n + 1], f, f')
    ensures LossRecorded(steps, states, n + 1, f')
  {
    var s, s' := states[n], states[n + 1];
    QueuedNext(states, n, f.id);
    RecoveredNext(steps, states, n, f.id);
    if r :| r in s'.retries && r.0 == f.id && r in s.retries {
      assert Queued(s.retries, f.id);
      assert WasQueued(states, n, f.id);
    }
    hide WasQueued, WasRecovered, Recovers;
  }

  lemma FreshUnmarked(cfg: Ctl.Config, s: Sender, step: Step)
    requires ValidSender(cfg, s) && Starts(s, step)
    ensures var s' := Next(cfg, s, step);
      && |s'.inflight| == |s.inflight| + 1 && s'.inflight[|s.inflight|].id == s.nextId
      && !s'.inflight[|s.inflight|].loss && s'.retries == s.retries
  {
    hide Runs.CtlInv, ValidFrame, ValidPacer, IdsRise, ProbeGap;
  }

  lemma OthersAreSteps(s: Sender, step: Step, s': Sender, f: SentFrame, f': SentFrame)
    requires !step.Listen? && f'.id == f.id && f'.loss == f.loss && forall r :: r in s'.retries ==> r in s.retries
    ensures MarkStep(s, step, s', f, f')
  {
    hide Find;
  }

  /** In every state of every run, a frame in flight counts as lossy exactly if an ACK for a rebuilt packet of it was
      handled, or one of its packets has been in the retransmission queue. */
  lemma {:induction false} MarksAreTrue(cfg: Ctl.Config, session: u64, steps: seq<Step>, states: seq<Sender>, n: nat,
                                        j: nat)
    requires Ctl.ValidConfig(cfg) && IsRun(cfg, session, steps, states) && n <= |steps| < |states|
    requires j < |states[n].inflight|
    ensures LossRecorded(steps, states, n, states[n].inflight[j])
    decreases n
  {
    hide IsRun, Next, ValidStep, ValidSender, SendInv, QueueInv, LossRecorded, MarkStep, Handles;
    RunStart(cfg, session, steps, states);
    if n > 0 {
      var k := n - 1;
      var s, s' := states[k], states[n];
      RunStep(cfg, session, steps, states, k);
      RunKeepsSendInv(cfg, session, steps, states, k);
      QueueOfSends(s);
      if Starts(s, steps[k]) && j == |s.inflight| {
        FreshUnmarked(cfg, s, steps[k]);
        FreshRecord(cfg, session, steps, states, k, s'.inflight[j]);
      } else {
        var i := j;
        if steps[k].Listen? {
          i := ListenMarks(cfg, s, steps[k], j);
        } else {
          OthersKeepMarks(cfg, s, steps[k], j);
          OthersAreSteps(s, steps[k], s', s.inflight[j], s'.inflight[j]);
        }
        MarksAreTrue(cfg, session, steps, states, k, i);
        MarkRecorded(steps, states, k, s.inflight[i], s'.inflight[j]);
      }
    }
  }

  lemma FreshRecord(cfg: Ctl.Config, session: u64, steps: seq<Step>, states: seq<Sender>, n: nat, f: SentFrame)
    requires Ctl.ValidConfig(cfg) && IsRun(cfg, session, steps, states) && n < |steps| < |states|
    requires f.id == states[n].nextId && !f.loss && states[n + 1].retries == states[n].retries
    ensures LossRecorded(steps, states, n + 1, f)
  {
    hide IsRun, WasQueued, WasRecovered, Handles;
    UnstartedUnqueued(cfg, session, steps, states, n, f.id);
    QueuedNext(states, n, f.id);
    RecoveredNext(steps, states, n, f.id);
    NotHandled(cfg, session, steps, states, n, f.id);
    StillUnqueued(states, n, f.id);
  }

  lemma StillUnqueued(states: seq<Sender>, n: nat, id: u32)
    requires n < |states| && !WasQueued(states, n, id)
    ensures !Queued(states[n].retries, id)
  {
    hide Queued;
  }
}
