/** The samples that resolve hands to the controller, over every run: what delay each delivered frame is charged. */
module SenderSamples {
  import opened Bytes
  import opened Protocol
  import opened EventLog
  import opened Reassembly
  import opened Packetizer
  import Ctl = Controller
  import Runs = ControllerRuns
  import Estimators
  import opened Sender
  import opened SenderRuns
  import opened SenderRetries
  import opened SenderHistory
  import SenderLog

  // ----- The charge for a frame, in microseconds -----

  function Positive(x: int): int { if x > 0 then x else 0 }

  function Least(a: real, b: real): real { if a <= b then a else b }

  /** What a probe adds to the delay of its frame, which was complete at done: the probe gap if no ACK for it was
      handled, and otherwise its queueing delay or the time it came after done, but no more than the gap. */
  function Charge(answer: Option<RecvAck>, done: u64, minOwd: int, gap: real): real {
    match answer
    case None => gap
    case Some(a) =>
      var queued, after := Positive(a.recvTime - a.echoedSend - minOwd), Positive(a.recvTime - done);
      Least(Least(queued as real, after as real), gap)
  }

  /** The spacing of the probes of a frame, in microseconds, from the pacing multiplier at its start. */
  function GapAt(pacing: real): real
    requires pacing >= Ctl.GAMMA_P
  {
    (INTERVAL as real - INTERVAL as real / pacing) / 5.0
  }

  /** The BUR of a frame that was first sent at firstSent and complete at done, with these answers to its probes. */
  function ChargedBur(firstSent: u64, done: u64, minOwd: int, answers: seq<Option<RecvAck>>, gap: real): real
    requires |answers| == N_PROBE
  {
    var queueing := Positive(done - firstSent - minOwd) as real;
    var probes := Charge(answers[0], done, minOwd, gap) + Charge(answers[1], done, minOwd, gap)
                  + Charge(answers[2], done, minOwd, gap) + Charge(answers[3], done, minOwd, gap);
    queueing / INTERVAL as real + probes / INTERVAL as real
  }

  /** The part of a rate on the wire that is payload, for a frame of this size. */
  function PayloadRate(wireRate: real, bytes: u32): real {
    var udp := FrameUdpBytes(bytes) as real;
    assert udp > 0.0;
    wireRate * bytes as real / udp
  }

  /** e samples frame f, with the feedback at hand. */
  ghost predicate SampleOf(fb: Feedback, f: SentFrame, e: Event) {
    && e.ControlSample? && e.fid == f.id && f.delivered && fb.minOwd.Some? && |f.probes| == N_PROBE == e.nProbes
    && LegalFrame(f.bytes)
    && e.bur == ChargedBur(f.firstSent, f.deliveredAt, fb.minOwd.value, f.probes, f.probeGap * 1_000_000.0)
    && e.recvRate == PayloadRate(fb.ackRate, |f.bytes|)
  }

  // ----- One frame -----

  lemma ChargeIsDelay(f: SentFrame, answer: Option<RecvAck>, minOwd: int)
    ensures Charge(answer, f.deliveredAt, minOwd, f.probeGap * 1_000_000.0)
         == ProbeDelay(f, answer, minOwd) * 1_000_000.0
  {
  }

  lemma InIntervals(x: real)
    ensures x / Ctl.L_SEC == x * 1_000_000.0 / INTERVAL as real
  {
  }

  lemma TotalOfFour(xs: seq<real>)
    requires |xs| == 4
    ensures Estimators.Total(xs) == xs[0] + xs[1] + xs[2] + xs[3]
  {
    var a, b, c := xs[..3], xs[..2], xs[..1];
    assert a[..2] == b && b[..1] == c && c[..0] == [];
    assert Estimators.Total(c) == c[0];
    assert Estimators.Total(b) == Estimators.Total(c) + b[1];
    assert Estimators.Total(a) == Estimators.Total(b) + a[2];
  }

  /** The BUR of the sample is the frame's charge. */
  lemma SampleBur(s: Sender, f: SentFrame, minOwd: int, now: u64, wall: u64)
    requires ValidFrame(f)
    ensures Ctl.FrameBur(MakeAck(s, f, minOwd, now, wall))
         == ChargedBur(f.firstSent, f.deliveredAt, minOwd, f.probes, f.probeGap * 1_000_000.0)
  {
    hide FrameUdpBytes, Outstanding, FirstTries, Charge, ProbeDelay;
    var fa := MakeAck(s, f, minOwd, now, wall);
    var d := fa.probes;
    Estimators.CorrectedBurIsSum(Ctl.RawBur(fa.delay, fa.minDelay), d);
    TotalOfFour(d);
    forall i | 0 <= i < 4
      ensures Charge(f.probes[i], f.deliveredAt, minOwd, f.probeGap * 1_000_000.0) == d[i] * 1_000_000.0
    {
      ChargeIsDelay(f, f.probes[i], minOwd);
    }
    InIntervals(d[0] + d[1] + d[2] + d[3]);
    InIntervals(fa.delay - fa.minDelay);
    RawIsQueueing(f.firstSent, f.deliveredAt, minOwd);
  }

  lemma RawIsQueueing(firstSent: u64, done: u64, minOwd: int)
    ensures Ctl.RawBur((done as int - firstSent as int) as real / 1_000_000.0, minOwd as real / 1_000_000.0)
         == Positive(done - firstSent - minOwd) as real / INTERVAL as real
  {
    InIntervals((done as int - firstSent as int) as real / 1_000_000.0 - minOwd as real / 1_000_000.0);
  }

  /** What a sample says of the first-try ACKs: the payload bytes they acknowledge, and the times of the first and the
      last of them. */
  lemma {:induction false} FirstTriesSpan(f: SentFrame, n: nat)
    requires n <= |f.packets|
    ensures var (bytes, first, last) := FirstTries(f, n);
      && (forall pid :: 0 <= pid < n && f.packets[pid].firstTryRecv != 0 ==>
            first <= f.packets[pid].firstTryRecv <= last)
      && (if last == 0 then first == Ctl.UINT64_MAX else IsFirstTry(f, n, first) && IsFirstTry(f, n, last))
      && bytes == TriedBytes(f, n)
  {
    if n > 0 {
      FirstTriesSpan(f, n - 1);
      var (bytes, first, last) := FirstTries(f, n - 1);
      var t := f.packets[n - 1].firstTryRecv;
      TriedMore(f, n, first);
      TriedMore(f, n, last);
      hide IsFirstTry, TriedBytes, PayloadBytes;
      TriedPayload(f, n);
    }
  }

  lemma TriedMore(f: SentFrame, n: nat, at: u64)
    requires 0 < n <= |f.packets|
    ensures IsFirstTry(f, n - 1, at) ==> IsFirstTry(f, n, at)
    ensures IsFirstTry(f, n, f.packets[n - 1].firstTryRecv)
  {
  }

  lemma TriedPayload(f: SentFrame, n: nat)
    requires 0 < n <= |f.packets|
    ensures TriedBytes(f, n)
         == TriedBytes(f, n - 1) + if f.packets[n - 1].firstTryRecv == 0 then 0 else PayloadBytes(f, n - 1)
  {
  }

  ghost predicate IsFirstTry(f: SentFrame, n: nat, at: u64)
    requires n <= |f.packets|
  {
    exists pid :: 0 <= pid < n && f.packets[pid].firstTryRecv == at
  }

  /** The frame's bytes that fall into the packets with a first-try ACK. */
  function TriedBytes(f: SentFrame, n: nat): nat
    requires n <= |f.packets|
  {
    if n == 0 then 0
    else
      var lo, hi := (n - 1) * LOAD_SZ, Min(n * LOAD_SZ, |f.bytes|);
      TriedBytes(f, n - 1) + if f.packets[n - 1].firstTryRecv != 0 && lo < hi then hi - lo else 0
  }

  /** What settling a frame logs. */
  ghost predicate SettleLogs(s: Sender, f: SentFrame, events: seq<Event>) {
    && (forall e :: e in events && e.ControlSample? ==> SampleOf(s.fb, f, e))
    && (f.delivered && s.fb.minOwd.Some? && f.id > s.ctl.lastSampleId ==>
          exists e :: e in events && e.ControlSample? && e.fid == f.id)
    && (!f.delivered ==> FrameLoss(f.id) in events)
  }

  lemma EventOf(s: Sender, f: SentFrame, c: Ctl.Ctl, now: u64, wall: u64)
    requires ValidFrame(f) && f.delivered && s.fb.minOwd.Some?
    ensures var fa := MakeAck(s, f, s.fb.minOwd.value, now, wall);
      fa.fid == f.id && SampleOf(s.fb, f, Ctl.SampleEvent(c, fa, Ctl.FrameBur(fa)))
  {
    SampleBur(s, f, s.fb.minOwd.value, now, wall);
    SampleRate(s, f, s.fb.minOwd.value, now, wall);
    hide MakeAck, ChargedBur, PayloadRate, Ctl.FrameBur;
  }

  lemma AckedLogs(cfg: Ctl.Config, s: Sender, f: SentFrame, now: u64, wall: u64)
    requires ValidSender(cfg, s) && ValidFrame(f) && f.delivered && s.fb.minOwd.Some?
    ensures Ctl.ValidAck(MakeAck(s, f, s.fb.minOwd.value, now, wall)) && Ctl.ValidCtl(s.ctl)
    ensures SettleLogs(s, f, Ctl.OnFrameAcked(cfg, s.ctl, MakeAck(s, f, s.fb.minOwd.value, now, wall)).2)
  {
    var fa := MakeAck(s, f, s.fb.minOwd.value, now, wall);
    MakeAckValid(s, f, s.fb.minOwd.value, now, wall);
    Runs.CtlInvValid(cfg, s.ctl);
    var (c', out, events) := Ctl.OnFrameAcked(cfg, s.ctl, fa);
    EventOf(s, f, c', now, wall);
    hide MakeAck, SampleOf, Runs.CtlInv, ValidFrame, IdsRise, ValidPacer, Ctl.FrameBur, Ctl.ValidCtl, Ctl.ValidAck;
    if fa.fid > s.ctl.lastSampleId {
      SampleIsLast(cfg, s.ctl, fa);
    }
  }

  /** An accepted ACK logs one sample, last. */
  lemma SampleIsLast(cfg: Ctl.Config, c: Ctl.Ctl, fa: Ctl.FrameAck)
    requires Ctl.ValidConfig(cfg) && Ctl.ValidAck(fa) && Runs.CtlInv(cfg, c) && fa.fid > c.lastSampleId
    ensures var (c', out, events) := Ctl.OnFrameAcked(cfg, c, fa);
      var e := Ctl.SampleEvent(c', fa, Ctl.FrameBur(fa));
      e.ControlSample? && e.fid == fa.fid && e in events && forall x :: x in events && x.ControlSample? ==> x == e
  {
    Runs.AckedStages(cfg, c, fa);
    var (c1, seen, smooth) := Ctl.Observe(cfg, c, fa);
    var (c2, verdict) := Ctl.Verdict(cfg, c1, fa, smooth);
    hide Ctl.OnFrameAcked, Ctl.Observe, Ctl.Verdict, Ctl.FrameBur, Runs.RatesInv, Runs.FallbackInv;
    var e := Ctl.SampleEvent(c2, fa, Ctl.FrameBur(fa));
    assert forall x :: x in (seen + verdict) + [e] <==> x in seen || x in verdict || x == e;
  }

  lemma SampleRate(s: Sender, f: SentFrame, minOwd: int, now: u64, wall: u64)
    requires ValidFrame(f)
    ensures var fa := MakeAck(s, f, minOwd, now, wall);
      && fa.fid == f.id && |fa.probes| == N_PROBE && fa.recvRate == PayloadRate(s.fb.ackRate, |f.bytes|)
  {
    hide Outstanding, FirstTries, ProbeDelay, PacketCount, ParityCount;
    assert FrameUdpBytes(|f.bytes|) > 0;
    hide FrameUdpBytes;
    var fa := MakeAck(s, f, minOwd, now, wall);
    var rate, size, udp := s.fb.ackRate, |f.bytes| as real, FrameUdpBytes(|f.bytes|) as real;
    assert fa.recvRate == (rate * size) / udp;
    assert PayloadRate(rate, |f.bytes|) == (rate * size) / udp;
  }

  lemma SettledLogs(cfg: Ctl.Config, s: Sender, f: SentFrame, now: u64, wall: u64) returns (events: seq<Event>)
    requires ValidSender(cfg, s) && ValidFrame(f)
    ensures Settle(cfg, s, f, now, wall).log == s.log + events && SettleLogs(s, f, events)
  {
    hide MakeAck, Ctl.OnFrameAcked, SampleOf, Runs.CtlInv, IdsRise, ValidPacer;
    if f.delivered && s.fb.minOwd.Some? {
      AckedLogs(cfg, s, f, now, wall);
      events := Ctl.OnFrameAcked(cfg, s.ctl, MakeAck(s, f, s.fb.minOwd.value, now, wall)).2;
    } else if !f.delivered {
      var gap := if s.fb.srtt.Floor > 2 * INTERVAL then s.fb.srtt.Floor else 2 * INTERVAL;
      events := [FrameLoss(f.id)] + Ctl.OnFrameLoss(cfg, s.ctl, now, U64(gap)).1;
      assert s.log + events == s.log + [FrameLoss(f.id)] + Ctl.OnFrameLoss(cfg, s.ctl, now, U64(gap)).1;
    } else {
      events := [];
      assert s.log + [] == s.log;
    }
  }

  // ----- resolve -----

  /** Every sample among these events is of one of the frames. */
  ghost predicate SamplesFrom(events: seq<Event>, fb: Feedback, frames: seq<SentFrame>) {
    forall e :: e in events && e.ControlSample? ==> exists i :: 0 <= i < |frames| && SampleOf(fb, frames[i], e)
  }

  /** Each of the frames left a sample, if it was delivered and a minimum is known, or a loss. */
  ghost predicate EachLogged(events: seq<Event>, fb: Feedback, frames: seq<SentFrame>) {
    forall i :: 0 <= i < |frames| ==> FrameLogged(events, fb, frames[i])
  }

  ghost predicate FrameLogged(events: seq<Event>, fb: Feedback, f: SentFrame) {
    && (f.delivered && fb.minOwd.Some? ==> exists e :: e in events && e.ControlSample? && e.fid == f.id)
    && (!f.delivered ==> FrameLoss(f.id) in events)
  }

  lemma FirstLogs(cfg: Ctl.Config, s: Sender, now: u64, wall: nat -> u64) returns (events: seq<Event>)
    requires ValidSender(cfg, s) && SenderLog.LogInv(s) && s.inflight != []
    ensures SettleFirst(cfg, s, now, wall).log == s.log + events
    ensures (forall e :: e in events && e.ControlSample? ==> SampleOf(s.fb, s.inflight[0], e))
    ensures FrameLogged(events, s.fb, s.inflight[0])
  {
    hide SampleOf, Settle, SenderLog.LogInv, Runs.CtlInv, IdsRise, ValidPacer, ProbeCount;
    var f := s.inflight[0];
    SenderLog.FrontUnsampled(s);
    var settled := SettledLogs(cfg, s, f, now, wall(f.id));
    events := settled + [SummaryOf(f)];
    assert s.log + events == s.log + settled + [SummaryOf(f)];
    assert forall e :: e in events <==> e in settled || e == SummaryOf(f);
    hide ValidFrame;
  }

  lemma {:induction false} ResolveLogs(cfg: Ctl.Config, s: Sender, now: u64, wall: nat -> u64)
    returns (events: seq<Event>, k: nat)
    requires ValidSender(cfg, s) && SenderLog.LogInv(s)
    ensures var s' := Resolve(cfg, s, now, wall);
      && s'.log == s.log + events && s'.fb == s.fb && k <= |s.inflight| && s'.inflight == s.inflight[k..]
      && SamplesFrom(events, s.fb, s.inflight[..k]) && EachLogged(events, s.fb, s.inflight[..k])
    decreases |s.inflight|
  {
    hide ValidSender, SenderLog.LogInv, SettleFirst, Settled, PendingRetries, SampleOf, FrameLogged;
    if s.inflight != [] && Settled(s.inflight[0], s.fb, now) {
      var one := FirstLogs(cfg, s, now, wall);
      SenderLog.SettleFirstKeeps(cfg, s, now, wall);
      var s1 := SettleFirst(cfg, s, now, wall);
      var rest, j := ResolveLogs(cfg, s1, now, wall);
      events, k := one + rest, j + 1;
      assert s.log + events == s.log + one + rest;
      assert s1.inflight[j..] == s.inflight[k..];
      LogsTogether(one, rest, s.fb, s.inflight, j);
    } else {
      events, k := [], 0;
      assert s.log + [] == s.log;
    }
  }

  lemma LogsTogether(one: seq<Event>, rest: seq<Event>, fb: Feedback, frames: seq<SentFrame>, j: nat)
    requires j < |frames|
    requires forall e :: e in one && e.ControlSample? ==> SampleOf(fb, frames[0], e)
    requires FrameLogged(one, fb, frames[0])
    requires SamplesFrom(rest, fb, frames[1..][..j]) && EachLogged(rest, fb, frames[1..][..j])
    ensures SamplesFrom(one + rest, fb, frames[..j + 1]) && EachLogged(one + rest, fb, frames[..j + 1])
  {
    hide SampleOf;
    var tail, all := frames[1..][..j], frames[..j + 1];
    assert forall i :: 0 <= i < j ==> all[i + 1] == tail[i];
    forall e | e in one + rest && e.ControlSample?
      ensures exists i :: 0 <= i < |all| && SampleOf(fb, all[i], e)
    {
      if e in one {
        assert SampleOf(fb, all[0], e);
      } else {
        var i :| 0 <= i < |tail| && SampleOf(fb, tail[i], e);
        assert SampleOf(fb, all[i + 1], e);
      }
    }
    forall i | 0 <= i < |all|
      ensures FrameLogged(one + rest, fb, all[i])
    {
      if i > 0 {
        assert FrameLogged(rest, fb, tail[i - 1]);
      }
    }
  }

  // ----- A listener step -----

  ghost predicate NoSamples(log: seq<Event>, log': seq<Event>) {
    log <= log' && forall n :: |log| <= n < |log'| ==> !log'[n].ControlSample?
  }

  lemma NoSamplesTransitive(a: seq<Event>, b: seq<Event>, c: seq<Event>)
    requires NoSamples(a, b) && NoSamples(b, c)
    ensures NoSamples(a, c)
  {
    forall n | |a| <= n < |c|
      ensures !c[n].ControlSample?
    {
      if n < |b| {
        assert c[n] == b[n];
      }
    }
  }

  lemma InputLogs(s: Sender, input: Input, now: u64)
    ensures NoSamples(s.log, HandleInput(s, input, now).log)
  {
    hide Acknowledge, ObserveTimes, ObserveWire, UsableAck, Find;
  }

  lemma MarkLogs(s: Sender, now: u64)
    ensures NoSamples(s.log, QueueRetries(s, now).log)
  {
    hide AllDue, RetransmissionLost, DueIn;
  }

  lemma AgeLogs(cfg: Ctl.Config, s: Sender, now: u64)
    ensures NoSamples(s.log, CheckAge(cfg, s, now).log)
  {
    hide OldestUndelivered;
  }

  /** The state in which resolve starts, in a listener step. */
  function AtResolve(cfg: Ctl.Config, s: Sender, input: Input, now: u64): Sender {
    CheckAge(cfg, QueueRetries(HandleInput(s, input, now), now), now)
  }

  lemma ResolveStarts(cfg: Ctl.Config, s: Sender, step: Step)
    requires ValidSender(cfg, s) && SenderLog.LogInv(s) && QueueInv(s) && step.Listen?
    ensures var s3 := AtResolve(cfg, s, step.input, step.now);
      && ValidSender(cfg, s3) && SenderLog.LogInv(s3) && Next(cfg, s, step) == Resolve(cfg, s3, step.now, step.wall)
      && NoSamples(s.log, s3.log) && |s3.inflight| == |s.inflight|
      && forall i :: 0 <= i < |s.inflight| ==> SameRecord(After(s, step, s.inflight[i]), s3.inflight[i])
  {
    hide ValidSender, SenderLog.LogInv, HandleInput, QueueRetries, CheckAge, QueueInv, After, Resolve, SameRecord,
      NoSamples;
    var input, now := step.input, step.now;
    var s1 := HandleInput(s, input, now);
    var s2 := QueueRetries(s1, now);
    HandleInputKeepsValid(cfg, s, input, now);
    QueueRetriesKeepsValid(cfg, s1, now);
    CheckAgeKeepsValid(cfg, s2, now);
    SenderLog.HandleInputKeeps(cfg, s, input, now);
    SenderLog.QueueRetriesKeeps(s1, now);
    SenderLog.CheckAgeKeeps(cfg, s2, now);
    InputLogs(s, input, now);
    MarkLogs(s1, now);
    AgeLogs(cfg, s2, now);
    NoSamplesTransitive(s.log, s1.log, s2.log);
    NoSamplesTransitive(s.log, s2.log, CheckAge(cfg, s2, now).log);
    IdsOf(cfg, s);
    InputRecords(s, s.nextId, step);
    MarkRecords(s1, now);
  }

  /** The frames that leave in listener step n, as resolve finds them: they are the oldest ones in flight, and their
      records are true after the step. */
  ghost predicate Leaving(steps: seq<Step>, states: seq<Sender>, n: nat, frames: seq<SentFrame>)
    requires n < |steps| && n + 1 < |states|
  {
    && |frames| <= |states[n].inflight|
    && (forall i :: 0 <= i < |frames| ==>
          && frames[i].id == states[n].inflight[i].id && Recorded(steps, states, n + 1, frames[i])
          && WasStarted(steps, states, n + 1, frames[i]))
    && var before, after := states[n].inflight, states[n + 1].inflight;
       |after| == |before| - |frames| && forall i :: 0 <= i < |after| ==> after[i].id == before[|frames| + i].id
  }

  /** The frame is done with: it is older than the frame timeout, or it is delivered, and all its probes were
      answered or the last of them has been out for longer than the retransmission delay. */
  predicate Over(f: SentFrame, fb: Feedback, now: u64) {
    || f.createdAt + FRAME_TIMEOUT < now
    || (f.delivered
        && ((forall p :: 0 <= p < |f.probes| ==> f.probes[p].Some?)
            || (f.probesSentAt != 0 && f.probesSentAt + fb.retryDelay < now)))
  }

  /** Frames that leave are done with, and the first one left is not. */
  ghost predicate OverFirst(leave: seq<SentFrame>, stay: seq<SentFrame>, fb: Feedback, now: u64) {
    (forall i :: 0 <= i < |leave| ==> Over(leave[i], fb, now)) && (stay != [] ==> !Over(stay[0], fb, now))
  }

  lemma {:induction false} AllAnswered(probes: seq<Option<RecvAck>>)
    ensures ProbeCount(probes) == |probes| <==> forall p :: 0 <= p < |probes| ==> probes[p].Some?
  {
    if probes != [] {
      AllAnswered(probes[..|probes| - 1]);
    }
  }

  lemma SettledIsOver(f: SentFrame, fb: Feedback, now: u64)
    requires |f.probes| == N_PROBE
    ensures Settled(f, fb, now) <==> Over(f, fb, now)
  {
    AllAnswered(f.probes);
  }

  lemma ResolvesOver(cfg: Ctl.Config, s: Sender, now: u64, wall: nat -> u64, k: nat)
    requires ValidSender(cfg, s) && k <= |s.inflight| && Resolve(cfg, s, now, wall).inflight == s.inflight[k..]
    ensures OverFirst(s.inflight[..k], Resolve(cfg, s, now, wall).inflight, s.fb, now)
  {
    hide Resolve, Settled, Over, Runs.CtlInv, IdsRise, ValidPacer;
    ResolveExhausts(cfg, s, now, wall);
    forall i | 0 <= i < |s.inflight|
      ensures Settled(s.inflight[i], s.fb, now) <==> Over(s.inflight[i], s.fb, now)
    {
      assert ValidFrame(s.inflight[i]);
      SettledIsOver(s.inflight[i], s.fb, now);
    }
  }

  lemma RecordAtResolve(cfg: Ctl.Config, session: u64, steps: seq<Step>, states: seq<Sender>, n: nat, i: nat,
                        f: SentFrame)
    requires Ctl.ValidConfig(cfg) && IsRun(cfg, session, steps, states) && n < |steps| < |states|
    requires i < |states[n].inflight| && SameRecord(After(states[n], steps[n], states[n].inflight[i]), f)
    ensures f.id == states[n].inflight[i].id && Recorded(steps, states, n + 1, f) && WasStarted(steps, states, n + 1, f)
  {
    hide IsRun, Recorded, WasStarted, SameRecord;
    var g := states[n].inflight[i];
    RecordsAreTrue(cfg, session, steps, states, n, i);
    RecordAdds(cfg, session, steps, states, n, g);
    SameRecorded(steps, states, n + 1, After(states[n], steps[n], g), f);
    StartedBefore(steps, states, n, g, f);
    SameIds(states[n], steps[n], g, f);
  }

  lemma SameIds(s: Sender, step: Step, g: SentFrame, f: SentFrame)
    requires SameRecord(After(s, step, g), f)
    ensures f.id == g.id
  {
    hide Handles, Acknowledge;
    if Handles(s, step, g.id) {
      HandledIsAck(s, step, g.id);
      AcknowledgeKeepsStart(g, step.input.a);
    }
  }

  lemma ListenSamples(cfg: Ctl.Config, session: u64, steps: seq<Step>, states: seq<Sender>, n: nat)
    returns (quiet: seq<Event>, frames: seq<SentFrame>, events: seq<Event>)
    requires Ctl.ValidConfig(cfg) && IsRun(cfg, session, steps, states) && n < |steps| < |states| && steps[n].Listen?
    ensures NoSamples(states[n].log, quiet) && states[n + 1].log == quiet + events
    ensures Leaving(steps, states, n, frames)
    ensures SamplesFrom(events, states[n + 1].fb, frames) && EachLogged(events, states[n + 1].fb, frames)
    ensures OverFirst(frames, states[n + 1].inflight, states[n + 1].fb, steps[n].now)
  {
    hide OverFirst, IsRun, ValidSender, SenderLog.LogInv, SendInv, QueueInv, Next, ValidStep, AtResolve, Resolve,
      NoSamples, SamplesFrom, EachLogged, SameRecord, After, Recorded, WasStarted;
    RunStep(cfg, session, steps, states, n);
    RunKeepsSendInv(cfg, session, steps, states, n);
    QueueOfSends(states[n]);
    SenderLog.RunKeepsLogInv(cfg, session, steps, states, n);
    ResolveStarts(cfg, states[n], steps[n]);
    var s3 := AtResolve(cfg, states[n], steps[n].input, steps[n].now);
    var more, k := ResolveLogs(cfg, s3, steps[n].now, steps[n].wall);
    quiet, frames, events := s3.log, s3.inflight[..k], more;
    ResolvesOver(cfg, s3, steps[n].now, steps[n].wall, k);
    forall i | 0 <= i < |s3.inflight|
      ensures s3.inflight[i].id == states[n].inflight[i].id
      ensures Recorded(steps, states, n + 1, s3.inflight[i]) && WasStarted(steps, states, n + 1, s3.inflight[i])
    {
      RecordAtResolve(cfg, session, steps, states, n, i, s3.inflight[i]);
    }
  }

  // ----- Other steps -----

  lemma KeysLogNothing(cfg: Ctl.Config, s: Sender, step: Step)
    requires ValidSender(cfg, s) && !step.Start? && !step.Pace? && !step.Retry? && !step.Listen? && !step.Capture?
    requires !step.Encoded?
    ensures NoSamples(s.log, Next(cfg, s, step).log)
  {
    hide StreamInfoPacket, ValidFrame, IdsRise, ValidPacer, Runs.CtlInv;
  }

  lemma CaptureLogsNothing(cfg: Ctl.Config, s: Sender, step: Step)
    requires ValidSender(cfg, s) && (step.Capture? || step.Encoded?)
    ensures NoSamples(s.log, Next(cfg, s, step).log)
  {
    hide Backlogged, ValidFrame, IdsRise, ValidPacer, Runs.CtlInv;
  }

  lemma OthersLogNothing(cfg: Ctl.Config, s: Sender, step: Step)
    requires ValidSender(cfg, s) && !step.Listen?
    ensures NoSamples(s.log, Next(cfg, s, step).log)
  {
    hide ValidSender, NoSamples;
    match step
    case Start(started, firstSent) => StartLogsNothing(cfg, s, started, firstSent);
    case Pace(now, running) =>
      hide PacerStep;
      PaceParts(cfg, s);
      PacerTouches(s, now, running);
      SameLog(s.log);
    case Retry(now) =>
      hide RetryOne;
      PaceParts(cfg, s);
      var events := RetryLogs(s, now);
      SameLog(s.log);
      RetryLogsNothing(s.log, events);
    case Capture(_) =>
      hide Next;
      CaptureLogsNothing(cfg, s, step);
    case Encoded(_, _) =>
      hide Next;
      CaptureLogsNothing(cfg, s, step);
    case _ =>
      hide Next;
      KeysLogNothing(cfg, s, step);
  }

  lemma StartLogsNothing(cfg: Ctl.Config, s: Sender, started: u64, firstSent: u64)
    requires ValidSender(cfg, s)
    ensures NoSamples(s.log, StartFrame(s, started, firstSent).log)
  {
    hide NewSentFrame, ValidFrame, IdsRise, ValidPacer, Runs.CtlInv;
  }

  lemma SameLog(log: seq<Event>)
    ensures NoSamples(log, log)
  {
  }

  lemma RetryLogsNothing(log: seq<Event>, events: seq<Event>)
    requires forall e :: e in events ==> e.PacketRetransmitted?
    ensures NoSamples(log, log + events)
  {
    assert forall n :: |log| <= n < |log + events| ==> (log + events)[n] in events;
  }

  // ----- Every run -----

  ghost function AnswersAt(steps: seq<Step>, states: seq<Sender>, n: nat, id: u32): (r: seq<Option<RecvAck>>)
    requires n <= |steps| && n <= |states|
    ensures |r| == N_PROBE
  {
    [First(steps, states, n, id, Answers(0)), First(steps, states, n, id, Answers(1)),
     First(steps, states, n, id, Answers(2)), First(steps, states, n, id, Answers(3))]
  }

  /** The sample e, logged in step n, of the frame that step m started: its BUR is what the handled ACKs and the
      minimum one-way delay charge the frame, and its receive rate is the measured one in payload bytes. */
  ghost predicate ChargedFrom(steps: seq<Step>, states: seq<Sender>, m: nat, n: nat, e: Event)
    requires m < n < |steps| && n + 1 < |states|
  {
    && e.ControlSample?
    && var done, fb := First(steps, states, n + 1, e.fid, Completes), states[n + 1].fb;
    && steps[m].Start? && states[m].nextId == e.fid && states[m].pacing >= Ctl.GAMMA_P
    && states[m].queue != [] && done.Some? && fb.minOwd.Some?
    && e.bur == ChargedBur(steps[m].firstSent, done.value.frameRecvTime, fb.minOwd.value,
                           AnswersAt(steps, states, n + 1, e.fid), GapAt(states[m].pacing))
    && var bytes := states[m].queue[0].bytes;
       LegalFrame(bytes) && e.recvRate == PayloadRate(fb.ackRate, |bytes|)
  }

  lemma SampleIsCharged(steps: seq<Step>, states: seq<Sender>, n: nat, f: SentFrame, e: Event)
    requires n < |steps| && n + 1 < |states| && steps[n].Listen?
    requires Recorded(steps, states, n + 1, f) && WasStarted(steps, states, n + 1, f)
    requires SampleOf(states[n + 1].fb, f, e)
    ensures exists m :: 0 <= m < n && ChargedFrom(steps, states, m, n, e)
  {
    hide First, ChargedBur, PayloadRate;
    var m :| 0 <= m < n + 1 && StartOf(states[m], steps[m], f);
    assert m != n;
    assert f.probeGap * 1_000_000.0 == GapAt(states[m].pacing);
    assert f.probes == AnswersAt(steps, states, n + 1, f.id);
    assert ChargedFrom(steps, states, m, n, e);
  }

  /** In every run, every CONTROL_SAMPLE is logged by a listener step, for a delivered frame, and its BUR is exactly
      max(0, delivered - first sent - minimum one-way delay) over the frame interval, plus what the four probes are
      charged; delivered is the time in the first handled ACK that reported the frame complete. */
  lemma SamplesAreCharged(cfg: Ctl.Config, session: u64, steps: seq<Step>, states: seq<Sender>, n: nat, p: nat)
    requires Ctl.ValidConfig(cfg) && IsRun(cfg, session, steps, states) && n < |steps| < |states|
    requires |states[n].log| <= p < |states[n + 1].log| && states[n + 1].log[p].ControlSample?
    ensures steps[n].Listen?
    ensures var e := states[n + 1].log[p]; exists m :: 0 <= m < n && ChargedFrom(steps, states, m, n, e)
  {
    hide IsRun, ChargedFrom, Recorded, WasStarted, SampleOf, Next, ValidSender, ValidStep;
    RunStep(cfg, session, steps, states, n);
    if !steps[n].Listen? {
      OthersLogNothing(cfg, states[n], steps[n]);
      assert false;
    }
    var quiet, frames, events := ListenSamples(cfg, session, steps, states, n);
    var e := states[n + 1].log[p];
    assert p >= |quiet|;
    assert e == events[p - |quiet|];
    var i :| 0 <= i < |frames| && SampleOf(states[n + 1].fb, frames[i], e);
    SampleIsCharged(steps, states, n, frames[i], e);
  }

  ghost predicate Gone(inflight: seq<SentFrame>, id: u32) {
    forall i :: 0 <= i < |inflight| ==> inflight[i].id != id
  }

  lemma Left(steps: seq<Step>, states: seq<Sender>, n: nat, frames: seq<SentFrame>, i: nat)
    requires n < |steps| && n + 1 < |states| && Leaving(steps, states, n, frames) && i < |states[n].inflight|
    ensures i < |frames| || !Gone(states[n + 1].inflight, states[n].inflight[i].id)
  {
    hide Recorded, WasStarted;
    var after := states[n + 1].inflight;
    if |frames| <= i {
      assert after[i - |frames|].id == states[n].inflight[i].id;
    }
  }

  /** In every run, a listener step ends with exactly those frames gone that are done with, in order, up to the first
      that is not. */
  lemma FramesLeaveInOrder(cfg: Ctl.Config, session: u64, steps: seq<Step>, states: seq<Sender>, n: nat)
    returns (frames: seq<SentFrame>)
    requires Ctl.ValidConfig(cfg) && IsRun(cfg, session, steps, states) && n < |steps| < |states| && steps[n].Listen?
    ensures Leaving(steps, states, n, frames)
    ensures OverFirst(frames, states[n + 1].inflight, states[n + 1].fb, steps[n].now)
  {
    hide IsRun, Leaving, OverFirst, NoSamples, SamplesFrom, EachLogged;
    var quiet, leave, events := ListenSamples(cfg, session, steps, states, n);
    frames := leave;
  }

  /** In every run, a frame that leaves the in-flight map in a listener step is sampled then if an ACK reported it
      complete and a minimum one-way delay is known, and is logged as lost if no handled ACK reported it complete. */
  lemma EveryFrameIsSettled(cfg: Ctl.Config, session: u64, steps: seq<Step>, states: seq<Sender>, n: nat, i: nat)
    requires Ctl.ValidConfig(cfg) && IsRun(cfg, session, steps, states) && n < |steps| < |states| && steps[n].Listen?
    requires i < |states[n].inflight| && Gone(states[n + 1].inflight, states[n].inflight[i].id)
    ensures states[n].log <= states[n + 1].log
    ensures var id, more := states[n].inflight[i].id, states[n + 1].log[|states[n].log|..];
      if First(steps, states, n + 1, id, Completes).Some?
      then states[n + 1].fb.minOwd.Some? ==> exists e :: e in more && e.ControlSample? && e.fid == id
      else FrameLoss(id) in more
  {
    hide IsRun, WasStarted, SampleOf, SamplesFrom, First;
    var quiet, frames, events := ListenSamples(cfg, session, steps, states, n);
    Left(steps, states, n, frames, i);
    assert FrameLogged(events, states[n + 1].fb, frames[i]);
    assert Recorded(steps, states, n + 1, frames[i]);
    var more := states[n + 1].log[|states[n].log|..];
    assert more == quiet[|states[n].log|..] + events;
  }
}
