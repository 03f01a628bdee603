/** Every finished run of the sender leaves a log that evaluations/sift.py accepts. */
module SenderLog {
  import opened Bytes
  import opened Protocol
  import opened EventLog
  import opened Reassembly
  import opened Packetizer
  import opened Sift
  import Ctl = Controller
  import Runs = ControllerRuns
  import Theorems = ControllerTheorems
  import opened Sender
  import opened SenderRuns

  // ----- Events the checker's first loop ignores -----

  predicate Unscanned(e: Event) {
    !e.FrameSent? && !e.FrameDelivered? && !e.FrameLoss? && !e.ControlSample? && !e.ProbeSummary?
  }

  ghost predicate AllUnscanned(events: seq<Event>) {
    forall e :: e in events ==> Unscanned(e)
  }

  lemma ScanAppendOne(log: seq<Event>, e: Event)
    ensures ScanAll(log + [e]) == ScanEvent(ScanAll(log), e)
    ensures Samples(log + [e]) == Samples(log) + if e.ControlSample? then [e] else []
  {
    assert (log + [e])[..|log|] == log;
  }

  lemma {:induction false} ScanIgnores(log: seq<Event>, events: seq<Event>)
    requires AllUnscanned(events)
    ensures ScanAll(log + events) == ScanAll(log) && Samples(log + events) == Samples(log)
  {
    hide ScanAll, Samples, ScanEvent, Unscanned;
    if events == [] {
      assert log + events == log;
    } else {
      var before, last := events[..|events| - 1], events[|events| - 1];
      ScanIgnores(log, before);
      ScanAppendOne(log + before, last);
      assert log + events == (log + before) + [last];
      UnscannedEvent(ScanAll(log), last);
      assert !last.ControlSample? by {
        assert last in events;
        UnscannedKind(last);
      }
      assert Samples(log) + [] == Samples(log);
    }
  }

  lemma UnscannedKind(e: Event)
    requires Unscanned(e)
    ensures !e.ControlSample?
  {
  }

  lemma UnscannedEvent(s: Scan, e: Event)
    requires Unscanned(e)
    ensures ScanEvent(s, e) == s
  {
    assert s.bad + [] == s.bad;
  }

  // ----- The log invariant -----

  ghost predicate InFlight(inflight: seq<SentFrame>, fid: u32) {
    exists i :: 0 <= i < |inflight| && inflight[i].id == fid
  }

  /** What the checker has seen of each frame, given the frames in flight. */
  ghost predicate FramesAccounted(s: Scan, inflight: seq<SentFrame>, nextId: nat, lastSample: nat) {
    && s.bad == []
    && (forall fid: u32 :: fid in s.sent <==> 1 <= fid < nextId)
    && s.summaries <= s.sent && s.delivered <= s.sent && s.lost <= s.sent && s.lost !! s.delivered
    && (forall i :: 0 <= i < |inflight| ==>
          var f := inflight[i];
          && f.id in s.sent && f.id !in s.lost && f.id !in s.summaries
          && (f.id in s.delivered <==> f.delivered) && f.id > lastSample)
    && (forall fid: u32 :: fid in s.sent && !InFlight(inflight, fid) ==>
          fid in s.summaries && (fid in s.delivered || fid in s.lost))
    && (forall fid: u32 :: fid in s.samples ==> fid <= lastSample && fid in s.delivered)
  }

  ghost predicate ThreeCongested(samples: map<u32, real>, fid: nat) {
    && fid >= 2
    && fid in samples && samples[fid] > 1.0
    && fid - 1 in samples && samples[fid - 1] > 1.0
    && fid - 2 in samples && samples[fid - 2] > 1.0
  }

  ghost predicate DrainsJustified(log: seq<Event>, samples: map<u32, real>) {
    forall e :: e in log && CheckedDrain(e) ==> ThreeCongested(samples, e.fid)
  }

  /** The checker's sample map holds the logged samples. */
  ghost predicate SamplesHeld(logged: seq<Event>, samples: map<u32, real>)
    requires forall e :: e in logged ==> e.ControlSample?
  {
    forall e :: e in logged ==> e.fid in samples && samples[e.fid] == e.bur
  }

  ghost predicate LogInv(s: Sender) {
    var scan := ScanAll(s.log);
    && FramesAccounted(scan, s.inflight, s.nextId, s.ctl.lastSampleId)
    && SamplesHeld(Samples(s.log), scan.samples)
    && DrainsJustified(s.log, scan.samples)
    && Runs.CongestionInv(s.ctl, Samples(s.log))
  }

  lemma InitLogInv(cfg: Ctl.Config, session: u64)
    requires Ctl.ValidConfig(cfg)
    ensures LogInv(Init(cfg, session))
  {
  }

  // ----- Steps that only log what the checker ignores -----

  /** Events that neither loop of the checker looks at. */
  ghost predicate Quiet(events: seq<Event>) {
    AllUnscanned(events) && forall e :: e in events ==> !CheckedDrain(e)
  }

  lemma QuietKeepsDrains(log: seq<Event>, events: seq<Event>, samples: map<u32, real>)
    requires DrainsJustified(log, samples) && Quiet(events)
    ensures DrainsJustified(log + events, samples)
  {
  }

  lemma SameFlightAccounted(s: Scan, a: seq<SentFrame>, b: seq<SentFrame>, nextId: nat, lastSample: nat)
    requires FramesAccounted(s, a, nextId, lastSample) && SameFlight(a, b)
    ensures FramesAccounted(s, b, nextId, lastSample)
  {
    forall fid: u32 | InFlight(a, fid)
      ensures InFlight(b, fid)
    {
      var i :| 0 <= i < |a| && a[i].id == fid;
      assert b[i].id == fid;
    }
  }

  lemma QuietStep(s: Sender, s': Sender, events: seq<Event>)
    requires LogInv(s) && Quiet(events)
    requires s'.log == s.log + events && s'.nextId == s.nextId && SameFlight(s.inflight, s'.inflight)
    requires s'.ctl.lastSampleId == s.ctl.lastSampleId && Runs.CongestionInv(s'.ctl, Samples(s.log))
    ensures LogInv(s')
  {
    hide FramesAccounted, Runs.CongestionInv, SamplesHeld, DrainsJustified, SameFlight;
    ScanIgnores(s.log, events);
    QuietKeepsDrains(s.log, events, ScanAll(s.log).samples);
    SameFlightAccounted(ScanAll(s.log), s.inflight, s'.inflight, s.nextId, s.ctl.lastSampleId);
  }

  lemma SilentStep(s: Sender, s': Sender)
    requires LogInv(s)
    requires s'.log == s.log && s'.nextId == s.nextId && s'.ctl == s.ctl && SameFlight(s.inflight, s'.inflight)
    ensures LogInv(s')
  {
    hide FramesAccounted, Runs.CongestionInv, SamplesHeld, DrainsJustified, SameFlight, ScanAll;
    assert s.log == s.log + [];
    QuietStep(s, s', []);
  }

  /** A controller call other than a sample logs nothing the checker looks at. */
  lemma CallIsQuiet(cfg: Ctl.Config, c: Ctl.Ctl, op: Runs.Op, samples: seq<Event>)
    requires Ctl.ValidConfig(cfg) && !op.Acked? && Runs.CtlInv(cfg, c)
    requires (forall e :: e in samples ==> e.ControlSample?) && Runs.CongestionInv(c, samples)
    ensures var (c', events) := Runs.Apply(cfg, c, op);
      Quiet(events) && Runs.CongestionInv(c', samples) && c'.lastSampleId == c.lastSampleId
  {
    hide Runs.RunLength, Runs.RecvSum, Runs.RatesInv;
  }

  // ----- A frame is sent, is delivered -----

  lemma LastSampleSent(s: Scan, inflight: seq<SentFrame>, nextId: nat, c: Ctl.Ctl, logged: seq<Event>)
    requires forall e :: e in logged ==> e.ControlSample?
    requires FramesAccounted(s, inflight, nextId, c.lastSampleId) && SamplesHeld(logged, s.samples)
    requires Runs.CongestionInv(c, logged) && nextId >= 1
    ensures c.lastSampleId < nextId
  {
    hide Runs.RunLength, Runs.RecvSum;
    if logged != [] {
      assert logged[|logged| - 1] in logged;
    }
  }

  lemma SentAccounted(s: Scan, inflight: seq<SentFrame>, nextId: nat, lastSample: nat, f: SentFrame, bytes: nat)
    requires FramesAccounted(s, inflight, nextId, lastSample) && 1 <= nextId < UINT32_MAX && lastSample < nextId
    requires f.id == nextId && !f.delivered
    ensures FramesAccounted(ScanEvent(s, FrameSent(f.id, bytes)), inflight + [f], nextId + 1, lastSample)
    ensures ScanEvent(s, FrameSent(f.id, bytes)).samples == s.samples
  {
    var all := inflight + [f];
    forall fid: u32
      ensures InFlight(all, fid) <==> InFlight(inflight, fid) || fid == f.id
    {
      assert all[|inflight|] == f;
      assert forall i :: 0 <= i < |inflight| ==> all[i] == inflight[i];
    }
  }

  lemma DeliveredAccounted(s: Scan, inflight: seq<SentFrame>, nextId: nat, lastSample: nat, i: nat, f: SentFrame,
                           lossy: bool)
    requires FramesAccounted(s, inflight, nextId, lastSample) && IdsRise(inflight, nextId)
    requires i < |inflight| && !inflight[i].delivered && f.delivered && f.id == inflight[i].id
    ensures FramesAccounted(ScanEvent(s, FrameDelivered(f.id, lossy)), inflight[i := f], nextId, lastSample)
    ensures ScanEvent(s, FrameDelivered(f.id, lossy)).samples == s.samples
  {
    var all := inflight[i := f];
    forall fid: u32
      ensures InFlight(all, fid) <==> InFlight(inflight, fid)
    {
      assert forall k :: 0 <= k < |inflight| ==> all[k].id == inflight[k].id;
    }
  }

  // ----- A frame leaves the in-flight map -----

  lemma TailInFlight(inflight: seq<SentFrame>, nextId: nat, fid: u32)
    requires inflight != [] && IdsRise(inflight, nextId)
    ensures InFlight(inflight, fid) <==> fid == inflight[0].id || InFlight(inflight[1..], fid)
    ensures !InFlight(inflight[1..], inflight[0].id)
  {
    var tail := inflight[1..];
    assert forall i :: 0 <= i < |tail| ==> tail[i] == inflight[i + 1];
    if InFlight(inflight, fid) && fid != inflight[0].id {
      var i :| 0 <= i < |inflight| && inflight[i].id == fid;
      assert tail[i - 1].id == fid;
    }
  }

  lemma LeavesLost(s: Scan, inflight: seq<SentFrame>, nextId: nat, lastSample: nat)
    requires FramesAccounted(s, inflight, nextId, lastSample) && IdsRise(inflight, nextId)
    requires inflight != [] && !inflight[0].delivered && |inflight[0].probes| == N_PROBE
    ensures var f := inflight[0];
      var s' := ScanEvent(ScanEvent(s, FrameLoss(f.id)), SummaryOf(f));
      FramesAccounted(s', inflight[1..], nextId, lastSample) && s'.samples == s.samples
  {
    hide InFlight;
    forall fid: u32
      ensures InFlight(inflight, fid) <==> fid == inflight[0].id || InFlight(inflight[1..], fid)
      ensures !InFlight(inflight[1..], inflight[0].id)
    {
      TailInFlight(inflight, nextId, fid);
    }
  }

  lemma LeavesDelivered(s: Scan, inflight: seq<SentFrame>, nextId: nat, lastSample: nat)
    requires FramesAccounted(s, inflight, nextId, lastSample) && IdsRise(inflight, nextId)
    requires inflight != [] && inflight[0].delivered && |inflight[0].probes| == N_PROBE
    ensures var f := inflight[0];
      var s' := ScanEvent(s, SummaryOf(f));
      FramesAccounted(s', inflight[1..], nextId, lastSample) && s'.samples == s.samples
  {
    hide InFlight;
    forall fid: u32
      ensures InFlight(inflight, fid) <==> fid == inflight[0].id || InFlight(inflight[1..], fid)
      ensures !InFlight(inflight[1..], inflight[0].id)
    {
      TailInFlight(inflight, nextId, fid);
    }
  }

  lemma LeavesSampled(s: Scan, inflight: seq<SentFrame>, nextId: nat, lastSample: nat, e: Event)
    requires FramesAccounted(s, inflight, nextId, lastSample) && IdsRise(inflight, nextId)
    requires inflight != [] && inflight[0].delivered && |inflight[0].probes| == N_PROBE
    requires e.ControlSample? && e.fid == inflight[0].id && e.nProbes == 4 && e.pacing >= 1.0
    ensures var f := inflight[0];
      var s' := ScanEvent(ScanEvent(s, e), SummaryOf(f));
      && FramesAccounted(s', inflight[1..], nextId, f.id)
      && s'.samples == s.samples[e.fid := e.bur] && e.fid !in s.samples
  {
    hide InFlight;
    assert s.bad + [] + [] + [] == [];
    forall fid: u32
      ensures InFlight(inflight, fid) <==> fid == inflight[0].id || InFlight(inflight[1..], fid)
      ensures !InFlight(inflight[1..], inflight[0].id)
    {
      TailInFlight(inflight, nextId, fid);
    }
  }

  /** Three consecutive congested samples, ending with this one, are in the checker's map. */
  lemma RunIsHeld(logged: seq<Event>, samples: map<u32, real>, e: Event)
    requires (forall x :: x in logged ==> x.ControlSample?) && e.ControlSample?
    requires SamplesHeld(logged + [e], samples) && Runs.CongestedRun(logged + [e], 3)
    ensures ThreeCongested(samples, e.fid)
  {
    var all := logged + [e];
    var n := |all|;
    assert all[n - 1] in all && all[n - 2] in all && all[n - 3] in all;
    assert all[n - 1].fid == all[n - 2].fid + 1 && all[n - 2].fid == all[n - 3].fid + 1;
  }

  lemma HeldGrows(logged: seq<Event>, samples: map<u32, real>, e: Event)
    requires (forall x :: x in logged ==> x.ControlSample?) && e.ControlSample?
    requires SamplesHeld(logged, samples) && e.fid !in samples
    ensures SamplesHeld(logged + [e], samples[e.fid := e.bur])
  {
  }

  lemma JustifiedGrows(log: seq<Event>, samples: map<u32, real>, fid: u32, bur: real)
    requires DrainsJustified(log, samples) && fid !in samples
    ensures DrainsJustified(log, samples[fid := bur])
  {
  }

  // ----- resolve -----

  lemma SummaryLogged(s: Sender, s': Sender)
    requires LogInv(s) && IdsRise(s.inflight, s.nextId)
    requires s.inflight != [] && s.inflight[0].delivered && |s.inflight[0].probes| == N_PROBE
    requires s'.log == s.log + [SummaryOf(s.inflight[0])]
    requires s'.inflight == s.inflight[1..] && s'.nextId == s.nextId && s'.ctl == s.ctl
    ensures LogInv(s')
  {
    hide FramesAccounted, Runs.CongestionInv, SamplesHeld, ScanAll, ScanEvent, Samples, IdsRise;
    ScanAppendOne(s.log, SummaryOf(s.inflight[0]));
    LeavesDelivered(ScanAll(s.log), s.inflight, s.nextId, s.ctl.lastSampleId);
    assert Samples(s.log) + [] == Samples(s.log);
  }

  lemma LossLogged(s: Sender, s': Sender, events: seq<Event>)
    requires LogInv(s) && IdsRise(s.inflight, s.nextId)
    requires s.inflight != [] && !s.inflight[0].delivered && |s.inflight[0].probes| == N_PROBE
    requires Quiet(events)
    requires s'.log == s.log + [FrameLoss(s.inflight[0].id)] + events + [SummaryOf(s.inflight[0])]
    requires s'.inflight == s.inflight[1..] && s'.nextId == s.nextId
    requires s'.ctl.lastSampleId == s.ctl.lastSampleId && Runs.CongestionInv(s'.ctl, Samples(s.log))
    ensures LogInv(s')
  {
    hide FramesAccounted, Runs.CongestionInv, SamplesHeld, ScanAll, ScanEvent, Samples, IdsRise;
    var loss, summary := FrameLoss(s.inflight[0].id), SummaryOf(s.inflight[0]);
    ScanAppendOne(s.log, loss);
    ScanIgnores(s.log + [loss], events);
    ScanAppendOne(s.log + [loss] + events, summary);
    LeavesLost(ScanAll(s.log), s.inflight, s.nextId, s.ctl.lastSampleId);
    assert Samples(s.log) + [] == Samples(s.log);
  }

  lemma SampleLogged(s: Sender, s': Sender, quiet: seq<Event>, e: Event)
    requires LogInv(s) && IdsRise(s.inflight, s.nextId)
    requires s.inflight != [] && s.inflight[0].delivered && |s.inflight[0].probes| == N_PROBE
    requires e.ControlSample? && e.fid == s.inflight[0].id && e.nProbes == 4 && e.pacing >= 1.0
    requires AllUnscanned(quiet)
    requires forall d :: d in quiet && CheckedDrain(d) ==> d.fid == e.fid && Runs.CongestedRun(Samples(s.log) + [e], 3)
    requires s'.log == s.log + (quiet + [e]) + [SummaryOf(s.inflight[0])]
    requires s'.inflight == s.inflight[1..] && s'.nextId == s.nextId
    requires s'.ctl.lastSampleId == e.fid && Runs.CongestionInv(s'.ctl, Samples(s.log) + [e])
    ensures LogInv(s')
  {
    hide FramesAccounted, Runs.CongestionInv, SamplesHeld, ScanAll, ScanEvent, Samples, IdsRise, Unscanned,
      Runs.CongestedRun, ThreeCongested;
    var f, scan := s.inflight[0], ScanAll(s.log);
    ScanIgnores(s.log, quiet);
    ScanAppendOne(s.log + quiet, e);
    ScanAppendOne(s.log + quiet + [e], SummaryOf(f));
    assert s.log + (quiet + [e]) == s.log + quiet + [e];
    LeavesSampled(scan, s.inflight, s.nextId, s.ctl.lastSampleId, e);
    var samples := scan.samples[e.fid := e.bur];
    HeldGrows(Samples(s.log), scan.samples, e);
    JustifiedGrows(s.log, scan.samples, e.fid, e.bur);
    if Runs.CongestedRun(Samples(s.log) + [e], 3) {
      RunIsHeld(Samples(s.log), samples, e);
    }
    assert Samples(s'.log) == Samples(s.log) + [e] by {
      assert Samples(s.log) + [e] + [] == Samples(s.log) + [e];
    }
    assert ScanAll(s'.log).samples == samples;
    assert forall d :: d in s'.log && CheckedDrain(d) ==> d in s.log || d in quiet;
    assert DrainsJustified(s'.log, samples);
  }

  /** A sample passes the checker, and so does a drain it starts. */
  lemma AckedIsLegal(cfg: Ctl.Config, c: Ctl.Ctl, fa: Ctl.FrameAck, logged: seq<Event>)
    returns (quiet: seq<Event>, e: Event)
    requires Ctl.ValidConfig(cfg) && Ctl.ValidAck(fa) && fa.fid > c.lastSampleId && |fa.probes| == N_PROBE
    requires (forall x :: x in logged ==> x.ControlSample?) && Runs.Inv(cfg, c, logged)
    ensures Ctl.ValidCtl(c) && Ctl.OnFrameAcked(cfg, c, fa).2 == quiet + [e]
    ensures AllUnscanned(quiet)
    ensures e.ControlSample? && e.fid == fa.fid && e.nProbes == 4 && e.pacing >= 1.0
    ensures forall d :: d in quiet && CheckedDrain(d) ==> d.fid == e.fid && Runs.CongestedRun(logged + [e], 3)
    ensures var c' := Ctl.OnFrameAcked(cfg, c, fa).0;
      c'.lastSampleId == fa.fid && Runs.CongestionInv(c', logged + [e])
  {
    hide Ctl.OnFrameAcked, Ctl.Observe, Ctl.Verdict, Ctl.FrameBur, Runs.CongestionInv, Runs.RatesInv, Runs.FallbackInv,
      Runs.CongestedRun, Ctl.ValidAck, Ctl.PacingMultiplier;
    Runs.CtlInvValid(cfg, c);
    Runs.AckedStages(cfg, c, fa);
    Runs.AckedKeepsCongestion(cfg, c, fa, logged);
    Theorems.DrainStep(cfg, c, fa, logged);
    Theorems.DrainsNameTheirFrame(cfg, c, fa);
    var (c1, seen, smooth) := Ctl.Observe(cfg, c, fa);
    var (c2, verdict) := Ctl.Verdict(cfg, c1, fa, smooth);
    var (c', out, events) := Ctl.OnFrameAcked(cfg, c, fa);
    quiet := seen + verdict;
    e := Ctl.SampleEvent(c', fa, Ctl.FrameBur(fa));
    forall d | d in quiet && CheckedDrain(d)
      ensures d.fid == e.fid && Runs.CongestedRun(logged + [e], 3)
    {
      assert d in events;
      assert Theorems.StartsDrain(events);
    }
  }

  lemma SettleFirstKeeps(cfg: Ctl.Config, s: Sender, now: u64, wall: nat -> u64)
    requires ValidSender(cfg, s) && LogInv(s) && s.inflight != []
    ensures LogInv(SettleFirst(cfg, s, now, wall))
  {
    hide LogInv, ValidFrame, IdsRise, Ctl.OnFrameAcked, Ctl.OnFrameLoss, MakeAck, Runs.CtlInv, ScanAll, Samples,
      Runs.CongestionInv;
    var f := s.inflight[0];
    var s' := SettleFirst(cfg, s, now, wall);
    assert ValidFrame(f);
    ValidFrameParts(f);
    LogInvParts(s);
    if f.delivered && s.fb.minOwd.Some? {
      MakeAckValid(s, f, s.fb.minOwd.value, now, wall(f.id));
      var fa := MakeAck(s, f, s.fb.minOwd.value, now, wall(f.id));
      FrontUnsampled(s);
      InvOf(cfg, s.ctl, Samples(s.log));
      var quiet, e := AckedIsLegal(cfg, s.ctl, fa, Samples(s.log));
      SampleLogged(s, s', quiet, e);
    } else if f.delivered {
      SummaryLogged(s, s');
    } else {
      var gap := if s.fb.srtt.Floor > 2 * INTERVAL then s.fb.srtt.Floor else 2 * INTERVAL;
      CallIsQuiet(cfg, s.ctl, Runs.FrameLost(now, U64(gap)), Samples(s.log));
      LossLogged(s, s', Ctl.OnFrameLoss(cfg, s.ctl, now, U64(gap)).1);
    }
  }

  lemma ValidFrameParts(f: SentFrame)
    requires ValidFrame(f)
    ensures LegalFrame(f.bytes) && |f.probes| == N_PROBE
  {
  }

  lemma LogInvParts(s: Sender)
    requires LogInv(s)
    ensures Runs.CongestionInv(s.ctl, Samples(s.log))
  {
  }

  lemma InvOf(cfg: Ctl.Config, c: Ctl.Ctl, logged: seq<Event>)
    requires (forall x :: x in logged ==> x.ControlSample?) && Runs.CtlInv(cfg, c) && Runs.CongestionInv(c, logged)
    ensures Runs.Inv(cfg, c, logged)
  {
  }

  lemma FrontUnsampled(s: Sender)
    requires LogInv(s) && s.inflight != []
    ensures s.inflight[0].id > s.ctl.lastSampleId
  {
  }

  lemma {:induction false} ResolveKeeps(cfg: Ctl.Config, s: Sender, now: u64, wall: nat -> u64)
    requires ValidSender(cfg, s) && LogInv(s)
    ensures LogInv(Resolve(cfg, s, now, wall))
    decreases |s.inflight|
  {
    hide ValidSender, LogInv, SettleFirst, Settled;
    if s.inflight != [] && Settled(s.inflight[0], s.fb, now) {
      SettleFirstKeeps(cfg, s, now, wall);
      ResolveKeeps(cfg, SettleFirst(cfg, s, now, wall), now, wall);
    } else {
      LimitsKeep(s);
    }
  }

  lemma LimitsKeep(s: Sender)
    requires LogInv(s)
    ensures LogInv(Limits(s))
  {
    hide LogInv, PendingRetries;
    SilentStep(s, Limits(s));
  }

  // ----- The other steps -----

  lemma CaptureKeeps(cfg: Ctl.Config, s: Sender, capturedAt: u64)
    requires ValidSender(cfg, s) && LogInv(s)
    ensures LogInv(CaptureFrame(cfg, s, capturedAt))
  {
    hide ValidFrame, IdsRise, LogInv, Backlogged, Runs.CtlInv, ValidPacer, Runs.CongestionInv, Ctl.TakeEncodingBitrate;
    var s' := CaptureFrame(cfg, s, capturedAt);
    LogInvParts(s);
    if !s.capture.CaptureIdle? {
    } else if Backlogged(cfg, s) {
      QuietStep(s, s', [FrameSkipped]);
    } else {
      CallIsQuiet(cfg, s.ctl, Runs.TakeEncoding, Samples(s.log));
      QuietStep(s, s', Ctl.TakeEncodingBitrate(cfg, s.ctl).2);
    }
  }

  lemma FailKeeps(s: Sender)
    requires LogInv(s)
    ensures LogInv(Fail(s))
  {
    hide LogInv, Runs.CongestionInv;
    LogInvParts(s);
    QuietStep(s, Fail(s), [Failed]);
  }

  lemma PushFrameKeeps(s: Sender, bytes: seq<byte>, keyframe: bool)
    requires LogInv(s)
    ensures LogInv(PushFrame(s, bytes, keyframe))
  {
    hide LogInv, Fail;
    if s.capture.Encoding? {
      var idle := s.(capture := CaptureIdle);
      SilentStep(s, idle);
      FailKeeps(idle);
      var encoded := EncodedFrame(bytes, s.capture.target, keyframe, s.capture.epoch, s.capture.capturedAt);
      SilentStep(s, idle.(queue := s.queue + [encoded]));
    }
  }

  lemma SentKeeps(s: Sender, s': Sender, f: SentFrame, bytes: nat)
    requires LogInv(s) && IdsRise(s.inflight, s.nextId) && s.nextId < UINT32_MAX && f.id == s.nextId && !f.delivered
    requires s'.log == s.log + [FrameSent(f.id, bytes)] && s'.inflight == s.inflight + [f] && s'.nextId == s.nextId + 1
    requires s'.ctl == s.ctl
    ensures LogInv(s')
  {
    hide FramesAccounted, Runs.CongestionInv, SamplesHeld, ScanAll, ScanEvent, Samples;
    LastSampleSent(ScanAll(s.log), s.inflight, s.nextId, s.ctl, Samples(s.log));
    ScanAppendOne(s.log, FrameSent(f.id, bytes));
    SentAccounted(ScanAll(s.log), s.inflight, s.nextId, s.ctl.lastSampleId, f, bytes);
    assert Samples(s.log) + [] == Samples(s.log);
  }

  lemma StartKeeps(cfg: Ctl.Config, s: Sender, started: u64, firstSent: u64)
    requires ValidSender(cfg, s) && LogInv(s)
    ensures LogInv(StartFrame(s, started, firstSent))
  {
    hide ValidFrame, LogInv, Runs.CtlInv, ValidPacer, Fail, ProbeGap;
    if s.pacer.PacerIdle? && s.queue != [] {
      var rest := s.(queue := s.queue[1..]);
      SilentStep(s, rest);
      if s.nextId >= UINT32_MAX {
        FailKeeps(rest);
      } else {
        SentKeeps(s, StartFrame(s, started, firstSent),
                  NewSentFrame(s.nextId, s.queue[0], started, firstSent, s.pacing),
                  |s.queue[0].bytes|);
      }
    }
  }

  lemma PaceKeeps(cfg: Ctl.Config, s: Sender, now: u64, running: bool)
    requires ValidSender(cfg, s) && LogInv(s)
    ensures LogInv(PacerStep(s, now, running))
  {
    hide LogInv, SameFlight, PacerStep, ValidFrame, ValidPacer, IdsRise, Runs.CtlInv;
    PacerTouches(s, now, running);
    SilentStep(s, PacerStep(s, now, running));
  }

  lemma RetransmissionsAreQuiet(events: seq<Event>)
    requires forall e :: e in events ==> e.PacketRetransmitted?
    ensures Quiet(events)
  {
  }

  lemma RetryKeeps(cfg: Ctl.Config, s: Sender, now: u64)
    requires ValidSender(cfg, s) && LogInv(s)
    ensures LogInv(RetryOne(s, now))
  {
    hide LogInv, RetryOne, ValidFrame, IdsRise, ValidPacer, SameFlight, Quiet, Runs.CongestionInv, Runs.CtlInv;
    LogInvParts(s);
    var events := RetryLogs(s, now);
    RetransmissionsAreQuiet(events);
    QuietStep(s, RetryOne(s, now), events);
  }

  // ----- The listener -----

  lemma AcknowledgeDelivers(f: SentFrame, a: RecvAck)
    ensures var f' := Acknowledge(f, a);
      f'.id == f.id && f'.epoch == f.epoch && (f.delivered ==> f'.delivered)
  {
  }

  lemma HandleAckKeeps(s: Sender, a: RecvAck, now: u64)
    requires LogInv(s) && IdsRise(s.inflight, s.nextId)
    ensures LogInv(HandleAck(s, a, now))
  {
    hide LogInv, Acknowledge, ObserveTimes, ObserveWire, UsableAck, IdsRise, Find;
    var i := Find(s.inflight, a.frameId);
    if i.Some? && UsableAck(s.inflight[i.value], a, now) {
      var f := s.inflight[i.value];
      AcknowledgeDelivers(f, a);
      if !f.delivered && Acknowledge(f, a).delivered {
        DeliveryLogged(s, HandleAck(s, a, now), i.value, Acknowledge(f, a));
      } else {
        SilentStep(s, HandleAck(s, a, now));
      }
    }
  }

  lemma DeliveryLogged(s: Sender, s': Sender, i: nat, f: SentFrame)
    requires LogInv(s) && IdsRise(s.inflight, s.nextId)
    requires i < |s.inflight| && !s.inflight[i].delivered && f.delivered && f.id == s.inflight[i].id
    requires s'.log == s.log + [FrameDelivered(f.id, f.loss)] && s'.inflight == s.inflight[i := f]
    requires s'.nextId == s.nextId && s'.ctl == s.ctl
    ensures LogInv(s')
  {
    hide FramesAccounted, Runs.CongestionInv, SamplesHeld, ScanAll, ScanEvent, Samples, IdsRise;
    ScanAppendOne(s.log, FrameDelivered(f.id, f.loss));
    DeliveredAccounted(ScanAll(s.log), s.inflight, s.nextId, s.ctl.lastSampleId, i, f, f.loss);
    assert Samples(s.log) + [] == Samples(s.log);
  }

  lemma HandleInputKeeps(cfg: Ctl.Config, s: Sender, input: Input, now: u64)
    requires ValidSender(cfg, s) && LogInv(s)
    ensures LogInv(HandleInput(s, input, now))
  {
    hide LogInv, HandleAck, ValidFrame, IdsRise, ValidPacer, Runs.CongestionInv, Runs.CtlInv;
    match input
    case NoDatagram =>
    case KeyRequest(fid, served) =>
      LogInvParts(s);
      if served {
        QuietStep(s, HandleInput(s, input, now), [KeyframeRequested(fid)]);
      }
    case Ack(a) => HandleAckKeeps(s, a, now);
  }

  lemma QueueRetriesKeeps(s: Sender, now: u64)
    requires LogInv(s)
    ensures LogInv(QueueRetries(s, now))
  {
    hide LogInv, Runs.CongestionInv, AllDue, RetransmissionLost, DueIn;
    LogInvParts(s);
    var s' := QueueRetries(s, now);
    if s'.log == s.log {
      SilentStep(s, s');
    } else {
      QuietStep(s, s', [RetransLoss(s.ctl.rate)]);
    }
  }

  lemma CheckAgeKeeps(cfg: Ctl.Config, s: Sender, now: u64)
    requires ValidSender(cfg, s) && LogInv(s)
    ensures LogInv(CheckAge(cfg, s, now))
  {
    hide LogInv, ValidFrame, IdsRise, ValidPacer, Runs.CongestionInv, Runs.CtlInv, OldestUndelivered, Ctl.OnInflightAge;
    var oldest := OldestUndelivered(s.inflight);
    if oldest.Some? {
      LogInvParts(s);
      var age, base := Sub64(now, oldest.value.createdAt), BaseRtt(s.fb);
      CallIsQuiet(cfg, s.ctl, Runs.InflightAge(age, base), Samples(s.log));
      QuietStep(s, CheckAge(cfg, s, now), Ctl.OnInflightAge(cfg, s.ctl, age, base).2);
    }
  }

  lemma TimersKeep(cfg: Ctl.Config, s: Sender, now: u64, wall: nat -> u64)
    requires ValidSender(cfg, s) && LogInv(s)
    ensures LogInv(Timers(cfg, s, now, wall))
  {
    hide LogInv, ValidSender, QueueRetries, CheckAge, Resolve;
    QueueRetriesKeepsValid(cfg, s, now);
    CheckAgeKeepsValid(cfg, QueueRetries(s, now), now);
    QueueRetriesKeeps(s, now);
    CheckAgeKeeps(cfg, QueueRetries(s, now), now);
    ResolveKeeps(cfg, CheckAge(cfg, QueueRetries(s, now), now), now, wall);
  }

  lemma KeysKeep(cfg: Ctl.Config, s: Sender, step: Step)
    requires ValidSender(cfg, s) && LogInv(s)
    requires step.KeyLoss? || step.KeyClear? || step.KeyDrain?
    ensures LogInv(Next(cfg, s, step))
  {
    hide LogInv, ValidFrame, IdsRise, ValidPacer, Runs.CongestionInv, Runs.CtlInv, Ctl.OnFrameLoss, Ctl.ForceDrain;
    LogInvParts(s);
    match step
    case KeyLoss =>
      CallIsQuiet(cfg, s.ctl, Runs.FrameLost(0, 0), Samples(s.log));
      QuietStep(s, Next(cfg, s, step), Ctl.OnFrameLoss(cfg, s.ctl, 0, 0).1);
    case KeyClear =>
      CallIsQuiet(cfg, s.ctl, Runs.ClearedHistory, Samples(s.log));
      QuietStep(s, Next(cfg, s, step), []);
    case KeyDrain =>
      CallIsQuiet(cfg, s.ctl, Runs.ForcedDrain, Samples(s.log));
      QuietStep(s, Next(cfg, s, step), []);
  }

  /** Every step of the sender keeps the log invariant. */
  lemma NextKeepsLogInv(cfg: Ctl.Config, s: Sender, step: Step)
    requires ValidSender(cfg, s) && ValidStep(s, step) && LogInv(s)
    ensures LogInv(Next(cfg, s, step))
  {
    hide LogInv;
    match step
    case Capture(capturedAt) =>
      hide ValidSender, CaptureFrame;
      CaptureKeeps(cfg, s, capturedAt);
    case Encoded(bytes, keyframe) =>
      hide ValidSender, PushFrame;
      PushFrameKeeps(s, bytes, keyframe);
    case Start(started, firstSent) =>
      hide ValidSender, StartFrame;
      StartKeeps(cfg, s, started, firstSent);
    case Pace(now, running) =>
      hide ValidSender, PacerStep;
      PaceKeeps(cfg, s, now, running);
    case Retry(now) =>
      hide ValidSender, RetryOne;
      RetryKeeps(cfg, s, now);
    case Listen(input, now, wall) =>
      hide ValidSender, HandleInput, Timers;
      HandleInputKeepsValid(cfg, s, input, now);
      HandleInputKeeps(cfg, s, input, now);
      TimersKeep(cfg, HandleInput(s, input, now), now, wall);
    case KeyQuit =>
      hide ValidSender;
      SilentStep(s, Next(cfg, s, step));
    case Announce(_, _) =>
      hide ValidSender, StreamInfoPacket;
      SilentStep(s, Next(cfg, s, step));
    case _ =>
      hide ValidSender;
      KeysKeep(cfg, s, step);
  }

  lemma {:induction false} RunKeepsLogInv(cfg: Ctl.Config, session: u64, steps: seq<Step>, states: seq<Sender>, n: nat)
    requires Ctl.ValidConfig(cfg) && IsRun(cfg, session, steps, states) && n < |states|
    ensures LogInv(states[n])
    decreases n
  {
    hide IsRun, LogInv, Next, ValidSender, ValidStep;
    RunStart(cfg, session, steps, states);
    if n == 0 {
      InitLogInv(cfg, session);
    } else {
      RunKeepsLogInv(cfg, session, steps, states, n - 1);
      RunStep(cfg, session, steps, states, n - 1);
      NextKeepsLogInv(cfg, states[n - 1], steps[n - 1]);
    }
  }

  // ----- stop -----

  /** stop accounts for one more frame in flight. */
  lemma StopOne(log: seq<Event>, left: seq<SentFrame>, nextId: nat, lastSample: nat)
    requires FramesAccounted(ScanAll(log), left, nextId, lastSample) && IdsRise(left, nextId)
    requires left != [] && |left[0].probes| == N_PROBE
    ensures var f := left[0];
      var scan := ScanAll(log + (if f.delivered then [] else [FrameLoss(f.id)]) + [SummaryOf(f)]);
      FramesAccounted(scan, left[1..], nextId, lastSample) && scan.samples == ScanAll(log).samples
  {
    hide FramesAccounted, ScanAll, ScanEvent, Samples;
    var f := left[0];
    if f.delivered {
      assert log + [] == log;
      ScanAppendOne(log, SummaryOf(f));
      LeavesDelivered(ScanAll(log), left, nextId, lastSample);
    } else {
      ScanAppendOne(log, FrameLoss(f.id));
      ScanAppendOne(log + [FrameLoss(f.id)], SummaryOf(f));
      LeavesLost(ScanAll(log), left, nextId, lastSample);
    }
  }

  lemma StopEventsNext(inflight: seq<SentFrame>, k: nat)
    requires k < |inflight|
    ensures var f := inflight[k];
      StopEvents(inflight[..k + 1])
        == StopEvents(inflight[..k]) + (if f.delivered then [] else [FrameLoss(f.id)]) + [SummaryOf(f)]
  {
    assert inflight[..k + 1][..k] == inflight[..k];
  }

  lemma {:induction false} StopScan(log: seq<Event>, inflight: seq<SentFrame>, nextId: nat, lastSample: nat, k: nat)
    requires FramesAccounted(ScanAll(log), inflight, nextId, lastSample) && IdsRise(inflight, nextId)
    requires k <= |inflight| && forall i :: 0 <= i < |inflight| ==> |inflight[i].probes| == N_PROBE
    ensures var scan := ScanAll(log + StopEvents(inflight[..k]));
      FramesAccounted(scan, inflight[k..], nextId, lastSample) && scan.samples == ScanAll(log).samples
  {
    hide FramesAccounted, ScanAll, SummaryOf, StopEvents, IdsRise;
    if k == 0 {
      StopNothing(log, inflight);
    } else {
      StopScan(log, inflight, nextId, lastSample, k - 1);
      StopEventsNext(inflight, k - 1);
      var f, left := inflight[k - 1], inflight[k - 1..];
      assert left[0] == f && left[1..] == inflight[k..];
      IdsRiseTail(inflight, nextId, k - 1);
      var before, more := StopEvents(inflight[..k - 1]), if f.delivered then [] else [FrameLoss(f.id)];
      StopOne(log + before, left, nextId, lastSample);
      assert log + (before + more + [SummaryOf(f)]) == log + before + more + [SummaryOf(f)];
    }
  }

  lemma StopNothing(log: seq<Event>, inflight: seq<SentFrame>)
    ensures log + StopEvents(inflight[..0]) == log && inflight[0..] == inflight
  {
  }

  lemma IdsRiseTail(inflight: seq<SentFrame>, nextId: nat, k: nat)
    requires IdsRise(inflight, nextId) && k <= |inflight|
    ensures IdsRise(inflight[k..], nextId)
  {
  }

  lemma {:induction false} StopEventsKinds(inflight: seq<SentFrame>)
    ensures forall e :: e in StopEvents(inflight) ==> e.FrameLoss? || e.ProbeSummary?
  {
    if inflight != [] {
      StopEventsKinds(inflight[..|inflight| - 1]);
    }
  }

  lemma StopAddsNoDrains(log: seq<Event>, inflight: seq<SentFrame>)
    ensures forall e :: e in log + StopEvents(inflight) && CheckedDrain(e) ==> e in log
  {
    StopEventsKinds(inflight);
  }

  /** The checker's look back from a drain finds the three congested samples. */
  lemma RunJustifies(samples: map<u32, real>, fid: u32)
    requires ThreeCongested(samples, fid)
    ensures DrainJustified(samples, fid)
  {
    ThreeJustify(samples, fid, fid - 2, fid - 1, fid);
  }

  lemma AccountedIsFinal(s: Scan, nextId: nat, lastSample: nat)
    requires FramesAccounted(s, [], nextId, lastSample)
    ensures s.bad == [] && s.sent == s.delivered + s.lost && s.sent == s.summaries
    ensures forall fid: u32 :: fid in s.sent <==> 1 <= fid < nextId
  {
    assert forall fid: u32 :: !InFlight([], fid);
  }

  lemma AllProbes(inflight: seq<SentFrame>)
    requires forall i :: 0 <= i < |inflight| ==> ValidFrame(inflight[i])
    ensures forall i :: 0 <= i < |inflight| ==> |inflight[i].probes| == N_PROBE
  {
    forall i | 0 <= i < |inflight|
      ensures |inflight[i].probes| == N_PROBE
    {
      assert ValidFrame(inflight[i]);
    }
  }

  /** Stopping in any state that keeps the invariants leaves a log the checker accepts. */
  lemma StopIsAccepted(cfg: Ctl.Config, s: Sender)
    requires ValidSender(cfg, s) && LogInv(s)
    ensures Check(Stop(s).log) == [] && DrainsJustified(Stop(s).log, ScanAll(Stop(s).log).samples)
  {
    hide Runs.CtlInv, FramesAccounted, ScanAll, DrainFaults, DrainJustified, ThreeCongested, SamplesHeld,
      Runs.CongestionInv, IdsRise;
    var log := Stop(s).log;
    assert s.inflight[..|s.inflight|] == s.inflight && s.inflight[|s.inflight|..] == [];
    AllProbes(s.inflight);
    StopScan(s.log, s.inflight, s.nextId, s.ctl.lastSampleId, |s.inflight|);
    AccountedIsFinal(ScanAll(log), s.nextId, s.ctl.lastSampleId);
    var samples := ScanAll(log).samples;
    StopAddsNoDrains(s.log, s.inflight);
    forall n | 0 <= n < |log| && CheckedDrain(log[n])
      ensures DrainJustified(samples, log[n].fid)
    {
      RunJustifies(samples, log[n].fid);
    }
    DrainFaultsNone(samples, log);
  }

  /** Every finished run leaves a log that the repository's own checker accepts: whatever the interleaving of
      capture, pacer, retransmissions, listener and keyboard, and wherever the run is stopped. The three congested
      samples behind a drain are even those of three consecutive frames. */
  lemma FinishedRunIsAccepted(cfg: Ctl.Config, session: u64, steps: seq<Step>, states: seq<Sender>)
    requires Ctl.ValidConfig(cfg) && IsRun(cfg, session, steps, states)
    ensures var log := Stop(states[|steps|]).log;
      && Check(log) == [] && LegalLog(log)
      && forall e :: e in log && CheckedDrain(e) ==>
           && e.fid >= 2 && CongestedSample(log, e.fid - 2)
           && CongestedSample(log, e.fid - 1) && CongestedSample(log, e.fid)
  {
    hide IsRun, LegalEvent, CongestedSample, Check, ScanAll, LogInv, ValidSender, FollowsThree;
    RunStart(cfg, session, steps, states);
    RunStateValid(cfg, session, steps, states, |steps|);
    RunKeepsLogInv(cfg, session, steps, states, |steps|);
    StopIsAccepted(cfg, states[|steps|]);
    var log := Stop(states[|steps|]).log;
    CheckIsLegality(log);
    hide Stop;
    forall e | e in log && CheckedDrain(e)
      ensures e.fid >= 2 && CongestedSample(log, e.fid - 2)
      ensures CongestedSample(log, e.fid - 1) && CongestedSample(log, e.fid)
    {
      CongestedInScan(log, e.fid - 2);
      CongestedInScan(log, e.fid - 1);
      CongestedInScan(log, e.fid);
    }
  }
}
