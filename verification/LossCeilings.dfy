/** When an episode of the loss ceiling opens and closes, over every run of the controller. */
module LossCeilings {
  import opened Bytes
  import opened EventLog
  import opened Controller
  import opened ControllerRuns
  import Estimators

  // ----- The history of a run -----

  /** One call of a run: the sample it accepted, if any, the rate before it, and whether it starts the count of lossy
      samples anew. */
  datatype Turn = Turn(sample: Option<FrameAck>, rate: real, clears: bool)

  /** The call sets a loss ceiling or backs off. */
  ghost predicate Clears(events: seq<Event>) {
    exists e :: e in events && (e.LossCeilingSet? || e.LossBackoff?)
  }

  ghost function TurnOf(cfg: Config, c: Ctl, op: Op): Turn
    requires ValidConfig(cfg) && ValidCtl(c) && ValidOp(op)
  {
    Turn(if op.Acked? && op.fa.fid > c.lastSampleId then Some(op.fa) else None, c.rate, Clears(Apply(cfg, c, op).1))
  }

  ghost function Turns(cfg: Config, ops: seq<Op>): (h: seq<Turn>)
    requires ValidConfig(cfg) && CtlInv(cfg, Init(cfg)) && forall op :: op in ops ==> ValidOp(op)
    ensures |h| == |ops|
  {
    if ops == [] then []
    else
      var before := ops[..|ops| - 1];
      var c := Run(cfg, Init(cfg), before).0;
      CtlInvValid(cfg, c);
      Turns(cfg, before) + [TurnOf(cfg, c, ops[|ops| - 1])]
  }

  predicate LossyAt(h: seq<Turn>, k: nat) { k < |h| && h[k].sample.Some? && h[k].sample.value.lossy }

  /** The last |idx| accepted samples are these; they are lossy, with consecutive ids, and nothing since the first of
      them has started the count anew. */
  ghost predicate LossyRun(h: seq<Turn>, idx: seq<nat>) {
    && (forall q :: 0 <= q < |idx| ==> LossyAt(h, idx[q]))
    && (forall p, q :: 0 <= p < q < |idx| ==> idx[p] < idx[q])
    && (forall p, q :: 0 <= p && q == p + 1 < |idx| ==> h[idx[q]].sample.value.fid == h[idx[p]].sample.value.fid + 1)
    && (idx != [] ==> forall m :: idx[0] <= m < |h| ==> !h[m].clears && (h[m].sample.Some? ==> m in idx))
  }

  /** What is kept of a sample: its frame rate is the one before it if it has none of its own. */
  function RateOf(fa: FrameAck, rate: real): real { if fa.frameMbps > 0.0 then fa.frameMbps else rate }

  function KeptOf(fa: FrameAck, rate: real): LossSample {
    LossSample(fa.delay - fa.minDelay, RateOf(fa, rate), fa.ackBytes, fa.ackFirst, fa.ackLast)
  }

  function LastId(h: seq<Turn>): nat {
    if h == [] then 0 else if h[|h| - 1].sample.Some? then h[|h| - 1].sample.value.fid else LastId(h[..|h| - 1])
  }

  /** The controller keeps the samples of the longest such run, up to three of them. */
  ghost predicate Keeps(h: seq<Turn>, ls: seq<LossSample>, idx: seq<nat>) {
    && LossyRun(h, idx) && |idx| == |ls| <= 3
    && (forall m :: 0 <= m < |h| && h[m].sample.Some? ==> h[m].sample.value.fid > 0)
    && (forall q :: 0 <= q < |idx| ==> ls[q] == KeptOf(h[idx[q]].sample.value, h[idx[q]].rate))
    && (|idx| < 3 ==> forall p :: !LossyRun(h, [p] + idx))
  }

  // ----- One call -----

  lemma LastIdNext(h: seq<Turn>, t: Turn)
    ensures LastId(h + [t]) == if t.sample.Some? then t.sample.value.fid else LastId(h)
  {
    assert (h + [t])[..|h|] == h;
  }

  /** The last sample of a run is the last one accepted. */
  lemma {:induction false} RunEnds(h: seq<Turn>, idx: seq<nat>)
    requires LossyRun(h, idx) && idx != []
    ensures LastId(h) == h[idx[|idx| - 1]].sample.value.fid
  {
    var k := |h| - 1;
    if h[k].sample.Some? {
      assert k in idx;
    } else {
      var before := h[..k];
      assert forall q :: 0 <= q < |idx| ==> idx[q] != k;
      assert forall q :: 0 <= q < |idx| ==> idx[q] < k && before[idx[q]] == h[idx[q]];
      assert LossyRun(before, idx);
      RunEnds(before, idx);
    }
  }

  /** A call that is no sample leaves the runs alone, unless it starts the count anew. */
  lemma QuietTurn(h: seq<Turn>, t: Turn, idx: seq<nat>)
    requires t.sample.None? && !t.clears
    ensures LossyRun(h + [t], idx) <==> LossyRun(h, idx)
  {
    var all := h + [t];
    if LossyRun(h, idx) {
      assert forall q :: 0 <= q < |idx| ==> all[idx[q]] == h[idx[q]];
      assert LossyRun(all, idx);
    }
    if LossyRun(all, idx) {
      assert forall q :: 0 <= q < |idx| ==> LossyAt(all, idx[q]) && idx[q] != |h|;
      assert forall q :: 0 <= q < |idx| ==> all[idx[q]] == h[idx[q]];
      assert forall m :: 0 <= m < |h| ==> all[m] == h[m];
      assert LossyRun(h, idx);
    }
  }

  /** After a call that starts the count anew, or a sample that is not lossy, there is no run. */
  lemma NoRun(h: seq<Turn>, t: Turn, p: nat)
    requires t.clears || (t.sample.Some? && !t.sample.value.lossy)
    ensures !LossyRun(h + [t], [p])
  {
    var all, idx := h + [t], [p];
    assert all[|h|] == t && idx[0] == p;
    assert forall m :: m in idx ==> m == p;
  }

  lemma LongerRun(h: seq<Turn>, t: Turn, idx: seq<nat>)
    requires t.sample.Some? && t.sample.value.lossy && !t.clears && LossyRun(h, idx)
    requires idx != [] ==> t.sample.value.fid == h[idx[|idx| - 1]].sample.value.fid + 1
    ensures LossyRun(h + [t], idx + [|h|])
  {
    var all, more := h + [t], idx + [|h|];
    forall q | 0 <= q < |more|
      ensures LossyAt(all, more[q]) && (q < |idx| ==> more[q] < |h|)
    {
      if q < |idx| {
        assert LossyAt(h, idx[q]);
      }
    }
    forall p, q | 0 <= p && q == p + 1 < |more|
      ensures all[more[q]].sample.value.fid == all[more[p]].sample.value.fid + 1
    {
      assert p < |idx| && all[more[p]] == h[idx[p]];
      if q < |idx| {
        assert all[more[q]] == h[idx[q]];
      }
    }
    InRun(h, t, idx);
  }

  lemma InRun(h: seq<Turn>, t: Turn, idx: seq<nat>)
    requires LossyRun(h, idx) && !t.clears
    ensures var all, more := h + [t], idx + [|h|];
      forall m :: more[0] <= m < |all| ==> !all[m].clears && (all[m].sample.Some? ==> m in more)
  {
    var all, more := h + [t], idx + [|h|];
    forall m | more[0] <= m < |all|
      ensures !all[m].clears && (all[m].sample.Some? ==> m in more)
    {
      if m < |h| {
        assert all[m] == h[m] && idx != [] && more[0] == idx[0];
      } else {
        assert more[|idx|] == m;
      }
    }
  }

  /** A lossy sample extends the run that ends with the sample before it. */
  lemma RunExtends(h: seq<Turn>, t: Turn, idx: seq<nat>)
    requires t.sample.Some? && t.sample.value.lossy && !t.clears
    ensures LossyRun(h + [t], idx + [|h|]) <==>
              LossyRun(h, idx) && (idx != [] ==> t.sample.value.fid == LastId(h) + 1)
  {
    hide LossyRun;
    if LossyRun(h, idx) && (idx != [] ==> t.sample.value.fid == LastId(h) + 1) {
      if idx != [] {
        RunEnds(h, idx);
      }
      RunParts(h, idx);
      LongerRun(h, t, idx);
    }
    if LossyRun(h + [t], idx + [|h|]) {
      ShorterRun(h, t, idx);
      if idx != [] {
        RunEnds(h, idx);
        LastTwo(h, t, idx);
      }
    }
  }

  lemma RunParts(h: seq<Turn>, idx: seq<nat>)
    requires LossyRun(h, idx)
    ensures forall q :: 0 <= q < |idx| ==> LossyAt(h, idx[q])
  {
  }

  lemma LastTwo(h: seq<Turn>, t: Turn, idx: seq<nat>)
    requires LossyRun(h + [t], idx + [|h|]) && LossyRun(h, idx) && idx != []
    ensures t.sample.Some? && t.sample.value.fid == h[idx[|idx| - 1]].sample.value.fid + 1
  {
    var all, more, q := h + [t], idx + [|h|], |idx|;
    assert more[q] == |h| && more[q - 1] == idx[q - 1] && all[|h|] == t;
    assert LossyAt(all, more[q]) && LossyAt(h, idx[q - 1]);
    assert all[more[q]].sample.value.fid == all[more[q - 1]].sample.value.fid + 1;
  }

  lemma ShorterRun(h: seq<Turn>, t: Turn, idx: seq<nat>)
    requires LossyRun(h + [t], idx + [|h|])
    ensures LossyRun(h, idx)
  {
    var all, more := h + [t], idx + [|h|];
    assert more[|idx|] == |h|;
    assert forall q :: 0 <= q < |idx| ==> more[q] == idx[q];
    forall q | 0 <= q < |idx|
      ensures LossyAt(h, idx[q])
    {
      assert LossyAt(all, more[q]) && more[q] < more[|idx|];
    }
    forall p, q | 0 <= p && q == p + 1 < |idx|
      ensures h[idx[q]].sample.value.fid == h[idx[p]].sample.value.fid + 1
    {
      assert all[more[q]].sample.value.fid == all[more[p]].sample.value.fid + 1;
    }
    if idx != [] {
      forall m | idx[0] <= m < |h|
        ensures !h[m].clears && (h[m].sample.Some? ==> m in idx)
      {
        assert more[0] <= m < |all| && all[m] == h[m];
      }
    }
  }

  lemma NotExtended(h: seq<Turn>, t: Turn, idx: seq<nat>, p: nat)
    requires t.sample.Some? && t.sample.value.lossy && !t.clears && idx != [] && idx[|idx| - 1] == |h|
    requires LossyRun(h + [t], [p] + idx)
    ensures LossyRun(h, [p] + idx[..|idx| - 1]) && t.sample.value.fid == LastId(h) + 1
  {
    var before := [p] + idx[..|idx| - 1];
    assert [p] + idx == before + [|h|];
    RunExtends(h, t, before);
  }

  lemma NoneLonger(h: seq<Turn>, t: Turn, idx: seq<nat>)
    requires t.sample.Some? && t.sample.value.lossy && !t.clears && idx != [] && idx[|idx| - 1] == |h|
    requires t.sample.value.fid == LastId(h) + 1 ==> forall p :: !LossyRun(h, [p] + idx[..|idx| - 1])
    ensures forall p :: !LossyRun(h + [t], [p] + idx)
  {
    hide LossyRun;
    forall p | LossyRun(h + [t], [p] + idx)
      ensures false
    {
      NotExtended(h, t, idx, p);
      assert false;
    }
  }

  /** The suffix of a run is a run. */
  lemma RunSuffix(h: seq<Turn>, idx: seq<nat>)
    requires LossyRun(h, idx) && idx != []
    ensures LossyRun(h, idx[1..])
  {
    var rest := idx[1..];
    assert forall q :: 0 <= q < |rest| ==> rest[q] == idx[q + 1];
    forall q | 0 <= q < |rest|
      ensures LossyAt(h, rest[q])
    {
      assert LossyAt(h, idx[q + 1]);
    }
    forall p, q | 0 <= p && q == p + 1 < |rest|
      ensures h[rest[q]].sample.value.fid == h[rest[p]].sample.value.fid + 1
    {
      assert h[idx[q + 1]].sample.value.fid == h[idx[p + 1]].sample.value.fid + 1;
    }
    if rest != [] {
      forall m | rest[0] <= m < |h|
        ensures !h[m].clears && (h[m].sample.Some? ==> m in rest)
      {
        assert idx[0] < idx[1] <= m;
        if h[m].sample.Some? {
          var q :| 0 <= q < |idx| && idx[q] == m;
          assert rest[q - 1] == m;
        }
      }
    }
  }

  /** A lossy sample that opens no episode. */
  lemma LossyKeeps(h: seq<Turn>, t: Turn, c: Ctl, idx: seq<nat>) returns (idx': seq<nat>)
    requires Keeps(h, c.lossSamples, idx) && LastId(h) == c.lastSampleId
    requires t.sample.Some? && t.sample.value.lossy && !t.clears && t.rate == c.rate && t.sample.value.fid > 0
    ensures Keeps(h + [t], NextLossSamples(Admit(c, t.sample.value), t.sample.value), idx')
  {
    hide LossyRun, KeptOf;
    var fa := t.sample.value;
    var old' := Admit(c, fa).lossSamples;
    var kept: seq<nat> := if old' == [] then [] else idx;
    EmptyRun(h);
    RunParts(h, idx);
    if idx != [] {
      RunEnds(h, idx);
    }
    assert old' == [] || (old' == c.lossSamples && fa.fid == LastId(h) + 1);
    assert fa.fid == LastId(h) + 1 ==> kept == idx;
    PushedSamples(c, fa);
    hide LossyAt, Admit, NextLossSamples, LastId;
    RunExtends(h, t, kept);
    idx' := PushKeeps(h, t, old', kept, c.rate);
  }

  /** The samples kept after one more, given that the run before it could not be longer. */
  lemma PushKeeps(h: seq<Turn>, t: Turn, ls: seq<LossSample>, idx: seq<nat>, rate: real) returns (idx': seq<nat>)
    requires t.sample.Some? && t.sample.value.lossy && !t.clears && t.rate == rate && t.sample.value.fid > 0
    requires |ls| == |idx| <= 3 && LossyRun(h + [t], idx + [|h|])
    requires forall q :: 0 <= q < |idx| ==>
               LossyAt(h, idx[q]) && ls[q] == KeptOf(h[idx[q]].sample.value, h[idx[q]].rate)
    requires forall m :: 0 <= m < |h| && h[m].sample.Some? ==> h[m].sample.value.fid > 0
    requires |idx| < 3 && t.sample.value.fid == LastId(h) + 1 ==> forall p :: !LossyRun(h, [p] + idx)
    ensures var pushed := ls + [KeptOf(t.sample.value, rate)];
      Keeps(h + [t], if |pushed| > 3 then pushed[1..] else pushed, idx')
  {
    hide LossyRun, KeptOf, LastId;
    var longer: seq<nat> := idx + [|h|];
    assert longer[..|longer| - 1] == idx;
    KeptSamples(h, t, ls, idx, rate);
    hide LossyAt;
    if |longer| <= 3 {
      idx' := longer;
      if |longer| < 3 {
        NoneLonger(h, t, longer);
      }
    } else {
      idx' := longer[1..];
      RunSuffix(h + [t], longer);
    }
  }

  lemma PushedSamples(c: Ctl, fa: FrameAck)
    requires fa.lossy
    ensures var pushed := Admit(c, fa).lossSamples + [KeptOf(fa, c.rate)];
      NextLossSamples(Admit(c, fa), fa) == if |pushed| > 3 then pushed[1..] else pushed
  {
  }

  lemma EmptyRun(h: seq<Turn>)
    ensures LossyRun(h, [])
  {
  }

  /** What is kept of the samples of a longer run, without the oldest of four. */
  lemma KeptSamples(h: seq<Turn>, t: Turn, ls: seq<LossSample>, idx: seq<nat>, rate: real)
    requires t.sample.Some? && t.rate == rate && |ls| == |idx|
    requires forall q :: 0 <= q < |idx| ==>
               LossyAt(h, idx[q]) && ls[q] == KeptOf(h[idx[q]].sample.value, h[idx[q]].rate)
    ensures var pushed, longer, all := ls + [KeptOf(t.sample.value, rate)], idx + [|h|], h + [t];
      forall q :: 0 <= q < |longer| ==>
        && longer[q] < |all| && all[longer[q]].sample.Some?
        && pushed[q] == KeptOf(all[longer[q]].sample.value, all[longer[q]].rate)
  {
    hide KeptOf;
  }

  // ----- Every call -----

  /** Only check_shallow_congestion sets a ceiling, and nothing after it touches what it keeps. */
  lemma AckedShallow(cfg: Config, c: Ctl, fa: FrameAck)
    requires ValidConfig(cfg) && ValidAck(fa) && CtlInv(cfg, c) && fa.fid > c.lastSampleId
    ensures var (c', out, events) := OnFrameAcked(cfg, c, fa);
      var (c1, shallow) := CheckShallow(cfg, Admit(c, fa), fa, FrameBur(fa));
      && c'.lossSamples == c1.lossSamples && c'.lastSampleId == fa.fid
      && forall e :: e in events && (e.LossCeilingSet? || e.LossBackoff?) <==> e in shallow
  {
    ObserveFrame(cfg, c, fa);
    ObservedShallow(cfg, c, fa);
    AckedStages(cfg, c, fa);
    var (c2, seen, smooth) := Observe(cfg, c, fa);
    VerdictKeepsLosses(cfg, c2, fa, smooth);
    var (c3, verdict) := Verdict(cfg, c2, fa, smooth);
    hide OnFrameAcked, Observe, Verdict, FrameBur, RatesInv, FallbackInv, PacingMultiplier, CheckShallow, Admit;
    var all := (seen + verdict) + [SampleEvent(c3, fa, FrameBur(fa))];
    assert forall e :: e in all <==> e in seen || e in verdict || e == SampleEvent(c3, fa, FrameBur(fa));
  }

  lemma ObservedShallow(cfg: Config, c: Ctl, fa: FrameAck)
    requires ValidConfig(cfg) && ValidAck(fa) && CtlInv(cfg, c)
    ensures var (c', seen, smooth) := Observe(cfg, c, fa);
      var (c1, shallow) := CheckShallow(cfg, Admit(c, fa), fa, FrameBur(fa));
      && c'.lossSamples == c1.lossSamples
      && forall e :: e in seen && (e.LossCeilingSet? || e.LossBackoff?) <==> e in shallow
  {
    AdmitRates(cfg, c, fa);
    CheckShallowFrame(cfg, Admit(c, fa), fa, FrameBur(fa));
    hide CheckShallow, FrameBur, SmoothedBur, Prune, PacingMultiplier, Admit, RatesInv, FallbackInv;
    var (c1, shallow) := CheckShallow(cfg, Admit(c, fa), fa, FrameBur(fa));
    var (c2, restore) := Restore(c1, FrameBur(fa));
    assert forall e :: e in shallow + restore <==> e in shallow || e in restore;
  }

  lemma AdmitRates(cfg: Config, c: Ctl, fa: FrameAck)
    requires ValidConfig(cfg) && RatesInv(cfg, c)
    ensures RatesInv(cfg, Admit(c, fa)) && ValidCtl(c)
  {
  }

  lemma VerdictKeepsLosses(cfg: Config, c: Ctl, fa: FrameAck, smooth: real)
    requires ValidConfig(cfg)
    ensures Verdict(cfg, c, fa, smooth).0.lossSamples == c.lossSamples
  {
    hide FrameBur, NextBitrate, DrainRate;
  }

  /** An accepted sample: what is kept after it, and whether it starts the count anew. */
  lemma SampleTurn(cfg: Config, c: Ctl, fa: FrameAck)
    requires ValidConfig(cfg) && ValidAck(fa) && CtlInv(cfg, c) && fa.fid > c.lastSampleId
    ensures ValidCtl(c)
    ensures var (c', events) := Apply(cfg, c, Acked(fa));
      var ls := NextLossSamples(Admit(c, fa), fa);
      && (Clears(events) <==> CeilingTriggered(ls))
      && c'.lossSamples == (if CeilingTriggered(ls) then [] else ls) && c'.lastSampleId == fa.fid
  {
    CtlInvValid(cfg, c);
    AckedShallow(cfg, c, fa);
    ShallowKeeps(cfg, Admit(c, fa), fa, FrameBur(fa));
    hide OnFrameAcked, CheckShallow, FrameBur, CeilingTriggered, NextLossSamples, RatesInv, FallbackInv;
    var (c1, shallow) := CheckShallow(cfg, Admit(c, fa), fa, FrameBur(fa));
    assert shallow != [] ==> shallow[0] in shallow;
  }

  lemma ShallowKeeps(cfg: Config, c: Ctl, fa: FrameAck, bur: real)
    ensures var (c', events) := CheckShallow(cfg, c, fa, bur);
      var ls := NextLossSamples(c, fa);
      && c'.lossSamples == (if CeilingTriggered(ls) then [] else ls)
      && |events| == (if CeilingTriggered(ls) then 1 else 0) && forall e :: e in events ==> e.LossCeilingSet?
  {
    hide CeilingTriggered, NextLossSamples, CeilingAt, AverageAck, AverageRate;
  }

  /** Every other call either leaves what is kept alone, or backs off and drops it. */
  lemma OtherTurn(cfg: Config, c: Ctl, op: Op)
    requires ValidConfig(cfg) && ValidOp(op) && CtlInv(cfg, c) && (op.Acked? ==> op.fa.fid <= c.lastSampleId)
    ensures ValidCtl(c)
    ensures var (c', events) := Apply(cfg, c, op);
      c'.lastSampleId == c.lastSampleId && c'.lossSamples == if Clears(events) then [] else c.lossSamples
  {
    CtlInvValid(cfg, c);
    var (c', events) := Apply(cfg, c, op);
    assert op.FrameLost? && events != [] ==> events[0].LossBackoff? && events[0] in events;
  }

  lemma TurnKeeps(cfg: Config, c: Ctl, op: Op, h: seq<Turn>, idx: seq<nat>) returns (idx': seq<nat>)
    requires ValidConfig(cfg) && ValidOp(op) && CtlInv(cfg, c) && ValidCtl(c)
    requires Keeps(h, c.lossSamples, idx) && LastId(h) == c.lastSampleId
    ensures var c' := Apply(cfg, c, op).0;
      Keeps(h + [TurnOf(cfg, c, op)], c'.lossSamples, idx') && LastId(h + [TurnOf(cfg, c, op)]) == c'.lastSampleId
  {
    hide Apply, LossyRun, LastId, RatesInv, FallbackInv, CeilingTriggered, NextLossSamples;
    var t := TurnOf(cfg, c, op);
    LastIdNext(h, t);
    EmptyRun(h + [t]);
    if op.Acked? && op.fa.fid > c.lastSampleId {
      SampleTurn(cfg, c, op.fa);
      if t.clears || !op.fa.lossy {
        forall p
          ensures !LossyRun(h + [t], [p] + [])
        {
          assert [p] + [] == [p];
          NoRun(h, t, p);
        }
        NotLossyKeepsNone(c, op.fa);
        idx' := [];
      } else {
        idx' := LossyKeeps(h, t, c, idx);
      }
    } else {
      OtherTurn(cfg, c, op);
      if t.clears {
        forall p
          ensures !LossyRun(h + [t], [p] + [])
        {
          assert [p] + [] == [p];
          NoRun(h, t, p);
        }
        idx' := [];
      } else {
        forall x: seq<nat>
          ensures LossyRun(h + [t], x) <==> LossyRun(h, x)
        {
          QuietTurn(h, t, x);
        }
        RunParts(h, idx);
        idx' := idx;
      }
    }
  }

  lemma NotLossyKeepsNone(c: Ctl, fa: FrameAck)
    ensures !fa.lossy ==> NextLossSamples(Admit(c, fa), fa) == []
  {
  }

  /** In every run the controller keeps the samples of the longest lossy run, up to three. */
  lemma {:induction false} RunKeepsLosses(cfg: Config, ops: seq<Op>) returns (idx: seq<nat>)
    requires ValidConfig(cfg) && forall op :: op in ops ==> ValidOp(op)
    ensures CtlInv(cfg, Init(cfg))
    ensures var c := Run(cfg, Init(cfg), ops).0;
      Keeps(Turns(cfg, ops), c.lossSamples, idx) && LastId(Turns(cfg, ops)) == c.lastSampleId
  {
    hide Apply, LossyRun, RatesInv, FallbackInv, TurnOf;
    InitIsCtl(cfg);
    if ops == [] {
      idx := [];
      NoTurns();
    } else {
      var before, op := ops[..|ops| - 1], ops[|ops| - 1];
      assert ValidOp(op);
      var idx0 := RunKeepsLosses(cfg, before);
      var c := Run(cfg, Init(cfg), before).0;
      CtlInvValid(cfg, c);
      hide Keeps;
      idx := TurnKeeps(cfg, c, op, Turns(cfg, before), idx0);
    }
  }

  lemma InitIsCtl(cfg: Config)
    requires ValidConfig(cfg)
    ensures CtlInv(cfg, Init(cfg)) && Init(cfg).lossSamples == [] && Init(cfg).lastSampleId == 0
  {
    InitInv(cfg);
  }

  lemma NoTurns()
    ensures forall idx :: idx != [] ==> !LossyRun([], idx)
    ensures LossyRun([], [])
  {
    forall idx | idx != []
      ensures !LossyRun([], idx)
    {
      assert !LossyAt([], idx[0]);
    }
  }

  // ----- When an episode opens -----

  /** Samples i and j are the last two accepted, and with fa they are three lossy ones with consecutive ids, since the
      first of which no ceiling was set and no loss backed off. */
  ghost predicate ThirdLossy(h: seq<Turn>, i: nat, j: nat, fa: FrameAck) {
    && LossyRun(h, [i, j]) && i < j < |h| && h[j].sample.Some?
    && fa.lossy && fa.fid == h[j].sample.value.fid + 1
  }

  /** The time between a frame's first and last ACK, and its bytes that count over it. */
  function SpanOf(fa: FrameAck): nat { if fa.ackLast > fa.ackFirst then fa.ackLast - fa.ackFirst else 0 }

  function AckedOf(fa: FrameAck): real { if fa.ackLast > fa.ackFirst then fa.ackBytes else 0.0 }

  /** The rate at which three frames were acknowledged, in Mbps; 0 without a span. */
  function AckMbps(a: FrameAck, b: FrameAck, c: FrameAck): real {
    var span := SpanOf(a) + SpanOf(b) + SpanOf(c);
    if span == 0 then 0.0 else 8.0 * (AckedOf(a) + AckedOf(b) + AckedOf(c)) / span as real
  }

  /** Three samples whose frames did not yet queue for an interval when the first was sent, and were acknowledged more
      slowly than they were sent: ack is their rate, mean the mean of their frame rates. */
  ghost predicate CeilingDue(h: seq<Turn>, i: nat, j: nat, fa: FrameAck, rate: real, ack: real, mean: real) {
    && ThirdLossy(h, i, j, fa) && h[i].sample.Some? && h[j].sample.Some?
    && var a, b := h[i].sample.value, h[j].sample.value;
       && ack == AckMbps(a, b, fa)
       && mean == (RateOf(a, h[i].rate) + RateOf(b, h[j].rate) + RateOf(fa, rate)) / 3.0
       && a.delay - a.minDelay < L_SEC && ack < mean
  }

  lemma AverageOfThree(a: FrameAck, b: FrameAck, c: FrameAck, ra: real, rb: real, rc: real)
    ensures var ls := [KeptOf(a, ra), KeptOf(b, rb), KeptOf(c, rc)];
      && AverageAck(ls) == AckMbps(a, b, c)
      && AverageRate(ls) == (RateOf(a, ra) + RateOf(b, rb) + RateOf(c, rc)) / 3.0
  {
    hide RateOf;
    var ls := [KeptOf(a, ra), KeptOf(b, rb), KeptOf(c, rc)];
    var two, one := ls[..2], ls[..1];
    assert two[..1] == one && one[..0] == [];
    assert RateSum(one) == ls[0].frameMbps && RateSum(two) == RateSum(one) + ls[1].frameMbps;
    assert SpanSum(one) == SpanOf(a) as real && SpanSum(two) == SpanSum(one) + SpanOf(b) as real;
    assert SpanSum(ls) == SpanSum(two) + SpanOf(c) as real;
    assert AckedSum(one) == AckedOf(a) && AckedSum(two) == AckedSum(one) + AckedOf(b);
    assert SpanSum(ls) == (SpanOf(a) + SpanOf(b) + SpanOf(c)) as real;
  }

  /** Two runs end alike. */
  lemma SameEnd(h: seq<Turn>, idx: seq<nat>, i: nat, j: nat)
    requires LossyRun(h, [i, j]) && LossyRun(h, idx) && |idx| <= 3
    requires |idx| < 3 ==> forall p :: !LossyRun(h, [p] + idx)
    ensures i < j && |idx| >= 2 && idx[|idx| - 2] == i && idx[|idx| - 1] == j
  {
    var two := [i, j];
    assert two[0] == i && two[1] == j && two[1..] == [j];
    RunSuffix(h, two);
    assert LossyAt(h, two[0]) && LossyAt(h, two[1]);
    if |idx| < 2 {
      ExtendsShort(h, idx, i, j);
    }
    LastOfTwo(h, idx, i, j);
  }

  lemma ExtendsShort(h: seq<Turn>, idx: seq<nat>, i: nat, j: nat)
    requires LossyRun(h, [i, j]) && LossyRun(h, [j]) && LossyRun(h, idx) && |idx| < 2
    ensures exists p :: LossyRun(h, [p] + idx)
  {
    if idx == [] {
      assert [j] + idx == [j];
    } else {
      var two, one := [i, j], idx;
      assert two[0] == i && two[1] == j && LossyAt(h, one[0]) && LossyAt(h, two[0]) && LossyAt(h, two[1]);
      assert one[0] >= i ==> one[0] in two;
      assert j >= one[0] ==> j in one;
      assert i >= one[0] ==> i in one;
      assert [i] + idx == two;
    }
  }

  lemma LastOfTwo(h: seq<Turn>, idx: seq<nat>, i: nat, j: nat)
    requires LossyRun(h, idx) && |idx| >= 2 && LossyRun(h, [i, j])
    ensures i < j && idx[|idx| - 2] == i && idx[|idx| - 1] == j
  {
    var two, n := [i, j], |idx|;
    assert two[0] == i && two[1] == j && LossyAt(h, two[0]) && LossyAt(h, two[1]);
    assert LossyAt(h, idx[n - 1]) && LossyAt(h, idx[n - 2]) && LossyAt(h, idx[0]);
    assert forall m :: m in two <==> m == i || m == j;
    assert idx[n - 1] >= i ==> idx[n - 1] in two;
    assert idx[n - 2] >= i ==> idx[n - 2] in two;
    assert i >= idx[0] ==> i in idx;
    assert j >= idx[0] ==> j in idx;
  }

  /** The last two of a run are a run. */
  lemma {:induction false} LastTwoRun(h: seq<Turn>, idx: seq<nat>)
    requires LossyRun(h, idx) && |idx| >= 2
    ensures LossyRun(h, [idx[|idx| - 2], idx[|idx| - 1]])
    decreases |idx|
  {
    hide LossyRun;
    if |idx| > 2 {
      RunSuffix(h, idx);
      LastTwoRun(h, idx[1..]);
    } else {
      assert idx == [idx[0], idx[1]];
    }
  }

  /** The controller's own test comes to the same. */
  lemma TriggerIsDue(h: seq<Turn>, c: Ctl, fa: FrameAck, idx: seq<nat>, i: nat, j: nat, ack: real, mean: real)
    requires Keeps(h, c.lossSamples, idx) && LastId(h) == c.lastSampleId
    requires CeilingDue(h, i, j, fa, c.rate, ack, mean)
    ensures var ls := NextLossSamples(Admit(c, fa), fa);
      CeilingTriggered(ls) && AverageAck(ls) == ack && AverageRate(ls) == mean
  {
    hide LossyRun, KeptOf, AverageAck, AverageRate, AckMbps, RateOf;
    SameEnd(h, idx, i, j);
    RunEnds(h, idx);
    PushedSamples(c, fa);
    var n := |idx|;
    assert Admit(c, fa).lossSamples == c.lossSamples;
    assert NextLossSamples(Admit(c, fa), fa)
        == [KeptOf(h[i].sample.value, h[i].rate), KeptOf(h[j].sample.value, h[j].rate), KeptOf(fa, c.rate)];
    AverageOfThree(h[i].sample.value, h[j].sample.value, fa, h[i].rate, h[j].rate, c.rate);
    KeptQueue(h[i].sample.value, h[i].rate);
  }

  lemma KeptQueue(fa: FrameAck, rate: real)
    ensures KeptOf(fa, rate).queue == fa.delay - fa.minDelay
  {
  }

  lemma DueIfTriggered(h: seq<Turn>, c: Ctl, fa: FrameAck, idx: seq<nat>) returns (i: nat, j: nat)
    requires Keeps(h, c.lossSamples, idx) && LastId(h) == c.lastSampleId && fa.fid > c.lastSampleId
    requires CeilingTriggered(NextLossSamples(Admit(c, fa), fa))
    ensures var ls := NextLossSamples(Admit(c, fa), fa);
      CeilingDue(h, i, j, fa, c.rate, AverageAck(ls), AverageRate(ls))
  {
    hide LossyRun, KeptOf, AverageAck, AverageRate, AckMbps, RateOf;
    NotLossyKeepsNone(c, fa);
    PushedSamples'(c, fa);
    var n := |idx|;
    assert n >= 2;
    RunEnds(h, idx);
    RunParts(h, idx);
    i, j := idx[n - 2], idx[n - 1];
    LastTwoRun(h, idx);
    RunRises(h, idx);
    assert NextLossSamples(Admit(c, fa), fa)
        == [KeptOf(h[i].sample.value, h[i].rate), KeptOf(h[j].sample.value, h[j].rate), KeptOf(fa, c.rate)];
    AverageOfThree(h[i].sample.value, h[j].sample.value, fa, h[i].rate, h[j].rate, c.rate);
    KeptQueue(h[i].sample.value, h[i].rate);
  }

  lemma RunRises(h: seq<Turn>, idx: seq<nat>)
    requires LossyRun(h, idx) && |idx| >= 2
    ensures idx[|idx| - 2] < idx[|idx| - 1] < |h|
  {
    assert LossyAt(h, idx[|idx| - 1]);
  }

  lemma PushedSamples'(c: Ctl, fa: FrameAck)
    ensures fa.lossy ==>
              var pushed := Admit(c, fa).lossSamples + [KeptOf(fa, c.rate)];
              NextLossSamples(Admit(c, fa), fa) == if |pushed| > 3 then pushed[1..] else pushed
  {
    if fa.lossy {
      PushedSamples(c, fa);
    }
  }

  /** An episode ends when the BUR is at most ALPHA and its ceiling has come to 95 % of the rate. */
  predicate CeilingLifts(cfg: Config, c: Ctl, now: u64, bur: real, rate: real) {
    bur <= ALPHA && CeilingAt(cfg, c.bSafe, c.bAgg, Seconds(Sub64(now, c.shallowAt))) >= 0.95 * rate
  }

  /** The rule of the loss ceiling, for a sample that takes the controller from c to c' after the calls h. */
  ghost predicate CeilingRule(cfg: Config, h: seq<Turn>, c: Ctl, c': Ctl, fa: FrameAck, events: seq<Event>) {
    && (SetsCeiling(events) <==> exists i, j, ack, mean :: CeilingDue(h, i, j, fa, c.rate, ack, mean))
    && (forall i, j, ack, mean :: CeilingDue(h, i, j, fa, c.rate, ack, mean) ==>
          && c'.shallowAt == fa.now && c'.bSafe == MaxR(0.2 * ack, cfg.bMin) && c'.bAgg == MaxR(mean, c'.bSafe)
          && LossCeilingSet(fa.fid, c'.bSafe, ack, mean) in events)
    && (!SetsCeiling(events) ==>
          c'.shallowAt == c.shallowAt && c'.bSafe == c.bSafe && c'.bAgg == c.bAgg)
    && (c'.shallow <==> (c.shallow || SetsCeiling(events)) && !CeilingLifts(cfg, c', fa.now, FrameBur(fa), c.rate))
  }

  ghost predicate SetsCeiling(events: seq<Event>) {
    exists e :: e in events && e.LossCeilingSet?
  }

  lemma ShallowShape(cfg: Config, c: Ctl, fa: FrameAck, bur: real)
    ensures var (c', events) := CheckShallow(cfg, c, fa, bur);
      var ls := NextLossSamples(c, fa);
      && (if CeilingTriggered(ls) then
            && c'.shallowAt == fa.now && c'.bSafe == MaxR(0.2 * AverageAck(ls), cfg.bMin)
            && c'.bAgg == MaxR(AverageRate(ls), c'.bSafe)
            && events == [LossCeilingSet(fa.fid, c'.bSafe, AverageAck(ls), AverageRate(ls))]
          else c'.shallowAt == c.shallowAt && c'.bSafe == c.bSafe && c'.bAgg == c.bAgg && events == [])
      && (c'.shallow <==> (c.shallow || CeilingTriggered(ls)) && !CeilingLifts(cfg, c', fa.now, bur, c.rate))
  {
    hide CeilingTriggered, NextLossSamples, CeilingAt, AverageAck, AverageRate;
  }

  lemma AdmitShallow(c: Ctl, fa: FrameAck)
    ensures var c' := Admit(c, fa);
      c'.shallow == c.shallow && c'.shallowAt == c.shallowAt && c'.bSafe == c.bSafe && c'.bAgg == c.bAgg
      && c'.rate == c.rate
  {
  }

  /** What the call does to the episode, by the controller's own test. */
  lemma AckedCeiling(cfg: Config, c: Ctl, fa: FrameAck)
    requires ValidConfig(cfg) && ValidAck(fa) && CtlInv(cfg, c) && fa.fid > c.lastSampleId
    ensures var (c', out, events) := OnFrameAcked(cfg, c, fa);
      var ls := NextLossSamples(Admit(c, fa), fa);
      && (SetsCeiling(events) <==> CeilingTriggered(ls))
      && (if CeilingTriggered(ls) then
            && c'.shallowAt == fa.now && c'.bSafe == MaxR(0.2 * AverageAck(ls), cfg.bMin)
            && c'.bAgg == MaxR(AverageRate(ls), c'.bSafe)
            && LossCeilingSet(fa.fid, c'.bSafe, AverageAck(ls), AverageRate(ls)) in events
          else c'.shallowAt == c.shallowAt && c'.bSafe == c.bSafe && c'.bAgg == c.bAgg)
      && (c'.shallow <==> (c.shallow || CeilingTriggered(ls)) && !CeilingLifts(cfg, c', fa.now, FrameBur(fa), c.rate))
  {
    AckedShallow(cfg, c, fa);
    Estimators.CeilingUntouched(cfg, c, fa);
    AdmitShallow(c, fa);
    ShallowShape(cfg, Admit(c, fa), fa, FrameBur(fa));
    hide OnFrameAcked, CheckShallow, FrameBur, CeilingTriggered, NextLossSamples, RatesInv, FallbackInv, Admit,
      CeilingAt, AverageAck, AverageRate;
    var (c1, shallow) := CheckShallow(cfg, Admit(c, fa), fa, FrameBur(fa));
    assert shallow != [] ==> shallow[0] in shallow;
  }

  /** In every run: a sample sets the loss ceiling exactly when it is the third lossy one in a row, with consecutive
      ids and with no ceiling set and no back-off since the first; the first had not queued for an interval; and the
      three were acknowledged more slowly than their frames were sent. The episode then runs from a fifth of the rate
      acknowledged up to the mean of the frame rates, and it ends with a sample whose BUR is at most ALPHA when the
      ceiling has come to 95 % of the rate. */
  lemma CeilingIffThreeLossy(cfg: Config, ops: seq<Op>, fa: FrameAck)
    requires ValidConfig(cfg) && ValidAck(fa) && forall op :: op in ops ==> ValidOp(op)
    requires CtlInv(cfg, Init(cfg)) && fa.fid > Run(cfg, Init(cfg), ops).0.lastSampleId
    ensures ValidCtl(Run(cfg, Init(cfg), ops).0)
    ensures var c := Run(cfg, Init(cfg), ops).0;
      var (c', out, events) := OnFrameAcked(cfg, c, fa);
      CeilingRule(cfg, Turns(cfg, ops), c, c', fa, events)
  {
    hide OnFrameAcked, CeilingTriggered, NextLossSamples, RatesInv, FallbackInv, CeilingAt, AverageAck, AverageRate,
      Keeps, CeilingDue, LastId, Admit, Turns, SetsCeiling, FrameBur, Run, ValidAck;
    var idx := RunKeepsLosses(cfg, ops);
    var c, h := Run(cfg, Init(cfg), ops).0, Turns(cfg, ops);
    CtlInvValid(cfg, c);
    AckedCeiling(cfg, c, fa);
    forall i, j, ack, mean | CeilingDue(h, i, j, fa, c.rate, ack, mean)
      ensures var ls := NextLossSamples(Admit(c, fa), fa);
        CeilingTriggered(ls) && AverageAck(ls) == ack && AverageRate(ls) == mean
    {
      TriggerIsDue(h, c, fa, idx, i, j, ack, mean);
    }
    if CeilingTriggered(NextLossSamples(Admit(c, fa), fa)) {
      var i, j := DueIfTriggered(h, c, fa, idx);
    }
  }
}
