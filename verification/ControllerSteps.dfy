/** How far a sample moves the rate, and what it remembers: the exact size of each step of the controller. */
module ControllerSteps {
  import opened Bytes
  import opened EventLog
  import opened Controller
  import opened ControllerRuns
  import opened Reals
  import Estimators
  import Theorems = ControllerTheorems

  // ----- The rate step -----

  /** Up to ALPHA the step takes the rate to (0.7 + 0.2775 / BUR) times itself, or to B_MAX if that is less; a BUR
      below 0.01 counts as 0.01. */
  lemma IncreaseExactly(cfg: Config, rate: real, bur: real, frames: nat)
    requires ValidConfig(cfg) && InRange(cfg, rate) && bur <= ALPHA
    ensures var b, next := MaxR(bur, 0.01), NextBitrate(cfg, rate, bur, frames);
      && (next < cfg.bMax ==> next * b == rate * (0.7 * b + 0.2775))
      && (next == cfg.bMax ==> next * b <= rate * (0.7 * b + 0.2775))
  {
    var b := MaxR(bur, 0.01);
    var q := (1.0 + ALPHA) / (2.0 * b);
    var target := rate * (1.0 + GAMMA_MI * (q - 1.0));
    assert q * (2.0 * b) == 1.85;
    assert q * b == 0.925;
    TargetTimes(rate, b, q);
    Estimators.NextBitrateShape(cfg, rate, bur, frames);
    DivBounds(1.0 + ALPHA, 2.0 * b, 1.05, q);
    MulNonneg(rate, GAMMA_MI * (q - 1.0));
    Distribute(rate, 1.0, GAMMA_MI * (q - 1.0));
    assert target >= rate;
    if target > cfg.bMax {
      MulMonotone(b, cfg.bMax, target);
    }
  }

  lemma TargetTimes(rate: real, b: real, q: real)
    requires q * b == 0.925
    ensures (rate * (1.0 + GAMMA_MI * (q - 1.0))) * b == rate * (0.7 * b + 0.2775)
  {
    var x := 1.0 + GAMMA_MI * (q - 1.0);
    assert x == 0.7 + 0.3 * q;
    assert x * b == 0.7 * b + 0.3 * (q * b);
    assert (rate * x) * b == rate * (x * b);
  }

  /** What the frames since the last reset add to the target of the additive step. */
  function Boost(cfg: Config, rate: real, frames: nat): real
    requires ValidConfig(cfg)
  {
    Pow2(if frames < 50 then frames else 50) / MaxR(cfg.log(rate), cfg.bMin)
  }

  /** Between ALPHA and 1 the rate moves up exactly if it is below half of B_MAX and the boost; a fortieth of the
      difference, but no more than 5 % up and 1 Mbps down; and the more frames since the last reset, the further up. */
  lemma AdditiveStepExactly(cfg: Config, rate: real, frames: nat, later: nat)
    requires ValidConfig(cfg) && rate > 0.0 && frames <= later
    ensures var step, aim := AdditiveStep(cfg, rate, frames), cfg.bMax + Boost(cfg, rate, frames);
      && -1.0 <= step <= rate / 20.0 && (step > 0.0 <==> 2.0 * rate < aim)
      && (-1.0 < step < rate / 20.0 ==> 40.0 * step == aim - 2.0 * rate)
      && (step == -1.0 ==> aim - 2.0 * rate <= -40.0) && (step == rate / 20.0 ==> aim - 2.0 * rate >= 2.0 * rate)
    ensures AdditiveStep(cfg, rate, frames) <= AdditiveStep(cfg, rate, later)
  {
    var n, m := if frames < 50 then frames else 50, if later < 50 then later else 50;
    Pow2Grows(n, m);
    var d := MaxR(cfg.log(rate), cfg.bMin);
    DivMonotone(Pow2(n), Pow2(m), d);
  }

  lemma {:induction false} Pow2Grows(n: nat, m: nat)
    requires n <= m
    ensures Pow2(n) <= Pow2(m)
  {
    if n < m {
      Pow2Grows(n, m - 1);
    }
  }

  // ----- The weights -----

  /** A sample weighs more the later it came, the higher its BUR (up to 1, where it weighs twice what it would at 0)
      and the higher its rate (up to 40 Mbps, where it weighs five times as much as at 0). */
  lemma WeightShape(bur: real, rate: real, k: nat, j: nat)
    requires bur >= 0.0 && rate >= 0.0
    ensures Weight(Sample(bur, rate, 0), k) * (j + 21) as real == Weight(Sample(bur, rate, 0), j) * (k + 21) as real
    ensures bur <= 1.0 ==> Weight(Sample(bur, rate, 0), k) == (1.0 + bur) * Weight(Sample(0.0, rate, 0), k)
    ensures bur >= 1.0 ==> Weight(Sample(bur, rate, 0), k) == 2.0 * Weight(Sample(0.0, rate, 0), k)
    ensures rate <= 40.0 ==> 10.0 * Weight(Sample(bur, rate, 0), k) == (10.0 + rate) * Weight(Sample(bur, 0.0, 0), k)
    ensures rate >= 40.0 ==> Weight(Sample(bur, rate, 0), k) == 5.0 * Weight(Sample(bur, 0.0, 0), k)
    ensures Weight(Sample(0.0, 0.0, 0), 0) == 210.0
  {
    var a, b, c := MinR(bur + 1.0, 2.0), MinR(rate + 10.0, 50.0), (k + 1) as real + 20.0;
    var d := (j + 1) as real + 20.0;
    assert (k + 21) as real == c && (j + 21) as real == d;
    Swap(a * b, c, d);
    Swap(a, b, c);
    assert (a * b) * c == a * (b * c);
    assert (a * 10.0) * c == 10.0 * (a * c);
    assert (a * b) * c == b * (a * c);
    assert (1.0 * b) * c == b * c;
  }

  lemma Swap(x: real, c: real, d: real)
    ensures (x * c) * d == (x * d) * c
  {
  }

  // ----- The history -----

  /** The sample ends a drain, or a lost frame backs off, or the history is cleared by hand. */
  ghost predicate Forgets(op: Op, events: seq<Event>) {
    op.ClearedHistory? || exists e :: e in events && (e.DrainEnd? || e.LossBackoff?)
  }

  /** The rate when the sample's verdict is taken: an uncongested sample ends a fallback. */
  function RateAtVerdict(c: Ctl, bur: real): real {
    if bur <= 1.0 && (c.state == Fallback || c.state == CongestedWait) then c.Underlying() else c.rate
  }

  ghost function Remembered(c: Ctl, fa: FrameAck): Sample {
    Sample(FrameBur(fa), if fa.frameMbps > 0.0 then fa.frameMbps else RateAtVerdict(c, FrameBur(fa)), fa.now)
  }

  /** The samples accepted by a run since it last forgot them. */
  ghost function SamplesSince(cfg: Config, ops: seq<Op>): seq<Sample>
    requires ValidConfig(cfg) && CtlInv(cfg, Init(cfg)) && forall op :: op in ops ==> ValidOp(op)
  {
    if ops == [] then []
    else
      var before, op := ops[..|ops| - 1], ops[|ops| - 1];
      var c := Run(cfg, Init(cfg), before).0;
      CtlInvValid(cfg, c);
      if Forgets(op, Apply(cfg, c, op).1) then []
      else if op.Acked? && op.fa.fid > c.lastSampleId then SamplesSince(cfg, before) + [Remembered(c, op.fa)]
      else SamplesSince(cfg, before)
  }

  /** h holds those of all that are at most 200 ms older than the last one. */
  ghost predicate Recent(h: seq<Sample>, all: seq<Sample>) {
    && (forall i, j :: 0 <= i < j < |all| ==> all[i].ts <= all[j].ts)
    && exists k: nat :: StartsRecent(all, k) && h == all[k..]
  }

  ghost predicate StartsRecent(all: seq<Sample>, k: nat) {
    && k <= |all|
    && forall i :: 0 <= i < |all| ==> (i >= k <==> all[|all| - 1].ts - all[i].ts <= HISTORY_WINDOW)
  }

  lemma {:induction false} PruneKeepsRecent(h: seq<Sample>, now: u64) returns (j: nat)
    requires (forall i :: 0 <= i < |h| ==> h[i].ts <= now) && forall i, j :: 0 <= i < j < |h| ==> h[i].ts <= h[j].ts
    ensures j <= |h| && Prune(h, now) == h[j..]
    ensures forall i :: 0 <= i < |h| ==> (i >= j <==> now - h[i].ts <= HISTORY_WINDOW)
  {
    j := 0;
    assert h[0..] == h;
    if h != [] && Sub64(now, h[0].ts) > HISTORY_WINDOW {
      var rest := h[1..];
      var i := PruneKeepsRecent(rest, now);
      j := i + 1;
      assert rest[i..] == h[j..];
      assert forall m :: 0 < m < |h| ==> h[m] == rest[m - 1];
    }
  }

  lemma RecentNext(h: seq<Sample>, all: seq<Sample>, s: Sample)
    requires Recent(h, all) && forall i :: 0 <= i < |all| ==> all[i].ts <= s.ts
    ensures Recent(Prune(h + [s], s.ts), all + [s])
  {
    var k: nat :| StartsRecent(all, k) && h == all[k..];
    var more := all + [s];
    TimesRisen(more, k);
    LongerSuffix(all, k, s);
    hide StartsRecent, Prune;
    var j := PruneKeepsRecent(more[k..], s.ts);
    RecentMoves(all, k, s, j);
    assert Recent(more[k + j..], more);
    assert more[k..][j..] == more[k + j..];
  }

  lemma TimesRisen(all: seq<Sample>, k: nat)
    requires k <= |all| && forall i, j :: 0 <= i < j < |all| ==> all[i].ts <= all[j].ts
    ensures forall i, j :: 0 <= i < j < |all[k..]| ==> all[k..][i].ts <= all[k..][j].ts
    ensures all != [] ==> forall i :: 0 <= i < |all[k..]| ==> all[k..][i].ts <= all[|all| - 1].ts
  {
    assert forall i :: 0 <= i < |all[k..]| ==> all[k..][i] == all[k + i];
  }

  lemma LongerSuffix(all: seq<Sample>, k: nat, s: Sample)
    requires k <= |all|
    ensures all[k..] + [s] == (all + [s])[k..]
  {
  }

  lemma RecentMoves(all: seq<Sample>, k: nat, s: Sample, j: nat)
    requires StartsRecent(all, k) && (forall i :: 0 <= i < |all| ==> all[i].ts <= s.ts)
    requires var longer := (all + [s])[k..];
      j <= |longer| && forall i :: 0 <= i < |longer| ==> (i >= j <==> s.ts - longer[i].ts <= HISTORY_WINDOW)
    ensures StartsRecent(all + [s], k + j)
  {
    var more := all + [s];
    var longer := more[k..];
    forall i | 0 <= i < |more|
      ensures i >= k + j <==> more[|more| - 1].ts - more[i].ts <= HISTORY_WINDOW
    {
      if i >= k {
        assert longer[i - k] == more[i];
      } else {
        assert more[i] == all[i] && all[|all| - 1].ts - all[i].ts > HISTORY_WINDOW;
      }
    }
  }

  /** What an accepted sample leaves of the history. */
  lemma AckedHistory(cfg: Config, c: Ctl, fa: FrameAck)
    requires ValidConfig(cfg) && ValidAck(fa) && CtlInv(cfg, c) && fa.fid > c.lastSampleId
    ensures ValidCtl(c)
    ensures var (c', out, events) := OnFrameAcked(cfg, c, fa);
      c'.history == if Forgets(Acked(fa), events) then [] else Prune(c.history + [Remembered(c, fa)], fa.now)
  {
    CtlInvValid(cfg, c);
    hide OnFrameAcked, Verdict, FrameBur, RatesInv, FallbackInv, ValidAck, ValidHistory, Remembered, Theorems.EndsDrain;
    var c1, seen, smooth := ObservedHistory(cfg, c, fa);
    VerdictHistory(cfg, c1, fa, smooth);
    var (c2, verdict) := Verdict(cfg, c1, fa, smooth);
    ForgetsInVerdict(seen, verdict, SampleEvent(c2, fa, FrameBur(fa)), fa);
  }

  lemma ForgetsInVerdict(seen: seq<Event>, verdict: seq<Event>, sample: Event, fa: FrameAck)
    requires forall e :: e in seen ==> !e.DrainEnd? && !e.LossBackoff?
    requires !sample.DrainEnd? && !sample.LossBackoff?
    requires forall e :: e in verdict ==> VerdictEvent(e)
    ensures Forgets(Acked(fa), (seen + verdict) + [sample]) <==> Theorems.EndsDrain(verdict)
  {
    var events := (seen + verdict) + [sample];
    assert forall e :: e in events <==> e in seen || e in verdict || e == sample;
  }

  lemma VerdictHistory(cfg: Config, c: Ctl, fa: FrameAck, smooth: real)
    requires ValidConfig(cfg)
    ensures var (c', events) := Verdict(cfg, c, fa, smooth);
      && c'.history == (if Theorems.EndsDrain(events) then [] else c.history)
      && (Theorems.EndsDrain(events) <==> c.state == Draining && FrameBur(fa) <= 1.0)
      && forall e :: e in events ==> VerdictEvent(e)
  {
    Theorems.VerdictEndsDrain(cfg, c, fa, smooth);
    hide FrameBur, DrainRate, NextBitrate, Theorems.EndsDrain;
  }

  lemma ObservedHistory(cfg: Config, c: Ctl, fa: FrameAck) returns (c1: Ctl, seen: seq<Event>, smooth: real)
    requires ValidConfig(cfg) && ValidAck(fa) && CtlInv(cfg, c) && ValidCtl(c) && fa.fid > c.lastSampleId
    ensures var (c', out, events) := OnFrameAcked(cfg, c, fa);
      var (c2, verdict) := Verdict(cfg, c1, fa, smooth);
      && c' == c2 && events == (seen + verdict) + [SampleEvent(c', fa, FrameBur(fa))]
    ensures c1.history == Prune(c.history + [Remembered(c, fa)], fa.now)
    ensures forall e :: e in seen ==> !e.DrainEnd? && !e.LossBackoff?
  {
    AckedStages(cfg, c, fa);
    ObserveRemembers(cfg, c, fa);
    hide OnFrameAcked, Observe, Verdict, FrameBur, RatesInv, FallbackInv, PacingMultiplier;
    var (d, s, m) := Observe(cfg, c, fa);
    c1, seen, smooth := d, s, m;
  }

  lemma ObserveRemembers(cfg: Config, c: Ctl, fa: FrameAck)
    requires ValidConfig(cfg) && ValidAck(fa) && CtlInv(cfg, c) && ValidCtl(c)
    ensures Observe(cfg, c, fa).0.history == Prune(c.history + [Remembered(c, fa)], fa.now)
  {
    var c0 := Admit(c, fa);
    assert RatesInv(cfg, c0) && FallbackInv(cfg, c0);
    CheckShallowFrame(cfg, c0, fa, FrameBur(fa));
    var c1 := CheckShallow(cfg, c0, fa, FrameBur(fa)).0;
    assert FallbackInv(cfg, c1) && c1.Underlying() == c.Underlying();
    RestoreFrame(cfg, c1, FrameBur(fa));
    hide CheckShallow, FrameBur, SmoothedBur, Prune, PacingMultiplier, Restore;
  }

  lemma OtherHistory(cfg: Config, c: Ctl, op: Op)
    requires ValidConfig(cfg) && ValidOp(op) && CtlInv(cfg, c) && (op.Acked? ==> op.fa.fid <= c.lastSampleId)
    ensures ValidCtl(c)
    ensures var (c', events) := Apply(cfg, c, op); c'.history == if Forgets(op, events) then [] else c.history
  {
    CtlInvValid(cfg, c);
    var (c', events) := Apply(cfg, c, op);
    assert op.FrameLost? && events != [] ==> events[0].LossBackoff? && events[0] in events;
  }

  /** The samples are those of calls of the run. */
  ghost predicate TakenFrom(all: seq<Sample>, ops: seq<Op>) {
    forall i :: 0 <= i < |all| ==> TakenAt(ops, all[i].ts)
  }

  ghost predicate TakenAt(ops: seq<Op>, at: u64) {
    exists k :: 0 <= k < |ops| && ops[k].Acked? && ops[k].fa.now == at
  }

  lemma TakenBefore(all: seq<Sample>, ops: seq<Op>)
    requires ops != [] && Estimators.TimesRise(ops) && TakenFrom(all, ops[..|ops| - 1])
    ensures ops[|ops| - 1].Acked? ==> forall i :: 0 <= i < |all| ==> all[i].ts <= ops[|ops| - 1].fa.now
    ensures TakenFrom(all, ops)
  {
    var before := ops[..|ops| - 1];
    forall i | 0 <= i < |all|
      ensures TakenAt(ops, all[i].ts)
      ensures ops[|ops| - 1].Acked? ==> all[i].ts <= ops[|ops| - 1].fa.now
    {
      assert TakenAt(before, all[i].ts);
      var k :| 0 <= k < |before| && before[k].Acked? && before[k].fa.now == all[i].ts;
      assert ops[k] == before[k];
    }
  }

  lemma TakenLast(all: seq<Sample>, ops: seq<Op>, s: Sample)
    requires ops != [] && TakenFrom(all, ops) && ops[|ops| - 1].Acked? && s.ts == ops[|ops| - 1].fa.now
    ensures TakenFrom(all + [s], ops)
  {
    var more := all + [s];
    forall i | 0 <= i < |more|
      ensures TakenAt(ops, more[i].ts)
    {
      if i < |all| {
        assert more[i] == all[i];
      }
    }
  }

  /** In every run with rising sample times, the history that the smoothed BUR is taken of holds the BUR, the rate
      and the time of exactly those samples accepted since it was last cleared that are at most 200 ms older than the
      last one; it is cleared when a drain ends, by a back-off and by hand. */
  lemma {:induction false} HistoryIsRecent(cfg: Config, ops: seq<Op>)
    requires ValidConfig(cfg) && Estimators.TimesRise(ops) && forall op :: op in ops ==> ValidOp(op)
    ensures CtlInv(cfg, Init(cfg))
    ensures Recent(Run(cfg, Init(cfg), ops).0.history, SamplesSince(cfg, ops)) && TakenFrom(SamplesSince(cfg, ops), ops)
  {
    hide Apply, RatesInv, FallbackInv, Recent, TakenFrom, Forgets, Remembered, Estimators.TimesRise, OnFrameAcked,
      Prune;
    InitInv(cfg);
    NoneRecent();
    if ops == [] {
      NothingKept(cfg, ops);
    } else {
      var before, op := ops[..|ops| - 1], ops[|ops| - 1];
      assert ValidOp(op);
      TimesRiseBefore(ops);
      HistoryIsRecent(cfg, before);
      var c, all := Run(cfg, Init(cfg), before).0, SamplesSince(cfg, before);
      TakenBefore(all, ops);
      NoneTaken(ops);
      CtlInvValid(cfg, c);
      if op.Acked? && op.fa.fid > c.lastSampleId {
        AckedHistory(cfg, c, op.fa);
        AppliesAcked(cfg, c, op.fa);
        RememberedAt(c, op.fa);
        RecentNext(c.history, all, Remembered(c, op.fa));
        TakenLast(all, ops, Remembered(c, op.fa));
      } else {
        OtherHistory(cfg, c, op);
      }
    }
  }

  lemma RememberedAt(c: Ctl, fa: FrameAck)
    ensures Remembered(c, fa).ts == fa.now
  {
  }

  lemma AppliesAcked(cfg: Config, c: Ctl, fa: FrameAck)
    requires ValidConfig(cfg) && ValidCtl(c) && ValidAck(fa)
    ensures var (c', out, events) := OnFrameAcked(cfg, c, fa); Apply(cfg, c, Acked(fa)) == (c', events)
  {
    hide OnFrameAcked;
  }

  lemma TimesRiseBefore(ops: seq<Op>)
    requires ops != [] && Estimators.TimesRise(ops)
    ensures Estimators.TimesRise(ops[..|ops| - 1])
  {
  }

  lemma NoneRecent()
    ensures Recent([], [])
  {
    assert StartsRecent([], 0);
  }

  lemma NoneTaken(ops: seq<Op>)
    ensures TakenFrom([], ops)
  {
  }

  lemma NothingKept(cfg: Config, ops: seq<Op>)
    requires ops == []
    ensures Init(cfg).history == [] && TakenFrom([], ops)
  {
  }

  // ----- Fallback -----

  lemma VerdictSetsFallback(cfg: Config, c: Ctl, fa: FrameAck, smooth: real)
    requires ValidConfig(cfg) && FrameBur(fa) > 1.0 && c.state == Steady && c.congested == 0
    ensures var (c', events) := Verdict(cfg, c, fa, smooth);
      && Theorems.SetsFallback(events) && c'.savedRate == c.rate
      && c'.rate == Clamp(c.rate * (1.0 - ZETA), cfg.bMin, cfg.bMax)
  {
    hide FrameBur, DrainRate;
    var (c', events) := Verdict(cfg, c, fa, smooth);
    assert events[0].FallbackSet? && events[0] in events;
  }

  /** The fallback rule, for a sample that takes the controller from c to c'. */
  ghost predicate FallbackRule(cfg: Config, c: Ctl, c': Ctl, fa: FrameAck, events: seq<Event>) {
    && (Theorems.SetsFallback(events) <==> FrameBur(fa) > 1.0 && c.state == Steady)
    && (Theorems.SetsFallback(events) ==>
          && c'.state == Fallback && c'.fallbackPending && c'.savedRate == c.rate
          && c'.rate == MaxR(0.85 * c.rate, cfg.bMin))
  }

  lemma FallbackStep(cfg: Config, c: Ctl, fa: FrameAck)
    requires ValidConfig(cfg) && ValidAck(fa) && CtlInv(cfg, c) && ValidCtl(c) && fa.fid > c.lastSampleId
    requires c.state == Steady ==> c.congested == 0
    ensures var (c', out, events) := OnFrameAcked(cfg, c, fa); FallbackRule(cfg, c, c', fa, events)
  {
    hide OnFrameAcked, Verdict, FrameBur, CtlInv, ValidAck, ValidCtl, Theorems.SetsFallback, Clamp;
    var c1, seen, smooth := ObservedState(cfg, c, fa);
    Theorems.VerdictFallback(cfg, c1, fa, smooth);
    if FrameBur(fa) > 1.0 && c.state == Steady {
      VerdictSetsFallback(cfg, c1, fa, smooth);
      ClampLower(cfg, c);
    }
    var (c2, verdict) := Verdict(cfg, c1, fa, smooth);
    FallbackInVerdict(seen, verdict, SampleEvent(c2, fa, FrameBur(fa)));
  }

  /** In every run: a sample sets a fallback exactly when it is congested and the controller is steady; the rate is
      then 85 % of what it was, or B_MIN if that is less. */
  lemma FallbackIffCongested(cfg: Config, ops: seq<Op>, fa: FrameAck)
    requires ValidConfig(cfg) && ValidAck(fa) && forall op :: op in ops ==> ValidOp(op)
    requires CtlInv(cfg, Init(cfg)) && fa.fid > Run(cfg, Init(cfg), ops).0.lastSampleId
    ensures ValidCtl(Run(cfg, Init(cfg), ops).0)
    ensures var c := Run(cfg, Init(cfg), ops).0;
      var (c', out, events) := OnFrameAcked(cfg, c, fa);
      FallbackRule(cfg, c, c', fa, events)
  {
    hide Run, Samples, OnFrameAcked, FallbackRule, ValidAck, Inv, CtlInv;
    RunKeepsInv(cfg, ops);
    var (c, log) := Run(cfg, Init(cfg), ops);
    SteadyCounts(cfg, c, Samples(log));
    FallbackStep(cfg, c, fa);
  }

  lemma SteadyCounts(cfg: Config, c: Ctl, s: seq<Event>)
    requires ValidConfig(cfg) && (forall e :: e in s ==> e.ControlSample?) && Inv(cfg, c, s)
    ensures ValidCtl(c) && CtlInv(cfg, c) && (c.state == Steady ==> c.congested == 0)
  {
  }

  lemma ClampLower(cfg: Config, c: Ctl)
    requires ValidConfig(cfg) && CtlInv(cfg, c)
    ensures Clamp(c.rate * (1.0 - ZETA), cfg.bMin, cfg.bMax) == MaxR(0.85 * c.rate, cfg.bMin)
  {
  }

  lemma ObservedState(cfg: Config, c: Ctl, fa: FrameAck) returns (c1: Ctl, seen: seq<Event>, smooth: real)
    requires ValidConfig(cfg) && ValidAck(fa) && CtlInv(cfg, c) && ValidCtl(c) && fa.fid > c.lastSampleId
    ensures var (c', out, events) := OnFrameAcked(cfg, c, fa);
      var (c2, verdict) := Verdict(cfg, c1, fa, smooth);
      && c' == c2 && events == (seen + verdict) + [SampleEvent(c', fa, FrameBur(fa))]
    ensures FrameBur(fa) > 1.0 ==> c1.state == c.state && c1.rate == c.rate
    ensures c.congested == 0 ==> c1.congested == 0
    ensures forall e :: e in seen ==> !e.FallbackSet?
  {
    AckedStages(cfg, c, fa);
    ObserveFrame(cfg, c, fa);
    hide OnFrameAcked, Observe, Verdict, FrameBur, RatesInv, FallbackInv, PacingMultiplier;
    var (d, s, m) := Observe(cfg, c, fa);
    c1, seen, smooth := d, s, m;
  }

  lemma FallbackInVerdict(seen: seq<Event>, verdict: seq<Event>, sample: Event)
    requires forall e :: e in seen ==> !e.FallbackSet?
    requires !sample.FallbackSet?
    ensures Theorems.SetsFallback((seen + verdict) + [sample]) <==> Theorems.SetsFallback(verdict)
  {
    var events := (seen + verdict) + [sample];
    assert forall e :: e in events <==> e in seen || e in verdict || e == sample;
  }

  /** The next encoded frame takes a pending fallback: it gets 85 % of the saved rate (or B_MIN), under the loss
      ceiling, and the saved rate is back; without one it gets the rate, under the ceiling, and nothing changes. */
  lemma PendingIsTaken(cfg: Config, c: Ctl)
    requires ValidConfig(cfg) && CtlInv(cfg, c)
    ensures var (c', target, events) := TakeEncodingBitrate(cfg, c);
      if c.fallbackPending then
        && target == MinR(MaxR(0.85 * c.savedRate, cfg.bMin), c.cubicRate)
        && c'.rate == c.savedRate && !c'.fallbackPending && events == [FallbackRestored(c.savedRate)]
      else target == MinR(c.rate, c.cubicRate) && c' == c && events == []
  {
  }

  // ----- The frames since the last reset -----

  /** The five-second slot a sample falls into, by the wall clock if it is known. */
  function SlotOf(fa: FrameAck): nat { (if fa.wall != 0 then fa.wall else fa.now) / 5_000_000 }

  /** The count behind the additive step starts anew when the smoothed BUR exceeds 1 and in each new slot of five
      seconds; it counts uncongested samples outside a drain, and is 0 after a drain. The smoothed BUR is that of the
      history with the new sample, at the rate of the verdict. */
  lemma CountsSinceReset(cfg: Config, c: Ctl, fa: FrameAck)
    requires ValidConfig(cfg) && ValidAck(fa) && CtlInv(cfg, c) && fa.fid > c.lastSampleId
    ensures ValidCtl(c) && ValidHistory(Prune(c.history + [Remembered(c, fa)], fa.now))
    ensures var (c', out, events) := OnFrameAcked(cfg, c, fa);
      var bur := FrameBur(fa);
      var smooth := SmoothedBur(Prune(c.history + [Remembered(c, fa)], fa.now), RateAtVerdict(c, bur));
      var kept := if smooth > 1.0 || SlotOf(fa) != c.resetSlot then 0 else c.framesUp;
      && c'.resetSlot == SlotOf(fa)
      && c'.framesUp == if bur > 1.0 then kept else if c.state == Draining then 0 else kept + 1
  {
    CtlInvValid(cfg, c);
    ObserveCounts(cfg, c, fa);
    hide OnFrameAcked, Observe, Verdict, FrameBur, RatesInv, FallbackInv, PacingMultiplier, SmoothedBur, Prune;
    AckedStages(cfg, c, fa);
    ObserveFrame(cfg, c, fa);
    var (c1, seen, smooth) := Observe(cfg, c, fa);
    VerdictCounts(cfg, c1, fa, smooth);
  }

  lemma VerdictCounts(cfg: Config, c: Ctl, fa: FrameAck, smooth: real)
    requires ValidConfig(cfg)
    ensures var c' := Verdict(cfg, c, fa, smooth).0;
      && c'.resetSlot == c.resetSlot
      && c'.framesUp == if FrameBur(fa) > 1.0 then c.framesUp else if c.state == Draining then 0 else c.framesUp + 1
  {
    hide FrameBur, DrainRate, NextBitrate;
  }

  lemma ObserveCounts(cfg: Config, c: Ctl, fa: FrameAck)
    requires ValidConfig(cfg) && ValidAck(fa) && CtlInv(cfg, c) && ValidCtl(c)
    ensures ValidHistory(Prune(c.history + [Remembered(c, fa)], fa.now))
    ensures var c1 := Observe(cfg, c, fa).0;
      var smooth := SmoothedBur(Prune(c.history + [Remembered(c, fa)], fa.now), RateAtVerdict(c, FrameBur(fa)));
      && c1.resetSlot == SlotOf(fa)
      && c1.framesUp == if smooth > 1.0 || SlotOf(fa) != c.resetSlot then 0 else c.framesUp
  {
    var bur := FrameBur(fa);
    var c0 := Admit(c, fa);
    assert RatesInv(cfg, c0) && FallbackInv(cfg, c0);
    CheckShallowFrame(cfg, c0, fa, bur);
    var c1 := CheckShallow(cfg, c0, fa, bur).0;
    assert FallbackInv(cfg, c1) && c1.Underlying() == c.Underlying();
    RestoreFrame(cfg, c1, bur);
    var c2 := Restore(c1, bur).0;
    RememberKeepsHistory(c2, fa, bur);
    hide CheckShallow, FrameBur, SmoothedBur, Prune, PacingMultiplier, Restore;
    assert c2.rate == RateAtVerdict(c, bur);
    assert Remember(c2, fa, bur).history == Prune(c.history + [Remembered(c, fa)], fa.now);
  }
}