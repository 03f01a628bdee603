/** The sender's other estimates, over every run: the receive rate from the wire counter, and the smoothed RTT. */
module SenderRates {
  import opened Bytes
  import opened Protocol
  import opened SlidingMin
  import Ctl = Controller
  import Runs = ControllerRuns
  import opened Sender
  import opened SenderRuns
  import opened SenderHistory
  import opened SenderWindows

  // ----- The receive rate -----

  /** A reading of the receiver's byte counter. */
  type Reading = (u64, u64)

  const RATE_WINDOW: nat := 200_000

  /** The step handles an ACK. */
  ghost predicate HandlesAck(s: Sender, step: Step) {
    step.Listen? && step.input.Ack? && Handles(s, step, step.input.a.frameId)
  }

  /** The readings the first n steps counted: those of handled ACKs that are later than the last and not less. */
  ghost function Readings(steps: seq<Step>, states: seq<Sender>, n: nat): seq<Reading>
    requires n <= |steps| && n <= |states|
    decreases n
  {
    if n == 0 then []
    else
      var before := Readings(steps, states, n - 1);
      if HandlesAck(states[n - 1], steps[n - 1]) then Count(before, steps[n - 1].input.a) else before
  }

  function Count(all: seq<Reading>, a: RecvAck): seq<Reading> {
    if all == [] || (a.recvTime > all[|all| - 1].0 && a.wireBytes >= all[|all| - 1].1)
    then all + [(a.recvTime, a.wireBytes)] else all
  }

  ghost predicate Rising(all: seq<Reading>) {
    forall i, j :: 0 <= i < j < |all| ==> all[i].0 < all[j].0 && all[i].1 <= all[j].1
  }

  /** Reading k opens the window: it is the first ever or more than 200 ms before the last one, and the next is within
      200 ms of the last one, or is the last one. */
  ghost predicate OpensWindow(all: seq<Reading>, k: nat) {
    && k < |all|
    && (k == 0 || all[|all| - 1].0 - all[k].0 > RATE_WINDOW)
    && (k + 2 >= |all| || all[|all| - 1].0 - all[k + 1].0 <= RATE_WINDOW)
    && (k + 2 <= |all| || |all| == 1)
  }

  /** The rate over the readings from number k on, in bits per microsecond. */
  ghost function RateFrom(all: seq<Reading>, k: nat): real
    requires Rising(all) && k < |all|
  {
    var first, last := all[k], all[|all| - 1];
    if k + 1 == |all| then 0.0 else 8.0 * (last.1 - first.1) as real / (last.0 - first.0) as real
  }

  ghost predicate RateInv(fb: Feedback, all: seq<Reading>) {
    && Rising(all)
    && if all == [] then fb.wireSamples == [] && fb.ackRate == 0.0
       else exists k: nat :: OpensWindow(all, k) && fb.wireSamples == all[k..] && fb.ackRate == RateFrom(all, k)
  }

  /** Trimming drops readings as long as the second is more than 200 ms old. */
  lemma {:induction false} TrimDrops(w: seq<Reading>, t: u64) returns (j: nat)
    requires Rising(w) && w != [] && w[|w| - 1].0 == t
    ensures j < |w| && TrimWire(w, t) == w[j..] && (j > 0 ==> t - w[j].0 > RATE_WINDOW && |w| - j >= 2)
    ensures |w| - j <= 2 || t - w[j + 1].0 <= RATE_WINDOW
    decreases |w|
  {
    j := 0;
    assert w[0..] == w;
    if |w| > 2 && Sub64(t, w[1].0) > RATE_WINDOW {
      var rest := w[1..];
      var i := TrimDrops(rest, t);
      j := i + 1;
      assert rest[i..] == w[j..];
      assert i == 0 ==> w[j] == w[1];
    }
  }

  lemma CountRises(all: seq<Reading>, a: RecvAck)
    requires Rising(all)
    ensures Rising(Count(all, a))
  {
  }

  lemma WindowStarts(fb: Feedback, a: RecvAck)
    requires fb.wireSamples == [] && fb.ackRate == 0.0
    ensures RateInv(ObserveWire(fb, a), Count([], a))
  {
    var all := Count([], a);
    var w := [(a.recvTime, a.wireBytes)];
    assert [] + w == w && all == w;
    assert TrimWire(w, a.recvTime) == w;
    assert all[0..] == w;
    assert OpensWindow(all, 0);
  }

  /** The window over one more reading, after j of its readings were dropped. */
  lemma WindowOpens(all: seq<Reading>, k: nat, r: Reading, j: nat)
    requires Rising(all) && OpensWindow(all, k) && r.0 > all[|all| - 1].0 && k + j <= |all|
    requires j > 0 ==> r.0 - (all + [r])[k + j].0 > RATE_WINDOW && k + j < |all|
    requires k + j + 1 >= |all| || r.0 - (all + [r])[k + j + 1].0 <= RATE_WINDOW
    ensures OpensWindow(all + [r], k + j)
  {
    var more := all + [r];
    assert more[|more| - 1] == r;
    if k > 0 && j == 0 {
      assert more[k] == all[k];
    }
  }

  lemma WindowMoves(fb: Feedback, all: seq<Reading>, k: nat, a: RecvAck)
    requires Rising(all) && OpensWindow(all, k) && fb.wireSamples == all[k..] && fb.ackRate == RateFrom(all, k)
    requires a.recvTime > all[|all| - 1].0 && a.wireBytes >= all[|all| - 1].1
    ensures RateInv(ObserveWire(fb, a), Count(all, a))
  {
    var r := (a.recvTime, a.wireBytes);
    var more := all + [r];
    hide *;
    OpenIn(all, k);
    CountIs(all, a);
    CountRises(all, a);
    var j := WindowTrims(all, k, r);
    SliceAppend(all, k, r);
    RateMoves(fb, a, more, k + j);
    MovedInv(ObserveWire(fb, a), more, k + j);
  }

  lemma CountIs(all: seq<Reading>, a: RecvAck)
    requires all != [] && a.recvTime > all[|all| - 1].0 && a.wireBytes >= all[|all| - 1].1
    ensures Count(all, a) == all + [(a.recvTime, a.wireBytes)]
  {
  }

  lemma SliceAppend(all: seq<Reading>, k: nat, r: Reading)
    requires k < |all|
    ensures (all + [r])[k..] == all[k..] + [r] && all[k..] != [] && all[k..][|all[k..]| - 1] == all[|all| - 1]
  {
  }

  lemma MovedInv(fb: Feedback, all: seq<Reading>, k: nat)
    requires Rising(all) && OpensWindow(all, k) && fb.wireSamples == all[k..] && fb.ackRate == RateFrom(all, k)
    ensures RateInv(fb, all)
  {
  }

  /** Trimming the window and one more reading. */
  lemma WindowTrims(all: seq<Reading>, k: nat, r: Reading) returns (j: nat)
    requires Rising(all) && OpensWindow(all, k) && Rising(all + [r]) && r.0 > all[|all| - 1].0
    ensures var more := all + [r];
      k + j < |all| && OpensWindow(more, k + j) && TrimWire(more[k..], r.0) == more[k + j..]
  {
    var more := all + [r];
    var w := more[k..];
    SuffixRises(more, k);
    assert w[|w| - 1] == r;
    hide TrimWire, Rising, OpensWindow;
    j := TrimDrops(w, r.0);
    assert w[j..] == more[k + j..];
    assert w[j] == more[k + j];
    assert j + 1 < |w| ==> w[j + 1] == more[k + j + 1];
    OpenIn(all, k);
    WindowOpens(all, k, r, j);
  }

  lemma OpenIn(all: seq<Reading>, k: nat)
    requires OpensWindow(all, k)
    ensures k < |all|
  {
  }

  lemma SuffixRises(all: seq<Reading>, k: nat)
    requires Rising(all) && k <= |all|
    ensures Rising(all[k..])
  {
    assert forall i :: 0 <= i < |all| - k ==> all[k..][i] == all[k + i];
  }

  lemma RateMoves(fb: Feedback, a: RecvAck, all: seq<Reading>, k: nat)
    requires Rising(all) && k + 2 <= |all| && all[|all| - 1] == (a.recvTime, a.wireBytes)
    requires TrimWire(fb.wireSamples + [(a.recvTime, a.wireBytes)], a.recvTime) == all[k..]
    requires fb.wireSamples == [] || (a.recvTime > fb.wireSamples[|fb.wireSamples| - 1].0
                                      && a.wireBytes >= fb.wireSamples[|fb.wireSamples| - 1].1)
    ensures var fb' := ObserveWire(fb, a); fb'.wireSamples == all[k..] && fb'.ackRate == RateFrom(all, k)
  {
    hide TrimWire;
    assert all[k..][0] == all[k];
  }

  lemma ObserveKeepsRate(fb: Feedback, all: seq<Reading>, a: RecvAck)
    requires RateInv(fb, all)
    ensures RateInv(ObserveWire(fb, a), Count(all, a))
  {
    hide RateFrom, TrimWire;
    if all == [] {
      WindowStarts(fb, a);
    } else {
      var k: nat :| OpensWindow(all, k) && fb.wireSamples == all[k..] && fb.ackRate == RateFrom(all, k);
      assert fb.wireSamples[|fb.wireSamples| - 1] == all[|all| - 1];
      if a.recvTime > all[|all| - 1].0 && a.wireBytes >= all[|all| - 1].1 {
        WindowMoves(fb, all, k, a);
      }
    }
  }

  /** The parts of the feedback that come from the byte counter. */
  ghost predicate SameRate(a: Feedback, b: Feedback) {
    b.wireSamples == a.wireSamples && b.ackRate == a.ackRate
  }

  lemma InputCounts(s: Sender, step: Step)
    requires step.Listen?
    ensures var fb' := HandleInput(s, step.input, step.now).fb;
      if HandlesAck(s, step)
      then exists fb1 :: SameRate(s.fb, fb1) && fb' == ObserveWire(fb1, step.input.a)
      else SameRate(s.fb, fb')
  {
    hide Acknowledge, ObserveWire, UsableAck, Find, Push;
    if HandlesAck(s, step) {
      var a := step.input.a;
      assert a.echoedSend <= step.now by {
        UsableInTime(s, step);
      }
      var fb1 := if a.echoedSend != 0 && a.flags & RECOVERED == 0 then ObserveTimes(s.fb, a, step.now) else s.fb;
      assert SameRate(s.fb, fb1) && HandleInput(s, step.input, step.now).fb == ObserveWire(fb1, a);
    }
  }

  lemma UsableInTime(s: Sender, step: Step)
    requires HandlesAck(s, step)
    ensures step.input.a.echoedSend <= step.now
  {
    hide Find;
  }

  lemma NextCounts(cfg: Ctl.Config, s: Sender, step: Step, all: seq<Reading>)
    requires ValidSender(cfg, s) && ValidStep(s, step) && RateInv(s.fb, all)
    ensures RateInv(Next(cfg, s, step).fb, if HandlesAck(s, step) then Count(all, step.input.a) else all)
  {
    hide ValidSender, ObserveWire, HandleInput, Timers, Handles, Rising;
    if step.Listen? {
      HandleInputKeepsValid(cfg, s, step.input, step.now);
      TimersKeepFeedback(cfg, HandleInput(s, step.input, step.now), step.now, step.wall);
      InputCounts(s, step);
      if HandlesAck(s, step) {
        var fb1 :| SameRate(s.fb, fb1) && HandleInput(s, step.input, step.now).fb == ObserveWire(fb1, step.input.a);
        assert RateInv(fb1, all);
        ObserveKeepsRate(fb1, all, step.input.a);
      }
    } else {
      hide Next;
      OtherStepsKeepFeedback(cfg, s, step);
    }
  }

  /** In every state of every run, the receive rate is 8 times the bytes counted over the time they took, from a
      reading more than 200 ms before the last one (or the first ever) to the last one, and the reading after that is
      at most 200 ms before the last one. */
  lemma {:induction false} RunKeepsRate(cfg: Ctl.Config, session: u64, steps: seq<Step>, states: seq<Sender>, n: nat)
    requires Ctl.ValidConfig(cfg) && IsRun(cfg, session, steps, states) && n <= |steps| < |states|
    ensures RateInv(states[n].fb, Readings(steps, states, n))
    decreases n
  {
    hide IsRun, RateInv, Next, ValidSender, ValidStep, HandlesAck, Count;
    RunStart(cfg, session, steps, states);
    if n == 0 {
      RateAtStart(cfg, session);
    } else {
      RunKeepsRate(cfg, session, steps, states, n - 1);
      RunStep(cfg, session, steps, states, n - 1);
      HandlesParts(states[n - 1], steps[n - 1]);
      NextCounts(cfg, states[n - 1], steps[n - 1], Readings(steps, states, n - 1));
    }
  }

  lemma HandlesParts(s: Sender, step: Step)
    ensures HandlesAck(s, step) ==> step.Listen? && step.input.Ack?
  {
  }

  lemma RateAtStart(cfg: Ctl.Config, session: u64)
    requires Ctl.ValidConfig(cfg)
    ensures RateInv(Init(cfg, session).fb, [])
  {
  }

  // ----- The smoothed RTT -----

  /** SRTT and RTTVAR after these samples, by section 2 of RFC 6298. */
  function Rfc6298(samples: seq<Timed>): (real, real) {
    if samples == [] then (0.0, 0.0)
    else
      var r := samples[|samples| - 1].value as real;
      if |samples| == 1 then (r, r / 2.0)
      else
        var (srtt, rttvar) := Rfc6298(samples[..|samples| - 1]);
        (7.0 / 8.0 * srtt + 1.0 / 8.0 * r, 3.0 / 4.0 * rttvar + 1.0 / 4.0 * (if srtt > r then srtt - r else r - srtt))
  }

  /** The samples from the first that is not 0. */
  function FromFirst(samples: seq<Timed>): seq<Timed> {
    if samples != [] && samples[0].value == 0 then FromFirst(samples[1..]) else samples
  }

  /** The timeout is SRTT + 4 RTTVAR in whole microseconds, but at least 20 ms; 100 ms before the first sample. */
  function Timeout(samples: seq<Timed>, srtt: real, rttvar: real): nat {
    var t := (srtt + 4.0 * rttvar).Floor;
    if samples == [] then 100_000 else if t < 20_000 then 20_000 else t
  }

  ghost predicate NonNegative(samples: seq<Timed>) {
    forall i :: 0 <= i < |samples| ==> samples[i].value >= 0
  }

  ghost predicate SmoothInv(fb: Feedback, samples: seq<Timed>) {
    && NonNegative(samples)
    && (fb.srtt, fb.rttvar) == Rfc6298(FromFirst(samples)) && (fb.srtt == 0.0 <==> FromFirst(samples) == [])
    && fb.srtt >= 0.0 && fb.retryDelay == Timeout(samples, fb.srtt, fb.rttvar)
  }

  lemma {:induction false} FromFirstAppend(samples: seq<Timed>, t: Timed)
    ensures FromFirst(samples + [t]) ==
              if FromFirst(samples) == [] && t.value == 0 then [] else FromFirst(samples) + [t]
  {
    var all := samples + [t];
    if samples == [] {
      assert all == [t] && all[1..] == [];
    } else {
      assert all[0] == samples[0] && all[1..] == samples[1..] + [t];
      if samples[0].value == 0 {
        FromFirstAppend(samples[1..], t);
      }
    }
  }

  lemma SmoothStep(fb: Feedback, samples: seq<Timed>, a: RecvAck, now: u64)
    requires SmoothInv(fb, samples) && a.echoedSend <= now
    ensures SmoothInv(ObserveTimes(fb, a, now), samples + [Timed(now, now - a.echoedSend)])
  {
    var t := Timed(now, now - a.echoedSend);
    var kept, more := FromFirst(samples), FromFirst(samples + [t]);
    FromFirstAppend(samples, t);
    hide Push, FromFirst;
    if more != [] {
      assert more == kept + [t] && more[..|more| - 1] == kept;
    }
  }

  lemma SameSmooth(fb: Feedback, fb': Feedback, samples: seq<Timed>)
    requires SmoothInv(fb, samples) && SameWindows(fb, fb')
    ensures SmoothInv(fb', samples)
  {
    hide Rfc6298, FromFirst, Timeout;
  }

  lemma SmoothNext(fb: Feedback, fb': Feedback, rtts: seq<Timed>, s: Sender, step: Step)
    requires SmoothInv(fb, rtts)
    requires if Observes(s, step) then Pushed(fb, fb', step.input.a, step.now) else SameWindows(fb, fb')
    ensures SmoothInv(fb', rtts + RttSample(s, step))
  {
    hide SmoothInv, SameWindows, ObserveTimes, UsableAck;
    if Observes(s, step) {
      ObservesParts(s, step);
      SmoothStep(fb, rtts, step.input.a, step.now);
      SameSmooth(ObserveTimes(fb, step.input.a, step.now), fb', rtts + RttSample(s, step));
    } else {
      SameSmooth(fb, fb', rtts);
      assert rtts + [] == rtts;
    }
  }

  lemma SmoothAtStart(cfg: Ctl.Config, session: u64)
    requires Ctl.ValidConfig(cfg)
    ensures SmoothInv(Init(cfg, session).fb, [])
  {
  }

  /** In every state of every run, the smoothed RTT and its variation are those of RFC 6298 over the samples taken,
      from the first that is not 0, and the retransmission timeout follows from them. */
  lemma {:induction false} RunFollowsRfc(cfg: Ctl.Config, session: u64, steps: seq<Step>, states: seq<Sender>, n: nat)
    requires Ctl.ValidConfig(cfg) && IsRun(cfg, session, steps, states) && n <= |steps| && |states| == |steps| + 1
    ensures SmoothInv(states[n].fb, RttSamples(steps, states, n))
    decreases n
  {
    hide IsRun, SmoothInv, Next, ValidSender, ValidStep, Observes, Pushed, SameWindows, RttSample;
    RunStart(cfg, session, steps, states);
    if n == 0 {
      SmoothAtStart(cfg, session);
    } else {
      RunFollowsRfc(cfg, session, steps, states, n - 1);
      RunStep(cfg, session, steps, states, n - 1);
      var s, step := states[n - 1], steps[n - 1];
      NextPushes(cfg, s, step);
      SmoothNext(s.fb, states[n].fb, RttSamples(steps, states, n - 1), s, step);
    }
  }
}
