/** The log checker, evaluations/sift.py: the executable specification of a legal sender log. */
module Sift {
  import opened Bytes
  import opened EventLog

  datatype Problem =
    | DuplicateSend(fid: u32)
    | InvalidDelivery(fid: u32)
    | InvalidLoss(fid: u32)
    | InvalidSample(fid: u32)
    | LacksFourProbes(fid: u32)
    | InvalidPacing(fid: u32)
    | InvalidSummary(fid: u32)
    | InvalidProbeCounts(fid: u32)
    | LacksThreeCongested(fid: u32)
    | LackOutcomes
    | LackSummaries

  /** The variables of check's first loop; samples maps a frame to the BUR of its sample. */
  datatype Scan = Scan(
    bad: seq<Problem>, sent: set<u32>, delivered: set<u32>, lost: set<u32>, summaries: set<u32>,
    samples: map<u32, real>)

  const NOTHING: Scan := Scan([], {}, {}, {}, {}, map[])

  function When(c: bool, p: Problem): seq<Problem> {
    if c then [p] else []
  }

  /** The problems the first loop reports for one event. */
  function Faults(s: Scan, e: Event): seq<Problem> {
    match e
    case FrameSent(fid, _) => When(fid in s.sent, DuplicateSend(fid))
    case FrameDelivered(fid, _) => When(fid !in s.sent || fid in s.delivered, InvalidDelivery(fid))
    case FrameLoss(fid) => When(fid !in s.sent || fid in s.lost || fid in s.delivered, InvalidLoss(fid))
    case ControlSample(fid, _, _, pacing, _, nProbes) =>
      When(fid in s.samples || fid !in s.delivered, InvalidSample(fid))
      + When(nProbes != 4, LacksFourProbes(fid))
      + When(pacing < 1.0, InvalidPacing(fid))
    case ProbeSummary(fid, expected, received) =>
      When(fid !in s.sent || fid in s.summaries, InvalidSummary(fid))
      + When(!(0 <= received <= expected && expected == 4), InvalidProbeCounts(fid))
    case _ => []
  }

  function ScanEvent(s: Scan, e: Event): Scan {
    var s' := s.(bad := s.bad + Faults(s, e));
    match e
    case FrameSent(fid, _) => s'.(sent := s.sent + {fid})
    case FrameDelivered(fid, _) => s'.(delivered := s.delivered + {fid})
    case FrameLoss(fid) => s'.(lost := s.lost + {fid})
    case ControlSample(fid, bur, _, _, _, _) => s'.(samples := s.samples[fid := bur])
    case ProbeSummary(fid, _, _) => s'.(summaries := s.summaries + {fid})
    case _ => s'
  }

  function ScanAll(events: seq<Event>): Scan {
    if events == [] then NOTHING else ScanEvent(ScanAll(events[..|events| - 1]), events[|events| - 1])
  }

  /** The samples of frames below n, in frame order. */
  function Below(samples: map<u32, real>, n: nat): seq<real>
    requires n <= TWO32
  {
    if n == 0 then [] else Below(samples, n - 1) + if n - 1 in samples then [samples[n - 1]] else []
  }

  predicate DrainJustified(samples: map<u32, real>, fid: u32) {
    var all := Below(samples, fid + 1);
    var last := if |all| > 3 then all[|all| - 3..] else all;
    |last| == 3 && forall i :: 0 <= i < 3 ==> last[i] > 1.0
  }

  predicate CheckedDrain(e: Event) { e.DrainStart? && e.fid > 0 && e.drainRate > 0.0 }

  /** The second loop. */
  function DrainFaults(samples: map<u32, real>, events: seq<Event>): seq<Problem> {
    if events == [] then []
    else
      var e := events[|events| - 1];
      DrainFaults(samples, events[..|events| - 1])
      + if CheckedDrain(e) then When(!DrainJustified(samples, e.fid), LacksThreeCongested(e.fid)) else []
  }

  function Check(events: seq<Event>): seq<Problem> {
    var s := ScanAll(events);
    s.bad + DrainFaults(s.samples, events)
    + When(s.sent != s.delivered + s.lost, LackOutcomes)
    + When(s.sent != s.summaries, LackSummaries)
  }

  /** check, loop by loop. */
  method CheckLog(events: seq<Event>) returns (bad: seq<Problem>)
    ensures bad == Check(events)
  {
    bad := [];
    var sent: set<u32>, delivered: set<u32>, lost: set<u32>, summaries: set<u32> := {}, {}, {}, {};
    var samples: map<u32, real> := map[];
    for i := 0 to |events|
      invariant Scan(bad, sent, delivered, lost, summaries, samples) == ScanAll(events[..i])
    {
      assert events[..i + 1][..i] == events[..i];
      var e := events[i];
      ghost var s := ScanAll(events[..i]);
      bad := bad + Faults(Scan(bad, sent, delivered, lost, summaries, samples), e);
      match e {
        case FrameSent(fid, _) => sent := sent + {fid};
        case FrameDelivered(fid, _) => delivered := delivered + {fid};
        case FrameLoss(fid) => lost := lost + {fid};
        case ControlSample(fid, bur, _, _, _, _) => samples := samples[fid := bur];
        case ProbeSummary(fid, _, _) => summaries := summaries + {fid};
        case _ =>
      }
    }
    assert events[..|events|] == events;
    ghost var first := bad;
    for i := 0 to |events|
      invariant bad == first + DrainFaults(samples, events[..i])
    {
      assert events[..i + 1][..i] == events[..i];
      var e := events[i];
      if e.DrainStart? && e.fid > 0 && e.drainRate > 0.0 && !DrainJustified(samples, e.fid) {
        bad := bad + [LacksThreeCongested(e.fid)];
      }
    }
    if sent != delivered + lost {
      bad := bad + [LackOutcomes];
    }
    if sent != summaries {
      bad := bad + [LackSummaries];
    }
  }

  // ----- What an accepted log is -----

  datatype Kind = Sent | Delivered | Lost | Sampled | Summarised

  predicate Is(e: Event, kind: Kind) {
    match kind
    case Sent => e.FrameSent?
    case Delivered => e.FrameDelivered?
    case Lost => e.FrameLoss?
    case Sampled => e.ControlSample?
    case Summarised => e.ProbeSummary?
  }

  /** A frame has an event of this kind among the first n. */
  ghost predicate Happened(events: seq<Event>, n: nat, kind: Kind, fid: u32)
    requires n <= |events|
  {
    exists i :: 0 <= i < n && Is(events[i], kind) && Frame(events[i]) == fid
  }

  /** The frame an event is about; 0 for events about none. */
  function Frame(e: Event): u32 {
    match e
    case FrameSent(fid, _) => fid
    case FrameDelivered(fid, _) => fid
    case FrameLoss(fid) => fid
    case ControlSample(fid, _, _, _, _, _) => fid
    case ProbeSummary(fid, _, _) => fid
    case _ => 0
  }

  /** The order rules for event n, in terms of what happened before it. */
  ghost predicate LegalEvent(events: seq<Event>, n: nat)
    requires n < |events|
  {
    var e := events[n];
    var fid := Frame(e);
    && (e.FrameSent? ==> !Happened(events, n, Sent, fid))
    && (e.FrameDelivered? ==> Happened(events, n, Sent, fid) && !Happened(events, n, Delivered, fid))
    && (e.FrameLoss? ==>
          && Happened(events, n, Sent, fid)
          && !Happened(events, n, Lost, fid) && !Happened(events, n, Delivered, fid))
    && (e.ControlSample? ==>
          && Happened(events, n, Delivered, fid) && !Happened(events, n, Sampled, fid)
          && e.nProbes == 4 && e.pacing >= 1.0)
    && (e.ProbeSummary? ==>
          && Happened(events, n, Sent, fid) && !Happened(events, n, Summarised, fid)
          && 0 <= e.received <= e.expected == 4)
  }

  /** Some sample of the frame is congested. */
  ghost predicate CongestedSample(events: seq<Event>, fid: u32) {
    exists i :: 0 <= i < |events| && events[i].ControlSample? && events[i].fid == fid && events[i].bur > 1.0
  }

  /** These are the last three sampled frames up to fid, and they are congested. */
  ghost predicate AreLastThree(events: seq<Event>, fid: u32, a: u32, b: u32, c: u32) {
    && a < b < c <= fid
    && CongestedSample(events, a) && CongestedSample(events, b) && CongestedSample(events, c)
    && forall k: u32 :: a <= k <= fid && Happened(events, |events|, Sampled, k) ==> k == a || k == b || k == c
  }

  ghost predicate FollowsThree(events: seq<Event>, fid: u32) {
    exists a: u32, b: u32, c: u32 :: AreLastThree(events, fid, a, b, c)
  }

  /** Every event is in order, every drain follows three congested samples, and every sent frame
      has an outcome and a probe summary. */
  ghost predicate LegalLog(events: seq<Event>) {
    && (forall n :: 0 <= n < |events| ==> LegalEvent(events, n))
    && (forall n :: 0 <= n < |events| && CheckedDrain(events[n]) ==>
          FollowsThree(events, events[n].fid))
    && (forall fid: u32 :: Happened(events, |events|, Sent, fid) <==>
          Happened(events, |events|, Delivered, fid) || Happened(events, |events|, Lost, fid))
    && (forall fid: u32 :: Happened(events, |events|, Sent, fid) <==> Happened(events, |events|, Summarised, fid))
  }

  lemma HappenedNext(events: seq<Event>, n: nat, kind: Kind, fid: u32)
    requires n < |events|
    ensures Happened(events, n + 1, kind, fid) <==>
            Happened(events, n, kind, fid) || (Is(events[n], kind) && Frame(events[n]) == fid)
  {
  }

  /** The scan's sets are what happened. */
  ghost predicate Reflects(s: Scan, events: seq<Event>, n: nat)
    requires n <= |events|
  {
    && (forall fid: u32 :: fid in s.sent <==> Happened(events, n, Sent, fid))
    && (forall fid: u32 :: fid in s.delivered <==> Happened(events, n, Delivered, fid))
    && (forall fid: u32 :: fid in s.lost <==> Happened(events, n, Lost, fid))
    && (forall fid: u32 :: fid in s.samples <==> Happened(events, n, Sampled, fid))
    && (forall fid: u32 :: fid in s.summaries <==> Happened(events, n, Summarised, fid))
  }

  lemma ReflectsNext(s: Scan, events: seq<Event>, n: nat)
    requires n < |events| && Reflects(s, events, n)
    ensures Reflects(ScanEvent(s, events[n]), events, n + 1)
  {
    hide Happened, Faults;
    forall fid: u32, kind: Kind
      ensures Happened(events, n + 1, kind, fid) <==>
              Happened(events, n, kind, fid) || (Is(events[n], kind) && Frame(events[n]) == fid)
    {
      HappenedNext(events, n, kind, fid);
    }
    var e, s' := events[n], ScanEvent(s, events[n]);
    forall fid: u32
      ensures fid in s'.sent <==> Happened(events, n + 1, Sent, fid)
      ensures fid in s'.delivered <==> Happened(events, n + 1, Delivered, fid)
      ensures fid in s'.lost <==> Happened(events, n + 1, Lost, fid)
      ensures fid in s'.samples <==> Happened(events, n + 1, Sampled, fid)
      ensures fid in s'.summaries <==> Happened(events, n + 1, Summarised, fid)
    {
      assert fid in s'.samples <==> fid in s.samples || (e.ControlSample? && fid == e.fid);
    }
  }

  /** The first loop faults an event exactly when it breaks the order rules. */
  lemma FaultsAreIllegal(s: Scan, events: seq<Event>, n: nat)
    requires n < |events| && Reflects(s, events, n)
    ensures Faults(s, events[n]) == [] <==> LegalEvent(events, n)
  {
    hide Happened;
  }

  lemma ScanPrefix(events: seq<Event>, n: nat)
    requires n < |events|
    ensures ScanAll(events[..n + 1]) == ScanEvent(ScanAll(events[..n]), events[n])
  {
    assert events[..n + 1][..n] == events[..n];
  }

  lemma {:induction false} ScanReflects(events: seq<Event>, n: nat)
    requires n <= |events|
    ensures Reflects(ScanAll(events[..n]), events, n)
    ensures ScanAll(events[..n]).bad == [] <==> forall i :: 0 <= i < n ==> LegalEvent(events, i)
  {
    hide Reflects, LegalEvent, Faults, ScanAll, ScanEvent;
    if n == 0 {
      ScanNothing(events);
    } else {
      ScanReflects(events, n - 1);
      ScanPrefix(events, n - 1);
      ReflectsNext(ScanAll(events[..n - 1]), events, n - 1);
      FaultsAreIllegal(ScanAll(events[..n - 1]), events, n - 1);
      ScanEventFaults(ScanAll(events[..n - 1]), events[n - 1]);
    }
  }

  lemma ScanNothing(events: seq<Event>)
    ensures ScanAll(events[..0]).bad == [] && Reflects(ScanAll(events[..0]), events, 0)
  {
  }

  lemma ScanEventFaults(s: Scan, e: Event)
    ensures ScanEvent(s, e).bad == [] <==> s.bad == [] && Faults(s, e) == []
  {
  }

  lemma {:induction false} DrainFaultsNone(samples: map<u32, real>, events: seq<Event>)
    ensures DrainFaults(samples, events) == [] <==>
            forall n :: 0 <= n < |events| && CheckedDrain(events[n]) ==> DrainJustified(samples, events[n].fid)
  {
    hide DrainJustified;
    if events != [] {
      var before := events[..|events| - 1];
      DrainFaultsNone(samples, before);
      assert forall n :: 0 <= n < |before| ==> before[n] == events[n];
    }
  }

  // ----- Drains -----

  /** In a log in order, the scan holds the BUR of each frame's one sample. */
  lemma {:induction false} ScanHoldsSamples(events: seq<Event>, n: nat)
    requires n <= |events| && forall i :: 0 <= i < n ==> LegalEvent(events, i)
    ensures forall i :: 0 <= i < n && events[i].ControlSample? ==>
              var e := events[i]; e.fid in ScanAll(events[..n]).samples && ScanAll(events[..n]).samples[e.fid] == e.bur
  {
    hide ScanAll, Faults;
    if n > 0 {
      ScanHoldsSamples(events, n - 1);
      ScanPrefix(events, n - 1);
      assert LegalEvent(events, n - 1);
    }
  }

  lemma CongestedInScan(events: seq<Event>, fid: u32)
    requires forall i :: 0 <= i < |events| ==> LegalEvent(events, i)
    ensures var samples := ScanAll(events).samples;
      && (fid in samples <==> Happened(events, |events|, Sampled, fid))
      && (CongestedSample(events, fid) <==> fid in samples && samples[fid] > 1.0)
  {
    ScanReflects(events, |events|);
    ScanHoldsSamples(events, |events|);
    assert events[..|events|] == events;
    hide ScanAll, LegalEvent;
    if Happened(events, |events|, Sampled, fid) {
      var i :| 0 <= i < |events| && Is(events[i], Sampled) && Frame(events[i]) == fid;
      assert events[i].fid == fid;
    }
  }

  /** Frames without a sample add nothing. */
  lemma {:induction false} BelowSkips(samples: map<u32, real>, m: nat, n: nat)
    requires m <= n <= TWO32 && forall k: u32 :: m <= k < n ==> k !in samples
    ensures Below(samples, n) == Below(samples, m)
  {
    if m < n {
      BelowSkips(samples, m, n - 1);
      assert Below(samples, m) + [] == Below(samples, m);
    }
  }

  /** The last sampled frame below n. */
  lemma {:induction false} LastBelow(samples: map<u32, real>, n: nat) returns (k: u32)
    requires n <= TWO32 && Below(samples, n) != []
    ensures k < n && k in samples && Below(samples, n) == Below(samples, k) + [samples[k]]
    ensures forall i: u32 :: k < i < n ==> i !in samples
  {
    if n - 1 in samples {
      k := n - 1;
    } else {
      assert Below(samples, n) == Below(samples, n - 1);
      k := LastBelow(samples, n - 1);
    }
  }

  ghost predicate LastThree(samples: map<u32, real>, fid: u32, a: u32, b: u32, c: u32) {
    && a < b < c <= fid && a in samples && b in samples && c in samples
    && samples[a] > 1.0 && samples[b] > 1.0 && samples[c] > 1.0
    && forall k: u32 :: a <= k <= fid && k in samples ==> k == a || k == b || k == c
  }

  lemma ThreeJustify(samples: map<u32, real>, fid: u32, a: u32, b: u32, c: u32)
    requires LastThree(samples, fid, a, b, c)
    ensures DrainJustified(samples, fid)
  {
    BelowSkips(samples, c + 1, fid + 1);
    BelowSkips(samples, b + 1, c);
    BelowSkips(samples, a + 1, b);
    var early, all := Below(samples, a), Below(samples, fid + 1);
    assert all == early + [samples[a]] + [samples[b]] + [samples[c]];
    assert all[|early|..] == [samples[a], samples[b], samples[c]];
    assert |all| == 3 ==> all == all[|early|..];
  }

  lemma JustifiedByThree(samples: map<u32, real>, fid: u32) returns (a: u32, b: u32, c: u32)
    requires DrainJustified(samples, fid)
    ensures LastThree(samples, fid, a, b, c)
  {
    var all := Below(samples, fid + 1);
    c := LastBelow(samples, fid + 1);
    b := LastBelow(samples, c);
    a := LastBelow(samples, b);
    var n := |all|;
    assert all == Below(samples, a) + [samples[a]] + [samples[b]] + [samples[c]];
    assert all[n - 3] == samples[a] && all[n - 2] == samples[b] && all[n - 1] == samples[c];
  }

  lemma SameLastThree(events: seq<Event>, fid: u32, a: u32, b: u32, c: u32)
    requires forall i :: 0 <= i < |events| ==> LegalEvent(events, i)
    ensures AreLastThree(events, fid, a, b, c) <==> LastThree(ScanAll(events).samples, fid, a, b, c)
  {
    hide ScanAll, LegalEvent, Happened, CongestedSample;
    forall k: u32
      ensures k in ScanAll(events).samples <==> Happened(events, |events|, Sampled, k)
      ensures CongestedSample(events, k) <==> k in ScanAll(events).samples && ScanAll(events).samples[k] > 1.0
    {
      CongestedInScan(events, k);
    }
  }

  /** The second loop's look back through the samples is about the events of the log. */
  lemma JustifiedIsFollowing(events: seq<Event>, fid: u32)
    requires forall i :: 0 <= i < |events| ==> LegalEvent(events, i)
    ensures DrainJustified(ScanAll(events).samples, fid) <==> FollowsThree(events, fid)
  {
    hide DrainJustified, ScanAll, LegalEvent, AreLastThree, LastThree;
    var samples := ScanAll(events).samples;
    if DrainJustified(samples, fid) {
      var a, b, c := JustifiedByThree(samples, fid);
      SameLastThree(events, fid, a, b, c);
    }
    if FollowsThree(events, fid) {
      var a: u32, b: u32, c: u32 :| AreLastThree(events, fid, a, b, c);
      SameLastThree(events, fid, a, b, c);
      ThreeJustify(samples, fid, a, b, c);
    }
  }

  lemma DrainsAreFollowing(events: seq<Event>)
    requires forall i :: 0 <= i < |events| ==> LegalEvent(events, i)
    ensures DrainFaults(ScanAll(events).samples, events) == [] <==>
            forall n :: 0 <= n < |events| && CheckedDrain(events[n]) ==> FollowsThree(events, events[n].fid)
  {
    hide DrainJustified, ScanAll, LegalEvent, FollowsThree;
    DrainFaultsNone(ScanAll(events).samples, events);
    forall n | 0 <= n < |events| && CheckedDrain(events[n])
      ensures DrainJustified(ScanAll(events).samples, events[n].fid) <==> FollowsThree(events, events[n].fid)
    {
      JustifiedIsFollowing(events, events[n].fid);
    }
  }

  /** check returns the empty list exactly on the legal logs. */
  lemma CheckIsLegality(events: seq<Event>)
    ensures Check(events) == [] <==> LegalLog(events)
  {
    ScanReflects(events, |events|);
    assert events[..|events|] == events;
    var s := ScanAll(events);
    hide LegalEvent, Happened, ScanAll, DrainFaults, FollowsThree;
    if s.bad == [] {
      DrainsAreFollowing(events);
    }
    assert Check(events) == [] <==> s.bad == [] && DrainFaults(s.samples, events) == []
                                    && s.sent == s.delivered + s.lost && s.sent == s.summaries;
  }
}
