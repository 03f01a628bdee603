/** The retransmission timers, over every run: what is due is queued, and the queue is served in order. */
module SenderTimers {
  import opened Bytes
  import opened Protocol
  import opened EventLog
  import opened Packetizer
  import Ctl = Controller
  import Runs = ControllerRuns
  import opened Sender
  import opened SenderRuns
  import opened SenderRetries

  // ----- What is due is queued -----

  /** At time now packet p of frame f has been out for the retransmission delay without an ACK; the frame is not
      delivered, the pacer is through with it, and the packet was sent at most eight times. */
  predicate Overdue(f: SentFrame, p: SentPacket, now: u64, delay: nat) {
    && !f.delivered && f.allSent && !p.acked && p.attempt < 8
    && p.sentAt != 0 && p.sentAt <= now && now - p.sentAt >= delay
  }

  ghost predicate OverdueQueued(s: Sender, now: u64) {
    forall i, pid :: 0 <= i < |s.inflight| && 0 <= pid < |s.inflight[i].packets| ==>
      var f := s.inflight[i];
      Overdue(f, f.packets[pid], now, s.fb.retryDelay) ==> f.packets[pid].retryQueued && (f.id, pid) in s.retries
  }

  lemma MarkedIsQueued(cfg: Ctl.Config, s: Sender, now: u64, i: nat, pid: nat)
    requires ValidSender(cfg, s) && QueueInv(s) && i < |s.inflight| && pid < |s.inflight[i].packets|
    ensures var s' := QueueRetries(s, now);
      && |s'.inflight| == |s.inflight| && |s'.inflight[i].packets| == |s.inflight[i].packets|
      && var f := s'.inflight[i];
         Overdue(f, f.packets[pid], now, s.fb.retryDelay) ==> f.packets[pid].retryQueued && (f.id, pid) in s'.retries
  {
    hide ValidFrame, ValidPacer, Runs.CtlInv, RetransmissionLost;
    var f, delay := s.inflight[i], s.fb.retryDelay;
    AllDueMembers(s.inflight, s.nextId, now, delay);
    assert PacketInv(f.packets[pid], (f.id, pid) in s.retries) by {
      assert FrameInv(f, s.retries);
    }
    if DueIn(f, pid, now, delay) {
      assert DuePair(s.inflight, (f.id, pid), now, delay);
    }
    hide AllDue;
  }

  lemma MarksQueueOverdue(cfg: Ctl.Config, s: Sender, now: u64)
    requires ValidSender(cfg, s) && QueueInv(s)
    ensures OverdueQueued(QueueRetries(s, now), now)
  {
    var s' := QueueRetries(s, now);
    forall i, pid | 0 <= i < |s'.inflight| && 0 <= pid < |s'.inflight[i].packets|
      ensures var f := s'.inflight[i];
        Overdue(f, f.packets[pid], now, s'.fb.retryDelay) ==> f.packets[pid].retryQueued && (f.id, pid) in s'.retries
    {
      MarkedIsQueued(cfg, s, now, i, pid);
    }
  }

  lemma {:induction false} ResolveKeepsRetries(cfg: Ctl.Config, s: Sender, now: u64, wall: nat -> u64)
    requires ValidSender(cfg, s)
    ensures Resolve(cfg, s, now, wall).retries == s.retries && Resolve(cfg, s, now, wall).fb == s.fb
    decreases |s.inflight|
  {
    hide ValidSender, SettleFirst, Settled, PendingRetries;
    if s.inflight != [] && Settled(s.inflight[0], s.fb, now) {
      ResolveKeepsRetries(cfg, SettleFirst(cfg, s, now, wall), now, wall);
    }
  }

  lemma RestQueued(s: Sender, s': Sender, k: nat, now: u64)
    requires OverdueQueued(s, now) && k <= |s.inflight| && s'.inflight == s.inflight[k..]
    requires s'.retries == s.retries && s'.fb == s.fb
    ensures OverdueQueued(s', now)
  {
    hide Overdue;
    assert forall i :: 0 <= i < |s'.inflight| ==> s'.inflight[i] == s.inflight[k + i];
  }

  lemma ListenQueuesOverdue(cfg: Ctl.Config, s: Sender, step: Step)
    requires ValidSender(cfg, s) && QueueInv(s) && step.Listen?
    ensures OverdueQueued(Next(cfg, s, step), step.now)
  {
    hide ValidSender, HandleInput, QueueRetries, CheckAge, Resolve, RetryInv, OverdueQueued;
    var s1 := HandleInput(s, step.input, step.now);
    HandleInputKeepsValid(cfg, s, step.input, step.now);
    HandleInputKeepsQueue(s, step.input, step.now);
    QueueRetriesKeepsValid(cfg, s1, step.now);
    QueueRetriesKeepsQueue(cfg, s1, step.now);
    MarksQueueOverdue(cfg, s1, step.now);
    var s2 := QueueRetries(s1, step.now);
    CheckAgeKeepsValid(cfg, s2, step.now);
    var s3 := CheckAge(cfg, s2, step.now);
    RestQueued(s2, s3, 0, step.now);
    ResolveKeepsQueue(cfg, s3, step.now, step.wall);
    ResolveKeepsRetries(cfg, s3, step.now, step.wall);
    var s4 := Resolve(cfg, s3, step.now, step.wall);
    var k: nat :| k <= |s3.inflight| && s4.inflight == s3.inflight[k..];
    RestQueued(s3, s4, k, step.now);
  }

  /** In every run, after every listener step each packet in flight that is overdue is in the retransmission queue. */
  lemma NothingOverdueIsLeft(cfg: Ctl.Config, session: u64, steps: seq<Step>, states: seq<Sender>, n: nat)
    requires Ctl.ValidConfig(cfg) && IsRun(cfg, session, steps, states) && n < |steps| < |states| && steps[n].Listen?
    ensures OverdueQueued(states[n + 1], steps[n].now)
  {
    hide IsRun, ValidSender, ValidStep, Next, SendInv, QueueInv, OverdueQueued;
    RunStep(cfg, session, steps, states, n);
    RunKeepsSendInv(cfg, session, steps, states, n);
    QueueOfSends(states[n]);
    ListenQueuesOverdue(cfg, states[n], steps[n]);
  }

  // ----- The queue is served -----

  /** The queue's entry is for a packet in flight that is not acknowledged. */
  ghost predicate Wanted(inflight: seq<SentFrame>, r: Pair) {
    exists i :: 0 <= i < |inflight| && inflight[i].id == r.0 && r.1 < |inflight[i].packets|
                && !inflight[i].packets[r.1].acked
  }

  /** Entry j is the first that is wanted. */
  ghost predicate FirstWanted(s: Sender, j: nat) {
    j < |s.retries| && Wanted(s.inflight, s.retries[j]) && forall k :: 0 <= k < j ==> !Wanted(s.inflight, s.retries[k])
  }

  /** The packet of entry r is sent again, under the next attempt number, and is off the queue. */
  ghost predicate SentAgain(s: Sender, s': Sender, r: Pair, now: u64) {
    && |s'.inflight| == |s.inflight|
    && exists i :: 0 <= i < |s.inflight| && s.inflight[i].id == r.0 && r.1 < |s.inflight[i].packets|
         && PacketAgain(s, s', i, r.1, now)
  }

  ghost predicate PacketAgain(s: Sender, s': Sender, i: nat, pid: nat, now: u64)
    requires i < |s.inflight| == |s'.inflight| && pid < |s.inflight[i].packets|
  {
    var f, f' := s.inflight[i], s'.inflight[i];
    var p := f.packets[pid];
    && |f'.packets| == |f.packets| && LegalTx(Tx(s.session, f)) && pid < PacketCount(|f.bytes|)
    && f'.packets[pid] == p.(attempt := (p.attempt + 1) % TWO16, sentAt := now, retryQueued := false)
    && s'.wire == s.wire + [DataPacket(Tx(s.session, f), pid, (p.attempt + 1) % TWO16, now)]
    && s'.log == s.log + [PacketRetransmitted(f.id, pid, (p.attempt + 1) % TWO16)]
  }

  lemma WantedFound(inflight: seq<SentFrame>, nextId: nat, r: Pair)
    requires IdsRise(inflight, nextId)
    ensures var i := Find(inflight, r.0);
      Wanted(inflight, r) <==>
        i.Some? && r.1 < |inflight[i.value].packets| && !inflight[i.value].packets[r.1].acked
  {
    hide Find;
    var i := Find(inflight, r.0);
    if Wanted(inflight, r) {
      var k :| 0 <= k < |inflight| && inflight[k].id == r.0 && r.1 < |inflight[k].packets|
               && !inflight[k].packets[r.1].acked;
      assert i.Some? && i.value == k;
    }
  }

  /** Unmarking an acknowledged packet changes nothing of what is wanted. */
  lemma UnmarkKeepsWanted(inflight: seq<SentFrame>, i: nat, pid: nat, r: Pair)
    requires i < |inflight| && pid < |inflight[i].packets|
    ensures var f := inflight[i];
      Wanted(inflight[i := WithPacket(f, pid, f.packets[pid].(retryQueued := false))], r) <==> Wanted(inflight, r)
  {
    var f := inflight[i];
    var f' := WithPacket(f, pid, f.packets[pid].(retryQueued := false));
    var updated := inflight[i := f'];
    forall k | 0 <= k < |inflight|
      ensures updated[k].id == inflight[k].id && |updated[k].packets| == |inflight[k].packets|
      ensures forall q :: 0 <= q < |inflight[k].packets| ==>
                updated[k].packets[q].acked == inflight[k].packets[q].acked
    {
    }
  }

  /** Unmarking an acknowledged packet changes nothing of what becomes of another. */
  lemma UnmarkKeepsSent(s: Sender, s1: Sender, s': Sender, i: nat, pid: nat, r: Pair, now: u64)
    requires i < |s.inflight| && pid < |s.inflight[i].packets| && s.inflight[i].packets[pid].acked
    requires var f := s.inflight[i];
      s1.inflight == s.inflight[i := WithPacket(f, pid, f.packets[pid].(retryQueued := false))]
    requires s1.session == s.session && s1.wire == s.wire && s1.log == s.log
    requires Wanted(s.inflight, r) && SentAgain(s1, s', r, now)
    requires forall k, l :: 0 <= k < l < |s.inflight| ==> s.inflight[k].id < s.inflight[l].id
    ensures SentAgain(s, s', r, now)
  {
    hide PacketAgain;
    var k :| 0 <= k < |s1.inflight| && s1.inflight[k].id == r.0 && r.1 < |s1.inflight[k].packets|
             && PacketAgain(s1, s', k, r.1, now);
    var l :| 0 <= l < |s.inflight| && s.inflight[l].id == r.0 && r.1 < |s.inflight[l].packets|
             && !s.inflight[l].packets[r.1].acked;
    assert s1.inflight[k].id == s.inflight[k].id;
    assert k == l;
    SameAgain(s, s1, s', k, r.1, now);
  }

  lemma SameAgain(s: Sender, s1: Sender, s': Sender, k: nat, pid: nat, now: u64)
    requires k < |s.inflight| == |s1.inflight| == |s'.inflight|
    requires pid < |s.inflight[k].packets| == |s1.inflight[k].packets|
    requires s1.inflight[k] == s.inflight[k].(packets := s1.inflight[k].packets)
    requires s1.inflight[k].packets[pid] == s.inflight[k].packets[pid]
    requires s1.session == s.session && s1.wire == s.wire && s1.log == s.log && PacketAgain(s1, s', k, pid, now)
    ensures PacketAgain(s, s', k, pid, now)
  {
    hide DataPacket, LegalTx;
    assert Tx(s1.session, s1.inflight[k]) == Tx(s.session, s.inflight[k]);
  }

  lemma PopWanted(s: Sender, s1: Sender, j: nat)
    requires FirstWanted(s, j) && j > 0 && s1.retries == s.retries[1..]
    requires forall r :: Wanted(s1.inflight, r) <==> Wanted(s.inflight, r)
    ensures FirstWanted(s1, j - 1) && s1.retries[j - 1] == s.retries[j] && s1.retries[j..] == s.retries[j + 1..]
  {
    hide Wanted;
    assert forall k :: 0 <= k < |s1.retries| ==> s1.retries[k] == s.retries[k + 1];
  }

  lemma {:induction false} RetryServesWanted(s: Sender, now: u64, j: nat)
    requires s.session != 0 && forall i :: 0 <= i < |s.inflight| ==> ValidFrame(s.inflight[i])
    requires IdsRise(s.inflight, s.nextId) && FirstWanted(s, j)
    ensures var s' := RetryOne(s, now); s'.retries == s.retries[j + 1..] && SentAgain(s, s', s.retries[j], now)
    decreases |s.retries|
  {
    hide ValidFrame, DataPacket, SentAgain, Wanted, FirstWanted, IdsRise;
    FirstParts(s, j);
    var (fid, pid) := s.retries[0];
    var popped := s.(retries := s.retries[1..]);
    WantedFound(s.inflight, s.nextId, s.retries[0]);
    var i := Find(s.inflight, fid);
    if i.None? || pid >= |s.inflight[i.value].packets| {
      PopWanted(s, popped, j);
      RetryServesWanted(popped, now, j - 1);
      SentFromPopped(s, popped, RetryOne(popped, now), s.retries[j], now);
    } else {
      var f := s.inflight[i.value];
      assert ValidFrame(f);
      var p := f.packets[pid].(retryQueued := false);
      WithPacketValid(f, pid, p);
      if p.acked {
        var s1 := popped.(inflight := s.inflight[i.value := WithPacket(f, pid, p)]);
        forall r: Pair
          ensures Wanted(s1.inflight, r) <==> Wanted(s.inflight, r)
        {
          UnmarkKeepsWanted(s.inflight, i.value, pid, r);
        }
        PopWanted(s, s1, j);
        SameIds(s.inflight, s.nextId, i.value, WithPacket(f, pid, p));
        RetryServesWanted(s1, now, j - 1);
        FirstParts(s, j);
        IdsInOrder(s.inflight, s.nextId);
        UnmarkKeepsSent(s, s1, RetryOne(s1, now), i.value, pid, s.retries[j], now);
      } else {
        SentNow(s, i.value, now);
      }
    }
  }

  lemma IdsInOrder(inflight: seq<SentFrame>, nextId: nat)
    requires IdsRise(inflight, nextId)
    ensures forall k, l :: 0 <= k < l < |inflight| ==> inflight[k].id < inflight[l].id
  {
  }

  lemma SameIds(inflight: seq<SentFrame>, nextId: nat, i: nat, f: SentFrame)
    requires IdsRise(inflight, nextId) && i < |inflight| && f.id == inflight[i].id
    ensures IdsRise(inflight[i := f], nextId)
  {
  }

  lemma FirstParts(s: Sender, j: nat)
    requires FirstWanted(s, j)
    ensures s.retries != [] && j < |s.retries| && Wanted(s.inflight, s.retries[j])
    ensures j == 0 <==> Wanted(s.inflight, s.retries[0])
  {
    hide Wanted;
  }

  lemma SentFromPopped(s: Sender, s1: Sender, s': Sender, r: Pair, now: u64)
    requires s1 == s.(retries := s1.retries) && SentAgain(s1, s', r, now)
    ensures SentAgain(s, s', r, now)
  {
    hide DataPacket, LegalTx;
    var k :| 0 <= k < |s1.inflight| && s1.inflight[k].id == r.0 && r.1 < |s1.inflight[k].packets|
             && PacketAgain(s1, s', k, r.1, now);
    assert PacketAgain(s, s', k, r.1, now);
  }

  lemma SentNow(s: Sender, i: nat, now: u64)
    requires s.session != 0 && forall i :: 0 <= i < |s.inflight| ==> ValidFrame(s.inflight[i])
    requires s.retries != [] && Find(s.inflight, s.retries[0].0) == Some(i)
    requires s.retries[0].1 < |s.inflight[i].packets| && !s.inflight[i].packets[s.retries[0].1].acked
    ensures var s' := RetryOne(s, now); s'.retries == s.retries[1..] && SentAgain(s, s', s.retries[0], now)
  {
    hide DataPacket;
    var (fid, pid) := s.retries[0];
    assert ValidFrame(s.inflight[i]);
    assert PacketAgain(s, RetryOne(s, now), i, pid, now);
  }

  lemma {:induction false} RetryIdles(s: Sender, now: u64)
    requires s.session != 0 && forall i :: 0 <= i < |s.inflight| ==> ValidFrame(s.inflight[i])
    requires IdsRise(s.inflight, s.nextId) && forall r :: r in s.retries ==> !Wanted(s.inflight, r)
    ensures var s' := RetryOne(s, now); s'.retries == [] && s'.wire == s.wire && s'.log == s.log
    decreases |s.retries|
  {
    hide ValidFrame, DataPacket, Wanted, IdsRise;
    if s.retries != [] {
      var (fid, pid) := s.retries[0];
      var popped := s.(retries := s.retries[1..]);
      assert s.retries[0] in s.retries && forall r :: r in popped.retries ==> r in s.retries;
      WantedFound(s.inflight, s.nextId, s.retries[0]);
      var i := Find(s.inflight, fid);
      if i.None? || pid >= |s.inflight[i.value].packets| {
        RetryIdles(popped, now);
      } else {
        var f := s.inflight[i.value];
        assert ValidFrame(f);
        var p := f.packets[pid].(retryQueued := false);
        WithPacketValid(f, pid, p);
        var s1 := popped.(inflight := s.inflight[i.value := WithPacket(f, pid, p)]);
        forall r: Pair
          ensures Wanted(s1.inflight, r) <==> Wanted(s.inflight, r)
        {
          UnmarkKeepsWanted(s.inflight, i.value, pid, r);
        }
        SameIds(s.inflight, s.nextId, i.value, WithPacket(f, pid, p));
        RetryIdles(s1, now);
      }
    }
  }

  /** retry_one retransmits the first packet in the queue that is in flight and not acknowledged, under the next
      attempt number, and drops the entries up to it; if there is none, it empties the queue and sends nothing. */
  lemma RetryServesInOrder(cfg: Ctl.Config, s: Sender, now: u64)
    requires ValidSender(cfg, s)
    ensures var s' := RetryOne(s, now);
      && (forall j: nat :: FirstWanted(s, j) ==>
            s'.retries == s.retries[j + 1..] && SentAgain(s, s', s.retries[j], now))
      && ((forall r :: r in s.retries ==> !Wanted(s.inflight, r)) ==>
            s'.retries == [] && s'.wire == s.wire && s'.log == s.log)
  {
    hide Runs.CtlInv, ValidFrame, ValidPacer, IdsRise, RetryOne, SentAgain, Wanted;
    forall j: nat | FirstWanted(s, j)
      ensures RetryOne(s, now).retries == s.retries[j + 1..] && SentAgain(s, RetryOne(s, now), s.retries[j], now)
    {
      RetryServesWanted(s, now, j);
    }
    if forall r :: r in s.retries ==> !Wanted(s.inflight, r) {
      RetryIdles(s, now);
    }
  }
}
