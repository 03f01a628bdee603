/** Frame chunks, XOR parity and the receiver's reassembly (ReceivedFrame in codes/transport.h). */
module Reassembly {
  import opened Bytes
  import opened Protocol

  function Min(a: nat, b: nat): nat { if a <= b then a else b }

  function Zeros(n: nat): (s: seq<byte>)
    ensures |s| == n
  {
    seq(n, _ => 0)
  }

  // ----- What the sender puts in a frame's packets -----

  /** Data payload pid of a frame: its 1200 bytes, the last one padded with zeros. */
  function Chunk(bytes: seq<byte>, pid: nat): (c: seq<byte>)
    requires pid * LOAD_SZ < |bytes|
    ensures |c| == LOAD_SZ
  {
    var part := bytes[pid * LOAD_SZ..Min((pid + 1) * LOAD_SZ, |bytes|)];
    part + Zeros(LOAD_SZ - |part|)
  }

  ghost predicate LegalFrame(bytes: seq<byte>) {
    1 <= |bytes| <= MAX_FRAME_BYTES
  }

  function Chunks(bytes: seq<byte>): (cs: seq<seq<byte>>)
    requires LegalFrame(bytes)
    ensures |cs| == PacketCount(|bytes|)
    ensures Uniform(cs)
  {
    PacketCountExact(|bytes|);
    seq(PacketCount(|bytes|), pid requires 0 <= pid < PacketCount(|bytes|) => Chunk(bytes, pid))
  }

  ghost predicate Uniform(ps: seq<seq<byte>>) {
    forall i :: 0 <= i < |ps| ==> |ps[i]| == LOAD_SZ
  }

  // ----- XOR over a range of payloads -----

  function XorBytes(a: seq<byte>, b: seq<byte>): (r: seq<byte>)
    requires |a| == |b|
    ensures |r| == |a|
    ensures forall k :: 0 <= k < |a| ==> r[k] == a[k] ^ b[k]
  {
    seq(|a|, k requires 0 <= k < |a| => a[k] ^ b[k])
  }

  /** acc XORed with every payload lo..hi except number skip. */
  function XorRange(ps: seq<seq<byte>>, lo: nat, hi: nat, skip: int, acc: seq<byte>): (r: seq<byte>)
    requires hi <= |ps| && |acc| == LOAD_SZ
    requires forall i :: lo <= i < hi && i != skip ==> |ps[i]| == LOAD_SZ
    ensures |r| == LOAD_SZ
    decreases hi
  {
    if hi <= lo then acc
    else
      var before := XorRange(ps, lo, hi - 1, skip, acc);
      if hi - 1 == skip then before else XorBytes(before, ps[hi - 1])
  }

  lemma XorRangeNext(ps: seq<seq<byte>>, lo: nat, hi: nat)
    requires lo <= hi < |ps| && Uniform(ps)
    ensures XorRange(ps, lo, lo, -1, Zeros(LOAD_SZ)) == Zeros(LOAD_SZ)
    ensures XorRange(ps, lo, hi + 1, -1, Zeros(LOAD_SZ)) == XorBytes(XorRange(ps, lo, hi, -1, Zeros(LOAD_SZ)), ps[hi])
  {
  }

  function GroupStart(group: nat): nat { group * FEC_K }

  function GroupEnd(group: nat, count: nat): nat { Min(GroupStart(group) + FEC_K, count) }

  /** The parity payload of a group: the XOR of its data payloads. */
  function Parity(cs: seq<seq<byte>>, group: nat): (p: seq<byte>)
    requires Uniform(cs)
    ensures |p| == LOAD_SZ
  {
    XorRange(cs, GroupStart(group), GroupEnd(group, |cs|), -1, Zeros(LOAD_SZ))
  }

  /** Byte b of XorRange, without the accumulator. */
  ghost function Column(ps: seq<seq<byte>>, lo: nat, hi: nat, skip: int, b: nat): byte
    requires hi <= |ps| && b < LOAD_SZ
    requires forall i :: lo <= i < hi && i != skip ==> |ps[i]| == LOAD_SZ
    decreases hi
  {
    if hi <= lo then 0
    else if hi - 1 == skip then Column(ps, lo, hi - 1, skip, b)
    else Column(ps, lo, hi - 1, skip, b) ^ ps[hi - 1][b]
  }

  lemma XorAssociative(a: byte, b: byte, c: byte)
    ensures (a ^ b) ^ c == a ^ (b ^ c)
  {
  }

  lemma {:induction false} XorRangeColumn(ps: seq<seq<byte>>, lo: nat, hi: nat, skip: int, acc: seq<byte>, b: nat)
    requires hi <= |ps| && |acc| == LOAD_SZ && b < LOAD_SZ
    requires forall i :: lo <= i < hi && i != skip ==> |ps[i]| == LOAD_SZ
    ensures XorRange(ps, lo, hi, skip, acc)[b] == acc[b] ^ Column(ps, lo, hi, skip, b)
    decreases hi
  {
    if hi > lo {
      XorRangeColumn(ps, lo, hi - 1, skip, acc, b);
      if hi - 1 != skip {
        XorAssociative(acc[b], Column(ps, lo, hi - 1, skip, b), ps[hi - 1][b]);
      }
    }
  }

  lemma {:induction false} ColumnWithout(ps: seq<seq<byte>>, lo: nat, hi: nat, pid: nat, b: nat)
    requires lo <= pid < hi <= |ps| && b < LOAD_SZ
    requires forall i :: lo <= i < hi ==> |ps[i]| == LOAD_SZ
    ensures Column(ps, lo, hi, -1, b) == Column(ps, lo, hi, pid, b) ^ ps[pid][b]
    decreases hi
  {
    if pid < hi - 1 {
      ColumnWithout(ps, lo, hi - 1, pid, b);
    } else {
      ColumnSkipOutside(ps, lo, hi - 1, pid, b);
    }
  }

  lemma {:induction false} ColumnSkipOutside(ps: seq<seq<byte>>, lo: nat, hi: nat, pid: nat, b: nat)
    requires hi <= pid < |ps| && b < LOAD_SZ
    requires forall i :: lo <= i < hi ==> |ps[i]| == LOAD_SZ
    ensures Column(ps, lo, hi, -1, b) == Column(ps, lo, hi, pid, b)
    decreases hi
  {
    if hi > lo {
      ColumnSkipOutside(ps, lo, hi - 1, pid, b);
    }
  }

  lemma {:induction false} XorRangeAgrees(ps: seq<seq<byte>>, qs: seq<seq<byte>>, lo: nat, hi: nat, skip: int,
                                          acc: seq<byte>)
    requires hi <= |ps| == |qs| && |acc| == LOAD_SZ
    requires forall i :: lo <= i < hi && i != skip ==> |ps[i]| == LOAD_SZ && ps[i] == qs[i]
    ensures XorRange(ps, lo, hi, skip, acc) == XorRange(qs, lo, hi, skip, acc)
    decreases hi
  {
    if hi > lo {
      XorRangeAgrees(ps, qs, lo, hi - 1, skip, acc);
    }
  }

  /** The XOR of a group's parity with all its payloads but one is the remaining payload. */
  lemma ParityRebuilds(ps: seq<seq<byte>>, cs: seq<seq<byte>>, group: nat, pid: nat)
    requires Uniform(cs) && |ps| == |cs|
    requires GroupStart(group) <= pid < GroupEnd(group, |cs|)
    requires forall i :: GroupStart(group) <= i < GroupEnd(group, |cs|) && i != pid ==> ps[i] == cs[i]
    ensures XorRange(ps, GroupStart(group), GroupEnd(group, |cs|), pid, Parity(cs, group)) == cs[pid]
  {
    var lo, hi := GroupStart(group), GroupEnd(group, |cs|);
    XorRangeAgrees(ps, cs, lo, hi, pid, Parity(cs, group));
    var r := XorRange(cs, lo, hi, pid, Parity(cs, group));
    forall b: nat | b < LOAD_SZ
      ensures r[b] == cs[pid][b]
    {
      XorRangeColumn(cs, lo, hi, pid, Parity(cs, group), b);
      XorRangeColumn(cs, lo, hi, -1, Zeros(LOAD_SZ), b);
      ColumnWithout(cs, lo, hi, pid, b);
    }
  }

  // ----- The receiver's record of one frame -----

  /** The value of a ReceivedFrame; an empty payload is one that has not arrived. */
  datatype RxFrame = RxFrame(
    size: u32, firstSeen: u64, frameTime: u64, completedAt: u64, keyframe: bool,
    received: nat, payloads: seq<seq<byte>>, parity: map<nat, seq<byte>>)
  {
    predicate Complete() { received == |payloads| }
    predicate Matches(h: PktHeader) { size == h.frameBytes && frameTime == h.frameTime }
    predicate Has(pid: nat) { pid < |payloads| && payloads[pid] != [] }
  }

  function NewFrame(h: PktHeader, now: u64): RxFrame {
    RxFrame(h.frameBytes, now, h.frameTime, 0, h.flags & KEYFRAME != 0, 0,
            seq(PacketCount(h.frameBytes), _ => []), map[])
  }

  function CountPresent(ps: seq<seq<byte>>): (n: nat)
    ensures n <= |ps|
  {
    if ps == [] then 0 else CountPresent(ps[..|ps| - 1]) + if ps[|ps| - 1] != [] then 1 else 0
  }

  ghost predicate WellFormed(f: RxFrame) {
    && f.received == CountPresent(f.payloads)
    && (forall i :: 0 <= i < |f.payloads| ==> f.payloads[i] == [] || |f.payloads[i]| == LOAD_SZ)
    && (forall g :: g in f.parity ==> |f.parity[g]| == LOAD_SZ)
  }

  lemma {:induction false} CountPresentAll(ps: seq<seq<byte>>)
    ensures CountPresent(ps) == |ps| <==> forall i :: 0 <= i < |ps| ==> ps[i] != []
  {
    if ps != [] {
      CountPresentAll(ps[..|ps| - 1]);
    }
  }

  lemma {:induction false} CountPresentNone(ps: seq<seq<byte>>)
    requires forall i :: 0 <= i < |ps| ==> ps[i] == []
    ensures CountPresent(ps) == 0
  {
    if ps != [] {
      CountPresentNone(ps[..|ps| - 1]);
    }
  }

  lemma {:induction false} CountPresentSet(ps: seq<seq<byte>>, pid: nat, data: seq<byte>)
    requires pid < |ps| && ps[pid] == [] && data != []
    ensures CountPresent(ps[pid := data]) == CountPresent(ps) + 1
  {
    var k := |ps| - 1;
    if pid < k {
      CountPresentSet(ps[..k], pid, data);
      assert ps[pid := data][..k] == ps[..k][pid := data];
    } else {
      assert ps[pid := data][..k] == ps[..k];
    }
  }

  lemma NewFrameWellFormed(h: PktHeader, now: u64)
    ensures WellFormed(NewFrame(h, now))
  {
    CountPresentNone(NewFrame(h, now).payloads);
  }

  function WithPayload(f: RxFrame, pid: nat, data: seq<byte>): (r: RxFrame)
    requires WellFormed(f) && |data| == LOAD_SZ
    ensures WellFormed(r)
  {
    if pid >= |f.payloads| || f.payloads[pid] != [] then f
    else
      CountPresentSet(f.payloads, pid, data);
      f.(payloads := f.payloads[pid := data], received := f.received + 1)
  }

  /** parity.try_emplace: the first parity payload of a group is kept. */
  function WithParity(f: RxFrame, group: nat, payload: seq<byte>): (r: RxFrame)
    requires WellFormed(f) && |payload| == LOAD_SZ
    ensures WellFormed(r)
  {
    hide CountPresent;
    if group in f.parity then f else f.(parity := f.parity[group := payload])
  }

  /** The packets lo..hi that have not arrived, in order. */
  function MissingIn(ps: seq<seq<byte>>, lo: nat, hi: nat): (m: seq<nat>)
    requires hi <= |ps|
    ensures forall k :: 0 <= k < |m| ==> lo <= m[k] < hi && ps[m[k]] == []
    ensures forall j, k :: 0 <= j < k < |m| ==> m[j] < m[k]
    ensures forall i :: lo <= i < hi && ps[i] == [] ==> i in m
    decreases hi
  {
    if hi <= lo then []
    else MissingIn(ps, lo, hi - 1) + if ps[hi - 1] == [] then [hi - 1] else []
  }

  lemma MissingNone(ps: seq<seq<byte>>, lo: nat, hi: nat)
    requires hi <= lo && hi <= |ps|
    ensures MissingIn(ps, lo, hi) == []
  {
  }

  lemma MissingNext(ps: seq<seq<byte>>, lo: nat, hi: nat)
    requires lo <= hi < |ps|
    ensures MissingIn(ps, lo, hi + 1) == MissingIn(ps, lo, hi) + if ps[hi] == [] then [hi] else []
  {
  }

  /** MissingIn has one element exactly when one packet of the range is missing, and then it is that packet. */
  lemma MissingOne(ps: seq<seq<byte>>, lo: nat, hi: nat)
    requires hi <= |ps|
    ensures |MissingIn(ps, lo, hi)| == 0 <==> forall i :: lo <= i < hi ==> ps[i] != []
    ensures |MissingIn(ps, lo, hi)| == 1 ==>
              var r := MissingIn(ps, lo, hi)[0];
              lo <= r < hi && ps[r] == [] && forall i :: lo <= i < hi && i != r ==> ps[i] != []
    ensures forall r :: lo <= r < hi && ps[r] == [] && (forall i :: lo <= i < hi && i != r ==> ps[i] != [])
              ==> MissingIn(ps, lo, hi) == [r]
  {
    var m := MissingIn(ps, lo, hi);
    hide MissingIn;
    if |m| >= 2 {
      assert ps[m[0]] == [] && ps[m[1]] == [] && m[0] < m[1];
    } else if |m| == 1 {
      assert ps[m[0]] == [];
    }
  }

  lemma {:induction false} MissingAgrees(ps: seq<seq<byte>>, qs: seq<seq<byte>>, lo: nat, hi: nat)
    requires hi <= |ps| == |qs|
    requires forall i :: lo <= i < hi ==> ps[i] == qs[i]
    ensures MissingIn(ps, lo, hi) == MissingIn(qs, lo, hi)
    decreases hi
  {
    hide MissingIn;
    if hi > lo {
      MissingAgrees(ps, qs, lo, hi - 1);
      MissingNext(ps, lo, hi - 1);
      MissingNext(qs, lo, hi - 1);
    } else {
      MissingNone(ps, lo, hi);
      MissingNone(qs, lo, hi);
    }
  }

  /** ReceivedFrame::recover: rebuild the one missing packet of a group whose parity is held. */
  function Recovered(f: RxFrame, group: nat): (r: (RxFrame, Option<nat>))
    requires WellFormed(f)
    ensures WellFormed(r.0)
  {
    if group !in f.parity then (f, None)
    else
      var lo, hi := GroupStart(group), GroupEnd(group, |f.payloads|);
      var missing := MissingIn(f.payloads, lo, hi);
      if |missing| != 1 then (f, None)
      else
        MissingOne(f.payloads, lo, hi);
        var pid := missing[0];
        var data := XorRange(f.payloads, lo, hi, pid, f.parity[group]);
        var f' := WithPayload(f, pid, data);
        (f'.(parity := f'.parity - {group}), Some(pid))
  }

  /** The first k payloads, trimmed to size bytes. */
  function AssembleFirst(ps: seq<seq<byte>>, k: nat, size: nat): (out: seq<byte>)
    requires k <= |ps|
    ensures |out| <= size
  {
    if k == 0 then []
    else
      var before := AssembleFirst(ps, k - 1, size);
      before + ps[k - 1][..Min(|ps[k - 1]|, size - |before|)]
  }

  /** Full payloads are trimmed to the size and no further. */
  lemma {:induction false} AssembleFirstLength(ps: seq<seq<byte>>, k: nat, size: nat)
    requires k <= |ps| && forall i :: 0 <= i < k ==> |ps[i]| == LOAD_SZ
    ensures |AssembleFirst(ps, k, size)| == Min(k * LOAD_SZ, size)
  {
    if k > 0 {
      AssembleFirstLength(ps, k - 1, size);
    }
  }

  lemma {:induction false} AssembleFirstChunks(bytes: seq<byte>, k: nat)
    requires LegalFrame(bytes) && k <= PacketCount(|bytes|)
    ensures AssembleFirst(Chunks(bytes), k, |bytes|) == bytes[..Min(k * LOAD_SZ, |bytes|)]
  {
    PacketCountExact(|bytes|);
    if k > 0 {
      AssembleFirstChunks(bytes, k - 1);
      assert Chunks(bytes)[k - 1] == Chunk(bytes, k - 1);
      hide Chunk, Chunks, PacketCount;
      var from, to := (k - 1) * LOAD_SZ, Min(k * LOAD_SZ, |bytes|);
      ChunkTrimmed(bytes, k - 1);
      assert bytes[..to] == bytes[..from] + bytes[from..to];
    }
  }

  lemma ChunkTrimmed(bytes: seq<byte>, pid: nat)
    requires pid * LOAD_SZ < |bytes|
    ensures var from, to := pid * LOAD_SZ, Min((pid + 1) * LOAD_SZ, |bytes|);
      to - from <= LOAD_SZ && Chunk(bytes, pid)[..to - from] == bytes[from..to]
  {
  }

  /** Trimming the padded chunks of a frame gives the frame back. */
  lemma AssembleChunks(bytes: seq<byte>)
    requires LegalFrame(bytes)
    ensures AssembleFirst(Chunks(bytes), PacketCount(|bytes|), |bytes|) == bytes
  {
    PacketCountExact(|bytes|);
    AssembleFirstChunks(bytes, PacketCount(|bytes|));
    assert bytes[..|bytes|] == bytes;
  }

  // ----- Arrivals of one frame's packets, in any order, with losses and duplicates -----

  datatype Arrival = DataArrives(pid: nat) | ParityArrives(group: nat)

  ghost predicate ArrivalOf(a: Arrival, count: nat) {
    match a
    case DataArrives(pid) => pid < count
    case ParityArrives(group) => GroupStart(group) < count
  }

  /** What the packet handler does to the frame's packets for one genuine arrival. */
  function Receive(f: RxFrame, a: Arrival, cs: seq<seq<byte>>): (r: RxFrame)
    requires WellFormed(f) && Uniform(cs) && |f.payloads| == |cs| && ArrivalOf(a, |cs|)
    ensures WellFormed(r) && |r.payloads| == |cs|
  {
    match a
    case DataArrives(pid) => Stored(WithPayload(f, pid, cs[pid]), pid / FEC_K)
    case ParityArrives(group) => Stored(WithParity(f, group, Parity(cs, group)), group)
  }

  /** recover after a packet of the group was stored. */
  function Stored(f: RxFrame, group: nat): (r: RxFrame)
    requires WellFormed(f)
    ensures WellFormed(r) && |r.payloads| == |f.payloads|
  {
    hide WellFormed, MissingIn, XorRange;
    Recovered(f, group).0
  }

  function ReceiveAll(f: RxFrame, arrivals: seq<Arrival>, cs: seq<seq<byte>>): (r: RxFrame)
    requires WellFormed(f) && Uniform(cs) && |f.payloads| == |cs|
    requires forall a :: a in arrivals ==> ArrivalOf(a, |cs|)
    ensures WellFormed(r) && |r.payloads| == |cs|
  {
    if arrivals == [] then f
    else Receive(ReceiveAll(f, arrivals[..|arrivals| - 1], cs), arrivals[|arrivals| - 1], cs)
  }

  ghost predicate InGroup(i: nat, group: nat, count: nat) {
    GroupStart(group) <= i < GroupEnd(group, count)
  }

  /** Packet i of the group arrived, or the group's parity and all its other packets did. */
  ghost predicate DeliverableIn(arrived: set<Arrival>, group: nat, count: nat, i: nat) {
    || DataArrives(i) in arrived
    || (ParityArrives(group) in arrived
        && forall j: nat :: InGroup(j, group, count) && j != i ==> DataArrives(j) in arrived)
  }

  ghost predicate Deliverable(arrived: set<Arrival>, count: nat, i: nat) {
    DeliverableIn(arrived, i / FEC_K, count, i)
  }

  ghost function Arrived(arrivals: seq<Arrival>): set<Arrival> {
    set a | a in arrivals
  }

  /** What the arrivals determine about one group: its packets, and whether its parity is still wanted. */
  ghost predicate GroupInv(f: RxFrame, group: nat, arrived: set<Arrival>, cs: seq<seq<byte>>)
    requires Uniform(cs) && |f.payloads| == |cs|
  {
    && (forall i: nat :: InGroup(i, group, |cs|) ==>
          f.payloads[i] == if DeliverableIn(arrived, group, |cs|, i) then cs[i] else [])
    && (group in f.parity ==>
          && ParityArrives(group) in arrived && f.parity[group] == Parity(cs, group)
          && |MissingIn(f.payloads, GroupStart(group), GroupEnd(group, |cs|))| != 1)
    && (ParityArrives(group) in arrived && group !in f.parity ==>
          forall i: nat :: InGroup(i, group, |cs|) ==> f.payloads[i] != [])
  }

  ghost predicate ReassemblyInv(f: RxFrame, arrived: set<Arrival>, cs: seq<seq<byte>>)
    requires Uniform(cs)
  {
    |f.payloads| == |cs| && forall group: nat :: GroupInv(f, group, arrived, cs)
  }

  /** A group is untouched by what happens in the others. */
  lemma GroupUntouched(f: RxFrame, f': RxFrame, group: nat, arrived: set<Arrival>, arrived': set<Arrival>,
                       cs: seq<seq<byte>>)
    requires Uniform(cs) && |f.payloads| == |f'.payloads| == |cs|
    requires GroupInv(f, group, arrived, cs)
    requires forall i: nat :: InGroup(i, group, |cs|) ==> f'.payloads[i] == f.payloads[i]
    requires group in f'.parity <==> group in f.parity
    requires group in f.parity ==> f'.parity[group] == f.parity[group]
    requires forall i: nat :: InGroup(i, group, |cs|) ==> (DataArrives(i) in arrived' <==> DataArrives(i) in arrived)
    requires ParityArrives(group) in arrived' <==> ParityArrives(group) in arrived
    ensures GroupInv(f', group, arrived', cs)
  {
    assert forall i: nat :: InGroup(i, group, |cs|) ==>
        DeliverableIn(arrived', group, |cs|, i) == DeliverableIn(arrived, group, |cs|, i);
    MissingAgrees(f.payloads, f'.payloads, GroupStart(group), GroupEnd(group, |cs|));
  }

  /** The arrival's own group after the arrival is stored and before recover. */
  ghost predicate GroupStored(f: RxFrame, group: nat, arrived: set<Arrival>, cs: seq<seq<byte>>)
    requires Uniform(cs) && |f.payloads| == |cs|
  {
    && (forall i: nat :: InGroup(i, group, |cs|) ==>
          && (f.payloads[i] == [] || (f.payloads[i] == cs[i] && DeliverableIn(arrived, group, |cs|, i)))
          && (DataArrives(i) in arrived ==> f.payloads[i] == cs[i]))
    && (group in f.parity ==> ParityArrives(group) in arrived && f.parity[group] == Parity(cs, group))
    && (ParityArrives(group) in arrived && group !in f.parity ==>
          forall i: nat :: InGroup(i, group, |cs|) ==> f.payloads[i] != [])
  }

  /** With its parity held and one packet missing, recover fills in the sender's chunk. */
  lemma RecoverWrites(f: RxFrame, group: nat, arrived: set<Arrival>, cs: seq<seq<byte>>) returns (pid: nat)
    requires Uniform(cs) && WellFormed(f) && |f.payloads| == |cs| && GroupStored(f, group, arrived, cs)
    requires group in f.parity && |MissingIn(f.payloads, GroupStart(group), GroupEnd(group, |cs|))| == 1
    ensures InGroup(pid, group, |cs|) && f.payloads[pid] == []
    ensures forall i: nat :: InGroup(i, group, |cs|) && i != pid ==> f.payloads[i] == cs[i]
    ensures Recovered(f, group).0.payloads == f.payloads[pid := cs[pid]]
    ensures Recovered(f, group).0.parity == f.parity - {group}
    ensures Recovered(f, group).1 == Some(pid)
  {
    pid := MissingIn(f.payloads, GroupStart(group), GroupEnd(group, |cs|))[0];
    MissingOne(f.payloads, GroupStart(group), GroupEnd(group, |cs|));
    assert forall i :: GroupStart(group) <= i < GroupEnd(group, |cs|) ==> InGroup(i, group, |cs|);
    ParityRebuilds(f.payloads, cs, group, pid);
  }

  lemma RecoverRebuilds(f: RxFrame, group: nat, arrived: set<Arrival>, cs: seq<seq<byte>>)
    requires Uniform(cs) && WellFormed(f) && |f.payloads| == |cs| && GroupStored(f, group, arrived, cs)
    requires group in f.parity && |MissingIn(f.payloads, GroupStart(group), GroupEnd(group, |cs|))| == 1
    ensures GroupInv(Recovered(f, group).0, group, arrived, cs)
  {
    var pid := RecoverWrites(f, group, arrived, cs);
    var f' := Recovered(f, group).0;
    forall i: nat | InGroup(i, group, |cs|) && i != pid
      ensures DataArrives(i) in arrived
    {
      assert cs[i] != [];
      assert DeliverableIn(arrived, group, |cs|, i);
    }
    assert DeliverableIn(arrived, group, |cs|, pid);
  }

  /** A packet recover cannot rebuild is not deliverable: another packet of the group is missing too, or no parity
      came. */
  lemma NotYetDeliverable(f: RxFrame, group: nat, arrived: set<Arrival>, cs: seq<seq<byte>>, pid: nat)
    requires Uniform(cs) && |f.payloads| == |cs| && GroupStored(f, group, arrived, cs)
    requires group !in f.parity || |MissingIn(f.payloads, GroupStart(group), GroupEnd(group, |cs|))| != 1
    requires InGroup(pid, group, |cs|) && f.payloads[pid] == []
    ensures !DeliverableIn(arrived, group, |cs|, pid)
  {
    NotArrived(f, group, arrived, cs, pid);
    if group in f.parity {
      var lo, hi := GroupStart(group), GroupEnd(group, |cs|);
      MissingOne(f.payloads, lo, hi);
      hide MissingIn, GroupStored;
      var i :| lo <= i < hi && i != pid && f.payloads[i] == [];
      assert InGroup(i, group, |cs|);
      NotArrived(f, group, arrived, cs, i);
    }
  }

  lemma NotArrived(f: RxFrame, group: nat, arrived: set<Arrival>, cs: seq<seq<byte>>, i: nat)
    requires Uniform(cs) && |f.payloads| == |cs| && GroupStored(f, group, arrived, cs)
    requires InGroup(i, group, |cs|) && f.payloads[i] == []
    ensures DataArrives(i) !in arrived && (group !in f.parity ==> ParityArrives(group) !in arrived)
  {
    assert cs[i] != [];
    hide Parity;
  }

  lemma RecoverLeaves(f: RxFrame, group: nat, arrived: set<Arrival>, cs: seq<seq<byte>>)
    requires Uniform(cs) && WellFormed(f) && |f.payloads| == |cs| && GroupStored(f, group, arrived, cs)
    requires group !in f.parity || |MissingIn(f.payloads, GroupStart(group), GroupEnd(group, |cs|))| != 1
    ensures GroupInv(f, group, arrived, cs)
  {
    forall pid: nat | InGroup(pid, group, |cs|) && f.payloads[pid] == []
      ensures !DeliverableIn(arrived, group, |cs|, pid)
    {
      NotYetDeliverable(f, group, arrived, cs, pid);
    }
  }

  /** recover writes only into its own group. */
  lemma RecoverLocal(f: RxFrame, group: nat)
    requires WellFormed(f)
    ensures var f' := Recovered(f, group).0;
      && |f'.payloads| == |f.payloads|
      && (forall i: nat :: i < |f.payloads| && !InGroup(i, group, |f.payloads|) ==> f'.payloads[i] == f.payloads[i])
      && (forall g: nat :: g != group ==> (g in f'.parity <==> g in f.parity))
      && (forall g: nat :: g != group && g in f.parity ==> f'.parity[g] == f.parity[g])
  {
    MissingOne(f.payloads, GroupStart(group), GroupEnd(group, |f.payloads|));
    hide MissingIn, XorRange, CountPresent;
  }

  lemma DataStored(f: RxFrame, pid: nat, arrived: set<Arrival>, cs: seq<seq<byte>>)
    requires Uniform(cs) && WellFormed(f) && |f.payloads| == |cs| && pid < |cs|
    requires GroupInv(f, pid / FEC_K, arrived, cs)
    ensures GroupStored(WithPayload(f, pid, cs[pid]), pid / FEC_K, arrived + {DataArrives(pid)}, cs)
  {
    assert InGroup(pid, pid / FEC_K, |cs|);
    forall i: nat | InGroup(i, pid / FEC_K, |cs|) && DeliverableIn(arrived, pid / FEC_K, |cs|, i)
      ensures DeliverableIn(arrived + {DataArrives(pid)}, pid / FEC_K, |cs|, i)
    {
    }
  }

  lemma ParityStored(f: RxFrame, group: nat, arrived: set<Arrival>, cs: seq<seq<byte>>)
    requires Uniform(cs) && WellFormed(f) && |f.payloads| == |cs| && GroupInv(f, group, arrived, cs)
    ensures var f' := WithParity(f, group, Parity(cs, group));
      GroupStored(f', group, arrived + {ParityArrives(group)}, cs)
  {
    forall i: nat | InGroup(i, group, |cs|) && DeliverableIn(arrived, group, |cs|, i)
      ensures DeliverableIn(arrived + {ParityArrives(group)}, group, |cs|, i)
    {
    }
  }

  lemma GroupRecovered(f: RxFrame, own: nat, arrived: set<Arrival>, cs: seq<seq<byte>>)
    requires Uniform(cs) && WellFormed(f) && |f.payloads| == |cs| && GroupStored(f, own, arrived, cs)
    ensures GroupInv(Recovered(f, own).0, own, arrived, cs)
  {
    if own in f.parity && |MissingIn(f.payloads, GroupStart(own), GroupEnd(own, |cs|))| == 1 {
      RecoverRebuilds(f, own, arrived, cs);
    } else {
      RecoverLeaves(f, own, arrived, cs);
    }
  }

  lemma OtherGroups(f: RxFrame, f': RxFrame, a: Arrival, own: nat, group: nat, arrived: set<Arrival>,
                    cs: seq<seq<byte>>)
    requires Uniform(cs) && WellFormed(f') && |f.payloads| == |f'.payloads| == |cs| && group != own
    requires GroupInv(f, group, arrived, cs)
    requires a == ParityArrives(own) || (a.DataArrives? && InGroup(a.pid, own, |cs|))
    requires forall i: nat :: i < |cs| && !InGroup(i, own, |cs|) ==> f'.payloads[i] == f.payloads[i]
    requires forall g: nat :: g != own ==> (g in f'.parity <==> g in f.parity)
    requires forall g: nat :: g != own && g in f.parity ==> f'.parity[g] == f.parity[g]
    ensures GroupInv(Recovered(f', own).0, group, arrived + {a}, cs)
  {
    RecoverLocal(f', own);
    assert forall i: nat :: InGroup(i, group, |cs|) ==> !InGroup(i, own, |cs|);
    GroupUntouched(f, Recovered(f', own).0, group, arrived, arrived + {a}, cs);
  }

  /** One more genuine arrival keeps the frame equal to what the set of arrivals determines. */
  lemma ReceiveStep(f: RxFrame, a: Arrival, arrived: set<Arrival>, cs: seq<seq<byte>>)
    requires Uniform(cs) && WellFormed(f) && ReassemblyInv(f, arrived, cs) && ArrivalOf(a, |cs|)
    ensures ReassemblyInv(Receive(f, a, cs), arrived + {a}, cs)
  {
    match a
    case DataArrives(pid) =>
      assert GroupInv(f, pid / FEC_K, arrived, cs);
      DataStored(f, pid, arrived, cs);
      GroupRecovered(WithPayload(f, pid, cs[pid]), pid / FEC_K, arrived + {a}, cs);
      forall group: nat | group != pid / FEC_K
        ensures GroupInv(Receive(f, a, cs), group, arrived + {a}, cs)
      {
        OtherGroups(f, WithPayload(f, pid, cs[pid]), a, pid / FEC_K, group, arrived, cs);
      }
    case ParityArrives(own) =>
      assert GroupInv(f, own, arrived, cs);
      ParityStored(f, own, arrived, cs);
      var f' := WithParity(f, own, Parity(cs, own));
      GroupRecovered(f', own, arrived + {a}, cs);
      forall group: nat | group != own
        ensures GroupInv(Receive(f, a, cs), group, arrived + {a}, cs)
      {
        OtherGroups(f, f', a, own, group, arrived, cs);
      }
  }

  lemma NothingArrived(f: RxFrame, cs: seq<seq<byte>>)
    requires Uniform(cs) && |f.payloads| == |cs| && f.parity == map[]
    requires forall i :: 0 <= i < |cs| ==> f.payloads[i] == []
    ensures ReassemblyInv(f, {}, cs)
  {
  }

  lemma {:induction false} ReceiveAllFrom(f: RxFrame, arrivals: seq<Arrival>, cs: seq<seq<byte>>)
    requires Uniform(cs) && WellFormed(f) && ReassemblyInv(f, {}, cs)
    requires forall a :: a in arrivals ==> ArrivalOf(a, |cs|)
    ensures ReassemblyInv(ReceiveAll(f, arrivals, cs), Arrived(arrivals), cs)
  {
    hide ReceiveAll, WellFormed, Receive, Arrived, GroupInv;
    if arrivals == [] {
      NoArrivals(f, cs);
    } else {
      var before, last := arrivals[..|arrivals| - 1], arrivals[|arrivals| - 1];
      ReceiveAllFrom(f, before, cs);
      ReceiveAllLast(f, arrivals, cs);
      ReceiveStep(ReceiveAll(f, before, cs), last, Arrived(before), cs);
      assert arrivals == before + [last];
      ArrivedNext(before, last);
    }
  }

  lemma NoArrivals(f: RxFrame, cs: seq<seq<byte>>)
    requires Uniform(cs) && WellFormed(f) && |f.payloads| == |cs|
    ensures ReceiveAll(f, [], cs) == f && Arrived([]) == {}
  {
  }

  /** After any arrivals, packet i is held exactly when it arrived or its group's parity and other packets did. */
  lemma ReceiveAllInv(h: PktHeader, now: u64, arrivals: seq<Arrival>, cs: seq<seq<byte>>)
    requires Uniform(cs) && PacketCount(h.frameBytes) == |cs|
    requires forall a :: a in arrivals ==> ArrivalOf(a, |cs|)
    ensures WellFormed(NewFrame(h, now))
    ensures ReassemblyInv(ReceiveAll(NewFrame(h, now), arrivals, cs), Arrived(arrivals), cs)
  {
    hide ReceiveAll, WellFormed, Arrived, GroupInv;
    NewFrameWellFormed(h, now);
    NothingArrived(NewFrame(h, now), cs);
    ReceiveAllFrom(NewFrame(h, now), arrivals, cs);
  }

  lemma ReceiveAllLast(f: RxFrame, arrivals: seq<Arrival>, cs: seq<seq<byte>>)
    requires WellFormed(f) && Uniform(cs) && |f.payloads| == |cs| && arrivals != []
    requires forall a :: a in arrivals ==> ArrivalOf(a, |cs|)
    ensures ReceiveAll(f, arrivals, cs)
         == Receive(ReceiveAll(f, arrivals[..|arrivals| - 1], cs), arrivals[|arrivals| - 1], cs)
  {
  }

  lemma ArrivedNext(arrivals: seq<Arrival>, a: Arrival)
    ensures Arrived(arrivals + [a]) == Arrived(arrivals) + {a}
  {
  }

  /** The frame after any arrivals is a function of which packets arrived: order and duplicates do not matter. */
  lemma OrderIrrelevant(h: PktHeader, now: u64, a: seq<Arrival>, b: seq<Arrival>, cs: seq<seq<byte>>)
    requires Uniform(cs) && PacketCount(h.frameBytes) == |cs|
    requires forall x :: x in a ==> ArrivalOf(x, |cs|)
    requires forall x :: x in b ==> ArrivalOf(x, |cs|)
    requires Arrived(a) == Arrived(b)
    ensures WellFormed(NewFrame(h, now))
    ensures var fa, fb := ReceiveAll(NewFrame(h, now), a, cs), ReceiveAll(NewFrame(h, now), b, cs);
      fa.payloads == fb.payloads && fa.received == fb.received
  {
    ReceiveAllInv(h, now, a, cs);
    ReceiveAllInv(h, now, b, cs);
    var fa, fb := ReceiveAll(NewFrame(h, now), a, cs), ReceiveAll(NewFrame(h, now), b, cs);
    forall i: nat | i < |cs|
      ensures fa.payloads[i] == fb.payloads[i]
    {
      assert InGroup(i, i / FEC_K, |cs|);
      assert GroupInv(fa, i / FEC_K, Arrived(a), cs) && GroupInv(fb, i / FEC_K, Arrived(b), cs);
    }
    assert fa.payloads == fb.payloads;
  }

  /** A frame is complete exactly when every packet is deliverable, and then it assembles to the sender's bytes. */
  lemma CompleteIffDeliverable(h: PktHeader, now: u64, arrivals: seq<Arrival>, bytes: seq<byte>)
    requires LegalFrame(bytes) && h.frameBytes == |bytes|
    requires forall a :: a in arrivals ==> ArrivalOf(a, PacketCount(|bytes|))
    ensures WellFormed(NewFrame(h, now))
    ensures var f := ReceiveAll(NewFrame(h, now), arrivals, Chunks(bytes));
      && (f.Complete() <==> forall i: nat :: i < PacketCount(|bytes|) ==>
                                Deliverable(Arrived(arrivals), PacketCount(|bytes|), i))
      && (f.Complete() ==> AssembleFirst(f.payloads, |f.payloads|, |bytes|) == bytes)
  {
    var cs := Chunks(bytes);
    ReceiveAllInv(h, now, arrivals, cs);
    var f := ReceiveAll(NewFrame(h, now), arrivals, cs);
    CountPresentAll(f.payloads);
    forall i: nat | i < |cs|
      ensures f.payloads[i] == if Deliverable(Arrived(arrivals), |cs|, i) then cs[i] else []
    {
      assert GroupInv(f, i / FEC_K, Arrived(arrivals), cs) && InGroup(i, i / FEC_K, |cs|);
    }
    if f.Complete() {
      assert f.payloads == cs;
      AssembleChunks(bytes);
    }
  }

  // ----- ReceivedFrame, updated in place -----

  datatype Assembled = Frame(bytes: seq<byte>) | Incomplete

  class ReceivedFrame {
    var size: u32
    var firstSeen: u64
    var frameTime: u64
    var completedAt: u64
    var keyframe: bool
    var received: nat
    var payloads: seq<seq<byte>>
    var parity: map<nat, seq<byte>>

    function View(): RxFrame
      reads this
    {
      RxFrame(size, firstSeen, frameTime, completedAt, keyframe, received, payloads, parity)
    }

    constructor (h: PktHeader, now: u64)
      ensures View() == NewFrame(h, now) && WellFormed(View())
    {
      size, firstSeen, frameTime, completedAt := h.frameBytes, now, h.frameTime, 0;
      keyframe, received := h.flags & KEYFRAME != 0, 0;
      payloads, parity := seq(PacketCount(h.frameBytes), _ => []), map[];
      new;
      NewFrameWellFormed(h, now);
    }

    /** The frame with this value. */
    constructor Of(f: RxFrame)
      ensures View() == f
    {
      size, firstSeen, frameTime, completedAt := f.size, f.firstSeen, f.frameTime, f.completedAt;
      keyframe, received, payloads, parity := f.keyframe, f.received, f.payloads, f.parity;
    }

    method Add(pid: nat, data: seq<byte>) returns (added: bool)
      requires WellFormed(View()) && |data| == LOAD_SZ
      modifies this
      ensures View() == WithPayload(old(View()), pid, data) && WellFormed(View())
      ensures added <==> pid < |payloads| && !old(View()).Has(pid)
    {
      if pid >= |payloads| || payloads[pid] != [] {
        return false;
      }
      CountPresentSet(payloads, pid, data);
      payloads := payloads[pid := data];
      received := received + 1;
      return true;
    }

    /** How many packets start..end are missing, and the last of them. */
    method CountMissing(start: nat, end: nat) returns (missing: nat, pid: nat)
      requires end <= |payloads|
      ensures missing == |MissingIn(payloads, start, end)|
      ensures missing > 0 ==> pid == MissingIn(payloads, start, end)[missing - 1]
    {
      hide MissingIn;
      missing, pid := 0, 0;
      MissingNone(payloads, start, Min(start, end));
      if start < end {
        for i := start to end
          invariant missing == |MissingIn(payloads, start, i)|
          invariant missing > 0 ==> pid == MissingIn(payloads, start, i)[missing - 1]
        {
          MissingNext(payloads, start, i);
          if payloads[i] == [] {
            missing, pid := missing + 1, i;
          }
        }
      }
    }

    /** The stored parity XORed with every packet start..end but pid. */
    method Rebuild(group: nat, start: nat, end: nat, pid: nat) returns (data: array<byte>)
      requires group in parity && |parity[group]| == LOAD_SZ && start <= end <= |payloads|
      requires forall i :: start <= i < end && i != pid ==> |payloads[i]| == LOAD_SZ
      ensures data.Length == LOAD_SZ && data[..] == XorRange(payloads, start, end, pid, parity[group])
    {
      var stored := parity[group];
      data := new byte[LOAD_SZ](b requires 0 <= b < |stored| => stored[b]);
      for i := start to end
        invariant fresh(data) && data[..] == XorRange(payloads, start, i, pid, parity[group])
      {
        if i != pid {
          XorInto(data, payloads[i]);
        }
      }
    }

    method Recover(group: nat) returns (recovered: Option<nat>)
      requires WellFormed(View())
      modifies this
      ensures (View(), recovered) == Recovered(old(View()), group) && WellFormed(View())
    {
      hide MissingIn, XorRange, CountPresent;
      if group !in parity {
        return None;
      }
      var start := group * FEC_K;
      var end := Min(start + FEC_K, |payloads|);
      var missing, pid := CountMissing(start, end);
      if missing != 1 {
        return None;
      }
      MissingOne(payloads, start, end);
      assert pid == MissingIn(payloads, start, end)[0];
      var data := Rebuild(group, start, end, pid);
      var _ := Add(pid, data[..]);
      parity := parity - {group};
      return Some(pid);
    }

    method Assemble() returns (r: Assembled)
      ensures r == if View().Complete() then Frame(AssembleFirst(payloads, |payloads|, size)) else Incomplete
    {
      if received != |payloads| {
        return Incomplete;
      }
      var out := [];
      for k := 0 to |payloads|
        invariant out == AssembleFirst(payloads, k, size)
      {
        out := out + payloads[k][..Min(|payloads[k]|, size - |out|)];
      }
      return Frame(out);
    }
  }

  /** data ^= payload, byte by byte. */
  method XorInto(data: array<byte>, payload: seq<byte>)
    requires data.Length == |payload| == LOAD_SZ
    modifies data
    ensures data[..] == XorBytes(old(data[..]), payload)
  {
    for b := 0 to LOAD_SZ
      invariant forall k :: 0 <= k < b ==> data[k] == old(data[k]) ^ payload[k]
      invariant forall k :: b <= k < LOAD_SZ ==> data[k] == old(data[k])
    {
      data[b] := data[b] ^ payload[b];
    }
  }
}
