/** The packets the sender builds (pacer and retry_one in codes/sender.cc). */
module Packetizer {
  import opened Bytes
  import opened Protocol
  import opened Reassembly

  /** What the wire carries of one frame in flight. */
  datatype TxFrame = TxFrame(session: u64, id: u32, firstSent: u64, keyframe: bool, bytes: seq<byte>)

  /** Clock readings are positive and fit int64_t. */
  ghost predicate ClockReading(t: nat) { 0 < t <= INT64_MAX }

  ghost predicate LegalTx(f: TxFrame) {
    LegalFrame(f.bytes) && f.session != 0 && 0 < f.id < UINT32_MAX && ClockReading(f.firstSent)
  }

  function DataFlags(pid: nat, count: nat, keyframe: bool): byte {
    (if pid == 0 then FIRST else 0) | (if pid + 1 == count then LAST else 0) | (if keyframe then KEYFRAME else 0)
  }

  /** Header of data packet pid: attempt 0 from the pacer, later attempts from retry_one. */
  function DataHeader(f: TxFrame, pid: nat, attempt: u16, now: u64): PktHeader
    requires LegalTx(f) && pid < PacketCount(|f.bytes|)
  {
    PacketCountExact(|f.bytes|);
    PktHeader(DataFlags(pid, PacketCount(|f.bytes|), f.keyframe), attempt, f.session, now, f.firstSent,
              f.id, pid, |f.bytes|, pid / FEC_K)
  }

  function ParityHeader(f: TxFrame, group: nat, now: u64): PktHeader
    requires LegalTx(f) && GroupStart(group) < PacketCount(|f.bytes|)
  {
    PacketCountExact(|f.bytes|);
    PktHeader(FEC, 0, f.session, now, f.firstSent, f.id, 0, |f.bytes|, group)
  }

  function ProbeHeader(f: TxFrame, i: nat, now: u64): PktHeader
    requires LegalTx(f) && i < N_PROBE
  {
    PktHeader(PROBE, 0, f.session, now, f.firstSent, f.id, i, |f.bytes|, 0)
  }

  function DataPacket(f: TxFrame, pid: nat, attempt: u16, now: u64): Datagram
    requires LegalTx(f) && pid < PacketCount(|f.bytes|)
  {
    PacketCountExact(|f.bytes|);
    Datagram(DataHeader(f, pid, attempt, now), Chunk(f.bytes, pid))
  }

  function ParityPacket(f: TxFrame, group: nat, now: u64): Datagram
    requires LegalTx(f) && GroupStart(group) < PacketCount(|f.bytes|)
  {
    Datagram(ParityHeader(f, group, now), Parity(Chunks(f.bytes), group))
  }

  function ProbePacket(f: TxFrame, i: nat, now: u64): Datagram
    requires LegalTx(f) && i < N_PROBE
  {
    Datagram(ProbeHeader(f, i, now), [])
  }

  function StreamInfoPacket(session: u64, width: u32, height: u32): Datagram {
    Datagram(PktHeader(STREAM_INFO, 0, session, 0, 0, 0, 0, 0, 0), BigEndian(width, 4) + BigEndian(height, 4))
  }

  // ----- Every packet the sender builds passes the receiver's checks -----

  lemma DataPacketAccepted(f: TxFrame, pid: nat, attempt: u16, now: u64)
    requires LegalTx(f) && pid < PacketCount(|f.bytes|) && ClockReading(now)
    ensures DataPacket(f, pid, attempt, now).Accepted() && DataPacket(f, pid, attempt, now).Size() == MAX_BUF
  {
    PacketCountExact(|f.bytes|);
    var flags := DataFlags(pid, PacketCount(|f.bytes|), f.keyframe);
    assert flags & STREAM_INFO == 0 && flags & PROBE == 0 && flags & FEC == 0;
    assert flags & !(FIRST | LAST | KEYFRAME) == 0;
    assert flags & FIRST != 0 <==> pid == 0;
    assert flags & LAST != 0 <==> pid + 1 == PacketCount(|f.bytes|);
  }

  lemma ParityPacketAccepted(f: TxFrame, group: nat, now: u64)
    requires LegalTx(f) && GroupStart(group) + 1 < PacketCount(|f.bytes|) && ClockReading(now)
    ensures ParityPacket(f, group, now).Accepted() && ParityPacket(f, group, now).Size() == MAX_BUF
  {
    PacketCountExact(|f.bytes|);
  }

  lemma ProbePacketAccepted(f: TxFrame, i: nat, now: u64)
    requires LegalTx(f) && i < N_PROBE && ClockReading(now)
    ensures ProbePacket(f, i, now).Accepted() && ProbePacket(f, i, now).Size() == HEADER_SIZE
  {
  }

  /** The receiver reads back the announced size. */
  lemma StreamInfoAccepted(session: u64, width: u32, height: u32)
    requires session != 0
    ensures StreamInfoPacket(session, width, height).Accepted()
    ensures var p := StreamInfoPacket(session, width, height).payload;
      |p| == 8 && FromBigEndian(p[0..4]) == width && FromBigEndian(p[4..8]) == height
  {
    var p := StreamInfoPacket(session, width, height).payload;
    assert p[0..4] == BigEndian(width, 4) && p[4..8] == BigEndian(height, 4);
    Pow256Values();
    FieldRoundTrip(width, 4);
    FieldRoundTrip(height, 4);
  }

  /** d is one of frame f's packets. */
  ghost predicate Genuine(f: TxFrame, d: Datagram) {
    LegalTx(f) &&
    (|| (exists pid: nat, attempt: u16, now: u64 ::
           pid < PacketCount(|f.bytes|) && ClockReading(now) && d == DataPacket(f, pid, attempt, now))
     || (exists group: nat, now: u64 ::
           GroupStart(group) + 1 < PacketCount(|f.bytes|) && ClockReading(now) && d == ParityPacket(f, group, now))
     || (exists i: nat, now: u64 :: i < N_PROBE && ClockReading(now) && d == ProbePacket(f, i, now)))
  }

  /** Every packet of a frame gets through decode with its header and payload unchanged. */
  lemma GenuineAccepted(f: TxFrame, d: Datagram)
    requires Genuine(f, d)
    ensures d.Accepted() && Parse(Wire(d)) == Some(d)
    ensures d.h.session == f.session && d.h.frameId == f.id
    ensures d.h.frameBytes == |f.bytes| && d.h.frameTime == f.firstSent
  {
    hide DataPacket, ParityPacket, ProbePacket, PacketCount;
    if pid: nat, attempt: u16, now: u64 :|
      pid < PacketCount(|f.bytes|) && ClockReading(now) && d == DataPacket(f, pid, attempt, now)
    {
      DataPacketAccepted(f, pid, attempt, now);
      DataPacketFrame(f, pid, attempt, now);
    } else if group: nat, now: u64 :|
      GroupStart(group) + 1 < PacketCount(|f.bytes|) && ClockReading(now) && d == ParityPacket(f, group, now)
    {
      ParityPacketAccepted(f, group, now);
      ParityPacketFrame(f, group, now);
    } else {
      var i: nat, now: u64 :| i < N_PROBE && ClockReading(now) && d == ProbePacket(f, i, now);
      ProbePacketAccepted(f, i, now);
      ProbePacketFrame(f, i, now);
    }
    WireRoundTrip(d);
  }

  ghost predicate NamesFrame(f: TxFrame, h: PktHeader) {
    h.session == f.session && h.frameId == f.id && h.frameBytes == |f.bytes| && h.frameTime == f.firstSent
  }

  /** What a packet says of itself: its number, attempt and send time, and the flags by which the receiver tells packets
      apart. */
  lemma PacketsNumbered(f: TxFrame, k: nat, attempt: u16, now: u64)
    requires LegalTx(f)
    ensures k < PacketCount(|f.bytes|) ==>
              var h := DataPacket(f, k, attempt, now).h;
              && h.packetId == k && h.retransSeq == attempt && h.sendTime == now && h.flags & (PROBE | FEC) == 0
              && (h.flags & FIRST != 0 <==> k == 0) && (h.flags & LAST != 0 <==> k + 1 == PacketCount(|f.bytes|))
              && (h.flags & KEYFRAME != 0 <==> f.keyframe)
    ensures GroupStart(k) < PacketCount(|f.bytes|) ==>
              var h := ParityPacket(f, k, now).h; h.fecGroup == k && h.sendTime == now && h.flags == FEC
    ensures k < N_PROBE ==>
              var h := ProbePacket(f, k, now).h;
              h.packetId == k && h.retransSeq == 0 && h.sendTime == now && h.flags == PROBE
  {
    PacketCountExact(|f.bytes|);
    var flags := DataFlags(k, PacketCount(|f.bytes|), f.keyframe);
    assert flags & (PROBE | FEC) == 0;
    assert flags & FIRST != 0 <==> k == 0;
    assert flags & LAST != 0 <==> k + 1 == PacketCount(|f.bytes|);
    assert flags & KEYFRAME != 0 <==> f.keyframe;
  }

  lemma DataPacketFrame(f: TxFrame, pid: nat, attempt: u16, now: u64)
    requires LegalTx(f) && pid < PacketCount(|f.bytes|)
    ensures NamesFrame(f, DataPacket(f, pid, attempt, now).h)
  {
  }

  lemma ParityPacketFrame(f: TxFrame, group: nat, now: u64)
    requires LegalTx(f) && GroupStart(group) < PacketCount(|f.bytes|)
    ensures NamesFrame(f, ParityPacket(f, group, now).h)
  {
  }

  lemma ProbePacketFrame(f: TxFrame, i: nat, now: u64)
    requires LegalTx(f) && i < N_PROBE
    ensures NamesFrame(f, ProbePacket(f, i, now).h)
  {
  }

  // ----- The pacer's packet loop -----

  datatype Slot = DataSlot(pid: nat) | ParitySlot(group: nat) | ProbeSlot(i: nat)

  /** The pacer's test for sending a parity packet after data packet pid. */
  predicate ParityDue(pid: nat, count: nat) {
    (pid % FEC_K == FEC_K - 1 || pid + 1 == count) && pid % FEC_K != 0
  }

  /** What goes out with the first n data packets. */
  function SlotsUpTo(n: nat, count: nat): seq<Slot> {
    if n == 0 then []
    else
      SlotsUpTo(n - 1, count) + [DataSlot(n - 1)]
      + if ParityDue(n - 1, count) then [ParitySlot((n - 1) / FEC_K)] else []
  }

  function Slots(count: nat): seq<Slot> {
    SlotsUpTo(count, count) + [ProbeSlot(0), ProbeSlot(1), ProbeSlot(2), ProbeSlot(3)]
  }

  ghost predicate SlotOf(s: Slot, count: nat) {
    match s
    case DataSlot(pid) => pid < count
    case ParitySlot(group) => GroupStart(group) + 1 < count
    case ProbeSlot(i) => i < N_PROBE
  }

  function Render(f: TxFrame, s: Slot, now: u64): Datagram
    requires LegalTx(f) && SlotOf(s, PacketCount(|f.bytes|))
  {
    match s
    case DataSlot(pid) => DataPacket(f, pid, 0, now)
    case ParitySlot(group) => ParityPacket(f, group, now)
    case ProbeSlot(i) => ProbePacket(f, i, now)
  }

  function ParitySlots(slots: seq<Slot>): nat {
    if slots == [] then 0 else ParitySlots(slots[..|slots| - 1]) + if slots[|slots| - 1].ParitySlot? then 1 else 0
  }

  lemma {:induction false} SlotCounts(n: nat, count: nat)
    requires n <= count
    ensures var parity := n / FEC_K + if n == count && n % FEC_K > 1 then 1 else 0;
      |SlotsUpTo(n, count)| == n + parity && ParitySlots(SlotsUpTo(n, count)) == parity
  {
    if n > 0 {
      SlotCounts(n - 1, count);
      var before := SlotsUpTo(n - 1, count);
      assert (before + [DataSlot(n - 1)])[..|before|] == before;
      if ParityDue(n - 1, count) {
        var all := SlotsUpTo(n, count);
        assert all[..|all| - 1] == before + [DataSlot(n - 1)];
      } else {
        assert SlotsUpTo(n, count) == before + [DataSlot(n - 1)];
      }
    }
  }

  /** For every packet count the loop emits exactly parity_count parity packets. */
  lemma LoopEmitsParityCount(count: u32)
    ensures ParitySlots(SlotsUpTo(count, count)) == ParityCount(count)
    ensures |SlotsUpTo(count, count)| == count + ParityCount(count)
  {
    SlotCounts(count, count);
  }

  function TotalBytes(ds: seq<Datagram>): nat {
    if ds == [] then 0 else TotalBytes(ds[..|ds| - 1]) + ds[|ds| - 1].Size()
  }

  lemma {:induction false} UniformTotal(ds: seq<Datagram>, n: nat)
    requires forall d :: d in ds ==> d.Size() == n
    ensures TotalBytes(ds) == |ds| * n
  {
    if ds != [] {
      UniformTotal(ds[..|ds| - 1], n);
    }
  }

  lemma {:induction false} TotalAppend(a: seq<Datagram>, b: seq<Datagram>)
    ensures TotalBytes(a + b) == TotalBytes(a) + TotalBytes(b)
  {
    if b == [] {
      assert a + b == a;
    } else {
      assert (a + b)[..|a + b| - 1] == a + b[..|b| - 1];
      TotalAppend(a, b[..|b| - 1]);
    }
  }

  /** The datagrams out are the slots' packets, the k-th stamped with the clock at the k-th send. */
  ghost predicate Rendered(f: TxFrame, out: seq<Datagram>, slots: seq<Slot>, now: nat -> u64)
    requires LegalTx(f)
  {
    && |out| == |slots|
    && (forall k :: 0 <= k < |slots| ==> SlotOf(slots[k], PacketCount(|f.bytes|)))
    && (forall k :: 0 <= k < |slots| ==> out[k] == Render(f, slots[k], now(k)))
  }

  /** The next data packet, and its group's parity if it is due. */
  function DataAndParity(f: TxFrame, pid: nat, k: nat, now: nat -> u64): seq<Datagram>
    requires LegalTx(f) && pid < PacketCount(|f.bytes|)
  {
    [DataPacket(f, pid, 0, now(k))]
    + if ParityDue(pid, PacketCount(|f.bytes|)) then [ParityPacket(f, pid / FEC_K, now(k + 1))] else []
  }

  lemma RenderedNext(f: TxFrame, out: seq<Datagram>, pid: nat, now: nat -> u64)
    requires LegalTx(f) && pid < PacketCount(|f.bytes|)
    requires Rendered(f, out, SlotsUpTo(pid, PacketCount(|f.bytes|)), now)
    ensures Rendered(f, out + DataAndParity(f, pid, |out|, now), SlotsUpTo(pid + 1, PacketCount(|f.bytes|)), now)
  {
  }

  lemma RenderedProbes(f: TxFrame, out: seq<Datagram>, probes: seq<Datagram>, now: nat -> u64)
    requires LegalTx(f) && Rendered(f, out, SlotsUpTo(PacketCount(|f.bytes|), PacketCount(|f.bytes|)), now)
    requires |probes| == N_PROBE
    requires forall i: nat :: i < N_PROBE ==> probes[i] == ProbePacket(f, i, now(|out| + i))
    ensures Rendered(f, out + probes, Slots(PacketCount(|f.bytes|)), now)
  {
  }

  /** The pacer: one pass over a frame. */
  method PaceFrame(f: TxFrame, now: nat -> u64) returns (out: seq<Datagram>)
    requires LegalTx(f) && forall k :: ClockReading(now(k))
    ensures Rendered(f, out, Slots(PacketCount(|f.bytes|)), now)
    ensures TotalBytes(out) == FrameUdpBytes(|f.bytes|)
  {
    var packets := PaceData(f, now);
    assert |packets| == |SlotsUpTo(PacketCount(|f.bytes|), PacketCount(|f.bytes|))|;
    var probes := PaceProbes(f, |packets|, now);
    RenderedProbes(f, packets, probes, now);
    FrameTotal(|f.bytes|, packets, probes);
    out := packets + probes;
  }

  lemma FrameTotal(bytes: u32, packets: seq<Datagram>, probes: seq<Datagram>)
    requires 1 <= bytes <= MAX_FRAME_BYTES
    requires |packets| == |SlotsUpTo(PacketCount(bytes), PacketCount(bytes))| && |probes| == N_PROBE
    requires forall d :: d in packets ==> d.Size() == MAX_BUF
    requires forall d :: d in probes ==> d.Size() == HEADER_SIZE
    ensures TotalBytes(packets + probes) == FrameUdpBytes(bytes)
  {
    PacketCountExact(bytes);
    LoopEmitsParityCount(PacketCount(bytes));
    UniformTotal(packets, MAX_BUF);
    UniformTotal(probes, HEADER_SIZE);
    TotalAppend(packets, probes);
  }

  method PaceProbes(f: TxFrame, sent: nat, now: nat -> u64) returns (probes: seq<Datagram>)
    requires LegalTx(f) && forall k :: ClockReading(now(k))
    ensures |probes| == N_PROBE
    ensures forall i: nat :: i < N_PROBE ==> probes[i] == ProbePacket(f, i, now(sent + i))
    ensures forall d :: d in probes ==> d.Size() == HEADER_SIZE
  {
    probes := [];
    for i := 0 to N_PROBE
      invariant |probes| == i
      invariant forall k: nat :: k < i ==> probes[k] == ProbePacket(f, k, now(sent + k))
      invariant forall d :: d in probes ==> d.Size() == HEADER_SIZE
    {
      ProbePacketAccepted(f, i, now(sent + i));
      probes := probes + [ProbePacket(f, i, now(sent + i))];
    }
  }

  /** The data and parity packets, each data packet XORed into the running parity as it goes out. */
  method PaceData(f: TxFrame, now: nat -> u64) returns (out: seq<Datagram>)
    requires LegalTx(f) && forall k :: ClockReading(now(k))
    ensures Rendered(f, out, SlotsUpTo(PacketCount(|f.bytes|), PacketCount(|f.bytes|)), now)
    ensures forall d :: d in out ==> d.Size() == MAX_BUF
  {
    var count := PacketCount(|f.bytes|);
    PacketCountExact(|f.bytes|);
    var parity := new byte[LOAD_SZ](_ => 0);
    out := [];
    for pid := 0 to count
      invariant fresh(parity)
      invariant Rendered(f, out, SlotsUpTo(pid, count), now)
      invariant forall d :: d in out ==> d.Size() == MAX_BUF
      invariant pid % FEC_K != 0 ==> parity[..] == RunningParity(f, pid)
    {
      RenderedNext(f, out, pid, now);
      var packets := PaceOne(f, pid, |out|, now, parity);
      out := out + packets;
    }
  }

  method PaceOne(f: TxFrame, pid: nat, sent: nat, now: nat -> u64, parity: array<byte>) returns (out: seq<Datagram>)
    requires LegalTx(f) && pid < PacketCount(|f.bytes|) && forall k :: ClockReading(now(k))
    requires parity.Length == LOAD_SZ && (pid % FEC_K != 0 ==> parity[..] == RunningParity(f, pid))
    modifies parity
    ensures out == DataAndParity(f, pid, sent, now)
    ensures forall d :: d in out ==> d.Size() == MAX_BUF
    ensures (pid + 1) % FEC_K != 0 ==> parity[..] == RunningParity(f, pid + 1)
  {
    DataPacketAccepted(f, pid, 0, now(sent));
    var packet := DataPacket(f, pid, 0, now(sent));
    out := [packet];
    if pid % FEC_K == 0 {
      ClearParity(parity);
    }
    RunningParityNext(f, pid);
    XorInto(parity, packet.payload);
    if (pid % FEC_K == FEC_K - 1 || pid + 1 == PacketCount(|f.bytes|)) && pid % FEC_K != 0 {
      ParityPacketAccepted(f, pid / FEC_K, now(sent + 1));
      out := out + [Datagram(ParityHeader(f, pid / FEC_K, now(sent + 1)), parity[..])];
    }
  }

  /** The XOR of the packets of pid's group that come before it. */
  ghost function RunningParity(f: TxFrame, pid: nat): (p: seq<byte>)
    requires LegalTx(f) && pid <= PacketCount(|f.bytes|)
    ensures |p| == LOAD_SZ
  {
    XorRange(Chunks(f.bytes), GroupStart(pid / FEC_K), pid, -1, Zeros(LOAD_SZ))
  }

  lemma GroupPositions(pid: nat, count: nat)
    requires pid < count
    ensures GroupStart(pid / FEC_K) <= pid
    ensures pid % FEC_K == 0 ==> GroupStart(pid / FEC_K) == pid
    ensures (pid + 1) % FEC_K != 0 ==> (pid + 1) / FEC_K == pid / FEC_K
    ensures ParityDue(pid, count) ==> GroupEnd(pid / FEC_K, count) == pid + 1
  {
  }

  lemma RunningParityNext(f: TxFrame, pid: nat)
    requires LegalTx(f) && pid < PacketCount(|f.bytes|)
    ensures pid % FEC_K == 0 ==> RunningParity(f, pid) == Zeros(LOAD_SZ)
    ensures var next := XorBytes(RunningParity(f, pid), Chunk(f.bytes, pid));
      && ((pid + 1) % FEC_K != 0 ==> RunningParity(f, pid + 1) == next)
      && (ParityDue(pid, PacketCount(|f.bytes|)) ==> Parity(Chunks(f.bytes), pid / FEC_K) == next)
  {
    PacketCountExact(|f.bytes|);
    var cs, lo := Chunks(f.bytes), GroupStart(pid / FEC_K);
    assert cs[pid] == Chunk(f.bytes, pid);
    GroupPositions(pid, |cs|);
    XorRangeNext(cs, lo, pid);
    hide XorRange, XorBytes, Chunks, Chunk, Zeros, PacketCount, ParityDue, GroupStart, GroupEnd;
  }

  method ClearParity(parity: array<byte>)
    requires parity.Length == LOAD_SZ
    modifies parity
    ensures parity[..] == Zeros(LOAD_SZ)
  {
    for b := 0 to LOAD_SZ
      invariant forall k :: 0 <= k < b ==> parity[k] == 0
    {
      parity[b] := 0;
    }
  }
}
