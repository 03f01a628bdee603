/** The receiver (codes/receiver.cc): one pass of its loop takes at most one datagram, then delivers and expires
    frames. */
module Receiver {
  import opened Bytes
  import opened Protocol
  import opened Reassembly

  const WINDOW: nat := 256
  const MAX_BYTES: nat := 16 * 1024 * 1024
  const MAX_RETIRED: nat := 64
  const KEY_INTERVAL: nat := 200_000

  /** IPv4 address and port. */
  type Address = (u32, u16)

  /** A frame under reassembly, and whether the delivery loop is done with it. */
  datatype Entry = Entry(id: u32, frame: RxFrame, played: bool)

  /** What the decoder made of a frame: an image, nothing yet, or an error. */
  datatype Outcome = Image | NoImage | Broken

  /** What the receiver does to its decoder, in order; Tally is a frame counted without decoding. */
  datatype Playback =
    | Opened(session: u64)
    | NewDecoder(width: u32, height: u32)
    | Reset
    | Decode(session: u64, id: u32, keyframe: bool, bytes: seq<byte>, outcome: Outcome)
    | Tally(id: u32)

  /** frames is the std::map as its entries in id order; halted is the exit after too many sessions. */
  datatype Receiver = Receiver(
    headless: bool, halted: bool, session: u64, retired: set<u64>, peer: Address, wireBytes: u64,
    frames: seq<Entry>, next: u32, needKey: bool, width: u32, height: u32, decoder: bool, lastKeyRequest: u64,
    delivered: nat, decoded: nat, acks: seq<RecvAck>, trace: seq<Playback>)

  function Init(headless: bool): Receiver {
    Receiver(headless, false, 0, {}, (0, 0), 0, [], 1, true, 0, 0, false, 0, 0, 0, [], [])
  }

  // ----- The frame map -----

  function Find(frames: seq<Entry>, id: u32): (r: Option<nat>)
    ensures r.Some? ==> r.value < |frames| && frames[r.value].id == id
    ensures r.None? ==> forall i :: 0 <= i < |frames| ==> frames[i].id != id
  {
    if frames == [] then None
    else if frames[|frames| - 1].id == id then Some(|frames| - 1)
    else Find(frames[..|frames| - 1], id)
  }

  /** lower_bound: the first frame with an id of at least id. */
  function LowerBound(frames: seq<Entry>, id: u32): (r: nat)
    ensures r <= |frames|
    ensures r < |frames| ==> frames[r].id >= id
    ensures forall i :: 0 <= i < r ==> frames[i].id < id
  {
    if frames == [] || frames[0].id >= id then 0 else 1 + LowerBound(frames[1..], id)
  }

  function Insert(frames: seq<Entry>, e: Entry): seq<Entry> {
    var i := LowerBound(frames, e.id);
    frames[..i] + [e] + frames[i..]
  }

  function Allocated(frames: seq<Entry>): nat {
    if frames == [] then 0 else Allocated(frames[..|frames| - 1]) + frames[|frames| - 1].frame.size
  }

  ghost predicate FrameOk(f: RxFrame) {
    WellFormed(f) && |f.payloads| == PacketCount(f.size) && 1 <= f.size <= MAX_FRAME_BYTES
  }

  ghost predicate ValidFrames(frames: seq<Entry>) {
    && (forall i, j :: 0 <= i < j < |frames| ==> frames[i].id < frames[j].id)
    && (forall i :: 0 <= i < |frames| ==> FrameOk(frames[i].frame) && 0 < frames[i].id < UINT32_MAX)
  }

  // ----- One datagram -----

  /** Keep the frame, if the receiver has room for it and it is not behind the play-out position. */
  function Admit(s: Receiver, h: PktHeader, now: u64): Receiver {
    if Find(s.frames, h.frameId).None? && h.frameId >= s.next && h.frameId - s.next < WINDOW && |s.frames| < WINDOW
       && Allocated(s.frames) + h.frameBytes <= MAX_BYTES
    then s.(frames := Insert(s.frames, Entry(h.frameId, NewFrame(h, now), false)))
    else s
  }

  /** recover leaves everything but the packets alone. */
  lemma RecoveredShape(f: RxFrame, group: nat)
    requires WellFormed(f)
    ensures var f' := Recovered(f, group).0;
      && |f'.payloads| == |f.payloads|
      && f' == f.(received := f'.received, payloads := f'.payloads, parity := f'.parity)
  {
    hide WellFormed, MissingIn, XorRange, CountPresent;
  }

  function StoreParity(f: RxFrame, group: nat, payload: seq<byte>): (r: (RxFrame, Option<nat>))
    requires FrameOk(f) && |payload| == LOAD_SZ
    ensures FrameOk(r.0)
  {
    hide Recovered, CountPresent;
    var f1 := WithParity(f, group, payload);
    RecoveredShape(f1, group);
    Recovered(f1, group)
  }

  function StoreData(f: RxFrame, pid: nat, payload: seq<byte>, keyframe: bool): (r: (RxFrame, Option<nat>))
    requires FrameOk(f) && |payload| == LOAD_SZ
    ensures FrameOk(r.0)
  {
    hide Recovered, CountPresent;
    var f1 := f.(keyframe := f.keyframe || keyframe);
    var f2 := WithPayload(f1, pid, payload);
    RecoveredShape(f2, pid / FEC_K);
    Recovered(f2, pid / FEC_K)
  }

  /** What a packet does to its frame, and the packet recover rebuilt. */
  function Store(f: RxFrame, d: Datagram): (r: (RxFrame, Option<nat>))
    requires FrameOk(f) && d.Accepted() && d.h.flags != STREAM_INFO
    ensures FrameOk(r.0)
  {
    hide FrameOk;
    PayloadFits(d);
    if d.h.flags == FEC then StoreParity(f, d.h.fecGroup, d.payload)
    else if d.h.flags & PROBE == 0 then StoreData(f, d.h.packetId, d.payload, d.h.flags & KEYFRAME != 0)
    else (f, None)
  }

  /** Accepted data and parity packets carry a full payload. */
  lemma PayloadFits(d: Datagram)
    requires d.Accepted() && d.h.flags != STREAM_INFO
    ensures d.h.flags == FEC || d.h.flags & PROBE == 0 ==> |d.payload| == LOAD_SZ
    ensures d.h.flags & PROBE != 0 ==> d.h.flags == PROBE
    ensures 0 < d.h.frameId < UINT32_MAX && 1 <= d.h.frameBytes <= MAX_FRAME_BYTES
  {
    assert FEC & PROBE == 0;
  }

  function AckFor(s: Receiver, h: PktHeader, f: RxFrame, now: u64, pid: u32, flags: byte, echo: u64,
                  attempt: u16): RecvAck
  {
    RecvAck(flags | (if f.Complete() then FRAME_COMPLETE else 0), attempt, s.session, echo, now, f.completedAt,
            s.wireBytes, h.frameId, pid)
  }

  /** The ACK for a rebuilt packet, then the one for the packet itself; parity packets are not acknowledged. */
  function AcksFor(s: Receiver, h: PktHeader, f: RxFrame, now: u64, recovered: Option<nat>): seq<RecvAck> {
    (match recovered
     case Some(pid) => [AckFor(s, h, f, now, U32(pid), RECOVERED, 0, 0)]
     case None => [])
    + if h.flags == FEC then [] else [AckFor(s, h, f, now, h.packetId, h.flags, h.sendTime, h.retransSeq)]
  }

  /** A data, parity or probe packet of the session. */
  function TakePacket(s: Receiver, d: Datagram, now: u64): Receiver
    requires ValidFrames(s.frames) && d.Accepted() && d.h.flags != STREAM_INFO
  {
    var s1 := Admit(s, d.h, now);
    match Find(s1.frames, d.h.frameId)
    case None => s1
    case Some(i) =>
      var e := s1.frames[i];
      if !e.frame.Matches(d.h) then s1
      else
        assert FrameOk(e.frame) by {
          AdmitKeepsFrames(s, d, now);
        }
        var (f, recovered) := Store(e.frame, d);
        var done := f.Complete() && f.completedAt == 0;
        var f' := if done then f.(completedAt := now) else f;
        s1.(frames := s1.frames[i := e.(frame := f')],
            delivered := s1.delivered + if done then 1 else 0,
            acks := s1.acks + AcksFor(s1, d.h, f', now, recovered))
  }

  lemma AdmitKeepsFrames(s: Receiver, d: Datagram, now: u64)
    requires ValidFrames(s.frames) && d.Accepted() && d.h.flags != STREAM_INFO
    ensures ValidFrames(Admit(s, d.h, now).frames)
  {
    PayloadFits(d);
    NewFrameWellFormed(d.h, now);
    hide WellFormed, Allocated, PacketCount, HeaderAccepted;
    if Admit(s, d.h, now).frames != s.frames {
      InsertKeeps(s.frames, Entry(d.h.frameId, NewFrame(d.h, now), false));
    }
  }

  lemma InsertKeeps(frames: seq<Entry>, e: Entry)
    requires ValidFrames(frames) && FrameOk(e.frame) && 0 < e.id < UINT32_MAX && Find(frames, e.id).None?
    ensures ValidFrames(Insert(frames, e))
  {
    hide FrameOk, Find;
    var i, all := LowerBound(frames, e.id), Insert(frames, e);
    forall j, k | 0 <= j < k < |all|
      ensures all[j].id < all[k].id
    {
      if j <= i < k {
        assert i < |frames|;
        assert frames[i].id != e.id;
        assert frames[i].id <= all[k].id;
      }
    }
  }

  /** STREAM_INFO: a new picture size means a new decoder. */
  function TakeStreamInfo(s: Receiver, payload: seq<byte>): Receiver
    requires |payload| == 8
  {
    Pow256Values();
    var w, h := FromBigEndian(payload[0..4]), FromBigEndian(payload[4..8]);
    if 2 <= w <= 8192 && 2 <= h <= 8192 && w % 2 == 0 && h % 2 == 0 then
      var s1 := if !s.headless && (w != s.width || h != s.height)
        then s.(decoder := true, needKey := true, trace := s.trace + [NewDecoder(w, h)])
        else s;
      s1.(width := w, height := h)
    else s
  }

  function TakeInSession(s: Receiver, d: Datagram, now: u64): Receiver
    requires ValidFrames(s.frames) && d.Accepted()
  {
    var s1 := s.(wireBytes := (s.wireBytes + d.Size()) % TWO64);
    if d.h.flags == STREAM_INFO then TakeStreamInfo(s1, d.payload) else TakePacket(s1, d, now)
  }

  function Open(s: Receiver, session: u64, from: Address): Receiver {
    s.(session := session, peer := from, wireBytes := 0, frames := [], next := 1, needKey := true,
       decoder := false, width := 0, height := 0, trace := s.trace + [Opened(session)])
  }

  predicate StartsSession(h: PktHeader) { h.flags == STREAM_INFO || h.frameId == 1 }

  /** A datagram that decode accepts. */
  function Take(s: Receiver, from: Address, d: Datagram, now: u64): Receiver
    requires ValidFrames(s.frames) && d.Accepted()
  {
    if d.h.session in s.retired then s
    else if s.session == 0 || (d.h.session != s.session && StartsSession(d.h)) then
      var retired := if s.session != 0 then s.retired + {s.session} else s.retired;
      if |retired| > MAX_RETIRED then s.(retired := retired, halted := true)
      else TakeInSession(Open(s.(retired := retired), d.h.session, from), d, now)
    else if from == s.peer && d.h.session == s.session then TakeInSession(s, d, now)
    else s
  }

  // ----- Ordered delivery -----

  predicate Waited(f: RxFrame, now: u64, limit: nat) { Sub64(now, f.firstSeen) >= limit }

  function RequestKey(s: Receiver, id: u32, now: u64): Receiver {
    if s.headless || s.session == 0 || (s.lastKeyRequest != 0 && Sub64(now, s.lastKeyRequest) < KEY_INTERVAL) then s
    else
      s.(lastKeyRequest := now,
         acks := s.acks + [RecvAck(KEY_REQUEST, 0, s.session, 0, now, 0, 0, if id != 0 then id else 1, 0)])
  }

  /** Hand a complete frame to the decoder, or pass it over while waiting for a keyframe. */
  function Show(s: Receiver, e: Entry, now: u64, decode: u32 -> Outcome): Receiver {
    if s.headless then s.(decoded := s.decoded + 1, trace := s.trace + [Tally(e.id)])
    else if s.needKey && !e.frame.keyframe then RequestKey(s, e.id, now)
    else
      var bytes := AssembleFirst(e.frame.payloads, |e.frame.payloads|, e.frame.size);
      var outcome := decode(e.id);
      var s1 := s.(needKey := outcome.Broken?,
                   decoded := s.decoded + if outcome.Image? then 1 else 0,
                   trace := s.trace + (if s.needKey then [Reset] else [])
                            + [Decode(s.session, e.id, e.frame.keyframe, bytes, outcome)]);
      if outcome.Broken? then RequestKey(s1, e.id, now) else s1
  }

  function Advance(s: Receiver): Receiver { s.(next := U32(s.next + 1)) }

  function MarkPlayed(s: Receiver, i: nat): Receiver
    requires i < |s.frames|
  {
    s.(frames := s.frames[i := s.frames[i].(played := true)])
  }

  /** The frame the delivery loop looks at: the next one, or after its timeout the first after a gap. */
  function Front(s: Receiver, now: u64): (r: Option<nat>)
    ensures r.Some? ==> r.value < |s.frames| && s.frames[r.value].id >= s.next
    ensures r.Some? ==> LowerBound(s.frames, s.next) == r.value
  {
    var i := LowerBound(s.frames, s.next);
    if i < |s.frames| && (s.frames[i].id == s.next || Waited(s.frames[i].frame, now, FRAME_TIMEOUT)) then Some(i)
    else None
  }

  /** Move the play-out position over a gap to frame i. */
  function SkipTo(s: Receiver, i: nat): Receiver
    requires i < |s.frames|
  {
    if s.frames[i].id == s.next then s else s.(next := s.frames[i].id, needKey := true)
  }

  /** One turn of the delivery loop at frame i; None where the loop stops. */
  function DeliverOne(s: Receiver, i: nat, now: u64, decode: u32 -> Outcome): Option<Receiver>
    requires i < |s.frames|
  {
    var s1 := SkipTo(s, i);
    var e := s.frames[i];
    if !e.frame.Complete() then
      if !Waited(e.frame, now, FRAME_TIMEOUT) then None
      else Some(MarkPlayed(Advance(s1.(needKey := true)), i))
    else Some(Advance(if e.played then s1 else MarkPlayed(Show(s1, e, now, decode), i)))
  }

  function Deliver(s: Receiver, now: u64, decode: u32 -> Outcome): Receiver
    requires ValidFrames(s.frames)
    decreases |s.frames| - LowerBound(s.frames, s.next)
  {
    if s.frames == [] || !(s.headless || s.decoder) then s
    else
      match Front(s, now)
      case None => s
      case Some(i) =>
        match DeliverOne(s, i, now, decode)
        case None => s
        case Some(s') =>
          DeliverOneFrames(s, i, now, decode);
          Deliver(s', now, decode)
  }

  /** A turn marks one frame as played and moves past it. */
  lemma DeliverOneMarks(s: Receiver, i: nat, now: u64, decode: u32 -> Outcome)
    requires i < |s.frames| && s.frames[i].id < UINT32_MAX && DeliverOne(s, i, now, decode).Some?
    ensures var s' := DeliverOne(s, i, now, decode).value;
      s'.next == s.frames[i].id + 1 && s'.frames == s.frames[i := s.frames[i].(played := true)]
  {
    hide Show, Waited;
    ShowKeepsFrames(SkipTo(s, i), s.frames[i], now, decode);
  }

  lemma DeliverOneFrames(s: Receiver, i: nat, now: u64, decode: u32 -> Outcome)
    requires ValidFrames(s.frames) && i < |s.frames| && DeliverOne(s, i, now, decode).Some?
    ensures var s' := DeliverOne(s, i, now, decode).value;
      && ValidFrames(s'.frames) && |s'.frames| == |s.frames| && s'.next == s.frames[i].id + 1
      && LowerBound(s'.frames, s'.next) == i + 1
  {
    hide FrameOk, DeliverOne, LowerBound;
    assert FrameOk(s.frames[i].frame);
    DeliverOneMarks(s, i, now, decode);
    var s' := DeliverOne(s, i, now, decode).value;
    BoundAfter(s'.frames, i, s'.next);
  }

  lemma BoundAfter(frames: seq<Entry>, i: nat, next: u32)
    requires i < |frames| && next == frames[i].id + 1
    requires forall i, j :: 0 <= i < j < |frames| ==> frames[i].id < frames[j].id
    ensures LowerBound(frames, next) == i + 1
  {
    hide LowerBound;
    assert forall k :: 0 <= k < i ==> frames[k].id < next;
    assert i + 1 < |frames| ==> frames[i + 1].id >= next;
  }

  /** Showing a frame touches the decoder and the keyframe flags only. */
  lemma ShowKeepsFrames(s: Receiver, e: Entry, now: u64, decode: u32 -> Outcome)
    ensures var s' := Show(s, e, now, decode);
      s'.frames == s.frames && s'.next == s.next && s'.headless == s.headless && s'.decoder == s.decoder
      && s'.session == s.session && s'.retired == s.retired && s'.halted == s.halted && s'.wireBytes == s.wireBytes
  {
    hide AssembleFirst;
  }

  // ----- Expiry -----

  predicate Stale(e: Entry, now: u64) { Sub64(now, e.frame.firstSeen) > 2 * FRAME_TIMEOUT }

  datatype Sweep = Sweep(kept: seq<Entry>, next: u32, needKey: bool)

  /** Forget stale frames; one that was never played moves the play-out position past it. */
  function SweepAll(frames: seq<Entry>, now: u64, next: u32, needKey: bool): Sweep {
    if frames == [] then Sweep([], next, needKey)
    else
      var w := SweepAll(frames[..|frames| - 1], now, next, needKey);
      var e := frames[|frames| - 1];
      if !Stale(e, now) then w.(kept := w.kept + [e])
      else if e.played then w
      else w.(next := if U32(e.id + 1) > w.next then U32(e.id + 1) else w.next, needKey := true)
  }

  function Expire(s: Receiver, now: u64): Receiver {
    var w := SweepAll(s.frames, now, s.next, s.needKey);
    s.(frames := w.kept, next := w.next, needKey := w.needKey)
  }

  // ----- A pass of the main loop -----

  datatype Input = Timeout | Bytes(from: Address, bytes: seq<byte>)

  function TakeInput(s: Receiver, input: Input, now: u64): Receiver
    requires ValidFrames(s.frames)
  {
    match input
    case Timeout => s
    case Bytes(from, bytes) =>
      match Parse(bytes)
      case None => s
      case Some(d) =>
        WireCanonical(bytes);
        Take(s, from, d, now)
  }

  function Pass(s: Receiver, input: Input, now: u64, decode: u32 -> Outcome): Receiver
    requires ValidFrames(s.frames)
  {
    if s.halted then s
    else
      var s1 := TakeInput(s, input, now);
      if s1.halted then s1
      else
        TakeKeepsFrames(s, input, now);
        Expire(Deliver(s1, now, decode), now)
  }

  lemma TakeKeepsFrames(s: Receiver, input: Input, now: u64)
    requires ValidFrames(s.frames)
    ensures ValidFrames(TakeInput(s, input, now).frames)
  {
    hide Parse, TakeInSession, FrameOk, HeaderAccepted;
    if input.Bytes? && Parse(input.bytes).Some? {
      var d := Parse(input.bytes).value;
      WireCanonical(input.bytes);
      forall s1: Receiver | ValidFrames(s1.frames)
        ensures ValidFrames(TakeInSession(s1, d, now).frames)
      {
        InSessionKeepsFrames(s1, d, now);
      }
    }
  }

  lemma InSessionKeepsFrames(s: Receiver, d: Datagram, now: u64)
    requires ValidFrames(s.frames) && d.Accepted()
    ensures ValidFrames(TakeInSession(s, d, now).frames)
  {
    hide TakePacket, FrameOk;
    if d.h.flags != STREAM_INFO {
      PacketKeepsFrames(s.(wireBytes := (s.wireBytes + d.Size()) % TWO64), d, now);
    } else {
      hide HeaderAccepted;
    }
  }

  lemma PacketKeepsFrames(s: Receiver, d: Datagram, now: u64)
    requires ValidFrames(s.frames) && d.Accepted() && d.h.flags != STREAM_INFO
    ensures ValidFrames(TakePacket(s, d, now).frames)
  {
    hide Admit, Store, HeaderAccepted, AcksFor, WellFormed, PacketCount, Find;
    AdmitKeepsFrames(s, d, now);
    var s1 := Admit(s, d.h, now);
    var i := Find(s1.frames, d.h.frameId);
    if i.Some? {
      var f := s1.frames[i.value].frame;
      assert FrameOk(f);
      StampKeeps(Store(f, d).0, now);
    }
  }

  lemma StampKeeps(f: RxFrame, now: u64)
    requires FrameOk(f)
    ensures FrameOk(f.(completedAt := now))
  {
  }
}
