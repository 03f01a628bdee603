/** The wire format (codes/protocol.h): constants, packet arithmetic, headers and ACKs. */
module Protocol {
  import opened Bytes

  const MAGIC: u32 := 0x5055_4432
  const VERSION: nat := 2
  const FPS: nat := 35
  const INTERVAL: nat := 1_000_000 / FPS
  const N_PROBE: nat := 4
  const LOAD_SZ: nat := 1200
  const FEC_K: nat := 4
  const MAX_FRAME_BYTES: nat := 4 * 1024 * 1024
  const FRAME_TIMEOUT: nat := 10 * INTERVAL
  const HEADER_SIZE: nat := 46
  const ACK_SIZE: nat := 56
  const MAX_BUF: nat := HEADER_SIZE + LOAD_SZ

  const FIRST: byte := 1
  const LAST: byte := 2
  const PROBE: byte := 4
  const FEC: byte := 8
  const RECOVERED: byte := 16
  const STREAM_INFO: byte := 32
  const FRAME_COMPLETE: byte := 64
  const KEYFRAME: byte := 128
  /** ACK direction only: the receiver asks for a keyframe. */
  const KEY_REQUEST: byte := STREAM_INFO

  datatype PktHeader = PktHeader(
    flags: byte, retransSeq: u16, session: u64, sendTime: u64, frameTime: u64,
    frameId: u32, packetId: u32, frameBytes: u32, fecGroup: u16)

  datatype RecvAck = RecvAck(
    flags: byte, retransSeq: u16, session: u64, echoedSend: u64, recvTime: u64,
    frameRecvTime: u64, wireBytes: u64, frameId: u32, packetId: u32)

  // ----- Packet arithmetic -----

  function PacketCount(bytes: u32): u32 {
    U32(bytes + LOAD_SZ - 1) / LOAD_SZ
  }

  function ParityCount(packets: u32): u32 {
    packets / FEC_K + if packets % FEC_K > 1 then 1 else 0
  }

  /** UDP payload bytes of one frame's first transmission: padded data and parity packets, and probes. */
  function FrameUdpBytes(frameBytes: u32): nat {
    var packets := PacketCount(frameBytes);
    U32(packets + ParityCount(packets)) * MAX_BUF + N_PROBE * HEADER_SIZE
  }

  /** For every legal frame size the 32-bit arithmetic is exact: the packets are the fewest that hold the frame. */
  lemma PacketCountExact(bytes: u32)
    requires 1 <= bytes <= MAX_FRAME_BYTES
    ensures var n := PacketCount(bytes);
      && 1 <= n <= 3496
      && (n - 1) * LOAD_SZ < bytes <= n * LOAD_SZ
      && n + ParityCount(n) < TWO32
  {
    assert U32(bytes + LOAD_SZ - 1) == bytes + LOAD_SZ - 1;
  }

  // ----- Headers of data, parity, probe and stream-info packets -----

  const HEADER_WIDTHS: seq<nat> := [4, 1, 1, 2, 8, 8, 8, 4, 4, 4, 2]

  function HeaderFields(h: PktHeader): (v: seq<nat>)
    ensures |v| == 11
  {
    [MAGIC, VERSION, h.flags as int, h.retransSeq, h.session, h.sendTime, h.frameTime,
     h.frameId, h.packetId, h.frameBytes, h.fecGroup]
  }

  function EncodeHeader(h: PktHeader): (b: seq<byte>)
  {
    EncodeFields(HeaderFields(h), HEADER_WIDTHS)
  }

  /** The conditions decode checks, in the source's order, for a datagram of n bytes. */
  predicate HeaderAccepted(h: PktHeader, n: nat) {
    if h.session == 0 || h.sendTime > INT64_MAX || h.frameTime > INT64_MAX then false
    else if h.flags & STREAM_INFO != 0 then h.flags == STREAM_INFO && n == HEADER_SIZE + 8
    else if h.frameId == 0 || h.frameId == UINT32_MAX || h.sendTime == 0 || h.frameTime == 0
            || h.frameBytes == 0 || h.frameBytes > MAX_FRAME_BYTES then false
    else
      var count := PacketCount(h.frameBytes);
      if h.flags & PROBE != 0 then h.flags == PROBE && h.packetId < N_PROBE && n == HEADER_SIZE
      else if h.flags & FEC != 0 then
        h.flags == FEC && h.fecGroup < (count + FEC_K - 1) / FEC_K && n == MAX_BUF && count - h.fecGroup * FEC_K > 1
      else if h.flags & !(FIRST | LAST | KEYFRAME) != 0 then false
      else
        && h.packetId < count && h.fecGroup == h.packetId / FEC_K && n == MAX_BUF
        && (h.flags & FIRST != 0 <==> h.packetId == 0)
        && (h.flags & LAST != 0 <==> h.packetId + 1 == count)
  }

  function HeaderOfFields(v: seq<nat>): PktHeader
    requires FieldsFit(v, HEADER_WIDTHS)
  {
    Pow256Values();
    PktHeader(ToByte(v[2]), v[3], v[4], v[5], v[6], v[7], v[8], v[9], v[10])
  }

  function DecodeHeader(b: seq<byte>): (r: Option<PktHeader>)
  {
    if |b| < HEADER_SIZE then None
    else
      HeaderTotal();
      var v := DecodeFields(b, HEADER_WIDTHS);
      if v[0] != MAGIC || v[1] != VERSION then None
      else
        var h := HeaderOfFields(v);
        if HeaderAccepted(h, |b|) then Some(h) else None
  }

  lemma HeaderTotal()
    ensures Total(HEADER_WIDTHS) == HEADER_SIZE
  {
    TotalOf(HEADER_WIDTHS, [4, 5, 6, 8, 16, 24, 32, 36, 40, 44, 46]);
  }

  lemma {:induction false} TotalOf(widths: seq<nat>, sums: seq<nat>)
    requires |widths| == |sums| > 0
    requires sums[0] == widths[0]
    requires forall i :: 1 <= i < |sums| ==> sums[i] == sums[i - 1] + widths[i]
    ensures Total(widths) == sums[|sums| - 1]
  {
    var k := |widths| - 1;
    if k > 0 {
      TotalOf(widths[..k], sums[..k]);
    } else {
      assert widths[..0] == [];
    }
  }

  lemma HeaderFieldsFit(h: PktHeader)
    ensures FieldsFit(HeaderFields(h), HEADER_WIDTHS)
    ensures HeaderOfFields(HeaderFields(h)) == h
  {
    Pow256Values();
    ToByteOfByte(h.flags);
  }

  /** A datagram that starts with an encoded header decodes to exactly that header, or is refused. */
  lemma HeaderRoundTrip(h: PktHeader, payload: seq<byte>)
    ensures |EncodeHeader(h)| == HEADER_SIZE
    ensures DecodeHeader(EncodeHeader(h) + payload)
         == if HeaderAccepted(h, HEADER_SIZE + |payload|) then Some(h) else None
  {
    HeaderTotal();
    HeaderFieldsFit(h);
    DecodeOfEncodeFields(HeaderFields(h), HEADER_WIDTHS, payload);
  }

  /** No two headers share an encoding: an accepted datagram is the encoding of what decode returns. */
  lemma HeaderCanonical(b: seq<byte>)
    requires DecodeHeader(b).Some?
    ensures EncodeHeader(DecodeHeader(b).value) == b[..HEADER_SIZE]
  {
    HeaderTotal();
    var v := DecodeFields(b, HEADER_WIDTHS);
    Pow256Values();
    assert HeaderFields(HeaderOfFields(v)) == v;
    EncodeOfDecodeFields(b, HEADER_WIDTHS);
  }

  // ----- Datagrams from sender to receiver -----

  datatype Datagram = Datagram(h: PktHeader, payload: seq<byte>) {
    function Size(): nat { HEADER_SIZE + |payload| }
    predicate Accepted() { HeaderAccepted(h, Size()) }
  }

  function Wire(d: Datagram): seq<byte> {
    EncodeHeader(d.h) + d.payload
  }

  /** What the receiver makes of the bytes of a datagram. */
  function Parse(b: seq<byte>): Option<Datagram> {
    match DecodeHeader(b)
    case None => None
    case Some(h) => Some(Datagram(h, b[HEADER_SIZE..]))
  }

  /** A datagram arrives as it was sent, or is refused. */
  lemma WireRoundTrip(d: Datagram)
    ensures |Wire(d)| == d.Size()
    ensures Parse(Wire(d)) == if d.Accepted() then Some(d) else None
  {
    HeaderRoundTrip(d.h, d.payload);
  }

  /** The bytes of an accepted datagram are the encoding of what they parse to. */
  lemma WireCanonical(b: seq<byte>)
    requires Parse(b).Some?
    ensures Wire(Parse(b).value) == b && Parse(b).value.Accepted()
  {
    HeaderCanonical(b);
  }

  // ----- ACKs -----

  const ACK_WIDTHS: seq<nat> := [4, 1, 1, 2, 8, 8, 8, 8, 8, 4, 4]

  function AckFields(a: RecvAck): (v: seq<nat>)
    ensures |v| == 11
  {
    [MAGIC, VERSION, a.flags as int, a.retransSeq, a.session, a.echoedSend, a.recvTime,
     a.frameRecvTime, a.wireBytes, a.frameId, a.packetId]
  }

  function EncodeAck(a: RecvAck): (b: seq<byte>)
  {
    EncodeFields(AckFields(a), ACK_WIDTHS)
  }

  predicate AckAccepted(a: RecvAck) {
    if a.flags == KEY_REQUEST then
      && a.session != 0 && a.frameId != 0 && a.recvTime != 0 && a.recvTime <= INT64_MAX
      && a.echoedSend == 0 && a.frameRecvTime == 0 && a.retransSeq == 0
    else if a.session == 0 || a.frameId == 0 || a.recvTime == 0 || a.recvTime > INT64_MAX
            || a.echoedSend > INT64_MAX || a.flags & (FEC | STREAM_INFO) != 0 then false
    else if a.flags & FRAME_COMPLETE != 0 && (a.frameRecvTime == 0 || a.frameRecvTime > a.recvTime) then false
    else if a.flags & FRAME_COMPLETE == 0 && a.frameRecvTime != 0 then false
    else if a.flags & PROBE != 0 then
      a.flags & !(PROBE | FRAME_COMPLETE) == 0 && a.packetId < N_PROBE && a.retransSeq == 0 && a.echoedSend != 0
    else if a.flags & RECOVERED != 0 then
      a.flags & !(RECOVERED | FRAME_COMPLETE) == 0 && a.echoedSend == 0 && a.retransSeq == 0
    else
      a.flags & !(FIRST | LAST | KEYFRAME | FRAME_COMPLETE) == 0 && a.echoedSend != 0
  }

  function AckOfFields(v: seq<nat>): RecvAck
    requires FieldsFit(v, ACK_WIDTHS)
  {
    Pow256Values();
    RecvAck(ToByte(v[2]), v[3], v[4], v[5], v[6], v[7], v[8], v[9], v[10])
  }

  function DecodeAck(b: seq<byte>): (r: Option<RecvAck>)
  {
    if |b| != ACK_SIZE then None
    else
      AckTotal();
      var v := DecodeFields(b, ACK_WIDTHS);
      if v[0] != MAGIC || v[1] != VERSION then None
      else
        var a := AckOfFields(v);
        if AckAccepted(a) then Some(a) else None
  }

  lemma AckTotal()
    ensures Total(ACK_WIDTHS) == ACK_SIZE
  {
    TotalOf(ACK_WIDTHS, [4, 5, 6, 8, 16, 24, 32, 40, 48, 52, 56]);
  }

  lemma AckRoundTrip(a: RecvAck)
    ensures DecodeAck(EncodeAck(a)) == if AckAccepted(a) then Some(a) else None
  {
    AckTotal();
    Pow256Values();
    ToByteOfByte(a.flags);
    DecodeOfEncodeFields(AckFields(a), ACK_WIDTHS, []);
    assert EncodeAck(a) + [] == EncodeAck(a);
  }

  lemma AckCanonical(b: seq<byte>)
    requires DecodeAck(b).Some?
    ensures EncodeAck(DecodeAck(b).value) == b
  {
    AckTotal();
    var v := DecodeFields(b, ACK_WIDTHS);
    Pow256Values();
    assert AckFields(AckOfFields(v)) == v;
    EncodeOfDecodeFields(b, ACK_WIDTHS);
    assert b[..ACK_SIZE] == b;
  }

  // ----- encode and decode as the program runs them -----

  method PutHeader(h: PktHeader) returns (b: seq<byte>)
    ensures b == EncodeHeader(h)
  {
    b := PutFields(HeaderFields(h), HEADER_WIDTHS);
  }

  method PutAck(a: RecvAck) returns (b: seq<byte>)
    ensures b == EncodeAck(a)
  {
    b := PutFields(AckFields(a), ACK_WIDTHS);
  }

  method GetHeader(b: seq<byte>) returns (ok: bool, h: PktHeader)
    ensures DecodeHeader(b) == if ok then Some(h) else None
  {
    h := PktHeader(0, 0, 0, 0, 0, 0, 0, 0, 0);
    if |b| < HEADER_SIZE {
      return false, h;
    }
    HeaderTotal();
    var v := GetFields(b, HEADER_WIDTHS);
    if v[0] != MAGIC || v[1] != VERSION {
      return false, h;
    }
    h := HeaderOfFields(v);
    ok := HeaderAccepted(h, |b|);
  }

  method GetAck(b: seq<byte>) returns (ok: bool, a: RecvAck)
    ensures DecodeAck(b) == if ok then Some(a) else None
  {
    a := RecvAck(0, 0, 0, 0, 0, 0, 0, 0, 0);
    if |b| != ACK_SIZE {
      return false, a;
    }
    AckTotal();
    var v := GetFields(b, ACK_WIDTHS);
    if v[0] != MAGIC || v[1] != VERSION {
      return false, a;
    }
    a := AckOfFields(v);
    ok := AckAccepted(a);
  }

  method GetDatagram(b: seq<byte>) returns (r: Option<Datagram>)
    ensures r == Parse(b)
  {
    var ok, h := GetHeader(b);
    r := if ok then Some(Datagram(h, b[HEADER_SIZE..])) else None;
  }
}
