/** The receiver's main loop, step by step as in codes/receiver.cc, against the functions of module Receiver. */
module ReceiverClass {
  import opened Bytes
  import opened Protocol
  import opened Reassembly
  import Spec = Receiver

  type Entry = Spec.Entry

  /** The declared sizes of the frames held. */
  method SumSizes(frames: seq<Entry>) returns (total: nat)
    ensures total == Spec.Allocated(frames)
  {
    total := 0;
    for i := 0 to |frames|
      invariant total == Spec.Allocated(frames[..i])
    {
      assert frames[..i + 1][..i] == frames[..i];
      total := total + frames[i].frame.size;
    }
    assert frames[..|frames|] == frames;
  }

  method LowerBound(frames: seq<Entry>, id: u32) returns (i: nat)
    ensures i == Spec.LowerBound(frames, id)
  {
    i := 0;
    while i < |frames| && frames[i].id < id
      invariant i <= |frames| && forall k :: 0 <= k < i ==> frames[k].id < id
    {
      i := i + 1;
    }
    BoundIsUnique(frames, id, i);
  }

  lemma BoundIsUnique(frames: seq<Entry>, id: u32, i: nat)
    requires i <= |frames| && forall k :: 0 <= k < i ==> frames[k].id < id
    requires i < |frames| ==> frames[i].id >= id
    ensures Spec.LowerBound(frames, id) == i
  {
    hide Spec.LowerBound;
  }

  /** The expiry loop: drop stale frames as it goes. */
  method Sweep(frames: seq<Entry>, now: u64, next0: u32, needKey0: bool)
    returns (kept: seq<Entry>, next: u32, needKey: bool)
    requires Spec.ValidFrames(frames)
    ensures Spec.Sweep(kept, next, needKey) == Spec.SweepAll(frames, now, next0, needKey0)
  {
    kept, next, needKey := frames, next0, needKey0;
    ghost var done := 0;
    var i := 0;
    assert frames[..0] == [];
    while i < |kept|
      invariant i <= |kept| && done <= |frames| && kept[i..] == frames[done..]
      invariant Spec.Sweep(kept[..i], next, needKey) == Spec.SweepAll(frames[..done], now, next0, needKey0)
      decreases |kept| - i
    {
      var e := kept[i];
      assert e == kept[i..][0] == frames[done];
      SweepNext(frames, done, now, next0, needKey0);
      assert kept[i..][1..] == frames[done..][1..];
      assert frames[done..][1..] == frames[done + 1..];
      if Sub64(now, e.frame.firstSeen) > 2 * FRAME_TIMEOUT {
        if !e.played {
          next := if U32(e.id + 1) > next then U32(e.id + 1) else next;
          needKey := true;
        }
        ghost var rest := kept[i + 1..];
        kept := kept[..i] + kept[i + 1..];
        assert kept[i..] == rest && kept[..i] == kept[..i];
      } else {
        assert kept[..i + 1] == kept[..i] + [e];
        i := i + 1;
      }
      done := done + 1;
    }
    assert done == |frames| && kept[..i] == kept && frames[..done] == frames;
  }

  lemma SweepNext(frames: seq<Entry>, n: nat, now: u64, next: u32, needKey: bool)
    requires n < |frames|
    ensures var w, e := Spec.SweepAll(frames[..n], now, next, needKey), frames[n];
      Spec.SweepAll(frames[..n + 1], now, next, needKey) ==
        if !Spec.Stale(e, now) then w.(kept := w.kept + [e])
        else if e.played then w
        else w.(next := if U32(e.id + 1) > w.next then U32(e.id + 1) else w.next, needKey := true)
  {
    assert frames[..n + 1][..n] == frames[..n];
  }

  /** Put a packet into its frame, and rebuild what it lets rebuild. */
  method StorePacket(f: RxFrame, d: Datagram) returns (stored: RxFrame, recovered: Option<nat>)
    requires Spec.FrameOk(f) && d.Accepted() && d.h.flags != STREAM_INFO
    ensures (stored, recovered) == Spec.Store(f, d)
  {
    hide HeaderAccepted, Recovered, CountPresent, PacketCount;
    Spec.PayloadFits(d);
    var frame := new ReceivedFrame.Of(f);
    recovered := None;
    if d.h.flags == FEC {
      if d.h.fecGroup !in frame.parity {
        frame.parity := frame.parity[d.h.fecGroup := d.payload];
      }
      recovered := frame.Recover(d.h.fecGroup);
    } else if d.h.flags & PROBE == 0 {
      frame.keyframe := frame.keyframe || d.h.flags & KEYFRAME != 0;
      var _ := frame.Add(d.h.packetId, d.payload);
      recovered := frame.Recover(d.h.packetId / FEC_K);
    }
    stored := frame.View();
  }

  class Receiver {
    /** The loop's variables, as one record. */
    var r: Spec.Receiver

    ghost predicate Valid()
      reads this
    {
      Spec.ValidFrames(r.frames)
    }

    constructor (headless: bool)
      ensures Valid() && r == Spec.Init(headless)
    {
      r := Spec.Init(headless);
    }

    /** Ask for a keyframe, at most every 200 ms. */
    method RequestKey(id: u32, now: u64)
      modifies this
      ensures r == Spec.RequestKey(old(r), id, now)
    {
      if r.headless || r.session == 0 || (r.lastKeyRequest != 0 && Sub64(now, r.lastKeyRequest) < Spec.KEY_INTERVAL) {
        return;
      }
      r := r.(lastKeyRequest := now);
      r := r.(acks := r.acks + [RecvAck(KEY_REQUEST, 0, r.session, 0, now, 0, 0, if id != 0 then id else 1, 0)]);
    }

    /** Find the packet's frame, or make room for it. */
    method Admit(h: PktHeader, now: u64)
      modifies this
      ensures r == Spec.Admit(old(r), h, now)
    {
      hide Spec.Allocated, Spec.Find, NewFrame, Spec.LowerBound;
      var known := Spec.Find(r.frames, h.frameId);
      if known.None? && h.frameId >= r.next && h.frameId - r.next < Spec.WINDOW && |r.frames| < Spec.WINDOW {
        var total := SumSizes(r.frames);
        if total + h.frameBytes <= Spec.MAX_BYTES {
          var i := LowerBound(r.frames, h.frameId);
          r := r.(frames := r.frames[..i] + [Spec.Entry(h.frameId, NewFrame(h, now), false)] + r.frames[i..]);
        }
      }
    }

    method SendAck(h: PktHeader, f: RxFrame, now: u64, pid: u32, flags: byte, echo: u64, attempt: u16)
      modifies this
      ensures r == old(r).(acks := old(r).acks + [Spec.AckFor(old(r), h, f, now, pid, flags, echo, attempt)])
    {
      var all := flags | (if f.Complete() then FRAME_COMPLETE else 0);
      var a := RecvAck(all, attempt, r.session, echo, now, f.completedAt, r.wireBytes, h.frameId, pid);
      r := r.(acks := r.acks + [a]);
    }

    method SendAcks(h: PktHeader, f: RxFrame, now: u64, recovered: Option<nat>)
      modifies this
      ensures r == old(r).(acks := old(r).acks + Spec.AcksFor(old(r), h, f, now, recovered))
    {
      ghost var was := r;
      assert was.acks + [] == was.acks;
      if recovered.Some? {
        SendAck(h, f, now, U32(recovered.value), RECOVERED, 0, 0);
      }
      ghost var mid := r;
      assert mid.acks + [] == mid.acks;
      if h.flags != FEC {
        SendAck(h, f, now, h.packetId, h.flags, h.sendTime, h.retransSeq);
      }
      assert r.acks == was.acks + Spec.AcksFor(was, h, f, now, recovered);
    }

    /** The handling of a data, parity or probe packet of the session. */
    method TakePacket(d: Datagram, now: u64)
      requires Valid() && d.Accepted() && d.h.flags != STREAM_INFO
      modifies this
      ensures Valid() && r == Spec.TakePacket(old(r), d, now)
    {
      hide Spec.Admit, Spec.Store, HeaderAccepted, Spec.FrameOk, Spec.AcksFor, Spec.Find;
      Spec.AdmitKeepsFrames(r, d, now);
      Spec.PacketKeepsFrames(r, d, now);
      Admit(d.h, now);
      var i := Spec.Find(r.frames, d.h.frameId);
      if i.None? || !r.frames[i.value].frame.Matches(d.h) {
        return;
      }
      ghost var s1 := r;
      var e := r.frames[i.value];
      assert Spec.FrameOk(e.frame);
      var f, recovered := StorePacket(e.frame, d);
      if f.Complete() && f.completedAt == 0 {
        f := f.(completedAt := now);
        r := r.(delivered := r.delivered + 1);
      }
      r := r.(frames := r.frames[i.value := e.(frame := f)]);
      AckSession(s1, r, d.h, f, now, recovered);
      SendAcks(d.h, f, now, recovered);
    }

    /** STREAM_INFO: read the picture size, and make a new decoder if it changed. */
    method TakeStreamInfo(payload: seq<byte>)
      requires Valid() && |payload| == 8
      modifies this
      ensures Valid() && r == Spec.TakeStreamInfo(old(r), payload)
    {
      Pow256Values();
      var w, p := Get(payload, 0, 4);
      var h, _ := Get(payload, p, 4);
      if 2 <= w <= 8192 && 2 <= h <= 8192 && w % 2 == 0 && h % 2 == 0 {
        if !r.headless && (w != r.width || h != r.height) {
          r := r.(decoder := true, trace := r.trace + [Spec.NewDecoder(w, h)], needKey := true);
        }
        r := r.(width := w, height := h);
      }
    }

    method TakeInSession(d: Datagram, now: u64)
      requires Valid() && d.Accepted()
      modifies this
      ensures Valid() && r == Spec.TakeInSession(old(r), d, now)
    {
      hide Spec.TakeStreamInfo, Spec.TakePacket, Spec.ValidFrames;
      r := r.(wireBytes := (r.wireBytes + d.Size()) % TWO64);
      if d.h.flags == STREAM_INFO {
        TakeStreamInfo(d.payload);
      } else {
        hide HeaderAccepted;
        TakePacket(d, now);
      }
    }

    /** The body of the receive branch, for a datagram decode accepts. */
    method Take(from: Spec.Address, d: Datagram, now: u64)
      requires Valid() && d.Accepted()
      modifies this
      ensures Valid() && r == Spec.Take(old(r), from, d, now)
    {
      hide Spec.TakeInSession, Spec.FrameOk, HeaderAccepted;
      if d.h.session in r.retired {
        return;
      }
      var samePeer := from == r.peer;
      if r.session == 0 || (d.h.session != r.session && Spec.StartsSession(d.h)) {
        if r.session != 0 {
          r := r.(retired := r.retired + {r.session});
        }
        if |r.retired| > Spec.MAX_RETIRED {
          r := r.(halted := true);
          return;
        }
        r := Spec.Open(r, d.h.session, from);
        samePeer := true;
      }
      if samePeer && d.h.session == r.session {
        TakeInSession(d, now);
      }
    }

    /** Decode or pass over a complete frame that was not played. */
    method Show(e: Entry, now: u64, decode: u32 -> Spec.Outcome)
      requires e.frame.Complete()
      modifies this
      ensures r == Spec.Show(old(r), e, now, decode)
    {
      if r.headless {
        r := r.(decoded := r.decoded + 1, trace := r.trace + [Spec.Tally(e.id)]);
      } else if !r.needKey || e.frame.keyframe {
        ghost var was := r;
        assert was.trace + [] == was.trace;
        if r.needKey {
          r := r.(trace := r.trace + [Spec.Reset], needKey := false);
        }
        var frame := new ReceivedFrame.Of(e.frame);
        var assembled := frame.Assemble();
        var bytes := assembled.bytes;
        var outcome := decode(e.id);
        r := r.(trace := r.trace + [Spec.Decode(r.session, e.id, e.frame.keyframe, bytes, outcome)]);
        if outcome.Image? {
          r := r.(decoded := r.decoded + 1);
        }
        if outcome.Broken? {
          r := r.(needKey := true);
          RequestKey(e.id, now);
        }
      } else {
        RequestKey(e.id, now);
      }
    }

    /** One turn of the delivery loop, at the frame lower_bound finds. */
    method DeliverTurn(i: nat, now: u64, decode: u32 -> Spec.Outcome) returns (stop: bool)
      requires i < |r.frames| && (r.frames[i].id == r.next || Spec.Waited(r.frames[i].frame, now, FRAME_TIMEOUT))
      modifies this
      ensures Spec.DeliverOne(old(r), i, now, decode) == if stop then None else Some(r)
      ensures stop ==> r == old(r)
    {
      hide Spec.Show;
      var e := r.frames[i];
      if e.id != r.next {
        r := r.(next := e.id, needKey := true);
      }
      if !e.frame.Complete() {
        if Sub64(now, e.frame.firstSeen) < FRAME_TIMEOUT {
          return true;
        }
        r := r.(next := U32(r.next + 1), needKey := true);
        r := r.(frames := r.frames[i := e.(played := true)]);
      } else {
        if !e.played {
          ShowKeepsFrames(r, e, now, decode);
          Show(e, now, decode);
          r := r.(frames := r.frames[i := e.(played := true)]);
        }
        r := r.(next := U32(r.next + 1));
      }
      return false;
    }

    /** The ordered-delivery loop. */
    method Deliver(now: u64, decode: u32 -> Spec.Outcome)
      requires Valid()
      modifies this
      ensures Valid() && r == Spec.Deliver(old(r), now, decode)
    {
      hide Spec.DeliverOne, Spec.Deliver, Spec.ValidFrames, Spec.LowerBound;
      while r.frames != [] && (r.headless || r.decoder)
        invariant Valid() && Spec.Deliver(r, now, decode) == Spec.Deliver(old(r), now, decode)
        decreases |r.frames| - Spec.LowerBound(r.frames, r.next)
      {
        DeliverNext(r, now, decode);
        var i := LowerBound(r.frames, r.next);
        if i == |r.frames| || (r.frames[i].id != r.next && Sub64(now, r.frames[i].frame.firstSeen) < FRAME_TIMEOUT) {
          return;
        }
        var stop := DeliverTurn(i, now, decode);
        if stop {
          return;
        }
      }
      DeliverDone(r, now, decode);
    }

    /** One turn of the main loop. */
    method Pass(input: Spec.Input, now: u64, decode: u32 -> Spec.Outcome)
      requires Valid()
      modifies this
      ensures r == Spec.Pass(old(r), input, now, decode)
    {
      hide Spec.Take, Spec.Deliver, Spec.ValidFrames, Spec.SweepAll, Parse;
      if r.halted {
        return;
      }
      Spec.TakeKeepsFrames(r, input, now);
      if input.Bytes? {
        var d := GetDatagram(input.bytes);
        if d.Some? {
          WireCanonical(input.bytes);
          Take(input.from, d.value, now);
        }
      }
      if r.halted {
        return;
      }
      Deliver(now, decode);
      var kept, next, needKey := Sweep(r.frames, now, r.next, r.needKey);
      r := r.(frames := kept, next := next, needKey := needKey);
    }
  }

  lemma ShowKeepsFrames(s: Spec.Receiver, e: Entry, now: u64, decode: u32 -> Spec.Outcome)
    ensures Spec.Show(s, e, now, decode).frames == s.frames && Spec.Show(s, e, now, decode).next == s.next
  {
    Spec.ShowKeepsFrames(s, e, now, decode);
  }

  /** ACKs carry the session and the byte count, which storing the packet does not change. */
  lemma AckSession(s1: Spec.Receiver, s2: Spec.Receiver, h: PktHeader, f: RxFrame, now: u64, recovered: Option<nat>)
    requires s2.session == s1.session && s2.wireBytes == s1.wireBytes
    ensures Spec.AcksFor(s1, h, f, now, recovered) == Spec.AcksFor(s2, h, f, now, recovered)
  {
  }

  /** Where the delivery loop stops, and what a turn leads to. */
  lemma DeliverNext(s: Spec.Receiver, now: u64, decode: u32 -> Spec.Outcome)
    requires Spec.ValidFrames(s.frames) && s.frames != [] && (s.headless || s.decoder)
    ensures var i := Spec.LowerBound(s.frames, s.next);
      if i == |s.frames| || (s.frames[i].id != s.next && !Spec.Waited(s.frames[i].frame, now, FRAME_TIMEOUT)) then
        Spec.Deliver(s, now, decode) == s
      else
        match Spec.DeliverOne(s, i, now, decode)
        case None => Spec.Deliver(s, now, decode) == s
        case Some(s') =>
          && Spec.ValidFrames(s'.frames) && |s'.frames| == |s.frames| && Spec.LowerBound(s'.frames, s'.next) == i + 1
          && Spec.Deliver(s, now, decode) == Spec.Deliver(s', now, decode)
  {
    var i := Spec.LowerBound(s.frames, s.next);
    if i < |s.frames| && Spec.DeliverOne(s, i, now, decode).Some? {
      Spec.DeliverOneFrames(s, i, now, decode);
    }
    hide Spec.DeliverOne, Spec.LowerBound, Spec.ValidFrames;
  }

  lemma DeliverDone(s: Spec.Receiver, now: u64, decode: u32 -> Spec.Outcome)
    requires Spec.ValidFrames(s.frames)
    ensures s.frames == [] || !(s.headless || s.decoder) ==> Spec.Deliver(s, now, decode) == s
  {
  }
}
