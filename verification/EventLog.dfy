/** The sender's event log (section 10 of the technical documentation), as values. */
module EventLog {
  import opened Bytes

  datatype Event =
    | FrameSent(fid: u32, bytes: nat)
    | FrameDelivered(fid: u32, lossy: bool)
    | FrameLoss(fid: u32)
    | FrameSkipped
    | ProbeSummary(fid: u32, expected: int, received: int)
    | PacketRetransmitted(fid: u32, packetId: nat, attempt: nat)
    | ControlSample(fid: u32, bur: real, bitrate: real, pacing: real, recvRate: real, nProbes: nat)
    | FallbackSet(fid: u32, savedRate: real, newRate: real)
    | FallbackRestored(restoredRate: real)
    | DrainStart(fid: u32, drainRate: real, recvRate: real, newBitrate: real)
    | DrainEnd(fid: u32, restoredBitrate: real)
    | LossBackoff(newBitrate: real)
    | LossCeilingSet(fid: u32, newBitrate: real, ackMbps: real, frameMbps: real)
    | RetransLoss(bitrate: real)
    | KeyframeRequested(fid: u32)
    | Failed

  /** The CONTROL_SAMPLE events of a log, in order. */
  function Samples(log: seq<Event>): (s: seq<Event>)
    ensures forall e :: e in s ==> e.ControlSample?
  {
    if log == [] then []
    else Samples(log[..|log| - 1]) + if log[|log| - 1].ControlSample? then [log[|log| - 1]] else []
  }

  lemma {:induction false} SamplesAppend(a: seq<Event>, b: seq<Event>)
    ensures Samples(a + b) == Samples(a) + Samples(b)
  {
    if b == [] {
      assert a + b == a;
    } else {
      assert (a + b)[..|a + b| - 1] == a + b[..|b| - 1];
      SamplesAppend(a, b[..|b| - 1]);
    }
  }
}
