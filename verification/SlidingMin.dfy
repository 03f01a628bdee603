/** The monotonic deques behind min_owd and min_rtt (listener in codes/sender.cc). */
module SlidingMin {
  import opened Bytes

  /** The window, in microseconds. */
  const WINDOW: nat := 10_000_000

  datatype Timed = Timed(at: u64, value: int)

  predicate Old(t: Timed, now: u64) { Sub64(now, t.at) > WINDOW }

  function DropOld(d: seq<Timed>, now: u64): seq<Timed> {
    if d != [] && Old(d[0], now) then DropOld(d[1..], now) else d
  }

  function DropWorse(d: seq<Timed>, value: int): seq<Timed> {
    if d != [] && d[|d| - 1].value >= value then DropWorse(d[..|d| - 1], value) else d
  }

  /** The deque after one more sample; its front is the reported minimum. */
  function Push(d: seq<Timed>, now: u64, value: int): (r: seq<Timed>)
    ensures r != []
  {
    DropWorse(DropOld(d, now), value) + [Timed(now, value)]
  }

  // ----- The plain specification -----

  /** m is the minimum of the samples of the last 10 s. */
  ghost predicate IsWindowMin(samples: seq<Timed>, now: u64, m: int) {
    && (exists i :: 0 <= i < |samples| && !Old(samples[i], now) && samples[i].value == m)
    && (forall i :: 0 <= i < |samples| && !Old(samples[i], now) ==> m <= samples[i].value)
  }

  ghost predicate TimesRise(samples: seq<Timed>) {
    forall i, j :: 0 <= i < j < |samples| ==> samples[i].at <= samples[j].at
  }

  /** The deque after a sequence of samples. */
  function PushAll(samples: seq<Timed>): seq<Timed> {
    if samples == [] then []
    else
      var last := samples[|samples| - 1];
      Push(PushAll(samples[..|samples| - 1]), last.at, last.value)
  }

  // ----- The deque keeps every sample that can still be the minimum -----

  /** Values rise strictly along the deque, times do not fall, and its elements are samples. */
  ghost predicate Monotone(d: seq<Timed>, samples: seq<Timed>) {
    && (forall i, j :: 0 <= i < j < |d| ==> d[i].value < d[j].value && d[i].at <= d[j].at)
    && (forall t :: t in d ==> t in samples)
  }

  /** t is no larger and no older than s. */
  ghost predicate Beats(t: Timed, s: Timed) { t.value <= s.value && s.at <= t.at }

  /** Every sample still in the window is matched by one in the deque that is no larger and no older. */
  ghost predicate Covers(d: seq<Timed>, samples: seq<Timed>, now: u64) {
    forall s :: s in samples && !Old(s, now) ==> exists t :: t in d && Beats(t, s)
  }

  lemma DropOldest(d: seq<Timed>, samples: seq<Timed>, now: u64)
    requires Monotone(d, samples) && Covers(d, samples, now) && d != [] && Old(d[0], now)
    requires forall t :: t in samples ==> t.at <= now
    ensures Monotone(d[1..], samples) && Covers(d[1..], samples, now)
  {
    hide Old;
    assert forall t :: t in d ==> t == d[0] || t in d[1..];
    forall s | s in samples && !Old(s, now)
      ensures exists t :: t in d[1..] && Beats(t, s)
    {
      var t :| t in d && Beats(t, s);
      BeatsRecent(t, s, now);
      assert t in d[1..];
    }
  }

  /** What beats a sample of the window is in the window. */
  lemma BeatsRecent(t: Timed, s: Timed, now: u64)
    requires Beats(t, s) && t.at <= now && !Old(s, now)
    ensures !Old(t, now)
  {
  }

  lemma AllRecent(d: seq<Timed>, samples: seq<Timed>, now: u64)
    requires Monotone(d, samples) && forall t :: t in samples ==> t.at <= now
    requires d != [] ==> !Old(d[0], now)
    ensures forall t :: t in d ==> !Old(t, now)
  {
    forall t | t in d
      ensures !Old(t, now)
    {
      assert d[0].at <= t.at <= now;
    }
  }

  lemma {:induction false} DropOldKeeps(d: seq<Timed>, samples: seq<Timed>, now: u64)
    requires Monotone(d, samples) && Covers(d, samples, now)
    requires forall t :: t in samples ==> t.at <= now
    ensures var r := DropOld(d, now);
      && Monotone(r, samples) && Covers(r, samples, now) && (forall t :: t in r ==> !Old(t, now))
  {
    hide Old, Monotone, Covers;
    if d != [] && Old(d[0], now) {
      DropOldest(d, samples, now);
      DropOldKeeps(d[1..], samples, now);
    } else {
      AllRecent(d, samples, now);
    }
  }

  lemma {:induction false} DropWorseKeeps(d: seq<Timed>, value: int)
    ensures var r := DropWorse(d, value);
      && r <= d
      && (forall t :: t in d && t !in r ==> t.value >= value)
      && (r != [] ==> r[|r| - 1].value < value)
  {
    if d != [] && d[|d| - 1].value >= value {
      DropWorseKeeps(d[..|d| - 1], value);
    }
  }

  lemma PushCovers(kept: seq<Timed>, better: seq<Timed>, samples: seq<Timed>, s: Timed)
    requires Covers(kept, samples, s.at) && forall t :: t in samples ==> t.at <= s.at
    requires forall t :: t in kept && t !in better ==> t.value >= s.value
    ensures Covers(better + [s], samples + [s], s.at)
  {
    hide Old;
    forall x | x in samples + [s] && !Old(x, s.at)
      ensures exists t :: t in better + [s] && Beats(t, x)
    {
      assert s in better + [s];
      if x in samples {
        var t :| t in kept && Beats(t, x);
        assert t in better ==> t in better + [s];
        assert t !in better ==> Beats(s, x);
      } else {
        assert Beats(s, x);
      }
    }
  }

  lemma PushMonotone(kept: seq<Timed>, better: seq<Timed>, samples: seq<Timed>, s: Timed)
    requires Monotone(kept, samples) && better <= kept && forall t :: t in samples ==> t.at <= s.at
    requires better != [] ==> better[|better| - 1].value < s.value
    ensures Monotone(better + [s], samples + [s])
  {
    var r := better + [s];
    forall i, j | 0 <= i < j < |r|
      ensures r[i].value < r[j].value && r[i].at <= r[j].at
    {
      assert r[i] == kept[i] && kept[i] in samples;
      if j < |better| {
        assert r[j] == kept[j];
      } else {
        assert i < |better| - 1 ==> kept[i].value < kept[|better| - 1].value;
      }
    }
    forall t | t in r
      ensures t in samples + [s]
    {
      assert t in better ==> t in kept;
    }
  }

  lemma PushKeeps(d: seq<Timed>, samples: seq<Timed>, s: Timed)
    requires Monotone(d, samples) && Covers(d, samples, s.at)
    requires forall t :: t in samples ==> t.at <= s.at
    ensures var r := Push(d, s.at, s.value);
      && Monotone(r, samples + [s]) && Covers(r, samples + [s], s.at) && (forall t :: t in r ==> !Old(t, s.at))
  {
    hide Covers, Monotone, Old, DropOld, DropWorse;
    var kept := DropOld(d, s.at);
    var better := DropWorse(kept, s.value);
    assert Push(d, s.at, s.value) == better + [s];
    DropOldKeeps(d, samples, s.at);
    DropWorseKeeps(kept, s.value);
    PushCovers(kept, better, samples, s);
    PushMonotone(kept, better, samples, s);
    PushRecent(kept, better, s);
  }

  lemma PushRecent(kept: seq<Timed>, better: seq<Timed>, s: Timed)
    requires better <= kept && forall t :: t in kept ==> !Old(t, s.at)
    ensures forall t :: t in better + [s] ==> !Old(t, s.at)
  {
    forall t | t in better + [s]
      ensures !Old(t, s.at)
    {
      if t in better {
        assert t in kept;
      }
    }
  }

  lemma FrontLeast(d: seq<Timed>, samples: seq<Timed>, t: Timed)
    requires Monotone(d, samples) && t in d
    ensures d[0].value <= t.value
  {
  }

  /** A sample that has left the window stays out. */
  lemma CoversLater(d: seq<Timed>, samples: seq<Timed>, now: u64, later: u64)
    requires Covers(d, samples, now) && now <= later && forall t :: t in samples ==> t.at <= now
    ensures Covers(d, samples, later)
  {
    forall s | s in samples && !Old(s, later)
      ensures !Old(s, now)
    {
    }
  }

  /** The deque after these samples. */
  ghost predicate Kept(d: seq<Timed>, samples: seq<Timed>) {
    && Monotone(d, samples)
    && (samples != [] ==>
          var now := samples[|samples| - 1].at;
          d != [] && Covers(d, samples, now) && forall t :: t in d ==> !Old(t, now))
  }

  lemma PushKeepsKept(d: seq<Timed>, before: seq<Timed>, last: Timed)
    requires Kept(d, before) && TimesRise(before + [last])
    ensures Kept(Push(d, last.at, last.value), before + [last])
  {
    hide Push, Monotone, Covers, Old, TimesRise;
    RisesBefore(before, last);
    if before == [] {
      NothingYet(d, last.at);
    } else {
      CoversLater(d, before, before[|before| - 1].at, last.at);
    }
    PushKeeps(d, before, last);
  }

  lemma {:induction false} PushAllKeeps(samples: seq<Timed>)
    requires TimesRise(samples)
    ensures Kept(PushAll(samples), samples)
  {
    if samples != [] {
      var before, last := samples[..|samples| - 1], samples[|samples| - 1];
      PushAllKeeps(before);
      PushAllLast(samples);
      assert samples == before + [last];
      hide PushAll, Kept, TimesRise, Push;
      PushKeepsKept(PushAll(before), before, last);
    }
  }

  lemma PushAllLast(samples: seq<Timed>)
    requires samples != []
    ensures var last := samples[|samples| - 1];
      PushAll(samples) == Push(PushAll(samples[..|samples| - 1]), last.at, last.value)
  {
  }

  lemma NothingYet(d: seq<Timed>, now: u64)
    ensures Covers(d, [], now)
  {
  }

  lemma RisesBefore(before: seq<Timed>, last: Timed)
    requires TimesRise(before + [last])
    ensures forall t :: t in before ==> t.at <= last.at
    ensures before != [] ==> forall t :: t in before ==> t.at <= before[|before| - 1].at <= last.at
  {
    var all := before + [last];
    assert all[|before|] == last;
    forall i | 0 <= i < |before|
      ensures before[i].at <= before[|before| - 1].at <= last.at
    {
      assert all[i] == before[i] && all[|before| - 1] == before[|before| - 1];
    }
  }

  /** After every update the front of the deque is the true minimum over the last 10 s. */
  lemma FrontIsWindowMin(samples: seq<Timed>)
    requires TimesRise(samples) && samples != []
    ensures PushAll(samples) != []
    ensures IsWindowMin(samples, samples[|samples| - 1].at, PushAll(samples)[0].value)
  {
    hide PushAll, Old, Monotone;
    var d, now := PushAll(samples), samples[|samples| - 1].at;
    PushAllKeeps(samples);
    assert d[0] in d;
    assert d[0] in samples by {
      FrontIsSample(d, samples);
    }
    forall i | 0 <= i < |samples| && !Old(samples[i], now)
      ensures d[0].value <= samples[i].value
    {
      assert samples[i] in samples;
      var t :| t in d && Beats(t, samples[i]);
      FrontLeast(d, samples, t);
    }
  }

  lemma FrontIsSample(d: seq<Timed>, samples: seq<Timed>)
    requires Monotone(d, samples) && d != []
    ensures d[0] in samples
  {
  }

  // ----- The listener's loops -----

  method Observe(samples: seq<Timed>, now: u64, value: int) returns (r: seq<Timed>, min: int)
    ensures r == Push(samples, now, value) && min == r[0].value
  {
    r := samples;
    while r != [] && Sub64(now, r[0].at) > WINDOW
      invariant DropOld(r, now) == DropOld(samples, now)
      decreases |r|
    {
      r := r[1..];
    }
    ghost var recent := r;
    while r != [] && r[|r| - 1].value >= value
      invariant DropWorse(r, value) == DropWorse(recent, value)
      decreases |r|
    {
      r := r[..|r| - 1];
    }
    r := r + [Timed(now, value)];
    min := r[0].value;
  }
}
