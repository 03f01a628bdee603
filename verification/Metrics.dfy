/** The measurement arithmetic of evaluations/metrics.py, over real numbers. */
module Metrics {
  import opened Bytes
  import opened Protocol
  import opened Reals

  // ----- frame_wire_bytes -----

  const HEADER: nat := 46
  const LOAD: nat := 1200
  const GROUP: nat := 4
  const PROBES: nat := 4
  const IP_UDP: nat := 28

  function Ceil(x: real): int {
    if x.Floor as real == x then x.Floor else x.Floor + 1
  }

  /** The groups of two packets or more, counted from the one that starts at packet i. */
  function ParitySum(packets: int, i: nat): nat
    decreases packets - i
  {
    if i >= packets then 0
    else (if packets - i > 1 then 1 else 0) + ParitySum(packets, i + GROUP)
  }

  function WirePackets(packets: int): int { packets + ParitySum(packets, 0) }

  function FrameWireBytes(payload: real): int {
    WirePackets(Ceil(payload / LOAD as real)) * (HEADER + LOAD + IP_UDP) + PROBES * (HEADER + IP_UDP)
  }

  lemma {:induction false} ParitySumFrom(packets: nat, i: nat)
    requires i <= packets
    ensures ParitySum(packets, i) == (packets - i) / GROUP + if (packets - i) % GROUP > 1 then 1 else 0
    decreases packets - i
  {
    if packets - i >= GROUP {
      ParitySumFrom(packets, i + GROUP);
    } else if i < packets {
      assert ParitySum(packets, i + GROUP) == 0;
    }
  }

  /** The loop over groups counts what the protocol's closed form counts. */
  lemma ParitySumIsParityCount(packets: u32)
    ensures ParitySum(packets, 0) == ParityCount(packets)
  {
    ParitySumFrom(packets, 0);
  }

  lemma CeilOfQuotient(n: nat, d: nat)
    requires d > 0
    ensures Ceil(n as real / d as real) == (n + d - 1) / d
  {
    var x, q, r := n as real / d as real, n / d, n % d;
    DivTimes(n as real, d as real);
    assert n == q * d + r;
    assert n as real == q as real * d as real + r as real;
    assert (x - q as real) * d as real == r as real;
    DivBounds(r as real, d as real, 0.0, 1.0);
    FloorOf(x, q, d, r);
    QuotientOf(n, d, q, r);
  }

  lemma FloorOf(x: real, q: int, d: nat, r: nat)
    requires d > 0 && r < d && (x - q as real) * d as real == r as real
    ensures x.Floor == q && (x == q as real <==> r == 0)
  {
    var y := x - q as real;
    Factor(y, d as real);
    OneMinus(y, d as real);
    FactorPositive(1.0 - y, d as real);
  }

  lemma FactorPositive(p: real, w: real)
    requires w > 0.0 && p * w > 0.0
    ensures p > 0.0
  {
    Factor(p, w);
  }

  lemma QuotientOf(n: nat, d: nat, q: nat, r: nat)
    requires d > 0 && r < d && n == q * d + r
    ensures (n + d - 1) / d == if r == 0 then q else q + 1
  {
    if r == 0 {
      QuotientUnique(n + d - 1, d, q, d - 1);
    } else {
      assert n + d - 1 == d * (q + 1) + (r - 1);
      QuotientUnique(n + d - 1, d, q + 1, r - 1);
    }
  }

  /** frame_wire_bytes is the protocol's frame_udp_bytes plus 28 bytes for each datagram of the frame. */
  lemma WireBytesMatchProtocol(bytes: u32)
    requires 1 <= bytes <= MAX_FRAME_BYTES
    ensures var datagrams := PacketCount(bytes) + ParityCount(PacketCount(bytes)) + N_PROBE;
      FrameWireBytes(bytes as real) == FrameUdpBytes(bytes) + datagrams * IP_UDP
  {
    PacketCountExact(bytes);
    CeilOfQuotient(bytes, LOAD);
    ParitySumIsParityCount(PacketCount(bytes));
    hide PacketCount, ParityCount, ParitySum, Ceil;
    var n := PacketCount(bytes) + ParityCount(PacketCount(bytes));
    assert U32(n) == n;
  }

  lemma CeilMonotone(x: real, y: real)
    requires x <= y
    ensures Ceil(x) <= Ceil(y)
  {
  }

  lemma WirePacketsMonotone(m: nat, n: nat)
    requires m <= n
    ensures WirePackets(m) <= WirePackets(n)
  {
    ParitySumFrom(m, 0);
    ParitySumFrom(n, 0);
  }

  lemma WireBytesMonotone(p: real, q: real)
    requires 0.0 <= p <= q
    ensures FrameWireBytes(p) <= FrameWireBytes(q)
  {
    DivMonotone(p, q, LOAD as real);
    DivMonotone(0.0, p, LOAD as real);
    CeilMonotone(p / LOAD as real, q / LOAD as real);
    hide ParitySum;
    WirePacketsMonotone(Ceil(p / LOAD as real), Ceil(q / LOAD as real));
  }

  /** The wire carries more than the payload. */
  lemma WireBytesExceedPayload(p: real)
    requires 0.0 <= p
    ensures FrameWireBytes(p) as real > p
  {
    var x := p / LOAD as real;
    DivTimes(p, LOAD as real);
    DivMonotone(0.0, p, LOAD as real);
    var n := Ceil(x);
    hide ParitySum;
    assert n as real >= x && n >= 0;
    assert n as real * 1200.0 >= p;
    assert FrameWireBytes(p) >= n * 1274 + 296;
    assert (n * 1274 + 296) as real == n as real * 1274.0 + 296.0;
  }

  // ----- payload_equivalent -----

  /** The wire rate of a payload rate, in Mbps. */
  function WireRate(rate: real, interval: real): real
    requires interval > 0.0
  {
    FrameWireBytes(rate * interval / 8.0) as real * 8.0 / interval
  }

  predicate Fits(rate: real, capacity: real, interval: real)
    requires interval > 0.0
  {
    WireRate(rate, interval) <= capacity
  }

  lemma WireRateMonotone(a: real, b: real, interval: real)
    requires interval > 0.0 && 0.0 <= a <= b
    ensures WireRate(a, interval) <= WireRate(b, interval)
  {
    MulMonotone(interval, a, b);
    MulNonneg(interval, a);
    var p, q := a * interval / 8.0, b * interval / 8.0;
    WireBytesMonotone(p, q);
    hide FrameWireBytes;
    DivMonotone(FrameWireBytes(p) as real * 8.0, FrameWireBytes(q) as real * 8.0, interval);
  }

  lemma CapacityDoesNotFit(capacity: real, interval: real)
    requires interval > 0.0 && capacity > 0.0
    ensures !Fits(capacity, capacity, interval)
  {
    var p := capacity * interval / 8.0;
    MulNonneg(capacity, interval);
    WireBytesExceedPayload(p);
    hide FrameWireBytes;
    var w := FrameWireBytes(p) as real * 8.0;
    assert w > capacity * interval;
    DivTimes(w, interval);
    if w / interval <= capacity {
      MulMonotone(interval, w / interval, capacity);
    }
  }

  function Halved(x: real, n: nat): (r: real)
    ensures x > 0.0 ==> r > 0.0
  {
    if n == 0 then x else Halved(x, n - 1) / 2.0
  }

  /** payload_equivalent: sixty halvings of [0, capacity]. None is the ValueError for a capacity that is not
      positive. */
  method PayloadEquivalent(capacity: real, interval: real) returns (r: Option<real>)
    requires interval > 0.0
    ensures r.None? <==> capacity <= 0.0
    // the bracket: the result fits (or nothing does), and capacity/2^60 above it nothing fits
    ensures r.Some? ==> r.value >= 0.0
    ensures r.Some? ==> Fits(r.value, capacity, interval)
                        || (r.value == 0.0 && forall x :: x >= 0.0 ==> !Fits(x, capacity, interval))
    ensures r.Some? ==> forall x :: x >= 0.0 && Fits(x, capacity, interval) ==> x < r.value + Halved(capacity, 60)
  {
    if capacity <= 0.0 {
      return None;
    }
    var low, high := 0.0, capacity;
    CapacityDoesNotFit(capacity, interval);
    hide Fits;
    for k := 0 to 60
      invariant 0.0 <= low && high == low + Halved(capacity, k)
      invariant low == 0.0 || Fits(low, capacity, interval)
      invariant !Fits(high, capacity, interval)
    {
      var mid := (low + high) / 2.0;
      if Fits(mid, capacity, interval) {
        low := mid;
      } else {
        high := mid;
      }
    }
    Bracket(low, high, capacity, interval);
    return Some(low);
  }

  lemma Bracket(low: real, high: real, capacity: real, interval: real)
    requires interval > 0.0 && 0.0 <= low <= high && !Fits(high, capacity, interval)
    ensures forall x :: x >= 0.0 && Fits(x, capacity, interval) ==> x < high
    ensures !Fits(low, capacity, interval) && low == 0.0 ==> forall x :: x >= 0.0 ==> !Fits(x, capacity, interval)
  {
    hide FrameWireBytes, WireRate;
    forall x | x >= 0.0
      ensures Fits(x, capacity, interval) ==> x < high
      ensures low == 0.0 && Fits(x, capacity, interval) ==> Fits(low, capacity, interval)
    {
      if x >= high {
        WireRateMonotone(high, x, interval);
      }
      WireRateMonotone(0.0, x, interval);
    }
  }

  // ----- jain -----

  function Sum(rates: seq<real>): real {
    if rates == [] then 0.0 else Sum(rates[..|rates| - 1]) + rates[|rates| - 1]
  }

  function SumSquares(rates: seq<real>): real {
    if rates == [] then 0.0 else SumSquares(rates[..|rates| - 1]) + Square(rates[|rates| - 1])
  }

  function Jain(rates: seq<real>): real {
    if rates == [] || (forall i :: 0 <= i < |rates| ==> rates[i] == 0.0) then 0.0
    else
      SquaresPositive(rates);
      JainOf(|rates| as real, SumSquares(rates), Sum(rates))
  }

  function JainOf(n: real, squares: real, sum: real): real
    requires n > 0.0 && squares > 0.0
  {
    MulPositive(n, squares);
    Square(sum) / (n * squares)
  }

  lemma {:induction false} SquaresPositive(rates: seq<real>)
    ensures SumSquares(rates) >= 0.0
    ensures SumSquares(rates) == 0.0 <==> forall i :: 0 <= i < |rates| ==> rates[i] == 0.0
  {
    if rates != [] {
      SquaresPositive(rates[..|rates| - 1]);
      AllButLast(rates, 0.0);
    }
  }

  lemma AllButLast(rates: seq<real>, x: real)
    requires rates != []
    ensures var before := rates[..|rates| - 1];
      (forall i :: 0 <= i < |rates| ==> rates[i] == x) <==>
      (rates[|rates| - 1] == x && forall i :: 0 <= i < |before| ==> before[i] == x)
  {
    var before := rates[..|rates| - 1];
    assert forall i :: 0 <= i < |before| ==> before[i] == rates[i];
  }

  /** The sum of (rates[i] - x)^2. */
  ghost function Spread(rates: seq<real>, x: real): real {
    if rates == [] then 0.0 else Spread(rates[..|rates| - 1], x) + Square(rates[|rates| - 1] - x)
  }

  ghost function Expanded(n: real, squares: real, sum: real, x: real): real {
    squares - 2.0 * (x * sum) + n * (x * x)
  }

  lemma {:induction false} SpreadExpands(rates: seq<real>, x: real)
    ensures Spread(rates, x) == Expanded(|rates| as real, SumSquares(rates), Sum(rates), x)
  {
    if rates == [] {
      assert x * 0.0 == 0.0;
    } else {
      hide Square, Expanded;
      var k := |rates| - 1;
      SpreadExpands(rates[..k], x);
      ExpandSquare(k as real, SumSquares(rates[..k]), Sum(rates[..k]), rates[k], x);
      assert |rates| as real == k as real + 1.0;
    }
  }

  lemma ExpandSquare(n: real, squares: real, sum: real, r: real, x: real)
    ensures Expanded(n, squares, sum, x) + Square(r - x) == Expanded(n + 1.0, squares + Square(r), sum + r, x)
  {
    assert (r - x) * (r - x) == r * r - 2.0 * (x * r) + x * x;
    Distribute(x, sum, r);
    Distribute(x * x, n, 1.0);
  }

  lemma {:induction false} SpreadNonneg(rates: seq<real>, x: real)
    ensures Spread(rates, x) >= 0.0
    ensures Spread(rates, x) == 0.0 <==> forall i :: 0 <= i < |rates| ==> rates[i] == x
  {
    if rates != [] {
      SpreadNonneg(rates[..|rates| - 1], x);
      AllButLast(rates, x);
    }
  }

  ghost function GapOf(n: real, squares: real, sum: real): real { n * squares - Square(sum) }

  /** n times the sum of squares less the square of the sum: never negative, and zero only for equal rates. */
  ghost function Gap(rates: seq<real>): real {
    GapOf(|rates| as real, SumSquares(rates), Sum(rates))
  }

  ghost predicate AllEqual(rates: seq<real>) {
    forall i, j :: 0 <= i < |rates| && 0 <= j < |rates| ==> rates[i] == rates[j]
  }

  lemma {:induction false} GapNonneg(rates: seq<real>)
    ensures Gap(rates) >= 0.0
    ensures Gap(rates) == 0.0 <==> AllEqual(rates)
  {
    hide GapOf, AllEqual, Expanded, Square, Spread;
    if rates == [] {
      GapOfNothing();
    } else {
      var before, x := rates[..|rates| - 1], rates[|rates| - 1];
      GapNonneg(before);
      SpreadNonneg(before, x);
      SpreadExpands(before, x);
      GapGrows(|before| as real, SumSquares(before), Sum(before), x);
      assert |rates| as real == |before| as real + 1.0;
      EqualToLast(rates);
    }
  }

  lemma GapOfNothing()
    ensures Gap([]) == 0.0 && AllEqual([])
  {
    assert Square(0.0) == 0.0;
  }

  lemma EqualToLast(rates: seq<real>)
    requires rates != []
    ensures var before, x := rates[..|rates| - 1], rates[|rates| - 1];
      && (AllEqual(rates) <==> forall i :: 0 <= i < |before| ==> before[i] == x)
      && (AllEqual(rates) ==> AllEqual(before))
  {
    var before, x := rates[..|rates| - 1], rates[|rates| - 1];
    assert forall i :: 0 <= i < |before| ==> before[i] == rates[i];
    if AllEqual(rates) {
      assert forall i :: 0 <= i < |rates| ==> rates[i] == rates[|rates| - 1];
    }
  }

  lemma GapGrows(n: real, squares: real, sum: real, x: real)
    ensures GapOf(n + 1.0, squares + Square(x), sum + x) == GapOf(n, squares, sum) + Expanded(n, squares, sum, x)
  {
    Distribute(n + 1.0, squares, x * x);
    Distribute(squares, n, 1.0);
    Distribute(x * x, n, 1.0);
    assert (sum + x) * (sum + x) == sum * sum + 2.0 * (x * sum) + x * x;
  }

  lemma {:induction false} SumDominates(rates: seq<real>)
    requires forall i :: 0 <= i < |rates| ==> rates[i] >= 0.0
    ensures Sum(rates) >= 0.0 && Square(Sum(rates)) >= SumSquares(rates)
  {
    if rates == [] {
      assert Square(0.0) == 0.0;
    } else {
      hide Square;
      SumDominates(rates[..|rates| - 1]);
      SquareOfSum(Sum(rates[..|rates| - 1]), rates[|rates| - 1]);
    }
  }

  lemma SquareOfSum(s: real, x: real)
    requires s >= 0.0 && x >= 0.0
    ensures Square(s + x) >= Square(s) + Square(x)
  {
    MulNonneg(s, x);
    assert (s + x) * (s + x) == s * s + 2.0 * (s * x) + x * x;
  }

  /** For rates that are not negative and not all zero, Jain's index lies between 1/n and 1,
      and is 1 exactly when all rates are equal. */
  lemma JainBounds(rates: seq<real>)
    requires forall i :: 0 <= i < |rates| ==> rates[i] >= 0.0
    requires exists i :: 0 <= i < |rates| && rates[i] != 0.0
    ensures 1.0 / |rates| as real <= Jain(rates) <= 1.0
    ensures Jain(rates) == 1.0 <==> AllEqual(rates)
  {
    hide Sum, SumSquares, Square, JainOf, GapOf, AllEqual;
    GapNonneg(rates);
    SumDominates(rates);
    SquaresPositive(rates);
    JainArithmetic(|rates| as real, SumSquares(rates), Sum(rates));
  }

  lemma JainArithmetic(n: real, squares: real, sum: real)
    requires n >= 1.0 && squares > 0.0 && squares <= Square(sum) && GapOf(n, squares, sum) >= 0.0
    ensures 1.0 / n <= JainOf(n, squares, sum) <= 1.0
    ensures JainOf(n, squares, sum) == 1.0 <==> GapOf(n, squares, sum) == 0.0
  {
    var s2 := Square(sum);
    hide Square;
    MulPositive(n, squares);
    DivTimes(1.0, n);
    var u := 1.0 / n;
    assert u * (n * squares) == (u * n) * squares;
    DivBounds(s2, n * squares, u, 1.0);
    DivTimes(s2, n * squares);
  }

  // ----- smoothed -----

  function SumOf(values: seq<real>, lo: nat, hi: nat): real
    requires lo <= hi <= |values|
    decreases hi
  {
    if hi <= lo then 0.0 else SumOf(values, lo, hi - 1) + values[hi - 1]
  }

  lemma {:induction false} DropFirst(values: seq<real>, lo: nat, hi: nat)
    requires lo < hi <= |values|
    ensures SumOf(values, lo + 1, hi) == SumOf(values, lo, hi) - values[lo]
    decreases hi
  {
    if hi > lo + 1 {
      DropFirst(values, lo, hi - 1);
    }
  }

  /** The times within width of the i-th, up to the i-th, are those from index first on. */
  ghost predicate IsWindow(times: seq<real>, width: real, i: nat, first: nat)
    requires i < |times|
  {
    first <= i && forall k :: 0 <= k <= i ==> (times[k] > times[i] - width <==> first <= k)
  }

  /** m is the mean of the values up to index i whose times lie in the trailing window. */
  ghost predicate IsTrailingMean(times: seq<real>, values: seq<real>, width: real, i: nat, m: real)
    requires |times| == |values| && i < |values|
  {
    exists first: nat ::
      IsWindow(times, width, i, first) && m == SumOf(values, first, i + 1) / (i - first + 1) as real
  }

  /** The window ends at i and starts where times[first] lies within width of times[i]; every point before it fell out
      of the window of some point up to i. */
  ghost predicate IsMovingWindow(times: seq<real>, width: real, i: nat, first: nat)
    requires i < |times|
  {
    first <= i && times[first] > times[i] - width && AllOut(times, width, first, i)
  }

  ghost predicate AllOut(times: seq<real>, width: real, first: nat, i: nat)
    requires first <= |times| && i < |times|
  {
    forall k: nat :: k < first ==> FellOut(times, width, k, i)
  }

  ghost predicate FellOut(times: seq<real>, width: real, k: nat, i: nat)
    requires k < |times| && i < |times|
  {
    exists j: nat :: j <= i && times[k] <= times[j] - width
  }

  ghost predicate IsMovingMean(times: seq<real>, values: seq<real>, width: real, i: nat, m: real)
    requires |times| == |values| && i < |values|
  {
    exists first: nat ::
      IsMovingWindow(times, width, i, first) && m == SumOf(values, first, i + 1) / (i - first + 1) as real
  }

  ghost predicate InTimeOrder(times: seq<real>) {
    forall i, j :: 0 <= i <= j < |times| ==> times[i] <= times[j]
  }

  /** With times in order the moving window is the trailing window. */
  lemma MovingIsTrailing(times: seq<real>, values: seq<real>, width: real, i: nat, m: real)
    requires |times| == |values| && i < |values| && InTimeOrder(times) && IsMovingMean(times, values, width, i, m)
    ensures IsTrailingMean(times, values, width, i, m)
  {
    var first: nat :|
      IsMovingWindow(times, width, i, first) && m == SumOf(values, first, i + 1) / (i - first + 1) as real;
    forall k: nat | k < first
      ensures times[k] <= times[i] - width
    {
      assert FellOut(times, width, k, i);
      var j: nat :| j <= i && times[k] <= times[j] - width;
      assert times[j] <= times[i];
    }
    assert IsWindow(times, width, i, first);
  }

  /** The loop's window before the turn for i. */
  ghost predicate Moved(times: seq<real>, values: seq<real>, width: real, i: nat, start: nat, total: real)
    requires i <= |times| == |values|
  {
    && start <= i && total == SumOf(values, start, i)
    && (i > 0 ==> AllOut(times, width, start, i - 1))
  }

  lemma NothingMoved(times: seq<real>, values: seq<real>, width: real)
    requires |times| == |values|
    ensures Moved(times, values, width, 0, 0, 0.0)
  {
  }

  lemma MovedMean(times: seq<real>, values: seq<real>, width: real, i: nat, start: nat, total: real)
    requires i < |times| == |values| && Moved(times, values, width, i + 1, start, total)
    requires start <= i && times[start] > times[i] - width
    ensures IsMovingMean(times, values, width, i, total / (i + 1 - start) as real)
  {
    assert IsMovingWindow(times, width, i, start);
    assert i + 1 - start == i - start + 1;
  }

  lemma MovedNext(times: seq<real>, values: seq<real>, width: real, i: nat, start: nat, total: real)
    requires i < |times| == |values| && Moved(times, values, width, i, start, total)
    ensures Moved(times, values, width, i + 1, start, total + values[i])
  {
    forall k: nat | k < start
      ensures FellOut(times, width, k, i)
    {
      assert FellOut(times, width, k, i - 1);
      var j: nat :| j <= i - 1 && times[k] <= times[j] - width;
      assert j <= i;
    }
  }

  lemma MovedOn(times: seq<real>, values: seq<real>, width: real, i: nat, start: nat, total: real)
    requires i < |times| == |values| && Moved(times, values, width, i + 1, start, total) && width > 0.0
    requires start <= i && times[start] <= times[i] - width
    ensures start < i && Moved(times, values, width, i + 1, start + 1, total - values[start])
  {
    DropFirst(values, start, i + 1);
    assert FellOut(times, width, start, i);
  }

  /** smoothed: a running total over a moving window. None is an exception: a ValueError for lists of different
      length, and for a window that is not positive a division by zero or an index past the end. */
  method Smoothed(times: seq<real>, values: seq<real>, width: real) returns (r: Option<seq<real>>)
    ensures r.None? <==> |times| != |values| || (values != [] && width <= 0.0)
    ensures r.Some? ==> |r.value| == |values|
    ensures r.Some? ==> forall i :: 0 <= i < |values| ==> IsMovingMean(times, values, width, i, r.value[i])
    ensures r.Some? && InTimeOrder(times) ==>
              forall i :: 0 <= i < |values| ==> IsTrailingMean(times, values, width, i, r.value[i])
  {
    hide IsTrailingMean, IsMovingMean, Moved, AllOut, SumOf;
    if |times| != |values| {
      return None;
    }
    var out: seq<real> := [];
    var start, total := 0, 0.0;
    NothingMoved(times, values, width);
    for i := 0 to |values|
      invariant |out| == i && (start < |values| || i == start == 0)
      invariant width <= 0.0 ==> i <= start
      invariant width > 0.0 ==> start <= i && Moved(times, values, width, i, start, total)
      invariant width > 0.0 ==> forall k :: 0 <= k < i ==> IsMovingMean(times, values, width, k, out[k])
    {
      if width > 0.0 {
        MovedNext(times, values, width, i, start, total);
      }
      total := total + values[i];
      while start < |times| && times[start] <= times[i] - width
        invariant start <= |times| && (width <= 0.0 ==> i <= start)
        invariant width > 0.0 ==> start <= i && Moved(times, values, width, i + 1, start, total)
      {
        if width > 0.0 {
          MovedOn(times, values, width, i, start, total);
        }
        total := total - values[start];
        start := start + 1;
      }
      if start == |times| || i + 1 == start {
        return None;
      }
      if width > 0.0 {
        MovedMean(times, values, width, i, start, total);
      }
      out := out + [total / (i + 1 - start) as real];
    }
    if InTimeOrder(times) {
      forall i | 0 <= i < |values|
        ensures IsTrailingMean(times, values, width, i, out[i])
      {
        MovingIsTrailing(times, values, width, i, out[i]);
      }
    }
    return Some(out);
  }
}
