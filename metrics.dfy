// The frame-timing metrics of src/wgleng/util/Metrics.h and Metrics.cpp: an
// enable bitmask over eleven single-bit metrics, one duration accumulator per
// metric, and a display pass that refreshes the averages at most every
// 500 ms.  Time is integer milliseconds supplied by the caller; the ImGui
// window is reduced to whether it is open and which lines it shows.

module Metrics {
  import opened Common

  /** The `Metric` enum: a single bit per metric. */
  const FrameTotal: bv32 := 1 << 0
  const LogicTotal: bv32 := 1 << 1
  const Scripts: bv32 := 1 << 2
  const Physics: bv32 := 1 << 3
  const RenderTotal: bv32 := 1 << 4
  const UpdateUniforms: bv32 := 1 << 5
  const UpdateMeshes: bv32 := 1 << 6
  const RenderShadows: bv32 := 1 << 7
  const RenderMeshes: bv32 := 1 << 8
  const RenderText: bv32 := 1 << 9
  const RenderLighting: bv32 := 1 << 10
  const MetricCount: nat := 11
  /** The metrics in index order: entry i is `1 << i`. */
  const MetricBits: seq<bv32> := [FrameTotal, LogicTotal, Scripts, Physics, RenderTotal, UpdateUniforms,
                                  UpdateMeshes, RenderShadows, RenderMeshes, RenderText, RenderLighting]
  const AllMetrics: bv32 := (1 << 11) - 1

  /** The refresh period of the shown averages. */
  const RefreshMs: int := 500

  /** `IsEnabled`: every bit of m is set. */
  predicate IsSet(mask: bv32, m: bv32)
  {
    mask & m == m
  }

  function Pow2(i: nat): (r: nat)
    ensures r >= 1
  {
    if i == 0 then 1 else 2 * Pow2(i - 1)
  }

  /** `std::bit_width`: the number of binary digits of x. */
  function BitWidth(x: nat): (r: nat)
    ensures x == 0 <==> r == 0
    ensures r <= x
    ensures x > 0 ==> Pow2(r - 1) <= x < Pow2(r)
  {
    if x == 0 then 0 else 1 + BitWidth(x / 2)
  }

  /** `GetIndex`: `bit_width(m) - 1` as a `uint32_t`, so a zero mask wraps around; otherwise the highest set bit. */
  function GetIndex(m: U32): (r: U32)
    ensures m != 0 ==> Pow2(r) <= m < Pow2(r + 1)
    ensures m == 0 ==> r == 0xFFFF_FFFF
  {
    var w := BitWidth(m);
    // 0 - 1 in uint32_t
    if w == 0 then 0xFFFF_FFFF else w - 1
  }

  /** The metric bits are the powers of two 1, 2, …, 1024. */
  lemma MetricBitValue(i: nat)
    requires i < MetricCount
    ensures MetricBits[i] as int == Pow2(i)
  {
    if i == 0 { assert MetricBits[0] as int == 1; }
    else if i == 1 { assert MetricBits[1] as int == 2; }
    else if i == 2 { assert MetricBits[2] as int == 4; }
    else if i == 3 { assert MetricBits[3] as int == 8; }
    else if i == 4 { assert MetricBits[4] as int == 16; }
    else if i == 5 { assert MetricBits[5] as int == 32; }
    else if i == 6 { assert MetricBits[6] as int == 64; }
    else if i == 7 { assert MetricBits[7] as int == 128; }
    else if i == 8 { assert MetricBits[8] as int == 256; }
    else if i == 9 { assert MetricBits[9] as int == 512; }
    else { assert MetricBits[10] as int == 1024; }
  }

  /** GetIndex inverts the metric bits: `GetIndex(1 << i) == i`. */
  lemma GetIndexOfBit(i: nat)
    requires i < MetricCount
    ensures GetIndex(MetricBits[i] as int) == i
  {
    MetricBitValue(i);
    IndexOfPow2(i, MetricBits[i] as int);
  }

  lemma IndexOfPow2(i: nat, x: U32)
    requires x == Pow2(i)
    ensures GetIndex(x) == i
  {
    var r := GetIndex(x);
    PowMonotone(r, i);
  }

  lemma {:induction false} PowMonotone(a: nat, b: nat)
    requires Pow2(a) <= Pow2(b) < Pow2(a + 1) || Pow2(b) <= Pow2(a) < Pow2(b + 1)
    ensures a == b
  {
    if a > 0 && b > 0 {
      PowMonotone(a - 1, b - 1);
    } else if a == 0 && b > 0 {
      PowAtLeast2(b);
    } else if a > 0 && b == 0 {
      PowAtLeast2(a);
    }
  }

  lemma PowAtLeast2(a: nat)
    requires a > 0
    ensures Pow2(a) >= 2
  {
  }

  /** ALL_METRICS is exactly the union of the eleven metric bits. */
  lemma AllMetricsIsUnion()
    ensures AllMetrics == FrameTotal | LogicTotal | Scripts | Physics | RenderTotal | UpdateUniforms |
                          UpdateMeshes | RenderShadows | RenderMeshes | RenderText | RenderLighting
    ensures forall i :: 0 <= i < MetricCount ==> IsSet(AllMetrics, MetricBits[i])
    ensures !IsSet(AllMetrics, 1 << 11)
  {
  }

  /** One metric's `DurationMeasurement`; `avg` is undefined after a refresh with no samples. */
  datatype Average = Mean(ms: real) | Undefined
  datatype Duration = Duration(start: int, accum: int, count: int, avg: Average)

  /** `DurationMeasurement()` built at time `now`: its clock starts at `now`, with no samples. */
  function NoDuration(now: int): Duration
  {
    Duration(now, 0, 0, Mean(0.0))
  }

  /** `DurationMeasurement::update`: the mean of the samples becomes the average and the accumulator restarts. */
  function Refreshed(d: Duration): (r: Duration)
    ensures r.accum == 0 && r.count == 0 && r.start == d.start
    ensures d.count != 0 ==> r.avg.Mean? && r.avg.ms * d.count as real == d.accum as real
    ensures d.count == 0 ==> r.avg == Undefined
  {
    Duration(d.start, 0, 0, if d.count == 0 then Undefined else Mean(d.accum as real / d.count as real))
  }

  /** One stopped sample: the time since the start is added and counted. */
  function Stopped(d: Duration, now: int): (r: Duration)
    ensures r.count == d.count + 1 && r.accum - d.accum == now - d.start && r.start == d.start && r.avg == d.avg
  {
    d.(accum := d.accum + (now - d.start), count := d.count + 1)
  }

  class Metrics {
    var enabled: bv32
    var lastDurationUpdate: int
    const data: array<Duration>

    ghost predicate Valid()
      reads this
    {
      data.Length == MetricCount
    }

    /** The static initial state: nothing enabled, every accumulator empty. */
    constructor (now: int)
      ensures Valid() && enabled == 0 && lastDurationUpdate == now && fresh(data)
      ensures forall i :: 0 <= i < MetricCount ==> data[i] == NoDuration(now)
    {
      enabled := 0;
      lastDurationUpdate := now;
      data := new Duration[MetricCount](_ => NoDuration(now));
    }

    method Enable(m: bv32)
      modifies this
      ensures enabled == SetBits(old(enabled), m) && IsEnabled(m)
      ensures lastDurationUpdate == old(lastDurationUpdate)
    {
      enabled := enabled | m;
    }

    method Disable(m: bv32)
      modifies this
      ensures enabled == ClearBits(old(enabled), m) && (m != 0 ==> !IsEnabled(m))
      ensures lastDurationUpdate == old(lastDurationUpdate)
    {
      enabled := enabled & !m;
    }

    function IsEnabled(m: bv32): (r: bool)
      reads this
      ensures r <==> IsSet(enabled, m)
    {
      enabled & m == m
    }

    /** MeasureDurationStart: when enabled, restart the metric's clock; disabled, nothing. */
    method MeasureDurationStart(m: bv32, now: int)
      requires Valid() && 0 < m as int < Pow2(MetricCount)
      modifies data
      ensures !old(IsEnabled(m)) ==> data[..] == old(data[..])
      ensures old(IsEnabled(m)) ==> data[..] == old(data[..])[Slot(m) := old(data[Slot(m)]).(start := now)]
    {
      if !IsEnabled(m) {
        return;
      }
      var i := Slot(m);
      data[i] := data[i].(start := now);
    }

    /** MeasureDurationStop: when enabled, add the elapsed time and count one sample; disabled, nothing. */
    method MeasureDurationStop(m: bv32, now: int, waitForGpu: bool)
      requires Valid() && 0 < m as int < Pow2(MetricCount)
      modifies data
      ensures !old(IsEnabled(m)) ==> data[..] == old(data[..])
      ensures old(IsEnabled(m)) ==> data[..] == old(data[..])[Slot(m) := Stopped(old(data[Slot(m)]), now)]
    {
      if !IsEnabled(m) {
        return;
      }
      var i := Slot(m);
      data[i] := Stopped(data[i], now);
    }

    /**
     * Show: nothing when no metric is enabled.  Otherwise the refresh flag is
     * raised (and the time noted) when more than 500 ms have passed; the open
     * window lists the enabled single-bit metrics, refreshing exactly those.
     */
    method Show(now: int, windowOpen: bool) returns (shown: seq<nat>)
      requires Valid()
      modifies this, data
      ensures enabled == old(enabled)
      ensures old(enabled) == 0 ==> shown == [] && lastDurationUpdate == old(lastDurationUpdate) && data[..] == old(data[..])
      ensures old(enabled) != 0 ==>
        var refresh := now - old(lastDurationUpdate) > RefreshMs;
        lastDurationUpdate == (if refresh then now else old(lastDurationUpdate)) &&
        shown == (if windowOpen then Listed(Flags(enabled), MetricCount) else []) &&
        forall i :: 0 <= i < MetricCount ==>
          data[i] == (if refresh && windowOpen && Flags(enabled)[i] then Refreshed(old(data[i])) else old(data[i]))
    {
      shown := [];
      if enabled == 0 {
        return;
      }
      var updateData := false;
      if now - lastDurationUpdate > RefreshMs {
        lastDurationUpdate := now;
        updateData := true;
      }
      if !windowOpen {
        return;
      }
      shown := ShowLines(updateData);
    }

    /** The window's loop over the eleven metrics: enabled ones are listed and, on a refresh, refreshed. */
    method ShowLines(updateData: bool) returns (shown: seq<nat>)
      requires Valid()
      modifies data
      ensures shown == Listed(Flags(enabled), MetricCount)
      ensures forall j :: 0 <= j < MetricCount ==>
        data[j] == (if updateData && Flags(enabled)[j] then Refreshed(old(data[j])) else old(data[j]))
    {
      shown := [];
      var flags := Flags(enabled);
      var i := 0;
      while i < MetricCount
        invariant 0 <= i <= MetricCount
        invariant shown == Listed(flags, i)
        invariant data[..] == RefreshUpTo(old(data[..]), flags, updateData, i)
      {
        // flags[i] is IsEnabled(1 << i)
        if flags[i] {
          if updateData {
            data[i] := Refreshed(data[i]);
          }
          shown := shown + [i];
        }
        i := i + 1;
      }
    }
  }

  /** A mask below 2^11 other than 0 indexes one of the eleven accumulators. */
  lemma IndexInRange(m: bv32)
    requires 0 < m as int < Pow2(MetricCount)
    ensures GetIndex(m as int) < MetricCount
  {
    var r := GetIndex(m as int);
    if r >= MetricCount {
      PowGrows(MetricCount, r);
    }
  }

  /** The accumulator a metric mask selects: `m_data[GetIndex(m)]`. */
  function Slot(m: bv32): (r: nat)
    requires 0 < m as int < Pow2(MetricCount)
    ensures r < MetricCount && r == GetIndex(m as int)
  {
    IndexInRange(m);
    GetIndex(m as int)
  }

  lemma {:induction false} PowGrows(a: nat, b: nat)
    requires a <= b
    ensures Pow2(a) <= Pow2(b)
  {
    if a < b {
      PowGrows(a, b - 1);
    }
  }

  /** Which of the eleven metrics a mask enables, by index. */
  function Flags(mask: bv32): (r: seq<bool>)
    ensures |r| == MetricCount
  {
    seq(MetricCount, i requires 0 <= i < MetricCount => IsSet(mask, MetricBits[i]))
  }

  /** The accumulators after the first n steps of the window's loop. */
  function RefreshUpTo(ds: seq<Duration>, flags: seq<bool>, refresh: bool, n: nat): (r: seq<Duration>)
    requires n <= |ds| <= |flags|
    ensures |r| == |ds|
    ensures forall j :: 0 <= j < |ds| ==> r[j] == if j < n && refresh && flags[j] then Refreshed(ds[j]) else ds[j]
  {
    if n == 0 then ds
    else
      var p := RefreshUpTo(ds, flags, refresh, n - 1);
      if refresh && flags[n - 1] then p[n - 1 := Refreshed(ds[n - 1])] else p
  }

  /** The indices below n whose flag is set, in increasing order. */
  function Listed(flags: seq<bool>, n: nat): seq<nat>
    requires n <= |flags|
  {
    if n == 0 then [] else Listed(flags, n - 1) + (if flags[n - 1] then [n - 1] else [])
  }

  /** The list holds exactly the set flags, each once, in increasing index order. */
  lemma {:induction false} ListedFacts(flags: seq<bool>, n: nat)
    requires n <= |flags|
    ensures forall k :: 0 <= k < |Listed(flags, n)| ==> Listed(flags, n)[k] < n
    ensures forall i: nat :: i in Listed(flags, n) <==> i < n && flags[i]
    ensures forall j, k :: 0 <= j < k < |Listed(flags, n)| ==> Listed(flags, n)[j] < Listed(flags, n)[k]
  {
    if n > 0 {
      ListedFacts(flags, n - 1);
    }
  }
}
