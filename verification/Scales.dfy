/** Snapshots and the axes of the oscilloscope view. */
module Scales {

  const U64: nat := 0x1_0000_0000_0000_0000

  /** Memory sizes are 64-bit unsigned; a zero stamp marks a slot never written. */
  datatype Snapshot = Snapshot(
    stamp: nat, cpu: real, freq: int, memUsed: nat, memTotal: nat,
    cpuYMin: real, cpuYMax: real, freqYMin: int, freqYMax: int, memYMin: nat, memYMax: nat)

  datatype Bounds = Bounds(cpuMin: real, cpuMax: real, freqMin: int, freqMax: int, memMin: nat, memMax: nat)

  function CpuMargin(b: Bounds): real {
    var span := if b.cpuMax - b.cpuMin < 0.5 then 0.5 else b.cpuMax - b.cpuMin;
    if span * 0.05 < 0.1 then 0.1 else span * 0.05
  }

  function FreqMargin(b: Bounds): int {
    var span := if b.freqMax - b.freqMin < 1 then 1 else b.freqMax - b.freqMin;
    if span / 20 < 1 then 1 else span / 20
  }

  function MemMargin(b: Bounds): (m: nat)
    ensures m >= 1
  {
    var span := if b.memMax - b.memMin < 1 then 1 else b.memMax - b.memMin;
    if span / 20 < 1 then 1 else span / 20
  }

  /** The axes for given bounds: a margin on both sides, clamped. */
  function Axes(s: Snapshot, b: Bounds): Snapshot {
    var memTop := (b.memMax + MemMargin(b)) % U64;
    s.(cpuYMin := if b.cpuMin - CpuMargin(b) < 0.0 then 0.0 else b.cpuMin - CpuMargin(b),
       cpuYMax := if b.cpuMax + CpuMargin(b) > 100.0 then 100.0 else b.cpuMax + CpuMargin(b),
       freqYMin := if b.freqMin - FreqMargin(b) < 0 then 0 else b.freqMin - FreqMargin(b),
       freqYMax := b.freqMax + FreqMargin(b),
       memYMin := if b.memMin > MemMargin(b) then b.memMin - MemMargin(b) else 0,
       memYMax := if memTop > s.memTotal then s.memTotal else memTop)
  }

  /** Each bound holds for every sample and is attained by one; frequencies that are not
      positive count only for the current snapshot. */
  ghost predicate Tight(current: Snapshot, visited: seq<Snapshot>, b: Bounds) {
    && (forall x :: x in [current] + visited ==> b.cpuMin <= x.cpu <= b.cpuMax && b.memMin <= x.memUsed <= b.memMax)
    && (exists x :: x in [current] + visited && x.cpu == b.cpuMin)
    && (exists x :: x in [current] + visited && x.cpu == b.cpuMax)
    && (exists x :: x in [current] + visited && x.memUsed == b.memMin)
    && (exists x :: x in [current] + visited && x.memUsed == b.memMax)
    && b.freqMin <= current.freq <= b.freqMax
    && (forall x :: x in visited && x.freq > 0 ==> b.freqMin <= x.freq <= b.freqMax)
    && (b.freqMin == current.freq || exists x :: x in visited && x.freq > 0 && x.freq == b.freqMin)
    && (b.freqMax == current.freq || exists x :: x in visited && x.freq > 0 && x.freq == b.freqMax)
  }

  lemma TightUnique(current: Snapshot, visited: seq<Snapshot>, a: Bounds, b: Bounds)
    requires Tight(current, visited, a) && Tight(current, visited, b)
    ensures a == b
  {
    assert a.cpuMin <= b.cpuMin && b.cpuMin <= a.cpuMin;
    assert a.cpuMax <= b.cpuMax && b.cpuMax <= a.cpuMax;
  }

  /** The running minimum and maximum after one more sample. */
  function Wider(b: Bounds, s: Snapshot): Bounds {
    Bounds(if s.cpu < b.cpuMin then s.cpu else b.cpuMin, if s.cpu > b.cpuMax then s.cpu else b.cpuMax,
           if 0 < s.freq < b.freqMin then s.freq else b.freqMin,
           if s.freq > 0 && s.freq > b.freqMax then s.freq else b.freqMax,
           if s.memUsed < b.memMin then s.memUsed else b.memMin, if s.memUsed > b.memMax then s.memUsed else b.memMax)
  }

  function BoundsOf(current: Snapshot, visited: seq<Snapshot>): Bounds {
    if visited == [] then
      Bounds(current.cpu, current.cpu, current.freq, current.freq, current.memUsed, current.memUsed)
    else Wider(BoundsOf(current, visited[..|visited| - 1]), visited[|visited| - 1])
  }

  /** The current snapshot with its axes set from the visited part of the window. */
  function Scaled(current: Snapshot, visited: seq<Snapshot>): Snapshot {
    Axes(current, BoundsOf(current, visited))
  }

  lemma Widen(current: Snapshot, visited: seq<Snapshot>, s: Snapshot, b: Bounds)
    requires Tight(current, visited, b)
    ensures Tight(current, visited + [s], Wider(b, s))
  {
    var before, after := [current] + visited, [current] + (visited + [s]);
    assert after == before + [s];
    assert forall x :: x in after <==> x in before || x == s;
    assert forall x :: x in visited + [s] <==> x in visited || x == s;
  }

  /** The running bounds are the tight ones. */
  lemma {:induction false} BoundsTight(current: Snapshot, visited: seq<Snapshot>)
    ensures Tight(current, visited, BoundsOf(current, visited))
  {
    if visited != [] {
      var init, last := visited[..|visited| - 1], visited[|visited| - 1];
      BoundsTight(current, init);
      Widen(current, init, last, BoundsOf(current, init));
      assert visited == init + [last];
    }
  }

  // ---------------------------------------------------------------- what the axes enclose

  predicate CpuInside(r: Snapshot, x: Snapshot) {
    r.cpuYMin <= x.cpu <= r.cpuYMax
  }

  predicate FreqInside(r: Snapshot, x: Snapshot) {
    r.freqYMin <= x.freq <= r.freqYMax
  }

  predicate MemInside(r: Snapshot, x: Snapshot) {
    r.memYMin <= x.memUsed <= r.memYMax
  }

  /** A CPU sample of the window is inside its axis exactly when it is a percentage; the
      axis never leaves 0 to 100, and it is not empty once a sample is a percentage. */
  lemma CpuEnvelope(current: Snapshot, visited: seq<Snapshot>, b: Bounds, x: Snapshot)
    requires Tight(current, visited, b) && x in [current] + visited
    ensures CpuInside(Axes(current, b), x) <==> 0.0 <= x.cpu <= 100.0
    ensures 0.0 <= Axes(current, b).cpuYMin && Axes(current, b).cpuYMax <= 100.0
    ensures 0.0 <= x.cpu <= 100.0 ==> Axes(current, b).cpuYMin < Axes(current, b).cpuYMax
  {
    assert b.cpuMin <= x.cpu <= b.cpuMax && CpuMargin(b) >= 0.1;
  }

  /** The current frequency, and every positive one of the window, is inside its axis
      exactly when it is not negative. */
  lemma FreqEnvelope(current: Snapshot, visited: seq<Snapshot>, b: Bounds, x: Snapshot)
    requires Tight(current, visited, b) && (x == current || (x in visited && x.freq > 0))
    ensures FreqInside(Axes(current, b), x) <==> 0 <= x.freq
    ensures 0 <= x.freq ==> Axes(current, b).freqYMin < Axes(current, b).freqYMax
  {
  }

  /** No 64-bit subtraction wraps, and the whole window is inside the memory axis exactly
      when no sample exceeds the current total and the upper margin does not wrap. */
  lemma MemEnvelope(current: Snapshot, visited: seq<Snapshot>, b: Bounds)
    requires Tight(current, visited, b)
    requires forall x :: x in [current] + visited ==> x.memUsed < U64
    ensures b.memMin <= b.memMax
    ensures (forall x :: x in [current] + visited ==> MemInside(Axes(current, b), x))
            <==> b.memMax <= current.memTotal && b.memMax + MemMargin(b) < U64
    ensures Axes(current, b).memYMax <= current.memTotal
    ensures b.memMax <= current.memTotal && b.memMax + MemMargin(b) < U64 && current.memTotal > 0 ==>
              Axes(current, b).memYMin < Axes(current, b).memYMax
  {
    assert current in [current] + visited;
    var r := Axes(current, b);
    var top :| top in [current] + visited && top.memUsed == b.memMax;
    var m := MemMargin(b);
    assert m <= b.memMax - b.memMin + 1;
    if b.memMax + m < U64 {
      assert (b.memMax + m) % U64 == b.memMax + m;
    } else {
      assert (b.memMax + m) % U64 == b.memMax + m - U64;
      assert !MemInside(r, top);
    }
    if b.memMax > current.memTotal {
      assert !MemInside(r, top);
    }
  }

  // ---------------------------------------------------------------- where the axes end

  lemma ScaledTo(current: Snapshot, visited: seq<Snapshot>, b: Bounds)
    requires Tight(current, visited, b)
    ensures Scaled(current, visited) == Axes(current, b)
  {
    BoundsTight(current, visited);
    TightUnique(current, visited, BoundsOf(current, visited), b);
  }

  /** The CPU axis reaches a twentieth of the span beyond the extreme samples, a tenth of a
      percent where the span is 2 percent or less, and stops at 0 and at 100. */
  lemma CpuAxisMeans(current: Snapshot, visited: seq<Snapshot>, b: Bounds, gap: real)
    requires Tight(current, visited, b)
    requires if b.cpuMax - b.cpuMin <= 2.0 then gap == 0.1 else 20.0 * gap == b.cpuMax - b.cpuMin
    ensures var r := Scaled(current, visited);
            && r.cpuYMin == (if b.cpuMin <= gap then 0.0 else b.cpuMin - gap)
            && r.cpuYMax == (if b.cpuMax + gap >= 100.0 then 100.0 else b.cpuMax + gap)
  {
    ScaledTo(current, visited, b);
  }

  /** The frequency axis reaches a twentieth of the span, rounded down and at least 1, beyond
      the extreme samples, and stops at 0 below. */
  lemma FreqAxisMeans(current: Snapshot, visited: seq<Snapshot>, b: Bounds, gap: nat)
    requires Tight(current, visited, b)
    requires if b.freqMax - b.freqMin < 40 then gap == 1 else 20 * gap <= b.freqMax - b.freqMin < 20 * (gap + 1)
    ensures var r := Scaled(current, visited);
            && r.freqYMin == (if b.freqMin <= gap then 0 else b.freqMin - gap)
            && r.freqYMax == b.freqMax + gap
  {
    ScaledTo(current, visited, b);
  }

  /** So does the memory axis, which also stops at the total; a top beyond 64 bits wraps. */
  lemma MemAxisMeans(current: Snapshot, visited: seq<Snapshot>, b: Bounds, gap: nat)
    requires Tight(current, visited, b) && b.memMax < U64
    requires if b.memMax - b.memMin < 40 then gap == 1 else 20 * gap <= b.memMax - b.memMin < 20 * (gap + 1)
    ensures var r := Scaled(current, visited);
            var top := if b.memMax + gap < U64 then b.memMax + gap else b.memMax + gap - U64;
            && r.memYMin == (if b.memMin <= gap then 0 else b.memMin - gap)
            && r.memYMax == (if top >= current.memTotal then current.memTotal else top)
  {
    ScaledTo(current, visited, b);
    assert MemMargin(b) == gap;
    Wrapped(b.memMax, gap);
    assert b.memMin <= b.memMax by {
      assert current in [current] + visited;
    }
  }

  lemma Wrapped(x: nat, gap: nat)
    requires x < U64 && (gap == 1 || 20 * gap <= x)
    ensures (x + gap) % U64 == if x + gap < U64 then x + gap else x + gap - U64
  {
    assert gap < U64;
  }

  /** Measurements are published as they were taken. */
  lemma OnlyAxesChange(current: Snapshot, visited: seq<Snapshot>)
    ensures var r := Scaled(current, visited);
            r.stamp == current.stamp && r.cpu == current.cpu && r.freq == current.freq
            && r.memUsed == current.memUsed && r.memTotal == current.memTotal
  {
  }
}
