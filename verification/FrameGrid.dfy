/** Captured repaints on a fixed frame grid (internal/controlcli/dev_record.go), over the reals. */
module FrameGrid {

  const GRID_FPS := 25.0

  function Clamp(x: real, requested: real): (y: real) {
    var low := if x < 0.0 then 0.0 else x;
    if low > requested then requested else low
  }

  /** How long frame i is on display: until the next one, the last one until the end. */
  function Span(times: seq<real>, requested: real, i: nat): (x: real)
    requires i < |times|
  {
    if i < |times| - 1 then Clamp(times[i + 1] - times[i], requested)
    else Clamp(requested - (times[i] - times[0]), requested)
  }

  /** The display time of the first k frames. */
  function Elapsed(times: seq<real>, requested: real, k: nat): (x: real)
    requires k <= |times|
  {
    if k == 0 then 0.0 else Elapsed(times, requested, k - 1) + Span(times, requested, k - 1)
  }

  /** A gap is kept as it is, at least nothing and at most the whole recording. */
  lemma SpanIs(times: seq<real>, requested: real, i: nat)
    requires i < |times| && requested > 0.0
    ensures var gap := if i < |times| - 1 then times[i + 1] - times[i] else requested - (times[i] - times[0]);
      && (gap <= 0.0 ==> Span(times, requested, i) == 0.0)
      && (0.0 <= gap <= requested ==> Span(times, requested, i) == gap)
      && (gap >= requested ==> Span(times, requested, i) == requested)
  {
  }

  /** The nearest whole number, halves up. */
  function Round(x: real): (n: int) {
    (x + 0.5).Floor
  }

  /** The grid tick nearest to the moment frame k comes up. */
  function Tick(times: seq<real>, requested: real, k: nat): (n: int)
    requires k <= |times|
  {
    Round(GRID_FPS * Elapsed(times, requested, k))
  }

  /** The frames written for the first k timestamps fill the grid up to tick k, each one in the
      ticks of its display time. */
  ghost predicate Shows(times: seq<real>, requested: real, frames: seq<nat>, k: nat)
    requires k <= |times|
  {
    && |frames| == Tick(times, requested, k)
    && forall j :: 0 <= j < |frames| ==>
         frames[j] < k && Tick(times, requested, frames[j]) <= j < Tick(times, requested, frames[j] + 1)
  }

  /** The same, except that a recording shorter than half a tick still shows its last frame once. */
  ghost predicate Streamed(times: seq<real>, requested: real, frames: seq<nat>, k: nat)
    requires k <= |times|
  {
    if 0 < k == |times| && Tick(times, requested, k) == 0 then frames == [k - 1] else Shows(times, requested, frames, k)
  }

  /** writeFrameStream: the frame written at each tick, and the duration reported. */
  method WriteFrameStream(times: seq<real>, requested: real) returns (frames: seq<nat>, duration: real)
    requires requested > 0.0
    ensures Streamed(times, requested, frames, |times|)
    ensures duration == |frames| as real / GRID_FPS
  {
    hide Round, Span;
    frames := [];
    var elapsed := 0.0;
    var emitted := 0;
    TickZero(times, requested);
    for index := 0 to |times|
      invariant elapsed == Elapsed(times, requested, index)
      invariant emitted == |frames|
      invariant Streamed(times, requested, frames, index)
    {
      var span := Span(times, requested, index);
      TicksGrow(times, requested, index);
      var ticks := Round(GRID_FPS * (elapsed + span)) - emitted;
      assert ticks == Tick(times, requested, index + 1) - Tick(times, requested, index);
      ShowsMore(times, requested, frames, index, ticks);
      if index == |times| - 1 && emitted + ticks == 0 {
        ticks := 1;
      }
      elapsed := elapsed + span;
      if ticks > 0 {
        var tick := 0;
        ghost var before := frames;
        while tick < ticks
          invariant 0 <= tick <= ticks
          invariant frames == before + Repeated(index, tick)
          invariant emitted == |frames|
        {
          frames := frames + [index];
          emitted := emitted + 1;
          tick := tick + 1;
        }
      }
    }
    duration := emitted as real / GRID_FPS;
  }

  ghost function Repeated(i: nat, n: nat): (s: seq<nat>) {
    seq(n, _ => i)
  }

  lemma TickZero(times: seq<real>, requested: real)
    ensures Tick(times, requested, 0) == 0 && Streamed(times, requested, [], 0)
  {
  }

  lemma ShowsMore(times: seq<real>, requested: real, frames: seq<nat>, k: nat, ticks: nat)
    requires k < |times| && Shows(times, requested, frames, k)
    requires ticks == Tick(times, requested, k + 1) - Tick(times, requested, k)
    ensures Shows(times, requested, frames + Repeated(k, ticks), k + 1)
  {
    hide Tick;
  }

  /** At least one frame, and otherwise the whole recording to the nearest tick. */
  lemma StreamLength(times: seq<real>, requested: real, frames: seq<nat>)
    requires requested > 0.0 && times != [] && Streamed(times, requested, frames, |times|)
    ensures |frames| == if Tick(times, requested, |times|) >= 1 then Tick(times, requested, |times|) else 1
  {
    TicksGrow(times, requested, |times| - 1);
  }

  /** Twenty-five ticks a second, to the nearest. */
  lemma TickIs(times: seq<real>, requested: real, k: nat, n: int)
    requires k <= |times|
    ensures Tick(times, requested, k) == n <==> n as real <= 25.0 * Elapsed(times, requested, k) + 0.5 < n as real + 1.0
  {
  }

  lemma TicksGrow(times: seq<real>, requested: real, k: nat)
    requires k < |times| && requested > 0.0
    ensures 0 <= Tick(times, requested, k) <= Tick(times, requested, k + 1)
  {
    ElapsedGrows(times, requested, k);
  }

  lemma {:induction false} ElapsedGrows(times: seq<real>, requested: real, k: nat)
    requires k < |times| && requested > 0.0
    ensures 0.0 <= Elapsed(times, requested, k) <= Elapsed(times, requested, k + 1)
    decreases k
  {
    if k > 0 {
      ElapsedGrows(times, requested, k - 1);
    }
  }

  /** However many frames there are, no frame starts or ends more than half a tick away from its
      moment. */
  lemma NoDrift(times: seq<real>, requested: real, k: nat)
    requires k <= |times|
    ensures -0.5 / GRID_FPS <= Elapsed(times, requested, k) - Tick(times, requested, k) as real / GRID_FPS < 0.5 / GRID_FPS
  {
    var e := Elapsed(times, requested, k);
    var n := Tick(times, requested, k) as real;
    assert n <= GRID_FPS * e + 0.5 < n + 1.0;
    assert GRID_FPS * (e - n / GRID_FPS) == GRID_FPS * e - n;
  }

  lemma {:induction false} TicksGrowTo(times: seq<real>, requested: real, i: nat, k: nat)
    requires i <= k <= |times| && requested > 0.0
    ensures Tick(times, requested, i) <= Tick(times, requested, k)
    decreases k
  {
    if i < k {
      TicksGrowTo(times, requested, i, k - 1);
      TicksGrow(times, requested, k - 1);
    }
  }

  /** The stream is determined by the grid, and keeps the frames in order. */
  lemma ShowsOneStream(times: seq<real>, requested: real, a: seq<nat>, b: seq<nat>, k: nat)
    requires k <= |times| && requested > 0.0 && Shows(times, requested, a, k) && Shows(times, requested, b, k)
    ensures a == b
    ensures forall i, j :: 0 <= i < j < |a| ==> a[i] <= a[j]
  {
    forall i, j | 0 <= i <= j < |a| ensures a[i] <= b[j] && a[i] <= a[j] && b[i] <= a[j] {
      if b[j] < a[i] {
        TicksGrowTo(times, requested, b[j] + 1, a[i]);
      }
      if a[j] < a[i] {
        TicksGrowTo(times, requested, a[j] + 1, a[i]);
      }
      if a[j] < b[i] {
        TicksGrowTo(times, requested, a[j] + 1, b[i]);
      }
    }
  }

  ghost predicate Monotone(times: seq<real>) {
    forall i, j :: 0 <= i <= j < |times| ==> times[i] <= times[j]
  }

  /** Timestamps that only grow and fit within the recording fill it exactly. */
  lemma TotalIsRequested(times: seq<real>, requested: real)
    requires times != [] && Monotone(times) && times[|times| - 1] - times[0] <= requested
    ensures Elapsed(times, requested, |times|) == requested
  {
    ElapsedIsTime(times, requested, |times| - 1);
  }

  lemma {:induction false} ElapsedIsTime(times: seq<real>, requested: real, k: nat)
    requires k < |times| && Monotone(times) && times[|times| - 1] - times[0] <= requested
    ensures Elapsed(times, requested, k) == times[k] - times[0]
    decreases k
  {
    if k > 0 {
      ElapsedIsTime(times, requested, k - 1);
      assert times[0] <= times[k - 1] <= times[k] <= times[|times| - 1];
    }
  }
}
