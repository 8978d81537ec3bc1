/**
 * The sampling pipeline of the PPG page: a ring buffer `acdc` of the last
 * 300 frame values, the AC window `ac` recomputed at each window boundary
 * (detrended on one boundary, a held constant on the next), the value
 * `acFrame` read from it every frame, and the chart's fixed-length list of
 * points. Frame values are exact reals handed in by the caller.
 */
module Ppg {
  import opened Wrappers
  import Detrending

  /** Frames per window: 5 s at 60 frames per second. */
  const WINDOW_LENGTH: nat := 300
  /** Points seeded into the chart. */
  const MAX_LENGTH: nat := 100
  /** Frames skipped at start-up; also the chart's step in milliseconds. */
  const DURATION: nat := 100

  /** The value every buffer slot starts with. */
  const INITIAL_SAMPLE: real := 0.5
  /** The dummy flat signal `acFrame` and `acWindow` start with. */
  const INITIAL_AC: real := 0.008

  /** The ring-buffer slot of frame `n`. */
  function Slot(n: nat): (s: nat)
    ensures s < WINDOW_LENGTH
    ensures n < WINDOW_LENGTH ==> s == n
  {
    n % WINDOW_LENGTH
  }

  /** The next frame writes the next slot, wrapping from the last slot to the first. */
  lemma SlotAdvances(n: nat)
    ensures Slot(n + 1) == if Slot(n) == WINDOW_LENGTH - 1 then 0 else Slot(n) + 1
  {
  }

  /** Frame `n` starts a window. */
  predicate AtBoundary(n: nat) {
    n % WINDOW_LENGTH == 0
  }

  /**
   * `(nFrame / 100) % 2 == 0`, the test that picks the detrended branch. It is
   * only evaluated at a boundary, where `nFrame / 100` is a whole number.
   */
  predicate GateActive(n: nat) {
    (n / 100) % 2 == 0
  }

  /** The 300 frames of window `k` fill the slots 0, 1, ..., 299 in order. */
  lemma WindowFillsSlots(k: nat, s: nat)
    requires s < WINDOW_LENGTH
    ensures AtBoundary(WINDOW_LENGTH * k)
    ensures Slot(WINDOW_LENGTH * k + s) == s
  {
  }

  /** The gate at the start of window `k` is open exactly for even `k`. */
  lemma GateOfWindow(n: nat, k: nat)
    requires n == 300 * k
    ensures GateActive(n) <==> k % 2 == 0
  {
    assert n / 100 == 3 * k;
    assert 3 * k == 2 * k + k;
  }

  /** At a boundary the gate is open on every second window: windows 0, 2, 4, ... */
  lemma GateAlternates(n: nat)
    requires AtBoundary(n)
    ensures GateActive(n) <==> (n / WINDOW_LENGTH) % 2 == 0
  {
    GateOfWindow(n, n / WINDOW_LENGTH);
  }

  /** Consecutive boundaries take opposite branches. */
  lemma GateFlips(k: nat)
    ensures GateActive(300 * (k + 1)) <==> !GateActive(300 * k)
  {
    GateOfWindow(300 * k, k);
    GateOfWindow(300 * (k + 1), k + 1);
  }

  /**
   * Frames up to `DURATION` are skipped, so the first boundary the handler sees
   * is 300, and there the window is held: nothing is detrended before frame 600.
   */
  lemma FirstBoundaryHolds(n: nat)
    requires AtBoundary(n) && DURATION < n < 2 * WINDOW_LENGTH
    ensures n == WINDOW_LENGTH && !GateActive(n)
  {
    var k := n / WINDOW_LENGTH;
    assert n == 300 * k;
    GateOfWindow(n, k);
  }

  /** `Array(300).fill(v)`. */
  function Held(v: real): (w: seq<real>)
    ensures |w| == WINDOW_LENGTH && forall i :: 0 <= i < |w| ==> w[i] == v
  {
    seq(WINDOW_LENGTH, _ => v)
  }

  /** A held window averages to the value it holds. */
  lemma HeldMean(v: real)
    ensures Detrending.Mean(Held(v)) == Some(v)
  {
    Detrending.MeanOfConstant(WINDOW_LENGTH, v);
  }

  /** A chart point: the plotted value and the gate state at that moment. */
  datatype Point = Point(x: real, signal: int)

  /**
   * `lineArr.push(p); lineArr.shift()`: the list after one point arrives and
   * the oldest leaves (an empty list stays empty).
   */
  function Slide(points: seq<Point>, p: Point): (r: seq<Point>)
    ensures |r| == |points|
    ensures |points| > 0 ==> r[|r| - 1] == p && r[..|r| - 1] == points[1..]
    ensures forall i :: 0 <= i < |points| - 1 ==> r[i] == points[i + 1]
  {
    (points + [p])[1..]
  }

  /** After as many slides as the list is long, it holds exactly the new points. */
  lemma {:induction false} SlideAll(points: seq<Point>, news: seq<Point>)
    requires |news| == |points|
    ensures SlideEach(points, news) == news
  {
    SlideSuffix(points, news, |news|);
    assert points[|news|..] + news == news;
  }

  /** The list after sliding in each of `news` in turn. */
  function SlideEach(points: seq<Point>, news: seq<Point>): (r: seq<Point>)
    ensures |r| == |points|
    decreases |news|
  {
    if |news| == 0 then points
    else SlideEach(Slide(points, news[0]), news[1..])
  }

  /** While the list is at least as long as the newcomers, sliding keeps the newest `|points|` points. */
  lemma {:induction false} SlideSuffix(points: seq<Point>, news: seq<Point>, k: nat)
    requires k == |news| <= |points|
    ensures SlideEach(points, news) == points[k..] + news
    decreases k
  {
    if k > 0 {
      var p := news[0];
      assert Slide(points, p) == points[1..] + [p];
      SlideSuffix(Slide(points, p), news[1..], k - 1);
      assert (points[1..] + [p])[k - 1..] == points[k..] + [p];
      assert points[k..] + [p] + news[1..] == points[k..] + news;
    }
  }

  /** The points `seedData` appends: `k` of them at 0.5, flagged `signal`. */
  function SeedPoints(k: nat, signal: int): (ps: seq<Point>)
    ensures |ps| == k && forall i :: 0 <= i < k ==> ps[i] == Point(0.5, signal)
  {
    seq(k, _ => Point(0.5, signal))
  }

  class Pipeline {
    /** Frame values, overwritten in place at `nFrame % 300`. */
    const acdc: array<real>
    /** The AC window the per-frame value is read from. */
    var ac: seq<real>
    var nFrame: nat
    /** 1 while the detrended window is shown, 0 while the held mean is. */
    var isSignal: int
    /** The mean of the last detrended window. */
    var acWindow: real
    var acFrame: real
    /** The chart's points, oldest first. */
    var lineArr: seq<Point>

    /** Both windows hold 300 values and the gate flag is 0 or 1. */
    predicate Valid()
      reads this, acdc
    {
      acdc.Length == WINDOW_LENGTH && |ac| == WINDOW_LENGTH && (isSignal == 0 || isSignal == 1)
    }

    /** The module-level initial state. */
    constructor()
      ensures Valid() && fresh(acdc)
      ensures acdc[..] == seq(WINDOW_LENGTH, _ => INITIAL_SAMPLE)
      ensures ac == seq(WINDOW_LENGTH, _ => INITIAL_SAMPLE)
      ensures nFrame == 0 && isSignal == 0
      ensures acFrame == INITIAL_AC && acWindow == INITIAL_AC
      ensures lineArr == []
    {
      acdc := new real[WINDOW_LENGTH](_ => INITIAL_SAMPLE);
      ac := seq(WINDOW_LENGTH, _ => INITIAL_SAMPLE);
      nFrame := 0;
      isSignal := 0;
      acFrame := INITIAL_AC;
      acWindow := INITIAL_AC;
      lineArr := [];
    }

    /**
     * The body of the `onload` handler once the frame's value `xMean` is
     * known, run with the frame counter as it is when the image has loaded:
     * store the value in its slot; at a boundary either detrend the buffer and
     * take its mean, or hold the last mean across a flat window; then read
     * this frame's AC value.
     */
    method ProcessFrame(xMean: real)
      requires Valid()
      modifies this, acdc
      ensures Valid()
      ensures acdc[..] == old(acdc[..])[Slot(nFrame) := xMean]
      ensures nFrame == old(nFrame) && lineArr == old(lineArr)
      ensures !AtBoundary(nFrame) ==>
                ac == old(ac) && isSignal == old(isSignal) && acWindow == old(acWindow)
      ensures AtBoundary(nFrame) && GateActive(nFrame) ==>
                isSignal == 1 && Detrending.Detrended(acdc[..]) == Some(ac)
                && Detrending.Mean(ac) == Some(acWindow) && acWindow == 0.0
      ensures AtBoundary(nFrame) && !GateActive(nFrame) ==>
                isSignal == 0 && ac == Held(old(acWindow)) && acWindow == old(acWindow)
      ensures acFrame == ac[Slot(nFrame)]
    {
      acdc[nFrame % WINDOW_LENGTH] := xMean;
      if nFrame % WINDOW_LENGTH == 0 {
        if (nFrame / 100) % 2 == 0 {
          isSignal := 1;
          var window := acdc[..];
          Detrending.DetrendedDefined(window);
          Detrending.MeanOfDetrended(window);
          var detrended := Detrending.Detrend(window);
          ac := detrended.value;
          var mean := Detrending.WindowMean(ac);
          acWindow := mean.value;
        } else {
          ac := Held(acWindow);
          isSignal := 0;
        }
      }
      acFrame := ac[nFrame % WINDOW_LENGTH];
    }

    /**
     * One call of `computeFrame`: past the start-up frames and while the video
     * plays, a frame is grabbed and its `onload` handler (`ProcessFrame`) is
     * scheduled; the frame counter advances either way, before that handler
     * runs. Nothing else changes here.
     */
    method Tick(paused: bool) returns (scheduled: bool)
      requires Valid()
      modifies this
      ensures Valid()
      ensures scheduled <==> old(nFrame) > DURATION && !paused
      ensures nFrame == old(nFrame) + 1
      ensures ac == old(ac) && isSignal == old(isSignal) && acWindow == old(acWindow)
      ensures acFrame == old(acFrame) && lineArr == old(lineArr)
    {
      scheduled := nFrame > DURATION && !paused;
      nFrame := nFrame + 1;
    }

    /** `seedData`: `MAX_LENGTH` points at 0.5 with the current gate flag. */
    method SeedData()
      modifies this
      ensures lineArr == old(lineArr) + SeedPoints(MAX_LENGTH, isSignal)
      ensures ac == old(ac) && nFrame == old(nFrame) && isSignal == old(isSignal)
      ensures acWindow == old(acWindow) && acFrame == old(acFrame)
    {
      var i := 0;
      while i < MAX_LENGTH
        invariant 0 <= i <= MAX_LENGTH
        invariant lineArr == old(lineArr) + SeedPoints(i, isSignal)
        invariant ac == old(ac) && nFrame == old(nFrame) && isSignal == old(isSignal)
        invariant acWindow == old(acWindow) && acFrame == old(acFrame)
      {
        assert SeedPoints(i + 1, isSignal) == SeedPoints(i, isSignal) + [Point(0.5, isSignal)];
        lineArr := lineArr + [Point(0.5, isSignal)];
        i := i + 1;
      }
    }

    /** `updateData`: the current AC value and gate flag come in, the oldest point leaves. */
    method UpdateData()
      modifies this
      ensures lineArr == Slide(old(lineArr), Point(acFrame, isSignal))
      ensures ac == old(ac) && nFrame == old(nFrame) && isSignal == old(isSignal)
      ensures acWindow == old(acWindow) && acFrame == old(acFrame)
    {
      var lineData := Point(acFrame, isSignal);
      lineArr := lineArr + [lineData];
      lineArr := lineArr[1..];
    }

    /** The interval callback of `drawLineChart`: nothing is charted while the video is paused. */
    method ChartTick(paused: bool)
      modifies this
      ensures lineArr == if paused then old(lineArr) else Slide(old(lineArr), Point(acFrame, isSignal))
      ensures ac == old(ac) && nFrame == old(nFrame) && isSignal == old(isSignal)
      ensures acWindow == old(acWindow) && acFrame == old(acFrame)
    {
      if !paused {
        UpdateData();
      }
    }
  }
}
