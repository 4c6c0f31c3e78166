/** The frame-rate conversion of ffmpeg's video output: for each picture from the filters,
    how many frames the encoder gets and with what timestamps.

    Timestamps are whole ticks of the encoder's time base; the duration of a picture and
    the differences are exact reals, and rounding is to the nearest integer, half to even. */
module FrameRate {
  import opened Options

  datatype VsyncMethod = Passthrough | Cfr | Vfr | Drop

  /** The flags of the output format that decide when the method is left open. */
  datatype Format = Format(variableFps: bool, noTimestamps: bool)

  /** The method of the command line; None is VSYNC_AUTO, which leaves it to the format. */
  function Method(setting: Option<VsyncMethod>, f: Format): VsyncMethod {
    if setting.Some? then setting.value
    else if !f.variableFps then Cfr
    else if f.noTimestamps then Passthrough
    else Vfr
  }

  datatype Picture = Picture(pts: int, duration: real)

  /** The counters of an output stream, and the timestamps given to the encoder so far. */
  datatype Counters = Counters(syncOpts: int, frameNumber: int, dup: int, drop: int, emitted: seq<int>)

  const START: Counters := Counters(0, 0, 0, 0, [])

  /** lrint. */
  function Round(x: real): (n: int)
    ensures n as real - 0.5 <= x <= n as real + 0.5
    ensures x == n as real + 0.5 || x == n as real - 0.5 ==> n % 2 == 0
  {
    var f := x.Floor;
    var rest := x - f as real;
    if rest < 0.5 || (rest == 0.5 && f % 2 == 0) then f else f + 1
  }

  function Delta(p: Picture, syncOpts: int): real {
    p.pts as real - syncOpts as real + p.duration
  }

  /** How many frames the method asks for. */
  function Wanted(m: VsyncMethod, delta: real): (n: int)
    ensures n >= 0
  {
    match m
    case Cfr => if delta < -1.1 then 0 else if delta > 1.1 then Round(delta) else 1
    case Vfr => if delta <= -0.6 then 0 else 1
    case _ => 1
  }

  /** The timestamp of the first of them. */
  function Start(m: VsyncMethod, delta: real, p: Picture, syncOpts: int): int {
    match m
    case Cfr => syncOpts
    case Vfr => if delta > 0.6 then Round(p.pts as real) else syncOpts
    case _ => Round(p.pts as real)
  }

  function Min(a: int, b: int): int { if a < b then a else b }

  function Range(from: int, n: nat): seq<int> { seq(n, i => from + i) }

  lemma RangeGrows(xs: seq<int>, from: int, n: nat)
    ensures xs + Range(from, n) + [from + n] == xs + Range(from, n + 1)
    ensures xs + Range(from, 0) == xs
  {
  }

  /** What one call does to the counters. */
  function Step(m: VsyncMethod, maxFrames: int, s: Counters, p: Picture): Counters
    requires s.frameNumber <= maxFrames
  {
    var delta := Delta(p, s.syncOpts);
    var start := Start(m, delta, p, s.syncOpts);
    var n := Min(Wanted(m, delta), maxFrames - s.frameNumber);
    if n == 0 then s.(syncOpts := start, drop := s.drop + 1)
    else Counters(start + n, s.frameNumber + n, s.dup + n - 1, s.drop, s.emitted + Range(start, n))
  }

  class OutputStream {
    var syncOpts: int
    var frameNumber: int
    const maxFrames: int
    var nbFramesDup: int
    var nbFramesDrop: int
    ghost var emitted: seq<int>

    ghost function State(): Counters
      reads this
    {
      Counters(syncOpts, frameNumber, nbFramesDup, nbFramesDrop, emitted)
    }

    constructor (maxFrames: int)
      ensures State() == START && this.maxFrames == maxFrames
    {
      this.maxFrames := maxFrames;
      syncOpts, frameNumber, nbFramesDup, nbFramesDrop, emitted := 0, 0, 0, 0, [];
    }

    /** do_video_out.  That the frame number does not exceed the limit is what ends the
        loop. */
    method DoVideoOut(p: Picture, setting: Option<VsyncMethod>, f: Format)
      requires frameNumber <= maxFrames
      modifies this
      ensures frameNumber <= maxFrames
      ensures State() == Step(Method(setting, f), maxFrames, old(State()), p)
    {
      var m: VsyncMethod;
      match setting {
        case Some(given) =>
          m := given;
        case None =>
          m := if f.variableFps then (if f.noTimestamps then Passthrough else Vfr) else Cfr;
      }
      var delta := p.pts as real - syncOpts as real + p.duration;
      var nbFrames := 1;
      match m {
        case Cfr =>
          if delta < -1.1 {
            nbFrames := 0;
          } else if delta > 1.1 {
            nbFrames := Round(delta);
          }
        case Vfr =>
          if delta <= -0.6 {
            nbFrames := 0;
          } else if delta > 0.6 {
            syncOpts := Round(p.pts as real);
          }
        case _ =>
          syncOpts := Round(p.pts as real);
      }
      assert m == Method(setting, f) && delta == Delta(p, old(syncOpts));
      assert nbFrames == Wanted(m, delta) && syncOpts == Start(m, delta, p, old(syncOpts));
      hide Method, Delta, Wanted, Start, Round, Range;
      nbFrames := Min(nbFrames, maxFrames - frameNumber);
      if nbFrames == 0 {
        nbFramesDrop := nbFramesDrop + 1;
        return;
      } else if nbFrames > 1 {
        nbFramesDup := nbFramesDup + (nbFrames - 1);
      }
      Encode(nbFrames);
    }

    /** The loop of do_video_out: each frame gets the next timestamp. */
    method Encode(n: nat)
      modifies `syncOpts, `frameNumber, `emitted
      ensures syncOpts == old(syncOpts) + n && frameNumber == old(frameNumber) + n
      ensures emitted == old(emitted) + Range(old(syncOpts), n)
    {
      var nbFrames: int := n;
      hide Range;
      RangeGrows(emitted, syncOpts, 0);
      while nbFrames != 0
        invariant 0 <= nbFrames <= n
        invariant syncOpts == old(syncOpts) + (n - nbFrames) && frameNumber == old(frameNumber) + (n - nbFrames)
        invariant emitted == old(emitted) + Range(old(syncOpts), n - nbFrames)
        decreases nbFrames
      {
        RangeGrows(old(emitted), old(syncOpts), n - nbFrames);
        emitted := emitted + [syncOpts];
        syncOpts := syncOpts + 1;
        frameNumber := frameNumber + 1;
        nbFrames := nbFrames - 1;
      }
    }
  }

  // ---------- Runs ----------

  function Run(m: VsyncMethod, maxFrames: int, ps: seq<Picture>): (s: Counters)
    requires maxFrames >= 0
    ensures s.frameNumber <= maxFrames
    decreases |ps|
  {
    if ps == [] then START else Step(m, maxFrames, Run(m, maxFrames, ps[..|ps| - 1]), ps[|ps| - 1])
  }

  /** Every picture is accounted for: the frames encoded are the calls, plus the frames
      duplicated, less the pictures dropped, and never more than the limit. */
  lemma {:induction false} FramesAreAccounted(m: VsyncMethod, maxFrames: int, ps: seq<Picture>)
    requires maxFrames >= 0
    ensures var s := Run(m, maxFrames, ps);
      && 0 <= s.frameNumber == |ps| + s.dup - s.drop
      && s.frameNumber == |s.emitted| <= maxFrames
      && 0 <= s.dup && 0 <= s.drop <= |ps|
    decreases |ps|
  {
    if ps != [] { FramesAreAccounted(m, maxFrames, ps[..|ps| - 1]); }
  }

  // ---------- Constant frame rate ----------

  ghost predicate Ordered(ps: seq<Picture>) {
    && (forall i :: 0 <= i < |ps| ==> ps[i].pts >= 0)
    && (forall i, j :: 0 <= i < j < |ps| ==> ps[i].pts <= ps[j].pts)
  }

  ghost predicate SameDuration(ps: seq<Picture>, d: real) {
    forall i :: 0 <= i < |ps| ==> ps[i].duration == d
  }

  /** At a constant rate the timestamps are 0, 1, 2 and so on, whatever comes in. */
  lemma {:induction false} CfrCountsUp(maxFrames: int, ps: seq<Picture>)
    requires maxFrames >= 0
    ensures var s := Run(Cfr, maxFrames, ps);
      s.syncOpts == |s.emitted| && forall i :: 0 <= i < |s.emitted| ==> s.emitted[i] == i
    decreases |ps|
  {
    if ps != [] { CfrCountsUp(maxFrames, ps[..|ps| - 1]); }
  }

  /** The frame number never goes back. */
  lemma StepGoesOn(m: VsyncMethod, maxFrames: int, s: Counters, p: Picture)
    requires s.frameNumber <= maxFrames
    ensures s.frameNumber <= Step(m, maxFrames, s, p).frameNumber <= maxFrames
  {
  }

  /** One call at a constant rate keeps the drift in bounds. */
  lemma StepKeepsDrift(maxFrames: int, s: Counters, p: Picture)
    requires s.frameNumber <= maxFrames && Delta(p, s.syncOpts) >= -2.1
    requires Step(Cfr, maxFrames, s, p).frameNumber < maxFrames
    ensures -2.1 <= Delta(p, Step(Cfr, maxFrames, s, p).syncOpts) <= 0.5
  {
    var delta := Delta(p, s.syncOpts);
    var n := Wanted(Cfr, delta);
    assert Step(Cfr, maxFrames, s, p).syncOpts == s.syncOpts + n;
  }

  /** At a constant rate, with timestamps that do not go back and one duration, the end of
      the last picture is never more than 2.1 frames behind nor more than half a frame ahead
      of the frames encoded, over runs of any length that stay below the limit. */
  lemma {:induction false} CfrDriftIsBounded(maxFrames: int, ps: seq<Picture>, d: real)
    requires maxFrames >= 0 && d >= 0.0 && ps != [] && Ordered(ps) && SameDuration(ps, d)
    requires Run(Cfr, maxFrames, ps).frameNumber < maxFrames
    ensures -2.1 <= Delta(ps[|ps| - 1], Run(Cfr, maxFrames, ps).syncOpts) <= 0.5
    decreases |ps|
  {
    var init, last := ps[..|ps| - 1], ps[|ps| - 1];
    var s := Run(Cfr, maxFrames, init);
    StepGoesOn(Cfr, maxFrames, s, last);
    if init != [] {
      CfrDriftIsBounded(maxFrames, init, d);
      assert init[|init| - 1].pts <= last.pts;
    }
    StepKeepsDrift(maxFrames, s, last);
  }

  /** What one more picture adds to a run at a constant rate below the limit: no frame if it
      ends more than 1.1 frames before those encoded, one if it ends within 1.1 frames of
      them, and otherwise, unless the limit comes first, as many as bring the end of the
      frames within half a frame of its own. */
  lemma CfrFollows(maxFrames: int, ps: seq<Picture>, p: Picture)
    requires maxFrames >= 0 && Run(Cfr, maxFrames, ps).frameNumber < maxFrames
    ensures var s, t := Run(Cfr, maxFrames, ps), Run(Cfr, maxFrames, ps + [p]);
      var n, missing := |t.emitted| - |s.emitted|, p.pts as real + p.duration - |s.emitted| as real;
      && (n == 0 <==> missing < -1.1) && n >= 0
      && (-1.1 <= missing <= 1.1 ==> n == 1)
      && (missing > 1.1 ==>
            n as real <= missing + 0.5 && (t.frameNumber < maxFrames ==> missing - 0.5 <= n as real))
      && t.dup == s.dup + (if n > 1 then n - 1 else 0) && t.drop == s.drop + (if n == 0 then 1 else 0)
  {
    RunAppend(Cfr, maxFrames, ps, p);
    CfrCountsUp(maxFrames, ps);
    FramesAreAccounted(Cfr, maxFrames, ps);
    var s := Run(Cfr, maxFrames, ps);
    assert Delta(p, s.syncOpts) == p.pts as real + p.duration - |s.emitted| as real;
    hide Run;
  }

  /** The lower bound is reached. */
  lemma LowestDrift()
    ensures var p := Picture(0, 0.9); Delta(p, Run(Cfr, 10, [p, p, p]).syncOpts) == -2.1
  {
    var p := Picture(0, 0.9);
    hide Run, Step;
    RunAppend(Cfr, 10, [], p);
    RunAppend(Cfr, 10, [p], p);
    RunAppend(Cfr, 10, [p, p], p);
    assert [] + [p] == [p] && [p] + [p] == [p, p] && [p, p] + [p] == [p, p, p];
    OneMore(10, START, p);
    OneMore(10, Run(Cfr, 10, [p]), p);
    OneMore(10, Run(Cfr, 10, [p, p]), p);
  }

  /** A picture that ends within 1.1 frames of those encoded adds one. */
  lemma OneMore(maxFrames: int, s: Counters, p: Picture)
    requires s.frameNumber < maxFrames && -1.1 <= Delta(p, s.syncOpts) <= 1.1
    ensures var t := Step(Cfr, maxFrames, s, p); t.syncOpts == s.syncOpts + 1 && t.frameNumber == s.frameNumber + 1
  {
    hide Range, Round;
  }

  /** The upper bound is reached. */
  lemma HighestDrift()
    ensures var q := Picture(2, 0.5); Delta(q, Run(Cfr, 10, [q]).syncOpts) == 0.5
  {
    var q := Picture(2, 0.5);
    RunAppend(Cfr, 10, [], q);
    assert [] + [q] == [q] && Delta(q, 0) == 2.5 && Round(2.5) == 2;
  }

  lemma RunAppend(m: VsyncMethod, maxFrames: int, ps: seq<Picture>, p: Picture)
    requires maxFrames >= 0
    ensures Run(m, maxFrames, ps + [p]) == Step(m, maxFrames, Run(m, maxFrames, ps), p)
    ensures Run(m, maxFrames, []) == START
  {
    assert (ps + [p])[..|ps|] == ps;
  }

  // ---------- Variable frame rate ----------

  ghost predicate Increasing(xs: seq<int>) {
    forall i, j :: 0 <= i < j < |xs| ==> xs[i] < xs[j]
  }

  ghost predicate Below(xs: seq<int>, bound: int) {
    forall i :: 0 <= i < |xs| ==> xs[i] < bound
  }

  /** A call whose picture lasts at most 1.6 frames starts no earlier than the timestamps
      already given out. */
  lemma VfrStep(maxFrames: int, s: Counters, p: Picture)
    requires s.frameNumber <= maxFrames && p.duration <= 1.6
    requires Increasing(s.emitted) && Below(s.emitted, s.syncOpts)
    ensures var t := Step(Vfr, maxFrames, s, p); Increasing(t.emitted) && Below(t.emitted, t.syncOpts)
  {
    var delta := Delta(p, s.syncOpts);
    assert Round(p.pts as real) == p.pts;
    assert Start(Vfr, delta, p, s.syncOpts) >= s.syncOpts;
  }

  lemma {:induction false} VfrIncreases(maxFrames: int, ps: seq<Picture>)
    requires maxFrames >= 0 && forall i :: 0 <= i < |ps| ==> ps[i].duration <= 1.6
    ensures var s := Run(Vfr, maxFrames, ps); Increasing(s.emitted) && Below(s.emitted, s.syncOpts)
    decreases |ps|
  {
    if ps != [] {
      VfrIncreases(maxFrames, ps[..|ps| - 1]);
      VfrStep(maxFrames, Run(Vfr, maxFrames, ps[..|ps| - 1]), ps[|ps| - 1]);
    }
  }

  /** At a variable rate the timestamps are strictly increasing for all pictures of one
      duration, in any order, exactly if the duration is at most 1.6 frames. */
  lemma VfrIncreasesIff(maxFrames: int, d: real)
    requires maxFrames >= 2
    ensures (forall ps :: SameDuration(ps, d) ==> Increasing(Run(Vfr, maxFrames, ps).emitted)) <==> d <= 1.6
  {
    if d <= 1.6 {
      forall ps | SameDuration(ps, d)
        ensures Increasing(Run(Vfr, maxFrames, ps).emitted)
      {
        VfrIncreases(maxFrames, ps);
      }
    } else {
      var p := Picture(0, d);
      var ps := [p, p];
      RunAppend(Vfr, maxFrames, [], p);
      RunAppend(Vfr, maxFrames, [p], p);
      assert [] + [p] == [p] && [p] + [p] == ps;
      assert Delta(p, 0) == d && Delta(p, 1) == d - 1.0 && Round(0.0) == 0;
      var s1 := Step(Vfr, maxFrames, START, p);
      assert s1.emitted == [0] && s1.syncOpts == 1 && s1.frameNumber == 1;
      var s2 := Step(Vfr, maxFrames, s1, p);
      assert s2.emitted[0] == 0 && s2.emitted[1] == 0;
      assert SameDuration(ps, d) && !Increasing(s2.emitted);
    }
  }

  /** At a variable rate, what one more picture adds to the run: nothing if it ends 0.6
      frames or more before the next timestamp, which is one after the last; its own
      timestamp if it ends more than 0.6 frames after the next; and otherwise the next. */
  lemma VfrFollows(maxFrames: int, ps: seq<Picture>, p: Picture)
    requires maxFrames >= 0 && Run(Vfr, maxFrames, ps).frameNumber < maxFrames
    ensures var s, t := Run(Vfr, maxFrames, ps), Run(Vfr, maxFrames, ps + [p]);
      var next := if s.emitted == [] then 0 else s.emitted[|s.emitted| - 1] + 1;
      var end := p.pts as real + p.duration;
      && t.emitted == s.emitted + (if end <= next as real - 0.6 then [] else if end > next as real + 0.6 then [p.pts]
                                   else [next])
      && t.dup == s.dup == 0
  {
    RunAppend(Vfr, maxFrames, ps, p);
    VfrNext(maxFrames, ps);
    hide Run, Step;
    OneFrame(maxFrames, Run(Vfr, maxFrames, ps), p);
  }

  lemma OneFrame(maxFrames: int, s: Counters, p: Picture)
    requires s.frameNumber < maxFrames
    ensures var t, end := Step(Vfr, maxFrames, s, p), p.pts as real + p.duration;
      t.dup == s.dup && t.emitted == s.emitted + (if end <= s.syncOpts as real - 0.6 then []
                                                  else if end > s.syncOpts as real + 0.6 then [p.pts]
                                                  else [s.syncOpts])
  {
    RangeOne(p.pts);
    RangeOne(s.syncOpts);
    WholeTicks(p.pts);
    hide Range, Round;
  }

  lemma RangeOne(from: int)
    ensures Range(from, 1) == [from]
  {
  }

  lemma WholeTicks(n: int)
    ensures Round(n as real) == n
  {
  }

  /** Below the limit the next timestamp is one after the last. */
  lemma {:induction false} VfrNext(maxFrames: int, ps: seq<Picture>)
    requires maxFrames >= 0
    ensures var s := Run(Vfr, maxFrames, ps); s.dup == 0 && (s.frameNumber < maxFrames ==>
      s.syncOpts == if s.emitted == [] then 0 else s.emitted[|s.emitted| - 1] + 1)
    decreases |ps|
  {
    if ps != [] {
      var init, last := ps[..|ps| - 1], ps[|ps| - 1];
      VfrNext(maxFrames, init);
      StepGoesOn(Vfr, maxFrames, Run(Vfr, maxFrames, init), last);
    }
  }

  // ---------- Every picture as it comes ----------

  /** The other methods give each picture its own timestamp, up to the limit, and repeat
      none. */
  lemma {:induction false} PassthroughKeepsTimes(m: VsyncMethod, maxFrames: int, ps: seq<Picture>)
    requires maxFrames >= 0 && (m == Passthrough || m == Drop)
    ensures var s := Run(m, maxFrames, ps);
      && s.frameNumber == |s.emitted| == Min(|ps|, maxFrames) && s.dup == 0
      && forall i :: 0 <= i < |s.emitted| ==> s.emitted[i] == ps[i].pts
    decreases |ps|
  {
    if ps != [] {
      var init, last := ps[..|ps| - 1], ps[|ps| - 1];
      PassthroughKeepsTimes(m, maxFrames, init);
      hide Step;
      OneKept(m, maxFrames, Run(m, maxFrames, init), last);
    }
  }

  lemma OneKept(m: VsyncMethod, maxFrames: int, s: Counters, p: Picture)
    requires s.frameNumber <= maxFrames && (m == Passthrough || m == Drop)
    ensures var t := Step(m, maxFrames, s, p);
      && t.dup == s.dup
      && if s.frameNumber < maxFrames then t.frameNumber == s.frameNumber + 1 && t.emitted == s.emitted + [p.pts]
         else t.frameNumber == s.frameNumber && t.emitted == s.emitted
  {
    RangeOne(p.pts);
    WholeTicks(p.pts);
    hide Range, Round, Delta;
  }

  // ---------- The choice of the method ----------

  /** What leaving the method to the output format means for a run: a format of a fixed rate
      gets the timestamps 0, 1, 2 and so on; one of a variable rate without timestamps gets
      those of the pictures; any other variable rate gets no frame twice, and increasing
      timestamps if no picture lasts longer than 1.6 frames. */
  lemma AutoRuns(f: Format, maxFrames: int, ps: seq<Picture>)
    requires maxFrames >= 0
    ensures var s := Run(Method(None, f), maxFrames, ps);
      && (!f.variableFps ==> forall i :: 0 <= i < |s.emitted| ==> s.emitted[i] == i)
      && (f.variableFps && f.noTimestamps ==>
            |s.emitted| == Min(|ps|, maxFrames) && forall i :: 0 <= i < |s.emitted| ==> s.emitted[i] == ps[i].pts)
      && (f.variableFps && !f.noTimestamps && (forall i :: 0 <= i < |ps| ==> ps[i].duration <= 1.6) ==>
            s.dup == 0 && Increasing(s.emitted))
    ensures forall given :: Method(Some(given), f) == given
  {
    CfrCountsUp(maxFrames, ps);
    PassthroughKeepsTimes(Passthrough, maxFrames, ps);
    VfrNext(maxFrames, ps);
    if forall i :: 0 <= i < |ps| ==> ps[i].duration <= 1.6 { VfrIncreases(maxFrames, ps); }
  }
}
