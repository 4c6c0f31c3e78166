/** The frame timer of ffplay: the nominal time of the picture on display, moved on by the
    display thread and reset by the decoder thread when it handles a flush packet.

    Times are exact reals.  Each locked section is one step of its thread, and so is each
    unlocked access to a shared field; the move of the timer reads the field for the test of
    FFMAX, for its value and for the sum before it writes the sum.  The clock may advance
    before any step, and the steps interleave in any order.  The display thread is not
    paused.

    Two threads abort the queue.  The event loop does when it switches the stream or quits; it
    is also the display thread, so it is between two calls of video_refresh and makes none
    until the stream is open again.  The reader does under -autoexit, while the display goes
    on, when it finds the queues empty after it has queued a null packet at the end of the
    file. */
module FrameTimer {

  const AV_SYNC_THRESHOLD: real := 0.01
  const AV_NOSYNC_THRESHOLD: real := 10.0
  /** AV_NOPTS_VALUE as a double. */
  const AV_NOPTS: real := -9223372036854775808.0

  /** Where video_refresh is: between calls; a picture seen; its duration measured, and
      stored; its delay known; the clock read; the picture due with a positive delay; the
      test of FFMAX done; the moves counted; the new timer summed up; the picture accepted
      and the timer written; pts recorded. */
  datatype Phase =
    | Idle
    | Seen(pts: real)
    | Measured(pts: real, duration: real)
    | Stored(pts: real)
    | Planned(pts: real, delay: real)
    | Clocked(pts: real, delay: real, time: real)
    | Due(pts: real, delay: real, time: real)
    | Tested(pts: real, delay: real, time: real, several: bool)
    | Counted(pts: real, delay: real, time: real, moves: int)
    | Summed(pts: real, delay: real, time: real, sum: real)
    | Accepted(pts: real, delay: real, time: real)
    | Recorded

  datatype Item = FlushPacket | OtherPacket

  /** Where the reader is: reading; a seek done and its flush packet due; the null packet
      queued; or gone. */
  datatype Reader = Reading | Cleared | Ended | Gone

  /** size counts the pictures in the ring, flushing tells that the decoder has taken a flush
      packet and waits for the empty ring, stopped that the event loop waits for a thread. */
  datatype State = State(now: real, timer: real, lastDuration: real, lastPts: real, size: nat,
                         flushing: bool, aborted: bool, stopped: bool,
                         queue: seq<Item>, reader: Reader, phase: Phase)

  /** kept tells whether a packet's list node could be allocated; slaved whether the video
      follows another clock, diff how far it is ahead. */
  datatype Step =
    | Tick(seconds: real)
    | Seek | PutFlush(kept: bool) | PutData(kept: bool) | PutNull(kept: bool) | GoOn | AutoExit
    | TakeOther | Publish | BeginFlush | Reset
    | Abort | Restart(kept: bool)
    | NothingToShow(droppedPts: real)
    | See(pts: real) | Measure | Store | Plan(slaved: bool, diff: real) | ReadClock | Decide
    | Test | Count | Add | Write | Record
    | NextPicture

  function Abs(x: real): real { if x < 0.0 then -x else x }

  function Max(x: real, y: real): real { if x > y then x else y }

  /** compute_target_delay. */
  function TargetDelay(delay: real, slaved: bool, diff: real): (r: real)
    ensures r == 0.0 || r == delay || r == 2.0 * delay
    ensures !slaved ==> r == delay
  {
    if slaved && Abs(diff) < AV_NOSYNC_THRESHOLD then
      if diff <= -Max(AV_SYNC_THRESHOLD, delay) then 0.0
      else if diff >= Max(AV_SYNC_THRESHOLD, delay) then 2.0 * delay
      else delay
    else delay
  }

  function Times(delay: real, k: real): real { delay * k }

  /** floor((time - timer) / delay). */
  function DelaysElapsed(timer: real, delay: real, time: real): int
    requires delay > 0.0
  {
    ((time - timer) / delay).Floor
  }

  predicate Enabled(s: State, step: Step) {
    match step
    case Tick(seconds) => seconds >= 0.0
    case Seek => s.reader.Reading?
    case PutFlush(_) => s.reader.Cleared?
    case PutData(_) => s.reader.Reading?
    case PutNull(_) => s.reader.Reading?
    case GoOn => s.reader.Ended?
    case AutoExit => s.reader.Ended? && s.queue == []
    case TakeOther => !s.flushing && !s.aborted && s.queue != [] && s.queue[0] == OtherPacket
    case Publish => !s.flushing
    case BeginFlush => !s.flushing && !s.aborted && s.queue != [] && s.queue[0] == FlushPacket
    case Reset => s.flushing && (s.size == 0 || s.aborted)
    case Abort => !s.stopped && s.phase.Idle?
    case Restart(_) => s.stopped && !s.flushing && !s.reader.Gone?
    case NothingToShow(_) => !s.stopped && s.phase.Idle? && s.size == 0
    case See(_) => !s.stopped && s.phase.Idle? && s.size != 0
    case Measure => s.phase.Seen?
    case Store => s.phase.Measured?
    case Plan(_, _) => s.phase.Stored?
    case ReadClock => s.phase.Planned?
    case Decide => s.phase.Clocked?
    case Test => s.phase.Due? && s.phase.delay > 0.0
    case Count => s.phase.Tested? && s.phase.delay > 0.0
    case Add => s.phase.Counted?
    case Write => s.phase.Summed?
    case Record => s.phase.Accepted?
    case NextPicture => (s.phase.Seen? || s.phase.Recorded?) && s.size != 0
  }

  function Enqueue(s: State, item: Item, kept: bool): State {
    if s.aborted || !kept then s else s.(queue := s.queue + [item])
  }

  function Apply(s: State, step: Step): State
    requires Enabled(s, step)
  {
    match step
    case Tick(seconds) => s.(now := s.now + seconds)
    case Seek => s.(queue := [], reader := Cleared)
    case PutFlush(kept) => Enqueue(s, FlushPacket, kept).(reader := Reading)
    case PutData(kept) => Enqueue(s, OtherPacket, kept)
    case PutNull(kept) => Enqueue(s, OtherPacket, kept).(reader := Ended)
    case GoOn => s.(reader := Reading)
    case AutoExit => s.(aborted := true, reader := Gone)
    case TakeOther => s.(queue := s.queue[1..])
    case Publish => s.(size := s.size + 1)
    case BeginFlush => s.(flushing := true, queue := s.queue[1..])
    case Reset => s.(lastPts := AV_NOPTS, lastDuration := 0.0, timer := s.now, flushing := false)
    case Abort => s.(aborted := true, stopped := true)
    case Restart(kept) => Enqueue(s.(aborted := false, stopped := false, queue := []), FlushPacket, kept)
    case NothingToShow(droppedPts) => s.(lastPts := droppedPts)
    case See(pts) => s.(phase := Seen(pts))
    case Measure => s.(phase := Measured(s.phase.pts, s.phase.pts - s.lastPts))
    case Store =>
      var sane := s.phase.duration > 0.0 && s.phase.duration < 10.0;
      s.(lastDuration := if sane then s.phase.duration else s.lastDuration, phase := Stored(s.phase.pts))
    case Plan(slaved, diff) => s.(phase := Planned(s.phase.pts, TargetDelay(s.lastDuration, slaved, diff)))
    case ReadClock => s.(phase := Clocked(s.phase.pts, s.phase.delay, s.now))
    case Decide =>
      var pts, delay, time := s.phase.pts, s.phase.delay, s.phase.time;
      if time < s.timer + delay then s.(phase := Idle)
      else s.(phase := if delay > 0.0 then Due(pts, delay, time) else Accepted(pts, delay, time))
    case Test =>
      var pts, delay, time := s.phase.pts, s.phase.delay, s.phase.time;
      s.(phase := Tested(pts, delay, time, 1 <= DelaysElapsed(s.timer, delay, time)))
    case Count =>
      var pts, delay, time := s.phase.pts, s.phase.delay, s.phase.time;
      s.(phase := Counted(pts, delay, time, if s.phase.several then DelaysElapsed(s.timer, delay, time) else 1))
    case Add =>
      var pts, delay, time := s.phase.pts, s.phase.delay, s.phase.time;
      s.(phase := Summed(pts, delay, time, s.timer + Times(delay, s.phase.moves as real)))
    case Write => s.(timer := s.phase.sum, phase := Accepted(s.phase.pts, s.phase.delay, s.phase.time))
    case Record => s.(lastPts := s.phase.pts, phase := Recorded)
    case NextPicture => s.(size := s.size - 1, phase := Idle)
  }

  /** The structure is zeroed at the start, and the stream opened. */
  function Init(now: real, kept: bool): State {
    State(now, 0.0, 0.0, 0.0, 0, false, false, false, if kept then [FlushPacket] else [], Reading, Idle)
  }

  // ---------- The invariant ----------

  /** What the display thread knows about its picture. */
  predicate PhaseHolds(s: State) {
    match s.phase
    case Planned(_, delay) => delay >= 0.0
    case Clocked(_, delay, time) => delay >= 0.0 && time <= s.now
    case Due(_, delay, time) => delay > 0.0 && s.timer + delay <= time <= s.now
    case Tested(_, delay, time, several) => delay > 0.0 && several && s.timer <= time <= s.now
    case Counted(_, delay, time, moves) =>
      var sum := s.timer + Times(delay, moves as real);
      && delay > 0.0 && moves >= 0 && time <= s.now && time - sum < delay
      && (moves >= 1 || !s.aborted ==> sum <= time)
    case Summed(_, delay, time, sum) =>
      delay > 0.0 && s.timer <= sum <= s.now && time - sum < delay && (!s.aborted ==> sum <= time)
    case Accepted(_, delay, time) => (delay > 0.0 ==> time - s.timer < delay) && (!s.aborted ==> s.timer <= time)
    case _ => true
  }

  predicate Inv(s: State) {
    && s.timer <= s.now
    && 0.0 <= s.lastDuration < 10.0
    && (!s.phase.Idle? ==> s.size >= 1)
    && (s.stopped ==> s.phase.Idle? && s.aborted)
    && PhaseHolds(s)
  }

  lemma Difference(a: real, b: real, d: real)
    ensures (a - b) * d == a * d - b * d
  {
  }

  lemma PositiveProduct(a: real, d: real)
    requires d > 0.0
    ensures (a >= 0.0 ==> a * d >= 0.0) && (a > 0.0 ==> a * d > 0.0)
  {
  }

  /** Multiplication by a positive number keeps the order. */
  lemma Order(d: real, a: real, b: real)
    requires d > 0.0
    ensures (a <= b ==> Times(d, a) <= Times(d, b)) && (a < b ==> Times(d, a) < Times(d, b))
  {
    Difference(b, a, d);
    PositiveProduct(b - a, d);
  }

  lemma Unit(d: real, k: real)
    ensures Times(d, 0.0) == 0.0 && Times(d, 1.0) == d && Times(d, k + 1.0) == Times(d, k) + d
  {
  }

  lemma FloorBounds(x: real)
    ensures x.Floor as real <= x < x.Floor as real + 1.0
  {
  }

  /** Whole delays added to the timer end less than a delay before the time at which the
      picture was found due; there is at least one if the picture is due, and none is
      negative unless the timer is past that time. */
  lemma MoveEndsJustBefore(timer: real, delay: real, time: real)
    requires delay > 0.0
    ensures var moved := timer + Times(delay, DelaysElapsed(timer, delay, time) as real); moved <= time < moved + delay
    ensures DelaysElapsed(timer, delay, time) >= 1 <==> timer + delay <= time
    ensures DelaysElapsed(timer, delay, time) >= 0 <==> timer <= time
  {
    var q := (time - timer) / delay;
    Quotient(time - timer, delay, q);
    FloorBounds(q);
    WholeMoves(delay, q, q.Floor as real);
  }

  lemma Quotient(gap: real, delay: real, q: real)
    requires delay > 0.0 && q == gap / delay
    ensures Times(delay, q) == gap && (gap >= delay <==> q >= 1.0) && (gap >= 0.0 <==> q >= 0.0)
  {
    assert Times(delay, q) == gap;
    hide Times;
    Unit(delay, q);
    Order(delay, q, 1.0);
    Order(delay, 1.0, q);
    Order(delay, q, 0.0);
    Order(delay, 0.0, q);
  }

  lemma WholeMoves(delay: real, q: real, k: real)
    requires delay > 0.0 && k <= q < k + 1.0
    ensures Times(delay, k) <= Times(delay, q) < Times(delay, k) + delay
  {
    hide Times;
    Unit(delay, k);
    Order(delay, k, q);
    Order(delay, q, k + 1.0);
  }

  /** A reset does harm while the timer is being moved for a picture, unless the move that
      is left to do brings the timer to the time of the reset. */
  predicate Harmless(s: State, step: Step) {
    step.Reset? ==>
      match s.phase
      case Due(_, _, _) => false
      case Tested(_, _, time, several) => several && time >= s.now
      case Counted(_, _, _, moves) => moves <= 0
      case Summed(_, _, _, sum) => sum >= s.now
      case _ => true
  }

  lemma StepKeepsInv(s: State, step: Step)
    requires Inv(s) && Enabled(s, step) && Harmless(s, step)
    ensures Inv(Apply(s, step)) && s.timer <= Apply(s, step).timer
  {
    match step {
      case Tick(_) =>
      case Seek => ElsewhereKeepsInv(s, step);
      case PutFlush(_) => ElsewhereKeepsInv(s, step);
      case PutData(_) => ElsewhereKeepsInv(s, step);
      case PutNull(_) => ElsewhereKeepsInv(s, step);
      case GoOn => ElsewhereKeepsInv(s, step);
      case AutoExit => ElsewhereKeepsInv(s, step);
      case TakeOther => ElsewhereKeepsInv(s, step);
      case Publish => ElsewhereKeepsInv(s, step);
      case BeginFlush => ElsewhereKeepsInv(s, step);
      case Reset => ResetKeepsInv(s);
      case Abort => ElsewhereKeepsInv(s, step);
      case Restart(_) => ElsewhereKeepsInv(s, step);
      case _ => DisplayKeepsInv(s, step);
    }
  }

  /** Steps that touch neither the timer nor what the display thread knows. */
  lemma ElsewhereKeepsInv(s: State, step: Step)
    requires Inv(s) && Enabled(s, step)
    requires step.Seek? || step.PutFlush? || step.PutData? || step.PutNull? || step.GoOn? || step.AutoExit? ||
             step.TakeOther? || step.Publish? || step.BeginFlush? || step.Abort? || step.Restart?
    ensures Inv(Apply(s, step)) && s.timer == Apply(s, step).timer
  {
    hide Times, DelaysElapsed, TargetDelay;
  }

  lemma ResetKeepsInv(s: State)
    requires Inv(s) && Enabled(s, Reset) && Harmless(s, Reset)
    ensures Inv(Apply(s, Reset)) && s.timer <= Apply(s, Reset).timer
  {
    hide Times, DelaysElapsed, TargetDelay;
    if s.phase.Counted? { AddKeepsOrder(s); }
  }

  lemma DisplayKeepsInv(s: State, step: Step)
    requires Inv(s) && Enabled(s, step)
    requires step.NothingToShow? || step.See? || step.Measure? || step.Store? || step.Plan? || step.ReadClock? ||
             step.Decide? || step.Test? || step.Count? || step.Add? || step.Write? || step.Record? ||
             step.NextPicture?
    ensures Inv(Apply(s, step)) && s.timer <= Apply(s, step).timer
  {
    hide Times, DelaysElapsed;
    if step.Test? || step.Count? {
      MoveEndsJustBefore(s.timer, s.phase.delay, s.phase.time);
    } else if step.Add? {
      AddKeepsOrder(s);
    }
  }

  lemma AddKeepsOrder(s: State)
    requires s.phase.Counted? && s.phase.delay > 0.0 && s.phase.moves >= 0
    ensures Times(s.phase.delay, s.phase.moves as real) >= 0.0
    ensures s.phase.moves == 0 ==> Times(s.phase.delay, s.phase.moves as real) == 0.0
  {
    Unit(s.phase.delay, 0.0);
    Order(s.phase.delay, 0.0, s.phase.moves as real);
  }

  // ---------- What the delay does ----------

  /** For a positive delay: it is dropped exactly when the video is behind the clock it follows
      by at least the larger of 0.01 seconds and the delay, and doubled exactly when it is
      ahead by as much, in both cases by less than 10 seconds. */
  lemma DelayDirection(delay: real, slaved: bool, diff: real)
    requires delay > 0.0
    ensures TargetDelay(delay, slaved, diff) == 0.0 <==>
      slaved && -10.0 < diff <= -0.01 && diff <= -delay
    ensures TargetDelay(delay, slaved, diff) == 2.0 * delay <==>
      slaved && 0.01 <= diff < 10.0 && delay <= diff
    ensures TargetDelay(delay, slaved, diff) < delay ==> diff < 0.0
    ensures TargetDelay(delay, slaved, diff) > delay ==> diff > 0.0
  {
  }

  /** A plan of the display thread never adds to the distance from the clock: while the picture
      lasts, the video gets on by its duration and the clock by the delay. */
  lemma PlanNeverAdds(s: State, diff: real)
    requires Inv(s) && Enabled(s, Plan(true, diff)) && -10.0 < diff < 10.0
    ensures var next := diff + s.lastDuration - Apply(s, Plan(true, diff)).phase.delay;
      (diff >= 0.0 ==> 0.0 <= next <= diff) && (diff <= 0.0 ==> diff <= next <= 0.0)
  {
    DelayStep(s.lastDuration, diff);
  }

  lemma DelayStep(delay: real, diff: real)
    requires delay >= 0.0 && -10.0 < diff < 10.0
    ensures var next := diff + delay - TargetDelay(delay, true, diff);
      && (diff >= 0.0 ==> 0.0 <= next <= diff) && (diff <= 0.0 ==> diff <= next <= 0.0)
      && (diff >= 0.01 && diff >= delay ==> next == diff - delay)
      && (diff <= -0.01 && diff <= -delay ==> next == diff + delay)
  {
  }

  /** How far the video is ahead after pictures of the given durations. */
  function Ahead(durations: seq<real>, diff: real): real
    decreases |durations|
  {
    if durations == [] then diff
    else
      var d := durations[|durations| - 1];
      var before := Ahead(durations[..|durations| - 1], diff);
      before + d - TargetDelay(d, true, before)
  }

  /** Over any run of pictures the video comes no further from the clock, and not past it. */
  lemma {:induction false} NeverDriftsAway(durations: seq<real>, diff: real)
    requires -10.0 < diff < 10.0 && forall i :: 0 <= i < |durations| ==> durations[i] >= 0.0
    ensures diff >= 0.0 ==> 0.0 <= Ahead(durations, diff) <= diff
    ensures diff <= 0.0 ==> diff <= Ahead(durations, diff) <= 0.0
    decreases |durations|
  {
    if durations != [] {
      var init := durations[..|durations| - 1];
      NeverDriftsAway(init, diff);
      DelayStep(durations[|durations| - 1], Ahead(init, diff));
    }
  }

  /** And it catches up: after n pictures of duration d it is within the larger of 0.01 seconds
      and d, or n times d nearer than at the start. */
  lemma {:induction false} CatchesUp(durations: seq<real>, d: real, diff: real)
    requires -10.0 < diff < 10.0 && d >= 0.0 && forall i :: 0 <= i < |durations| ==> durations[i] == d
    ensures var now, gained := Ahead(durations, diff), Times(d, |durations| as real);
      || (-0.01 < now < 0.01) || (-d < now < d)
      || (diff >= 0.0 && now == diff - gained) || (diff <= 0.0 && now == diff + gained)
    decreases |durations|
  {
    if durations == [] {
      Unit(d, 0.0);
    } else {
      var init := durations[..|durations| - 1];
      CatchesUp(init, d, diff);
      NeverDriftsAway(init, diff);
      DelayStep(d, Ahead(init, diff));
      Unit(d, |init| as real);
    }
  }

  // ---------- Runs ----------

  predicate IsRun(s: State, steps: seq<Step>)
    decreases |steps|
  {
    steps == [] || (Enabled(s, steps[0]) && IsRun(Apply(s, steps[0]), steps[1..]))
  }

  function After(s: State, steps: seq<Step>): State
    requires IsRun(s, steps)
    decreases |steps|
  {
    if steps == [] then s else After(Apply(s, steps[0]), steps[1..])
  }

  predicate NoHarm(s: State, steps: seq<Step>)
    requires IsRun(s, steps)
    decreases |steps|
  {
    steps == [] || (Harmless(s, steps[0]) && NoHarm(Apply(s, steps[0]), steps[1..]))
  }

  lemma {:induction false} RunKeepsInv(s: State, steps: seq<Step>)
    requires Inv(s) && IsRun(s, steps) && NoHarm(s, steps)
    ensures Inv(After(s, steps)) && s.timer <= After(s, steps).timer
    decreases |steps|
  {
    if steps != [] {
      StepKeepsInv(s, steps[0]);
      RunKeepsInv(Apply(s, steps[0]), steps[1..]);
    }
  }

  /** In every run whose resets are harmless the timer never passes the clock and never goes
      back; the recorded duration stays in [0, 10); and right after a picture with a positive
      delay is accepted the timer lags the time it was due by less than that delay. */
  lemma HarmlessRunFollowsClock(now: real, kept: bool, steps: seq<Step>)
    requires now >= 0.0 && IsRun(Init(now, kept), steps) && NoHarm(Init(now, kept), steps)
    ensures FollowsClock(After(Init(now, kept), steps))
  {
    RunKeepsInv(Init(now, kept), steps);
  }

  predicate FollowsClock(s: State) {
    && 0.0 <= s.timer <= s.now
    && 0.0 <= s.lastDuration < 10.0
    && (s.phase.Accepted? && s.phase.delay > 0.0 ==> s.phase.time - s.timer < s.phase.delay)
    && (s.phase.Accepted? && !s.aborted ==> s.timer <= s.phase.time)
  }

  // ---------- Which runs are harmless ----------

  /** Aborted by the event loop only. */
  predicate LoopAborted(s: State) {
    s.aborted ==> s.stopped
  }

  /** The aborts of the event loop, by a stream switch or at the end, do no harm. */
  lemma {:induction false} LoopAbortsAreHarmless(s: State, steps: seq<Step>)
    requires Inv(s) && LoopAborted(s) && IsRun(s, steps)
    requires forall i :: 0 <= i < |steps| ==> !steps[i].AutoExit?
    ensures NoHarm(s, steps)
    decreases |steps|
  {
    if steps != [] {
      assert !steps[0].AutoExit?;
      LoopStep(s, steps[0]);
      StepKeepsInv(s, steps[0]);
      LoopAbortsAreHarmless(Apply(s, steps[0]), steps[1..]);
    }
  }

  lemma LoopStep(s: State, step: Step)
    requires Inv(s) && LoopAborted(s) && Enabled(s, step) && !step.AutoExit?
    ensures Harmless(s, step) && LoopAborted(Apply(s, step))
  {
    hide Times, DelaysElapsed, TargetDelay;
  }

  /** What must happen for the reader to find the queue empty while the decoder waits in a
      flush: its null packet is lost to a failed allocation, or the stream is opened again
      between its null packet and its look at the queues. */
  predicate Mishap(s: State, step: Step) {
    (step == PutNull(false) && !s.aborted) || (step.Restart? && s.reader.Ended?)
  }

  predicate NoMishap(s: State, steps: seq<Step>)
    requires IsRun(s, steps)
    decreases |steps|
  {
    steps == [] || (!Mishap(s, steps[0]) && NoMishap(Apply(s, steps[0]), steps[1..]))
  }

  /** After its null packet the reader finds the queue empty only when no flush is going on
      or to come. */
  predicate Orderly(s: State) {
    && (s.aborted && !s.stopped ==> !s.flushing)
    && (s.reader.Ended? && !s.aborted ==>
          if s.queue == [] then !s.flushing else s.queue[|s.queue| - 1] == OtherPacket)
  }

  lemma OrderlyStep(s: State, step: Step)
    requires Inv(s) && Orderly(s) && Enabled(s, step) && !Mishap(s, step)
    ensures Harmless(s, step) && Orderly(Apply(s, step))
  {
    hide Times, DelaysElapsed, TargetDelay;
  }

  lemma {:induction false} NoMishapNoHarm(s: State, steps: seq<Step>)
    requires Inv(s) && Orderly(s) && IsRun(s, steps) && NoMishap(s, steps)
    ensures NoHarm(s, steps)
    decreases |steps|
  {
    if steps != [] {
      OrderlyStep(s, steps[0]);
      StepKeepsInv(s, steps[0]);
      NoMishapNoHarm(Apply(s, steps[0]), steps[1..]);
    }
  }

  /** With any number of seeks, stream switches and lost packets, the timer follows the clock
      in every run in which the reader does not exit by itself, and in every run in which it
      does but neither loses a null packet nor has the stream switched under it at the end of
      the file. */
  lemma TimerFollowsClock(now: real, kept: bool, steps: seq<Step>)
    requires now >= 0.0 && IsRun(Init(now, kept), steps)
    requires (forall i :: 0 <= i < |steps| ==> !steps[i].AutoExit?) || NoMishap(Init(now, kept), steps)
    ensures FollowsClock(After(Init(now, kept), steps))
  {
    if forall i :: 0 <= i < |steps| ==> !steps[i].AutoExit? {
      LoopAbortsAreHarmless(Init(now, kept), steps);
    } else {
      NoMishapNoHarm(Init(now, kept), steps);
    }
    HarmlessRunFollowsClock(now, kept, steps);
  }

  // ---------- The condition is exact ----------

  /** The display thread alone until the timer is written. */
  function Finish(s: State): State
    requires s.phase.Due? || s.phase.Tested? || s.phase.Counted? || s.phase.Summed?
    requires s.phase.delay > 0.0
    decreases if s.phase.Due? then 3 else if s.phase.Tested? then 2 else if s.phase.Counted? then 1 else 0
  {
    match s.phase
    case Due(_, _, _) => Finish(Apply(s, Test))
    case Tested(_, _, _, _) => Finish(Apply(s, Count))
    case Counted(_, _, _, _) => Finish(Apply(s, Add))
    case Summed(_, _, _, _) => Apply(s, Write)
  }

  /** Where the timer ends. */
  lemma FinishSummed(s: State)
    requires s.phase.Summed? && s.phase.delay > 0.0
    ensures Finish(s).now == s.now && Finish(s).timer == s.phase.sum
  {
    hide Times, DelaysElapsed, TargetDelay;
  }

  lemma FinishCounted(s: State)
    requires s.phase.Counted? && s.phase.delay > 0.0
    ensures Finish(s).now == s.now && Finish(s).timer == s.timer + Times(s.phase.delay, s.phase.moves as real)
  {
    hide Times, DelaysElapsed, TargetDelay;
    FinishSummed(Apply(s, Add));
  }

  lemma FinishTested(s: State)
    requires s.phase.Tested? && s.phase.delay > 0.0
    ensures var k := if s.phase.several then DelaysElapsed(s.timer, s.phase.delay, s.phase.time) else 1;
      Finish(s).now == s.now && Finish(s).timer == s.timer + Times(s.phase.delay, k as real)
  {
    hide Times, DelaysElapsed;
    FinishCounted(Apply(s, Count));
  }

  lemma FinishDue(s: State)
    requires s.phase.Due? && s.phase.delay > 0.0 && s.phase.time <= s.timer
    ensures Finish(s).now == s.now && Finish(s).timer == s.timer + s.phase.delay
  {
    hide Times, DelaysElapsed;
    MoveEndsJustBefore(s.timer, s.phase.delay, s.phase.time);
    FinishTested(Apply(s, Test));
    Unit(s.phase.delay, 0.0);
  }

  /** Any reset that is not harmless follows an abort by the reader, after which the decoder no
      longer waits, and takes the timer beyond the clock or back before the time of the
      reset. */
  lemma HarmfulResetHurts(s: State)
    requires Inv(s) && Enabled(s, Reset) && !Harmless(s, Reset)
    ensures s.aborted && !s.stopped
    ensures var r := Apply(s, Reset); var t := Finish(r); t.timer > t.now || t.timer < r.timer
  {
    hide Times, DelaysElapsed, Finish;
    var r := Apply(s, Reset);
    var delay, time := s.phase.delay, s.phase.time;
    if s.phase.Due? {
      FinishDue(r);
    } else if s.phase.Tested? {
      FinishTested(r);
      MoveEndsJustBefore(r.timer, delay, time);
    } else if s.phase.Counted? {
      FinishCounted(r);
      Unit(delay, 0.0);
      Order(delay, 1.0, s.phase.moves as real);
    } else {
      FinishSummed(r);
    }
  }

  // ---------- Runs with such a reset ----------

  predicate Follows(s: State, step: Step, t: State) {
    Enabled(s, step) && Apply(s, step) == t
  }

  predicate Leads(s: State, steps: seq<Step>, t: State) {
    IsRun(s, steps) && After(s, steps) == t
  }

  lemma NoSteps(s: State)
    ensures Leads(s, [], s)
  {
  }

  /** A run from its k-th step on. */
  lemma StepAt(s: State, steps: seq<Step>, k: nat, t: State, u: State)
    requires k < |steps| && Follows(s, steps[k], t) && Leads(t, steps[k + 1..], u)
    ensures Leads(s, steps[k..], u)
  {
    assert steps[k..][1..] == steps[k + 1..];
  }

  lemma {:induction false} LeadsOn(s: State, a: seq<Step>, t: State, b: seq<Step>, u: State)
    requires Leads(s, a, t) && Leads(t, b, u)
    ensures Leads(s, a + b, u)
    decreases |a|
  {
    hide Enabled, Apply;
    if a == [] {
      assert a + b == b;
    } else {
      assert (a + b)[1..] == a[1..] + b;
      LeadsOn(Apply(s, a[0]), a[1..], t, b, u);
    }
  }

  const OPENED: State := Init(20.0, true)
  const FLUSHED: State := State(20.0, 20.0, 0.0, AV_NOPTS, 0, false, false, false, [], Reading, Idle)
  const SHOWN: State := State(20.0, 20.0, 0.0, 0.0, 0, false, false, false, [], Reading, Idle)
  const WAITING: State := State(25.0, 20.0, 0.0, 0.0, 1, false, false, false, [], Reading, Idle)
  const REOPENED: State := WAITING.(queue := [FlushPacket], reader := Ended)

  /** The flush packet of the start is handled. */
  const START: seq<Step> := [BeginFlush, Reset]
  const DECODE: seq<Step> := [PutData(true), TakeOther, Publish]
  const SHOW: seq<Step> := [See(0.0), Measure, Store, Plan(false, 0.0), ReadClock, Decide, Record, NextPicture]
  /** A picture 5 seconds later is found due at 25 seconds. */
  const FIND_DUE: seq<Step> := [See(5.0), Measure, Store, Plan(false, 0.0), ReadClock, Decide]
  /** A seek at the end of the file, a null packet that cannot be allocated. */
  const LOSE_NULL: seq<Step> := [Seek, PutFlush(true), BeginFlush, PutNull(false), AutoExit, Reset]
  /** The stream is switched after the null packet of the end of the file. */
  const SWITCH: seq<Step> := [PutNull(true), Abort, Restart(true)]
  const EXIT: seq<Step> := [BeginFlush, AutoExit, Reset]
  const MOVE: seq<Step> := [Test, Count, Add, Write]

  lemma Two(s: State, steps: seq<Step>, t1: State, t: State)
    requires |steps| == 2 && Follows(s, steps[0], t1) && Follows(t1, steps[1], t)
    ensures Leads(s, steps, t)
  {
    hide Follows, Leads;
    NoSteps(t);
    assert steps[2..] == [] && steps[0..] == steps;
    StepAt(t1, steps, 1, t, t);
    StepAt(s, steps, 0, t1, t);
  }

  lemma Three(s: State, steps: seq<Step>, t1: State, t2: State, t: State)
    requires |steps| == 3 && Follows(s, steps[0], t1) && Follows(t1, steps[1], t2) && Follows(t2, steps[2], t)
    ensures Leads(s, steps, t)
  {
    hide Follows, Leads;
    assert steps[1..][0] == steps[1] && steps[1..][1] == steps[2] && steps[0..] == steps;
    Two(t1, steps[1..], t2, t);
    StepAt(s, steps, 0, t1, t);
  }

  lemma ThreeOn(s: State, steps: seq<Step>, t1: State, t2: State, t3: State, t: State)
    requires |steps| >= 3 && Follows(s, steps[0], t1) && Follows(t1, steps[1], t2) && Follows(t2, steps[2], t3)
    requires Leads(t3, steps[3..], t)
    ensures Leads(s, steps, t)
  {
    hide Follows, Leads;
    assert steps[0..] == steps;
    StepAt(t2, steps, 2, t3, t);
    StepAt(t1, steps, 1, t2, t);
    StepAt(s, steps, 0, t1, t);
  }

  // ---------- One call of video_refresh ----------

  /** The duration that counts: that of the picture if it is sane, otherwise the last one that
      was. */
  function Lasting(s: State, pts: real): (r: real)
    ensures 0.0 < pts - s.lastPts < 10.0 ==> r == pts - s.lastPts
    ensures !(0.0 < pts - s.lastPts < 10.0) ==> r == s.lastDuration
  {
    var d := pts - s.lastPts;
    if 0.0 < d && d < 10.0 then d else s.lastDuration
  }

  /** The picture is left in the ring if its time has not come. */
  function Looked(s: State, pts: real, delay: real): State {
    var t := s.(lastDuration := Lasting(s, pts));
    if s.now < s.timer + delay then t
    else t.(phase := if delay > 0.0 then Due(pts, delay, s.now) else Accepted(pts, delay, s.now))
  }

  /** Undisturbed, a look at the next picture records its duration, and leaves it for later
      exactly if the clock has not reached the end of the delay. */
  lemma LookAtPicture(s: State, pts: real, slaved: bool, diff: real)
    requires s.phase.Idle? && !s.stopped && s.size != 0
    ensures var delay := TargetDelay(Lasting(s, pts), slaved, diff);
      Leads(s, [See(pts), Measure, Store, Plan(slaved, diff), ReadClock, Decide], Looked(s, pts, delay))
  {
    var steps := [See(pts), Measure, Store, Plan(slaved, diff), ReadClock, Decide];
    var s1, s2 := s.(phase := Seen(pts)), s.(phase := Measured(pts, pts - s.lastPts));
    var s3 := s.(lastDuration := Lasting(s, pts), phase := Stored(pts));
    var delay := TargetDelay(s3.lastDuration, slaved, diff);
    var s4, s5 := s3.(phase := Planned(pts, delay)), s3.(phase := Clocked(pts, delay, s.now));
    LookFirst(s, pts);
    LookLast(s, s3, pts, slaved, diff);
    hide Follows, Leads, TargetDelay, Lasting, Looked;
    Three(s3, steps[3..], s4, s5, Looked(s, pts, delay));
    ThreeOn(s, steps, s1, s2, s3, Looked(s, pts, delay));
  }

  lemma LookFirst(s: State, pts: real)
    requires s.phase.Idle? && !s.stopped && s.size != 0
    ensures Follows(s, See(pts), s.(phase := Seen(pts)))
    ensures Follows(s.(phase := Seen(pts)), Measure, s.(phase := Measured(pts, pts - s.lastPts)))
    ensures Follows(s.(phase := Measured(pts, pts - s.lastPts)), Store,
                    s.(lastDuration := Lasting(s, pts), phase := Stored(pts)))
  {
  }

  lemma LookLast(s: State, s3: State, pts: real, slaved: bool, diff: real)
    requires s.phase.Idle? && s3 == s.(lastDuration := Lasting(s, pts), phase := Stored(pts))
    ensures var delay := TargetDelay(s3.lastDuration, slaved, diff);
      && Follows(s3, Plan(slaved, diff), s3.(phase := Planned(pts, delay)))
      && Follows(s3.(phase := Planned(pts, delay)), ReadClock, s3.(phase := Clocked(pts, delay, s.now)))
      && Follows(s3.(phase := Clocked(pts, delay, s.now)), Decide, Looked(s, pts, delay))
  {
    hide TargetDelay, Lasting;
  }

  /** Undisturbed, a picture found due is shown: the timer moves to less than its delay before
      the time at which it was found due, and no further; its time is the last one and it
      leaves the ring. */
  lemma ShowPicture(s: State)
    requires s.phase.Due? && s.phase.delay > 0.0 && s.timer + s.phase.delay <= s.phase.time && s.size != 0
    ensures var steps := MOVE + [Record, NextPicture];
      && IsRun(s, steps)
      && var t := After(s, steps);
         && t == s.(timer := t.timer, lastPts := s.phase.pts, size := s.size - 1, phase := Idle)
         && s.phase.time - s.phase.delay < t.timer <= s.phase.time
  {
    var pts, delay, time := s.phase.pts, s.phase.delay, s.phase.time;
    var n := DelaysElapsed(s.timer, delay, time);
    var timer := s.timer + Times(delay, n as real);
    MoveEndsJustBefore(s.timer, delay, time);
    ShowFirst(s, n, timer);
    ShowLast(s, timer);
    hide Times, DelaysElapsed, Follows, IsRun, After;
    var t4 := s.(timer := timer, phase := Accepted(pts, delay, time));
    var t5, t6 := t4.(lastPts := pts, phase := Recorded), t4.(lastPts := pts, size := s.size - 1, phase := Idle);
    var t3 := s.(phase := Summed(pts, delay, time, timer));
    var steps := MOVE + [Record, NextPicture];
    assert steps[3..] == [Write, Record, NextPicture];
    Three(t3, steps[3..], t4, t5, t6);
    ThreeOn(s, steps, s.(phase := Tested(pts, delay, time, true)), s.(phase := Counted(pts, delay, time, n)), t3, t6);
  }

  lemma ShowFirst(s: State, n: int, timer: real)
    requires s.phase.Due? && s.phase.delay > 0.0 && n >= 1
    requires n == DelaysElapsed(s.timer, s.phase.delay, s.phase.time)
    requires timer == s.timer + Times(s.phase.delay, n as real)
    ensures var pts, delay, time := s.phase.pts, s.phase.delay, s.phase.time;
      && Follows(s, Test, s.(phase := Tested(pts, delay, time, true)))
      && Follows(s.(phase := Tested(pts, delay, time, true)), Count, s.(phase := Counted(pts, delay, time, n)))
      && Follows(s.(phase := Counted(pts, delay, time, n)), Add, s.(phase := Summed(pts, delay, time, timer)))
  {
    hide DelaysElapsed, Times, TargetDelay;
  }

  lemma ShowLast(s: State, timer: real)
    requires s.phase.Due? && s.size != 0
    ensures var pts, delay, time := s.phase.pts, s.phase.delay, s.phase.time;
      var t4 := s.(timer := timer, phase := Accepted(pts, delay, time));
      && Follows(s.(phase := Summed(pts, delay, time, timer)), Write, t4)
      && Follows(t4, Record, t4.(lastPts := pts, phase := Recorded))
      && Follows(t4.(lastPts := pts, phase := Recorded), NextPicture,
                 t4.(lastPts := pts, size := s.size - 1, phase := Idle))
  {
    hide DelaysElapsed, Times, TargetDelay;
  }

  /** The reader comes back to reading after a seek, which leaves the flush packet alone in
      the queue, and from the end of the file; and the display thread may look at an empty
      ring whenever it is between two calls. */
  lemma ThreadsGoOn(s: State, kept: bool, pts: real)
    ensures s.reader.Reading? && !s.aborted ==>
      Leads(s, [Seek, PutFlush(true)], s.(queue := [FlushPacket]))
    ensures s.reader.Reading? ==> Leads(s, [PutNull(kept), GoOn], Enqueue(s, OtherPacket, kept))
    ensures s.phase.Idle? && !s.stopped && s.size == 0 ==> Follows(s, NothingToShow(pts), s.(lastPts := pts))
  {
    if s.reader.Reading? {
      assert Follows(s, PutNull(kept), Enqueue(s, OtherPacket, kept).(reader := Ended));
      assert Follows(Enqueue(s, OtherPacket, kept).(reader := Ended), GoOn, Enqueue(s, OtherPacket, kept));
      if !s.aborted {
        assert [] + [FlushPacket] == [FlushPacket];
        assert Follows(s, Seek, s.(queue := [], reader := Cleared));
        assert Follows(s.(queue := [], reader := Cleared), PutFlush(true), s.(queue := [FlushPacket]));
        hide Follows, Leads;
        Two(s, [Seek, PutFlush(true)], s.(queue := [], reader := Cleared), s.(queue := [FlushPacket]));
      }
      hide Follows, Leads;
      Two(s, [PutNull(kept), GoOn], Enqueue(s, OtherPacket, kept).(reader := Ended), Enqueue(s, OtherPacket, kept));
    }
  }

  lemma Started()
    ensures Leads(OPENED, START, FLUSHED)
  {
    Two(OPENED, START, OPENED.(flushing := true, queue := []), FLUSHED);
  }

  lemma Decoded(s: State)
    requires !s.flushing && !s.aborted && s.queue == [] && s.reader.Reading?
    ensures Leads(s, DECODE, s.(size := s.size + 1))
  {
    var t := s.(queue := [OtherPacket]);
    assert [] + [OtherPacket] == [OtherPacket] && [OtherPacket][1..] == [];
    Three(s, DECODE, t, s, s.(size := s.size + 1));
  }

  lemma Shown()
    ensures Leads(FLUSHED.(size := 1), SHOW, SHOWN)
  {
    var s := FLUSHED.(size := 1);
    var first := s.(phase := Stored(0.0));
    var found := s.(phase := Accepted(0.0, 0.0, 20.0));
    ShownFirst();
    ShownLast();
    ShownOff();
    hide Follows, Leads;
    assert SHOW[3..][3..] == [Record, NextPicture];
    Two(found, SHOW[3..][3..], s.(lastPts := 0.0, phase := Recorded), SHOWN);
    ThreeOn(first, SHOW[3..], s.(phase := Planned(0.0, 0.0)), s.(phase := Clocked(0.0, 0.0, 20.0)), found, SHOWN);
    ThreeOn(s, SHOW, s.(phase := Seen(0.0)), s.(phase := Measured(0.0, 0.0 - AV_NOPTS)), first, SHOWN);
  }

  lemma ShownFirst()
    ensures var s := FLUSHED.(size := 1);
      && Follows(s, See(0.0), s.(phase := Seen(0.0)))
      && Follows(s.(phase := Seen(0.0)), Measure, s.(phase := Measured(0.0, 0.0 - AV_NOPTS)))
      && Follows(s.(phase := Measured(0.0, 0.0 - AV_NOPTS)), Store, s.(phase := Stored(0.0)))
  {
  }

  lemma ShownLast()
    ensures var s := FLUSHED.(size := 1);
      && Follows(s.(phase := Stored(0.0)), Plan(false, 0.0), s.(phase := Planned(0.0, 0.0)))
      && Follows(s.(phase := Planned(0.0, 0.0)), ReadClock, s.(phase := Clocked(0.0, 0.0, 20.0)))
      && Follows(s.(phase := Clocked(0.0, 0.0, 20.0)), Decide, s.(phase := Accepted(0.0, 0.0, 20.0)))
  {
  }

  lemma ShownOff()
    ensures var s := FLUSHED.(size := 1);
      && Follows(s.(phase := Accepted(0.0, 0.0, 20.0)), Record, s.(lastPts := 0.0, phase := Recorded))
      && Follows(s.(lastPts := 0.0, phase := Recorded), NextPicture, SHOWN)
  {
  }

  /** After the first picture a second one waits in the ring. */
  lemma SecondWaits()
    ensures Leads(OPENED, START + DECODE + SHOW + DECODE + [Tick(5.0)], WAITING)
  {
    hide Leads;
    Started();
    Decoded(FLUSHED);
    Shown();
    Decoded(SHOWN);
    Later();
    LeadsOn(OPENED, START, FLUSHED, DECODE, FLUSHED.(size := 1));
    LeadsOn(OPENED, START + DECODE, FLUSHED.(size := 1), SHOW, SHOWN);
    LeadsOn(OPENED, START + DECODE + SHOW, SHOWN, DECODE, SHOWN.(size := 1));
    LeadsOn(OPENED, START + DECODE + SHOW + DECODE, SHOWN.(size := 1), [Tick(5.0)], WAITING);
  }

  lemma Later()
    ensures Leads(SHOWN.(size := 1), [Tick(5.0)], WAITING)
  {
    assert [Tick(5.0)][1..] == [];
  }

  predicate SecondInRing(s: State) {
    && s.now == 25.0 && s.timer == 20.0 && s.lastPts == 0.0 && s.size == 1 && s.phase.Idle? && !s.stopped
  }

  function Found(s: State): State {
    s.(lastDuration := 5.0, phase := Due(5.0, 5.0, 25.0))
  }

  lemma FoundDue(s: State)
    requires SecondInRing(s)
    ensures Leads(s, FIND_DUE, Found(s))
  {
    var stored := s.(lastDuration := 5.0, phase := Stored(5.0));
    FoundFirst(s);
    FoundLast(s);
    var planned, clocked := stored.(phase := Planned(5.0, 5.0)), stored.(phase := Clocked(5.0, 5.0, 25.0));
    Three(stored, FIND_DUE[3..], planned, clocked, Found(s));
    ThreeOn(s, FIND_DUE, s.(phase := Seen(5.0)), s.(phase := Measured(5.0, 5.0)), stored, Found(s));
  }

  lemma FoundFirst(s: State)
    requires SecondInRing(s)
    ensures Follows(s, See(5.0), s.(phase := Seen(5.0)))
    ensures Follows(s.(phase := Seen(5.0)), Measure, s.(phase := Measured(5.0, 5.0)))
    ensures Follows(s.(phase := Measured(5.0, 5.0)), Store, s.(lastDuration := 5.0, phase := Stored(5.0)))
  {
  }

  lemma FoundLast(s: State)
    requires SecondInRing(s)
    ensures var stored := s.(lastDuration := 5.0, phase := Stored(5.0));
      && Follows(stored, Plan(false, 0.0), stored.(phase := Planned(5.0, 5.0)))
      && Follows(stored.(phase := Planned(5.0, 5.0)), ReadClock, stored.(phase := Clocked(5.0, 5.0, 25.0)))
      && Follows(stored.(phase := Clocked(5.0, 5.0, 25.0)), Decide, Found(s))
  {
  }

  /** The reader has exited and the decoder has reset the timer before the move. */
  const HURT: State := Found(WAITING).(timer := 25.0, lastPts := AV_NOPTS, lastDuration := 0.0,
                                       aborted := true, reader := Gone)

  function Over(s: State): State {
    s.(timer := 30.0, phase := Accepted(5.0, 5.0, 25.0))
  }

  /** The state after a reset that comes before the move. */
  predicate ResetTooEarly(s: State) {
    s.now == s.timer == 25.0 && s.phase == Due(5.0, 5.0, 25.0)
  }

  lemma Moved(s: State)
    requires ResetTooEarly(s)
    ensures Leads(s, MOVE, Over(s))
  {
    var tested := s.(phase := Tested(5.0, 5.0, 25.0, false));
    var counted := s.(phase := Counted(5.0, 5.0, 25.0, 1));
    var summed := s.(phase := Summed(5.0, 5.0, 25.0, 30.0));
    var t := Over(s);
    MovedFirst(s);
    MovedLast(s);
    hide Follows, Leads;
    assert MOVE[2..] == [Add, Write] && MOVE[1..][0] == Count && MOVE[0..] == MOVE;
    Two(counted, MOVE[2..], summed, t);
    StepAt(tested, MOVE, 1, counted, t);
    StepAt(s, MOVE, 0, tested, t);
  }

  lemma MovedFirst(s: State)
    requires ResetTooEarly(s)
    ensures Follows(s, Test, s.(phase := Tested(5.0, 5.0, 25.0, false)))
    ensures Follows(s.(phase := Tested(5.0, 5.0, 25.0, false)), Count, s.(phase := Counted(5.0, 5.0, 25.0, 1)))
  {
  }

  lemma MovedLast(s: State)
    requires ResetTooEarly(s)
    ensures Follows(s.(phase := Counted(5.0, 5.0, 25.0, 1)), Add, s.(phase := Summed(5.0, 5.0, 25.0, 30.0)))
    ensures Follows(s.(phase := Summed(5.0, 5.0, 25.0, 30.0)), Write,
                    Over(s))
  {
  }

  /** The queue is empty while the decoder waits in the flush of a seek, because the null
      packet is lost, and the reader exits. */
  lemma NullLost()
    ensures Leads(Found(WAITING), LOSE_NULL, HURT)
  {
    var s := Found(WAITING);
    var sought := s.(reader := Cleared);
    var queued := s.(queue := [FlushPacket]);
    var taken := s.(flushing := true);
    assert [] + [FlushPacket] == [FlushPacket] && [FlushPacket][1..] == [];
    assert LOSE_NULL[3..] == [PutNull(false), AutoExit, Reset];
    Three(taken, LOSE_NULL[3..], taken.(reader := Ended), taken.(aborted := true, reader := Gone), HURT);
    ThreeOn(s, LOSE_NULL, sought, queued, taken, HURT);
  }

  lemma Switched()
    ensures Leads(WAITING, SWITCH, REOPENED)
  {
    var ended := WAITING.(queue := [OtherPacket], reader := Ended);
    assert [] + [OtherPacket] == [OtherPacket] && [] + [FlushPacket] == [FlushPacket];
    Three(WAITING, SWITCH, ended, ended.(aborted := true, stopped := true), REOPENED);
  }

  lemma Exited()
    ensures Leads(Found(REOPENED), EXIT, HURT)
  {
    var s := Found(REOPENED);
    var taken := s.(flushing := true, queue := []);
    assert [FlushPacket][1..] == [];
    Three(s, EXIT, taken, taken.(aborted := true, reader := Gone), HURT);
  }

  /** Neither condition of TimerFollowsClock can be dropped.  Under -autoexit a null packet is
      lost while the decoder waits in the flush of a seek: the reader aborts the queue, the
      decoder resets the timer before the display thread moves it for a picture that is due,
      and the timer ends 5 seconds beyond the clock. */
  lemma LostNullRun()
    ensures var steps := START + DECODE + SHOW + DECODE + [Tick(5.0)] + FIND_DUE + LOSE_NULL + MOVE;
      && IsRun(Init(20.0, true), steps)
      && After(Init(20.0, true), steps).timer == 30.0 && After(Init(20.0, true), steps).now == 25.0
  {
    hide Leads;
    var first := START + DECODE + SHOW + DECODE + [Tick(5.0)];
    SecondWaits();
    FoundDue(WAITING);
    NullLost();
    Moved(HURT);
    LeadsOn(OPENED, first, WAITING, FIND_DUE, Found(WAITING));
    LeadsOn(OPENED, first + FIND_DUE, Found(WAITING), LOSE_NULL, HURT);
    LeadsOn(OPENED, first + FIND_DUE + LOSE_NULL, HURT, MOVE, Over(HURT));
    EndOf(first + FIND_DUE + LOSE_NULL + MOVE, Over(HURT));
  }

  lemma EndOf(steps: seq<Step>, t: State)
    requires Leads(OPENED, steps, t)
    ensures IsRun(Init(20.0, true), steps) && After(Init(20.0, true), steps) == t
  {
  }

  /** The same when the stream is switched at the end of the file, with no allocation failed. */
  lemma SwitchedAtEndRun()
    ensures var steps := START + DECODE + SHOW + DECODE + [Tick(5.0)] + SWITCH + FIND_DUE + EXIT + MOVE;
      && IsRun(Init(20.0, true), steps)
      && After(Init(20.0, true), steps).timer == 30.0 && After(Init(20.0, true), steps).now == 25.0
  {
    hide Leads;
    var first := START + DECODE + SHOW + DECODE + [Tick(5.0)];
    SecondWaits();
    Switched();
    FoundDue(REOPENED);
    Exited();
    Moved(HURT);
    LeadsOn(OPENED, first, WAITING, SWITCH, REOPENED);
    LeadsOn(OPENED, first + SWITCH, REOPENED, FIND_DUE, Found(REOPENED));
    LeadsOn(OPENED, first + SWITCH + FIND_DUE, Found(REOPENED), EXIT, HURT);
    LeadsOn(OPENED, first + SWITCH + FIND_DUE + EXIT, HURT, MOVE, Over(HURT));
    EndOf(first + SWITCH + FIND_DUE + EXIT + MOVE, Over(HURT));
  }
}
