/** The seek protocol of ffplay between the reader thread and one decoder thread.

    After a successful seek the reader empties the stream's packet queue and queues a
    flush packet, in two separate critical sections; the decoder flushes its codec when
    the flush packet reaches it.  Each critical section, each read and each call into the
    codec is one step, and the steps of the two threads interleave in any order.  A third
    thread closes and opens the stream at any time. */
module SeekProtocol {

  import opened Options

  /** A queued packet: the flush packet, or data read in some epoch.  The epoch counts
      the successful seeks before the packet was read. */
  datatype Packet = Flush | Data(epoch: nat)

  /** Where the reader is: reading, seek done, or queue emptied and flush packet due. */
  datatype ReaderPc = Reading | Seeked | Cleared

  /** log is what the codec has seen: Data for a decode call, Flush where nothing of what it
      was fed is left in it, by avcodec_flush_buffers or by avcodec_close.  hand is the
      packet the decoder has taken from the queue; closed tells that the stream is not open. */
  datatype State = State(epoch: nat, pc: ReaderPc, held: Option<nat>, queue: seq<Packet>, aborted: bool,
                         closed: bool, hand: Option<Packet>, log: seq<Packet>)

  /** kept tells whether the list node of the packet could be allocated.  NoStream is the
      seek of a stream that is not open; Abort and Close are stream_component_close, Start
      is stream_component_open. */
  datatype Step =
    | SeekOk | SeekFail | EmptyQueue | NoStream | PutFlush(kept: bool) | Read | Put(kept: bool)
    | Get | Feed | Release | Abort | Close | Start(kept: bool)

  const INIT: State := State(0, Reading, None, [], true, true, None, [])

  predicate Enabled(s: State, step: Step) {
    match step
    case SeekOk => s.pc.Reading? && s.held.None?
    case SeekFail => s.pc.Reading? && s.held.None?
    case EmptyQueue => s.pc.Seeked?
    case NoStream => s.pc.Seeked? && s.closed
    case PutFlush(_) => s.pc.Cleared?
    case Read => s.pc.Reading? && s.held.None?
    case Put(_) => s.held.Some?
    case Get => s.hand.None? && !s.aborted && s.queue != []
    case Feed => s.hand.Some?
    case Release => s.hand.Some? && s.hand.value.Data?
    case Abort => !s.closed
    case Close => s.aborted && !s.closed
    case Start(_) => s.closed
  }

  function Enqueue(s: State, p: Packet, kept: bool): State {
    if s.aborted || !kept then s else s.(queue := s.queue + [p])
  }

  function Apply(s: State, step: Step): State
    requires Enabled(s, step)
  {
    match step
    case SeekOk => s.(epoch := s.epoch + 1, pc := Seeked)
    case SeekFail => s
    case EmptyQueue => s.(queue := [], pc := Cleared)
    case NoStream => s.(pc := Reading)
    case PutFlush(kept) => Enqueue(s, Flush, kept).(pc := Reading)
    case Read => s.(held := Some(s.epoch))
    case Put(kept) => Enqueue(s, Data(s.held.value), kept).(held := None)
    case Get => s.(hand := Some(s.queue[0]), queue := s.queue[1..])
    case Feed => s.(log := s.log + [s.hand.value], hand := if s.hand.value.Flush? then None else s.hand)
    case Release => s.(hand := None)
    case Abort => s.(aborted := true)
    case Close => s.(queue := [], hand := None, log := s.log + [Flush], closed := true)
    case Start(kept) => Enqueue(s.(aborted := false, closed := false), Flush, kept)
  }

  // ---------- What is promised ----------

  /** Two packets of different epochs are never fed without a codec flush in between. */
  ghost predicate Safe(log: seq<Packet>) {
    forall i, j :: 0 <= i < j < |log| && log[i].Data? && log[j].Data? && log[i].epoch != log[j].epoch ==>
      FlushBetween(log, i, j)
  }

  ghost predicate FlushBetween(log: seq<Packet>, i: int, j: int) {
    exists k :: i < k < j && 0 <= k < |log| && log[k] == Flush
  }

  // ---------- The same, as an automaton ----------

  /** The epoch of the last packet, unless a flush came after it. */
  function Tail(s: seq<Packet>): Option<nat> {
    if s == [] || s[|s| - 1].Flush? then None else Some(s[|s| - 1].epoch)
  }

  /** Each packet follows a flush, the beginning, or a packet of its own epoch. */
  predicate Good(s: seq<Packet>) {
    s == [] ||
    var init, last := s[..|s| - 1], s[|s| - 1];
    Good(init) && (last.Flush? || Tail(init).None? || Tail(init) == Some(last.epoch))
  }

  lemma SafeInit(s: seq<Packet>)
    requires s != [] && Safe(s)
    ensures Safe(s[..|s| - 1])
  {
    var init := s[..|s| - 1];
    forall i, j | 0 <= i < j < |init| && init[i].Data? && init[j].Data? && init[i].epoch != init[j].epoch
      ensures FlushBetween(init, i, j)
    {
      assert s[i] == init[i] && s[j] == init[j];
      assert FlushBetween(s, i, j);
      var k :| i < k < j && s[k] == Flush;
      assert init[k] == Flush;
    }
  }

  lemma {:induction false} GoodIsSafe(s: seq<Packet>)
    ensures Good(s) <==> Safe(s)
  {
    if s != [] {
      var init, last := s[..|s| - 1], s[|s| - 1];
      GoodIsSafe(init);
      if Good(s) {
        forall i, j | 0 <= i < j < |s| && s[i].Data? && s[j].Data? && s[i].epoch != s[j].epoch
          ensures FlushBetween(s, i, j)
        {
          if j < |s| - 1 {
            assert FlushBetween(init, i, j);
            var k :| i < k < j && init[k] == Flush;
            assert s[k] == Flush;
          } else {
            var m := |init| - 1;
            if init[m].Flush? {
              assert s[m] == Flush;
            } else {
              assert init[m].epoch == last.epoch;
              assert FlushBetween(init, i, m);
              var k :| i < k < m && init[k] == Flush;
              assert s[k] == Flush;
            }
          }
        }
      }
      if Safe(s) {
        SafeInit(s);
        if init != [] {
          var i, j := |s| - 2, |s| - 1;
          assert s[i] == init[|init| - 1] && !FlushBetween(s, i, j);
          assert s[i].Data? && s[j].Data? && s[i].epoch != s[j].epoch ==> FlushBetween(s, i, j);
        }
      }
    }
  }

  lemma {:induction false} GoodPrefix(a: seq<Packet>, b: seq<Packet>)
    requires Good(a + b)
    ensures Good(a)
  {
    if b == [] {
      assert a + b == a;
    } else {
      assert (a + b)[..|a + b| - 1] == a + b[..|b| - 1];
      GoodPrefix(a, b[..|b| - 1]);
    }
  }

  /** A packet that is never fed can be forgotten. */
  lemma {:induction false} ForgetData(a: seq<Packet>, e: nat, b: seq<Packet>)
    requires Good(a + [Data(e)] + b)
    ensures Good(a + b)
    ensures Tail(a + b).None? || Tail(a + b) == Tail(a + [Data(e)] + b)
  {
    var whole := a + [Data(e)] + b;
    if b == [] {
      assert a + b == a && whole == a + [Data(e)];
      assert whole[..|whole| - 1] == a;
    } else {
      var init := b[..|b| - 1];
      assert whole[..|whole| - 1] == a + [Data(e)] + init;
      assert (a + b)[..|a + b| - 1] == a + init;
      ForgetData(a, e, init);
    }
  }

  // ---------- The invariant ----------

  function Hand(s: State): seq<Packet> {
    if s.hand.Some? then [s.hand.value] else []
  }

  /** All that the codec has seen or will see if nothing more is queued. */
  function All(s: State): seq<Packet> {
    s.log + Hand(s) + s.queue
  }

  /** Nothing at the end of All needs a flush before a packet read now. */
  predicate Current(s: State) {
    Tail(All(s)).None? || Tail(All(s)) == Some(s.epoch)
  }

  predicate Inv(s: State) {
    && Good(All(s))
    && (s.pc.Reading? && !s.aborted ==> Current(s))
    && (s.held.Some? ==> s.pc.Reading? && s.held.value == s.epoch)
    && (s.closed ==> s.aborted && s.queue == [] && s.hand.None? && Tail(s.log).None?)
    && Bounded(All(s), s.epoch)
  }

  predicate Bounded(all: seq<Packet>, epoch: nat) {
    forall i :: 0 <= i < |all| && all[i].Data? ==> all[i].epoch <= epoch
  }

  /** A flush packet is lost harmlessly only when the codec needs no flush. */
  predicate Harmless(s: State, step: Step) {
    step == PutFlush(false) && !s.aborted ==> Current(s)
  }

  lemma AppendKeepsGood(all: seq<Packet>, p: Packet)
    requires Good(all) && (p.Flush? || Tail(all).None? || Tail(all) == Some(p.epoch))
    ensures Good(all + [p]) && Tail(all + [p]) == if p.Flush? then None else Some(p.epoch)
  {
    assert (all + [p])[..|all + [p]| - 1] == all;
  }

  lemma StepKeepsInv(s: State, step: Step)
    requires Inv(s) && Enabled(s, step) && Harmless(s, step)
    ensures Inv(Apply(s, step))
  {
    hide Inv, Enabled, Apply, Harmless;
    match step
    case SeekOk => AfterSeek(s, step);
    case SeekFail => AfterSeek(s, step);
    case EmptyQueue => AfterEmptyQueue(s);
    case NoStream => AfterRead(s, step);
    case PutFlush(kept) => AfterPutFlush(s, kept);
    case Read => AfterRead(s, step);
    case Put(kept) => AfterPut(s, kept);
    case Get => AfterGet(s);
    case Feed => AfterFeed(s);
    case Release => AfterRelease(s);
    case Abort => AfterRead(s, step);
    case Close => AfterClose(s);
    case Start(kept) => AfterStart(s, kept);
  }

  lemma AfterSeek(s: State, step: Step)
    requires (step == SeekOk || step == SeekFail) && Inv(s) && Enabled(s, step)
    ensures Inv(Apply(s, step))
  {
    hide Good, Tail;
    assert All(Apply(s, step)) == All(s);
  }

  lemma AfterEmptyQueue(s: State)
    requires Inv(s) && Enabled(s, EmptyQueue)
    ensures Inv(Apply(s, EmptyQueue))
  {
    hide Good, Tail, Bounded, All;
    QueueGoes(s, Apply(s, EmptyQueue));
  }

  /** A codec that is closed has nothing left. */
  lemma AfterClose(s: State)
    requires Inv(s) && Enabled(s, Close)
    ensures Inv(Apply(s, Close))
  {
    hide Good, Tail, Bounded;
    var u, t := s.(queue := [], hand := None), Apply(s, Close);
    QueueGoes(s, u);
    assert All(u) == s.log && All(t) == s.log + [Flush];
    AppendKeepsGood(s.log, Flush);
    BoundedAppend(s.log, Flush, s.epoch);
  }

  lemma AfterPutFlush(s: State, kept: bool)
    requires Inv(s) && Enabled(s, PutFlush(kept)) && Harmless(s, PutFlush(kept))
    ensures Inv(Apply(s, PutFlush(kept)))
  {
    hide Good, Tail, Bounded;
    var t := Enqueue(s, Flush, kept);
    AfterEnqueue(s, Flush, kept);
    assert All(t.(pc := Reading)) == All(t);
  }

  /** A read, an abort and a seek without a stream leave every packet where it is. */
  lemma AfterRead(s: State, step: Step)
    requires (step == Read || step == Abort || step == NoStream) && Inv(s) && Enabled(s, step)
    ensures Inv(Apply(s, step))
  {
    hide Good, Tail, Bounded;
    assert All(Apply(s, step)) == All(s);
  }

  lemma AfterPut(s: State, kept: bool)
    requires Inv(s) && Enabled(s, Put(kept))
    ensures Inv(Apply(s, Put(kept)))
  {
    hide Good, Tail, Bounded;
    var p := Data(s.held.value);
    var t := Enqueue(s, p, kept);
    AfterEnqueue(s, p, kept);
    assert All(t.(held := None)) == All(t);
  }

  lemma AfterGet(s: State)
    requires Inv(s) && Enabled(s, Get)
    ensures Inv(Apply(s, Get))
  {
    hide Good, Tail, Bounded;
    assert s.queue == [s.queue[0]] + s.queue[1..];
    assert All(Apply(s, Get)) == All(s);
  }

  lemma AfterStart(s: State, kept: bool)
    requires Inv(s) && Enabled(s, Start(kept))
    ensures Inv(Apply(s, Start(kept)))
  {
    hide Good, Tail, Bounded;
    var u := s.(aborted := false, closed := false);
    assert All(u) == All(s) == s.log;
    AfterEnqueue(u, Flush, kept);
  }

  /** Only the front of All is left. */
  lemma QueueGoes(s: State, t: State)
    requires Inv(s) && t.log == s.log && t.queue == [] && t.epoch == s.epoch && (t.hand == s.hand || t.hand.None?)
    ensures Good(All(t)) && Bounded(All(t), t.epoch)
  {
    var rest := (if t.hand == s.hand then [] else Hand(s)) + s.queue;
    assert All(t) + rest == All(s);
    GoodPrefix(All(t), rest);
    forall i | 0 <= i < |All(t)| ensures All(t)[i] == All(s)[i] { }
  }

  lemma AfterRelease(s: State)
    requires Inv(s) && Enabled(s, Release)
    ensures Inv(Apply(s, Release))
  {
    hide Good, Tail, Bounded;
    var t := Apply(s, Release);
    var h := s.hand.value;
    ForgetData(s.log, h.epoch, s.queue);
    assert s.log + [] == s.log;
    assert All(t) == s.log + s.queue && All(s) == s.log + [h] + s.queue;
    BoundedSubset(All(s), All(t), s.epoch);
  }

  lemma AfterEnqueue(s: State, p: Packet, kept: bool)
    requires Good(All(s)) && Bounded(All(s), s.epoch) && (p.Data? ==> p.epoch <= s.epoch)
    ensures var t := Enqueue(s, p, kept);
      Bounded(All(t), s.epoch) &&
      if s.aborted || !kept then t == s
      else t.queue == s.queue + [p] && (p.Flush? || (Current(s) && p.epoch == s.epoch) ==> Good(All(t)) && Current(t))
  {
    hide Good, Tail, Bounded;
    var t := Enqueue(s, p, kept);
    if !s.aborted && kept {
      assert All(t) == All(s) + [p];
      BoundedAppend(All(s), p, s.epoch);
      if p.Flush? || (Current(s) && p.epoch == s.epoch) {
        AppendKeepsGood(All(s), p);
      }
    }
  }

  lemma BoundedAppend(all: seq<Packet>, p: Packet, epoch: nat)
    requires Bounded(all, epoch) && (p.Data? ==> p.epoch <= epoch)
    ensures Bounded(all + [p], epoch)
  {
  }

  lemma BoundedSubset(all: seq<Packet>, less: seq<Packet>, epoch: nat)
    requires Bounded(all, epoch) && forall i :: 0 <= i < |less| ==> less[i] in all
    ensures Bounded(less, epoch)
  {
  }

  /** Feeding a data packet repeats it; feeding the flush packet moves it to the log. */
  lemma AfterFeed(s: State)
    requires Inv(s) && Enabled(s, Feed)
    ensures Inv(Apply(s, Feed))
  {
    hide Good, Tail, Bounded;
    var t := Apply(s, Feed);
    if s.hand.value.Flush? {
      assert All(t) == All(s);
    } else {
      RepeatData(s.log, s.hand.value.epoch, s.queue);
      assert All(t) == s.log + [s.hand.value] + [s.hand.value] + s.queue;
      BoundedSubset(All(s), All(t), s.epoch);
    }
  }

  lemma {:induction false} RepeatData(a: seq<Packet>, e: nat, b: seq<Packet>)
    requires Good(a + [Data(e)] + b)
    ensures Good(a + [Data(e)] + [Data(e)] + b) && Tail(a + [Data(e)] + [Data(e)] + b) == Tail(a + [Data(e)] + b)
  {
    var one, two := a + [Data(e)], a + [Data(e)] + [Data(e)];
    if b == [] {
      assert one + b == one && two + b == two && two[..|two| - 1] == one;
    } else {
      var init := b[..|b| - 1];
      assert (one + b)[..|one + b| - 1] == one + init;
      assert (two + b)[..|two + b| - 1] == two + init;
      RepeatData(a, e, init);
    }
  }

  // ---------- Runs ----------

  predicate IsRun(s: State, steps: seq<Step>)
    decreases |steps|
  {
    steps == [] || (Enabled(s, steps[0]) && IsRun(Apply(s, steps[0]), steps[1..]))
  }

  function After(s: State, steps: seq<Step>): State
    requires IsRun(s, steps)
    decreases |steps|
  {
    if steps == [] then s else After(Apply(s, steps[0]), steps[1..])
  }

  predicate NoHarm(s: State, steps: seq<Step>)
    requires IsRun(s, steps)
    decreases |steps|
  {
    steps == [] || (Harmless(s, steps[0]) && NoHarm(Apply(s, steps[0]), steps[1..]))
  }

  lemma {:induction false} RunKeepsInv(s: State, steps: seq<Step>)
    requires Inv(s) && IsRun(s, steps) && NoHarm(s, steps)
    ensures Inv(After(s, steps))
    decreases |steps|
  {
    if steps != [] {
      StepKeepsInv(s, steps[0]);
      RunKeepsInv(Apply(s, steps[0]), steps[1..]);
    }
  }

  /** Seek safety: on every interleaving, with any number of seeks, the codec never sees
      packets from both sides of a seek unless it is flushed or closed between them, provided
      the flush packet of a seek is lost to a failed allocation only when none is needed. */
  lemma SeekSafety(steps: seq<Step>)
    requires IsRun(INIT, steps) && NoHarm(INIT, steps)
    ensures Safe(After(INIT, steps).log)
  {
    RunKeepsInv(INIT, steps);
    var s := After(INIT, steps);
    assert All(s) == s.log + (Hand(s) + s.queue);
    GoodPrefix(s.log, Hand(s) + s.queue);
    GoodIsSafe(s.log);
  }

  // ---------- What becomes of a queued packet ----------

  /** Only the emptying after a successful seek and the closing of the stream lose queued
      packets; in particular a seek that fails changes nothing. */
  lemma OnlySeekAndCloseEmpty(s: State, step: Step)
    requires Enabled(s, step)
    ensures var t := Apply(s, step);
      match step
      case SeekFail => t == s
      case EmptyQueue => t.queue == []
      case Close => t.queue == []
      case Get => t.hand.Some? && s.queue == [t.hand.value] + t.queue
      case Put(kept) => t.queue == s.queue + if kept && !s.aborted then [Data(s.held.value)] else []
      case PutFlush(kept) => t.queue == s.queue + if kept && !s.aborted then [Flush] else []
      case Start(kept) => t.queue == s.queue + if kept then [Flush] else []
      case _ => t.queue == s.queue
  {
  }

  /** What a step puts at the end of the queue, and what it takes from the front. */
  function Queued(s: State, step: Step): seq<Packet> {
    match step
    case Put(kept) => if kept && !s.aborted && s.held.Some? then [Data(s.held.value)] else []
    case PutFlush(kept) => if kept && !s.aborted then [Flush] else []
    case Start(kept) => if kept then [Flush] else []
    case _ => []
  }

  function Fetched(s: State, step: Step): seq<Packet> {
    if step.Get? && s.queue != [] then [s.queue[0]] else []
  }

  function AllQueued(s: State, steps: seq<Step>): seq<Packet>
    requires IsRun(s, steps)
    decreases |steps|
  {
    if steps == [] then [] else Queued(s, steps[0]) + AllQueued(Apply(s, steps[0]), steps[1..])
  }

  function AllFetched(s: State, steps: seq<Step>): seq<Packet>
    requires IsRun(s, steps)
    decreases |steps|
  {
    if steps == [] then [] else Fetched(s, steps[0]) + AllFetched(Apply(s, steps[0]), steps[1..])
  }

  /** While the queue is not emptied and the stream not closed, whatever seeks are tried,
      the decoder gets the packets in the order they were queued and misses none. */
  lemma {:induction false} NothingIsSkipped(s: State, steps: seq<Step>)
    requires IsRun(s, steps) && EmptyQueue !in steps && Close !in steps
    ensures s.queue + AllQueued(s, steps) == AllFetched(s, steps) + After(s, steps).queue
    decreases |steps|
  {
    if steps != [] {
      var step, t := steps[0], Apply(s, steps[0]);
      OnlySeekAndCloseEmpty(s, step);
      assert s.queue + Queued(s, step) == Fetched(s, step) + t.queue;
      NothingIsSkipped(t, steps[1..]);
      hide Apply, Queued, Fetched, Enabled, IsRun, AllQueued, AllFetched;
      Regroup(s.queue, Queued(s, step), AllQueued(t, steps[1..]), Fetched(s, step), t.queue,
              AllFetched(t, steps[1..]), After(t, steps[1..]).queue);
    }
  }

  lemma Regroup(q: seq<Packet>, a: seq<Packet>, b: seq<Packet>, x: seq<Packet>, u: seq<Packet>, y: seq<Packet>,
                v: seq<Packet>)
    requires q + a == x + u && u + b == y + v
    ensures q + (a + b) == (x + y) + v
  {
    assert q + (a + b) == (q + a) + b == x + (u + b);
    assert x + (y + v) == (x + y) + v;
  }

  // ---------- What the threads get done ----------

  lemma RunFrom(s: State, step: Step, steps: seq<Step>)
    requires Enabled(s, step) && IsRun(Apply(s, step), steps)
    ensures IsRun(s, [step] + steps) && After(s, [step] + steps) == After(Apply(s, step), steps)
  {
    assert ([step] + steps)[1..] == steps;
  }

  /** Whenever the reader may seek it may fail to; and a seek that succeeds, with nothing in
      between, empties the queue and has the codec flushed. */
  lemma SeekFlushesCodec(s: State)
    requires s.pc.Reading? && s.held.None? && !s.aborted && s.hand.None?
    ensures Enabled(s, SeekFail) && Apply(s, SeekFail) == s
    ensures var steps := [SeekOk] + ([EmptyQueue] + ([PutFlush(true)] + ([Get] + ([Feed] + []))));
      && IsRun(s, steps)
      && After(s, steps) == s.(epoch := s.epoch + 1, queue := [], log := s.log + [Flush])
  {
    var next := s.(epoch := s.epoch + 1);
    var s3, s4 := next.(queue := [Flush]), next.(queue := [], hand := Some(Flush));
    SeekSteps(s);
    FlushSteps(next);
    hide Enabled, Apply;
    RunFrom(s4, Feed, []);
    RunFrom(s3, Get, [Feed] + []);
    RunFrom(next.(queue := [], pc := Cleared), PutFlush(true), [Get] + ([Feed] + []));
    RunFrom(next.(pc := Seeked), EmptyQueue, [PutFlush(true)] + ([Get] + ([Feed] + [])));
    RunFrom(s, SeekOk, [EmptyQueue] + ([PutFlush(true)] + ([Get] + ([Feed] + []))));
  }

  lemma SeekSteps(s: State)
    requires s.pc.Reading? && s.held.None? && !s.aborted
    ensures var next := s.(epoch := s.epoch + 1);
      && Follows(s, SeekFail, s) && Follows(s, SeekOk, next.(pc := Seeked))
      && Follows(next.(pc := Seeked), EmptyQueue, next.(queue := [], pc := Cleared))
      && Follows(next.(queue := [], pc := Cleared), PutFlush(true), next.(queue := [Flush]))
  {
    assert [] + [Flush] == [Flush];
  }

  lemma FlushSteps(s: State)
    requires !s.aborted && s.hand.None?
    ensures Follows(s.(queue := [Flush]), Get, s.(queue := [], hand := Some(Flush)))
    ensures Follows(s.(queue := [], hand := Some(Flush)), Feed, s.(queue := [], log := s.log + [Flush]))
  {
    assert [Flush][1..] == [];
  }

  /** An open stream may be closed at any time: it is then closed and empty, its codec holds
      nothing, and a start opens it with the flush packet in front. */
  lemma SwitchStartsAfresh(s: State)
    requires !s.closed
    ensures var steps := [Abort] + ([Close] + []);
      && IsRun(s, steps)
      && After(s, steps) == s.(aborted := true, closed := true, queue := [], hand := None, log := s.log + [Flush])
    ensures var steps := [Abort] + ([Close] + ([Start(true)] + []));
      && IsRun(s, steps)
      && After(s, steps) == s.(aborted := false, queue := [Flush], hand := None, log := s.log + [Flush])
  {
    var s1 := s.(aborted := true);
    var s2 := s1.(queue := [], hand := None, log := s.log + [Flush], closed := true);
    assert [] + [Flush] == [Flush];
    assert Apply(s2, Start(true)) == s.(aborted := false, queue := [Flush], hand := None, log := s.log + [Flush]);
    RunFrom(s2, Start(true), []);
    RunFrom(s1, Close, [Start(true)] + []);
    RunFrom(s, Abort, [Close] + ([Start(true)] + []));
    RunFrom(s1, Close, []);
    RunFrom(s, Abort, [Close] + []);
  }

  /** A seek of a closed stream goes past its queue. */
  lemma ClosedSeek(s: State)
    requires s.closed && s.pc.Reading? && s.held.None?
    ensures var steps := [SeekOk] + ([NoStream] + []);
      IsRun(s, steps) && After(s, steps) == s.(epoch := s.epoch + 1)
  {
    RunFrom(Apply(s, SeekOk), NoStream, []);
    RunFrom(s, SeekOk, [NoStream] + []);
  }

  // ---------- The condition is exact ----------

  lemma FlushFed(s: State)
    requires s.hand == Some(Flush)
    ensures All(Apply(s, Feed)) == All(s)
  {
  }

  lemma DataFed(s: State)
    requires s.hand.Some? && s.hand.value.Data?
    ensures All(Apply(Apply(s, Feed), Release)) == All(s)
  {
    assert s.log + [s.hand.value] + [] == s.log + [s.hand.value];
  }

  lemma PacketTaken(s: State)
    requires Enabled(s, Get)
    ensures All(Apply(s, Get)) == All(s)
  {
    assert s.queue == [s.queue[0]] + s.queue[1..];
  }

  /** A decoder that is left alone feeds all that it holds and all that is queued. */
  lemma Drain(s: State) returns (steps: seq<Step>)
    requires !s.aborted
    ensures IsRun(s, steps) && After(s, steps).log == All(s)
    decreases 2 * |s.queue| + |Hand(s)|
  {
    hide All;
    if s.hand.Some? && s.hand.value.Flush? {
      FlushFed(s);
      var rest := Drain(Apply(s, Feed));
      RunFrom(s, Feed, rest);
      steps := [Feed] + rest;
    } else if s.hand.Some? {
      DataFed(s);
      var s1 := Apply(s, Feed);
      var rest := Drain(Apply(s1, Release));
      RunFrom(s1, Release, rest);
      RunFrom(s, Feed, [Release] + rest);
      steps := [Feed] + ([Release] + rest);
    } else if s.queue != [] {
      PacketTaken(s);
      var rest := Drain(Apply(s, Get));
      RunFrom(s, Get, rest);
      steps := [Get] + rest;
    } else {
      steps := [];
      NothingHeld(s);
    }
  }

  lemma NothingHeld(s: State)
    requires s.hand.None? && s.queue == []
    ensures All(s) == s.log
  {
  }

  /** If the codec needs a flush before the next packet and none is queued, reading one
      more packet feeds two epochs without a flush between them. */
  lemma NotCurrentIsUnsafe(s: State) returns (steps: seq<Step>)
    requires s.pc.Reading? && !s.aborted && !Current(s) && (s.held.Some? ==> s.held.value == s.epoch)
    ensures IsRun(s, steps) && !Safe(After(s, steps).log)
  {
    hide Safe, Tail;
    var s1 := if s.held.None? then Apply(s, Read) else s;
    var s2 := Apply(s1, Put(true));
    assert All(s2) == All(s) + [Data(s.epoch)];
    TwoEpochs(All(s), s.epoch);
    var rest := Drain(s2);
    RunFrom(s1, Put(true), rest);
    steps := [Put(true)] + rest;
    if s.held.None? {
      RunFrom(s, Read, steps);
      steps := [Read] + steps;
    }
  }

  /** A flush packet of a seek that is lost where it is needed makes some continuation
      unsafe: the condition of SeekSafety cannot be weakened.  One of a start may be lost:
      the codec is newly opened. */
  lemma LostFlushIsUnsafe(s: State, step: Step) returns (steps: seq<Step>)
    requires Inv(s) && Enabled(s, step) && !Harmless(s, step)
    ensures IsRun(s, [step] + steps) && !Safe(After(s, [step] + steps).log)
  {
    hide Safe, Tail, Good, Bounded;
    var s1 := Apply(s, step);
    assert All(s1) == All(s);
    steps := NotCurrentIsUnsafe(s1);
    RunFrom(s, step, steps);
  }

  lemma TwoEpochs(log: seq<Packet>, epoch: nat)
    requires Tail(log).Some? && Tail(log) != Some(epoch)
    ensures !Safe(log + [Data(epoch)])
  {
    var t := log + [Data(epoch)];
    assert !FlushBetween(t, |t| - 2, |t| - 1);
  }

  // ---------- Such a run ----------

  predicate Follows(s: State, step: Step, t: State) {
    Enabled(s, step) && Apply(s, step) == t
  }

  lemma NoSteps(s: State)
    ensures IsRun(s, []) && After(s, []) == s
  {
  }

  /** A run from its k-th step on. */
  lemma StepAt(s: State, steps: seq<Step>, k: nat, t: State)
    requires k < |steps| && Follows(s, steps[k], t) && IsRun(t, steps[k + 1..])
    ensures IsRun(s, steps[k..]) && After(s, steps[k..]) == After(t, steps[k + 1..])
  {
    assert steps[k..][1..] == steps[k + 1..];
  }

  const S0: State := INIT
  const S1: State := State(0, Reading, None, [Flush], false, false, None, [])
  const S2: State := State(0, Reading, None, [], false, false, Some(Flush), [])
  const S3: State := State(0, Reading, None, [], false, false, None, [Flush])
  const S4: State := State(0, Reading, Some(0), [], false, false, None, [Flush])
  const S5: State := State(0, Reading, None, [Data(0)], false, false, None, [Flush])
  const S6: State := State(0, Reading, None, [], false, false, Some(Data(0)), [Flush])
  const S7: State := State(0, Reading, None, [], false, false, Some(Data(0)), [Flush, Data(0)])
  const S8: State := State(0, Reading, None, [], false, false, None, [Flush, Data(0)])
  const S9: State := State(1, Seeked, None, [], false, false, None, [Flush, Data(0)])
  const S10: State := State(1, Cleared, None, [], false, false, None, [Flush, Data(0)])
  const S11: State := State(1, Reading, None, [], false, false, None, [Flush, Data(0)])
  const S12: State := State(1, Reading, Some(1), [], false, false, None, [Flush, Data(0)])
  const S13: State := State(1, Reading, None, [Data(1)], false, false, None, [Flush, Data(0)])
  const S14: State := State(1, Reading, None, [], false, false, Some(Data(1)), [Flush, Data(0)])
  const S15: State := State(1, Reading, None, [], false, false, Some(Data(1)), [Flush, Data(0), Data(1)])

  lemma PacketQueued()
    ensures Follows(S0, Start(true), S1) && Follows(S1, Get, S2) && Follows(S2, Feed, S3) && Follows(S3, Read, S4)
  {
  }

  lemma PacketFed()
    ensures Follows(S4, Put(true), S5) && Follows(S5, Get, S6) && Follows(S6, Feed, S7) && Follows(S7, Release, S8)
  {
  }

  lemma FlushLost()
    ensures Follows(S8, SeekOk, S9) && Follows(S9, EmptyQueue, S10) && Follows(S10, PutFlush(false), S11)
  {
  }

  lemma NextPacketFed()
    ensures Follows(S11, Read, S12) && Follows(S12, Put(true), S13) && Follows(S13, Get, S14) && Follows(S14, Feed, S15)
  {
  }

  lemma FirstPacketRun()
    ensures var steps := [Start(true), Get, Feed, Read, Put(true), Get, Feed, Release];
      IsRun(S0, steps) && After(S0, steps) == S8
  {
    hide Follows, Enabled, Apply, IsRun, After;
    PacketQueued();
    PacketFed();
    var first, second := [Start(true), Get, Feed, Read], [Put(true), Get, Feed, Release];
    FourSteps(first, S0, S1, S2, S3, S4);
    FourSteps(second, S4, S5, S6, S7, S8);
    RunConcat(S0, first, second);
    assert first + second == [Start(true), Get, Feed, Read, Put(true), Get, Feed, Release];
  }

  lemma FourSteps(steps: seq<Step>, s0: State, s1: State, s2: State, s3: State, s4: State)
    requires |steps| == 4 && Follows(s0, steps[0], s1) && Follows(s1, steps[1], s2)
    requires Follows(s2, steps[2], s3) && Follows(s3, steps[3], s4)
    ensures IsRun(s0, steps) && After(s0, steps) == s4
  {
    hide Follows, Enabled, Apply, IsRun, After;
    NoSteps(s4);
    assert steps[4..] == [] && steps[0..] == steps;
    StepAt(s3, steps, 3, s4);
    StepAt(s2, steps, 2, s3);
    StepAt(s1, steps, 1, s2);
    StepAt(s0, steps, 0, s1);
  }

  lemma LostFlushSteps()
    ensures var steps := [SeekOk, EmptyQueue, PutFlush(false), Read, Put(true), Get, Feed];
      IsRun(S8, steps) && After(S8, steps) == S15
  {
    hide Follows, Enabled, Apply, IsRun, After;
    FlushLost();
    NextPacketFed();
    NoSteps(S15);
    var steps := [SeekOk, EmptyQueue, PutFlush(false), Read, Put(true), Get, Feed];
    assert steps[7..] == [] && steps[0..] == steps;
    StepAt(S14, steps, 6, S15);
    StepAt(S13, steps, 5, S14);
    StepAt(S12, steps, 4, S13);
    StepAt(S11, steps, 3, S12);
    StepAt(S10, steps, 2, S11);
    StepAt(S9, steps, 1, S10);
    StepAt(S8, steps, 0, S9);
  }

  lemma {:induction false} RunConcat(s: State, a: seq<Step>, b: seq<Step>)
    requires IsRun(s, a) && IsRun(After(s, a), b)
    ensures IsRun(s, a + b) && After(s, a + b) == After(After(s, a), b)
    decreases |a|
  {
    hide Enabled, Apply;
    if a == [] {
      assert a + b == b;
    } else {
      assert (a + b)[1..] == a[1..] + b;
      RunConcat(Apply(s, a[0]), a[1..], b);
    }
  }

  /** A packet is fed, a seek succeeds, its flush packet cannot be allocated, and the next
      packet is fed. */
  lemma LostFlushRun()
    ensures var steps := [Start(true), Get, Feed, Read, Put(true), Get, Feed, Release] +
                         [SeekOk, EmptyQueue, PutFlush(false), Read, Put(true), Get, Feed];
      IsRun(INIT, steps) && After(INIT, steps).log == [Flush, Data(0), Data(1)] && !Safe(After(INIT, steps).log)
  {
    hide IsRun, After, Safe;
    FirstPacketRun();
    LostFlushSteps();
    RunConcat(INIT, [Start(true), Get, Feed, Read, Put(true), Get, Feed, Release],
              [SeekOk, EmptyQueue, PutFlush(false), Read, Put(true), Get, Feed]);
    TwoEpochs([Flush, Data(0)], 1);
    assert [Flush, Data(0)] + [Data(1)] == [Flush, Data(0), Data(1)];
  }
}
