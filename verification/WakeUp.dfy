/** Blocking and waking in the player's packet queue: any number of producers and consumers
    around one mutex and one condition variable.

    Each step is what a thread does between taking the lock and releasing it or going to
    wait.  A signal wakes at least one waiting thread if there is one, and a wait may also
    end without a signal.  A woken thread runs the rest of the loop of get when it has the
    lock again, and other threads may take the lock first. */
module WakeUp {

  type Tid = nat

  /** waiting holds the consumers asleep on the condition; signalled those woken that do
      not have the lock again yet. */
  datatype State = State(queue: seq<nat>, aborted: bool, waiting: set<Tid>, signalled: set<Tid>)

  datatype Step =
    | Put(packet: nat, woken: set<Tid>)
    | Abort(woken: set<Tid>)
    | Flush
    | Get(tid: Tid, block: bool)
    | Resume(tid: Tid)
    | SpuriousWakeUp(tid: Tid)

  const INIT: State := State([], false, {}, {})

  /** The threads a signal may wake. */
  predicate Wakes(s: State, woken: set<Tid>) {
    woken <= s.waiting && (s.waiting != {} ==> woken != {})
  }

  predicate Enabled(s: State, step: Step) {
    match step
    case Put(_, woken) => Wakes(s, woken)
    case Abort(woken) => Wakes(s, woken)
    case Flush => true
    case Get(tid, _) => tid !in s.waiting && tid !in s.signalled
    case Resume(tid) => tid in s.signalled
    case SpuriousWakeUp(tid) => tid in s.waiting
  }

  function Signal(s: State, woken: set<Tid>): State {
    s.(waiting := s.waiting - woken, signalled := s.signalled + woken)
  }

  /** One round of the loop of get, for a thread that holds the lock. */
  function GetRound(s: State, tid: Tid, block: bool): State {
    if s.aborted then s
    else if s.queue != [] then s.(queue := s.queue[1..])
    else if !block then s
    else s.(waiting := s.waiting + {tid})
  }

  function Apply(s: State, step: Step): State
    requires Enabled(s, step)
  {
    match step
    case Put(packet, woken) => Signal(s, woken).(queue := s.queue + [packet])
    case Abort(woken) => Signal(s, woken).(aborted := true)
    case Flush => s.(queue := [])
    case Get(tid, block) => GetRound(s, tid, block)
    case Resume(tid) => GetRound(s.(signalled := s.signalled - {tid}), tid, true)
    case SpuriousWakeUp(tid) => Signal(s, {tid})
  }

  // ---------- Runs ----------

  predicate IsRun(s: State, steps: seq<Step>)
    decreases |steps|
  {
    steps == [] || (Enabled(s, steps[0]) && IsRun(Apply(s, steps[0]), steps[1..]))
  }

  function After(s: State, steps: seq<Step>): State
    requires IsRun(s, steps)
    decreases |steps|
  {
    if steps == [] then s else After(Apply(s, steps[0]), steps[1..])
  }

  // ---------- No lost wake-up ----------

  /** Until the abort there is a woken consumer for every packet that a sleeping consumer
      could take. */
  predicate Inv(s: State) {
    && s.waiting !! s.signalled
    && (!s.aborted && s.waiting != {} ==> |s.queue| <= |s.signalled|)
  }

  lemma SignalCounts(s: State, woken: set<Tid>)
    requires woken <= s.waiting && s.waiting !! s.signalled
    ensures |Signal(s, woken).signalled| == |s.signalled| + |woken| && (woken != {} ==> |woken| >= 1)
  {
    assert woken !! s.signalled;
    if woken != {} {
      var t :| t in woken;
      assert woken == {t} + (woken - {t});
    }
  }

  lemma StepKeepsInv(s: State, step: Step)
    requires Inv(s) && Enabled(s, step)
    ensures Inv(Apply(s, step))
  {
    match step {
      case Put(_, woken) => SignalCounts(s, woken);
      case Abort(woken) => SignalCounts(s, woken);
      case SpuriousWakeUp(tid) => SignalCounts(s, {tid});
      case Resume(tid) => assert |s.signalled - {tid}| == |s.signalled| - 1;
      case _ =>
    }
  }

  lemma {:induction false} RunKeepsInv(s: State, steps: seq<Step>)
    requires Inv(s) && IsRun(s, steps)
    ensures Inv(After(s, steps))
    decreases |steps|
  {
    if steps != [] {
      StepKeepsInv(s, steps[0]);
      RunKeepsInv(Apply(s, steps[0]), steps[1..]);
    }
  }

  /** With any number of threads, before an abort: while a consumer sleeps unsignalled, the
      queue is no longer than the number of consumers already woken; so if none is woken
      the queue is empty. */
  lemma NoLostWakeUp(steps: seq<Step>)
    requires IsRun(INIT, steps)
    ensures var s := After(INIT, steps);
      !s.aborted && s.waiting != {} ==> |s.queue| <= |s.signalled| && (s.signalled == {} ==> s.queue == [])
  {
    RunKeepsInv(INIT, steps);
  }

  // ---------- Every packet is taken ----------

  /** The packets put, in order. */
  function PutIn(steps: seq<Step>): seq<nat> {
    if steps == [] then []
    else (if steps[0].Put? then [steps[0].packet] else []) + PutIn(steps[1..])
  }

  /** What one step returns to a consumer: the head of the queue, unless the queue is empty
      or aborted. */
  function Returned(s: State, step: Step): seq<nat> {
    if (step.Get? || step.Resume?) && !s.aborted && s.queue != [] then [s.queue[0]] else []
  }

  function TakenOut(s: State, steps: seq<Step>): seq<nat>
    requires IsRun(s, steps)
    decreases |steps|
  {
    if steps == [] then [] else Returned(s, steps[0]) + TakenOut(Apply(s, steps[0]), steps[1..])
  }

  /** One step neither loses nor invents a packet. */
  lemma StepConserves(s: State, step: Step)
    requires Enabled(s, step) && !step.Flush?
    ensures var put := if step.Put? then [step.packet] else [];
      s.queue + put == Returned(s, step) + Apply(s, step).queue
  {
  }

  /** Without a flush no packet is lost, repeated or overtaken, whoever consumes it and
      however the wake-ups fall: what is put comes out in order, or is still queued. */
  lemma {:induction false} NoPacketIsLost(s: State, steps: seq<Step>)
    requires IsRun(s, steps) && Flush !in steps
    ensures s.queue + PutIn(steps) == TakenOut(s, steps) + After(s, steps).queue
    decreases |steps|
  {
    if steps != [] {
      var step, t := steps[0], Apply(s, steps[0]);
      StepConserves(s, step);
      NoPacketIsLost(t, steps[1..]);
      hide Apply, Returned, Enabled, IsRun, PutIn, TakenOut;
      var put := if step.Put? then [step.packet] else [];
      Regroup(s.queue, put, PutIn(steps[1..]), Returned(s, step), t.queue,
              TakenOut(t, steps[1..]), After(t, steps[1..]).queue);
    }
  }

  lemma Regroup(q: seq<nat>, put: seq<nat>, puts: seq<nat>, got: seq<nat>, u: seq<nat>, gots: seq<nat>, v: seq<nat>)
    requires q + put == got + u && u + puts == gots + v
    ensures q + (put + puts) == (got + gots) + v
  {
    assert q + (put + puts) == (q + put) + puts == got + (u + puts);
    assert got + (gots + v) == (got + gots) + v;
  }

  /** As many gets as there are packets take them all, by a thread that is not waiting. */
  lemma {:induction false} GetsTakeAll(s: State, tid: Tid)
    requires !s.aborted && tid !in s.waiting && tid !in s.signalled
    ensures var gets := seq(|s.queue|, _ => Get(tid, true));
      IsRun(s, gets) && TakenOut(s, gets) == s.queue && After(s, gets) == s.(queue := [])
    decreases |s.queue|
  {
    var gets := seq(|s.queue|, _ => Get(tid, true));
    if s.queue != [] {
      var t := Apply(s, Get(tid, true));
      assert t == s.(queue := s.queue[1..]);
      GetsTakeAll(t, tid);
      assert gets[0] == Get(tid, true) && gets[1..] == seq(|t.queue|, _ => Get(tid, true));
    }
  }

  /** Who sleeps after a get: the caller, exactly if it asked to wait, nothing was queued and
      there was no abort; a woken thread finds the same choice again, as if it asked to wait. */
  lemma SleepsExactlyIf(s: State, tid: Tid, block: bool)
    ensures Enabled(s, Get(tid, block)) ==>
      Apply(s, Get(tid, block)).waiting == s.waiting + if block && !s.aborted && s.queue == [] then {tid} else {}
    ensures Enabled(s, Resume(tid)) ==>
      var t := Apply(s, Resume(tid));
      t.waiting == s.waiting + (if !s.aborted && s.queue == [] then {tid} else {}) && t.signalled == s.signalled - {tid}
    ensures Enabled(s, Flush) && Apply(s, Flush) == s.(queue := [])
    ensures Enabled(s, Put(0, s.waiting)) && Enabled(s, Abort(s.waiting))
  {
  }

  /** A packet that is put wakes the consumer that sleeps on the empty queue, and that
      consumer gets it. */
  lemma SleeperGetsPacket(s: State, tid: Tid, packet: nat)
    requires !s.aborted && s.queue == [] && s.waiting == {tid} && tid !in s.signalled
    ensures var steps := [Put(packet, {tid}), Resume(tid)];
      && IsRun(s, steps) && TakenOut(s, steps) == [packet]
      && After(s, steps) == s.(waiting := {})
      && forall woken :: Enabled(s, Put(packet, woken)) ==> woken == {tid}
  {
    var steps := [Put(packet, {tid}), Resume(tid)];
    assert steps[1..] == [Resume(tid)] && steps[1..][1..] == [];
    var t := Apply(s, steps[0]);
    assert t.signalled - {tid} == s.signalled && t.waiting == {};
    var u := Apply(t, Resume(tid));
    assert u == s.(waiting := {});
    assert After(t, [Resume(tid)]) == After(u, []) && TakenOut(u, []) == [];
    assert TakenOut(t, [Resume(tid)]) == [packet];
  }

  // ---------- One consumer ----------

  /** Every get in the run is by the one consumer. */
  predicate OnlyConsumer(tid: Tid, steps: seq<Step>) {
    forall i :: 0 <= i < |steps| && steps[i].Get? ==> steps[i].tid == tid
  }

  predicate InvOne(s: State, tid: Tid) {
    && Inv(s)
    && s.waiting + s.signalled <= {tid}
    && (s.aborted ==> s.waiting == {})
  }

  lemma StepKeepsInvOne(s: State, tid: Tid, step: Step)
    requires InvOne(s, tid) && Enabled(s, step) && (step.Get? ==> step.tid == tid)
    ensures InvOne(Apply(s, step), tid)
  {
    StepKeepsInv(s, step);
    hide Inv;
    match step {
      case Put(_, woken) => OneWoken(s, tid, woken);
      case Abort(woken) => OneWoken(s, tid, woken);
      case _ =>
    }
  }

  /** A signal wakes the one consumer if it sleeps. */
  lemma OneWoken(s: State, tid: Tid, woken: set<Tid>)
    requires s.waiting <= {tid} && Wakes(s, woken)
    ensures woken == s.waiting
  {
  }

  lemma {:induction false} RunKeepsInvOne(s: State, tid: Tid, steps: seq<Step>)
    requires InvOne(s, tid) && IsRun(s, steps) && OnlyConsumer(tid, steps)
    ensures InvOne(After(s, steps), tid)
    decreases |steps|
  {
    if steps != [] {
      StepKeepsInvOne(s, tid, steps[0]);
      RunKeepsInvOne(Apply(s, steps[0]), tid, steps[1..]);
    }
  }

  /** With one consumer, sleeping unsignalled means that the queue is empty and not
      aborted: there is nothing to wake up for. */
  lemma OneConsumerSleepsOnlyOnEmpty(tid: Tid, steps: seq<Step>)
    requires IsRun(INIT, steps) && OnlyConsumer(tid, steps)
    ensures var s := After(INIT, steps); s.waiting != {} ==> s.queue == [] && !s.aborted
  {
    RunKeepsInvOne(INIT, tid, steps);
    var s := After(INIT, steps);
    if s.waiting != {} {
      assert s.waiting == {tid};
      assert s.signalled == {};
    }
  }

  // ---------- Abort wakes one ----------

  /** A signal that wakes exactly one thread leaves nobody asleep after an abort exactly if
      at most one thread was asleep. */
  lemma AbortWakesEverybodyIff(s: State, woken: set<Tid>)
    requires Wakes(s, woken) && |woken| <= 1
    ensures Apply(s, Abort(woken)).waiting == {} <==> |s.waiting| <= 1
  {
    if s.waiting != {} {
      var t :| t in woken;
      assert woken == {t} + (woken - {t});
      assert woken - {t} == {};
      assert |s.waiting - {t}| == |s.waiting| - 1;
    }
  }

  /** A step that does not put, abort again or wake spuriously. */
  predicate Quiet(step: Step) {
    step.Flush? || step.Get? || step.Resume?
  }

  /** A thread left asleep by an abort stays asleep while nothing is put and no wait ends
      by itself: every other thread leaves get at once and signals nobody. */
  lemma {:induction false} LeftAsleep(s: State, steps: seq<Step>)
    requires s.aborted && IsRun(s, steps) && forall i :: 0 <= i < |steps| ==> Quiet(steps[i])
    ensures After(s, steps).aborted && After(s, steps).waiting == s.waiting
    decreases |steps|
  {
    if steps != [] {
      assert Quiet(steps[0]);
      LeftAsleep(Apply(s, steps[0]), steps[1..]);
    }
  }

  /** Two consumers that wait on an empty queue: an abort that wakes one of them leaves the
      other asleep though the queue is aborted. */
  lemma AbortStrandsSecondConsumer()
    ensures var steps := [Get(1, true), Get(2, true), Abort({1}), Resume(1)];
      IsRun(INIT, steps) && After(INIT, steps) == State([], true, {2}, {})
  {
    var s1 := Apply(INIT, Get(1, true));
    var s2 := Apply(s1, Get(2, true));
    assert s2.waiting == {1, 2};
    var s3 := Apply(s2, Abort({1}));
    assert s3.waiting == {2} && s3.signalled == {1};
    var s4 := Apply(s3, Resume(1));
    assert s4 == State([], true, {2}, {});
    var steps := [Get(1, true), Get(2, true), Abort({1}), Resume(1)];
    assert steps[1..] == [Get(2, true), Abort({1}), Resume(1)];
    assert steps[1..][1..] == [Abort({1}), Resume(1)];
    assert steps[1..][1..][1..] == [Resume(1)];
    assert steps[1..][1..][1..][1..] == [];
  }
}
