/** The picture ring between the decoder thread and the display thread, in ffplay and in
    the player's own video decoder.

    Only pictq_size is protected by the lock; the two indices move outside it, before the
    size is published.  Each locked section and each unlocked access is one step, and the
    steps of the two threads interleave in any order.  Allocation of a slot's bitmap is
    done by the display thread on request. */
module PictureRing {

  /** The decoder thread: idle; space seen for a picture; waiting for the display thread
      to allocate the bitmap; slot written; windex advanced but size not yet. */
  datatype Producer = Idle | HasSpace(pic: nat) | AwaitsAlloc(pic: nat) | Written(pic: nat) | Advanced

  /** The display thread: idle; a picture seen, which may be displayed now or later; rindex
      advanced but size not yet. */
  datatype Consumer = Resting | Showing | Released

  /** entered and left record the pictures in the order they were written and let go. */
  datatype State = State(size: int, rindex: nat, windex: nat, slots: seq<nat>, prod: Producer, cons: Consumer,
                         entered: seq<nat>, left: seq<nat>)

  datatype Step =
    | SeeSpace(pic: nat) | RequestAlloc | Alloc(bitmap: nat) | Write | AdvanceWrite | PublishWrite | GiveUp
    | SeePicture | Postpone | AdvanceRead | PublishRead

  /** The increment with its wrap. */
  function Next(i: nat, cap: nat): nat {
    if i + 1 == cap then 0 else i + 1
  }

  predicate Enabled(s: State, cap: nat, step: Step) {
    match step
    case SeeSpace(_) => s.prod.Idle? && s.size < cap
    case RequestAlloc => s.prod.HasSpace?
    case Alloc(_) => s.prod.AwaitsAlloc? && s.cons.Resting?
    case Write => s.prod.HasSpace?
    case AdvanceWrite => s.prod.Written?
    case PublishWrite => s.prod.Advanced?
    case GiveUp => s.prod.HasSpace? || s.prod.AwaitsAlloc?
    case SeePicture => s.cons.Resting? && s.size != 0
    case Postpone => s.cons.Showing?
    case AdvanceRead => s.cons.Showing?
    case PublishRead => s.cons.Released?
  }

  function Apply(s: State, cap: nat, step: Step): State
    requires Enabled(s, cap, step) && s.rindex < cap && s.windex < cap && |s.slots| == cap
  {
    match step
    case SeeSpace(pic) => s.(prod := HasSpace(pic))
    case RequestAlloc => s.(prod := AwaitsAlloc(s.prod.pic))
    case Alloc(bitmap) => s.(slots := s.slots[s.windex := bitmap], prod := HasSpace(s.prod.pic))
    case Write => s.(slots := s.slots[s.windex := s.prod.pic], prod := Written(s.prod.pic))
    case AdvanceWrite => s.(windex := Next(s.windex, cap), prod := Advanced, entered := s.entered + [s.prod.pic])
    case PublishWrite => s.(size := s.size + 1, prod := Idle)
    case GiveUp => s.(prod := Idle)
    case SeePicture => s.(cons := Showing)
    case Postpone => s.(cons := Resting)
    case AdvanceRead => s.(rindex := Next(s.rindex, cap), cons := Released, left := s.left + [s.slots[s.rindex]])
    case PublishRead => s.(size := s.size - 1, cons := Resting)
  }

  function Init(cap: nat): State {
    State(0, 0, 0, seq(cap, _ => 0), Idle, Resting, [], [])
  }

  // ---------- The invariant ----------

  /** Index i moved forward by k slots, k at most one round. */
  function Forward(i: nat, k: int, cap: nat): int {
    if i + k < cap then i + k else i + k - cap
  }

  /** Pictures in the ring: the published size, less a slot that is already let go, plus
      one that is written but not yet published. */
  function Filled(s: State): int {
    s.size - (if s.cons.Released? then 1 else 0) + (if s.prod.Advanced? then 1 else 0)
  }

  /** The slot the producer owns: it may be writing or waiting for its allocation. */
  predicate Producing(s: State) {
    s.prod.HasSpace? || s.prod.AwaitsAlloc? || s.prod.Written?
  }

  ghost predicate Inv(s: State, cap: nat) {
    && s.rindex < cap && s.windex < cap && |s.slots| == cap
    && 0 <= s.size <= cap
    && (s.cons.Resting? || s.size >= 1)
    && (Producing(s) || s.prod.Advanced? ==> s.size < cap)
    && (s.prod.Written? ==> s.slots[s.windex] == s.prod.pic)
    && s.windex == Forward(s.rindex, Filled(s), cap)
    && |s.entered| == |s.left| + Filled(s)
    && s.entered[..|s.left|] == s.left
    && forall k :: 0 <= k < Filled(s) ==> InSlot(s, cap, k)
  }

  /** The k-th picture not yet let go is in the k-th slot from rindex. */
  ghost predicate InSlot(s: State, cap: nat, k: nat)
    requires s.rindex < cap && |s.slots| == cap && k < cap && |s.left| + k < |s.entered|
  {
    s.slots[Forward(s.rindex, k, cap)] == s.entered[|s.left| + k]
  }

  lemma InitIsGood(cap: nat)
    requires cap >= 1
    ensures Inv(Init(cap), cap)
  {
  }

  lemma StepKeepsInv(s: State, cap: nat, step: Step)
    requires cap >= 1 && Inv(s, cap) && Enabled(s, cap, step)
    ensures Inv(Apply(s, cap, step), cap)
  {
    match step {
      case AdvanceRead => AfterAdvanceRead(s, cap);
      case AdvanceWrite => AfterAdvanceWrite(s, cap);
      case Alloc(bitmap) => AfterSlotWrite(s, Apply(s, cap, step), cap, bitmap);
      case Write => AfterSlotWrite(s, Apply(s, cap, step), cap, s.prod.pic);
      case _ => SameContents(s, Apply(s, cap, step), cap);
    }
  }

  lemma AfterAdvanceRead(s: State, cap: nat)
    requires cap >= 1 && Inv(s, cap) && s.cons.Showing?
    ensures Inv(Apply(s, cap, AdvanceRead), cap)
  {
    var t := Apply(s, cap, AdvanceRead);
    assert InSlot(s, cap, 0);
    forall k | 0 <= k < Filled(t)
      ensures InSlot(t, cap, k)
    {
      assert InSlot(s, cap, k + 1);
    }
  }

  lemma AfterAdvanceWrite(s: State, cap: nat)
    requires cap >= 1 && Inv(s, cap) && s.prod.Written?
    ensures Inv(Apply(s, cap, AdvanceWrite), cap)
  {
    var t := Apply(s, cap, AdvanceWrite);
    forall k | 0 <= k < Filled(t)
      ensures InSlot(t, cap, k)
    {
      if k < Filled(s) { assert InSlot(s, cap, k); }
    }
  }

  /** The slot at windex holds no picture that is in the ring. */
  lemma AfterSlotWrite(s: State, t: State, cap: nat, v: nat)
    requires cap >= 1 && Inv(s, cap) && (s.prod.AwaitsAlloc? || s.prod.HasSpace?)
    requires t == s.(slots := s.slots[s.windex := v], prod := HasSpace(s.prod.pic)) ||
             (v == s.prod.pic && t == s.(slots := s.slots[s.windex := v], prod := Written(v)))
    ensures Inv(t, cap)
  {
    forall k | 0 <= k < Filled(t)
      ensures InSlot(t, cap, k)
    {
      assert InSlot(s, cap, k);
    }
  }

  lemma SameContents(s: State, t: State, cap: nat)
    requires Inv(s, cap) && Filled(t) == Filled(s)
    requires t.slots == s.slots && t.entered == s.entered && t.left == s.left
    requires t.rindex == s.rindex && t.windex == s.windex
    requires 0 <= t.size <= cap && (t.cons.Resting? || t.size >= 1)
    requires Producing(t) || t.prod.Advanced? ==> t.size < cap
    requires t.prod.Written? ==> t.prod == s.prod
    ensures Inv(t, cap)
  {
    forall k | 0 <= k < Filled(t)
      ensures InSlot(t, cap, k)
    {
      assert InSlot(s, cap, k);
    }
  }

  // ---------- Runs ----------

  predicate IsRun(s: State, cap: nat, steps: seq<Step>)
    decreases |steps|
  {
    steps == [] ||
    (Enabled(s, cap, steps[0]) && s.rindex < cap && s.windex < cap && |s.slots| == cap &&
     IsRun(Apply(s, cap, steps[0]), cap, steps[1..]))
  }

  function After(s: State, cap: nat, steps: seq<Step>): State
    requires IsRun(s, cap, steps)
    decreases |steps|
  {
    if steps == [] then s else After(Apply(s, cap, steps[0]), cap, steps[1..])
  }

  lemma {:induction false} RunKeepsInv(s: State, cap: nat, steps: seq<Step>)
    requires cap >= 1 && Inv(s, cap) && IsRun(s, cap, steps)
    ensures Inv(After(s, cap, steps), cap)
    decreases |steps|
  {
    if steps != [] {
      StepKeepsInv(s, cap, steps[0]);
      RunKeepsInv(Apply(s, cap, steps[0]), cap, steps[1..]);
    }
  }

  /** Under every interleaving and for every capacity: the index law, the bounds of the
      size, a slot being written or allocated is never the one being displayed nor the one
      after it that the display thread peeks at, and pictures leave in the order they
      entered. */
  lemma RingIsSafe(cap: nat, steps: seq<Step>)
    requires cap >= 1 && IsRun(Init(cap), cap, steps)
    ensures var s := After(Init(cap), cap, steps);
      && s.rindex < cap && s.windex < cap && |s.slots| == cap
      && 0 <= s.size <= cap
      && s.windex == (s.rindex + Filled(s)) % cap
      && |s.entered| == |s.left| + Filled(s)
      && (Producing(s) && s.cons.Showing? ==> s.windex != s.rindex)
      && (Producing(s) && s.cons.Showing? && s.size > 1 ==> s.windex != Next(s.rindex, cap))
      && (s.cons.Showing? ==> |s.left| < |s.entered| && s.slots[s.rindex] == s.entered[|s.left|])
      && s.left <= s.entered
  {
    InitIsGood(cap);
    RunKeepsInv(Init(cap), cap, steps);
    var s := After(Init(cap), cap, steps);
    ForwardIsModulo(s.rindex, Filled(s), cap);
    if s.cons.Showing? { assert InSlot(s, cap, 0); }
  }

  /** While a picture is displayed, the slot to write next is another one exactly if the
      published size leaves space: the check before writing is necessary and sufficient. */
  lemma SpaceCheckIsExact(s: State, cap: nat)
    requires cap >= 1 && Inv(s, cap) && s.prod.Idle? && s.cons.Showing?
    ensures s.windex != s.rindex <==> s.size < cap
  {
  }

  /** A run with one more step in front. */
  lemma StepFirst(s: State, cap: nat, step: Step, rest: seq<Step>)
    requires s.rindex < cap && s.windex < cap && |s.slots| == cap
    requires Enabled(s, cap, step) && IsRun(Apply(s, cap, step), cap, rest)
    ensures IsRun(s, cap, [step] + rest) && After(s, cap, [step] + rest) == After(Apply(s, cap, step), cap, rest)
  {
    assert ([step] + rest)[1..] == rest;
  }

  /** Whenever the published size leaves space, the decoder thread alone can bring a picture
      into the ring, where it is the last, and the size tells of it. */
  lemma PictureGoesIn(s: State, cap: nat, pic: nat)
    requires cap >= 1 && Inv(s, cap) && s.prod.Idle? && s.size < cap
    ensures var steps := [SeeSpace(pic)] + ([Write] + ([AdvanceWrite] + ([PublishWrite] + [])));
      && IsRun(s, cap, steps)
      && var t := After(s, cap, steps);
         t.prod == Idle && t.size == s.size + 1 && t.entered == s.entered + [pic] && t.left == s.left
  {
    var s1 := Apply(s, cap, SeeSpace(pic));
    var s2 := Apply(s1, cap, Write);
    var s3 := Apply(s2, cap, AdvanceWrite);
    StepFirst(s3, cap, PublishWrite, []);
    StepFirst(s2, cap, AdvanceWrite, [PublishWrite] + []);
    StepFirst(s1, cap, Write, [AdvanceWrite] + ([PublishWrite] + []));
    StepFirst(s, cap, SeeSpace(pic), [Write] + ([AdvanceWrite] + ([PublishWrite] + [])));
  }

  /** A bitmap that has to be allocated first is allocated whenever the display thread rests,
      and the decoder thread is then where it was; it may give up instead, and then the ring
      is as before. */
  lemma AllocatedOnRequest(s: State, cap: nat, pic: nat, bitmap: nat)
    requires cap >= 1 && Inv(s, cap) && s.prod == HasSpace(pic) && s.cons.Resting?
    ensures var steps := [RequestAlloc] + ([Alloc(bitmap)] + []);
      IsRun(s, cap, steps) && After(s, cap, steps) == s.(slots := s.slots[s.windex := bitmap])
    ensures var steps := [RequestAlloc] + ([GiveUp] + []);
      IsRun(s, cap, steps) && After(s, cap, steps) == s.(prod := Idle)
    ensures IsRun(s, cap, [GiveUp] + []) && After(s, cap, [GiveUp] + []) == s.(prod := Idle)
  {
    var s1 := Apply(s, cap, RequestAlloc);
    StepFirst(s1, cap, Alloc(bitmap), []);
    StepFirst(s, cap, RequestAlloc, [Alloc(bitmap)] + []);
    StepFirst(s1, cap, GiveUp, []);
    StepFirst(s, cap, RequestAlloc, [GiveUp] + []);
    StepFirst(s, cap, GiveUp, []);
  }

  /** A picture that is not shown yet is seen again. */
  lemma PostponedIsSeenAgain(s: State, cap: nat)
    requires cap >= 1 && Inv(s, cap) && s.cons.Showing?
    ensures var steps := [Postpone] + ([SeePicture] + []); IsRun(s, cap, steps) && After(s, cap, steps) == s
    ensures IsRun(s, cap, [Postpone] + []) && After(s, cap, [Postpone] + []) == s.(cons := Resting)
  {
    var s1 := Apply(s, cap, Postpone);
    StepFirst(s1, cap, SeePicture, []);
    StepFirst(s, cap, Postpone, [SeePicture] + []);
    StepFirst(s, cap, Postpone, []);
  }

  /** Whenever the published size is not 0, the display thread alone can show and let go a
      picture: the first one that entered and has not left. */
  lemma PictureComesOut(s: State, cap: nat)
    requires cap >= 1 && Inv(s, cap) && s.cons.Resting? && s.size != 0
    ensures var steps := [SeePicture] + ([AdvanceRead] + ([PublishRead] + []));
      && IsRun(s, cap, steps) && |s.left| < |s.entered|
      && var t := After(s, cap, steps);
         t.cons == Resting && t.size == s.size - 1 && t.entered == s.entered
         && t.left == s.left + [s.entered[|s.left|]]
  {
    assert InSlot(s, cap, 0);
    var s1 := Apply(s, cap, SeePicture);
    var s2 := Apply(s1, cap, AdvanceRead);
    StepFirst(s2, cap, PublishRead, []);
    StepFirst(s1, cap, AdvanceRead, [PublishRead] + []);
    StepFirst(s, cap, SeePicture, [AdvanceRead] + ([PublishRead] + []));
  }

  /** The two threads never wait for each other for good: besides giving up a picture or
      showing one later, there is always a step that one of them can take. */
  lemma NeverBothWait(s: State, cap: nat)
    requires cap >= 1 && Inv(s, cap)
    ensures exists step :: Enabled(s, cap, step) && !step.GiveUp? && !step.Postpone?
  {
    var step := if s.cons.Showing? then AdvanceRead else if s.cons.Released? then PublishRead
                else if s.size != 0 then SeePicture else match s.prod
                  case Idle => SeeSpace(0)
                  case HasSpace(_) => Write
                  case AwaitsAlloc(_) => Alloc(0)
                  case Written(_) => AdvanceWrite
                  case Advanced => PublishWrite;
    assert Enabled(s, cap, step);
  }

  lemma ForwardIsModulo(i: nat, k: nat, cap: nat)
    requires i < cap && k <= cap
    ensures Forward(i, k, cap) == (i + k) % cap
  {
    var x := i + k;
    var q := x / cap;
    DivisionSplits(x, cap);
    if x >= cap {
      AtLeast(q, 2, cap);
      AtLeast(0, q, cap);
      assert q == 1;
    } else {
      AtLeast(q, 1, cap);
      assert q == 0;
    }
  }

  lemma DivisionSplits(x: nat, cap: nat)
    requires cap > 0
    ensures x == (x / cap) * cap + x % cap && 0 <= x % cap < cap
  {
  }

  lemma AtLeast(a: int, b: int, cap: nat)
    ensures a >= b ==> a * cap >= b * cap
  {
    if a >= b { assert (a - b) * cap >= 0; }
  }
}
