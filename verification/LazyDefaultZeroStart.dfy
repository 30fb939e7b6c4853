/**
 The `std::atomic` build defines the flags without an initialiser, so they start
 at 0 and not at 1, and the compare-and-swap never succeeds.  What is left of the
 guarantee of `getDefault` is decided by how many calls read a flag while it is
 still 0: up to one such look per level everything is as from 1, with two looks
 two objects are made.
 */
module LazyDefaultZeroStart {
  import opened Common
  import opened OpenCL
  import opened LazyDefault
  import opened LazyDefaultGuarantees
  import opened Measure

  const UNINITIALISED_ATOMIC := 0

  /** Any two finished context calls returned the same context and the same error. */
  predicate AllAgree(s: State) {
    forall i, j ::
      0 <= i < |s.calls| && 0 <= j < |s.calls|
      && s.calls[i].ContextCall? && s.calls[i].pc.Done?
      && s.calls[j].ContextCall? && s.calls[j].pc.Done? ==>
        && s.calls[i].pc.handle == s.calls[j].pc.handle
        && (s.calls[i].pc.err.Some? && s.calls[j].pc.err.Some? ==> s.calls[i].pc.err == s.calls[j].pc.err)
  }

  // ------------------------------------------------------- from 0 nobody ever wins

  predicate NeverTaken(s: State) {
    && s.context.flag in {UNINITIALISED_ATOMIC, INITIALIZED}
    && (forall i :: 0 <= i < |s.calls| ==> ContextFrame(s.calls[i]) != Spin)
  }

  /** From 0 the flag never becomes 2, so no call ever waits for another. */
  lemma {:induction false} FromZeroNeverTaken(calls: seq<Process>, steps: seq<Step>)
    requires AllUnstarted(calls)
    ensures NeverTaken(Run(Start(UNINITIALISED_ATOMIC, calls), steps))
  {
    if steps != [] {
      FromZeroNeverTaken(calls, steps[..|steps| - 1]);
    }
  }

  // -------------------------------------------------- looking at a flag that is 0

  predicate LooksAtContext(s: State, step: Step) {
    step.call < |s.calls| && ContextFrame(s.calls[step.call]) == Cas && s.context.flag == UNINITIALISED_ATOMIC
  }

  predicate LooksAtQueue(s: State, step: Step) {
    step.call < |s.calls| && QueueFrame(s.calls[step.call]) == Cas && s.queue.flag == UNINITIALISED_ATOMIC
  }

  /** How many steps of the run read the context's flag before anything was published. */
  function ContextLooks(s: State, steps: seq<Step>): nat {
    if steps == [] then 0
    else
      var k := |steps| - 1;
      ContextLooks(s, steps[..k]) + (if LooksAtContext(Run(s, steps[..k]), steps[k]) then 1 else 0)
  }

  function QueueLooks(s: State, steps: seq<Step>): nat {
    if steps == [] then 0
    else
      var k := |steps| - 1;
      QueueLooks(s, steps[..k]) + (if LooksAtQueue(Run(s, steps[..k]), steps[k]) then 1 else 0)
  }

  predicate FromZero(cell: Cell) { cell.flag in {UNINITIALISED_ATOMIC, INITIALIZED} }

  function AtCreate(pc: Pc): nat { if pc == Create then 1 else 0 }

  /** Objects made, and objects about to be made. */
  function ContextsDue(s: State): nat { |s.contextMade| + Total(AtCreate, ContextFrames(s.calls)) }

  function QueuesDue(s: State): nat { |s.queueMade| + Total(AtCreate, QueueFrames(s.calls)) }

  /** A look at 0 leads into the initialising block, and nothing else does. */
  lemma {:induction false} LookLeadsIn(s: State, step: Step)
    requires FromZero(s.context) && FromZero(s.queue) && step.call < |s.calls|
    ensures var i, s' := step.call, Next(s, step);
            && |s'.calls| == |s.calls| && s'.calls == s.calls[i := s'.calls[i]]
            && |s'.contextMade| + AtCreate(ContextFrame(s'.calls[i])) ==
               |s.contextMade| + AtCreate(ContextFrame(s.calls[i])) + (if LooksAtContext(s, step) then 1 else 0)
            && |s'.queueMade| + AtCreate(QueueFrame(s'.calls[i])) ==
               |s.queueMade| + AtCreate(QueueFrame(s.calls[i])) + (if LooksAtQueue(s, step) then 1 else 0)
  {
  }

  lemma {:induction false} StepCounts(s: State, step: Step)
    requires FromZero(s.context) && FromZero(s.queue)
    ensures ContextsDue(Next(s, step)) == ContextsDue(s) + (if LooksAtContext(s, step) then 1 else 0)
    ensures QueuesDue(Next(s, step)) == QueuesDue(s) + (if LooksAtQueue(s, step) then 1 else 0)
  {
    if step.call < |s.calls| {
      LookLeadsIn(s, step);
      DueUpdate(s.calls, step.call, Next(s, step).calls[step.call]);
    }
  }

  lemma {:induction false} DueUpdate(calls: seq<Process>, i: nat, p: Process)
    requires i < |calls|
    ensures Total(AtCreate, ContextFrames(calls[i := p])) + AtCreate(ContextFrame(calls[i])) ==
            Total(AtCreate, ContextFrames(calls)) + AtCreate(ContextFrame(p))
    ensures Total(AtCreate, QueueFrames(calls[i := p])) + AtCreate(QueueFrame(calls[i])) ==
            Total(AtCreate, QueueFrames(calls)) + AtCreate(QueueFrame(p))
  {
    FramesUpdate(calls, i, p);
    TotalUpdate(AtCreate, ContextFrames(calls), i, ContextFrame(p));
    TotalUpdate(AtCreate, QueueFrames(calls), i, QueueFrame(p));
  }

  lemma {:induction false} StaysFromZero(s: State, step: Step)
    requires FromZero(s.context) && FromZero(s.queue)
    ensures var s' := Next(s, step);
            && FromZero(s'.context) && FromZero(s'.queue)
            && (s.context.flag == INITIALIZED ==> s'.context.flag == INITIALIZED)
            && (s.queue.flag == INITIALIZED ==> s'.queue.flag == INITIALIZED)
  {
  }

  lemma {:induction false} LooksCounted(calls: seq<Process>, steps: seq<Step>)
    requires AllUnstarted(calls)
    ensures var s0 := Start(UNINITIALISED_ATOMIC, calls); var s := Run(s0, steps);
            && FromZero(s.context) && FromZero(s.queue)
            && ContextsDue(s) == ContextLooks(s0, steps) && QueuesDue(s) == QueueLooks(s0, steps)
  {
    if steps == [] {
      TotalBound(AtCreate, ContextFrames(calls), 0);
      TotalBound(AtCreate, QueueFrames(calls), 0);
    } else {
      var k := |steps| - 1;
      LooksCounted(calls, steps[..k]);
      var s := Run(Start(UNINITIALISED_ATOMIC, calls), steps[..k]);
      StaysFromZero(s, steps[k]);
      StepCounts(s, steps[k]);
    }
  }

  // ----------------------------------------------- up to one look: as from 1

  predicate HasOwner(frames: seq<Pc>) { exists i :: 0 <= i < |frames| && Owner(frames[i]) }

  /** The cell a run from 1 would have: 0 stands for 1, and for 2 once somebody initialises. */
  function Lifted(cell: Cell, frames: seq<Pc>): Cell {
    if cell.flag != UNINITIALISED_ATOMIC then cell
    else cell.(flag := if HasOwner(frames) then BEING_INITIALIZED else NOT_INITIALIZED)
  }

  function LiftContext(s: State): State { s.(context := Lifted(s.context, ContextFrames(s.calls))) }

  function LiftQueue(s: State): State { s.(queue := Lifted(s.queue, QueueFrames(s.calls))) }

  lemma {:induction false} SameOwner(frames: seq<Pc>, i: nat, pc: Pc)
    requires i < |frames| && Owner(frames[i]) == Owner(pc)
    ensures HasOwner(frames[i := pc]) == HasOwner(frames)
  {
    if k :| 0 <= k < |frames| && Owner(frames[k]) {
      assert Owner(frames[i := pc][k]);
    }
    var frames' := frames[i := pc];
    if k :| 0 <= k < |frames'| && Owner(frames'[k]) {
      assert Owner(frames[k]);
    }
  }

  /** A step of the protocol from 0 is a step from 1, unless it is a look past an owner. */
  lemma {:induction false} AdvanceAlike(cell: Cell, frames: seq<Pc>, i: nat, wantsErr: bool)
    requires FromZero(cell) && i < |frames|
    requires frames[i] == Cas && cell.flag == UNINITIALISED_ATOMIC ==> !HasOwner(frames)
    ensures var (cell', pc') := Advance(cell, frames[i], wantsErr);
            Advance(Lifted(cell, frames), frames[i], wantsErr) == (Lifted(cell', frames[i := pc']), pc')
  {
    var (cell', pc') := Advance(cell, frames[i], wantsErr);
    if Owner(pc') == Owner(frames[i]) {
      SameOwner(frames, i, pc');
    } else if frames[i] == Cas {
      assert Owner(frames[i := pc'][i]);
    }
  }

  lemma {:induction false} ContextStepAlike(s: State, i: nat, pc: Pc, wantsErr: bool, answer: Outcome)
    requires FromZero(s.context) && i < |s.calls| && ContextFrame(s.calls[i]) == pc
    requires pc == Cas && s.context.flag == UNINITIALISED_ATOMIC ==> !HasOwner(ContextFrames(s.calls))
    ensures var (s', pc') := ContextStep(s, pc, wantsErr, answer);
            ContextStep(LiftContext(s), pc, wantsErr, answer) ==
            (s'.(context := Lifted(s'.context, ContextFrames(s.calls)[i := pc'])), pc')
  {
    if pc == Create {
      SameOwner(ContextFrames(s.calls), i, Store(answer));
    } else {
      AdvanceAlike(s.context, ContextFrames(s.calls), i, wantsErr);
    }
  }

  lemma {:induction false} ContextAlike(s: State, step: Step)
    requires FromZero(s.context) && (LooksAtContext(s, step) ==> !HasOwner(ContextFrames(s.calls)))
    ensures LiftContext(Next(s, step)) == Next(LiftContext(s), step)
  {
    var i, s' := step.call, Next(s, step);
    if i < |s.calls| {
      FramesUpdate(s.calls, i, s'.calls[i]);
      match s.calls[i]
      case ContextCall(pc, wantsErr) => ContextStepAlike(s, i, pc, wantsErr, step.answer);
      case QueueCall(Inner(Done(_, Some(_))), _) => SameOwner(ContextFrames(s.calls), i, Idle);
      case QueueCall(Inner(pc), _) => ContextStepAlike(s, i, pc, true, step.answer);
      case QueueCall(_, _) => SameOwner(ContextFrames(s.calls), i, ContextFrame(s'.calls[i]));
    }
  }

  lemma {:induction false} QueueAlike(s: State, step: Step)
    requires FromZero(s.queue) && (LooksAtQueue(s, step) ==> !HasOwner(QueueFrames(s.calls)))
    ensures LiftQueue(Next(s, step)) == Next(LiftQueue(s), step)
  {
    var i, s' := step.call, Next(s, step);
    if i < |s.calls| {
      var qf, pc' := QueueFrames(s.calls), QueueFrame(s'.calls[i]);
      FramesUpdate(s.calls, i, s'.calls[i]);
      match s.calls[i]
      case QueueCall(Level(pc), wantsErr) => AdvanceAlike(s.queue, qf, i, wantsErr);
      case _ => SameOwner(qf, i, pc');
    }
  }

  /** While nobody has looked, nobody is in the initialising block. */
  lemma {:induction false} NoOwnerYet(cell: Cell, made: seq<Outcome>, frames: seq<Pc>)
    requires LevelInv(Lifted(cell, frames), made, frames) && |made| + Total(AtCreate, frames) == 0
    ensures !HasOwner(frames)
  {
    if i :| 0 <= i < |frames| && Owner(frames[i]) {
      assert FrameOk(Lifted(cell, frames), made, frames[i]);
      AtCreateCounts(frames, i);
      assert false;
    }
  }

  lemma {:induction false} AtCreateCounts(frames: seq<Pc>, i: nat)
    requires i < |frames| && frames[i] == Create
    ensures Total(AtCreate, frames) > 0
  {
    if i > 0 {
      AtCreateCounts(frames[1..], i - 1);
    }
  }

  /** The context level keeps its invariant whatever the queue level does. */
  lemma ContextLevelKept(s: State, step: Step)
    requires LevelInv(s.context, s.contextMade, ContextFrames(s.calls))
    ensures var s' := Next(s, step);
            && LevelInv(s'.context, s'.contextMade, ContextFrames(s'.calls))
            && ContextMove(s.context, s'.context)
            && (s.context.flag == INITIALIZED ==> s'.contextMade == s.contextMade)
  {
    var i := step.call;
    if i < |s.calls| {
      var s' := Next(s, step);
      var cf := ContextFrames(s.calls);
      FramesUpdate(s.calls, i, s'.calls[i]);
      assert FrameOk(s.context, s.contextMade, cf[i]);
      match s.calls[i]
      case ContextCall(pc, wantsErr) => ContextStepKeeps(s, i, pc, wantsErr, step.answer);
      case QueueCall(Inner(Done(_, Some(_))), _) => SwitchKeepsLevel(s.context, s.contextMade, cf, i, Idle);
      case QueueCall(Inner(pc), _) => ContextStepKeeps(s, i, pc, true, step.answer);
      case QueueCall(_, _) =>
        SwitchKeepsLevel(s.context, s.contextMade, cf, i, ContextFrame(s'.calls[i]));
    }
  }

  lemma {:induction false} NobodyOwnsAtStart(calls: seq<Process>)
    requires AllUnstarted(calls)
    ensures !HasOwner(ContextFrames(calls)) && !HasOwner(QueueFrames(calls))
  {
    forall i | 0 <= i < |calls| ensures !Owner(ContextFrame(calls[i])) && !Owner(QueueFrame(calls[i])) {
      assert Unstarted(calls[i]);
    }
  }

  /** With at most one look the context level is in the state of a run from 1. */
  lemma {:induction false} ContextLevelFromZero(calls: seq<Process>, steps: seq<Step>)
    requires AllUnstarted(calls) && ContextLooks(Start(UNINITIALISED_ATOMIC, calls), steps) <= 1
    ensures var s := LiftContext(Run(Start(UNINITIALISED_ATOMIC, calls), steps));
            LevelInv(s.context, s.contextMade, ContextFrames(s.calls))
  {
    if steps == [] {
      NobodyOwnsAtStart(calls);
      StartInv(calls);
    } else {
      var k := |steps| - 1;
      var s := Run(Start(UNINITIALISED_ATOMIC, calls), steps[..k]);
      ContextLevelFromZero(calls, steps[..k]);
      LooksCounted(calls, steps[..k]);
      if LooksAtContext(s, steps[k]) {
        NoOwnerYet(s.context, s.contextMade, ContextFrames(s.calls));
      }
      ContextAlike(s, steps[k]);
      ContextLevelKept(LiftContext(s), steps[k]);
    }
  }

  /**
   With at most one look per level, a run from 0 is step by step the run from 1:
   all guarantees of that build hold.
   */
  lemma {:induction false} AsFromOne(calls: seq<Process>, steps: seq<Step>)
    requires AllUnstarted(calls)
    requires ContextLooks(Start(UNINITIALISED_ATOMIC, calls), steps) <= 1
    requires QueueLooks(Start(UNINITIALISED_ATOMIC, calls), steps) <= 1
    ensures LiftQueue(LiftContext(Run(Start(UNINITIALISED_ATOMIC, calls), steps))) ==
            Run(Start(NOT_INITIALIZED, calls), steps)
  {
    if steps == [] {
      NobodyOwnsAtStart(calls);
    } else {
      var k := |steps| - 1;
      var s := Run(Start(UNINITIALISED_ATOMIC, calls), steps[..k]);
      AsFromOne(calls, steps[..k]);
      RunKeepsInv(calls, steps[..k]);
      LooksCounted(calls, steps[..k]);
      if LooksAtContext(s, steps[k]) {
        NoOwnerYet(s.context, s.contextMade, ContextFrames(s.calls));
      }
      if LooksAtQueue(s, steps[k]) {
        NoOwnerYet(s.queue, s.queueMade, QueueFrames(s.calls));
      }
      ContextAlike(s, steps[k]);
      QueueAlike(LiftContext(s), steps[k]);
    }
  }

  lemma {:induction false} ContextLevelOnce(s: State)
    requires LevelInv(LiftContext(s).context, s.contextMade, ContextFrames(s.calls))
    requires forall i :: 0 <= i < |s.calls| ==> ErrorWanted(s.calls[i])
    ensures ContextOnce(s)
  {
    forall i | 0 <= i < |s.calls|
      ensures FrameOk(LiftContext(s).context, s.contextMade, ContextFrame(s.calls[i]))
    {
      assert FrameOk(LiftContext(s).context, s.contextMade, ContextFrames(s.calls)[i]);
    }
  }

  /** At most one look keeps the promise, in every state of the run. */
  lemma {:induction false} OneLookIsEnough(calls: seq<Process>, steps: seq<Step>)
    requires AllUnstarted(calls)
    ensures var s0 := Start(UNINITIALISED_ATOMIC, calls); var s := Run(s0, steps);
            && (ContextLooks(s0, steps) <= 1 ==> ContextOnce(s))
            && (ContextLooks(s0, steps) <= 1 && QueueLooks(s0, steps) <= 1 ==> QueueOnce(s) && Exclusive(s.calls))
  {
    var s0 := Start(UNINITIALISED_ATOMIC, calls);
    if ContextLooks(s0, steps) <= 1 {
      ContextLevelFromZero(calls, steps);
      ErrorsAsWanted(UNINITIALISED_ATOMIC, calls, steps);
      ContextLevelOnce(Run(s0, steps));
      if QueueLooks(s0, steps) <= 1 {
        AsFromOne(calls, steps);
        OnceOnly(calls, steps);
      }
    }
  }

  /**
   The exact condition for the build that starts at 0: when all calls have
   returned, the promise was kept exactly if at most one call looked at the flag
   while it was 0; for both levels together, at most one at each.
   */
  lemma {:induction false} FromZeroOnceIff(calls: seq<Process>, steps: seq<Step>)
    requires AllUnstarted(calls) && AllFinished(Run(Start(UNINITIALISED_ATOMIC, calls), steps))
    ensures var s0 := Start(UNINITIALISED_ATOMIC, calls); var s := Run(s0, steps);
            && (ContextOnce(s) <==> ContextLooks(s0, steps) <= 1)
            && (ContextOnce(s) && QueueOnce(s) <==> ContextLooks(s0, steps) <= 1 && QueueLooks(s0, steps) <= 1)
  {
    var s := Run(Start(UNINITIALISED_ATOMIC, calls), steps);
    OneLookIsEnough(calls, steps);
    LooksCounted(calls, steps);
    forall i | 0 <= i < |s.calls| ensures ContextFrame(s.calls[i]) != Create && QueueFrame(s.calls[i]) != Create {
      assert Finished(s.calls[i]);
    }
    TotalBound(AtCreate, ContextFrames(s.calls), 0);
    TotalBound(AtCreate, QueueFrames(s.calls), 0);
  }

  // ----------------------------------------- the first call returns before any other begins

  predicate MayLookAtContext(p: Process) {
    ContextFrame(p) == Cas || (p.QueueCall? && (p.q == Level(Cas) || p.q == Level(Create)))
  }

  /** A look uses up the right to look, which no step gives back. */
  lemma {:induction false} LookIsSpent(s: State, step: Step)
    requires FromZero(s.context) && FromZero(s.queue) && step.call < |s.calls|
    ensures var p, p' := s.calls[step.call], Next(s, step).calls[step.call];
            && p'.QueueCall? == p.QueueCall?
            && (LooksAtContext(s, step) ==> MayLookAtContext(p) && !MayLookAtContext(p'))
            && (MayLookAtContext(p') ==> MayLookAtContext(p))
            && (LooksAtQueue(s, step) ==> QueueFrame(p) == Cas && QueueFrame(p') != Cas)
            && (QueueFrame(p') == Cas ==> QueueFrame(p) == Cas)
  {
  }

  /** A call looks at each flag at most once. */
  lemma {:induction false} SoloLooks(calls: seq<Process>, p: nat, first: seq<Step>)
    requires AllUnstarted(calls) && p < |calls| && forall k :: 0 <= k < |first| ==> first[k].call == p
    ensures var s0 := Start(UNINITIALISED_ATOMIC, calls); var s := Run(s0, first);
            && |s.calls| == |calls| && s.calls[p].QueueCall? == calls[p].QueueCall?
            && ContextLooks(s0, first) + (if MayLookAtContext(s.calls[p]) then 1 else 0) <= 1
            && QueueLooks(s0, first) + (if QueueFrame(s.calls[p]) == Cas then 1 else 0) <= 1
  {
    if first != [] {
      var k := |first| - 1;
      SoloLooks(calls, p, first[..k]);
      LooksCounted(calls, first[..k]);
      LookIsSpent(Run(Start(UNINITIALISED_ATOMIC, calls), first[..k]), first[k]);
    }
  }

  lemma {:induction false} LooksSplit(s: State, first: seq<Step>, rest: seq<Step>)
    ensures ContextLooks(s, first + rest) == ContextLooks(s, first) + ContextLooks(Run(s, first), rest)
    ensures QueueLooks(s, first + rest) == QueueLooks(s, first) + QueueLooks(Run(s, first), rest)
  {
    if rest == [] {
      assert first + rest == first;
    } else {
      var k := |rest| - 1;
      assert (first + rest)[..|first| + k] == first + rest[..k];
      LooksSplit(s, first, rest[..k]);
      RunSplit(s, first, rest[..k]);
    }
  }

  /** Nobody looks at 0 after publication. */
  lemma {:induction false} NoMoreLooks(s: State, rest: seq<Step>)
    requires FromZero(s.context) && FromZero(s.queue)
    ensures FromZero(Run(s, rest).context) && FromZero(Run(s, rest).queue)
    ensures s.context.flag == INITIALIZED ==> ContextLooks(s, rest) == 0 && Run(s, rest).context.flag == INITIALIZED
    ensures s.queue.flag == INITIALIZED ==> QueueLooks(s, rest) == 0 && Run(s, rest).queue.flag == INITIALIZED
  {
    if rest != [] {
      NoMoreLooks(s, rest[..|rest| - 1]);
      StaysFromZero(Run(s, rest[..|rest| - 1]), rest[|rest| - 1]);
    }
  }

  /** A call that has returned has published its object, and a queue call the context too. */
  lemma {:induction false} ReturnedMeansPublished(s: State, p: nat)
    requires Inv(s) && p < |s.calls| && Finished(s.calls[p])
    ensures s.context.flag == INITIALIZED
    ensures s.calls[p].QueueCall? ==> s.queue.flag == INITIALIZED
  {
    assert FrameOk(s.context, s.contextMade, ContextFrames(s.calls)[p]);
    assert FrameOk(s.queue, s.queueMade, QueueFrames(s.calls)[p]);
  }

  /**
   If the first call returns before any other begins, the guarantee of its function
   holds from 0 too; a queue call settles both levels.
   */
  lemma {:induction false} SequentialStart(calls: seq<Process>, p: nat, first: seq<Step>, rest: seq<Step>)
    requires AllUnstarted(calls) && p < |calls| && forall k :: 0 <= k < |first| ==> first[k].call == p
    requires var s := Run(Start(UNINITIALISED_ATOMIC, calls), first); p < |s.calls| && Finished(s.calls[p])
    ensures var s := Run(Start(UNINITIALISED_ATOMIC, calls), first + rest);
            && ContextOnce(s) && AllAgree(s) && |s.contextMade| == 1
            && (calls[p].QueueCall? ==> QueueOnce(s) && |s.queueMade| == 1)
  {
    var s0 := Start(UNINITIALISED_ATOMIC, calls);
    var s1 := Run(s0, first);
    SoloLooks(calls, p, first);
    LooksCounted(calls, first);
    AsFromOne(calls, first);
    RunKeepsInv(calls, first);
    ReturnedMeansPublished(LiftQueue(LiftContext(s1)), p);
    NoMoreLooks(s1, rest);
    LooksSplit(s0, first, rest);
    RunSplit(s0, first, rest);
    MadeOnlyGrows(s1, rest);
    OneLookIsEnough(calls, first + rest);
  }

  // ------------------------------------------------------------ two overlapping calls

  function TwoCalls(): seq<Process> { [ContextCall(Cas, false), ContextCall(Cas, false)] }

  const CONTEXT_A := Outcome(1, CL_SUCCESS)
  const CONTEXT_B := Outcome(2, CL_SUCCESS)

  /** Call `i` creates, stores, stores the error, publishes and loads, undisturbed. */
  function ToTheEnd(i: nat, o: Outcome): seq<Step> {
    var a := Step(i, o);
    [a, a, a, a, a]
  }

  lemma RunFive(s: State, steps: seq<Step>)
    requires |steps| == 5
    ensures Run(s, steps) == Next(Next(Next(Next(Next(s, steps[0]), steps[1]), steps[2]), steps[3]), steps[4])
  {
    RunSuccessor(s, steps, 0);
    RunSuccessor(s, steps, 1);
    RunSuccessor(s, steps, 2);
    RunSuccessor(s, steps, 3);
    RunSuccessor(s, steps, 4);
    assert steps[..5] == steps;
  }

  lemma CreateAndStore(s: State, i: nat, o: Outcome)
    requires i < |s.calls| && s.calls[i] == ContextCall(Create, false)
    ensures Next(Next(s, Step(i, o)), Step(i, o)) ==
            s.(context := s.context.(value := o.handle), contextMade := s.contextMade + [o],
               calls := s.calls[i := ContextCall(StoreErr(o.error), false)])
  {
    var s1 := Next(s, Step(i, o));
    assert s1.calls[i] == ContextCall(Store(o), false);
    assert Next(s1, Step(i, o)).calls == s.calls[i := ContextCall(StoreErr(o.error), false)];
  }

  lemma PublishAndLoad(s: State, i: nat, o: Outcome)
    requires i < |s.calls| && s.calls[i] == ContextCall(StoreErr(o.error), false)
    ensures Next(Next(Next(s, Step(i, o)), Step(i, o)), Step(i, o)) ==
            s.(context := Cell(INITIALIZED, s.context.value, o.error),
               calls := s.calls[i := ContextCall(Done(s.context.value, None), false)])
  {
    var s1 := Next(s, Step(i, o));
    assert s1.calls[i] == ContextCall(Publish, false);
    var s2 := Next(s1, Step(i, o));
    assert s2.calls[i] == ContextCall(Load(None), false);
    assert s2.calls == s.calls[i := ContextCall(Load(None), false)];
    assert Next(s2, Step(i, o)).calls == s.calls[i := ContextCall(Done(s.context.value, None), false)];
  }

  lemma RunToTheEnd(s: State, i: nat, o: Outcome)
    requires i < |s.calls| && s.calls[i] == ContextCall(Create, false)
    ensures Run(s, ToTheEnd(i, o)) ==
            s.(context := Cell(INITIALIZED, o.handle, o.error), contextMade := s.contextMade + [o],
               calls := s.calls[i := ContextCall(Done(o.handle, None), false)])
  {
    RunFive(s, ToTheEnd(i, o));
    CreateAndStore(s, i, o);
    var s2 := s.(context := s.context.(value := o.handle), contextMade := s.contextMade + [o],
                 calls := s.calls[i := ContextCall(StoreErr(o.error), false)]);
    PublishAndLoad(s2, i, o);
    var done := ContextCall(Done(o.handle, None), false);
    assert s2.calls[i := done] == s.calls[i := done];
  }

  /** Both calls look at the flag; then each runs to its end. */
  function Overlap(): seq<Step> {
    [Step(0, CONTEXT_A), Step(1, CONTEXT_B)] + ToTheEnd(0, CONTEXT_A) + ToTheEnd(1, CONTEXT_B)
  }

  /** The flag reads as neither 1 nor one of the other two states. */
  predicate Unknown(flag: int) {
    flag != NOT_INITIALIZED && !HasBit(flag, BEING_INITIALIZED) && !HasBit(flag, INITIALIZED)
  }

  lemma {:induction false} OverlapDisagrees(flag: int)
    requires Unknown(flag)
    ensures var s := Run(Start(flag, TwoCalls()), Overlap());
            && s.calls == [ContextCall(Done(1, None), false), ContextCall(Done(2, None), false)]
            && s.contextMade == [CONTEXT_A, CONTEXT_B]
  {
    var s0 := Start(flag, TwoCalls());
    var look := [Step(0, CONTEXT_A), Step(1, CONTEXT_B)];
    var s1 := s0.(calls := [ContextCall(Create, false), ContextCall(Create, false)]);
    assert Run(s0, look) == s1 by {
      RunSuccessor(s0, look, 0);
      RunSuccessor(s0, look, 1);
      assert look[..2] == look;
    }
    RunToTheEnd(s1, 0, CONTEXT_A);
    RunSplit(s0, look, ToTheEnd(0, CONTEXT_A));
    var s2 := Run(s0, look + ToTheEnd(0, CONTEXT_A));
    RunToTheEnd(s2, 1, CONTEXT_B);
    RunSplit(s0, look + ToTheEnd(0, CONTEXT_A), ToTheEnd(1, CONTEXT_B));
  }

  // ---------------------------------------------------- which starting values do

  /** From a flag that already reads as initialised or being initialised, nothing is ever made. */
  predicate Dormant(s: State, flag: int) {
    && s.context == s.queue == Cell(flag, NULL, CL_SUCCESS) && s.contextMade == []
    && forall i :: 0 <= i < |s.calls| ==>
         match s.calls[i]
         case ContextCall(pc, _) => DormantPc(pc)
         case QueueCall(Level(pc), _) => DormantPc(pc)
         case _ => false
  }

  predicate DormantPc(pc: Pc) {
    match pc
    case Cas | Spin | LoadErr => true
    case Load(err) => err == None || err == Some(CL_SUCCESS)
    case Done(h, err) => h == NULL && (err == None || err == Some(CL_SUCCESS))
    case _ => false
  }

  lemma {:induction false} DormantStep(s: State, flag: int, step: Step)
    requires Dormant(s, flag) && (HasBit(flag, BEING_INITIALIZED) || HasBit(flag, INITIALIZED))
    ensures Dormant(Next(s, step), flag)
  {
  }

  lemma {:induction false} StaysDormant(flag: int, calls: seq<Process>, steps: seq<Step>)
    requires AllUnstarted(calls) && (HasBit(flag, BEING_INITIALIZED) || HasBit(flag, INITIALIZED))
    ensures Dormant(Run(Start(flag, calls), steps), flag)
  {
    if steps == [] {
      forall i | 0 <= i < |calls| ensures Unstarted(calls[i]) {
      }
    } else {
      StaysDormant(flag, calls, steps[..|steps| - 1]);
      DormantStep(Run(Start(flag, calls), steps[..|steps| - 1]), flag, steps[|steps| - 1]);
    }
  }

  /** Every finished context call of every run returns the same. */
  ghost predicate AlwaysAgree(flag: int) {
    forall calls, steps | AllUnstarted(calls) :: AllAgree(Run(Start(flag, calls), steps))
  }

  /** Some run makes a context. */
  ghost predicate EverMakes(flag: int) {
    exists calls, steps :: AllUnstarted(calls) && Run(Start(flag, calls), steps).contextMade != []
  }

  lemma {:induction false} MakesFromOne()
    ensures EverMakes(NOT_INITIALIZED)
  {
    var s0 := Start(NOT_INITIALIZED, TwoCalls());
    var steps := [Step(0, CONTEXT_A), Step(0, CONTEXT_A)];
    RunSuccessor(s0, steps, 0);
    RunSuccessor(s0, steps, 1);
    assert steps[..2] == steps && steps[..0] == [];
    assert Run(s0, steps).contextMade == [CONTEXT_A];
    assert AllUnstarted(TwoCalls());
  }

  /**
   Of all values the flag could start with, 1 is the only one from which a context
   is made and all callers in all interleavings agree on it: from a value that reads
   as initialised or being initialised none is ever made, from any other value, 0
   among them, two calls can disagree.
   */
  lemma {:induction false} StartDecides(flag: int)
    ensures AlwaysAgree(flag) && EverMakes(flag) <==> flag == NOT_INITIALIZED
    ensures Unknown(flag) ==> !AlwaysAgree(flag)
    ensures !Unknown(flag) && flag != NOT_INITIALIZED ==> AlwaysAgree(flag) && !EverMakes(flag)
  {
    if flag == NOT_INITIALIZED {
      forall calls, steps | AllUnstarted(calls) ensures AllAgree(Run(Start(flag, calls), steps)) {
        OnceOnly(calls, steps);
      }
      MakesFromOne();
    } else if Unknown(flag) {
      OverlapDisagrees(flag);
      assert AllUnstarted(TwoCalls());
      var s := Run(Start(flag, TwoCalls()), Overlap());
      assert s.calls[0].pc.handle != s.calls[1].pc.handle;
      assert !AllAgree(s);
    } else {
      forall calls, steps | AllUnstarted(calls)
        ensures AllAgree(Run(Start(flag, calls), steps)) && Run(Start(flag, calls), steps).contextMade == []
      {
        StaysDormant(flag, calls, steps);
      }
    }
  }
}
