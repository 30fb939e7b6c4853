/**
 What callers of `getDefault` may rely on when the flag starts at 1: once-only
 creation, agreement of all results, and progress of the nested protocol.
 */
module LazyDefaultGuarantees {
  import opened Common
  import opened OpenCL
  import opened LazyDefault
  import opened Measure

  // ---------------------------------------------------------- once-only publication

  /** `err` is what the caller's error pointer received, if there was one. */
  predicate Agrees(err: Option<int>, o: Outcome) {
    err.Some? ==> err.value == o.error
  }

  /** At most one context is ever made, and every finished call returned it. */
  predicate ContextOnce(s: State) {
    && |s.contextMade| <= 1
    && (forall i :: 0 <= i < |s.calls| && s.calls[i].ContextCall? && s.calls[i].pc.Done? ==>
          && s.context.flag == INITIALIZED
          && |s.contextMade| == 1
          && s.calls[i].pc.handle == s.contextMade[0].handle
          && (s.calls[i].pc.err.Some? <==> s.calls[i].wantsErr)
          && Agrees(s.calls[i].pc.err, s.contextMade[0]))
  }

  /**
   At most one queue is ever made, on the one context and only when that context
   was created without error; otherwise every call reports the context's error
   and a null queue.
   */
  predicate QueueOnce(s: State) {
    && |s.queueMade| <= 1 && |s.builtOn| <= 1
    && (s.queueMade != [] ==>
          && |s.contextMade| == 1
          && (if s.contextMade[0].error == CL_SUCCESS
              then s.builtOn == [s.contextMade[0].handle]
              else s.builtOn == [] && s.queueMade == [Outcome(NULL, s.contextMade[0].error)]))
    && (forall i :: 0 <= i < |s.calls| && s.calls[i].QueueCall? && Finished(s.calls[i]) ==>
          && s.queue.flag == INITIALIZED
          && |s.queueMade| == 1
          && s.calls[i].q.pc.handle == s.queueMade[0].handle
          && (s.calls[i].q.pc.err.Some? <==> s.calls[i].wantsErr)
          && Agrees(s.calls[i].q.pc.err, s.queueMade[0]))
  }

  /** No two calls are inside the same initialising block. */
  predicate Exclusive(calls: seq<Process>) {
    forall i, j :: 0 <= i < |calls| && 0 <= j < |calls| && i != j ==>
      && !(Owner(ContextFrame(calls[i])) && Owner(ContextFrame(calls[j])))
      && !(Owner(QueueFrame(calls[i])) && Owner(QueueFrame(calls[j])))
  }

  /** The error is loaded exactly for callers who passed a pointer; the nested call always does. */
  predicate ErrorWanted(p: Process) {
    match p
    case ContextCall(pc, wantsErr) => LoadedIf(pc, wantsErr)
    case QueueCall(Level(pc), wantsErr) => LoadedIf(pc, wantsErr)
    case QueueCall(Inner(pc), _) => LoadedIf(pc, true)
    case QueueCall(Build(_), _) => true
  }

  predicate LoadedIf(pc: Pc, wantsErr: bool) {
    match pc
    case LoadErr => wantsErr
    case Load(err) => err.Some? == wantsErr
    case Done(_, err) => err.Some? == wantsErr
    case _ => true
  }

  lemma {:induction false} ErrorStep(s: State, step: Step)
    requires step.call < |s.calls| && ErrorWanted(s.calls[step.call])
    ensures var i, s' := step.call, Next(s, step);
            && |s'.calls| == |s.calls| && s'.calls == s.calls[i := s'.calls[i]]
            && ErrorWanted(s'.calls[i]) && s'.calls[i].wantsErr == s.calls[i].wantsErr
  {
  }

  /** From any starting value. */
  lemma {:induction false} ErrorsAsWanted(flag: int, calls: seq<Process>, steps: seq<Step>)
    requires AllUnstarted(calls)
    ensures var s := Run(Start(flag, calls), steps);
            && |s.calls| == |calls|
            && forall i :: 0 <= i < |calls| ==>
                 ErrorWanted(s.calls[i]) && s.calls[i].wantsErr == calls[i].wantsErr
  {
    if steps == [] {
      assert forall i :: 0 <= i < |calls| ==> Unstarted(calls[i]);
    } else {
      var n := |steps| - 1;
      ErrorsAsWanted(flag, calls, steps[..n]);
      if steps[n].call < |calls| {
        ErrorStep(Run(Start(flag, calls), steps[..n]), steps[n]);
      }
    }
  }

  lemma InvMeansOnce(s: State)
    requires Inv(s) && forall i :: 0 <= i < |s.calls| ==> ErrorWanted(s.calls[i])
    ensures ContextOnce(s) && QueueOnce(s) && Exclusive(s.calls)
  {
    var cf, qf := ContextFrames(s.calls), QueueFrames(s.calls);
    forall i | 0 <= i < |s.calls|
      ensures FrameOk(s.context, s.contextMade, ContextFrame(s.calls[i]))
      ensures FrameOk(s.queue, s.queueMade, QueueFrame(s.calls[i]))
    {
      assert FrameOk(s.context, s.contextMade, cf[i]) && FrameOk(s.queue, s.queueMade, qf[i]);
    }
    forall i, j | 0 <= i < |s.calls| && 0 <= j < |s.calls| && i != j
      ensures !(Owner(ContextFrame(s.calls[i])) && Owner(ContextFrame(s.calls[j])))
      ensures !(Owner(QueueFrame(s.calls[i])) && Owner(QueueFrame(s.calls[j])))
    {
      assert Owner(cf[i]) && Owner(cf[j]) ==> i == j;
      assert Owner(qf[i]) && Owner(qf[j]) ==> i == j;
    }
  }

  /** Every interleaving of any number of calls, from the flag value 1. */
  lemma OnceOnly(calls: seq<Process>, steps: seq<Step>)
    requires AllUnstarted(calls)
    ensures var s := Run(Start(NOT_INITIALIZED, calls), steps);
            ContextOnce(s) && QueueOnce(s) && Exclusive(s.calls)
  {
    RunKeepsInv(calls, steps);
    ErrorsAsWanted(NOT_INITIALIZED, calls, steps);
    InvMeansOnce(Run(Start(NOT_INITIALIZED, calls), steps));
  }

  lemma {:induction false} RunSplit(s: State, first: seq<Step>, rest: seq<Step>)
    ensures Run(s, first + rest) == Run(Run(s, first), rest)
  {
    if rest == [] {
      assert first + rest == first;
    } else {
      var k := |rest| - 1;
      assert (first + rest)[..|first| + k] == first + rest[..k];
      RunSplit(s, first, rest[..k]);
    }
  }

  lemma {:induction false} RunSuccessor(s: State, steps: seq<Step>, k: nat)
    requires k < |steps|
    ensures Run(s, steps[..k + 1]) == Next(Run(s, steps[..k]), steps[k])
  {
    assert steps[..k + 1][..k] == steps[..k];
  }

  /** The flags walk 1, 2, 4 without skipping and without turning back. */
  lemma FlagHistory(calls: seq<Process>, steps: seq<Step>, k: nat)
    requires AllUnstarted(calls) && k < |steps|
    ensures var before := Run(Start(NOT_INITIALIZED, calls), steps[..k]);
            var after := Run(Start(NOT_INITIALIZED, calls), steps[..k + 1]);
            && before.context.flag in {NOT_INITIALIZED, BEING_INITIALIZED, INITIALIZED}
            && before.queue.flag in {NOT_INITIALIZED, BEING_INITIALIZED, INITIALIZED}
            && FlagMove(before.context.flag, after.context.flag)
            && FlagMove(before.queue.flag, after.queue.flag)
  {
    RunKeepsInv(calls, steps[..k]);
    RunSuccessor(Start(NOT_INITIALIZED, calls), steps, k);
    NextKeepsInv(Run(Start(NOT_INITIALIZED, calls), steps[..k]), steps[k]);
  }

  /**
   What counts as made is what the driver answered: a context or a queue enters the
   record only as the answer given in that very step, except that a failed context
   stands for a null queue with its error.
   */
  lemma {:induction false} DriverAnswers(calls: seq<Process>, steps: seq<Step>, k: nat)
    requires AllUnstarted(calls) && k < |steps|
    ensures var before := Run(Start(NOT_INITIALIZED, calls), steps[..k]);
            var after := Run(Start(NOT_INITIALIZED, calls), steps[..k + 1]);
            var answer := steps[k].answer;
            && (after.contextMade != before.contextMade ==> after.contextMade == before.contextMade + [answer])
            && (after.builtOn != before.builtOn ==>
                  |after.builtOn| == |before.builtOn| + 1 && after.queueMade == before.queueMade + [answer])
            && (after.builtOn == before.builtOn && after.queueMade != before.queueMade ==>
                  |before.contextMade| == 1
                  && after.queueMade == before.queueMade + [Outcome(NULL, before.contextMade[0].error)])
  {
    var s := Run(Start(NOT_INITIALIZED, calls), steps[..k]);
    RunKeepsInv(calls, steps[..k]);
    RunSuccessor(Start(NOT_INITIALIZED, calls), steps, k);
    var i := steps[k].call;
    if i < |s.calls| {
      assert FrameOk(s.context, s.contextMade, ContextFrames(s.calls)[i]);
    }
  }

  /** Whatever is made, from any starting value, some step's answer is. */
  lemma {:induction false} MadeWasAnswered(s: State, steps: seq<Step>, o: Outcome) returns (k: nat)
    requires o in Run(s, steps).contextMade && o !in s.contextMade
    ensures k < |steps| && steps[k].answer == o
  {
    var n := |steps| - 1;
    if o in Run(s, steps[..n]).contextMade {
      k := MadeWasAnswered(s, steps[..n], o);
    } else {
      k := n;
    }
  }

  /** Every context call returns what the driver answered to some call's request. */
  lemma {:induction false} ReturnsTheAnswer(calls: seq<Process>, steps: seq<Step>, i: nat) returns (k: nat)
    requires AllUnstarted(calls)
    requires var s := Run(Start(NOT_INITIALIZED, calls), steps);
             i < |s.calls| && s.calls[i].ContextCall? && s.calls[i].pc.Done?
    ensures k < |steps|
    ensures var s := Run(Start(NOT_INITIALIZED, calls), steps);
            && s.calls[i].pc.handle == steps[k].answer.handle
            && s.calls[i].pc.err == if s.calls[i].wantsErr then Some(steps[k].answer.error) else None
  {
    var s := Run(Start(NOT_INITIALIZED, calls), steps);
    OnceOnly(calls, steps);
    k := MadeWasAnswered(Start(NOT_INITIALIZED, calls), steps, s.contextMade[0]);
  }

  lemma {:induction false} MadeOnlyGrows(s: State, steps: seq<Step>)
    ensures s.contextMade <= Run(s, steps).contextMade
    ensures s.queueMade <= Run(s, steps).queueMade
  {
    if steps != [] {
      MadeOnlyGrows(s, steps[..|steps| - 1]);
    }
  }

  /** "All calls to this function return the same cl_context as the first": also across time. */
  lemma SameAsTheFirst(calls: seq<Process>, first: seq<Step>, rest: seq<Step>, i: nat, j: nat)
    requires AllUnstarted(calls) && i < |calls| && j < |calls|
    ensures var early := Run(Start(NOT_INITIALIZED, calls), first);
            var late := Run(Start(NOT_INITIALIZED, calls), first + rest);
            && |early.calls| == |late.calls| == |calls|
            && (early.calls[i].ContextCall? && early.calls[i].pc.Done? &&
                late.calls[j].ContextCall? && late.calls[j].pc.Done? ==>
                  early.calls[i].pc.handle == late.calls[j].pc.handle)
            && (early.calls[i].QueueCall? && Finished(early.calls[i]) &&
                late.calls[j].QueueCall? && Finished(late.calls[j]) ==>
                  early.calls[i].q.pc.handle == late.calls[j].q.pc.handle)
  {
    var s := Start(NOT_INITIALIZED, calls);
    RunKeepsInv(calls, first);
    RunKeepsInv(calls, first + rest);
    OnceOnly(calls, first);
    OnceOnly(calls, first + rest);
    RunSplit(s, first, rest);
    MadeOnlyGrows(Run(s, first), rest);
  }

  // ------------------------------------------------------------------ progress

  /** The call is in a spin loop whose condition does not hold yet. */
  predicate Blocked(s: State, i: nat)
    requires i < |s.calls|
  {
    || (ContextFrame(s.calls[i]) == Spin && s.context.flag != INITIALIZED)
    || (QueueFrame(s.calls[i]) == Spin && s.queue.flag != INITIALIZED)
  }

  /** The step does something: its call exists, has not returned and is not spinning. */
  predicate Productive(s: State, step: Step) {
    step.call < |s.calls| && !Finished(s.calls[step.call]) && !Blocked(s, step.call)
  }

  predicate AllFinished(s: State) {
    forall i :: 0 <= i < |s.calls| ==> Finished(s.calls[i])
  }

  /** An upper bound on the productive steps a frame has left. */
  function PcWeight(pc: Pc): nat {
    match pc
    case Idle => 0
    case Cas => 9
    case Create => 8
    case Store(_) => 7
    case StoreErr(_) => 6
    case Publish => 5
    case Spin => 4
    case LoadErr => 3
    case Load(_) => 2
    case Done(_, _) => 1
  }

  function Weight(p: Process): nat {
    match p
    case ContextCall(pc, _) => PcWeight(pc)
    case QueueCall(Level(Cas), _) => 20
    case QueueCall(Level(pc), _) => PcWeight(pc)
    case QueueCall(Inner(pc), _) => 10 + PcWeight(pc)
    case QueueCall(Build(_), _) => 9
  }

  const MAX_STEPS := 20

  function TotalWeight(calls: seq<Process>): nat { Total(Weight, calls) }

  lemma {:induction false} TotalWeightBound(calls: seq<Process>)
    ensures TotalWeight(calls) <= MAX_STEPS * |calls|
  {
    TotalBound(Weight, calls, MAX_STEPS);
  }

  /** The call that takes a productive step moves on; the others stay where they are. */
  lemma {:induction false} CallMovesOn(s: State, step: Step)
    requires Inv(s) && Productive(s, step)
    ensures var i, s' := step.call, Next(s, step);
            && i < |s.calls| && |s'.calls| == |s.calls|
            && s'.calls == s.calls[i := s'.calls[i]] && Weight(s'.calls[i]) < Weight(s.calls[i])
  {
    assert CallOk(s.context, s.calls[step.call]);
  }

  /** A productive step uses up weight; any other step changes nothing at all. */
  lemma {:induction false} StepWeight(s: State, step: Step)
    requires Inv(s)
    ensures if Productive(s, step) then TotalWeight(Next(s, step).calls) < TotalWeight(s.calls)
            else Next(s, step) == s
  {
    if Productive(s, step) {
      CallMovesOn(s, step);
      TotalUpdate(Weight, s.calls, step.call, Next(s, step).calls[step.call]);
    } else if step.call < |s.calls| {
      var s' := Next(s, step);
      assert s'.calls[step.call] == s.calls[step.call];
      assert s'.calls == s.calls;
    }
  }

  /** Whoever spins waits for a call that can move, on either level. */
  lemma {:induction false} SomeoneCanMove(s: State, j: nat) returns (i: nat)
    requires Inv(s) && j < |s.calls| && !Finished(s.calls[j])
    ensures i < |s.calls| && !Finished(s.calls[i]) && !Blocked(s, i)
  {
    var cf, qf := ContextFrames(s.calls), QueueFrames(s.calls);
    i := j;
    if qf[i] == Spin && s.queue.flag != INITIALIZED {
      assert FrameOk(s.queue, s.queueMade, qf[i]);
      i :| 0 <= i < |qf| && Owner(qf[i]);
    }
    if cf[i] == Spin && s.context.flag != INITIALIZED {
      assert FrameOk(s.context, s.contextMade, cf[i]);
      i :| 0 <= i < |cf| && Owner(cf[i]);
      assert CallOk(s.context, s.calls[i]);
    }
  }

  /** No deadlock: in every reachable state with an unfinished call some call can move. */
  lemma {:induction false} NoDeadlock(calls: seq<Process>, steps: seq<Step>, answer: Outcome) returns (step: Step)
    requires AllUnstarted(calls)
    requires !AllFinished(Run(Start(NOT_INITIALIZED, calls), steps))
    ensures Productive(Run(Start(NOT_INITIALIZED, calls), steps), step)
    ensures step.answer == answer
  {
    var s := Run(Start(NOT_INITIALIZED, calls), steps);
    RunKeepsInv(calls, steps);
    var j :| 0 <= j < |s.calls| && !Finished(s.calls[j]);
    var i := SomeoneCanMove(s, j);
    step := Step(i, answer);
  }

  /** How many steps of the run were productive. */
  function Progress(s: State, steps: seq<Step>): nat {
    if steps == [] then 0
    else
      var k := |steps| - 1;
      Progress(s, steps[..k]) + (if Productive(Run(s, steps[..k]), steps[k]) then 1 else 0)
  }

  /** Whatever the schedule, each call accounts for at most 20 productive steps. */
  lemma {:induction false} BoundedProgress(calls: seq<Process>, steps: seq<Step>)
    requires AllUnstarted(calls)
    ensures Progress(Start(NOT_INITIALIZED, calls), steps) <= MAX_STEPS * |calls|
    ensures Progress(Start(NOT_INITIALIZED, calls), steps)
            + TotalWeight(Run(Start(NOT_INITIALIZED, calls), steps).calls) <= TotalWeight(calls)
  {
    TotalWeightBound(calls);
    if steps != [] {
      var k := |steps| - 1;
      BoundedProgress(calls, steps[..k]);
      RunKeepsInv(calls, steps[..k]);
      StepWeight(Run(Start(NOT_INITIALIZED, calls), steps[..k]), steps[k]);
    }
  }

  lemma RunCons(s: State, step: Step, rest: seq<Step>)
    ensures Run(s, [step] + rest) == Run(Next(s, step), rest)
  {
    assert [step][..0] == [];
    assert Run(s, [step]) == Next(s, step);
    RunSplit(s, [step], rest);
  }

  lemma {:induction false} CompleteFrom(s: State, answer: Outcome) returns (rest: seq<Step>)
    requires Inv(s)
    ensures AllFinished(Run(s, rest)) && |rest| <= TotalWeight(s.calls)
    decreases TotalWeight(s.calls)
  {
    if AllFinished(s) {
      rest := [];
    } else {
      var j :| 0 <= j < |s.calls| && !Finished(s.calls[j]);
      var i := SomeoneCanMove(s, j);
      var step := Step(i, answer);
      NextKeepsInv(s, step);
      StepWeight(s, step);
      var more := CompleteFrom(Next(s, step), answer);
      RunCons(s, step, more);
      rest := [step] + more;
    }
  }

  /** Every run can be continued, within the bound, to one in which all calls return. */
  lemma {:induction false} CanComplete(calls: seq<Process>, steps: seq<Step>, answer: Outcome)
    returns (rest: seq<Step>)
    requires AllUnstarted(calls)
    ensures AllFinished(Run(Start(NOT_INITIALIZED, calls), steps + rest))
    ensures |rest| <= MAX_STEPS * |calls|
  {
    var s := Run(Start(NOT_INITIALIZED, calls), steps);
    RunKeepsInv(calls, steps);
    rest := CompleteFrom(s, answer);
    RunSplit(Start(NOT_INITIALIZED, calls), steps, rest);
    TotalWeightBound(s.calls);
  }
}
