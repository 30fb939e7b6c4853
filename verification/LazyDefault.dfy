/**
 The lazily created default objects of the OpenCL C++ bindings.

 `Context::getDefault` and `CommandQueue::getDefault` run the same
 compare-and-swap / spin / publish protocol on a static flag, value and error;
 the second calls the first from inside its initialising block.  The model is
 an interleaved, sequentially consistent step system: every access to shared
 memory is one step of one call, and a run is any sequence of such steps.
 A thread that makes several calls in turn is a run in which those calls do
 not overlap, so a "process" below is one call.
 */
module LazyDefault {
  import opened Common
  import opened OpenCL

  const NOT_INITIALIZED := 1
  const BEING_INITIALIZED := 2
  const INITIALIZED := 4

  /** What the driver answers when asked to create an object. */
  datatype Outcome = Outcome(handle: Handle, error: int)

  /** The three static members: `default_initialized_`, `default_`, `default_error_`. */
  datatype Cell = Cell(flag: int, value: Handle, error: int)

  /** Where a call stands in the protocol; locals are kept in the constructor. */
  datatype Pc =
    | Idle                                  // not inside this function
    | Cas                                   // about to compare-and-swap the flag
    | Create                                // in the initialising block, nothing made yet
    | Store(made: Outcome)                  // about to assign `default_`
    | StoreErr(code: int)                   // about to assign `default_error_`
    | Publish                               // about to set the flag to INITIALIZED
    | Spin                                  // waiting for the flag
    | LoadErr                               // about to copy `default_error_` to the caller
    | Load(err: Option<int>)                // about to copy `default_`
    | Done(handle: Handle, err: Option<int>)

  datatype QueuePc =
    | Level(pc: Pc)                         // running the queue's own protocol
    | Inner(ctx: Pc)                        // inside the nested `Context::getDefault`
    | Build(from: Handle)                   // about to create the queue on this context

  /** One call; `wantsErr` is false when the caller passed no error pointer. */
  datatype Process =
    | ContextCall(pc: Pc, wantsErr: bool)
    | QueueCall(q: QueuePc, wantsErr: bool)

  /**
   The shared state and the calls.  `contextMade` and `queueMade` list what the
   initialising blocks produced, `builtOn` the contexts on which the driver was
   asked for a queue; nothing in the protocol reads them.
   */
  datatype State = State(
    context: Cell, contextMade: seq<Outcome>,
    queue: Cell, queueMade: seq<Outcome>, builtOn: seq<Handle>,
    calls: seq<Process>)

  /** Process `call` moves; `answer` is the driver's reply should it ask for an object. */
  datatype Step = Step(call: nat, answer: Outcome)

  // ---------------------------------------------------------------- the code

  /** `state & bit`, for a bit that is a power of two. */
  predicate HasBit(state: int, bit: nat)
    requires bit > 0
  {
    (state / bit) % 2 == 1
  }

  function AfterWait(wantsErr: bool): Pc {
    if wantsErr then LoadErr else Load(None)
  }

  /** One step of the protocol proper; `Create` is where the two functions differ. */
  function Advance(cell: Cell, pc: Pc, wantsErr: bool): (Cell, Pc) {
    match pc
    case Cas =>
      var seen := cell.flag;
      var cell' := if seen == NOT_INITIALIZED then cell.(flag := BEING_INITIALIZED) else cell;
      (cell', if HasBit(seen, INITIALIZED) then AfterWait(wantsErr)
      else if HasBit(seen, BEING_INITIALIZED) then Spin
      else Create)
    case Store(o) => (cell.(value := o.handle), StoreErr(o.error))
    case StoreErr(e) => (cell.(error := e), Publish)
    case Publish => (cell.(flag := INITIALIZED), AfterWait(wantsErr))
    case Spin => (cell, if cell.flag == INITIALIZED then AfterWait(wantsErr) else Spin)
    case LoadErr => (cell, Load(Some(cell.error)))
    case Load(err) => (cell, Done(cell.value, err))
    case Idle | Create | Done(_, _) => (cell, pc)
  }

  /** One step of a `Context::getDefault` frame. */
  function ContextStep(s: State, pc: Pc, wantsErr: bool, answer: Outcome): (State, Pc) {
    if pc == Create then
      (s.(contextMade := s.contextMade + [answer]), Store(answer))
    else
      var (cell, pc') := Advance(s.context, pc, wantsErr);
      (s.(context := cell), pc')
  }

  /** One step of a `CommandQueue::getDefault` call, nested call included. */
  function QueueStep(s: State, q: QueuePc, wantsErr: bool, answer: Outcome): (State, QueuePc) {
    match q
    case Level(pc) =>
      var (cell, pc') := Advance(s.queue, pc, wantsErr);
      (s.(queue := cell), if pc' == Create then Inner(Cas) else Level(pc'))
    case Inner(Done(h, Some(error))) =>
      if error != CL_SUCCESS then
        (s.(queueMade := s.queueMade + [Outcome(NULL, error)]), Level(StoreErr(error)))
      else
        (s, Build(h))
    case Inner(pc) =>
      var (s', pc') := ContextStep(s, pc, true, answer);
      (s', Inner(pc'))
    case Build(h) =>
      (s.(queueMade := s.queueMade + [answer], builtOn := s.builtOn + [h]), Level(Store(answer)))
  }

  /** The step of one call; a step of a call that does not exist changes nothing. */
  function Next(s: State, step: Step): State {
    if step.call >= |s.calls| then s
    else
      match s.calls[step.call]
      case ContextCall(pc, wantsErr) =>
        var (s', pc') := ContextStep(s, pc, wantsErr, step.answer);
        s'.(calls := s.calls[step.call := ContextCall(pc', wantsErr)])
      case QueueCall(q, wantsErr) =>
        var (s', q') := QueueStep(s, q, wantsErr, step.answer);
        s'.(calls := s.calls[step.call := QueueCall(q', wantsErr)])
  }

  function Run(s: State, steps: seq<Step>): State {
    if steps == [] then s
    else Next(Run(s, steps[..|steps| - 1]), steps[|steps| - 1])
  }

  predicate Unstarted(p: Process) {
    match p
    case ContextCall(pc, _) => pc == Cas
    case QueueCall(q, _) => q == Level(Cas)
  }

  predicate AllUnstarted(calls: seq<Process>) {
    forall i :: 0 <= i < |calls| ==> Unstarted(calls[i])
  }

  /** Static initialisation: `flag` is 1 in the pre-C++11 build and 0 in the `std::atomic` one. */
  function Start(flag: int, calls: seq<Process>): State {
    var cell := Cell(flag, NULL, CL_SUCCESS);
    State(cell, [], cell, [], [], calls)
  }

  predicate Finished(p: Process) {
    match p
    case ContextCall(pc, _) => pc.Done?
    case QueueCall(q, _) => q.Level? && q.pc.Done?
  }

  // ------------------------------------------- one level of the protocol, abstractly

  /** The part of `p` that runs `Context::getDefault`. */
  function ContextFrame(p: Process): Pc {
    match p
    case ContextCall(pc, _) => pc
    case QueueCall(Inner(pc), _) => pc
    case QueueCall(_, _) => Idle
  }

  /** The part of `p` that runs the protocol of `CommandQueue::getDefault`. */
  function QueueFrame(p: Process): Pc {
    match p
    case ContextCall(_, _) => Idle
    case QueueCall(Level(pc), _) => pc
    case QueueCall(_, _) => Create
  }

  function ContextFrames(calls: seq<Process>): (r: seq<Pc>)
    ensures |r| == |calls| && forall i :: 0 <= i < |r| ==> r[i] == ContextFrame(calls[i])
  {
    seq(|calls|, i requires 0 <= i < |calls| => ContextFrame(calls[i]))
  }

  function QueueFrames(calls: seq<Process>): (r: seq<Pc>)
    ensures |r| == |calls| && forall i :: 0 <= i < |r| ==> r[i] == QueueFrame(calls[i])
  {
    seq(|calls|, i requires 0 <= i < |calls| => QueueFrame(calls[i]))
  }

  /** In the initialising block. */
  predicate Owner(pc: Pc) {
    pc.Create? || pc.Store? || pc.StoreErr? || pc.Publish?
  }

  predicate FrameOk(cell: Cell, made: seq<Outcome>, pc: Pc) {
    match pc
    case Idle | Cas => true
    case Create => cell.flag == BEING_INITIALIZED && made == [] && cell.value == NULL
    case Store(o) => cell.flag == BEING_INITIALIZED && made == [o]
    case StoreErr(e) => cell.flag == BEING_INITIALIZED && made == [Outcome(cell.value, e)]
    case Publish => cell.flag == BEING_INITIALIZED && made == [Outcome(cell.value, cell.error)]
    case Spin => cell.flag in {BEING_INITIALIZED, INITIALIZED}
    case LoadErr => cell.flag == INITIALIZED
    case Load(err) => cell.flag == INITIALIZED && (err.Some? ==> err.value == cell.error)
    case Done(h, err) =>
      cell.flag == INITIALIZED && h == cell.value && (err.Some? ==> err.value == cell.error)
  }

  predicate CellOk(cell: Cell, made: seq<Outcome>) {
    && cell.flag in {NOT_INITIALIZED, BEING_INITIALIZED, INITIALIZED}
    && |made| <= 1
    && (cell.flag == NOT_INITIALIZED ==> made == [] && cell.value == NULL)
    && (cell.flag == INITIALIZED ==> made == [Outcome(cell.value, cell.error)])
  }

  ghost predicate LevelInv(cell: Cell, made: seq<Outcome>, frames: seq<Pc>) {
    && CellOk(cell, made)
    && (forall i :: 0 <= i < |frames| ==> FrameOk(cell, made, frames[i]))
    && (forall i, j :: 0 <= i < |frames| && 0 <= j < |frames| && Owner(frames[i]) && Owner(frames[j]) ==> i == j)
    && (cell.flag == BEING_INITIALIZED ==> exists i :: 0 <= i < |frames| && Owner(frames[i]))
  }

  /** The flag's only moves. */
  predicate FlagMove(before: int, after: int) {
    || before == after
    || (before == NOT_INITIALIZED && after == BEING_INITIALIZED)
    || (before == BEING_INITIALIZED && after == INITIALIZED)
  }

  lemma AdvanceKeepsLevel(cell: Cell, made: seq<Outcome>, frames: seq<Pc>, i: nat, wantsErr: bool)
    requires LevelInv(cell, made, frames) && i < |frames|
    ensures var (cell', pc') := Advance(cell, frames[i], wantsErr);
            && LevelInv(cell', made, frames[i := pc'])
            && FlagMove(cell.flag, cell'.flag)
            && (cell.flag == INITIALIZED ==> cell' == cell)
  {
    var pc := frames[i];
    var (cell', pc') := Advance(cell, pc, wantsErr);
    var frames' := frames[i := pc'];
    assert FrameOk(cell, made, pc);
    if cell'.flag == BEING_INITIALIZED {
      if cell.flag == BEING_INITIALIZED {
        var k :| 0 <= k < |frames| && Owner(frames[k]);
        assert Owner(frames'[k]);
      } else {
        assert Owner(frames'[i]);
      }
    }
    forall j | 0 <= j < |frames'|
      ensures FrameOk(cell', made, frames'[j])
    {
      assert FrameOk(cell, made, frames[j]);
      if j != i && Owner(frames[j]) {
        assert !Owner(pc);
      }
    }
  }

  /** The initialising block produces its object (or, for a queue, learns there will be none). */
  lemma MakeKeepsLevel(cell: Cell, made: seq<Outcome>, frames: seq<Pc>, i: nat, o: Outcome, pc': Pc)
    requires LevelInv(cell, made, frames) && i < |frames| && frames[i] == Create
    requires pc' == Store(o) || (pc' == StoreErr(o.error) && o.handle == NULL)
    ensures LevelInv(cell, made + [o], frames[i := pc'])
  {
    var frames' := frames[i := pc'];
    assert FrameOk(cell, made, frames[i]);
    assert Owner(frames'[i]);
    forall j | 0 <= j < |frames'|
      ensures FrameOk(cell, made + [o], frames'[j])
    {
      assert FrameOk(cell, made, frames[j]);
    }
  }

  /** Entering and leaving the nested call. */
  lemma SwitchKeepsLevel(cell: Cell, made: seq<Outcome>, frames: seq<Pc>, i: nat, pc': Pc)
    requires LevelInv(cell, made, frames) && i < |frames|
    requires frames[i] == Idle || frames[i].Done?
    requires pc' == Idle || pc' == Cas
    ensures LevelInv(cell, made, frames[i := pc'])
  {
    if cell.flag == BEING_INITIALIZED {
      var k :| 0 <= k < |frames| && Owner(frames[k]);
      assert Owner(frames[i := pc'][k]);
    }
  }

  // ------------------------------------------------------- both levels together

  /** What ties a queue call to the context level. */
  predicate CallOk(context: Cell, p: Process) {
    match p
    case ContextCall(pc, _) => pc != Idle
    case QueueCall(Inner(Load(err)), _) => err.Some?
    case QueueCall(Inner(Done(_, err)), _) => err.Some?
    case QueueCall(Inner(pc), _) => pc != Idle
    case QueueCall(Build(h), _) =>
      context.flag == INITIALIZED && h == context.value && context.error == CL_SUCCESS
    case QueueCall(Level(pc), _) => pc != Create && pc != Idle
  }

  predicate CrossOk(s: State) {
    && (forall i :: 0 <= i < |s.calls| ==> CallOk(s.context, s.calls[i]))
    && (s.queueMade != [] ==> s.context.flag == INITIALIZED)
    && (s.queueMade != [] && s.context.error != CL_SUCCESS ==>
          s.queueMade == [Outcome(NULL, s.context.error)])
    && s.builtOn == (if s.queueMade != [] && s.context.error == CL_SUCCESS then [s.context.value] else [])
  }

  ghost predicate Inv(s: State) {
    && LevelInv(s.context, s.contextMade, ContextFrames(s.calls))
    && LevelInv(s.queue, s.queueMade, QueueFrames(s.calls))
    && CrossOk(s)
  }

  lemma StartInv(calls: seq<Process>)
    requires AllUnstarted(calls)
    ensures Inv(Start(NOT_INITIALIZED, calls))
  {
  }

  /** Once published, the context cell never moves again. */
  predicate ContextMove(before: Cell, after: Cell) {
    && FlagMove(before.flag, after.flag)
    && (before.flag == INITIALIZED ==> after == before)
  }

  lemma FramesUpdate(calls: seq<Process>, i: nat, p: Process)
    requires i < |calls|
    ensures ContextFrames(calls[i := p]) == ContextFrames(calls)[i := ContextFrame(p)]
    ensures QueueFrames(calls[i := p]) == QueueFrames(calls)[i := QueueFrame(p)]
  {
  }

  lemma ContextStepKeeps(s: State, i: nat, pc: Pc, wantsErr: bool, answer: Outcome)
    requires LevelInv(s.context, s.contextMade, ContextFrames(s.calls))
    requires i < |s.calls| && ContextFrame(s.calls[i]) == pc
    ensures var (s', pc') := ContextStep(s, pc, wantsErr, answer);
            && LevelInv(s'.context, s'.contextMade, ContextFrames(s.calls)[i := pc'])
            && ContextMove(s.context, s'.context)
            && s' == s.(context := s'.context, contextMade := s'.contextMade)
  {
    if pc == Create {
      MakeKeepsLevel(s.context, s.contextMade, ContextFrames(s.calls), i, answer, Store(answer));
    } else {
      AdvanceKeepsLevel(s.context, s.contextMade, ContextFrames(s.calls), i, wantsErr);
    }
  }

  /** Every other call is still consistent with a context cell that moved forward. */
  lemma CrossKept(s: State, s': State, i: nat)
    requires CrossOk(s) && i < |s.calls| == |s'.calls|
    requires ContextMove(s.context, s'.context)
    requires s'.calls == s.calls[i := s'.calls[i]]
    requires CallOk(s'.context, s'.calls[i])
    requires s'.queueMade == s.queueMade && s'.builtOn == s.builtOn
    ensures CrossOk(s')
  {
    forall j | 0 <= j < |s'.calls|
      ensures CallOk(s'.context, s'.calls[j])
    {
      assert CallOk(s.context, s.calls[j]);
    }
  }

  /** What one step is shown to keep. */
  ghost predicate StepOk(s: State, s': State) {
    && Inv(s')
    && ContextMove(s.context, s'.context)
    && FlagMove(s.queue.flag, s'.queue.flag)
  }

  lemma ContextCallStep(s: State, step: Step)
    requires Inv(s) && step.call < |s.calls| && s.calls[step.call].ContextCall?
    ensures StepOk(s, Next(s, step))
  {
    var i, s' := step.call, Next(s, step);
    FramesUpdate(s.calls, i, s'.calls[i]);
    ContextStepKeeps(s, i, s.calls[i].pc, s.calls[i].wantsErr, step.answer);
    assert QueueFrames(s.calls)[i := Idle] == QueueFrames(s.calls);
    CrossKept(s, s', i);
  }

  lemma QueueLevelStep(s: State, step: Step)
    requires Inv(s) && step.call < |s.calls|
    requires s.calls[step.call].QueueCall? && s.calls[step.call].q.Level?
    ensures StepOk(s, Next(s, step))
  {
    var i, s' := step.call, Next(s, step);
    FramesUpdate(s.calls, i, s'.calls[i]);
    assert CallOk(s.context, s.calls[i]);
    AdvanceKeepsLevel(s.queue, s.queueMade, QueueFrames(s.calls), i, s.calls[i].wantsErr);
    SwitchKeepsLevel(s.context, s.contextMade, ContextFrames(s.calls), i, ContextFrame(s'.calls[i]));
    CrossKept(s, s', i);
  }

  lemma QueueBuildStep(s: State, step: Step)
    requires Inv(s) && step.call < |s.calls|
    requires s.calls[step.call].QueueCall? && s.calls[step.call].q.Build?
    ensures StepOk(s, Next(s, step))
  {
    var i, s' := step.call, Next(s, step);
    FramesUpdate(s.calls, i, s'.calls[i]);
    assert CallOk(s.context, s.calls[i]);
    assert FrameOk(s.queue, s.queueMade, QueueFrames(s.calls)[i]);
    MakeKeepsLevel(s.queue, s.queueMade, QueueFrames(s.calls), i, step.answer, Store(step.answer));
    assert ContextFrames(s.calls)[i := Idle] == ContextFrames(s.calls);
  }

  lemma QueueInnerStep(s: State, step: Step)
    requires Inv(s) && step.call < |s.calls|
    requires s.calls[step.call].QueueCall? && s.calls[step.call].q.Inner? && !s.calls[step.call].q.ctx.Done?
    ensures StepOk(s, Next(s, step))
  {
    var i, s' := step.call, Next(s, step);
    FramesUpdate(s.calls, i, s'.calls[i]);
    assert CallOk(s.context, s.calls[i]);
    ContextStepKeeps(s, i, s.calls[i].q.ctx, true, step.answer);
    assert QueueFrames(s.calls)[i := Create] == QueueFrames(s.calls);
    CrossKept(s, s', i);
  }

  lemma QueueReturnStep(s: State, step: Step)
    requires Inv(s) && step.call < |s.calls|
    requires s.calls[step.call].QueueCall? && s.calls[step.call].q.Inner? && s.calls[step.call].q.ctx.Done?
    ensures StepOk(s, Next(s, step))
  {
    var i, s' := step.call, Next(s, step);
    FramesUpdate(s.calls, i, s'.calls[i]);
    var cf, qf := ContextFrames(s.calls), QueueFrames(s.calls);
    assert CallOk(s.context, s.calls[i]);
    assert FrameOk(s.queue, s.queueMade, qf[i]);
    assert FrameOk(s.context, s.contextMade, cf[i]);
    SwitchKeepsLevel(s.context, s.contextMade, cf, i, Idle);
    var e := s.calls[i].q.ctx.err.value;
    if e != CL_SUCCESS {
      MakeKeepsLevel(s.queue, s.queueMade, qf, i, Outcome(NULL, e), StoreErr(e));
    } else {
      assert qf[i := Create] == qf;
    }
  }

  lemma NextKeepsInv(s: State, step: Step)
    requires Inv(s)
    ensures StepOk(s, Next(s, step))
  {
    var i := step.call;
    if i < |s.calls| {
      match s.calls[i]
      case ContextCall(_, _) => ContextCallStep(s, step);
      case QueueCall(Level(_), _) => QueueLevelStep(s, step);
      case QueueCall(Build(_), _) => QueueBuildStep(s, step);
      case QueueCall(Inner(pc), _) =>
        if pc.Done? { QueueReturnStep(s, step); } else { QueueInnerStep(s, step); }
    }
  }

  lemma {:induction false} RunKeepsInv(calls: seq<Process>, steps: seq<Step>)
    requires AllUnstarted(calls)
    ensures Inv(Run(Start(NOT_INITIALIZED, calls), steps))
    ensures |Run(Start(NOT_INITIALIZED, calls), steps).calls| == |calls|
  {
    if steps == [] {
      StartInv(calls);
    } else {
      RunKeepsInv(calls, steps[..|steps| - 1]);
      NextKeepsInv(Run(Start(NOT_INITIALIZED, calls), steps[..|steps| - 1]), steps[|steps| - 1]);
    }
  }
}
