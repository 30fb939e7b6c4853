/**
 The concurrent part of `gather_commits`: one task per commit, each asking git
 several questions under a semaphore of 50 permits, and storing its commit in
 its own slot.  Tasks are interleaved at their waiting points in any order.
 */
module PickGather {
  import opened Common
  import opened Pick
  import opened PickOutcome
  import opened Measure

  const PERMITS := 50

  /** The question a task asks git. */
  datatype Question =
    | ReadMessage
    | FindFixed | FixedInBranch(fixed: Sha)
    | FindReverted | RevertedInBranch(reverted: Sha)

  datatype Where =
    | Waiting(q: Question)    // at `async with SEM`
    | Asking(q: Question)     // holding a permit while git runs
    | Ready                   // `resolve_nomination` has returned
    | Stored

  datatype Task = Task(commit: Record, at: Where)

  datatype State = State(permits: nat, tasks: seq<Task>, slots: seq<Option<Record>>)

  // ---------------------------------------------------------------- the code

  /** From the cc tag on, up to the next waiting point. */
  function LookAtCc(git: Git, version: string, c: Record): Task {
    var tags := git.message(c.sha);
    if CcMatches(tags, version) then Task(c.(nominated := true, nominationType := Some(CC)), Ready)
    else if tags.revert.Some? then Task(c, Waiting(FindReverted))
    else Task(c, Ready)
  }

  /** git has answered: go on to the next waiting point. */
  function Answered(git: Git, version: string, c: Record, q: Question): Task {
    var tags := git.message(c.sha);
    match q
    case ReadMessage =>
      if tags.fix.Some? then Task(c, Waiting(FindFixed)) else LookAtCc(git, version, c)
    case FindFixed =>
      var fixed := if tags.fix.Some? then git.fullSha(tags.fix.value) else None;
      if fixed.Some? then
        Task(c.(becauseSha := fixed, nominationType := Some(FIXES)), Waiting(FixedInBranch(fixed.value)))
      else LookAtCc(git, version, c)
    case FixedInBranch(fixed) =>
      if git.inBranch(fixed) then Task(c.(nominated := true), Ready) else LookAtCc(git, version, c)
    case FindReverted =>
      var reverted := if tags.revert.Some? then git.fullSha(tags.revert.value) else None;
      if reverted.Some? then
        Task(c.(becauseSha := reverted, nominationType := Some(REVERT)), Waiting(RevertedInBranch(reverted.value)))
      else Task(c, Ready)
    case RevertedInBranch(reverted) =>
      if git.inBranch(reverted) then Task(c.(nominated := true), Ready) else Task(c, Ready)
  }

  /** One step of task `i`; a task that cannot get a permit does not move. */
  function Next(git: Git, version: string, s: State, i: nat): State {
    if i >= |s.tasks| || |s.slots| != |s.tasks| then s
    else
      var task := s.tasks[i];
      match task.at
      case Waiting(q) =>
        if s.permits == 0 then s
        else s.(permits := s.permits - 1, tasks := s.tasks[i := task.(at := Asking(q))])
      case Asking(q) =>
        s.(permits := s.permits + 1, tasks := s.tasks[i := Answered(git, version, task.commit, q)])
      case Ready =>
        s.(tasks := s.tasks[i := task.(at := Stored)], slots := s.slots[i := Some(task.commit)])
      case Stored => s
  }

  function Start(new': seq<(Sha, string)>): State {
    State(PERMITS,
          seq(|new'|, i requires 0 <= i < |new'| => Task(NewRecord(new'[i].0, new'[i].1), Waiting(ReadMessage))),
          seq(|new'|, i => None))
  }

  function Run(git: Git, version: string, s: State, schedule: seq<nat>): State {
    if schedule == [] then s
    else Next(git, version, Run(git, version, s, schedule[..|schedule| - 1]), schedule[|schedule| - 1])
  }

  predicate AllStored(s: State) {
    forall i :: 0 <= i < |s.tasks| ==> s.tasks[i].at == Stored
  }

  // ------------------------------------------------------------------ permits

  function Permit(task: Task): nat { if task.at.Asking? then 1 else 0 }

  function Held(tasks: seq<Task>): nat { Total(Permit, tasks) }

  // ------------------------------------------------- what a task is going to return

  /** The commit `resolve_nomination` will return from here. */
  function Result(git: Git, version: string, task: Task): Record {
    var c := task.commit;
    match task.at
    case Ready | Stored => c
    case Waiting(q) => ResultOf(git, version, c, q)
    case Asking(q) => ResultOf(git, version, c, q)
  }

  function ResultOf(git: Git, version: string, c: Record, q: Question): Record {
    match q
    case ReadMessage => ResolveNomination(git, version, c)
    case FindFixed => ResolveNomination(git, version, c)
    case FixedInBranch(fixed) =>
      if git.inBranch(fixed) then c.(nominated := true) else AfterFix(git, version, c)
    case FindReverted => AfterFix(git, version, c)
    case RevertedInBranch(reverted) => if git.inBranch(reverted) then c.(nominated := true) else c
  }

  /** A task asks only what its commit message calls for. */
  predicate Sensible(git: Git, version: string, task: Task) {
    var tags := git.message(task.commit.sha);
    var q := if task.at.Waiting? || task.at.Asking? then Some(task.at.q) else None;
    && (q == Some(FindFixed) ==> tags.fix.Some?)
    && (q == Some(FindReverted) ==> tags.revert.Some? && !CcMatches(tags, version))
  }

  lemma AnsweredKeepsResult(git: Git, version: string, c: Record, q: Question)
    requires Sensible(git, version, Task(c, Asking(q)))
    ensures var task := Answered(git, version, c, q);
            && Sensible(git, version, task)
            && Result(git, version, task) == ResultOf(git, version, c, q)
            && !task.at.Asking? && task.at != Stored
  {
  }

  predicate TaskOk(git: Git, version: string, task: Task, slot: Option<Record>, expected: Record) {
    && Sensible(git, version, task)
    && Result(git, version, task) == expected
    && slot == if task.at == Stored then Some(expected) else None
  }

  ghost predicate Inv(git: Git, version: string, new': seq<(Sha, string)>, s: State) {
    && |s.tasks| == |s.slots| == |new'|
    && s.permits + Held(s.tasks) == PERMITS
    && forall i :: 0 <= i < |new'| ==> TaskOk(git, version, s.tasks[i], s.slots[i], Nominate(git, version, new')[i])
  }

  lemma NextKeepsInv(git: Git, version: string, new': seq<(Sha, string)>, s: State, i: nat)
    requires Inv(git, version, new', s)
    ensures Inv(git, version, new', Next(git, version, s, i))
  {
    if i < |s.tasks| {
      var task, s' := s.tasks[i], Next(git, version, s, i);
      TotalUpdate(Permit, s.tasks, i, s'.tasks[i]);
      assert s'.tasks == s.tasks[i := s'.tasks[i]];
      assert TaskOk(git, version, task, s.slots[i], Nominate(git, version, new')[i]);
      if task.at.Asking? {
        AnsweredKeepsResult(git, version, task.commit, task.at.q);
      }
    }
  }

  lemma {:induction false} RunKeepsInv(git: Git, version: string, new': seq<(Sha, string)>, schedule: seq<nat>)
    ensures Inv(git, version, new', Run(git, version, Start(new'), schedule))
  {
    if schedule == [] {
      TotalBound(Permit, Start(new').tasks, 0);
    } else {
      var n := |schedule| - 1;
      RunKeepsInv(git, version, new', schedule[..n]);
      NextKeepsInv(git, version, new', Run(git, version, Start(new'), schedule[..n]), schedule[n]);
    }
  }

  /**
   In every interleaving at most 50 permits are out, one per task that is asking;
   every filled slot holds its own commit's nomination, and once all tasks have
   finished the array has no gap and equals the nominations in input order.
   */
  lemma ScheduleIndependence(git: Git, version: string, new': seq<(Sha, string)>, schedule: seq<nat>)
    ensures var s := Run(git, version, Start(new'), schedule);
            && |s.slots| == |new'| && Held(s.tasks) <= 50 && s.permits == 50 - Held(s.tasks)
            && (forall i :: 0 <= i < |new'| ==>
                  s.slots[i] == None || s.slots[i] == Some(Nominate(git, version, new')[i]))
            && (AllStored(s) ==> forall i :: 0 <= i < |new'| ==> s.slots[i] == Some(Nominate(git, version, new')[i]))
  {
    RunKeepsInv(git, version, new', schedule);
    var s := Run(git, version, Start(new'), schedule);
    forall i | 0 <= i < |new'|
      ensures TaskOk(git, version, s.tasks[i], s.slots[i], Nominate(git, version, new')[i])
    {
    }
  }

  // ------------------------------------------------------------------ progress

  function Weight(task: Task): nat {
    match task.at
    case Waiting(ReadMessage) => 12
    case Asking(ReadMessage) => 11
    case Waiting(FindFixed) => 10
    case Asking(FindFixed) => 9
    case Waiting(FixedInBranch(_)) => 8
    case Asking(FixedInBranch(_)) => 7
    case Waiting(FindReverted) => 6
    case Asking(FindReverted) => 5
    case Waiting(RevertedInBranch(_)) => 4
    case Asking(RevertedInBranch(_)) => 3
    case Ready => 2
    case Stored => 0
  }

  function TotalWeight(tasks: seq<Task>): nat { Total(Weight, tasks) }

  lemma {:induction false} SomeoneAsks(tasks: seq<Task>) returns (i: nat)
    requires Held(tasks) > 0
    ensures i < |tasks| && tasks[i].at.Asking?
  {
    if tasks[0].at.Asking? {
      i := 0;
    } else {
      i := SomeoneAsks(tasks[1..]);
      i := i + 1;
    }
  }

  /** Task `i` can move: it is unfinished, and if it waits there is a permit. */
  predicate CanMove(s: State, i: nat) {
    i < |s.tasks| && s.tasks[i].at != Stored && (s.tasks[i].at.Waiting? ==> s.permits > 0)
  }

  lemma MoveWeight(git: Git, version: string, new': seq<(Sha, string)>, s: State, i: nat)
    requires Inv(git, version, new', s) && CanMove(s, i)
    ensures TotalWeight(Next(git, version, s, i).tasks) < TotalWeight(s.tasks)
  {
    var s' := Next(git, version, s, i);
    assert s'.tasks == s.tasks[i := s'.tasks[i]];
    assert Weight(s'.tasks[i]) < Weight(s.tasks[i]);
    TotalUpdate(Weight, s.tasks, i, s'.tasks[i]);
  }

  /** How many steps of the schedule were moves. */
  function Moves(git: Git, version: string, s: State, schedule: seq<nat>): nat {
    if schedule == [] then 0
    else
      var n := |schedule| - 1;
      var moved := CanMove(Run(git, version, s, schedule[..n]), schedule[n]);
      Moves(git, version, s, schedule[..n]) + (if moved then 1 else 0)
  }

  /** Whatever the schedule, each task accounts for at most 12 moves; every other step changes nothing. */
  lemma {:induction false} BoundedMoves(git: Git, version: string, new': seq<(Sha, string)>, schedule: seq<nat>)
    ensures Moves(git, version, Start(new'), schedule) <= 12 * |new'|
    ensures Moves(git, version, Start(new'), schedule)
            + TotalWeight(Run(git, version, Start(new'), schedule).tasks) <= TotalWeight(Start(new').tasks)
  {
    TotalBound(Weight, Start(new').tasks, 12);
    if schedule != [] {
      var n := |schedule| - 1;
      var s := Run(git, version, Start(new'), schedule[..n]);
      BoundedMoves(git, version, new', schedule[..n]);
      RunKeepsInv(git, version, new', schedule[..n]);
      if CanMove(s, schedule[n]) {
        MoveWeight(git, version, new', s, schedule[n]);
      }
    }
  }

  /** A task holding a permit waits for no other task, so somebody can always move. */
  lemma SomeoneCanMove(git: Git, version: string, new': seq<(Sha, string)>, s: State) returns (i: nat)
    requires Inv(git, version, new', s) && !AllStored(s)
    ensures CanMove(s, i)
  {
    i :| 0 <= i < |s.tasks| && s.tasks[i].at != Stored;
    if s.permits == 0 {
      i := SomeoneAsks(s.tasks);
    }
  }

  lemma NoDeadlock(git: Git, version: string, new': seq<(Sha, string)>, schedule: seq<nat>) returns (i: nat)
    requires !AllStored(Run(git, version, Start(new'), schedule))
    ensures CanMove(Run(git, version, Start(new'), schedule), i)
  {
    RunKeepsInv(git, version, new', schedule);
    i := SomeoneCanMove(git, version, new', Run(git, version, Start(new'), schedule));
  }

  lemma {:induction false} RunSplit(git: Git, version: string, s: State, first: seq<nat>, rest: seq<nat>)
    ensures Run(git, version, s, first + rest) == Run(git, version, Run(git, version, s, first), rest)
  {
    if rest == [] {
      assert first + rest == first;
    } else {
      var n := |rest| - 1;
      assert (first + rest)[..|first| + n] == first + rest[..n];
      RunSplit(git, version, s, first, rest[..n]);
    }
  }

  lemma {:induction false} FinishFrom(git: Git, version: string, new': seq<(Sha, string)>, s: State)
    returns (rest: seq<nat>)
    requires Inv(git, version, new', s)
    ensures AllStored(Run(git, version, s, rest)) && |rest| <= TotalWeight(s.tasks)
    decreases TotalWeight(s.tasks)
  {
    if AllStored(s) {
      rest := [];
    } else {
      var i := SomeoneCanMove(git, version, new', s);
      NextKeepsInv(git, version, new', s, i);
      MoveWeight(git, version, new', s, i);
      var more := FinishFrom(git, version, new', Next(git, version, s, i));
      assert [i][..0] == [];
      assert Run(git, version, s, [i]) == Next(git, version, s, i);
      RunSplit(git, version, s, [i], more);
      rest := [i] + more;
    }
  }

  /** Every schedule can be continued until all tasks have finished. */
  lemma CanFinish(git: Git, version: string, new': seq<(Sha, string)>, schedule: seq<nat>) returns (rest: seq<nat>)
    ensures AllStored(Run(git, version, Start(new'), schedule + rest)) && |rest| <= 12 * |new'|
  {
    var s := Run(git, version, Start(new'), schedule);
    RunKeepsInv(git, version, new', schedule);
    rest := FinishFrom(git, version, new', s);
    RunSplit(git, version, Start(new'), schedule, rest);
    TotalBound(Weight, s.tasks, 12);
  }

  /** The array after all tasks, handed to the loops that follow. */
  lemma GatheredOutcome(git: Git, version: string, previous: seq<Record>, new': seq<(Sha, string)>,
                        schedule: seq<nat>, commits: seq<Record>)
    requires AllStored(Run(git, version, Start(new'), schedule))
    requires |Run(git, version, Start(new'), schedule).slots| == |commits|
    requires forall i :: 0 <= i < |commits| ==> Run(git, version, Start(new'), schedule).slots[i] == Some(commits[i])
    ensures Finish(commits, previous) == GatherCommits(git, version, previous, new')
  {
    ScheduleIndependence(git, version, new', schedule);
    assert commits == Nominate(git, version, new');
  }
}
