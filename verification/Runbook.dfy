/**
 Runbooks: a fixed list of steps, each an action submitted to the broker or a
 wait, executed one after the other until the first failure.
 */
module Runbook {
  import opened Prelude
  import opened Registry
  import opened Broker

  const MAX_WAIT := 3600

  /** An empty `action` makes a wait-only step. */
  datatype RunbookStep = RunbookStep(action: string, wait: Option<nat>)

  datatype Action = Action(id: string, longRunning: bool, jobOnly: bool, reauth: bool)

  /** Actions are registered under their own id, and know whether they are job-only. */
  ghost predicate RegistryOk(registry: map<string, Action>) {
    forall name :: name in registry ==> registry[name].id == name && registry[name].jobOnly == IsJobOnly(name)
  }

  datatype ErrorCode = LongRunningActionRequiresJob | PermissionDenied | CommandFailed

  datatype StepResult = StepResult(step: string, error: Option<ErrorCode>)

  predicate Ok(r: StepResult) { r.error == None }

  /**
   What the outside world answers while a step is executed: the permission
   lookup (which may itself fail), the reauthentication check, whether the row
   could be inserted, whether the broker took the task, and the outcome.
   */
  datatype World = World(
    permitted: Option<bool>,
    reauthenticated: bool,
    rowWritten: bool,
    accepted: bool,
    outcome: Outcome)

  /** A completed call answers with a status and its results; the others with an error only. */
  datatype Reply = Completed(succeeded: bool, results: seq<StepResult>) | Aborted | Invalid

  /** The broker calls a runbook makes, in order: a row written, a task offered, an answer heard. */
  datatype Call = Wrote(id: CommandId) | Sent(id: CommandId) | Heard(id: CommandId)

  // ---------------------------------------------------------------------
  // Validation
  // ---------------------------------------------------------------------

  predicate ValidStep(st: RunbookStep, registry: map<string, Action>) {
    && (st.action == "" ==> st.wait.Some?)
    && (st.action != "" ==> st.action in registry)
    && (st.wait.Some? ==> st.wait.value <= MAX_WAIT)
  }

  /** `validate_steps`: true when no step is refused. */
  predicate ValidateSteps(steps: seq<RunbookStep>, registry: map<string, Action>) {
    if steps == [] then true
    else if steps[0].action == "" && steps[0].wait.None? then false
    else if steps[0].action != "" && steps[0].action !in registry then false
    else if steps[0].wait.Some? && steps[0].wait.value > MAX_WAIT then false
    else ValidateSteps(steps[1..], registry)
  }

  lemma {:induction false} ValidateStepsIff(steps: seq<RunbookStep>, registry: map<string, Action>)
    ensures ValidateSteps(steps, registry) <==> forall i :: 0 <= i < |steps| ==> ValidStep(steps[i], registry)
    ensures ValidateSteps(steps, registry)
       <==> forall i :: 0 <= i < |steps| ==>
              && (steps[i].action == "" || steps[i].action in registry)
              && (steps[i].action == "" ==> steps[i].wait != None)
              && (steps[i].wait != None ==> steps[i].wait.value <= 3600)
  {
    if steps != [] {
      ValidateStepsIff(steps[1..], registry);
      assert steps == [steps[0]] + steps[1..];
    }
  }

  // ---------------------------------------------------------------------
  // What each step comes to
  // ---------------------------------------------------------------------

  datatype Fate = Passes | Fails(code: ErrorCode) | Aborts

  predicate NeedsJob(a: Action) { a.longRunning || a.jobOnly }

  function ActionFate(a: Action, w: World): Fate {
    if NeedsJob(a) then Fails(LongRunningActionRequiresJob)
    else if w.permitted.None? then Aborts
    else if !w.permitted.value then Fails(PermissionDenied)
    else if a.reauth && !w.reauthenticated then Aborts
    else if !w.rowWritten || !w.accepted then Aborts
    else if w.outcome.Value? then Passes
    else Fails(CommandFailed)
  }

  function FateOf(st: RunbookStep, registry: map<string, Action>, w: World): Fate {
    if st.action == "" then Passes
    else if st.action !in registry then Aborts
    else ActionFate(registry[st.action], w)
  }

  function Label(st: RunbookStep): string {
    if st.action == "" then "wait" else st.action
  }

  /** The step reaches the broker and is answered. */
  predicate Executes(st: RunbookStep, registry: map<string, Action>, w: World) {
    st.action != "" && (FateOf(st, registry, w) == Passes || FateOf(st, registry, w) == Fails(CommandFailed))
  }

  /** The broker calls of commands executed strictly one after the other. */
  function Triples(ids: seq<CommandId>): (calls: seq<Call>)
    ensures |calls| == 3 * |ids|
  {
    if ids == [] then []
    else Triples(Init(ids)) + [Wrote(Last(ids)), Sent(Last(ids)), Heard(Last(ids))]
  }

  /** The ids given to the steps before `n` that reach the broker. */
  function ExecutedIds(steps: seq<RunbookStep>, registry: map<string, Action>, worlds: seq<World>,
                       ids: seq<CommandId>, n: nat): seq<CommandId>
    requires n <= |steps| == |worlds| == |ids|
  {
    if n == 0 then []
    else if Executes(steps[n - 1], registry, worlds[n - 1])
    then ExecutedIds(steps, registry, worlds, ids, n - 1) + [ids[n - 1]]
    else ExecutedIds(steps, registry, worlds, ids, n - 1)
  }

  lemma ExtendTriples(steps: seq<RunbookStep>, registry: map<string, Action>, worlds: seq<World>,
                      ids: seq<CommandId>, n: nat)
    requires n < |steps| == |worlds| == |ids|
    ensures var sofar := ExecutedIds(steps, registry, worlds, ids, n);
            && Triples(sofar + [ids[n]]) == Triples(sofar) + Triple(ids[n])
            && Triples(ExecutedIds(steps, registry, worlds, ids, n + 1))
                 == Triples(sofar) + if Executes(steps[n], registry, worlds[n]) then Triple(ids[n]) else []
  {
    var sofar := ExecutedIds(steps, registry, worlds, ids, n);
    assert Init(sofar + [ids[n]]) == sofar;
  }

  /** The result a step that does not abort leaves behind. */
  function ResultOf(st: RunbookStep, fate: Fate): StepResult
    requires fate != Aborts
  {
    StepResult(Label(st), if fate == Passes then None else Some(fate.code))
  }

  ghost predicate ResultAt(r: StepResult, st: RunbookStep, registry: map<string, Action>, w: World) {
    FateOf(st, registry, w) != Aborts && r == ResultOf(st, FateOf(st, registry, w))
  }

  /** One result per step of an executed prefix, each saying how that step went. */
  ghost predicate ResultsOf(results: seq<StepResult>, steps: seq<RunbookStep>, registry: map<string, Action>,
                            worlds: seq<World>)
    requires |results| <= |steps| == |worlds|
  {
    forall i :: 0 <= i < |results| ==> ResultAt(results[i], steps[i], registry, worlds[i])
  }

  predicate AllOk(results: seq<StepResult>) {
    forall i :: 0 <= i < |results| ==> Ok(results[i])
  }

  lemma ResultsExtend(results: seq<StepResult>, steps: seq<RunbookStep>, registry: map<string, Action>,
                      worlds: seq<World>)
    requires |results| < |steps| == |worlds|
    requires ResultsOf(results, steps, registry, worlds) && AllOk(results)
    requires FateOf(steps[|results|], registry, worlds[|results|]) != Aborts
    ensures var fate := FateOf(steps[|results|], registry, worlds[|results|]);
            var more := results + [ResultOf(steps[|results|], fate)];
            && ResultsOf(more, steps, registry, worlds)
            && Init(more) == results
            && (AllOk(more) <==> fate == Passes)
  {
    var more := results + [ResultOf(steps[|results|], FateOf(steps[|results|], registry, worlds[|results|]))];
    assert Last(more) == ResultOf(steps[|results|], FateOf(steps[|results|], registry, worlds[|results|]));
  }

  /** The broker calls of one command, from the row to the answer. */
  function Triple(id: CommandId): seq<Call> { [Wrote(id), Sent(id), Heard(id)] }

  /** The action may be submitted: it needs no job, is permitted, and is reauthenticated where asked for. */
  predicate MayRun(a: Action, w: World) {
    !a.longRunning && !a.jobOnly && w.permitted == Some(true) && (a.reauth ==> w.reauthenticated)
  }

  /** The broker calls of one step; a task that is refused is offered all the same. */
  function CallsOf(st: RunbookStep, registry: map<string, Action>, w: World, id: CommandId): (calls: seq<Call>)
    ensures calls <= Triple(id)
  {
    if st.action == "" || st.action !in registry || !MayRun(registry[st.action], w) || !w.rowWritten then []
    else if !w.accepted then [Wrote(id), Sent(id)]
    else Triple(id)
  }

  /**
   One action step: the checks in order, then row, submission and answer. Nothing is
   called unless the action needs no job, the permission was granted, and the
   reauthentication that it asks for was made.
   */
  method ExecuteAction(action: Action, world: World, id: CommandId) returns (fate: Fate, calls: seq<Call>)
    ensures fate == ActionFate(action, world)
    ensures calls != [] ==>
      && !action.longRunning && !action.jobOnly && world.permitted == Some(true)
      && (action.reauth ==> world.reauthenticated)
    ensures calls == if !MayRun(action, world) || !world.rowWritten then []
                     else if !world.accepted then [Wrote(id), Sent(id)]
                     else [Wrote(id), Sent(id), Heard(id)]
    ensures fate == Fails(LongRunningActionRequiresJob) <==> action.longRunning || action.jobOnly
    ensures fate == Fails(PermissionDenied)
       <==> !action.longRunning && !action.jobOnly && world.permitted == Some(false)
    ensures fate == Passes <==> MayRun(action, world) && world.rowWritten && world.accepted && world.outcome.Value?
    ensures fate == Fails(CommandFailed)
       <==> MayRun(action, world) && world.rowWritten && world.accepted && world.outcome.Error?
    ensures fate == Aborts
       <==> && !action.longRunning && !action.jobOnly && world.permitted != Some(false)
            && !(MayRun(action, world) && world.rowWritten && world.accepted)
  {
    calls := [];
    if NeedsJob(action) { return Fails(LongRunningActionRequiresJob), calls; }
    if world.permitted.None? { return Aborts, calls; }
    if !world.permitted.value { return Fails(PermissionDenied), calls; }
    if action.reauth && !world.reauthenticated { return Aborts, calls; }
    if !world.rowWritten { return Aborts, calls; }
    calls := calls + [Wrote(id)];
    calls := calls + [Sent(id)];
    if !world.accepted { return Aborts, calls; }
    calls := calls + [Heard(id)];
    fate := if world.outcome.Value? then Passes else Fails(CommandFailed);
  }

  /** One turn of the loop: a wait, or an action. */
  method RunStep(step: RunbookStep, registry: map<string, Action>, world: World, id: CommandId)
    returns (fate: Fate, calls: seq<Call>)
    requires ValidStep(step, registry)
    ensures fate == FateOf(step, registry, world)
    ensures calls == CallsOf(step, registry, world, id)
    ensures fate != Aborts ==> calls == if Executes(step, registry, world) then Triple(id) else []
  {
    fate, calls := Passes, [];
    if step.action != "" {
      fate, calls := ExecuteAction(registry[step.action], world, id);
    }
  }

  /** What a call that has run its step loop guarantees. */
  ghost predicate LoopOutcome(steps: seq<RunbookStep>, registry: map<string, Action>, worlds: seq<World>,
                              ids: seq<CommandId>, reply: Reply, results: seq<StepResult>, calls: seq<Call>)
    requires |steps| == |worlds| == |ids|
  {
    && |results| <= |steps| && ResultsOf(results, steps, registry, worlds)
    && (results != [] ==> AllOk(Init(results)))
    && (reply.Completed? ==>
        && reply.results == results
        && (reply.succeeded <==> |results| == |steps| && AllOk(results))
        && calls == Triples(ExecutedIds(steps, registry, worlds, ids, |results|)))
    && (reply.Aborted? ==>
        && |results| < |steps| && AllOk(results)
        && FateOf(steps[|results|], registry, worlds[|results|]) == Aborts
        && calls == Triples(ExecutedIds(steps, registry, worlds, ids, |results|))
                  + CallsOf(steps[|results|], registry, worlds[|results|], ids[|results|]))
  }

  /** The loop's outcome when it stops after the step it has just carried out, or at one it cannot. */
  lemma StoppedOutcome(steps: seq<RunbookStep>, registry: map<string, Action>, worlds: seq<World>,
                       ids: seq<CommandId>, reply: Reply, results: seq<StepResult>, calls: seq<Call>)
    requires |results| <= |steps| == |worlds| == |ids| && ResultsOf(results, steps, registry, worlds)
    requires results != [] ==> AllOk(Init(results))
    requires if reply.Completed?
             then && reply == Completed(|results| == |steps| && AllOk(results), results)
                  && calls == Triples(ExecutedIds(steps, registry, worlds, ids, |results|))
             else && reply.Aborted? && |results| < |steps| && AllOk(results)
                  && FateOf(steps[|results|], registry, worlds[|results|]) == Aborts
                  && calls == Triples(ExecutedIds(steps, registry, worlds, ids, |results|))
                            + CallsOf(steps[|results|], registry, worlds[|results|], ids[|results|])
    ensures LoopOutcome(steps, registry, worlds, ids, reply, results, calls)
  {
  }

  lemma BeforeTheLoop(steps: seq<RunbookStep>, registry: map<string, Action>, worlds: seq<World>, ids: seq<CommandId>)
    requires |steps| == |worlds| == |ids|
    ensures ResultsOf([], steps, registry, worlds) && AllOk([])
    ensures [] == Triples(ExecutedIds(steps, registry, worlds, ids, 0))
  {
  }

  lemma AllOkBefore(results: seq<StepResult>)
    requires AllOk(results)
    ensures results != [] ==> AllOk(Init(results))
  {
  }

  method RunSteps(steps: seq<RunbookStep>, registry: map<string, Action>, worlds: seq<World>, ids: seq<CommandId>)
    returns (reply: Reply, results: seq<StepResult>, calls: seq<Call>)
    requires |steps| == |worlds| == |ids|
    requires forall i :: 0 <= i < |steps| ==> ValidStep(steps[i], registry)
    ensures !reply.Invalid? && LoopOutcome(steps, registry, worlds, ids, reply, results, calls)
  {
    hide *;
    results, calls := [], [];
    BeforeTheLoop(steps, registry, worlds, ids);
    while |results| < |steps|
      invariant |results| <= |steps| && ResultsOf(results, steps, registry, worlds) && AllOk(results)
      invariant calls == Triples(ExecutedIds(steps, registry, worlds, ids, |results|))
    {
      var step, world, id := steps[|results|], worlds[|results|], ids[|results|];
      ExtendTriples(steps, registry, worlds, ids, |results|);
      AllOkBefore(results);
      var fate, more := RunStep(step, registry, world, id);
      calls := calls + more;
      if fate == Aborts {
        StoppedOutcome(steps, registry, worlds, ids, Aborted, results, calls);
        return Aborted, results, calls;
      }
      ResultsExtend(results, steps, registry, worlds);
      results := results + [ResultOf(step, fate)];
      if fate != Passes {
        StoppedOutcome(steps, registry, worlds, ids, Completed(false, results), results, calls);
        return Completed(false, results), results, calls;
      }
    }
    AllOkBefore(results);
    StoppedOutcome(steps, registry, worlds, ids, Completed(true, results), results, calls);
    reply := Completed(true, results);
  }

  /**
   What a runbook call guarantees. A definition that does not validate runs
   nothing. A completed call reports one result for each step of an executed
   prefix, all of them ok except possibly the last; it succeeded exactly when every
   step ran and was ok. A call that aborts does so at the first step the loop cannot
   carry out, all earlier ones having been ok. Whatever happens, the broker calls
   are those of commands executed strictly one after the other.
   */
  ghost predicate RunOutcome(steps: seq<RunbookStep>, registry: map<string, Action>, worlds: seq<World>,
                             ids: seq<CommandId>, reply: Reply, results: seq<StepResult>, calls: seq<Call>)
    requires |steps| == |worlds| == |ids|
  {
    && (reply.Invalid? <==> exists i :: 0 <= i < |steps| && !ValidStep(steps[i], registry))
    && (reply.Invalid? ==> results == [] && calls == [])
    && (!reply.Invalid? ==> LoopOutcome(steps, registry, worlds, ids, reply, results, calls))
  }

  method Run(steps: seq<RunbookStep>, registry: map<string, Action>, worlds: seq<World>, ids: seq<CommandId>)
    returns (reply: Reply, results: seq<StepResult>, calls: seq<Call>)
    requires |steps| == |worlds| == |ids|
    ensures RunOutcome(steps, registry, worlds, ids, reply, results, calls)
  {
    ValidateStepsIff(steps, registry);
    var valid := ValidateSteps(steps, registry);
    if !valid {
      return Invalid, [], [];
    }
    reply, results, calls := RunSteps(steps, registry, worlds, ids);
  }

  /** What one result says about its step: the name it goes by, and how the step went. */
  ghost predicate ResultSays(r: StepResult, st: RunbookStep, registry: map<string, Action>, w: World) {
    if st.action == "" then r == StepResult("wait", None)
    else
      && st.action in registry && r.step == st.action
      && var a := registry[st.action];
      && (r.error == None <==> MayRun(a, w) && w.rowWritten && w.accepted && w.outcome.Value?)
      && (r.error == Some(CommandFailed) <==> MayRun(a, w) && w.rowWritten && w.accepted && w.outcome.Error?)
      && (r.error == Some(LongRunningActionRequiresJob) <==> a.longRunning || a.jobOnly)
      && (r.error == Some(PermissionDenied) <==> !a.longRunning && !a.jobOnly && w.permitted == Some(false))
  }

  /**
   The answers of a runbook call: one per step up to the first that is not ok, each
   saying exactly how its step went. The call aborts exactly when the first step
   without an answer could not be carried out; otherwise it succeeded exactly when
   every step has an answer and every answer is ok.
   */
  lemma AnswersMean(steps: seq<RunbookStep>, registry: map<string, Action>, worlds: seq<World>,
                    ids: seq<CommandId>, reply: Reply, results: seq<StepResult>, calls: seq<Call>)
    requires |steps| == |worlds| == |ids| && RunOutcome(steps, registry, worlds, ids, reply, results, calls)
    ensures |results| <= |steps|
    ensures !reply.Invalid? ==>
      && (forall i :: 0 <= i < |results| ==> ResultSays(results[i], steps[i], registry, worlds[i]))
      && (forall i :: 0 <= i < |results| - 1 ==> results[i].error == None)
    ensures reply.Completed? ==>
      && reply.results == results
      && (reply.succeeded <==> |results| == |steps| && forall i :: 0 <= i < |results| ==> results[i].error == None)
    ensures reply.Aborted? ==>
      && |results| < |steps|
      && var st, w := steps[|results|], worlds[|results|];
      && (forall i :: 0 <= i < |results| ==> results[i].error == None)
      && st.action in registry && var a := registry[st.action];
      && !a.longRunning && !a.jobOnly && w.permitted != Some(false)
      && !(MayRun(a, w) && w.rowWritten && w.accepted)
  {
    if !reply.Invalid? {
      forall i | 0 <= i < |results| ensures ResultSays(results[i], steps[i], registry, worlds[i]) {
        assert ResultAt(results[i], steps[i], registry, worlds[i]) && ValidStep(steps[i], registry);
      }
      forall i | 0 <= i < |results| - 1 ensures results[i].error == None {
        assert Ok(Init(results)[i]);
      }
      forall i | 0 <= i < |results| && AllOk(results) ensures results[i].error == None {
        assert Ok(results[i]);
      }
      if reply.Aborted? {
        assert ValidStep(steps[|results|], registry);
      }
    }
  }
}
