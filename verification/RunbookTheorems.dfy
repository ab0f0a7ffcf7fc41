/**
 A runbook inside the broker: its commands never overlap, whatever else the
 broker is doing and whichever queue keys they use.
 */
module RunbookTheorems {
  import opened Prelude
  import opened Registry
  import opened Broker
  import opened BrokerTheorems
  import opened Runbook

  /** The broker events of the given commands, as their caller takes part in them. */
  function CallsIn(es: seq<Event>, ids: seq<CommandId>): seq<Call> {
    if es == [] then []
    else
      var e := Last(es);
      if e.Insert? && e.task.id in ids then CallsIn(Init(es), ids) + [Wrote(e.task.id)]
      else if e.Submit? && e.task.id in ids then CallsIn(Init(es), ids) + [Sent(e.task.id)]
      else if e.Answer? && e.task.id in ids then CallsIn(Init(es), ids) + [Heard(e.task.id)]
      else CallsIn(Init(es), ids)
  }

  lemma {:induction false} TripleAt(ids: seq<CommandId>, k: nat)
    requires k < |ids|
    ensures Triples(ids)[3 * k] == Wrote(ids[k])
    ensures Triples(ids)[3 * k + 1] == Sent(ids[k])
    ensures Triples(ids)[3 * k + 2] == Heard(ids[k])
    decreases |ids|
  {
    if k < |ids| - 1 {
      TripleAt(Init(ids), k);
    }
  }

  lemma WroteIndex(ids: seq<CommandId>, calls: seq<Call>, b: nat, k: nat, r: nat)
    requires Distinct(ids) && b < |ids| && k < |ids| && r < 3 && |calls| == 3 * |ids|
    requires calls[3 * k] == Wrote(ids[k]) && calls[3 * k + 1] == Sent(ids[k]) && calls[3 * k + 2] == Heard(ids[k])
    requires calls[3 * k + r] == Wrote(ids[b])
    ensures k == b && r == 0
  {
    assert r == 0;
    assert ids[k] == ids[b];
  }

  lemma {:induction false} HeardMeansAnswered(es: seq<Event>, ids: seq<CommandId>, p: nat) returns (i: nat)
    requires p < |CallsIn(es, ids)| && CallsIn(es, ids)[p].Heard?
    ensures i < |es| && es[i].Answer? && es[i].task.id == CallsIn(es, ids)[p].id
  {
    if p < |CallsIn(Init(es), ids)| {
      i := HeardMeansAnswered(Init(es), ids, p);
    } else {
      i := |es| - 1;
    }
  }

  lemma {:induction false} CallsOfPrefix(es: seq<Event>, ids: seq<CommandId>, n: nat)
    requires n <= |es|
    ensures CallsIn(es[..n], ids) <= CallsIn(es, ids)
    decreases |es|
  {
    if n == |es| {
      assert es[..n] == es;
    } else {
      CallsOfPrefix(Init(es), ids, n);
      assert Init(es)[..n] == es[..n];
    }
  }

  /** By the time a later command's row is written, an earlier one has been answered. */
  lemma AnsweredBeforeNext(es: seq<Event>, ids: seq<CommandId>, a: nat, b: nat, j: nat) returns (i: nat)
    requires Distinct(ids) && CallsIn(es, ids) <= Triples(ids)
    requires a < b < |ids| && j < |es| && es[j].Insert? && es[j].task.id == ids[b]
    ensures i < j && es[i].Answer? && es[i].task.id == ids[a]
  {
    var before, upto := CallsIn(es[..j], ids), CallsIn(es[..j + 1], ids);
    assert Init(es[..j + 1]) == es[..j] && Last(es[..j + 1]) == es[j];
    CallsOfPrefix(es, ids, j + 1);
    var p := |before|;
    assert upto == before + [Wrote(ids[b])];
    assert Triples(ids)[p] == upto[p];
    TripleAt(ids, p / 3);
    WroteIndex(ids, Triples(ids), b, p / 3, p % 3);
    TripleAt(ids, a);
    assert before[3 * a + 2] == upto[3 * a + 2] == Heard(ids[a]);
    i := HeardMeansAnswered(es[..j], ids, 3 * a + 2);
  }

  /** A caller whose calls follow the runbook pattern is sequential. */
  lemma RunbookIsSequential(es: seq<Event>, ids: seq<CommandId>)
    requires Distinct(ids) && CallsIn(es, ids) <= Triples(ids)
    ensures Sequential(es, ids)
  {
    forall a, b, j | 0 <= a < b < |ids| && 0 <= j < |es| && es[j].Insert? && es[j].task.id == ids[b]
      ensures exists i :: 0 <= i < j && es[i].Answer? && es[i].task.id == ids[a]
    {
      var i := AnsweredBeforeNext(es, ids, a, b, j);
    }
  }

  // ---------------------------------------------------------------------
  // A call of the runbook inside the broker
  // ---------------------------------------------------------------------

  /** `x` lists some of the `ids` in their order; `pos` says which. */
  ghost predicate Picks(x: seq<CommandId>, ids: seq<CommandId>, pos: seq<nat>) {
    && |pos| == |x|
    && (forall k :: 0 <= k < |x| ==> pos[k] < |ids| && x[k] == ids[pos[k]])
    && (forall k, l :: 0 <= k < l < |x| ==> pos[k] < pos[l])
  }

  /** The step has reached the broker, or is where the loop stopped. */
  ghost predicate Reaches(st: RunbookStep, registry: map<string, Action>, w: World) {
    Executes(st, registry, w) || FateOf(st, registry, w) == Aborts
  }

  lemma PickOneMore(x: seq<CommandId>, ids: seq<CommandId>, pos: seq<nat>, n: nat)
    requires Picks(x, ids, pos) && n < |ids| && forall k :: 0 <= k < |pos| ==> pos[k] < n
    ensures Picks(x + [ids[n]], ids, pos + [n])
  {
  }

  lemma {:induction false} ExecutedArePicked(steps: seq<RunbookStep>, registry: map<string, Action>,
                                             worlds: seq<World>, ids: seq<CommandId>, n: nat)
    returns (pos: seq<nat>)
    requires n <= |steps| == |worlds| == |ids|
    ensures Picks(ExecutedIds(steps, registry, worlds, ids, n), ids, pos)
    ensures forall k :: 0 <= k < |pos| ==> pos[k] < n && Executes(steps[pos[k]], registry, worlds[pos[k]])
    decreases n
  {
    pos := [];
    if n > 0 {
      pos := ExecutedArePicked(steps, registry, worlds, ids, n - 1);
      if Executes(steps[n - 1], registry, worlds[n - 1]) {
        PickOneMore(ExecutedIds(steps, registry, worlds, ids, n - 1), ids, pos, n - 1);
        pos := pos + [n - 1];
      }
    }
  }

  lemma UsedArePicked(steps: seq<RunbookStep>, registry: map<string, Action>, worlds: seq<World>,
                      ids: seq<CommandId>, reply: Runbook.Reply, results: seq<StepResult>, calls: seq<Call>)
    returns (x: seq<CommandId>, pos: seq<nat>)
    requires |steps| == |worlds| == |ids| && RunOutcome(steps, registry, worlds, ids, reply, results, calls)
    ensures Picks(x, ids, pos) && calls <= Triples(x)
    ensures forall k :: 0 <= k < |pos| ==> Reaches(steps[pos[k]], registry, worlds[pos[k]])
    ensures pos != [] ==> !reply.Invalid?
  {
    x, pos := [], [];
    if !reply.Invalid? {
      var n := |results|;
      pos := ExecutedArePicked(steps, registry, worlds, ids, n);
      x := ExecutedIds(steps, registry, worlds, ids, n);
      if reply.Aborted? {
        PickOneMore(x, ids, pos, n);
        ExtendTriples(steps, registry, worlds, ids, n);
        x, pos := x + [ids[n]], pos + [n];
      }
    }
  }

  lemma {:induction false} TriplesAreOf(x: seq<CommandId>, p: nat)
    requires p < |Triples(x)|
    ensures Triples(x)[p].id in x
    decreases |x|
  {
    if p < |Triples(Init(x))| {
      TriplesAreOf(Init(x), p);
    }
  }

  lemma {:induction false} CallMade(es: seq<Event>, ids: seq<CommandId>, i: nat)
    requires i < |es| && es[i].Insert? && es[i].task.id in ids
    ensures Wrote(es[i].task.id) in CallsIn(es, ids)
    decreases |es|
  {
    if i < |es| - 1 {
      CallMade(Init(es), ids, i);
      assert CallsIn(Init(es), ids) <= CallsIn(es, ids);
    }
  }

  /** Every command of the call that has any event in the run is one of those used. */
  lemma ConcernedIsUsed(es: seq<Event>, ids: seq<CommandId>, x: seq<CommandId>, i: nat)
    requires IsRun(es) && CallsIn(es, ids) <= Triples(x)
    requires i < |es| && !es[i].Timeout? && es[i].task.id in ids
    ensures es[i].task.id in x
  {
    var id := es[i].task.id;
    var m: nat := i;
    if !es[i].Insert? {
      StepAt(es, i);
      m := InsertedBefore(es, i, id);
    }
    CallMade(es, ids, m);
    var p :| 0 <= p < |CallsIn(es, ids)| && CallsIn(es, ids)[p] == Wrote(id);
    assert Triples(x)[p] == Wrote(id);
    TriplesAreOf(x, p);
  }

  lemma {:induction false} SameCalls(es: seq<Event>, ids: seq<CommandId>, x: seq<CommandId>)
    requires forall i :: 0 <= i < |es| && !es[i].Timeout? ==> (es[i].task.id in ids <==> es[i].task.id in x)
    ensures CallsIn(es, ids) == CallsIn(es, x)
    decreases |es|
  {
    if es != [] {
      SameCalls(Init(es), ids, x);
    }
  }

  /** The broker's events of the call are those of the ids used. */
  lemma CallsOfUsed(es: seq<Event>, ids: seq<CommandId>, x: seq<CommandId>, pos: seq<nat>)
    requires IsRun(es) && Picks(x, ids, pos) && CallsIn(es, ids) <= Triples(x)
    ensures CallsIn(es, x) == CallsIn(es, ids)
  {
    forall i | 0 <= i < |es| && !es[i].Timeout? && es[i].task.id in ids ensures es[i].task.id in x {
      ConcernedIsUsed(es, ids, x, i);
    }
    forall id | id in x ensures id in ids {
      var k :| 0 <= k < |x| && x[k] == id;
      assert ids[pos[k]] == id;
    }
    SameCalls(es, ids, x);
  }

  /** Where a used id stands. */
  lemma PlaceOf(x: seq<CommandId>, ids: seq<CommandId>, pos: seq<nat>, a: nat) returns (k: nat)
    requires Picks(x, ids, pos) && Distinct(ids) && a < |ids| && ids[a] in x
    ensures k < |x| && x[k] == ids[a] && pos[k] == a
  {
    k :| 0 <= k < |x| && x[k] == ids[a];
  }

  lemma PicksInOrder(x: seq<CommandId>, ids: seq<CommandId>, pos: seq<nat>, k: nat, l: nat)
    requires Picks(x, ids, pos) && Distinct(ids) && k < |x| && l < |x| && pos[k] < pos[l]
    ensures k < l && Distinct(x)
  {
    assert !(l < k);
  }

  /**
   Take any runbook call, whatever it replied, and any run of the broker in which
   the events of its commands are calls it made, in order. There the commands of
   the call never overlap, even across queue keys and whatever other callers do in
   between: every event of an earlier step's command comes before every event of a
   later one's.
   */
  lemma RunbookCommandsNeverOverlap(
      steps: seq<RunbookStep>, registry: map<string, Action>, worlds: seq<World>, ids: seq<CommandId>,
      reply: Runbook.Reply, results: seq<StepResult>, calls: seq<Call>,
      es: seq<Event>, a: nat, b: nat, i: nat, j: nat)
    requires |steps| == |worlds| == |ids| && Distinct(ids)
    requires RunOutcome(steps, registry, worlds, ids, reply, results, calls)
    requires IsRun(es) && CallsIn(es, ids) <= calls
    requires a < b < |ids| && i < |es| && j < |es|
    requires Concerns(es[i], ids[a]) && Concerns(es[j], ids[b])
    ensures i < j
  {
    var x, pos := UsedArePicked(steps, registry, worlds, ids, reply, results, calls);
    CallsOfUsed(es, ids, x, pos);
    ConcernedIsUsed(es, ids, x, i);
    ConcernedIsUsed(es, ids, x, j);
    var k := PlaceOf(x, ids, pos, a);
    var l := PlaceOf(x, ids, pos, b);
    PicksInOrder(x, ids, pos, k, l);
    RunbookIsSequential(es, x);
    SequentialCommandsNeverOverlap(es, x, k, l, i, j);
  }

  /** The step's action is registered, need not run as a job, is permitted and, where asked for, reauthenticated. */
  predicate Permitted(st: RunbookStep, registry: map<string, Action>, w: World) {
    && st.action in registry && !registry[st.action].longRunning && !IsJobOnly(st.action)
    && w.permitted == Some(true) && (registry[st.action].reauth ==> w.reauthenticated)
  }

  /**
   Whatever a runbook call wrote, offered or waited for belongs to a step whose action
   need not run as a job, whose permission was granted and which was reauthenticated
   where the action asks for it.
   */
  lemma CalledArePermitted(
      steps: seq<RunbookStep>, registry: map<string, Action>, worlds: seq<World>, ids: seq<CommandId>,
      reply: Runbook.Reply, results: seq<StepResult>, calls: seq<Call>, c: Call)
    requires |steps| == |worlds| == |ids| && RegistryOk(registry)
    requires RunOutcome(steps, registry, worlds, ids, reply, results, calls) && c in calls
    ensures exists k :: 0 <= k < |ids| && c.id == ids[k] && Permitted(steps[k], registry, worlds[k])
  {
    var n := |results|;
    var executed := ExecutedIds(steps, registry, worlds, ids, n);
    var pos := ExecutedArePicked(steps, registry, worlds, ids, n);
    var p :| 0 <= p < |calls| && calls[p] == c;
    if p < |Triples(executed)| {
      assert Triples(executed)[p] == c;
      TriplesAreOf(executed, p);
      var l :| 0 <= l < |executed| && executed[l] == c.id;
      assert Executes(steps[pos[l]], registry, worlds[pos[l]]) && ValidStep(steps[pos[l]], registry);
      assert Permitted(steps[pos[l]], registry, worlds[pos[l]]);
    } else {
      assert c in CallsOf(steps[n], registry, worlds[n], ids[n]);
      assert Permitted(steps[n], registry, worlds[n]) && c.id == ids[n];
    }
  }

  lemma JobOnlyActions(id: string)
    ensures IsJobOnly(id)
       <==> || id == "pmp.update.check" || id == "pmp.update.apply"
            || id == "pmp.update.cancel" || id == "pmp.update.force"
  {
  }
}
