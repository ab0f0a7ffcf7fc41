/**
 The broker's promises, stated over whole runs: first in, first out and one at a
 time per key; one life cycle per command; row, audit entry and answer agree;
 nothing is lost; timeouts are invisible; sequential callers never overlap.
 */
module BrokerTheorems {
  import opened Prelude
  import opened Registry
  import opened Texts
  import opened Broker
  import opened BrokerRuns
  import Utf8

  // ---------------------------------------------------------------------
  // Prefixes of runs
  // ---------------------------------------------------------------------

  lemma {:induction false} PrefixIsRun(es: seq<Event>, n: nat)
    requires IsRun(es) && n <= |es|
    ensures IsRun(es[..n])
    decreases |es|
  {
    if n == |es| {
      assert es[..n] == es;
    } else {
      PrefixIsRun(Init(es), n);
      assert Init(es)[..n] == es[..n];
    }
  }

  /** What happens at one point of a run. */
  lemma StepAt(es: seq<Event>, i: nat)
    requires IsRun(es) && i < |es|
    ensures IsRun(es[..i]) && IsRun(es[..i + 1])
    ensures Enabled(After(es[..i]), es[i])
    ensures After(es[..i + 1]) == Step(After(es[..i]), es[i])
    ensures Lives(es[..i + 1]) == Advance(Lives(es[..i]), es[i])
    ensures InTurn(Lives(es[..i]), es[i])
  {
    PrefixIsRun(es, i);
    PrefixIsRun(es, i + 1);
    assert Init(es[..i + 1]) == es[..i];
    RunLinked(es[..i]);
    InTurnStep(Lives(es[..i]), After(es[..i]), es[i]);
  }

  // ---------------------------------------------------------------------
  // One life cycle per command
  // ---------------------------------------------------------------------

  /** How far along its life cycle a stage is. */
  function Rank(st: Stage): nat {
    match st
    case Inserted => 1
    case Waiting => 2
    case Executing => 3
    case Written(_) => 4
    case Audited(_) => 5
    case Complete(_) => 6
    case Rejected => 6
  }

  function RankAt(ls: map<CommandId, Life>, id: CommandId): nat {
    if id in ls then Rank(ls[id].stage) else 0
  }

  predicate Concerns(e: Event, id: CommandId) { !e.Timeout? && e.task.id == id }

  /** An event in turn moves its own command on, and leaves the others alone. */
  lemma RankStep(ls: map<CommandId, Life>, e: Event, id: CommandId)
    requires InTurn(ls, e)
    ensures Concerns(e, id) ==> RankAt(ls, id) < RankAt(Advance(ls, e), id)
    ensures !Concerns(e, id) ==> Lookup(ls, id) == Lookup(Advance(ls, e), id)
    ensures RankAt(ls, id) <= RankAt(Advance(ls, e), id)
  {
  }

  /**
   The events of one command come in the order of its life cycle, each at most
   once: a later event always finds the command further along.
   */
  lemma {:induction false} EventsInOrder(es: seq<Event>, i: nat, j: nat, id: CommandId)
    requires IsRun(es) && i <= j <= |es|
    ensures RankAt(Lives(es[..i]), id) <= RankAt(Lives(es[..j]), id)
    ensures forall m :: i <= m < j && Concerns(es[m], id) ==> RankAt(Lives(es[..i]), id) < RankAt(Lives(es[..j]), id)
    decreases j - i
  {
    if i < j {
      EventsInOrder(es, i, j - 1, id);
      StepAt(es, j - 1);
      RankStep(Lives(es[..j - 1]), es[j - 1], id);
    }
  }

  /** Once a command is answered or refused, nothing more happens to it. */
  lemma CompleteIsFinal(es: seq<Event>, i: nat, j: nat, id: CommandId)
    requires IsRun(es) && i <= j < |es|
    requires RankAt(Lives(es[..i]), id) == 6
    ensures !Concerns(es[j], id)
  {
    EventsInOrder(es, i, j, id);
    StepAt(es, j);
  }

  // ---------------------------------------------------------------------
  // First in, first out, one at a time
  // ---------------------------------------------------------------------

  /** Tasks accepted for a key, in the order in which they were accepted. */
  function AcceptedOf(es: seq<Event>, key: string): seq<Task> {
    if es == [] then []
    else if Last(es).Submit? && Last(es).accepted && Last(es).task.key == key
    then AcceptedOf(Init(es), key) + [Last(es).task]
    else AcceptedOf(Init(es), key)
  }

  /** Tasks whose execution has begun, in order. */
  function StartedOf(es: seq<Event>, key: string): seq<Task> {
    if es == [] then []
    else if Last(es).Receive? && Last(es).task.key == key
    then StartedOf(Init(es), key) + [Last(es).task]
    else StartedOf(Init(es), key)
  }

  /** Tasks whose execution is over, in order. */
  function EndedOf(es: seq<Event>, key: string): seq<Task> {
    if es == [] then []
    else if Last(es).Answer? && Last(es).task.key == key
    then EndedOf(Init(es), key) + [Last(es).task]
    else EndedOf(Init(es), key)
  }

  /** The task a worker is busy with. */
  function Current(phase: Phase): seq<Task> {
    if phase.Idle? then [] else [phase.task]
  }

  /** What a key's channel holds is exactly what its history says is left to do. */
  ghost predicate Account(es: seq<Event>, cs: map<string, Channel>, key: string) {
    var ch := ChannelOf(cs, key);
    && AcceptedOf(es, key) == StartedOf(es, key) + ch.queue
    && StartedOf(es, key) == EndedOf(es, key) + Current(ch.phase)
  }

  lemma AccountStep(es: seq<Event>, s: State, e: Event, key: string)
    requires Account(es, s.channels, key) && Enabled(s, e)
    ensures Account(es + [e], ChannelsAfter(s, e), key)
  {
    assert Init(es + [e]) == es;
    var ch := ChannelOf(s.channels, key);
    if e.Submit? && e.accepted && e.task.key == key {
      assert StartedOf(es, key) + (ch.queue + [e.task]) == (StartedOf(es, key) + ch.queue) + [e.task];
    } else if e.Receive? && e.task.key == key {
      assert ch.queue == [e.task] + ch.queue[1..];
      assert StartedOf(es, key) + ch.queue == (StartedOf(es, key) + [e.task]) + ch.queue[1..];
    }
  }

  lemma {:induction false} RunAccount(es: seq<Event>, key: string)
    requires IsRun(es)
    ensures Account(es, After(es).channels, key)
  {
    if es != [] {
      RunAccount(Init(es), key);
      AccountStep(Init(es), After(Init(es)), Last(es), key);
      assert Init(es) + [Last(es)] == es;
    }
  }

  /**
   Queue discipline of one key, in every run: execution follows the accepted
   order, at most one task runs and at most 64 wait, and the
   accepted tasks are the ended ones, then the running one, then the waiting ones.
   */
  lemma QueueDiscipline(es: seq<Event>, key: string)
    requires IsRun(es)
    ensures EndedOf(es, key) <= StartedOf(es, key) <= AcceptedOf(es, key)
    ensures |StartedOf(es, key)| <= |EndedOf(es, key)| + 1
    ensures |AcceptedOf(es, key)| <= |StartedOf(es, key)| + 64
    ensures var ch := ChannelOf(After(es).channels, key);
            AcceptedOf(es, key) == EndedOf(es, key) + Current(ch.phase) + ch.queue
  {
    RunAccount(es, key);
    RunLinked(es);
    if key in After(es).channels {
      assert ChannelOk(Lives(es), key, After(es).channels[key]);
    }
  }

  /** A task is accepted exactly when fewer than 64 tasks of its key have been accepted and not begun. */
  lemma AcceptedIffRoom(es: seq<Event>, i: nat)
    requires IsRun(es) && i < |es| && es[i].Submit?
    ensures var key := es[i].task.key;
            es[i].accepted <==> |AcceptedOf(es[..i], key)| < |StartedOf(es[..i], key)| + 64
  {
    StepAt(es, i);
    RunAccount(es[..i], es[i].task.key);
  }

  /** A worker can always begin the first task that waits, once it has answered the one before. */
  lemma NextCanStart(es: seq<Event>, key: string)
    requires IsRun(es) && StartedOf(es, key) == EndedOf(es, key) && |StartedOf(es, key)| < |AcceptedOf(es, key)|
    ensures var t := AcceptedOf(es, key)[|StartedOf(es, key)|];
            t.key == key && IsRun(es + [Receive(t)])
  {
    RunAccount(es, key);
    RunLinked(es);
    var ch := ChannelOf(After(es).channels, key);
    assert ChannelOk(Lives(es), key, ch);
    assert ch.queue[0] in ch.queue;
    assert Init(es + [Receive(ch.queue[0])]) == es;
  }

  /** The command was accepted by the broker at some point. */
  predicate WasAccepted(ls: map<CommandId, Life>, t: Task) {
    t.id in ls && ls[t.id].task == t && (InBroker(ls[t.id].stage) || ls[t.id].stage.Complete?)
  }

  lemma {:induction false} AcceptedByStage(es: seq<Event>, t: Task)
    requires IsRun(es)
    ensures t in AcceptedOf(es, t.key) <==> WasAccepted(Lives(es), t)
  {
    if es != [] {
      AcceptedByStage(Init(es), t);
      assert es[..|es|] == es && es[..|es| - 1] == Init(es);
      StepAt(es, |es| - 1);
    }
  }

  /** No task is accepted twice. */
  lemma {:induction false} AcceptedOnce(es: seq<Event>, key: string)
    requires IsRun(es)
    ensures Distinct(AcceptedOf(es, key))
  {
    if es != [] {
      AcceptedOnce(Init(es), key);
      if Last(es).Submit? && Last(es).accepted && Last(es).task.key == key {
        AcceptedByStage(Init(es), Last(es).task);
        assert es[..|es|] == es && es[..|es| - 1] == Init(es);
        StepAt(es, |es| - 1);
      }
    }
  }

  lemma OnePlace<T>(a: seq<T>, b: seq<T>, c: seq<T>, x: T)
    requires Distinct(a + b + c)
    ensures !(x in a && x in b) && !(x in a && x in c) && !(x in b && x in c)
  {
    var all := a + b + c;
    assert forall i :: 0 <= i < |a| ==> a[i] == all[i];
    assert forall i :: 0 <= i < |b| ==> b[i] == all[|a| + i];
    assert forall i :: 0 <= i < |c| ==> c[i] == all[|a| + |b| + i];
  }

  /** Every accepted task is in exactly one place: ended, running or waiting. */
  lemma AcceptedInOnePlace(es: seq<Event>, t: Task)
    requires IsRun(es) && t in AcceptedOf(es, t.key)
    ensures var ch := ChannelOf(After(es).channels, t.key);
            var ended, running, waiting := t in EndedOf(es, t.key), t in Current(ch.phase), t in ch.queue;
            && (ended || running || waiting)
            && !(ended && running) && !(ended && waiting) && !(running && waiting)
  {
    QueueDiscipline(es, t.key);
    AcceptedOnce(es, t.key);
    var ch := ChannelOf(After(es).channels, t.key);
    OnePlace(EndedOf(es, t.key), Current(ch.phase), ch.queue, t);
  }

  // ---------------------------------------------------------------------
  // Executions of one key do not overlap
  // ---------------------------------------------------------------------

  predicate Underway(st: Stage) { st.Executing? || st.Written? || st.Audited? }

  /** A command that is under way stays under way until it is answered. */
  lemma {:induction false} UnderwayUntilAnswered(es: seq<Event>, i: nat, j: nat, id: CommandId)
    requires IsRun(es) && i <= j <= |es|
    requires id in Lives(es[..i]) && Underway(Lives(es[..i])[id].stage)
    requires forall m :: i <= m < j ==> !(es[m].Answer? && es[m].task.id == id)
    ensures id in Lives(es[..j]) && Underway(Lives(es[..j])[id].stage)
    ensures Lives(es[..j])[id].task == Lives(es[..i])[id].task
    decreases j - i
  {
    if i < j {
      UnderwayUntilAnswered(es, i, j - 1, id);
      StepAt(es, j - 1);
    }
  }

  lemma BusyWhileUnderway(es: seq<Event>, id: CommandId)
    requires IsRun(es) && id in Lives(es) && Underway(Lives(es)[id].stage)
    ensures var t := Lives(es)[id].task;
            t.key in After(es).channels && Current(After(es).channels[t.key].phase) == [t]
  {
    RunLinked(es);
    assert HeldAt(Lives(es)[id], After(es).channels);
  }

  /**
   Between the start of one execution and the start of a later one of the same
   key, the first one has ended and its caller has been answered.
   */
  lemma ExecutionsDoNotOverlap(es: seq<Event>, i: nat, j: nat)
    requires IsRun(es) && i < j < |es|
    requires es[i].Receive? && es[j].Receive? && es[i].task.key == es[j].task.key
    ensures exists m :: i < m < j && es[m].Answer? && es[m].task == es[i].task
  {
    var t := es[i].task;
    StepAt(es, i);
    if forall m :: i < m < j ==> !(es[m].Answer? && es[m].task.id == t.id) {
      UnderwayUntilAnswered(es, i + 1, j, t.id);
      PrefixIsRun(es, j);
      BusyWhileUnderway(es[..j], t.id);
      StepAt(es, j);
      assert false;
    }
    var m :| i < m < j && es[m].Answer? && es[m].task.id == t.id;
    SameTask(es, i, m, t.id);
  }

  /** Events with the same command id carry the same task. */
  lemma SameTask(es: seq<Event>, i: nat, m: nat, id: CommandId)
    requires IsRun(es) && i < m < |es|
    requires Concerns(es[i], id) && Concerns(es[m], id)
    ensures es[i].task == es[m].task
  {
    StepAt(es, i);
    TaskKept(es, i + 1, m, id);
    StepAt(es, m);
  }

  lemma {:induction false} TaskKept(es: seq<Event>, i: nat, j: nat, id: CommandId)
    requires IsRun(es) && i <= j <= |es|
    requires id in Lives(es[..i])
    ensures id in Lives(es[..j]) && Lives(es[..j])[id].task == Lives(es[..i])[id].task
    decreases j - i
  {
    if i < j {
      TaskKept(es, i, j - 1, id);
      StepAt(es, j - 1);
    }
  }

  /**
   Two room-scoped commands aimed at the same room never overlap, whatever user
   they name: when the second one starts, the first one has been answered.
   */
  lemma SameRoomNeverOverlaps(es: seq<Event>, i: nat, j: nat, room: string, u: Option<string>, v: Option<string>)
    requires IsRun(es) && i < j < |es| && es[i].Receive? && es[j].Receive?
    requires es[i].task.key == ResolveQueueKey(ROOM_TEMPLATE, Some(room), u)
    requires es[j].task.key == ResolveQueueKey(ROOM_TEMPLATE, Some(room), v)
    requires !Contains(room, USER_HOLE)
    ensures exists m :: i < m < j && es[m].Answer? && es[m].task == es[i].task
  {
    RoomKeysSeparateRooms(room, u, room, v);
    ExecutionsDoNotOverlap(es, i, j);
  }

  // ---------------------------------------------------------------------
  // Row, audit entry and answer agree
  // ---------------------------------------------------------------------

  /** The outcomes with which a command's execution ended. */
  function OutcomesOf(es: seq<Event>, id: CommandId): seq<Outcome> {
    if es == [] then []
    else if Last(es).Finish? && Last(es).task.id == id
    then OutcomesOf(Init(es), id) + [Last(es).outcome]
    else OutcomesOf(Init(es), id)
  }

  lemma {:induction false} OutcomesByStage(es: seq<Event>, id: CommandId)
    requires IsRun(es)
    ensures OutcomesOf(es, id) ==
            if id in Lives(es) && HasOutcome(Lives(es)[id].stage) then [Lives(es)[id].stage.outcome] else []
  {
    if es != [] {
      OutcomesByStage(Init(es), id);
      assert es[..|es|] == es && es[..|es| - 1] == Init(es);
      StepAt(es, |es| - 1);
    }
  }

  /**
   In every run a command ends at most once. Its row is `queued` until then. If it
   ended with a value, the row says `succeeded`, shows the value and has no error; if
   with an error, it says `failed` and shows the error. There is at most one audit
   entry, and exactly one once an audited command is complete; it says the same. A
   caller that was answered got that very outcome.
   */
  lemma RecordsAgree(es: seq<Event>, id: CommandId)
    requires IsRun(es) && id in After(es).rows
    ensures |OutcomesOf(es, id)| <= 1 && id in Lives(es)
    ensures var s, t := After(es), Lives(es)[id].task;
            s.rows[id].action == t.action && s.rows[id].key == t.key
    ensures OutcomesOf(es, id) == [] ==>
      && var row := After(es).rows[id];
      && row.status == Queued && row.summary == "" && row.errorCode == ""
      && EntriesOf(After(es).audits, id) == []
    ensures OutcomesOf(es, id) != [] ==>
      && var s, t, o := After(es), Lives(es)[id].task, OutcomesOf(es, id)[0];
      && var row, entries := s.rows[id], EntriesOf(s.audits, id);
      && |entries| <= 1
      && match o {
           case Value(text) =>
             && row.status == Succeeded && row.summary == text && row.errorCode == ""
             && (entries != [] ==> entries[0] == AuditEntry(id, t.action, Succeeded, ""))
           case Error(m) =>
             && row.status == Failed && row.summary == "" && ShownAs(m, row.errorCode)
             && (entries != [] ==> entries[0] == AuditEntry(id, t.action, Failed, row.errorCode))
         }
    ensures Lives(es)[id].stage.Complete? ==>
      && OutcomesOf(es, id) != []
      && |EntriesOf(After(es).audits, id)| == if Lives(es)[id].task.audited then 1 else 0
    ensures id in After(es).replies && After(es).replies[id].Answered? ==>
      OutcomesOf(es, id) == [After(es).replies[id].outcome]
  {
    hide Run, OutcomesOf, EntriesOf, Truncate, ShownAs;
    OutcomesByStage(es, id);
    RunLinked(es);
    assert ReplyOk(Lives(es)[id], id in After(es).waiters, Lookup(After(es).replies, id));
    assert EntriesOf(After(es).audits, id) == EntriesAt(Lives(es), id);
    if OutcomesOf(es, id) != [] && OutcomesOf(es, id)[0].Error? {
      CutIsLongest(OutcomesOf(es, id)[0].message);
    }
  }

  // ---------------------------------------------------------------------
  // What callers are told
  // ---------------------------------------------------------------------

  predicate Refuses(e: Event, id: CommandId) { e.Submit? && e.task.id == id && !e.accepted }

  predicate Detaches(e: Event, id: CommandId) { e.Submit? && e.task.id == id && e.accepted && !e.task.completion }

  predicate Answers(e: Event, id: CommandId, o: Outcome) {
    e.Answer? && e.task.id == id && e.outcome == o && e.task.completion
  }

  predicate Tells(e: Event, id: CommandId) {
    Refuses(e, id) || Detaches(e, id) || e == Timeout(id) || (e.Answer? && e.task.id == id && e.task.completion)
  }

  /** One more event: whose reply it changes, and to what. */
  lemma ReplyMoves(es: seq<Event>, id: CommandId)
    requires es != [] && IsRun(es)
    ensures var before, e := Lookup(After(Init(es)).replies, id), Last(es);
            && var now := Lookup(After(es).replies, id);
            && (Refuses(e, id) ==> before == None && now == Some(QueueFull))
            && (Detaches(e, id) ==> before == None && now == Some(JobAccepted))
            && (e == Timeout(id) ==> before == None && now == Some(TimedOut))
            && (e.Answer? && e.task.id == id && e.task.completion && before == None ==>
                  now == Some(Answered(e.outcome)))
            && (e.Answer? && e.task.id == id && e.task.completion && before != None ==> before == Some(TimedOut) == now)
            && (Tells(e, id) || now == before)
  {
    var s, e, ls := After(Init(es)), Last(es), Lives(Init(es));
    RunLinked(Init(es));
    InTurnStep(ls, s, e);
    if id in ls {
      assert ReplyOk(ls[id], id in s.waiters, Lookup(s.replies, id));
    }
  }

  /**
   What a caller is told, in every run: the queue is full exactly when its task was
   refused; a job was accepted exactly when its task was accepted and nobody waits
   for it; the time is up exactly when it gave up waiting; and otherwise the outcome
   with which its task was answered.
   */
  lemma {:induction false} CallersAreTold(es: seq<Event>, id: CommandId)
    requires IsRun(es)
    ensures var reply := Lookup(After(es).replies, id);
            && (reply == Some(QueueFull) <==> exists i :: 0 <= i < |es| && Refuses(es[i], id))
            && (reply == Some(JobAccepted) <==> exists i :: 0 <= i < |es| && Detaches(es[i], id))
            && (reply == Some(TimedOut) <==> exists i :: 0 <= i < |es| && es[i] == Timeout(id))
            && (forall o :: reply == Some(Answered(o)) <==>
                  && (exists i :: 0 <= i < |es| && Answers(es[i], id, o))
                  && !exists i :: 0 <= i < |es| && es[i] == Timeout(id))
    decreases |es|
  {
    if es != [] {
      CallersAreTold(Init(es), id);
      ReplyMoves(es, id);
      assert forall i :: 0 <= i < |es| - 1 ==> es[i] == Init(es)[i];
    }
  }

  predicate EndedWith(ls: map<CommandId, Life>, id: CommandId, t: Task, o: Outcome) {
    id in ls && ls[id].task == t && HasOutcome(ls[id].stage) && ls[id].stage.outcome == o
  }

  lemma OutcomeKept(ls: map<CommandId, Life>, e: Event, id: CommandId, t: Task, o: Outcome)
    requires InTurn(ls, e) && EndedWith(ls, id, t, o)
    ensures EndedWith(Advance(ls, e), id, t, o)
  {
  }

  lemma {:induction false} EndedForever(es: seq<Event>, i: nat, j: nat, id: CommandId, t: Task, o: Outcome)
    requires IsRun(es) && i <= j <= |es| && EndedWith(Lives(es[..i]), id, t, o)
    ensures EndedWith(Lives(es[..j]), id, t, o)
    decreases j - i
  {
    if i < j {
      EndedForever(es, i, j - 1, id, t, o);
      StepAt(es, j - 1);
      OutcomeKept(Lives(es[..j - 1]), es[j - 1], id, t, o);
    }
  }

  lemma EndedRow(es: seq<Event>, id: CommandId, t: Task, o: Outcome)
    requires IsRun(es) && EndedWith(Lives(es), id, t, o)
    ensures OutcomesOf(es, id) == [o]
    ensures id in After(es).rows && After(es).rows[id] == FinishedRow(t, o)
  {
    OutcomesByStage(es, id);
    RunLinked(es);
  }

  /** The outcome in a finished row never changes again. */
  lemma OutcomeIsForever(es: seq<Event>, n: nat, id: CommandId)
    requires IsRun(es) && n <= |es| && IsRun(es[..n])
    requires OutcomesOf(es[..n], id) != []
    ensures OutcomesOf(es, id) == OutcomesOf(es[..n], id)
    ensures id in After(es[..n]).rows && id in After(es).rows
    ensures After(es).rows[id] == After(es[..n]).rows[id]
  {
    OutcomesByStage(es[..n], id);
    var l := Lives(es[..n])[id];
    EndedForever(es, n, |es|, id, l.task, l.stage.outcome);
    assert es[..|es|] == es;
    EndedRow(es[..n], id, l.task, l.stage.outcome);
    EndedRow(es, id, l.task, l.stage.outcome);
  }

  // ---------------------------------------------------------------------
  // Nothing is lost
  // ---------------------------------------------------------------------

  function QueuedIds(s: State): set<CommandId> {
    set id | id in s.rows && s.rows[id].status == Queued
  }

  function WaitingIds(s: State): set<CommandId> {
    set k, t | k in s.channels && t in s.channels[k].queue :: t.id
  }

  function RunningIds(s: State): set<CommandId> {
    set k | k in s.channels && s.channels[k].phase.Running? :: s.channels[k].phase.task.id
  }

  function RejectedIds(s: State): set<CommandId> {
    set id | id in s.replies && s.replies[id] == QueueFull
  }

  /**
   The rows still `queued` are those not yet offered, those waiting, those
   running and those the broker refused; no command is in two of these groups.
   */
  lemma QueuedRowsAccountedFor(es: seq<Event>)
    requires IsRun(es)
    ensures var s := After(es);
            && QueuedIds(s) == s.inserted.Keys + WaitingIds(s) + RunningIds(s) + RejectedIds(s)
            && |QueuedIds(s)| == |s.inserted.Keys| + |WaitingIds(s)| + |RunningIds(s)| + |RejectedIds(s)|
  {
    RunLinked(es);
    var s, ls := After(es), Lives(es);
    WaitingByStage(ls, s);
    RunningByStage(ls, s);
    RejectedByStage(ls, s);
    QueuedByStage(ls, s);
    StagesApart(ls);
  }

  lemma StagesApart(ls: map<CommandId, Life>)
    ensures var a, b := (set id | id in ls && ls[id].stage.Inserted?), (set id | id in ls && ls[id].stage.Waiting?);
            var c, d := (set id | id in ls && ls[id].stage.Executing?), (set id | id in ls && ls[id].stage.Rejected?);
            |a + b + c + d| == |a| + |b| + |c| + |d|
  {
    var a, b, c, d := (set id | id in ls && ls[id].stage.Inserted?), (set id | id in ls && ls[id].stage.Waiting?),
                      (set id | id in ls && ls[id].stage.Executing?), (set id | id in ls && ls[id].stage.Rejected?);
    assert a !! b && (a + b) !! c && (a + b + c) !! d;
  }

  lemma QueuedByStage(ls: map<CommandId, Life>, s: State)
    requires RowsMatch(ls, s.rows) && InsertedMatch(ls, s.inserted)
    ensures s.inserted.Keys == set id | id in ls && ls[id].stage.Inserted?
    ensures QueuedIds(s) == (set id | id in ls && ls[id].stage.Inserted?) + (set id | id in ls && ls[id].stage.Waiting?)
                          + (set id | id in ls && ls[id].stage.Executing?)
                          + (set id | id in ls && ls[id].stage.Rejected?)
  {
    hide RowsMatch, QueuedIds;
    QueuedHaveNoOutcome(ls, s);
    forall id | id in ls && !HasOutcome(ls[id].stage)
      ensures ls[id].stage.Inserted? || ls[id].stage.Waiting? || ls[id].stage.Executing? || ls[id].stage.Rejected?
    {
    }
  }

  lemma QueuedHaveNoOutcome(ls: map<CommandId, Life>, s: State)
    requires RowsMatch(ls, s.rows)
    ensures QueuedIds(s) == set id | id in ls && !HasOutcome(ls[id].stage)
  {
    forall id | id in ls ensures id in QueuedIds(s) <==> !HasOutcome(ls[id].stage) {
      assert s.rows[id] == RowAt(ls[id]);
    }
  }

  lemma WaitingByStage(ls: map<CommandId, Life>, s: State)
    requires Linked(ls, s)
    ensures WaitingIds(s) == set id | id in ls && ls[id].stage.Waiting?
  {
    forall id | id in ls && ls[id].stage.Waiting? ensures id in WaitingIds(s) {
      assert HeldAt(ls[id], s.channels);
    }
    forall k, t | k in s.channels && t in s.channels[k].queue ensures t.id in ls && ls[t.id].stage.Waiting? {
      assert ChannelOk(ls, k, s.channels[k]);
    }
  }

  lemma RunningByStage(ls: map<CommandId, Life>, s: State)
    requires Linked(ls, s)
    ensures RunningIds(s) == set id | id in ls && ls[id].stage.Executing?
  {
    forall id | id in ls && ls[id].stage.Executing? ensures id in RunningIds(s) {
      assert HeldAt(ls[id], s.channels);
    }
    forall k | k in s.channels && s.channels[k].phase.Running?
      ensures s.channels[k].phase.task.id in ls && ls[s.channels[k].phase.task.id].stage.Executing?
    {
      assert ChannelOk(ls, k, s.channels[k]);
    }
  }

  lemma RejectedByStage(ls: map<CommandId, Life>, s: State)
    requires Linked(ls, s)
    ensures RejectedIds(s) == set id | id in ls && ls[id].stage.Rejected?
  {
    forall id | id in ls ensures id in RejectedIds(s) <==> ls[id].stage.Rejected? {
      assert ReplyOk(ls[id], id in s.waiters, Lookup(s.replies, id));
    }
  }

  // ---------------------------------------------------------------------
  // A caller's timeout changes nothing but that caller's reply
  // ---------------------------------------------------------------------

  /** The run as it would have been had no caller given up. */
  function Patient(es: seq<Event>): seq<Event> {
    if es == [] then []
    else if Last(es).Timeout? then Patient(Init(es))
    else Patient(Init(es)) + [Last(es)]
  }

  /** The caller was answered alike, unless it gave up. */
  predicate SameReply(s: State, patient: State, id: CommandId) {
    Lookup(s.replies, id) == Some(TimedOut) || Lookup(s.replies, id) == Lookup(patient.replies, id)
  }

  /** Two states differ at most in who listens and in replies that became timeouts. */
  ghost predicate SameButTimeouts(s: State, patient: State) {
    && s.channels == patient.channels
    && s.rows == patient.rows
    && s.audits == patient.audits
    && s.inserted == patient.inserted
    && s.waiters <= patient.waiters
    && (forall id :: SameReply(s, patient, id))
    && (forall id :: id in patient.waiters - s.waiters ==> id in s.replies && s.replies[id] == TimedOut)
  }

  lemma PatientStep(s: State, p: State, e: Event)
    requires SameButTimeouts(s, p) && Enabled(s, e) && !e.Timeout?
    requires e.Submit? ==> e.task.id !in s.replies
    ensures Enabled(p, e) && SameButTimeouts(Step(s, e), Step(p, e))
  {
    var s', p' := Step(s, e), Step(p, e);
    forall id ensures SameReply(s', p', id) {
      assert SameReply(s, p, id);
    }
  }

  /**
   Removing every timeout from a run gives a run that ends with the same
   channels, rows and audit entries, and the same replies to all other callers.
   */
  lemma {:induction false} TimeoutsChangeNothing(es: seq<Event>)
    requires IsRun(es)
    ensures IsRun(Patient(es))
    ensures SameButTimeouts(After(es), After(Patient(es)))
  {
    if es != [] {
      TimeoutsChangeNothing(Init(es));
      var s, p, e := After(Init(es)), After(Patient(Init(es))), Last(es);
      if !e.Timeout? {
        if e.Submit? {
          RunLinked(Init(es));
          assert ReplyOk(Lives(Init(es))[e.task.id], e.task.id in s.waiters, Lookup(s.replies, e.task.id));
        }
        PatientStep(s, p, e);
        assert Init(Patient(es)) == Patient(Init(es));
      } else {
        forall id ensures SameReply(After(es), p, id) {
          assert SameReply(s, p, id);
        }
      }
    }
  }

  // ---------------------------------------------------------------------
  // Sequential callers
  // ---------------------------------------------------------------------

  /**
   A caller that writes the row of its next command only after the previous one
   has been answered, as a runbook does. Its commands may use any queue keys.
   */
  ghost predicate Sequential(es: seq<Event>, ids: seq<CommandId>) {
    forall a, b, j :: 0 <= a < b < |ids| && 0 <= j < |es| && es[j].Insert? && es[j].task.id == ids[b] ==>
      exists i :: 0 <= i < j && es[i].Answer? && es[i].task.id == ids[a]
  }

  lemma {:induction false} InsertedBefore(es: seq<Event>, j: nat, id: CommandId) returns (i: nat)
    requires IsRun(es) && j <= |es| && id in Lives(es[..j])
    ensures i < j && es[i].Insert? && es[i].task.id == id
    decreases j
  {
    StepAt(es, j - 1);
    if es[j - 1].Insert? && es[j - 1].task.id == id {
      i := j - 1;
    } else {
      i := InsertedBefore(es, j - 1, id);
    }
  }

  /** Before any event of a later command, the earlier one has been answered. */
  lemma AnsweredBefore(es: seq<Event>, ids: seq<CommandId>, a: nat, b: nat, j: nat) returns (n: nat)
    requires IsRun(es) && Sequential(es, ids)
    requires a < b < |ids| && j < |es| && Concerns(es[j], ids[b])
    ensures n < j && es[n].Answer? && es[n].task.id == ids[a]
  {
    var m: nat := j;
    if !es[j].Insert? {
      StepAt(es, j);
      m := InsertedBefore(es, j, ids[b]);
    }
    var earlier := ids[a];
    assert es[m].Insert? && es[m].task.id == ids[b];
    n :| 0 <= n < m && es[n].Answer? && es[n].task.id == earlier;
  }

  /** Every event of an earlier command comes before every event of a later one. */
  lemma SequentialCommandsNeverOverlap(es: seq<Event>, ids: seq<CommandId>, a: nat, b: nat, i: nat, j: nat)
    requires IsRun(es) && Sequential(es, ids)
    requires a < b < |ids| && i < |es| && j < |es|
    requires Concerns(es[i], ids[a]) && Concerns(es[j], ids[b])
    ensures i < j
  {
    var n := AnsweredBefore(es, ids, a, b, j);
    if i > n {
      StepAt(es, n);
      CompleteIsFinal(es, n + 1, i, ids[a]);
    }
  }
}
