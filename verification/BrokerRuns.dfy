/**
 What every run of the Command Broker keeps.

 A run is any sequence of possible events, so the statements below cover every
 interleaving of handlers, workers and caller timeouts.
 */
module BrokerRuns {
  import opened Prelude
  import opened Broker

  // ---------------------------------------------------------------------
  // Life of a single command, read off the event sequence alone
  // ---------------------------------------------------------------------

  datatype Stage =
    | Inserted
    | Rejected
    | Waiting
    | Executing
    | Written(outcome: Outcome)
    | Audited(outcome: Outcome)
    | Complete(outcome: Outcome)

  datatype Life = Life(task: Task, stage: Stage)

  /** The execution is over. */
  predicate HasOutcome(st: Stage) { st.Written? || st.Audited? || st.Complete? }

  /** The broker holds the task: it was accepted and is not done with. */
  predicate InBroker(st: Stage) { st.Waiting? || st.Executing? || st.Written? || st.Audited? }

  /** The stage an event takes its command to. */
  function Reached(e: Event): Stage
    requires !e.Timeout?
  {
    match e
    case Insert(_) => Inserted
    case Submit(_, accepted) => if accepted then Waiting else Rejected
    case Receive(_) => Executing
    case Finish(_, o) => Written(o)
    case Audit(_, o) => Audited(o)
    case Answer(_, o) => Complete(o)
  }

  function Advance(ls: map<CommandId, Life>, e: Event): map<CommandId, Life> {
    if e.Timeout? then ls else ls[e.task.id := Life(e.task, Reached(e))]
  }

  /** The stage every command has reached. */
  function Lives(es: seq<Event>): map<CommandId, Life> {
    if es == [] then map[] else Advance(Lives(Init(es)), Last(es))
  }

  predicate AtStage(ls: map<CommandId, Life>, t: Task, st: Stage) {
    t.id in ls && ls[t.id] == Life(t, st)
  }

  /** The event is the next one in its command's life cycle. */
  predicate InTurn(ls: map<CommandId, Life>, e: Event) {
    match e
    case Insert(t) => t.id !in ls
    case Submit(t, _) => AtStage(ls, t, Inserted)
    case Receive(t) => AtStage(ls, t, Waiting)
    case Finish(t, _) => AtStage(ls, t, Executing)
    case Audit(t, o) => AtStage(ls, t, Written(o))
    case Answer(t, o) => AtStage(ls, t, Audited(o))
    case Timeout(id) => id in ls && InBroker(ls[id].stage) && ls[id].task.completion
  }

  // ---------------------------------------------------------------------
  // The invariant: the state is determined by the stages reached
  // ---------------------------------------------------------------------

  /** The phase a worker must be in while its command is at this stage. */
  function PhaseAt(t: Task, st: Stage): Phase {
    match st
    case Executing => Running(t)
    case Written(o) => Recorded(t, o)
    case Audited(o) => Logged(t, o)
    case _ => Idle
  }

  /** A channel holds commands of its own key only, each at the stage its place says. */
  ghost predicate ChannelOk(ls: map<CommandId, Life>, key: string, ch: Channel) {
    && (forall t :: t in ch.queue ==> t.key == key && AtStage(ls, t, Waiting))
    && Distinct(ch.queue)
    && |ch.queue| <= QUEUE_CAPACITY
    && match ch.phase {
         case Idle => true
         case Running(t) => t.key == key && AtStage(ls, t, Executing)
         case Recorded(t, o) => t.key == key && AtStage(ls, t, Written(o))
         case Logged(t, o) => t.key == key && AtStage(ls, t, Audited(o))
       }
  }

  ghost predicate ChannelsOk(ls: map<CommandId, Life>, cs: map<string, Channel>) {
    forall k :: k in cs ==> ChannelOk(ls, k, cs[k])
  }

  /** A command the broker has accepted and not completed is in its key's channel. */
  ghost predicate HeldAt(l: Life, cs: map<string, Channel>) {
    InBroker(l.stage) ==>
      && l.task.key in cs
      && if l.stage.Waiting? then l.task in cs[l.task.key].queue
         else cs[l.task.key].phase == PhaseAt(l.task, l.stage)
  }

  ghost predicate AllHeld(ls: map<CommandId, Life>, cs: map<string, Channel>) {
    forall id :: id in ls ==> HeldAt(ls[id], cs)
  }

  function RowAt(l: Life): Row {
    if HasOutcome(l.stage) then FinishedRow(l.task, l.stage.outcome) else QueuedRow(l.task)
  }

  ghost predicate RowsMatch(ls: map<CommandId, Life>, rows: map<CommandId, Row>) {
    && ls.Keys == rows.Keys
    && (forall id :: id in ls ==> ls[id].task.id == id && rows[id] == RowAt(ls[id]))
  }

  ghost predicate InsertedMatch(ls: map<CommandId, Life>, inserted: map<CommandId, Task>) {
    && (forall id :: id in inserted ==> id in ls && ls[id] == Life(inserted[id], Inserted))
    && (forall id :: id in ls && ls[id].stage == Inserted ==> id in inserted)
  }

  /** The audit entries of one command, oldest first. */
  function EntriesOf(audits: seq<AuditEntry>, id: CommandId): seq<AuditEntry> {
    if audits == [] then []
    else if Last(audits).command == id then EntriesOf(Init(audits), id) + [Last(audits)]
    else EntriesOf(Init(audits), id)
  }

  function EntriesAt(ls: map<CommandId, Life>, id: CommandId): seq<AuditEntry> {
    if id in ls && ls[id].task.audited && (ls[id].stage.Audited? || ls[id].stage.Complete?)
    then [EntryOf(ls[id].task, ls[id].stage.outcome)] else []
  }

  ghost predicate AuditsMatch(ls: map<CommandId, Life>, audits: seq<AuditEntry>) {
    forall id :: EntriesOf(audits, id) == EntriesAt(ls, id)
  }

  /** The replies a command may have received by the time it has reached its stage. */
  ghost predicate ReplyOk(l: Life, listening: bool, reply: Option<Reply>) {
    match l.stage
    case Inserted => !listening && reply == None
    case Rejected => !listening && reply == Some(QueueFull)
    case Complete(o) =>
      && !listening
      && if l.task.completion then reply == Some(Answered(o)) || reply == Some(TimedOut)
         else reply == Some(JobAccepted)
    case _ =>
      if l.task.completion then reply == (if listening then None else Some(TimedOut))
      else !listening && reply == Some(JobAccepted)
  }

  ghost predicate RepliesMatch(ls: map<CommandId, Life>, waiters: set<CommandId>, replies: map<CommandId, Reply>) {
    && waiters <= ls.Keys
    && replies.Keys <= ls.Keys
    && (forall id :: id in ls ==> ReplyOk(ls[id], id in waiters, Lookup(replies, id)))
  }

  ghost predicate Linked(ls: map<CommandId, Life>, s: State) {
    && ChannelsOk(ls, s.channels)
    && AllHeld(ls, s.channels)
    && RowsMatch(ls, s.rows)
    && InsertedMatch(ls, s.inserted)
    && AuditsMatch(ls, s.audits)
    && RepliesMatch(ls, s.waiters, s.replies)
  }

  // ---------------------------------------------------------------------
  // Every step keeps it
  // ---------------------------------------------------------------------

  /** A possible event is always the next one in its command's life cycle. */
  lemma InTurnStep(ls: map<CommandId, Life>, s: State, e: Event)
    requires ChannelsOk(ls, s.channels) && ls.Keys == s.rows.Keys && InsertedMatch(ls, s.inserted)
    requires RepliesMatch(ls, s.waiters, s.replies)
    requires Enabled(s, e)
    ensures InTurn(ls, e)
  {
    match e
    case Insert(_) =>
    case Submit(t, _) =>
    case Receive(t) =>
      assert ChannelOk(ls, t.key, s.channels[t.key]) && t in s.channels[t.key].queue;
    case Finish(t, _) => assert ChannelOk(ls, t.key, s.channels[t.key]);
    case Audit(t, _) => assert ChannelOk(ls, t.key, s.channels[t.key]);
    case Answer(t, _) => assert ChannelOk(ls, t.key, s.channels[t.key]);
    case Timeout(id) => assert ReplyOk(ls[id], true, Lookup(s.replies, id));
  }

  lemma RowsStep(ls: map<CommandId, Life>, s: State, e: Event)
    requires RowsMatch(ls, s.rows) && InTurn(ls, e)
    ensures RowsMatch(Advance(ls, e), RowsAfter(s, e))
  {
    var ls', rows' := Advance(ls, e), RowsAfter(s, e);
    assert ls'.Keys == rows'.Keys;
    forall id | id in ls' ensures ls'[id].task.id == id && rows'[id] == RowAt(ls'[id]) {
      if id in ls {
        assert ls[id].task.id == id && s.rows[id] == RowAt(ls[id]);
      }
    }
  }

  lemma InsertedStep(ls: map<CommandId, Life>, s: State, e: Event)
    requires InsertedMatch(ls, s.inserted) && InTurn(ls, e)
    ensures InsertedMatch(Advance(ls, e), InsertedAfter(s, e))
  {
  }

  lemma AuditsStep(ls: map<CommandId, Life>, s: State, e: Event)
    requires AuditsMatch(ls, s.audits) && InTurn(ls, e)
    ensures AuditsMatch(Advance(ls, e), AuditsAfter(s, e))
  {
    var audits := AuditsAfter(s, e);
    forall id ensures EntriesOf(audits, id) == EntriesAt(Advance(ls, e), id) {
      assert EntriesOf(s.audits, id) == EntriesAt(ls, id);
      if e.Audit? && e.task.audited {
        assert Init(audits) == s.audits;
      }
    }
  }

  lemma RepliesStep(ls: map<CommandId, Life>, s: State, e: Event)
    requires RepliesMatch(ls, s.waiters, s.replies) && InTurn(ls, e)
    ensures RepliesMatch(Advance(ls, e), WaitersAfter(s, e), RepliesAfter(s, e))
  {
    var ls', waiters', replies' := Advance(ls, e), WaitersAfter(s, e), RepliesAfter(s, e);
    forall id | id in ls' ensures ReplyOk(ls'[id], id in waiters', Lookup(replies', id)) {
      if id in ls {
        assert ReplyOk(ls[id], id in s.waiters, Lookup(s.replies, id));
      }
    }
  }

  /** Moving one command on leaves the channels that do not hold it in order. */
  lemma ChannelFrame(ls: map<CommandId, Life>, key: string, ch: Channel, id: CommandId, l: Life)
    requires ChannelOk(ls, key, ch)
    requires id in ls ==> ls[id].task.key != key || ls[id].stage == Inserted
    ensures ChannelOk(ls[id := l], key, ch)
  {
  }

  /** The channel of the command that moves. */
  lemma OwnChannelStep(ls: map<CommandId, Life>, s: State, e: Event)
    requires ChannelsOk(ls, s.channels) && InTurn(ls, e) && Enabled(s, e)
    requires !e.Insert? && !e.Timeout?
    ensures ChannelOk(Advance(ls, e), e.task.key, ChannelsAfter(s, e)[e.task.key])
  {
    var key := e.task.key;
    var ch := ChannelOf(s.channels, key);
    assert ChannelOk(ls, key, ch);
    if e.Receive? {
      assert ch.queue[0] == e.task;
      forall t | t in ch.queue[1..] ensures t in ch.queue && t != e.task {
        var i :| 0 <= i < |ch.queue[1..]| && ch.queue[1..][i] == t;
        assert ch.queue[i + 1] == t;
      }
    } else if e.Submit? && e.accepted {
      assert e.task !in ch.queue;
    } else {
      assert e.task !in ch.queue;
    }
  }

  lemma ChannelsStep(ls: map<CommandId, Life>, s: State, e: Event)
    requires ChannelsOk(ls, s.channels) && InTurn(ls, e) && Enabled(s, e)
    ensures ChannelsOk(Advance(ls, e), ChannelsAfter(s, e))
  {
    if !e.Timeout? {
      var ls', cs' := Advance(ls, e), ChannelsAfter(s, e);
      if !e.Insert? {
        OwnChannelStep(ls, s, e);
      }
      forall k | k in cs' && (e.Insert? || k != e.task.key) ensures ChannelOk(ls', k, cs'[k]) {
        assert ChannelOk(ls, k, s.channels[k]);
        ChannelFrame(ls, k, s.channels[k], e.task.id, Life(e.task, Reached(e)));
      }
    }
  }

  lemma HeldStep(ls: map<CommandId, Life>, s: State, e: Event)
    requires ChannelsOk(ls, s.channels) && AllHeld(ls, s.channels) && RowsMatch(ls, s.rows)
    requires InTurn(ls, e) && Enabled(s, e)
    ensures AllHeld(Advance(ls, e), ChannelsAfter(s, e))
  {
    var ls', cs' := Advance(ls, e), ChannelsAfter(s, e);
    forall id | id in ls' ensures HeldAt(ls'[id], cs') {
      if id in ls && (e.Timeout? || id != e.task.id) {
        assert HeldAt(ls[id], s.channels);
        HeldFrame(ls, s, e, id);
      } else {
        HeldMoved(s, e);
      }
    }
  }

  /** The command that moves is where its new stage says. */
  lemma HeldMoved(s: State, e: Event)
    requires Enabled(s, e) && !e.Timeout?
    ensures HeldAt(Life(e.task, Reached(e)), ChannelsAfter(s, e))
  {
    if e.Submit? && e.accepted {
      var queue := ChannelOf(s.channels, e.task.key).queue;
      assert e.task in queue + [e.task];
    }
  }

  /** A command stays where it is while another one moves. */
  lemma HeldFrame(ls: map<CommandId, Life>, s: State, e: Event, id: CommandId)
    requires ChannelsOk(ls, s.channels) && InTurn(ls, e) && Enabled(s, e)
    requires id in ls && ls[id].task.id == id && HeldAt(ls[id], s.channels) && (e.Timeout? || id != e.task.id)
    ensures HeldAt(ls[id], ChannelsAfter(s, e))
  {
    var l := ls[id];
    if !e.Timeout? && !e.Insert? && InBroker(l.stage) && l.task.key == e.task.key {
      var ch := s.channels[l.task.key];
      assert ChannelOk(ls, l.task.key, ch);
      if e.Receive? && l.stage.Waiting? {
        var i :| 0 <= i < |ch.queue| && ch.queue[i] == l.task;
        assert ch.queue[1..][i - 1] == l.task;
      }
    }
  }

  lemma {:induction false} RunLinked(es: seq<Event>)
    requires IsRun(es)
    ensures Linked(Lives(es), After(es))
  {
    if es != [] {
      var ls, s, e := Lives(Init(es)), After(Init(es)), Last(es);
      RunLinked(Init(es));
      InTurnStep(ls, s, e);
      ChannelsStep(ls, s, e);
      HeldStep(ls, s, e);
      RowsStep(ls, s, e);
      InsertedStep(ls, s, e);
      AuditsStep(ls, s, e);
      RepliesStep(ls, s, e);
    }
  }
}
