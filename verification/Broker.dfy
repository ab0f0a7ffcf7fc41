/**
 The Command Broker and its records.

 Commands sharing a queue key are executed one after the other by that key's
 worker; different keys run in parallel. A handler first inserts a `queued` row
 and then offers the task to the broker; the worker takes it, runs it, writes
 the final row, writes the audit entry and finally answers the waiting caller.
 Each of these is one step here, and steps of different handlers and workers
 interleave freely.
 */
module Broker {
  import opened Prelude
  import Utf8

  /** Capacity of a worker's channel. */
  const QUEUE_CAPACITY := 64
  /** Length in bytes beyond which an error text is cut in the row and in the audit entry. */
  const ERROR_LIMIT := 120

  type CommandId = nat

  /** What running a command returns: a JSON value (as text) or an error text. */
  datatype Outcome = Value(text: string) | Error(message: string)

  /** `completion`: a caller awaits the result. `audited`: audit metadata is attached. */
  datatype Task = Task(id: CommandId, action: string, key: string, completion: bool, audited: bool)

  /** Where a worker is in its loop. */
  datatype Phase =
    | Idle
    | Running(task: Task)
    | Recorded(task: Task, outcome: Outcome)
    | Logged(task: Task, outcome: Outcome)

  /** A queue key's channel, together with the worker that drains it. */
  datatype Channel = Channel(queue: seq<Task>, phase: Phase)

  const EMPTY_CHANNEL := Channel([], Idle)

  datatype Status = Queued | Succeeded | Failed
  datatype Row = Row(action: string, key: string, status: Status, summary: string, errorCode: string)
  datatype AuditEntry = AuditEntry(command: CommandId, action: string, result: Status, errorCode: string)

  /** How the HTTP caller's request ended. */
  datatype Reply = Answered(outcome: Outcome) | TimedOut | QueueFull | JobAccepted

  datatype State = State(
    channels: map<string, Channel>,
    rows: map<CommandId, Row>,          // command_runs
    audits: seq<AuditEntry>,            // audit_events, oldest first
    inserted: map<CommandId, Task>,     // row written, not yet offered to the broker
    waiters: set<CommandId>,            // callers still listening
    replies: map<CommandId, Reply>)

  datatype Event =
    | Insert(task: Task)                       // a handler writes the queued row
    | Submit(task: Task, accepted: bool)       // it offers the task to the broker
    | Receive(task: Task)                      // the key's worker takes it
    | Finish(task: Task, outcome: Outcome)     // running it is over; the row is updated
    | Audit(task: Task, outcome: Outcome)      // the audit entry, if any, is written
    | Answer(task: Task, outcome: Outcome)     // the caller is answered; the worker is free
    | Timeout(id: CommandId)                   // the caller stops listening

  // ---------------------------------------------------------------------
  // Channels
  // ---------------------------------------------------------------------

  /** The channel of a key; it comes into being on first use. */
  function ChannelOf(cs: map<string, Channel>, key: string): Channel {
    if key in cs then cs[key] else EMPTY_CHANNEL
  }

  predicate HasRoom(cs: map<string, Channel>, key: string) {
    |ChannelOf(cs, key).queue| < QUEUE_CAPACITY
  }

  /** `submit`: the channel is created if need be, and takes the task unless it is full. */
  function Offer(cs: map<string, Channel>, t: Task): map<string, Channel> {
    var ch := ChannelOf(cs, t.key);
    cs[t.key := if HasRoom(cs, t.key) then ch.(queue := ch.queue + [t]) else ch]
  }

  predicate AtHead(cs: map<string, Channel>, t: Task) {
    t.key in cs && cs[t.key].phase == Idle && cs[t.key].queue != [] && cs[t.key].queue[0] == t
  }

  /** `recv`: the idle worker takes the head of its channel. */
  function Take(cs: map<string, Channel>, t: Task): map<string, Channel>
    requires AtHead(cs, t)
  {
    cs[t.key := Channel(cs[t.key].queue[1..], Running(t))]
  }

  predicate InPhase(cs: map<string, Channel>, key: string, phase: Phase) {
    key in cs && cs[key].phase == phase
  }

  function SetPhase(cs: map<string, Channel>, key: string, phase: Phase): map<string, Channel>
    requires key in cs
  {
    cs[key := cs[key].(phase := phase)]
  }

  // ---------------------------------------------------------------------
  // Records
  // ---------------------------------------------------------------------

  /** A text of more than `max` bytes is cut to the characters that fit. */
  function Truncate(s: string, max: nat): string {
    if |Utf8.Bytes(s)| <= max then s else s[..Utf8.Fits(Utf8.Scalars(s), max)] + "\U{2026}"
  }

  /** How an error's text is shown: whole within 120 bytes, else what fits of it and an ellipsis. */
  predicate ShownAs(m: string, shown: string) {
    if |Utf8.Bytes(m)| <= 120 then shown == m
    else exists n ::
      && 0 <= n < |m| && shown == m[..n] + "\U{2026}"
      && |Utf8.Bytes(m[..n])| <= 120 < |Utf8.Bytes(m[..n + 1])|
  }

  /** A text of more than 120 bytes is cut to the longest prefix of whole characters within them. */
  lemma CutIsLongest(m: string)
    ensures ShownAs(m, Truncate(m, ERROR_LIMIT))
    ensures |Utf8.Bytes(m)| <= 120 ==> Truncate(m, ERROR_LIMIT) == m
    ensures |Utf8.Bytes(m)| > 120 ==> exists n ::
      && 0 <= n < |m| && Truncate(m, ERROR_LIMIT) == m[..n] + "\U{2026}"
      && |Utf8.Bytes(m[..n])| <= 120 < |Utf8.Bytes(m[..n + 1])|
  {
    if |Utf8.Bytes(m)| > 120 {
      Utf8.TextFitsIsLongest(m, 120);
      assert Truncate(m, ERROR_LIMIT) == m[..Utf8.Fits(Utf8.Scalars(m), 120)] + "\U{2026}";
    }
  }

  function StatusOf(o: Outcome): Status {
    if o.Value? then Succeeded else Failed
  }

  function ErrorCodeOf(o: Outcome): string {
    match o case Value(_) => "" case Error(m) => Truncate(m, ERROR_LIMIT)
  }

  function SummaryOf(o: Outcome): string {
    match o case Value(t) => t case Error(_) => ""
  }

  function QueuedRow(t: Task): Row { Row(t.action, t.key, Queued, "", "") }

  function FinishedRow(t: Task, o: Outcome): Row {
    Row(t.action, t.key, StatusOf(o), SummaryOf(o), ErrorCodeOf(o))
  }

  /** The `UPDATE command_runs ... WHERE id` statement. */
  function MarkFinished(rows: map<CommandId, Row>, id: CommandId, o: Outcome): map<CommandId, Row> {
    if id in rows
    then rows[id := rows[id].(status := StatusOf(o), summary := SummaryOf(o), errorCode := ErrorCodeOf(o))]
    else rows
  }

  function EntryOf(t: Task, o: Outcome): AuditEntry {
    AuditEntry(t.id, t.action, StatusOf(o), ErrorCodeOf(o))
  }

  // ---------------------------------------------------------------------
  // Steps and runs
  // ---------------------------------------------------------------------

  /** The event can happen in this state. */
  predicate Enabled(s: State, e: Event) {
    match e
    case Insert(t) => t.id !in s.rows
    case Submit(t, accepted) =>
      t.id in s.inserted && s.inserted[t.id] == t && accepted == HasRoom(s.channels, t.key)
    case Receive(t) => AtHead(s.channels, t)
    case Finish(t, _) => InPhase(s.channels, t.key, Running(t))
    case Audit(t, o) => InPhase(s.channels, t.key, Recorded(t, o))
    case Answer(t, o) => InPhase(s.channels, t.key, Logged(t, o))
    case Timeout(id) => id in s.waiters
  }

  function ChannelsAfter(s: State, e: Event): map<string, Channel>
    requires Enabled(s, e)
  {
    match e
    case Submit(t, _) => Offer(s.channels, t)
    case Receive(t) => Take(s.channels, t)
    case Finish(t, o) => SetPhase(s.channels, t.key, Recorded(t, o))
    case Audit(t, o) => SetPhase(s.channels, t.key, Logged(t, o))
    case Answer(t, _) => SetPhase(s.channels, t.key, Idle)
    case _ => s.channels
  }

  function RowsAfter(s: State, e: Event): map<CommandId, Row> {
    match e
    case Insert(t) => s.rows[t.id := QueuedRow(t)]
    case Finish(t, o) => MarkFinished(s.rows, t.id, o)
    case _ => s.rows
  }

  function InsertedAfter(s: State, e: Event): map<CommandId, Task> {
    match e
    case Insert(t) => s.inserted[t.id := t]
    case Submit(t, _) => s.inserted - {t.id}
    case _ => s.inserted
  }

  function AuditsAfter(s: State, e: Event): seq<AuditEntry> {
    match e
    case Audit(t, o) => if t.audited then s.audits + [EntryOf(t, o)] else s.audits
    case _ => s.audits
  }

  function WaitersAfter(s: State, e: Event): set<CommandId> {
    match e
    case Submit(t, accepted) => if accepted && t.completion then s.waiters + {t.id} else s.waiters
    case Answer(t, _) => s.waiters - {t.id}
    case Timeout(id) => s.waiters - {id}
    case _ => s.waiters
  }

  /** A completion sent to a caller that has stopped listening is dropped. */
  function RepliesAfter(s: State, e: Event): map<CommandId, Reply> {
    match e
    case Submit(t, accepted) =>
      if !accepted then s.replies[t.id := QueueFull]
      else if t.completion then s.replies
      else s.replies[t.id := JobAccepted]
    case Answer(t, o) => if t.id in s.waiters then s.replies[t.id := Answered(o)] else s.replies
    case Timeout(id) => s.replies[id := TimedOut]
    case _ => s.replies
  }

  function Step(s: State, e: Event): State
    requires Enabled(s, e)
  {
    State(ChannelsAfter(s, e), RowsAfter(s, e), AuditsAfter(s, e),
          InsertedAfter(s, e), WaitersAfter(s, e), RepliesAfter(s, e))
  }

  const INITIAL := State(map[], map[], [], map[], {}, map[])

  /** The state a sequence of events leads to, if every event was possible when it happened. */
  function Run(es: seq<Event>): Option<State> {
    if es == [] then Some(INITIAL)
    else
      var r := Run(Init(es));
      if r.Some? && Enabled(r.value, Last(es)) then Some(Step(r.value, Last(es))) else None
  }

  predicate IsRun(es: seq<Event>) { Run(es).Some? }

  function After(es: seq<Event>): State
    requires IsRun(es)
  {
    Run(es).value
  }

  // ---------------------------------------------------------------------
  // The broker object
  // ---------------------------------------------------------------------

  /** A spawned worker task: the key it was spawned for and its end of the channel. */
  datatype Worker = Worker(key: string, channel: Channel)

  predicate OwnTasks(w: Worker) { forall t :: t in w.channel.queue ==> t.key == w.key }

  /** Each key has exactly one worker, the one its sender names; its channel holds that key's tasks only. */
  predicate Wired(senders: map<string, nat>, workers: seq<Worker>) {
    && (forall k :: k in senders ==> senders[k] < |workers| && workers[senders[k]].key == k)
    && (forall w :: 0 <= w < |workers| ==> workers[w].key in senders && senders[workers[w].key] == w)
    && (forall w :: 0 <= w < |workers| ==> OwnTasks(workers[w]))
  }

  function ChannelsOf(senders: map<string, nat>, workers: seq<Worker>): map<string, Channel>
    requires Wired(senders, workers)
  {
    map k | k in senders :: workers[senders[k]].channel
  }

  lemma WorkerSpawned(senders: map<string, nat>, workers: seq<Worker>, key: string)
    requires Wired(senders, workers) && key !in senders
    ensures var ss, ws := senders[key := |workers|], workers + [Worker(key, EMPTY_CHANNEL)];
            Wired(ss, ws) && ChannelsOf(ss, ws) == ChannelsOf(senders, workers)[key := EMPTY_CHANNEL]
  {
  }

  /** The worker of a key has its channel, which may take one more task of that key. */
  lemma WorkerOf(senders: map<string, nat>, workers: seq<Worker>, key: string)
    requires Wired(senders, workers)
    ensures ChannelsOf(senders, workers).Keys == senders.Keys
    ensures key in senders ==>
              && var w := senders[key];
              && w < |workers| && workers[w].key == key && workers[w].channel == ChannelsOf(senders, workers)[key]
              && forall t: Task :: t.key == key ==>
                   var ch := workers[w].channel;
                   OwnTasks(workers[w].(channel := ch.(queue := ch.queue + [t])))
  {
    if key in senders {
      assert OwnTasks(workers[senders[key]]);
    }
  }

  lemma ChannelChanged(senders: map<string, nat>, workers: seq<Worker>, w: nat, ch: Channel)
    requires Wired(senders, workers) && w < |workers| && OwnTasks(workers[w].(channel := ch))
    ensures var ws := workers[w := workers[w].(channel := ch)];
            Wired(senders, ws) && ChannelsOf(senders, ws) == ChannelsOf(senders, workers)[workers[w].key := ch]
  {
  }

  /** The step `Submit` of a run does to the channels what the method does. */
  lemma OfferIs(cs: map<string, Channel>, t: Task)
    ensures HasRoom(cs, t.key) <==> t.key !in cs || |cs[t.key].queue| < 64
    ensures Offer(cs, t)
         == if t.key !in cs then cs[t.key := Channel([t], Idle)]
            else if |cs[t.key].queue| < 64 then cs[t.key := Channel(cs[t.key].queue + [t], cs[t.key].phase)]
            else cs
  {
    assert [] + [t] == [t];
  }

  /** And so does the step `Receive`. */
  lemma TakeIs(cs: map<string, Channel>, t: Task)
    ensures AtHead(cs, t) <==> t.key in cs && cs[t.key].phase == Idle && [t] <= cs[t.key].queue
    ensures AtHead(cs, t) ==> Take(cs, t) == cs[t.key := Channel(cs[t.key].queue[1..], Running(t))]
  {
  }

  /**
   The broker keeps a map from keys to senders; a sender names one spawned
   worker. Both only ever grow.
   */
  class CommandBroker {
    var senders: map<string, nat>
    var workers: seq<Worker>

    ghost predicate Valid()
      reads this
    {
      Wired(senders, workers)
    }

    ghost function Channels(): map<string, Channel>
      requires Valid()
      reads this
    {
      ChannelsOf(senders, workers)
    }

    constructor ()
      ensures Valid() && Channels() == map[]
    {
      senders, workers := map[], [];
    }

    /**
     Offer a task; it is refused exactly when 64 tasks wait in its key's channel, and
     otherwise is the last to wait there. No other channel changes.
     */
    method Submit(task: Task) returns (accepted: bool)
      requires Valid()
      modifies this
      ensures Valid()
      ensures accepted <==> task.key !in old(Channels()) || |old(Channels())[task.key].queue| < 64
      ensures !accepted ==> Channels() == old(Channels())
      ensures accepted && task.key !in old(Channels()) ==>
        Channels() == old(Channels())[task.key := Channel([task], Idle)]
      ensures accepted && task.key in old(Channels()) ==>
        var ch := old(Channels())[task.key];
        Channels() == old(Channels())[task.key := Channel(ch.queue + [task], ch.phase)]
    {
      hide Wired, OwnTasks, ChannelsOf;
      WorkerOf(senders, workers, task.key);
      if task.key !in senders {
        WorkerSpawned(senders, workers, task.key);
        senders := senders[task.key := |workers|];
        workers := workers + [Worker(task.key, EMPTY_CHANNEL)];
      }
      WorkerOf(senders, workers, task.key);
      var w := senders[task.key];
      var channel := workers[w].channel;
      accepted := |channel.queue| < QUEUE_CAPACITY;
      assert [] + [task] == [task];
      if accepted {
        ChannelChanged(senders, workers, w, channel.(queue := channel.queue + [task]));
        workers := workers[w := workers[w].(channel := channel.(queue := channel.queue + [task]))];
      }
    }

    /** The worker loop's `recv`: nothing happens while the channel is empty, else its first task is taken. */
    method Receive(w: nat) returns (task: Option<Task>)
      requires Valid() && w < |workers| && workers[w].channel.phase == Idle
      modifies this`workers
      ensures Valid()
      ensures task.None? <==> old(workers)[w].channel.queue == []
      ensures task.None? ==> Channels() == old(Channels())
      ensures task.Some? ==>
        && var key, queue := old(workers)[w].key, old(workers)[w].channel.queue;
        && task.value == queue[0] && task.value.key == key
        && Channels() == old(Channels())[key := Channel(queue[1..], Running(queue[0]))]
    {
      var queue := workers[w].channel.queue;
      assert OwnTasks(workers[w]);
      if queue == [] {
        task := None;
      } else {
        assert queue[0] in queue && forall t :: t in queue[1..] ==> t in queue;
        task := Some(queue[0]);
        ChannelChanged(senders, workers, w, Channel(queue[1..], Running(queue[0])));
        workers := workers[w := workers[w].(channel := Channel(queue[1..], Running(queue[0])))];
      }
    }
  }
}
