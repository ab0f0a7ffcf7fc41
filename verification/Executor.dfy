/**
 The executor's records: the rows, audit entries and callers that it and the
 handlers write to.
 */
module Executor {
  import opened Prelude
  import opened Broker

  /** The tables and callers that handlers and the executor write to. */
  class Records {
    var rows: map<CommandId, Row>
    var audits: seq<AuditEntry>
    var waiters: set<CommandId>
    var replies: map<CommandId, Reply>

    constructor ()
      ensures rows == map[] && audits == [] && waiters == {} && replies == map[]
    {
      rows, audits, waiters, replies := map[], [], {}, map[];
    }

    method InsertQueued(task: Task)
      requires task.id !in rows
      modifies this`rows
      ensures rows == old(rows)[task.id := Row(task.action, task.key, Queued, "", "")]
    {
      rows := rows[task.id := Row(task.action, task.key, Queued, "", "")];
    }

    /**
     What the executor does once the command's own work has returned. A value makes
     row and audit entry say `succeeded`, without an error code; an error makes them
     say `failed`, with the error's text, or as much of it as fits into 120 bytes and
     an ellipsis. The waiting caller is answered with the outcome itself.
     */
    method Complete(task: Task, result: Outcome)
      modifies this
      ensures rows.Keys == old(rows).Keys
      ensures forall id :: id in rows && id != task.id ==> rows[id] == old(rows)[id]
      ensures result.Value? ==>
        && (task.id in rows ==>
              rows[task.id] == Row(old(rows)[task.id].action, old(rows)[task.id].key, Succeeded, result.text, ""))
        && audits == old(audits) + if task.audited then [AuditEntry(task.id, task.action, Succeeded, "")] else []
      ensures result.Error? ==>
        && (task.id in rows ==>
              && rows[task.id].action == old(rows)[task.id].action && rows[task.id].key == old(rows)[task.id].key
              && rows[task.id].status == Failed && rows[task.id].summary == ""
              && ShownAs(result.message, rows[task.id].errorCode))
        && |audits| == |old(audits)| + (if task.audited then 1 else 0)
        && old(audits) <= audits
        && (task.audited ==>
              && Last(audits).command == task.id && Last(audits).action == task.action
              && Last(audits).result == Failed && ShownAs(result.message, Last(audits).errorCode)
              && (task.id in rows ==> Last(audits).errorCode == rows[task.id].errorCode))
      ensures waiters == old(waiters) - {task.id}
      ensures replies == if task.id in old(waiters) then old(replies)[task.id := Answered(result)] else old(replies)
      ensures rows == MarkFinished(old(rows), task.id, result)
      ensures audits == old(audits) + if task.audited then [EntryOf(task, result)] else []
    {
      hide Truncate, ShownAs;
      var status, summary, errorCode := Succeeded, "", "";
      match result {
        case Value(text) => summary := text;
        case Error(message) => status, errorCode := Failed, Truncate(message, ERROR_LIMIT);
      }
      if task.id in rows {
        rows := rows[task.id := rows[task.id].(status := status, summary := summary, errorCode := errorCode)];
      }
      if task.audited {
        audits := audits + [AuditEntry(task.id, task.action, status, errorCode)];
      }
      if task.id in waiters {
        replies := replies[task.id := Answered(result)];
      }
      waiters := waiters - {task.id};
      if result.Error? {
        CutIsLongest(result.message);
      }
    }
  }

  /** Running to the end without interruption: the three steps, one after the other. */
  function Finished(s: State, t: Task, o: Outcome): State
    requires Enabled(s, Finish(t, o))
  {
    Step(Step(Step(s, Finish(t, o)), Audit(t, o)), Answer(t, o))
  }

  /** The executor's method has the effect of those steps, and the worker is free again. */
  lemma CompletionIsThreeSteps(s: State, t: Task, o: Outcome)
    requires Enabled(s, Finish(t, o))
    ensures var s' := Finished(s, t, o);
            && s'.rows == MarkFinished(s.rows, t.id, o)
            && s'.audits == s.audits + (if t.audited then [EntryOf(t, o)] else [])
            && s'.waiters == s.waiters - {t.id}
            && s'.replies == (if t.id in s.waiters then s.replies[t.id := Answered(o)] else s.replies)
            && s'.channels == SetPhase(s.channels, t.key, Idle) && s'.inserted == s.inserted
  {
    assert s.audits + [] == s.audits;
  }
}
