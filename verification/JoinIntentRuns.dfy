/**
 The watch task, the cleanup task and the request handlers acting on one store.

 The watch task handles one online event at a time: it matches an intent, marks
 it as moving, asks for the player to be moved, and records how that ended.
 Creations, cancellations and single turns of the cleanup loop interleave with
 these four steps in every possible way.
 */
module JoinIntentRuns {
  import opened Prelude
  import opened JoinIntents

  /** Where the watch task is with the intent it has matched. */
  datatype Watch = Listening | Matched(intent: Intent) | Marked(intent: Intent) | Asked(intent: Intent)

  /** `known` remembers every intent ever created, as it was created. */
  datatype State = State(store: Store, known: map<IntentId, Intent>, watch: Watch, now: Time)

  datatype Event =
    | Create(intent: Intent)
    | Cancel(user: UserId, id: IntentId)
    | Sweep(id: IntentId, at: Time)            // `at` is the cleanup's own reading of the clock
    | Tick(now: Time)                          // the clock reads `now`, earlier or later than before
    | Match(phira: PhiraId, id: IntentId)
    | Mark(id: IntentId)
    | Move(id: IntentId, room: string, player: int)
    | Settle(id: IntentId, ok: bool)

  /** The cast from a 64-bit to a 32-bit integer, which wraps around. */
  function AsI32(n: int): int {
    var m := n % 0x1_0000_0000;
    if m < 0x8000_0000 then m else m - 0x1_0000_0000
  }

  predicate Enabled(s: State, e: Event) {
    match e
    case Create(i) => i.id !in s.known && i.status == Pending && i.room != "" && s.now < i.expiresAt <= s.now + MAX_TTL
    case Cancel(u, id) => id in s.store.intents && s.store.intents[id].user == u
    case Sweep(_, _) => true
    case Tick(_) => true
    case Match(phira, id) => s.watch == Listening && phira > 0 && Matching(s.store, phira, s.now) == Some(id)
    case Mark(id) => s.watch.Matched? && s.watch.intent.id == id
    case Move(id, room, player) =>
      s.watch.Marked? && s.watch.intent.id == id && room == s.watch.intent.room && player == AsI32(s.watch.intent.phira)
    case Settle(id, _) => s.watch.Asked? && s.watch.intent.id == id
  }

  function Step(s: State, e: Event): State
    requires Enabled(s, e)
  {
    match e
    case Create(i) => s.(store := Created(s.store, i), known := s.known[i.id := i])
    case Cancel(_, id) => s.(store := Dropped(s.store, id))
    case Sweep(id, at) => s.(store := Swept(s.store, id, at))
    case Tick(now) => s.(now := now)
    case Match(_, id) =>
      s.(store := WithStatus(s.store, id, UserOnline), watch := Matched(s.store.intents[id].(status := UserOnline)))
    case Mark(id) => s.(store := WithStatus(s.store, id, Moving), watch := Marked(s.watch.intent))
    case Move(_, _, _) => s.(watch := Asked(s.watch.intent))
    case Settle(id, ok) => s.(store := Terminated(s.store, id, if ok then Completed else Failed), watch := Listening)
  }

  const INITIAL := State(Store(map[], map[]), map[], Listening, 0)

  function Run(es: seq<Event>): Option<State> {
    if es == [] then Some(INITIAL)
    else
      var r := Run(Init(es));
      if r.Some? && Enabled(r.value, Last(es)) then Some(Step(r.value, Last(es))) else None
  }

  predicate IsRun(es: seq<Event>) { Run(es).Some? }

  function After(es: seq<Event>): State
    requires IsRun(es)
  {
    Run(es).value
  }

  // ---------------------------------------------------------------------
  // Histories
  // ---------------------------------------------------------------------

  /** The intent most recently created for a player. */
  function LatestFor(es: seq<Event>, p: PhiraId): Option<IntentId> {
    if es == [] then None
    else if Last(es).Create? && Last(es).intent.phira == p then Some(Last(es).intent.id)
    else LatestFor(Init(es), p)
  }

  /** The watch task's events for an intent, in the order in which they come. */
  predicate Concerns(e: Event, id: IntentId) {
    (e.Match? || e.Mark? || e.Move? || e.Settle?) && e.id == id
  }

  function RankOf(e: Event): nat {
    match e case Match(_, _) => 1 case Mark(_) => 2 case Move(_, _, _) => 3 case Settle(_, _) => 4 case _ => 0
  }

  /** How far the watch task has got with an intent: 0 untouched, 4 settled. */
  function Rank(es: seq<Event>, id: IntentId): nat {
    if es == [] then 0
    else if Concerns(Last(es), id) then RankOf(Last(es))
    else Rank(Init(es), id)
  }

  // ---------------------------------------------------------------------
  // The invariant
  // ---------------------------------------------------------------------

  /** Stored intents are the created ones, up to their status. */
  ghost predicate StoredOk(s: State) {
    forall id :: id in s.store.intents ==>
      id in s.known && s.known[id] == s.store.intents[id].(status := Pending) && s.known[id].id == id
  }

  ghost predicate IndexOk(es: seq<Event>, st: Store) {
    forall p :: p in st.byPhira ==>
      st.byPhira[p] in st.intents && st.intents[st.byPhira[p]].phira == p && LatestFor(es, p) == Some(st.byPhira[p])
  }

  function WatchRank(w: Watch, id: IntentId): nat {
    if w.Listening? || w.intent.id != id then 0
    else match w case Matched(_) => 1 case Marked(_) => 2 case Asked(_) => 3
  }

  predicate StatusFits(st: Status, rank: nat) {
    if rank == 0 then st == Pending || st == Expired
    else if rank == 4 then st == Completed || st == Failed
    else st == UserOnline || st == Moving || st == Expired
  }

  /** The watch task is busy with the only intent that is neither untouched nor settled. */
  ghost predicate WatchOk(es: seq<Event>, s: State) {
    && (forall id :: WatchRank(s.watch, id) == Rank(es, id) || (WatchRank(s.watch, id) == 0 && Rank(es, id) == 4))
    && (forall id :: Rank(es, id) > 0 ==> id in s.known)
    && (!s.watch.Listening? ==>
          s.watch.intent.id in s.known && s.known[s.watch.intent.id] == s.watch.intent.(status := Pending))
  }

  ghost predicate StatusOk(es: seq<Event>, s: State) {
    forall id :: id in s.store.intents ==> StatusFits(s.store.intents[id].status, Rank(es, id))
  }

  ghost predicate Inv(es: seq<Event>, s: State) {
    StoredOk(s) && IndexOk(es, s.store) && WatchOk(es, s) && StatusOk(es, s)
  }

  lemma StoredStep(s: State, e: Event)
    requires StoredOk(s) && Enabled(s, e)
    ensures StoredOk(Step(s, e))
  {
  }

  lemma IndexStep(es: seq<Event>, s: State, e: Event)
    requires IndexOk(es, s.store) && StoredOk(s) && Enabled(s, e)
    ensures IndexOk(es + [e], Step(s, e).store)
  {
    assert Init(es + [e]) == es;
    var st, st' := s.store, Step(s, e).store;
    forall p | p in st'.byPhira
      ensures st'.byPhira[p] in st'.intents && st'.intents[st'.byPhira[p]].phira == p
      ensures LatestFor(es + [e], p) == Some(st'.byPhira[p])
    {
      if !(e.Create? && e.intent.phira == p) {
        assert p in st.byPhira && st'.byPhira[p] == st.byPhira[p];
      }
    }
  }

  /** The watch task never takes up an intent a second time. */
  lemma RankInTurn(es: seq<Event>, s: State, e: Event)
    requires Inv(es, s) && Enabled(s, e) && RankOf(e) > 0
    ensures Rank(es, e.id) == RankOf(e) - 1
  {
    var id := e.id;
    if e.Match? {
      assert StatusFits(s.store.intents[id].status, Rank(es, id));
    } else {
      assert WatchRank(s.watch, id) > 0;
    }
  }

  lemma WatchStep(es: seq<Event>, s: State, e: Event)
    requires Inv(es, s) && Enabled(s, e)
    ensures WatchOk(es + [e], Step(s, e))
  {
    assert Init(es + [e]) == es;
    var s' := Step(s, e);
    forall id
      ensures WatchRank(s'.watch, id) == Rank(es + [e], id) || (WatchRank(s'.watch, id) == 0 && Rank(es + [e], id) == 4)
      ensures Rank(es + [e], id) > 0 ==> id in s'.known
    {
      assert WatchRank(s.watch, id) == Rank(es, id) || (WatchRank(s.watch, id) == 0 && Rank(es, id) == 4);
    }
  }

  lemma StatusStep(es: seq<Event>, s: State, e: Event)
    requires Inv(es, s) && Enabled(s, e)
    ensures StatusOk(es + [e], Step(s, e))
  {
    assert Init(es + [e]) == es;
    var s' := Step(s, e);
    forall id | id in s'.store.intents ensures StatusFits(s'.store.intents[id].status, Rank(es + [e], id)) {
      if id in s.store.intents {
        assert StatusFits(s.store.intents[id].status, Rank(es, id));
        if RankOf(e) > 0 {
          RankInTurn(es, s, e);
        }
      }
    }
  }

  lemma {:induction false} RunInv(es: seq<Event>)
    requires IsRun(es)
    ensures Inv(es, After(es))
  {
    if es != [] {
      RunInv(Init(es));
      var s, e := After(Init(es)), Last(es);
      assert Init(es) + [e] == es;
      StoredStep(s, e);
      IndexStep(Init(es), s, e);
      WatchStep(Init(es), s, e);
      StatusStep(Init(es), s, e);
    }
  }

  lemma {:induction false} PrefixIsRun(es: seq<Event>, n: nat)
    requires IsRun(es) && n <= |es|
    ensures IsRun(es[..n])
    decreases |es|
  {
    if n == |es| {
      assert es[..n] == es;
    } else {
      PrefixIsRun(Init(es), n);
      assert Init(es)[..n] == es[..n];
    }
  }

  lemma StepAt(es: seq<Event>, i: nat)
    requires IsRun(es) && i < |es|
    ensures IsRun(es[..i]) && IsRun(es[..i + 1])
    ensures Enabled(After(es[..i]), es[i])
    ensures After(es[..i + 1]) == Step(After(es[..i]), es[i])
    ensures Inv(es[..i], After(es[..i]))
    ensures forall id :: Rank(es[..i + 1], id) == if Concerns(es[i], id) then RankOf(es[i]) else Rank(es[..i], id)
  {
    PrefixIsRun(es, i);
    PrefixIsRun(es, i + 1);
    assert Init(es[..i + 1]) == es[..i];
    RunInv(es[..i]);
  }

  // ---------------------------------------------------------------------
  // Promises over whole runs
  // ---------------------------------------------------------------------

  /** An indexed id names a stored intent of that player, the latest one created for them. */
  lemma IndexIsSound(es: seq<Event>, p: PhiraId)
    requires IsRun(es) && p in After(es).store.byPhira
    ensures var st := After(es).store; var id := st.byPhira[p];
            id in st.intents && st.intents[id].phira == p && LatestFor(es, p) == Some(id)
  {
    RunInv(es);
  }

  /** The event takes the player's index entry away or gives it to another intent. */
  predicate Unindexes(s: State, e: Event, p: PhiraId) {
    var m := s.store.intents;
    match e
    case Create(i) => i.phira == p
    case Cancel(_, id) => id in m && m[id].phira == p
    case Settle(id, _) => id in m && m[id].phira == p
    case Sweep(id, at) => id in m && m[id].phira == p && Doomed(m[id], at)
    case _ => false
  }

  /** Event `d` of the run takes the entry away. */
  ghost predicate UnindexedAt(es: seq<Event>, d: nat, p: PhiraId)
    requires d < |es|
  {
    IsRun(es[..d]) && Unindexes(After(es[..d]), es[d], p)
  }

  predicate Indexed(s: State, p: PhiraId, id: IntentId) {
    p in s.store.byPhira && s.store.byPhira[p] == id
  }

  lemma IndexedStep(s: State, e: Event, p: PhiraId, id: IntentId)
    requires Enabled(s, e) && id in s.known
    ensures Indexed(Step(s, e), p, id) <==> Indexed(s, p, id) && !Unindexes(s, e, p)
    ensures id in Step(s, e).known
  {
  }

  lemma IndexedNow(es: seq<Event>, c: nat)
    requires IsRun(es) && c < |es| && es[c].Create?
    ensures IsRun(es[..c + 1]) && es[c].intent.id in After(es[..c + 1]).known
    ensures Indexed(After(es[..c + 1]), es[c].intent.phira, es[c].intent.id)
  {
    StepAt(es, c);
  }

  lemma {:induction false} IndexedUpTo(es: seq<Event>, c: nat, n: nat)
    requires IsRun(es) && c < n <= |es| && es[c].Create?
    ensures IsRun(es[..n]) && es[c].intent.id in After(es[..n]).known
    ensures Indexed(After(es[..n]), es[c].intent.phira, es[c].intent.id)
       <==> forall d :: c < d < n ==> !UnindexedAt(es, d, es[c].intent.phira)
    decreases n
  {
    hide Step, Enabled, Inv, Rank, Unindexes, Indexed;
    var p, id := es[c].intent.phira, es[c].intent.id;
    StepAt(es, n - 1);
    if n == c + 1 {
      IndexedNow(es, c);
    } else {
      IndexedUpTo(es, c, n - 1);
      IndexedStep(After(es[..n - 1]), es[n - 1], p, id);
      assert UnindexedAt(es, n - 1, p) <==> Unindexes(After(es[..n - 1]), es[n - 1], p);
    }
  }

  /**
   The intent the index names for a player is the one created last, and it stays
   there exactly as long as no intent of that player is created, cancelled, settled
   or swept away.
   */
  lemma IndexedIff(es: seq<Event>, c: nat)
    requires IsRun(es) && c < |es| && es[c].Create?
    ensures Indexed(After(es), es[c].intent.phira, es[c].intent.id)
       <==> forall d :: c < d < |es| ==> !UnindexedAt(es, d, es[c].intent.phira)
  {
    IndexedUpTo(es, c, |es|);
    assert es[..|es|] == es;
  }

  /**
   The player coming online fulfils an intent exactly when nothing has taken it off
   the index since it was created, and it is pending and has not expired.
   */
  lemma MatchableIff(es: seq<Event>, c: nat)
    requires IsRun(es) && c < |es| && es[c].Create?
    ensures var i, s := es[c].intent, After(es);
            Matching(s.store, i.phira, s.now) == Some(i.id)
            <==> && (forall d :: c < d < |es| ==> !UnindexedAt(es, d, i.phira))
                 && StoredAs(s, i.id, Pending) && s.now < i.expiresAt
  {
    IndexedIff(es, c);
    CreatedIsKnown(es, c, |es|);
    assert es[..|es|] == es;
    RunInv(es);
  }

  lemma {:induction false} CreatedIsKnown(es: seq<Event>, c: nat, n: nat)
    requires IsRun(es) && c < n <= |es| && es[c].Create?
    ensures IsRun(es[..n]) && es[c].intent.id in After(es[..n]).known
    ensures After(es[..n]).known[es[c].intent.id] == es[c].intent
    decreases n
  {
    StepAt(es, n - 1);
    if n > c + 1 {
      CreatedIsKnown(es, c, n - 1);
    }
  }

  /** The watch task's progress with an intent only ever goes forward. */
  lemma {:induction false} RankGrows(es: seq<Event>, i: nat, j: nat, id: IntentId)
    requires IsRun(es) && i <= j <= |es|
    ensures Rank(es[..i], id) <= Rank(es[..j], id)
    ensures forall m :: i <= m < j && Concerns(es[m], id) ==> Rank(es[..i], id) < Rank(es[..j], id)
    decreases j - i
  {
    if i < j {
      RankGrows(es, i, j - 1, id);
      StepAt(es, j - 1);
      if Concerns(es[j - 1], id) {
        RankInTurn(es[..j - 1], After(es[..j - 1]), es[j - 1]);
      }
    }
  }

  /**
   Each intent is matched at most once, asked to be moved at most once and
   settled at most once, in this order.
   */
  lemma EachStepOnce(es: seq<Event>, i: nat, j: nat, id: IntentId)
    requires IsRun(es) && i < j < |es| && Concerns(es[i], id) && Concerns(es[j], id)
    ensures RankOf(es[i]) < RankOf(es[j])
  {
    StepAt(es, i);
    StepAt(es, j);
    RankInTurn(es[..i], After(es[..i]), es[i]);
    RankInTurn(es[..j], After(es[..j]), es[j]);
    RankGrows(es, i + 1, j, id);
  }

  /** A match is of a stored intent that has not expired, and is the player's latest. */
  lemma MatchIsLive(es: seq<Event>, i: nat)
    requires IsRun(es) && i < |es| && es[i].Match?
    ensures IsRun(es[..i])
    ensures var s := After(es[..i]); var id := es[i].id;
            && id in s.store.intents && s.now < s.store.intents[id].expiresAt
            && s.store.intents[id].phira == es[i].phira && s.store.intents[id].status == Pending
            && LatestFor(es[..i], es[i].phira) == Some(id)
  {
    StepAt(es, i);
  }

  /** A known intent was created, as it is known, with a lifetime of at most 900 seconds. */
  lemma {:induction false} CreatedBefore(es: seq<Event>, n: nat, id: IntentId) returns (c: nat)
    requires IsRun(es) && n <= |es| && IsRun(es[..n]) && id in After(es[..n]).known
    ensures c < n && es[c] == Create(After(es[..n]).known[id]) && es[c].intent.id == id
    ensures IsRun(es[..c]) && es[c].intent.status == Pending && es[c].intent.room != ""
    ensures After(es[..c]).now < es[c].intent.expiresAt <= After(es[..c]).now + 900
    decreases n
  {
    StepAt(es, n - 1);
    if es[n - 1].Create? && es[n - 1].intent.id == id {
      c := n - 1;
    } else {
      c := CreatedBefore(es, n - 1, id);
    }
  }

  /** Every match is of an intent created for that player, less than 900 seconds before by the clock. */
  lemma MatchedWithinLifetime(es: seq<Event>, i: nat) returns (c: nat)
    requires IsRun(es) && i < |es| && es[i].Match?
    ensures c < i && es[c].Create? && es[c].intent.id == es[i].id && es[c].intent.phira == es[i].phira
    ensures IsRun(es[..c]) && IsRun(es[..i]) && After(es[..i]).now < After(es[..c]).now + 900
  {
    MatchIsLive(es, i);
    StepAt(es, i);
    c := CreatedBefore(es, i, es[i].id);
  }

  /** An intent is only ever cancelled by the user who created it. */
  lemma CancelledByItsCreator(es: seq<Event>, i: nat) returns (c: nat)
    requires IsRun(es) && i < |es| && es[i].Cancel?
    ensures c < i && es[c].Create? && es[c].intent.id == es[i].id && es[c].intent.user == es[i].user
  {
    StepAt(es, i);
    c := CreatedBefore(es, i, es[i].id);
  }

  lemma {:induction false} KnownForever(es: seq<Event>, i: nat, j: nat, id: IntentId)
    requires IsRun(es) && i <= j <= |es| && IsRun(es[..i]) && id in After(es[..i]).known
    ensures IsRun(es[..j]) && id in After(es[..j]).known && After(es[..j]).known[id] == After(es[..i]).known[id]
    ensures id !in After(es[..i]).store.intents ==> id !in After(es[..j]).store.intents
    decreases j - i
  {
    if i < j {
      KnownForever(es, i, j - 1, id);
      StepAt(es, j - 1);
    }
  }

  /** Once cancelled, an intent is never matched. */
  lemma CancelledNeverMatched(es: seq<Event>, i: nat, j: nat)
    requires IsRun(es) && i < j < |es| && es[i].Cancel? && es[j].Match?
    ensures es[j].id != es[i].id
  {
    StepAt(es, i);
    KnownForever(es, i + 1, j, es[i].id);
    StepAt(es, j);
  }

  /**
   A move asked for after the intent was cancelled was already under way: the
   intent had been matched before the cancellation.
   */
  lemma MoveAfterCancelWasMatchedBefore(es: seq<Event>, i: nat, j: nat) returns (m: nat)
    requires IsRun(es) && i < j < |es| && es[i].Cancel? && es[j].Move? && es[j].id == es[i].id
    ensures m < i && es[m].Match? && es[m].id == es[i].id
  {
    StepAt(es, j);
    RankInTurn(es[..j], After(es[..j]), es[j]);
    m := MatchedBefore(es, j, es[j].id);
    if m > i {
      CancelledNeverMatched(es, i, m);
    }
  }

  lemma {:induction false} MatchedBefore(es: seq<Event>, j: nat, id: IntentId) returns (m: nat)
    requires IsRun(es) && j <= |es| && Rank(es[..j], id) > 0
    ensures m < j && es[m].Match? && es[m].id == id
    decreases j
  {
    StepAt(es, j - 1);
    if es[j - 1].Match? && es[j - 1].id == id {
      m := j - 1;
    } else {
      if Concerns(es[j - 1], id) {
        RankInTurn(es[..j - 1], After(es[..j - 1]), es[j - 1]);
      }
      m := MatchedBefore(es, j - 1, id);
    }
  }

  lemma ExtendRun(es: seq<Event>, e: Event)
    ensures IsRun(es + [e]) <==> IsRun(es) && Enabled(After(es), e)
    ensures IsRun(es + [e]) ==> After(es + [e]) == Step(After(es), e)
  {
    assert Init(es + [e]) == es;
  }

  // ---------------------------------------------------------------------
  // Cancellations that come too late
  // ---------------------------------------------------------------------

  /** The watch task has matched the intent and has not yet asked for the move. */
  predicate BeforeMove(w: Watch, id: IntentId) { (w.Matched? || w.Marked?) && w.intent.id == id }

  /** Going on in this way, the run moves the intent. */
  ghost predicate MovesIn(es: seq<Event>, more: seq<Event>, id: IntentId) {
    IsRun(es + more) && exists k :: 0 <= k < |more| && more[k].Move? && more[k].id == id
  }

  ghost predicate MayMove(es: seq<Event>, id: IntentId) { exists more :: MovesIn(es, more, id) }

  /** The watch task can always go on to ask for the move. */
  lemma GoesOnToMove(es: seq<Event>, id: IntentId)
    requires IsRun(es) && BeforeMove(After(es).watch, id)
    ensures MayMove(es, id)
  {
    var w := After(es).watch.intent;
    var move := Move(id, w.room, AsI32(w.phira));
    if After(es).watch.Marked? {
      ExtendRun(es, move);
      assert [move][0] == move;
      assert MovesIn(es, [move], id);
    } else {
      ExtendRun(es, Mark(id));
      ExtendRun(es + [Mark(id)], move);
      assert es + [Mark(id)] + [move] == es + [Mark(id), move];
      assert [Mark(id), move][1] == move;
      assert MovesIn(es, [Mark(id), move], id);
    }
  }

  /** A move at `j` that follows a cancellation at `i` was before its move at the cancellation. */
  lemma LateMoveWasUnderWay(es: seq<Event>, i: nat, j: nat)
    requires IsRun(es) && i < j < |es| && es[i].Cancel? && es[j].Move? && es[j].id == es[i].id
    ensures IsRun(es[..i]) && BeforeMove(After(es[..i]).watch, es[i].id)
  {
    var id := es[i].id;
    var m := MoveAfterCancelWasMatchedBefore(es, i, j);
    StepAt(es, i);
    StepAt(es, m);
    StepAt(es, j);
    RankInTurn(es[..j], After(es[..j]), es[j]);
    RankGrows(es, m + 1, i, id);
    RankGrows(es, i, j, id);
    var w, rank := WatchRank(After(es[..i]).watch, id), Rank(es[..i], id);
    assert w == rank || (w == 0 && rank == 4);
  }

  /**
   A cancelled intent can still be moved exactly when, at the cancellation, the
   watch task has matched it and not yet asked for the move.
   */
  lemma LateMoveIff(es: seq<Event>, u: UserId, id: IntentId)
    requires IsRun(es) && Enabled(After(es), Cancel(u, id))
    ensures IsRun(es + [Cancel(u, id)])
    ensures MayMove(es + [Cancel(u, id)], id) <==> BeforeMove(After(es).watch, id)
  {
    var cancelled := es + [Cancel(u, id)];
    ExtendRun(es, Cancel(u, id));
    if BeforeMove(After(es).watch, id) {
      GoesOnToMove(cancelled, id);
    }
    if MayMove(cancelled, id) {
      var more: seq<Event> :| MovesIn(cancelled, more, id);
      var k :| 0 <= k < |more| && more[k].Move? && more[k].id == id;
      var all := cancelled + more;
      assert all[|es|] == Cancel(u, id) && all[|cancelled| + k] == more[k] && all[..|es|] == es;
      LateMoveWasUnderWay(all, |es|, |cancelled| + k);
    }
  }

  /** Such a late move does happen: cancelling does not stop one that is under way. */
  lemma CancelMayComeTooLate() returns (es: seq<Event>)
    ensures IsRun(es) && es != [] && Last(es) == Cancel(SAMPLE.user, SAMPLE.id) && MayMove(es, SAMPLE.id)
  {
    var matched := SampleMatched();
    LateMoveIff(matched, SAMPLE.user, SAMPLE.id);
    es := matched + [Cancel(SAMPLE.user, SAMPLE.id)];
  }

  const SAMPLE := Intent(1, 7, 42, "R", 300, Pending)

  lemma SampleMatched() returns (es: seq<Event>)
    ensures IsRun(es) && es == [Create(SAMPLE), Match(SAMPLE.phira, SAMPLE.id)]
    ensures After(es).watch == Matched(SAMPLE.(status := UserOnline))
    ensures SAMPLE.id in After(es).store.intents
    ensures After(es).store.intents[SAMPLE.id] == SAMPLE.(status := UserOnline)
  {
    ExtendRun([], Create(SAMPLE));
    assert [] + [Create(SAMPLE)] == [Create(SAMPLE)];
    ExtendRun([Create(SAMPLE)], Match(SAMPLE.phira, SAMPLE.id));
    es := [Create(SAMPLE)] + [Match(SAMPLE.phira, SAMPLE.id)];
  }

  /**
   Every move is asked for the room of the intent that was matched. It is asked
   for that intent's own player exactly when the player id fits 32 bits.
   */
  lemma MoveGoesHome(es: seq<Event>, i: nat)
    requires IsRun(es) && i < |es| && es[i].Move?
    ensures IsRun(es[..i]) && es[i].id in After(es[..i]).known
    ensures var intent := After(es[..i]).known[es[i].id];
            && es[i].room == intent.room
            && (es[i].player == intent.phira <==> -0x8000_0000 <= intent.phira < 0x8000_0000)
  {
    StepAt(es, i);
    var intent := After(es[..i]).known[es[i].id];
    AsI32Exact(intent.phira);
  }

  lemma AsI32Exact(n: int)
    ensures AsI32(n) == n <==> -0x8000_0000 <= n < 0x8000_0000
  {
  }

  /**
   The intent's status is settled for good: the watch task is done with it, or it
   expired before the watch task took it up.
   */
  ghost predicate Fixed(es: seq<Event>, s: State, id: IntentId, st: Status) {
    && id in s.known
    && (Rank(es, id) == 4 || (Rank(es, id) == 0 && st == Expired))
    && (id in s.store.intents ==> s.store.intents[id].status == st)
  }

  lemma FixedStep(es: seq<Event>, s: State, e: Event, id: IntentId, st: Status)
    requires Inv(es, s) && Enabled(s, e) && Fixed(es, s, id, st)
    ensures Fixed(es + [e], Step(s, e), id, st)
  {
    assert Init(es + [e]) == es;
    if RankOf(e) > 0 {
      RankInTurn(es, s, e);
    }
  }

  lemma {:induction false} FixedForever(es: seq<Event>, i: nat, j: nat, id: IntentId, st: Status)
    requires IsRun(es) && i <= j <= |es| && IsRun(es[..i]) && Fixed(es[..i], After(es[..i]), id, st)
    ensures IsRun(es[..j]) && Fixed(es[..j], After(es[..j]), id, st)
    decreases j - i
  {
    if i < j {
      FixedForever(es, i, j - 1, id, st);
      StepAt(es, j - 1);
      assert es[..j] == es[..j - 1] + [es[j - 1]];
      FixedStep(es[..j - 1], After(es[..j - 1]), es[j - 1], id, st);
    }
  }

  predicate StoredAs(s: State, id: IntentId, st: Status) {
    id in s.store.intents && s.store.intents[id].status == st
  }

  /** A completed or failed intent keeps that status for as long as it is stored. */
  lemma SettledForever(es: seq<Event>, i: nat, j: nat, id: IntentId, st: Status)
    requires IsRun(es) && i <= j <= |es| && IsRun(es[..i])
    requires (st == Completed || st == Failed) && StoredAs(After(es[..i]), id, st)
    ensures IsRun(es[..j]) && (id in After(es[..j]).store.intents ==> StoredAs(After(es[..j]), id, st))
  {
    RunInv(es[..i]);
    FixedForever(es, i, j, id, st);
  }

  /** An intent that expired before it was matched stays expired. */
  lemma ExpiredForever(es: seq<Event>, i: nat, j: nat, id: IntentId)
    requires IsRun(es) && i <= j <= |es| && IsRun(es[..i])
    requires StoredAs(After(es[..i]), id, Expired)
    requires forall m :: 0 <= m < i ==> !(es[m].Match? && es[m].id == id)
    ensures IsRun(es[..j]) && (id in After(es[..j]).store.intents ==> StoredAs(After(es[..j]), id, Expired))
  {
    RunInv(es[..i]);
    if Rank(es[..i], id) > 0 {
      var m := MatchedBefore(es, i, id);
    }
    FixedForever(es, i, j, id, Expired);
  }

  // ---------------------------------------------------------------------
  // Expired and completed all the same
  // ---------------------------------------------------------------------

  /** The watch task is busy with the intent. */
  predicate Holds(w: Watch, id: IntentId) { !w.Listening? && w.intent.id == id }

  /** Going on in this way, the run completes the intent. */
  ghost predicate CompletesIn(es: seq<Event>, more: seq<Event>, id: IntentId) {
    IsRun(es + more) && StoredAs(After(es + more), id, Completed)
  }

  ghost predicate MayComplete(es: seq<Event>, id: IntentId) { exists more :: CompletesIn(es, more, id) }

  lemma LaterMayComplete(es: seq<Event>, e: Event, id: IntentId)
    requires IsRun(es + [e]) && MayComplete(es + [e], id)
    ensures MayComplete(es, id)
  {
    var more: seq<Event> :| CompletesIn(es + [e], more, id);
    assert es + [e] + more == es + ([e] + more);
    assert CompletesIn(es, [e] + more, id);
  }

  /** While the intent is stored, the watch task that holds it can go on to complete it. */
  lemma GoesOnToComplete(es: seq<Event>, id: IntentId)
    requires IsRun(es) && Holds(After(es).watch, id) && id in After(es).store.intents
    ensures MayComplete(es, id)
    decreases 3 - WatchRank(After(es).watch, id)
  {
    var w := After(es).watch;
    var e := if w.Matched? then Mark(id)
             else if w.Marked? then Move(id, w.intent.room, AsI32(w.intent.phira))
             else Settle(id, true);
    ExtendRun(es, e);
    if w.Asked? {
      assert CompletesIn(es, [e], id);
    } else {
      GoesOnToComplete(es + [e], id);
      LaterMayComplete(es, e, id);
    }
  }

  /** An intent has been matched exactly when the watch task has got anywhere with it. */
  lemma MatchedIff(es: seq<Event>, id: IntentId)
    requires IsRun(es)
    ensures Rank(es, id) > 0 <==> exists m :: 0 <= m < |es| && es[m].Match? && es[m].id == id
  {
    assert es[..|es|] == es;
    if Rank(es, id) > 0 {
      var m := MatchedBefore(es, |es|, id);
    }
    if m :| 0 <= m < |es| && es[m].Match? && es[m].id == id {
      StepAt(es, m);
      RankGrows(es, m, |es|, id);
    }
  }

  /** An expired intent that the watch task does not hold stays expired, or is removed. */
  lemma UnheldStaysExpired(es: seq<Event>, more: seq<Event>, id: IntentId)
    requires IsRun(es) && StoredAs(After(es), id, Expired) && !Holds(After(es).watch, id) && IsRun(es + more)
    ensures !StoredAs(After(es + more), id, Completed)
  {
    RunInv(es);
    assert WatchRank(After(es).watch, id) == 0;
    assert StatusFits(Expired, Rank(es, id));
    assert (es + more)[..|es|] == es && (es + more)[..|es + more|] == es + more;
    FixedForever(es + more, |es|, |es + more|, id, Expired);
  }

  /**
   An intent that has been marked expired can still complete exactly when the watch
   task holds it, and that is exactly when it was matched before.
   */
  lemma LateCompletionIff(es: seq<Event>, id: IntentId)
    requires IsRun(es) && StoredAs(After(es), id, Expired)
    ensures MayComplete(es, id) <==> Holds(After(es).watch, id)
    ensures Holds(After(es).watch, id) <==> exists m :: 0 <= m < |es| && es[m].Match? && es[m].id == id
  {
    RunInv(es);
    assert StatusFits(Expired, Rank(es, id));
    assert WatchRank(After(es).watch, id) == Rank(es, id);
    MatchedIff(es, id);
    if Holds(After(es).watch, id) {
      GoesOnToComplete(es, id);
    } else {
      forall more ensures !CompletesIn(es, more, id) {
        if IsRun(es + more) {
          UnheldStaysExpired(es, more, id);
        }
      }
    }
  }

  /** A run that marks an intent expired, and yet can go on to complete it. */
  lemma ExpiredMayComplete() returns (es: seq<Event>)
    ensures IsRun(es) && StoredAs(After(es), SAMPLE.id, Expired) && MayComplete(es, SAMPLE.id)
  {
    var matched := SampleMatched();
    ExtendRun(matched, Tick(300));
    ExtendRun(matched + [Tick(300)], Sweep(SAMPLE.id, 300));
    es := matched + [Tick(300)] + [Sweep(SAMPLE.id, 300)];
    LateCompletionIff(es, SAMPLE.id);
  }
}
