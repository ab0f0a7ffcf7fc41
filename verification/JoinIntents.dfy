/**
 Join intents: a user asks to be moved into a room as soon as they are online.

 Intents live in a map keyed by id, with an index from player id to the intent
 to be matched next. Removing an intent drops whatever its player's index entry
 points to, so the index may miss an intent but never names a wrong one.
 */
module JoinIntents {
  import opened Prelude

  const DEFAULT_TTL := 300
  const MAX_TTL := 900
  const RETENTION := 3600

  type IntentId = nat
  type UserId = nat
  type PhiraId = int
  type Time = int

  datatype Status = Pending | UserOnline | Moving | Completed | Failed | Expired

  datatype Intent = Intent(id: IntentId, user: UserId, phira: PhiraId, room: string, expiresAt: Time, status: Status)

  datatype Store = Store(intents: map<IntentId, Intent>, byPhira: map<PhiraId, IntentId>)

  datatype Refusal = BadTtl | RoomRequired | NotFound | NotOwner

  predicate IsTerminal(st: Status) { st == Completed || st == Failed || st == Expired }

  /** The status a client sees: an expired intent that is not terminal reads as expired. */
  function EffectiveStatus(i: Intent, now: Time): Status {
    if i.expiresAt <= now && !IsTerminal(i.status) then Expired else i.status
  }

  function Seen(i: Intent, now: Time): Intent { i.(status := EffectiveStatus(i, now)) }

  // ---------------------------------------------------------------------
  // Store operations on values
  // ---------------------------------------------------------------------

  function Without<K, V>(m: map<K, V>, k: K): map<K, V> { m - {k} }

  function Created(s: Store, i: Intent): Store {
    Store(s.intents[i.id := i], s.byPhira[i.phira := i.id])
  }

  function Dropped(s: Store, id: IntentId): Store
    requires id in s.intents
  {
    Store(Without(s.intents, id), Without(s.byPhira, s.intents[id].phira))
  }

  function WithStatus(s: Store, id: IntentId, st: Status): Store {
    if id in s.intents then s.(intents := s.intents[id := s.intents[id].(status := st)]) else s
  }

  /** A terminal status also drops the player's index entry, whichever intent it names. */
  function Terminated(s: Store, id: IntentId, st: Status): Store {
    var s' := WithStatus(s, id, st);
    if id in s.intents then s'.(byPhira := Without(s.byPhira, s.intents[id].phira)) else s'
  }

  /** The intent a player coming online fulfils, if any. */
  function Matching(s: Store, phira: PhiraId, now: Time): Option<IntentId> {
    if && phira in s.byPhira && s.byPhira[phira] in s.intents
       && EffectiveStatus(s.intents[s.byPhira[phira]], now) == Pending
    then Some(s.byPhira[phira]) else None
  }

  /** Past retention: a cleanup removes it. */
  predicate Doomed(i: Intent, now: Time) {
    i.expiresAt <= now && IsTerminal(i.status) && now - i.expiresAt > RETENTION
  }

  /** One turn of the cleanup loop. */
  function Swept(s: Store, id: IntentId, now: Time): Store {
    if id !in s.intents then s
    else if Doomed(s.intents[id], now) then Dropped(s, id)
    else if s.intents[id].expiresAt <= now && !IsTerminal(s.intents[id].status) then WithStatus(s, id, Expired)
    else s
  }

  /** No intent of the player, other than those still to be visited, is past retention. */
  predicate Spared(s: Store, p: PhiraId, todo: set<IntentId>, now: Time) {
    forall id :: id in s.intents && id !in todo && s.intents[id].phira == p ==> !Doomed(s.intents[id], now)
  }

  /** A cleanup that has yet to visit some ids. */
  function CleanedBut(s: Store, todo: set<IntentId>, now: Time): Store {
    Store(map id | id in s.intents && (id in todo || !Doomed(s.intents[id], now)) ::
            if id in todo then s.intents[id] else Seen(s.intents[id], now),
          map p | p in s.byPhira && Spared(s, p, todo, now) :: s.byPhira[p])
  }

  /** In numbers: its status is final, and it expired over an hour ago. */
  predicate PastRetention(i: Intent, now: Time) {
    (i.status == Completed || i.status == Failed || i.status == Expired) && now > i.expiresAt + 3600
  }

  /** A whole cleanup. */
  function Cleaned(s: Store, now: Time): Store { CleanedBut(s, {}, now) }

  lemma SweepAdvances(s: Store, todo: set<IntentId>, id: IntentId, now: Time)
    requires id in todo && id in s.intents
    ensures Swept(CleanedBut(s, todo, now), id, now) == CleanedBut(s, todo - {id}, now)
  {
    var before, after := CleanedBut(s, todo, now), CleanedBut(s, todo - {id}, now);
    assert before.intents[id] == s.intents[id];
    forall p | p in s.byPhira
      ensures Spared(s, p, todo - {id}, now) <==>
        Spared(s, p, todo, now) && (s.intents[id].phira == p ==> !Doomed(s.intents[id], now))
    {
    }
    assert Swept(before, id, now).intents == after.intents;
    assert Swept(before, id, now).byPhira == after.byPhira;
  }

  lemma NothingVisited(s: Store, now: Time)
    ensures CleanedBut(s, s.intents.Keys, now) == s
  {
    assert CleanedBut(s, s.intents.Keys, now).intents == s.intents;
    assert CleanedBut(s, s.intents.Keys, now).byPhira == s.byPhira;
  }

  function Listed(s: Store, user: UserId, now: Time): map<IntentId, Intent> {
    map id | id in s.intents && s.intents[id].user == user && s.intents[id].expiresAt > now - RETENTION ::
      Seen(s.intents[id], now)
  }

  datatype Lookup = Found(intent: Intent) | Missing(why: Refusal)

  function Fetched(s: Store, user: UserId, id: IntentId, now: Time): Lookup {
    if id !in s.intents then Missing(NotFound)
    else if s.intents[id].user != user then Missing(NotOwner)
    else Found(Seen(s.intents[id], now))
  }

  // ---------------------------------------------------------------------
  // The store object
  // ---------------------------------------------------------------------

  class JoinIntentStore {
    var intents: map<IntentId, Intent>
    var byPhira: map<PhiraId, IntentId>

    ghost function View(): Store
      reads this
    {
      Store(intents, byPhira)
    }

    constructor ()
      ensures View() == Store(map[], map[])
    {
      intents, byPhira := map[], map[];
    }

    /** `id` is the fresh identifier drawn for the new intent; `room` is already trimmed. */
    method Create(id: IntentId, user: UserId, phira: PhiraId, room: string, ttl: Option<int>, now: Time)
      returns (refusal: Option<Refusal>)
      modifies this
      ensures refusal == Some(BadTtl) <==> ttl.Some? && (ttl.value < 1 || ttl.value > 900)
      ensures refusal == Some(RoomRequired) <==> (ttl.Some? ==> 1 <= ttl.value <= 900) && room == ""
      ensures refusal.None? <==> (ttl.Some? ==> 1 <= ttl.value <= 900) && room != ""
      ensures refusal.Some? ==> View() == old(View())
      ensures refusal.None? && id !in old(intents) ==>
                && var t := if ttl.Some? then ttl.value else 300;
                && intents == old(intents)[id := Intent(id, user, phira, room, now + t, Pending)]
                && byPhira == old(byPhira)[phira := id]
                && View() == Created(old(View()), Intent(id, user, phira, room, now + t, Pending))
    {
      var t := if ttl.Some? then ttl.value else DEFAULT_TTL;
      if t < 1 || t > MAX_TTL { return Some(BadTtl); }
      if room == "" { return Some(RoomRequired); }
      if id in intents {
        byPhira := byPhira - {intents[id].phira};
      }
      intents := intents[id := Intent(id, user, phira, room, now + t, Pending)];
      byPhira := byPhira[phira := id];
      refusal := None;
    }

    method Fetch(user: UserId, id: IntentId, now: Time) returns (found: Lookup)
      ensures found == Missing(NotFound) <==> id !in intents
      ensures found == Missing(NotOwner) <==> id in intents && intents[id].user != user
      ensures found.Found? <==> id in intents && intents[id].user == user
      ensures found.Found? ==>
                && found.intent.(status := intents[id].status) == intents[id]
                && found.intent.status == if now < intents[id].expiresAt || intents[id].status in {Completed, Failed}
                                          then intents[id].status else Expired
      ensures found == Fetched(View(), user, id, now)
    {
      if id !in intents { return Missing(NotFound); }
      if intents[id].user != user { return Missing(NotOwner); }
      found := Found(Seen(intents[id], now));
    }

    method Cancel(user: UserId, id: IntentId) returns (refusal: Option<Refusal>)
      modifies this
      ensures refusal == Some(NotFound) <==> id !in old(intents)
      ensures refusal == Some(NotOwner) <==> id in old(intents) && old(intents)[id].user != user
      ensures refusal.None? <==> id in old(intents) && old(intents)[id].user == user
      ensures refusal.Some? ==> View() == old(View())
      ensures refusal.None? ==>
                && intents == old(intents) - {id}
                && byPhira == old(byPhira) - {old(intents)[id].phira}
                && View() == Dropped(old(View()), id)
    {
      if id !in intents { return Some(NotFound); }
      if intents[id].user != user { return Some(NotOwner); }
      byPhira := byPhira - {intents[id].phira};
      intents := intents - {id};
      refusal := None;
    }

    /** A player came online: the matched intent is marked and returned. */
    method MatchOnline(phira: PhiraId, now: Time) returns (matched: Option<Intent>)
      modifies this`intents
      ensures matched.Some? <==>
                && phira in old(byPhira) && old(byPhira)[phira] in old(intents)
                && old(intents)[old(byPhira)[phira]].status == Pending
                && now < old(intents)[old(byPhira)[phira]].expiresAt
      ensures matched.None? <==> Matching(old(View()), phira, now).None?
      ensures matched.None? ==> View() == old(View())
      ensures matched.Some? ==>
                && var id := old(byPhira)[phira];
                && matched.value == old(intents)[id].(status := UserOnline)
                && intents == old(intents)[id := matched.value]
                && Matching(old(View()), phira, now) == Some(id)
                && View() == WithStatus(old(View()), id, UserOnline)
    {
      if phira !in byPhira { return None; }
      var id := byPhira[phira];
      if id !in intents { return None; }
      if EffectiveStatus(intents[id], now) != Pending { return None; }
      intents := intents[id := intents[id].(status := UserOnline)];
      matched := Some(intents[id]);
    }

    method MarkMoving(id: IntentId)
      modifies this`intents
      ensures intents == if id in old(intents) then old(intents)[id := old(intents)[id].(status := Moving)]
                         else old(intents)
      ensures View() == WithStatus(old(View()), id, Moving)
    {
      if id in intents {
        intents := intents[id := intents[id].(status := Moving)];
      }
    }

    method MarkTerminal(id: IntentId, status: Status)
      modifies this
      ensures id !in old(intents) ==> View() == old(View())
      ensures id in old(intents) ==>
                && intents == old(intents)[id := old(intents)[id].(status := status)]
                && byPhira == old(byPhira) - {old(intents)[id].phira}
      ensures View() == Terminated(old(View()), id, status)
    {
      if id in intents {
        var phira := intents[id].phira;
        intents := intents[id := intents[id].(status := status)];
        byPhira := byPhira - {phira};
      }
    }

    /** One turn of the cleanup loop; tells whether the intent was removed. */
    method Sweep(id: IntentId, now: Time) returns (removed: bool)
      modifies this
      ensures removed <==> id in old(intents) && now > old(intents)[id].expiresAt + 3600
                           && old(intents)[id].status in {Completed, Failed, Expired}
      ensures removed ==> intents == old(intents) - {id} && byPhira == old(byPhira) - {old(intents)[id].phira}
      ensures !removed ==> byPhira == old(byPhira)
      ensures !removed ==>
                intents == if && id in old(intents) && old(intents)[id].expiresAt <= now
                              && old(intents)[id].status !in {Completed, Failed}
                           then old(intents)[id := old(intents)[id].(status := Expired)] else old(intents)
      ensures View() == Swept(old(View()), id, now)
    {
      removed := false;
      if id in intents && intents[id].expiresAt <= now {
        var i := intents[id];
        if IsTerminal(i.status) {
          if now - i.expiresAt > RETENTION {
            intents := intents - {id};
            byPhira := byPhira - {i.phira};
            removed := true;
          }
        } else {
          intents := intents[id := i.(status := Expired)];
        }
      }
    }

    /** The cleanup loop over a snapshot of the ids, in any order. */
    method CleanupExpired(now: Time) returns (removed: nat)
      modifies this
      ensures removed == |old(intents).Keys| - |intents.Keys|
      ensures forall id :: id in intents <==> id in old(intents) && !PastRetention(old(intents)[id], now)
      ensures forall id :: id in intents ==>
                intents[id] == if now < old(intents)[id].expiresAt || old(intents)[id].status in {Completed, Failed}
                               then old(intents)[id] else old(intents)[id].(status := Expired)
      ensures forall p :: p in byPhira <==>
                && p in old(byPhira)
                && (forall id :: id in old(intents) && old(intents)[id].phira == p
                                 ==> !PastRetention(old(intents)[id], now))
      ensures forall p :: p in byPhira ==> byPhira[p] == old(byPhira)[p]
      ensures View() == Cleaned(old(View()), now)
    {
      var todo := intents.Keys;
      ghost var start := View();
      NothingVisited(start, now);
      removed := 0;
      while todo != {}
        invariant todo <= start.intents.Keys
        invariant View() == CleanedBut(start, todo, now)
        invariant removed == |start.intents.Keys| - |intents.Keys|
      {
        var id :| id in todo;
        SweepAdvances(start, todo, id, now);
        ghost var keys := intents.Keys;
        var gone := Sweep(id, now);
        if gone {
          assert intents.Keys == keys - {id};
          removed := removed + 1;
        }
        todo := todo - {id};
      }
    }
  }

  // ---------------------------------------------------------------------
  // Eager and lazy expiry agree
  // ---------------------------------------------------------------------

  /** A listing has what the user can fetch, except intents that expired an hour ago or longer. */
  lemma ListedIsFetched(s: Store, user: UserId, now: Time)
    ensures forall id :: id in Listed(s, user, now) <==>
              Fetched(s, user, id, now).Found? && now < s.intents[id].expiresAt + 3600
    ensures forall id :: id in Listed(s, user, now) ==> Fetched(s, user, id, now) == Found(Listed(s, user, now)[id])
  {
  }

  /** Listing shows the same with or without an earlier cleanup. */
  lemma CleanupInvisibleInList(s: Store, user: UserId, t0: Time, t1: Time)
    requires t0 <= t1
    ensures Listed(Cleaned(s, t0), user, t1) == Listed(s, user, t1)
  {
    var a, b := Listed(Cleaned(s, t0), user, t1), Listed(s, user, t1);
    assert a.Keys == b.Keys;
    forall id | id in a ensures a[id] == b[id] {
      assert Cleaned(s, t0).intents[id] == Seen(s.intents[id], t0);
    }
  }

  /** Fetching an intent that survives a cleanup shows the same as without it. */
  lemma CleanupInvisibleInFetch(s: Store, user: UserId, id: IntentId, t0: Time, t1: Time)
    requires t0 <= t1 && id in Cleaned(s, t0).intents
    ensures Fetched(Cleaned(s, t0), user, id, t1) == Fetched(s, user, id, t1)
  {
    assert Cleaned(s, t0).intents[id] == Seen(s.intents[id], t0);
  }

  /** An intent expired by one cleanup and past retention at the next one is gone. */
  lemma TwoCleanupsRemove(s: Store, t0: Time, t1: Time, id: IntentId)
    requires t0 <= t1 && id in s.intents && s.intents[id].expiresAt <= t0 && t1 > s.intents[id].expiresAt + 3600
    ensures id !in Cleaned(Cleaned(s, t0), t1).intents
  {
    if id in Cleaned(s, t0).intents {
      assert Cleaned(s, t0).intents[id] == Seen(s.intents[id], t0);
    }
  }

  // ---------------------------------------------------------------------
  // Several intents of one player
  // ---------------------------------------------------------------------

  /** A new intent does not replace the player's earlier ones: they stay stored, off the index. */
  lemma EarlierIntentsStay(s: Store, i: Intent, id: IntentId)
    requires i.id !in s.intents && id in s.intents
    ensures id in Created(s, i).intents && Created(s, i).intents[id] == s.intents[id]
    ensures id != i.id && i.phira in Created(s, i).byPhira && Created(s, i).byPhira[i.phira] == i.id
  {
  }

  /**
   Dropping an earlier intent of a player takes the later one off the index too:
   it stays pending, and the player coming online no longer fulfils it.
   */
  lemma EarlierIntentHidesLater(s: Store, a: IntentId, b: IntentId, now: Time)
    requires a in s.intents && b in s.intents && a != b && s.intents[a].phira == s.intents[b].phira
    requires Matching(s, s.intents[b].phira, now) == Some(b)
    ensures b in Dropped(s, a).intents && EffectiveStatus(Dropped(s, a).intents[b], now) == Pending
    ensures Matching(Dropped(s, a), s.intents[b].phira, now) == None
  {
  }
}
