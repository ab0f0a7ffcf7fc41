/**
 What every run of GitHub starts, callbacks and unbinds keeps: states are used
 once and while young, a binding goes to the user who asked for it, and an
 identity changes hands only through an unbind.
 */
module OAuthTheorems {
  import opened Prelude
  import opened OAuth

  // ---------------------------------------------------------------------
  // A state is consumed at most once, and while it is young
  // ---------------------------------------------------------------------

  /** Every pending or handed-out token was issued. */
  ghost predicate Issued(s: State) {
    && (forall t :: t in s.states ==> t in s.issued)
    && (forall c :: c in s.callbacks ==> s.callbacks[c].token in s.issued)
  }

  lemma IssuedStep(s: State, e: Event)
    requires Issued(s) && Enabled(s, e)
    ensures Issued(Step(s, e))
  {
  }

  lemma {:induction false} RunIssued(es: seq<Event>)
    requires IsRun(es)
    ensures Issued(After(es))
  {
    if es != [] {
      RunIssued(Init(es));
      IssuedStep(After(Init(es)), Last(es));
    }
  }

  /** A token that was issued and is no longer pending never becomes pending again. */
  lemma {:induction false} GoneForever(es: seq<Event>, i: nat, j: nat, t: Token)
    requires IsRun(es) && i <= j <= |es|
    requires IsRun(es[..i]) && t in After(es[..i]).issued && t !in After(es[..i]).states
    ensures IsRun(es[..j]) && t in After(es[..j]).issued && t !in After(es[..j]).states
    decreases j - i
  {
    if i < j {
      GoneForever(es, i, j - 1, t);
      StepAt(es, j - 1);
    }
  }

  lemma ConsumedAtMostOnce(es: seq<Event>, i: nat, j: nat)
    requires IsRun(es) && i < j < |es| && es[i].Consume? && es[j].Consume?
    ensures es[i].token != es[j].token
  {
    StepAt(es, i);
    RunIssued(es[..i]);
    GoneForever(es, i + 1, j, es[i].token);
    StepAt(es, j);
  }

  /** A pending state carries the clock reading of its allocation. */
  lemma {:induction false} AllocatedAt(es: seq<Event>, j: nat, t: Token) returns (i: nat)
    requires IsRun(es) && j <= |es| && IsRun(es[..j]) && t in After(es[..j]).states
    ensures i < j && es[i].Allocate? && es[i].token == t
    ensures IsRun(es[..i]) && After(es[..i]).now == After(es[..j]).states[t].createdAt
    decreases j
  {
    StepAt(es, j - 1);
    if es[j - 1].Allocate? && es[j - 1].token == t {
      i := j - 1;
    } else {
      i := AllocatedAt(es, j - 1, t);
    }
  }

  /** By the clock, a state is consumed within its lifetime of 600 seconds. */
  lemma ConsumedWhileYoung(es: seq<Event>, j: nat) returns (i: nat)
    requires IsRun(es) && j < |es| && es[j].Consume?
    ensures i < j && es[i].Allocate? && es[i].token == es[j].token
    ensures IsRun(es[..i]) && IsRun(es[..j])
    ensures After(es[..i]).now <= After(es[..j]).now < After(es[..i]).now + 600
  {
    StepAt(es, j);
    i := AllocatedAt(es, j, es[j].token);
  }

  /**
   The event takes the state away: a callback consumes it, or a request prunes while
   it is 600 seconds old or older, or from the future.
   */
  ghost predicate TakesAway(es: seq<Event>, n: nat, t: Token, createdAt: Time)
    requires n < |es|
  {
    && IsRun(es[..n])
    && (|| (es[n].Consume? && es[n].token == t)
        || ((es[n].Check? || es[n].TurnAway? || es[n].Consume?)
            && !(createdAt <= After(es[..n]).now < createdAt + 600)))
  }

  /** A state stays pending exactly until it is consumed, or pruned when it is too old. */
  lemma {:induction false} PendingIff(es: seq<Event>, i: nat, j: nat)
    requires IsRun(es) && i < j <= |es| && es[i].Allocate?
    ensures IsRun(es[..i]) && IsRun(es[..j]) && es[i].token in After(es[..j]).issued
    ensures var t, createdAt := es[i].token, After(es[..i]).now;
            && (t in After(es[..j]).states <==> (forall n :: i < n < j ==> !TakesAway(es, n, t, createdAt)))
            && (t in After(es[..j]).states ==> After(es[..j]).states[t].createdAt == createdAt)
    decreases j
  {
    hide Step, Enabled;
    StepAt(es, j - 1);
    AllocatedNow(es, i);
    if i + 1 < j {
      PendingIff(es, i, j - 1);
      PendingStep(After(es[..j - 1]), es[j - 1], es[i].token);
      assert (forall n :: i < n < j ==> !TakesAway(es, n, es[i].token, After(es[..i]).now))
        <==> && (forall n :: i < n < j - 1 ==> !TakesAway(es, n, es[i].token, After(es[..i]).now))
             && !TakesAway(es, j - 1, es[i].token, After(es[..i]).now);
    }
  }

  lemma AllocatedNow(es: seq<Event>, i: nat)
    requires IsRun(es) && i < |es| && es[i].Allocate?
    ensures IsRun(es[..i]) && IsRun(es[..i + 1]) && es[i].token in After(es[..i + 1]).issued
    ensures Lookup(After(es[..i + 1]).states, es[i].token) == Some(OAuthState(Pending, After(es[..i]).now))
  {
    StepAt(es, i);
  }

  lemma PendingStep(s: State, e: Event, t: Token)
    requires Enabled(s, e) && t in s.issued
    ensures t in Step(s, e).states <==>
              && t in s.states && !(e.Consume? && e.token == t)
              && (e.Check? || e.TurnAway? || e.Consume? ==>
                    s.states[t].createdAt <= s.now < s.states[t].createdAt + 600)
    ensures t in Step(s, e).states ==> Step(s, e).states[t].createdAt == s.states[t].createdAt
    ensures t in Step(s, e).issued
  {
  }

  /** The states that a request reading this clock leaves pending. */
  function Younger(s: State): set<Token> {
    set t | t in s.states && s.states[t].createdAt <= s.now < s.states[t].createdAt + 600
  }

  /** A start request passes exactly while fewer than 2048 young states are pending, and is turned away otherwise. */
  lemma StartPassesIff(es: seq<Event>, r: RequestId, p: Purpose)
    requires IsRun(es) && r !in After(es).starts && p != Pending
    ensures IsRun(es + [Check(r, p)]) <==> |Younger(After(es))| < 2048
    ensures IsRun(es + [TurnAway(r)]) <==> |Younger(After(es))| >= 2048
  {
    ExtendRun(es, Check(r, p));
    ExtendRun(es, TurnAway(r));
    assert Pruned(After(es).states, After(es).now).Keys == Younger(After(es));
  }

  /** A callback can use a state exactly when it is pending and young. */
  lemma UsableIff(es: seq<Event>, c: RequestId, t: Token)
    requires IsRun(es) && c !in After(es).callbacks
    ensures IsRun(es + [Consume(c, t)]) <==> t in Younger(After(es))
  {
    ExtendRun(es, Consume(c, t));
  }

  // ---------------------------------------------------------------------
  // A state is for what its start request was made for
  // ---------------------------------------------------------------------

  /** A start request's purpose is the one it came with. */
  lemma {:induction false} CheckedBefore(es: seq<Event>, j: nat, r: RequestId) returns (i: nat)
    requires IsRun(es) && j <= |es| && IsRun(es[..j]) && r in After(es[..j]).starts
    ensures i < j && es[i] == Check(r, After(es[..j]).starts[r].purpose)
    ensures forall n :: i < n < j ==> !(es[n].Check? && es[n].r == r)
    decreases j
  {
    StepAt(es, j - 1);
    if es[j - 1].Check? && es[j - 1].r == r {
      i := j - 1;
    } else {
      i := CheckedBefore(es, j - 1, r);
    }
  }

  /** A pending state's purpose was declared by the request that holds its token. */
  lemma {:induction false} DeclaredBefore(es: seq<Event>, j: nat, t: Token) returns (d: nat)
    requires IsRun(es) && j <= |es| && IsRun(es[..j])
    requires t in After(es[..j]).states && After(es[..j]).states[t].purpose != Pending
    ensures d < j && es[d].Declare? && es[d].token == t
    ensures IsRun(es[..d]) && es[d].r in After(es[..d]).starts
    ensures After(es[..d]).starts[es[d].r].purpose == After(es[..j]).states[t].purpose
    decreases j
  {
    StepAt(es, j - 1);
    if es[j - 1].Declare? && es[j - 1].token == t {
      d := j - 1;
    } else {
      d := DeclaredBefore(es, j - 1, t);
    }
  }

  /** A callback holds the state it consumed. */
  lemma {:induction false} ConsumedBefore(es: seq<Event>, j: nat, c: RequestId) returns (m: nat)
    requires IsRun(es) && j <= |es| && IsRun(es[..j]) && c in After(es[..j]).callbacks
    ensures m < j && es[m] == Consume(c, After(es[..j]).callbacks[c].token)
    ensures IsRun(es[..m]) && es[m].token in After(es[..m]).states
    ensures After(es[..m]).states[es[m].token] == After(es[..j]).callbacks[c].state
    decreases j
  {
    StepAt(es, j - 1);
    if es[j - 1].Consume? && es[j - 1].c == c {
      m := j - 1;
    } else {
      m := ConsumedBefore(es, j - 1, c);
    }
  }

  /** The request made at `i` declares, at `d`, what the state is for. */
  ghost predicate DeclaredAt(es: seq<Event>, i: nat, d: nat, t: Token, p: Purpose) {
    && i < d < |es| && es[d].Declare? && es[d].token == t && es[i] == Check(es[d].r, p)
    && forall n :: i < n < d ==> !(es[n].Check? && es[n].r == es[d].r)
  }

  /** Before event `m` a request made for the purpose has declared the state. */
  ghost predicate DeclaredFor(es: seq<Event>, m: nat, t: Token, p: Purpose) {
    exists i: nat, d: nat :: d < m && DeclaredAt(es, i, d, t, p)
  }

  /** Start requests hold different tokens, all of them issued. */
  ghost predicate StartsApart(s: State) {
    && (forall r :: r in s.starts && s.starts[r].Allocated? ==> s.starts[r].token in s.issued)
    && (forall r, q :: r in s.starts && q in s.starts && s.starts[r].Allocated? && s.starts[q].Allocated? && r != q
                       ==> s.starts[r].token != s.starts[q].token)
  }

  lemma StartsApartStep(s: State, e: Event)
    requires StartsApart(s) && Enabled(s, e)
    ensures StartsApart(Step(s, e))
  {
  }

  lemma {:induction false} RunStartsApart(es: seq<Event>)
    requires IsRun(es)
    ensures StartsApart(After(es))
  {
    if es != [] {
      RunStartsApart(Init(es));
      StartsApartStep(After(Init(es)), Last(es));
    }
  }

  /** A request keeps its purpose until it has declared it. */
  lemma {:induction false} PurposeKept(es: seq<Event>, i: nat, d: nat)
    requires IsRun(es) && i < d <= |es| && es[i].Check?
    requires forall n :: i < n < d ==> !(es[n].Check? && es[n].r == es[i].r)
    ensures IsRun(es[..d])
    ensures es[i].r in After(es[..d]).starts ==> After(es[..d]).starts[es[i].r].purpose == es[i].purpose
    decreases d
  {
    StepAt(es, d - 1);
    if i + 1 < d {
      PurposeKept(es, i, d - 1);
    }
  }

  /** A declared state stays what it was declared to be. */
  lemma {:induction false} DeclaredForGood(es: seq<Event>, d: nat, m: nat, p: Purpose)
    requires IsRun(es) && d < m <= |es| && es[d].Declare?
    requires IsRun(es[..d]) && es[d].r in After(es[..d]).starts && After(es[..d]).starts[es[d].r].purpose == p
    ensures IsRun(es[..m]) && es[d].token in After(es[..m]).issued
    ensures es[d].token in After(es[..m]).states ==> After(es[..m]).states[es[d].token].purpose == p
    ensures forall r :: r in After(es[..m]).starts && After(es[..m]).starts[r].Allocated? ==>
              After(es[..m]).starts[r].token != es[d].token
    decreases m
  {
    StepAt(es, m - 1);
    if d + 1 < m {
      DeclaredForGood(es, d, m - 1, p);
    } else {
      RunStartsApart(es[..d]);
    }
  }

  /** A pending state is for a purpose exactly when a request made for that purpose has said so. */
  lemma PurposeIff(es: seq<Event>, m: nat, t: Token, p: Purpose)
    requires IsRun(es) && m <= |es| && IsRun(es[..m]) && t in After(es[..m]).states && p != Pending
    ensures After(es[..m]).states[t].purpose == p <==> DeclaredFor(es, m, t, p)
  {
    if After(es[..m]).states[t].purpose == p {
      var d := DeclaredBefore(es, m, t);
      var i := CheckedBefore(es, d, es[d].r);
      assert DeclaredAt(es, i, d, t, p);
    }
    if DeclaredFor(es, m, t, p) {
      var i: nat, d: nat :| d < m && DeclaredAt(es, i, d, t, p);
      StepAt(es, d);
      PurposeKept(es, i, d);
      DeclaredForGood(es, d, m, p);
    }
  }

  /**
   A callback that binds for a user consumed a state that was declared by a start
   request which that user made: check, declaration, consumption and binding come
   in this order, linked by request and token.
   */
  lemma BindsOnlyTheStarter(es: seq<Event>, j: nat) returns (i: nat, d: nat, m: nat)
    requires IsRun(es) && j < |es| && es[j].Finish? && es[j].verdict.ReportedBound?
    ensures i < d < m < j
    ensures es[m].Consume? && es[m].c == es[j].c
    ensures es[d].Declare? && es[d].token == es[m].token
    ensures es[i] == Check(es[d].r, Bind(es[j].verdict.user))
  {
    StepAt(es, j);
    m := ConsumedBefore(es, j, es[j].c);
    d := DeclaredBefore(es, m, es[m].token);
    i := CheckedBefore(es, d, es[d].r);
  }

  // ---------------------------------------------------------------------
  // Ownership of identities
  // ---------------------------------------------------------------------

  /** An identity leaves its owner only by that owner's unbind. */
  lemma {:induction false} OwnerChangesOnlyByUnbind(es: seq<Event>, i: nat, j: nat, g: GithubId, u: UserId)
    requires IsRun(es) && i <= j <= |es| && IsRun(es[..i])
    requires Lookup(After(es[..i]).identities, g) == Some(u)
    requires forall k :: i <= k < j ==> es[k] != Unbind(u, g)
    ensures IsRun(es[..j]) && Lookup(After(es[..j]).identities, g) == Some(u)
    decreases j - i
  {
    if i < j {
      OwnerChangesOnlyByUnbind(es, i, j - 1, g, u);
      StepAt(es, j - 1);
    }
  }

  /** Whoever owns an identity got it from a callback that bound it for them. */
  lemma {:induction false} OwnedThroughCallback(es: seq<Event>, j: nat, g: GithubId) returns (f: nat)
    requires IsRun(es) && j <= |es| && IsRun(es[..j]) && g in After(es[..j]).identities
    ensures f < j && es[f].Finish? && es[f].verdict == ReportedBound(After(es[..j]).identities[g])
    ensures IsRun(es[..f]) && es[f].c in After(es[..f]).callbacks
    ensures After(es[..f]).callbacks[es[f].c].Found? && After(es[..f]).callbacks[es[f].c].github == g
    decreases j
  {
    StepAt(es, j - 1);
    var before := After(es[..j - 1]);
    if g !in before.identities {
      f := j - 1;
    } else {
      f := OwnedThroughCallback(es, j - 1, g);
    }
  }

  /** The owner of an identity after the first `n` events. */
  function OwnerAt(es: seq<Event>, n: nat, g: GithubId): Option<UserId>
    requires IsRun(es) && n <= |es|
  {
    PrefixIsRun(es, n);
    Lookup(After(es[..n]).identities, g)
  }

  /** The callback's lookup: the last one before it ends. */
  lemma {:induction false} LookedUpAt(es: seq<Event>, j: nat, c: RequestId) returns (k: nat)
    requires IsRun(es) && j <= |es| && IsRun(es[..j])
    requires c in After(es[..j]).callbacks && After(es[..j]).callbacks[c].Found?
    ensures k < j && es[k] == Identify(c, After(es[..j]).callbacks[c].github)
    ensures OwnerAt(es, k, es[k].github) == After(es[..j]).callbacks[c].owner
    ensures forall n :: k < n < j ==> !(es[n].Identify? && es[n].c == c)
    decreases j
  {
    StepAt(es, j - 1);
    if es[j - 1].Identify? && es[j - 1].c == c {
      k := j - 1;
    } else {
      k := LookedUpAt(es, j - 1, c);
    }
  }

  /** A login is of the user who owned the identity when it was looked up. */
  lemma LoginIsOfTheOwner(es: seq<Event>, j: nat) returns (k: nat)
    requires IsRun(es) && j < |es| && es[j].Finish? && es[j].verdict.LoggedIn?
    ensures k < j && es[k].Identify? && es[k].c == es[j].c
    ensures OwnerAt(es, k, es[k].github) == Some(es[j].verdict.user)
  {
    StepAt(es, j);
    k := LookedUpAt(es, j, es[j].c);
  }

  /** The lookup comes after the consumption. */
  lemma {:induction false} ConsumedThenLookedUp(es: seq<Event>, j: nat, c: RequestId) returns (m: nat, k: nat)
    requires IsRun(es) && j <= |es| && IsRun(es[..j])
    requires c in After(es[..j]).callbacks && After(es[..j]).callbacks[c].Found?
    ensures m < k < j && IsRun(es[..m]) && es[m] == Consume(c, After(es[..j]).callbacks[c].token)
    ensures es[m].token in After(es[..m]).states
    ensures After(es[..m]).states[es[m].token] == After(es[..j]).callbacks[c].state
    ensures es[k] == Identify(c, After(es[..j]).callbacks[c].github)
    ensures OwnerAt(es, k, es[k].github) == After(es[..j]).callbacks[c].owner
    decreases j
  {
    StepAt(es, j - 1);
    if es[j - 1].Identify? && es[j - 1].c == c {
      k := j - 1;
      m := ConsumedBefore(es, k, c);
    } else {
      m, k := ConsumedThenLookedUp(es, j - 1, c);
    }
  }

  /**
   How a callback ends, exactly: it logs a user in when its state was declared by a
   request to log in and the identity was theirs at the lookup; it reports a binding
   when its state was declared by that user's request to bind and the identity was
   theirs or free; otherwise, and for a state nobody has declared, it refuses.
   */
  lemma CallbackAnswers(es: seq<Event>, j: nat) returns (m: nat, k: nat)
    requires IsRun(es) && j < |es| && es[j].Finish?
    ensures m < k < j && es[m].Consume? && es[m].c == es[j].c && es[k].Identify? && es[k].c == es[j].c
    ensures var t, owner, v := es[m].token, OwnerAt(es, k, es[k].github), es[j].verdict;
            && (forall u: UserId :: v == LoggedIn(u) <==> DeclaredFor(es, m, t, Login) && owner == Some(u))
            && (forall u: UserId ::
                  v == ReportedBound(u) <==> DeclaredFor(es, m, t, Bind(u)) && owner in {None, Some(u)})
            && (v == Refused <==>
                  && (DeclaredFor(es, m, t, Login) ==> owner == None)
                  && (forall u: UserId :: DeclaredFor(es, m, t, Bind(u)) ==> owner !in {None, Some(u)}))
  {
    StepAt(es, j);
    m, k := ConsumedThenLookedUp(es, j, es[j].c);
    PurposeIff(es, m, es[m].token, Login);
    forall u: UserId
      ensures After(es[..m]).states[es[m].token].purpose == Bind(u) <==> DeclaredFor(es, m, es[m].token, Bind(u))
    {
      PurposeIff(es, m, es[m].token, Bind(u));
    }
  }

  // ---------------------------------------------------------------------
  // When a reported binding is a real one
  // ---------------------------------------------------------------------

  /** At the insertion: it binds exactly when nobody else owns the identity. */
  lemma InsertionBindsIff(s: State, c: RequestId, u: UserId)
    requires Enabled(s, Finish(c, ReportedBound(u)))
    ensures var g := s.callbacks[c].github;
            Lookup(Step(s, Finish(c, ReportedBound(u))).identities, g) == Some(u)
            <==> Lookup(s.identities, g) in {None, Some(u)}
  {
  }

  /** Event `m` is a callback that binds the free identity for the user. */
  ghost predicate BindsAt(es: seq<Event>, m: nat, g: GithubId, v: UserId)
    requires IsRun(es) && m < |es|
  {
    && es[m].Finish? && es[m].verdict == ReportedBound(v)
    && OwnerAt(es, m, g) == None && OwnerAt(es, m + 1, g) == Some(v)
  }

  predicate Unbinds(e: Event, g: GithubId) { e.Unbind? && e.github == g }

  /** One event: the owner stays, is bound by a callback, or is unbound. */
  lemma OwnerMoves(es: seq<Event>, m: nat, g: GithubId)
    requires IsRun(es) && m < |es|
    ensures OwnerAt(es, m, g).Some? && !Unbinds(es[m], g) ==> OwnerAt(es, m + 1, g) == OwnerAt(es, m, g)
    ensures Unbinds(es[m], g) ==> OwnerAt(es, m + 1, g) == None
    ensures OwnerAt(es, m, g) == None && OwnerAt(es, m + 1, g).Some? ==>
              BindsAt(es, m, g, OwnerAt(es, m + 1, g).value)
  {
    StepAt(es, m);
  }

  lemma {:induction false} OwnerStays(es: seq<Event>, i: nat, j: nat, g: GithubId)
    requires IsRun(es) && i <= j <= |es| && OwnerAt(es, i, g).Some?
    requires forall n :: i <= n < j ==> !Unbinds(es[n], g)
    ensures OwnerAt(es, j, g) == OwnerAt(es, i, g)
    decreases j - i
  {
    if i < j {
      OwnerStays(es, i, j - 1, g);
      OwnerMoves(es, j - 1, g);
    }
  }

  /** Who has become an identity's owner in the meantime was bound then, and not unbound since. */
  lemma {:induction false} BoundSince(es: seq<Event>, i: nat, j: nat, g: GithubId, v: UserId) returns (m: nat)
    requires IsRun(es) && i <= j <= |es| && OwnerAt(es, i, g) != Some(v) && OwnerAt(es, j, g) == Some(v)
    ensures i <= m < j && BindsAt(es, m, g, v) && forall n :: m < n < j ==> !Unbinds(es[n], g)
    decreases j - i
  {
    OwnerMoves(es, j - 1, g);
    if OwnerAt(es, j - 1, g) == Some(v) {
      m := BoundSince(es, i, j - 1, g, v);
    } else {
      m := j - 1;
    }
  }

  /** Another user's callback has bound the identity since the lookup at `k`, and it was not unbound after that. */
  ghost predicate TakenBetween(es: seq<Event>, k: nat, j: nat, g: GithubId, u: UserId)
    requires IsRun(es) && j < |es|
  {
    exists m, v :: k < m < j && v != u && BindsAt(es, m, g, v) && forall n :: m < n < j ==> !Unbinds(es[n], g)
  }

  lemma TakenIsAnothers(es: seq<Event>, k: nat, j: nat, g: GithubId, u: UserId)
    requires IsRun(es) && j < |es| && TakenBetween(es, k, j, g, u)
    ensures OwnerAt(es, j, g) !in {None, Some(u)}
  {
    var m, v :| k < m < j && v != u && BindsAt(es, m, g, v) && forall n :: m < n < j ==> !Unbinds(es[n], g);
    OwnerStays(es, m + 1, j, g);
  }

  /**
   A callback that reports a binding looked the identity up before. The identity is
   its user's afterwards, unless between the lookup and the insertion another user's
   callback bound it and nobody unbound it again; the condition is exact.
   */
  lemma ReportedBoundIff(es: seq<Event>, j: nat) returns (k: nat)
    requires IsRun(es) && j < |es| && es[j].Finish? && es[j].verdict.ReportedBound?
    ensures k < j && es[k].Identify? && es[k].c == es[j].c
    ensures forall n :: k < n < j ==> !(es[n].Identify? && es[n].c == es[j].c)
    ensures OwnerAt(es, j + 1, es[k].github) != Some(es[j].verdict.user)
       <==> TakenBetween(es, k, j, es[k].github, es[j].verdict.user)
  {
    StepAt(es, j);
    k := LookedUpAt(es, j, es[j].c);
    var g, u := es[k].github, es[j].verdict.user;
    InsertionBindsIff(After(es[..j]), es[j].c, u);
    assert OwnerAt(es, j + 1, g) == Some(u) <==> OwnerAt(es, j, g) in {None, Some(u)};
    if OwnerAt(es, j, g) !in {None, Some(u)} {
      var m := BoundSince(es, k, j, g, OwnerAt(es, j, g).value);
    }
    if TakenBetween(es, k, j, g, u) {
      TakenIsAnothers(es, k, j, g, u);
    }
  }

  /** Two users who look the same free identity up before either binds it: both are told it is theirs. */
  lemma SecondBinderIsMisled(s: State, c: RequestId, d: RequestId, u: UserId, v: UserId)
    requires c in s.callbacks && d in s.callbacks && c != d && u != v
    requires s.callbacks[c].Found? && s.callbacks[c].owner == None && s.callbacks[c].state.purpose == Bind(u)
    requires s.callbacks[d].Found? && s.callbacks[d].owner == None && s.callbacks[d].state.purpose == Bind(v)
    requires s.callbacks[c].github == s.callbacks[d].github && s.callbacks[c].github !in s.identities
    ensures Enabled(s, Finish(c, ReportedBound(u)))
    ensures var s' := Step(s, Finish(c, ReportedBound(u)));
            && Enabled(s', Finish(d, ReportedBound(v)))
            && Lookup(Step(s', Finish(d, ReportedBound(v))).identities, s.callbacks[d].github) == Some(u)
  {
  }

  // ---------------------------------------------------------------------
  // Such a run
  // ---------------------------------------------------------------------

  /** No pending state is due for pruning. */
  ghost predicate AllFresh(s: State) { Pruned(s.states, s.now) == s.states }

  lemma PassCheck(es: seq<Event>, r: RequestId, u: UserId)
    requires IsRun(es) && AllFresh(After(es)) && |After(es).states| < MAX_PENDING && r !in After(es).starts
    ensures IsRun(es + [Check(r, Bind(u))])
    ensures After(es + [Check(r, Bind(u))]) == After(es).(starts := After(es).starts[r := Checked(Bind(u))])
  {
    ExtendRun(es, Check(r, Bind(u)));
  }

  lemma AllocateAndDeclare(es: seq<Event>, r: RequestId, t: Token, u: UserId)
    requires IsRun(es) && r in After(es).starts && After(es).starts[r] == Checked(Bind(u)) && t !in After(es).issued
    ensures IsRun(es + [Allocate(r, t)] + [Declare(r, t)])
    ensures var s := After(es);
            After(es + [Allocate(r, t)] + [Declare(r, t)])
            == s.(states := s.states[t := OAuthState(Bind(u), s.now)], starts := s.starts - {r},
                  issued := s.issued + {t})
  {
    var s := After(es);
    ExtendRun(es, Allocate(r, t));
    ExtendRun(es + [Allocate(r, t)], Declare(r, t));
    assert s.starts[r := Allocated(Bind(u), t)] - {r} == s.starts - {r};
    assert s.states[t := OAuthState(Pending, s.now)][t := OAuthState(Bind(u), s.now)]
        == s.states[t := OAuthState(Bind(u), s.now)];
  }

  /** A user starts a binding: check, allocation and declaration. */
  lemma StartBinding(es: seq<Event>, r: RequestId, t: Token, u: UserId) returns (more: seq<Event>)
    requires IsRun(es) && AllFresh(After(es)) && |After(es).states| < MAX_PENDING
    requires r !in After(es).starts && t !in After(es).issued && t !in After(es).states
    ensures IsRun(more) && more == es + [Check(r, Bind(u))] + [Allocate(r, t)] + [Declare(r, t)]
    ensures var s := After(es);
            && After(more) == s.(states := s.states[t := OAuthState(Bind(u), s.now)], issued := s.issued + {t})
            && AllFresh(After(more))
  {
    var s := After(es);
    PassCheck(es, r, u);
    AllocateAndDeclare(es + [Check(r, Bind(u))], r, t, u);
    more := es + [Check(r, Bind(u))] + [Allocate(r, t)] + [Declare(r, t)];
    assert s.starts[r := Checked(Bind(u))] - {r} == s.starts;
    assert Pruned(After(more).states, s.now) == After(more).states;
  }

  /** GitHub calls back: the state is consumed and the identity looked up. */
  lemma CallBack(es: seq<Event>, c: RequestId, t: Token, g: GithubId) returns (more: seq<Event>)
    requires IsRun(es) && AllFresh(After(es)) && t in After(es).states
    requires c !in After(es).callbacks && g !in After(es).identities
    ensures IsRun(more) && more == es + [Consume(c, t)] + [Identify(c, g)]
    ensures var s := After(es);
            && After(more)
            == s.(states := s.states - {t}, callbacks := s.callbacks[c := Found(t, s.states[t], g, None)])
            && AllFresh(After(more))
  {
    var s := After(es);
    ExtendRun(es, Consume(c, t));
    var r1 := es + [Consume(c, t)];
    ExtendRun(r1, Identify(c, g));
    more := r1 + [Identify(c, g)];
    assert After(more).callbacks == s.callbacks[c := Found(t, s.states[t], g, None)];
  }

  /** Both users have started, and both lookups have found the identity free. */
  lemma BothLookedUp(u: UserId, v: UserId, g: GithubId) returns (es: seq<Event>)
    ensures IsRun(es) && |es| == 10 && g !in After(es).identities
    ensures After(es).callbacks == map[1 := Found(11, OAuthState(Bind(u), 0), g, None),
                                       2 := Found(12, OAuthState(Bind(v), 0), g, None)]
  {
    es := [];
    assert IsRun(es) && After(es) == INITIAL && AllFresh(INITIAL);
    es := StartBinding(es, 1, 11, u);
    assert After(es).states == map[11 := OAuthState(Bind(u), 0)];
    assert After(es).states.Keys == {11};
    es := StartBinding(es, 2, 12, v);
    es := CallBack(es, 1, 11, g);
    es := CallBack(es, 2, 12, g);
  }

  /** A run in which two users bind the same identity, and both are told that it is theirs. */
  lemma SecondBinderHappens(u: UserId, v: UserId, g: GithubId) returns (es: seq<Event>)
    requires u != v
    ensures IsRun(es) && |es| == 12
    ensures es[10] == Finish(1, ReportedBound(u)) && es[11] == Finish(2, ReportedBound(v))
    ensures Lookup(After(es).identities, g) == Some(u)
  {
    var looked := BothLookedUp(u, v, g);
    SecondBinderIsMisled(After(looked), 1, 2, u, v);
    ExtendRun(looked, Finish(1, ReportedBound(u)));
    var r1 := looked + [Finish(1, ReportedBound(u))];
    ExtendRun(r1, Finish(2, ReportedBound(v)));
    es := r1 + [Finish(2, ReportedBound(v))];
  }
}
