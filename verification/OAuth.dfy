/**
 GitHub OAuth: one-shot state tokens and ownership of GitHub identities.

 A start request allocates a server-owned state under a fresh random token and
 then says what it is for; the callback consumes the state, asks GitHub who came
 back, looks the identity up and binds it or logs its owner in. Requests run
 concurrently and interleave between these steps, and the system clock may move
 in either direction.
 */
module OAuth {
  import opened Prelude

  const STATE_TTL := 600
  const MAX_PENDING := 2048

  type Token = nat
  type RequestId = nat
  type UserId = nat
  type GithubId = nat
  type Time = int

  /** What a state is for; `Pending` until the start request has said so. */
  datatype Purpose = Pending | Bind(user: UserId) | Login

  datatype OAuthState = OAuthState(purpose: Purpose, createdAt: Time)

  /** Young enough, and not from the future. */
  predicate IsFresh(st: OAuthState, now: Time) {
    st.createdAt <= now < st.createdAt + STATE_TTL
  }

  function Pruned(states: map<Token, OAuthState>, now: Time): map<Token, OAuthState> {
    map t | t in states && IsFresh(states[t], now) :: states[t]
  }

  lemma PrunedSize(states: map<Token, OAuthState>, now: Time)
    ensures |Pruned(states, now)| <= |states|
  {
    assert Pruned(states, now).Keys <= states.Keys;
    SubsetSize(Pruned(states, now).Keys, states.Keys);
  }

  lemma {:induction false} SubsetSize<T>(a: set<T>, b: set<T>)
    requires a <= b
    ensures |a| <= |b|
    decreases |a|
  {
    if x :| x in a {
      SubsetSize(a - {x}, b - {x});
    }
  }

  // ---------------------------------------------------------------------
  // The service object
  // ---------------------------------------------------------------------

  class GithubService {
    var states: map<Token, OAuthState>

    constructor ()
      ensures states == map[]
    {
      states := map[];
    }

    /** Visit every state once and keep the fresh ones. */
    method PruneStates(now: Time)
      modifies this
      ensures forall t :: t in states <==>
                t in old(states) && old(states)[t].createdAt <= now < old(states)[t].createdAt + 600
      ensures forall t :: t in states ==> states[t] == old(states)[t]
      ensures states == Pruned(old(states), now)
    {
      var todo := states.Keys;
      ghost var start := states;
      while todo != {}
        invariant todo <= states.Keys
        invariant states == map t | t in start && (t in todo || IsFresh(start[t], now)) :: start[t]
      {
        var t :| t in todo;
        todo := todo - {t};
        if !IsFresh(states[t], now) {
          states := states - {t};
        }
      }
    }

    /** Allocate a state under a fresh token, unless too many are pending. */
    method AuthorizeUrl(token: Token, now: Time) returns (granted: bool)
      requires token !in states
      modifies this
      ensures granted <==> |Pruned(old(states), now)| < 2048
      ensures granted <==> token in states
      ensures granted ==> states[token] == OAuthState(Pending, now)
      ensures forall t :: t in states && t != token <==>
                t in old(states) && old(states)[t].createdAt <= now < old(states)[t].createdAt + 600
      ensures forall t :: t in states && t != token ==> states[t] == old(states)[t]
      ensures states == if granted then Pruned(old(states), now)[token := OAuthState(Pending, now)]
                        else Pruned(old(states), now)
      ensures |states| <= 2048 || |states| <= |old(states)|
    {
      PrunedSize(states, now);
      PruneStates(now);
      if |states| >= MAX_PENDING { return false; }
      states := states[token := OAuthState(Pending, now)];
      granted := true;
    }

    /** Say what a state is for; nothing happens if it is gone already. */
    method SetPurpose(token: Token, purpose: Purpose)
      modifies this
      ensures states == if token in old(states) then old(states)[token := old(states)[token].(purpose := purpose)]
                        else old(states)
    {
      if token in states {
        states := states[token := states[token].(purpose := purpose)];
      }
    }

    /** Hand out a fresh state and forget it. */
    method ConsumeState(token: Token, now: Time) returns (found: Option<OAuthState>)
      modifies this
      ensures found.Some? <==>
                token in old(states) && old(states)[token].createdAt <= now < old(states)[token].createdAt + 600
      ensures found.Some? ==> found.value == old(states)[token]
      ensures forall t :: t in states <==> t != token && t in old(states)
                                           && old(states)[t].createdAt <= now < old(states)[t].createdAt + 600
      ensures forall t :: t in states ==> states[t] == old(states)[t]
      ensures states == Pruned(old(states), now) - {token}
    {
      PruneStates(now);
      if token !in states { return None; }
      found := Some(states[token]);
      states := states - {token};
    }
  }

  // ---------------------------------------------------------------------
  // Concurrent requests
  // ---------------------------------------------------------------------

  /** A start request that has passed the cap check, and then has its token. */
  datatype Start = Checked(purpose: Purpose) | Allocated(purpose: Purpose, token: Token)

  /** A callback that has consumed its state, and then has looked the identity up. */
  datatype Callback =
    | Holding(token: Token, state: OAuthState)
    | Found(token: Token, state: OAuthState, github: GithubId, owner: Option<UserId>)

  /** How a callback ends for its user. */
  datatype Verdict = LoggedIn(user: UserId) | ReportedBound(user: UserId) | Refused

  datatype State = State(
    states: map<Token, OAuthState>,
    starts: map<RequestId, Start>,
    callbacks: map<RequestId, Callback>,
    identities: map<GithubId, UserId>,      // rows of provider github, unique by id
    issued: set<Token>,                     // every token ever drawn
    now: Time)

  datatype Event =
    | Clock(now: Time)
    | Check(r: RequestId, purpose: Purpose)      // prune, and pass the cap check
    | TurnAway(r: RequestId)                     // prune, and fail the cap check
    | Allocate(r: RequestId, token: Token)       // insert the pending state
    | Declare(r: RequestId, token: Token)        // say what it is for
    | Consume(c: RequestId, token: Token)        // prune, and take the state
    | Identify(c: RequestId, github: GithubId)   // GitHub's answer, and the lookup
    | Finish(c: RequestId, verdict: Verdict)     // bind, log in or refuse
    | GiveUp(c: RequestId)                       // any failure on the way
    | Unbind(user: UserId, github: GithubId)

  /** The end of a callback: its verdict, and what it does to the identities. */
  function VerdictOf(cb: Callback): Verdict
    requires cb.Found?
  {
    match cb.state.purpose
    case Login => if cb.owner.Some? then LoggedIn(cb.owner.value) else Refused
    case Pending => Refused
    case Bind(u) => if cb.owner.Some? && cb.owner.value != u then Refused else ReportedBound(u)
  }

  /** The insertion that does nothing on conflict. */
  function Bound(ids: map<GithubId, UserId>, github: GithubId, user: UserId): map<GithubId, UserId> {
    if github in ids then ids else ids[github := user]
  }

  predicate Enabled(s: State, e: Event) {
    match e
    case Clock(_) => true
    case Check(r, purpose) => r !in s.starts && purpose != Pending && |Pruned(s.states, s.now)| < MAX_PENDING
    case TurnAway(r) => |Pruned(s.states, s.now)| >= MAX_PENDING
    case Allocate(r, token) => r in s.starts && s.starts[r].Checked? && token !in s.issued
    case Declare(r, token) => r in s.starts && s.starts[r].Allocated? && s.starts[r].token == token
    case Consume(c, token) => c !in s.callbacks && token in Pruned(s.states, s.now)
    case Identify(c, _) => c in s.callbacks && s.callbacks[c].Holding?
    case Finish(c, v) => c in s.callbacks && s.callbacks[c].Found? && v == VerdictOf(s.callbacks[c])
    case GiveUp(c) => c in s.callbacks
    case Unbind(u, g) => g in s.identities && s.identities[g] == u
  }

  function Step(s: State, e: Event): State
    requires Enabled(s, e)
  {
    match e
    case Clock(now) => s.(now := now)
    case Check(r, purpose) => s.(states := Pruned(s.states, s.now), starts := s.starts[r := Checked(purpose)])
    case TurnAway(_) => s.(states := Pruned(s.states, s.now))
    case Allocate(r, token) =>
      s.(states := s.states[token := OAuthState(Pending, s.now)],
         starts := s.starts[r := Allocated(s.starts[r].purpose, token)],
         issued := s.issued + {token})
    case Declare(r, token) =>
      s.(states := if token in s.states then s.states[token := s.states[token].(purpose := s.starts[r].purpose)]
                   else s.states,
         starts := s.starts - {r})
    case Consume(c, token) =>
      s.(states := Pruned(s.states, s.now) - {token}, callbacks := s.callbacks[c := Holding(token, s.states[token])])
    case Identify(c, g) =>
      s.(callbacks := s.callbacks[c := Found(s.callbacks[c].token, s.callbacks[c].state, g, Lookup(s.identities, g))])
    case Finish(c, v) =>
      s.(identities := if v.ReportedBound? then Bound(s.identities, s.callbacks[c].github, v.user) else s.identities,
         callbacks := s.callbacks - {c})
    case GiveUp(c) => s.(callbacks := s.callbacks - {c})
    case Unbind(_, g) => s.(identities := s.identities - {g})
  }

  const INITIAL := State(map[], map[], map[], map[], {}, 0)

  function Run(es: seq<Event>): Option<State> {
    if es == [] then Some(INITIAL)
    else
      var r := Run(Init(es));
      if r.Some? && Enabled(r.value, Last(es)) then Some(Step(r.value, Last(es))) else None
  }

  predicate IsRun(es: seq<Event>) { Run(es).Some? }

  function After(es: seq<Event>): State
    requires IsRun(es)
  {
    Run(es).value
  }

  lemma {:induction false} PrefixIsRun(es: seq<Event>, n: nat)
    requires IsRun(es) && n <= |es|
    ensures IsRun(es[..n])
    decreases |es|
  {
    if n == |es| {
      assert es[..n] == es;
    } else {
      PrefixIsRun(Init(es), n);
      assert Init(es)[..n] == es[..n];
    }
  }

  lemma StepAt(es: seq<Event>, i: nat)
    requires IsRun(es) && i < |es|
    ensures IsRun(es[..i]) && IsRun(es[..i + 1])
    ensures Init(es[..i + 1]) == es[..i]
    ensures Enabled(After(es[..i]), es[i])
    ensures After(es[..i + 1]) == Step(After(es[..i]), es[i])
  {
    PrefixIsRun(es, i);
    PrefixIsRun(es, i + 1);
    assert Init(es[..i + 1]) == es[..i];
  }

  lemma ExtendRun(es: seq<Event>, e: Event)
    ensures IsRun(es + [e]) <==> IsRun(es) && Enabled(After(es), e)
    ensures IsRun(es + [e]) ==> After(es + [e]) == Step(After(es), e)
  {
    assert Init(es + [e]) == es;
  }

  // ---------------------------------------------------------------------
  // The cap on pending states
  // ---------------------------------------------------------------------

  /** Start requests between their cap check and their insertion. */
  function InFlight(starts: map<RequestId, Start>): set<RequestId> {
    set r | r in starts && starts[r].Checked?
  }

  /** The most start requests that were ever in that gap at once. */
  function Peak(es: seq<Event>): nat
    requires IsRun(es)
  {
    if es == [] then 0
    else
      var n := |InFlight(After(es).starts)|;
      if n > Peak(Init(es)) then n else Peak(Init(es))
  }

  lemma InFlightStep(s: State, e: Event)
    requires Enabled(s, e)
    ensures var s' := Step(s, e);
            InFlight(s'.starts) ==
              match e
              case Check(r, _) => InFlight(s.starts) + {r}
              case Allocate(r, _) => InFlight(s.starts) - {r}
              case _ => InFlight(s.starts)
    ensures e.Check? ==> e.r !in InFlight(s.starts)
    ensures e.Allocate? ==> e.r in InFlight(s.starts)
  {
  }

  /** Only an insertion makes the table grow, and a check leaves room for one. */
  lemma TableStep(s: State, e: Event)
    requires Enabled(s, e)
    ensures |Step(s, e).states| <= |s.states| + if e.Allocate? then 1 else 0
    ensures e.Check? ==> |Step(s, e).states| < MAX_PENDING
  {
    PrunedSize(s.states, s.now);
    var s' := Step(s, e);
    SubsetSize(s'.states.Keys, s.states.Keys + if e.Allocate? then {e.token} else {});
  }

  lemma CapStep(s: State, e: Event, peak: nat)
    requires Enabled(s, e) && |InFlight(s.starts)| <= peak
    requires |s.states| + |InFlight(s.starts)| <= MAX_PENDING - 1 + peak
    ensures var s' := Step(s, e);
            var peak' := if |InFlight(s'.starts)| > peak then |InFlight(s'.starts)| else peak;
            |s'.states| + |InFlight(s'.starts)| <= MAX_PENDING - 1 + peak'
  {
    InFlightStep(s, e);
    TableStep(s, e);
  }

  /**
   Checking the cap and inserting the state are two steps, so concurrent starts
   can overshoot, but never by more than the number of starts that were in the
   gap at once, less one. With one start at a time the cap holds.
   */
  lemma {:induction false} CapHolds(es: seq<Event>)
    requires IsRun(es)
    ensures |InFlight(After(es).starts)| <= Peak(es)
    ensures |After(es).states| + |InFlight(After(es).starts)| <= 2047 + Peak(es)
  {
    if es != [] {
      CapHolds(Init(es));
      CapStep(After(Init(es)), Last(es), Peak(Init(es)));
    }
  }

  /** The cap is kept in a run where no two starts were in the gap at once. */
  lemma CapHoldsOneAtATime(es: seq<Event>)
    requires IsRun(es) && Peak(es) <= 1
    ensures |After(es).states| <= 2048
  {
    CapHolds(es);
  }

  // ---------------------------------------------------------------------
  // The bound is reached
  // ---------------------------------------------------------------------

  ghost predicate StartsFilled(starts: map<RequestId, Start>, tokens: nat, waiting: nat) {
    && |InFlight(starts)| == waiting
    && (forall r :: r in starts ==> r < tokens + waiting)
    && (forall r :: tokens <= r < tokens + waiting ==> r in starts && starts[r].Checked?)
  }

  ghost predicate TableFilled(states: map<Token, OAuthState>, issued: set<Token>, tokens: nat) {
    && |states| == tokens
    && (forall t :: t in states ==> t < tokens && states[t].createdAt == 0)
    && (forall t :: t in issued ==> t < tokens)
  }

  lemma OneMoreState(states: map<Token, OAuthState>, issued: set<Token>, tokens: nat)
    requires TableFilled(states, issued, tokens)
    ensures tokens !in issued
    ensures TableFilled(states[tokens := OAuthState(Pending, 0)], issued + {tokens}, tokens + 1)
  {
    assert states[tokens := OAuthState(Pending, 0)].Keys == states.Keys + {tokens};
  }

  /** `tokens` start requests have inserted their state, `waiting` more are in the gap. */
  ghost predicate Filled(s: State, tokens: nat, waiting: nat) {
    && s.now == 0
    && TableFilled(s.states, s.issued, tokens)
    && StartsFilled(s.starts, tokens, waiting)
  }

  lemma OneMoreStart(starts: map<RequestId, Start>, tokens: nat, waiting: nat)
    requires StartsFilled(starts, tokens, waiting)
    ensures StartsFilled(starts[tokens + waiting := Checked(Login)], tokens, waiting + 1)
  {
    var r := tokens + waiting;
    assert InFlight(starts[r := Checked(Login)]) == InFlight(starts) + {r};
  }

  lemma OneStartLess(starts: map<RequestId, Start>, tokens: nat, waiting: nat)
    requires StartsFilled(starts, tokens, waiting + 1)
    ensures StartsFilled(starts[tokens := Allocated(starts[tokens].purpose, tokens)], tokens + 1, waiting)
  {
    assert InFlight(starts[tokens := Allocated(starts[tokens].purpose, tokens)]) == InFlight(starts) - {tokens};
  }

  lemma NothingToPrune(states: map<Token, OAuthState>)
    requires forall t :: t in states ==> states[t].createdAt == 0
    ensures Pruned(states, 0) == states
  {
  }

  lemma FillCheckEnabled(s: State, tokens: nat, waiting: nat)
    requires Filled(s, tokens, waiting) && tokens < MAX_PENDING
    ensures Enabled(s, Check(tokens + waiting, Login))
  {
    NothingToPrune(s.states);
  }

  lemma FillCheckStep(s: State, tokens: nat, waiting: nat)
    requires Filled(s, tokens, waiting) && Enabled(s, Check(tokens + waiting, Login))
    ensures Filled(Step(s, Check(tokens + waiting, Login)), tokens, waiting + 1)
  {
    NothingToPrune(s.states);
    OneMoreStart(s.starts, tokens, waiting);
  }

  lemma FillAllocateStep(s: State, tokens: nat, waiting: nat)
    requires Filled(s, tokens, waiting + 1)
    ensures Enabled(s, Allocate(tokens, tokens))
    ensures Filled(Step(s, Allocate(tokens, tokens)), tokens + 1, waiting)
  {
    OneStartLess(s.starts, tokens, waiting);
    OneMoreState(s.states, s.issued, tokens);
  }

  lemma FillCheck(es: seq<Event>, tokens: nat, waiting: nat, peak: nat) returns (more: seq<Event>)
    requires IsRun(es) && Filled(After(es), tokens, waiting) && tokens < MAX_PENDING
    requires Peak(es) <= peak && waiting < peak
    ensures IsRun(more) && Filled(After(more), tokens, waiting + 1) && Peak(more) <= peak
  {
    FillCheckEnabled(After(es), tokens, waiting);
    FillCheckStep(After(es), tokens, waiting);
    ExtendRun(es, Check(tokens + waiting, Login));
    more := es + [Check(tokens + waiting, Login)];
    assert Init(more) == es;
  }

  lemma FillAllocate(es: seq<Event>, tokens: nat, waiting: nat, peak: nat) returns (more: seq<Event>)
    requires IsRun(es) && Filled(After(es), tokens, waiting + 1)
    requires Peak(es) <= peak && waiting <= peak
    ensures IsRun(more) && Filled(After(more), tokens + 1, waiting) && Peak(more) <= peak
  {
    FillAllocateStep(After(es), tokens, waiting);
    ExtendRun(es, Allocate(tokens, tokens));
    more := es + [Allocate(tokens, tokens)];
    assert Init(more) == es;
  }

  /** One start after the other. */
  lemma {:induction false} FillUp(tokens: nat) returns (es: seq<Event>)
    requires tokens <= MAX_PENDING
    ensures IsRun(es) && Filled(After(es), tokens, 0) && Peak(es) <= 1
  {
    if tokens == 0 {
      es := [];
    } else {
      es := FillUp(tokens - 1);
      es := FillCheck(es, tokens - 1, 0, 1);
      es := FillAllocate(es, tokens - 1, 0, 1);
    }
  }

  /** Then `k` starts check the cap before any of them inserts. */
  lemma {:induction false} Crowd(es: seq<Event>, tokens: nat, k: nat, peak: nat) returns (more: seq<Event>)
    requires IsRun(es) && Filled(After(es), tokens, 0) && tokens < MAX_PENDING
    requires Peak(es) <= peak && k <= peak
    ensures IsRun(more) && Filled(After(more), tokens, k) && Peak(more) <= peak
    decreases k
  {
    more := es;
    if k > 0 {
      more := Crowd(es, tokens, k - 1, peak);
      more := FillCheck(more, tokens, k - 1, peak);
    }
  }

  /** And then they all insert. */
  lemma {:induction false} Rush(es: seq<Event>, tokens: nat, k: nat, peak: nat) returns (more: seq<Event>)
    requires IsRun(es) && Filled(After(es), tokens, k) && k <= peak && Peak(es) <= peak
    ensures IsRun(more) && Filled(After(more), tokens + k, 0) && Peak(more) <= peak
    decreases k
  {
    more := es;
    if k > 0 {
      more := FillAllocate(es, tokens, k - 1, peak);
      more := Rush(more, tokens + 1, k - 1, peak);
    }
  }

  /** For every number of concurrent starts there is a run that overshoots by exactly the bound. */
  lemma CapBoundIsReached(k: nat) returns (es: seq<Event>)
    requires k >= 1
    ensures IsRun(es) && Peak(es) <= k && |After(es).states| == 2047 + k
  {
    es := FillUp(MAX_PENDING - 1);
    es := Crowd(es, MAX_PENDING - 1, k, k);
    es := Rush(es, MAX_PENDING - 1, k, k);
  }
}
