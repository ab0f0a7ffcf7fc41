/**
 Redemption codes.

 A redemption is one database transaction: it locks the coupon's row, checks
 it, performs the coupon's action, counts the use and records the redemption.
 Any number of such transactions, and of revocations, run at once; at
 read-committed isolation a statement sees what was committed before it, and
 only the row lock keeps two transactions on the same coupon apart. The table's
 uniqueness constraint on (coupon, user) is not used: what it protects is proved.
 */
module Coupons {
  import opened Prelude

  type CouponId = nat
  type UserId = nat
  type TxId = nat
  type Time = int

  datatype HolderMode = Creator | Manual

  datatype Coupon = Coupon(
    code: string, maxUses: int, used: int, revokedAt: Option<Time>, expiresAt: Option<Time>,
    mode: HolderMode, holder: Option<UserId>)

  datatype Redemption = Redemption(coupon: CouponId, user: UserId, at: Time)

  /** What the coupon's action did for the user: status, group, task or notification. */
  datatype Grant = Grant(coupon: CouponId, user: UserId, effect: string)

  datatype Refusal = NotFound | Revoked | Expired | LimitReached | NotHolder | AlreadyUsed | ActionFailed

  // ---------------------------------------------------------------------
  // The checks of one redemption
  // ---------------------------------------------------------------------

  predicate Redeemed(rs: seq<Redemption>, c: CouponId, u: UserId) {
    exists i :: 0 <= i < |rs| && rs[i].coupon == c && rs[i].user == u
  }

  /** The refusal a locked row calls for, in the order in which the checks are made. */
  function Verdict(row: Coupon, u: UserId, now: Time, prior: bool): Option<Refusal> {
    if row.revokedAt.Some? then Some(Revoked)
    else if row.expiresAt.Some? && row.expiresAt.value <= now then Some(Expired)
    else if row.used >= row.maxUses then Some(LimitReached)
    else if row.holder.Some? && row.holder != Some(u) then Some(NotHolder)
    else if row.mode == Creator && row.holder != Some(u) then Some(NotHolder)
    else if prior then Some(AlreadyUsed)
    else None
  }

  datatype Status = IsRevoked | IsExpired | IsRedeemed | IsActive

  /** The status shown in the coupon list. */
  function StatusOf(row: Coupon, now: Time): Status {
    if row.revokedAt.Some? then IsRevoked
    else if row.expiresAt.Some? && row.expiresAt.value <= now then IsExpired
    else if row.used >= row.maxUses then IsRedeemed
    else IsActive
  }

  // ---------------------------------------------------------------------
  // Transactions, steps and runs
  // ---------------------------------------------------------------------

  /** Where a redemption transaction stands; `row` is what it read when it got the lock. */
  datatype Tx =
    | Begun(user: UserId, code: string)
    | Locked(user: UserId, coupon: CouponId, row: Coupon)
    | Checked(user: UserId, coupon: CouponId, row: Coupon)
    | Acted(user: UserId, coupon: CouponId, row: Coupon, effect: string, at: Time)
    | Counted(user: UserId, coupon: CouponId, row: Coupon, effect: string, at: Time)
    | Recorded(user: UserId, coupon: CouponId, row: Coupon, effect: string, at: Time)

  datatype State = State(
    coupons: map<CouponId, Coupon>,     // committed rows
    redemptions: seq<Redemption>,       // committed, oldest first
    grants: seq<Grant>,                 // committed effects, oldest first
    locks: map<CouponId, TxId>,
    txs: map<TxId, Tx>,
    now: Time)

  datatype Event =
    | Create(coupon: CouponId, row: Coupon)
    | Revoke(coupon: CouponId)
    | Tick(now: Time)                   // the clock reads `now`, earlier or later than before
    | Begin(tx: TxId, user: UserId, code: string)
    | Lock(tx: TxId, coupon: CouponId)
    | Check(tx: TxId)
    | Act(tx: TxId, effect: string)
    | Count(tx: TxId)
    | Record(tx: TxId)
    | Commit(tx: TxId)
    | Abort(tx: TxId)                   // a refusal, a failed statement or a lost connection

  predicate Enabled(s: State, e: Event) {
    match e
    case Create(c, row) =>
      && c !in s.coupons && row.maxUses > 0 && row.used == 0 && row.revokedAt == None
      && (row.mode == Creator ==> row.holder.Some?)
      && (forall d :: d in s.coupons ==> s.coupons[d].code != row.code)
    case Revoke(c) => c in s.coupons && s.coupons[c].revokedAt == None && c !in s.locks
    case Tick(_) => true
    case Begin(tx, _, _) => tx !in s.txs
    case Lock(tx, c) =>
      tx in s.txs && s.txs[tx].Begun? && c in s.coupons && s.coupons[c].code == s.txs[tx].code && c !in s.locks
    case Check(tx) =>
      && tx in s.txs && s.txs[tx].Locked?
      && var t := s.txs[tx];
         Verdict(t.row, t.user, s.now, Redeemed(s.redemptions, t.coupon, t.user)) == None
    case Act(tx, _) => tx in s.txs && s.txs[tx].Checked?
    case Count(tx) => tx in s.txs && s.txs[tx].Acted?
    case Record(tx) => tx in s.txs && s.txs[tx].Counted?
    case Commit(tx) => tx in s.txs && s.txs[tx].Recorded? && s.txs[tx].coupon in s.coupons
    case Abort(tx) => tx in s.txs
  }

  function Unlock(locks: map<CouponId, TxId>, tx: TxId): map<CouponId, TxId> {
    map c | c in locks && locks[c] != tx :: locks[c]
  }

  function Put(s: State, tx: TxId, t: Tx): State { s.(txs := s.txs[tx := t]) }

  function End(s: State, tx: TxId): State {
    s.(txs := s.txs - {tx}, locks := Unlock(s.locks, tx))
  }

  /** Nothing a transaction wrote is visible before this step. */
  function Committed(s: State, t: Tx): State
    requires t.Recorded? && t.coupon in s.coupons
  {
    var row := s.coupons[t.coupon];
    s.(coupons := s.coupons[t.coupon := row.(used := row.used + 1)],
       redemptions := s.redemptions + [Redemption(t.coupon, t.user, t.at)],
       grants := s.grants + [Grant(t.coupon, t.user, t.effect)])
  }

  function Step(s: State, e: Event): State
    requires Enabled(s, e)
  {
    match e
    case Create(c, row) => s.(coupons := s.coupons[c := row])
    case Revoke(c) => s.(coupons := s.coupons[c := s.coupons[c].(revokedAt := Some(s.now))])
    case Tick(now) => s.(now := now)
    case Begin(tx, u, code) => Put(s, tx, Begun(u, code))
    case Lock(tx, c) => Put(s, tx, Locked(s.txs[tx].user, c, s.coupons[c])).(locks := s.locks[c := tx])
    case Check(tx) => var t := s.txs[tx]; Put(s, tx, Checked(t.user, t.coupon, t.row))
    case Act(tx, effect) => var t := s.txs[tx]; Put(s, tx, Acted(t.user, t.coupon, t.row, effect, s.now))
    case Count(tx) => var t := s.txs[tx]; Put(s, tx, Counted(t.user, t.coupon, t.row, t.effect, t.at))
    case Record(tx) => var t := s.txs[tx]; Put(s, tx, Recorded(t.user, t.coupon, t.row, t.effect, t.at))
    case Commit(tx) => End(Committed(s, s.txs[tx]), tx)
    case Abort(tx) => End(s, tx)
  }

  const INITIAL := State(map[], [], [], map[], map[], 0)

  function Run(es: seq<Event>): Option<State> {
    if es == [] then Some(INITIAL)
    else
      var r := Run(Init(es));
      if r.Some? && Enabled(r.value, Last(es)) then Some(Step(r.value, Last(es))) else None
  }

  predicate IsRun(es: seq<Event>) { Run(es).Some? }

  function After(es: seq<Event>): State
    requires IsRun(es)
  {
    Run(es).value
  }
}
