/**
 Redemptions are serialisable: the tables after any interleaving are those of the
 committed changes applied one at a time, each redemption passing its checks when
 its turn comes.
 */
module CouponSerial {
  import opened Prelude
  import opened Coupons
  import opened CouponRuns

  // ---------------------------------------------------------------------
  // One change at a time
  // ---------------------------------------------------------------------

  /** A committed change. A redemption's expiry was read at `checked`, and it happened at `at`. */
  datatype Change =
    | Creation(coupon: CouponId, row: Coupon)
    | Revocation(coupon: CouponId, at: Time)
    | Use(coupon: CouponId, user: UserId, effect: string, checked: Time, at: Time)

  datatype Tables = Tables(coupons: map<CouponId, Coupon>, redemptions: seq<Redemption>, grants: seq<Grant>)

  /** The change is allowed on these tables: for a redemption, none of its checks refuses. */
  predicate Allowed(t: Tables, ch: Change) {
    match ch
    case Creation(c, _) => c !in t.coupons
    case Revocation(c, _) => c in t.coupons && t.coupons[c].revokedAt == None
    case Use(c, u, _, checked, _) =>
      c in t.coupons && Verdict(t.coupons[c], u, checked, Redeemed(t.redemptions, c, u)) == None
  }

  function Apply(t: Tables, ch: Change): Tables
    requires Allowed(t, ch)
  {
    match ch
    case Creation(c, row) => t.(coupons := t.coupons[c := row])
    case Revocation(c, at) => t.(coupons := t.coupons[c := t.coupons[c].(revokedAt := Some(at))])
    case Use(c, u, effect, _, at) =>
      Tables(t.coupons[c := t.coupons[c].(used := t.coupons[c].used + 1)],
             t.redemptions + [Redemption(c, u, at)],
             t.grants + [Grant(c, u, effect)])
  }

  /** The tables after all changes in their order, if each was allowed when it was applied. */
  function Serial(chs: seq<Change>): Option<Tables> {
    if chs == [] then Some(Tables(map[], [], []))
    else
      var t := Serial(Init(chs));
      if t.Some? && Allowed(t.value, Last(chs)) then Some(Apply(t.value, Last(chs))) else None
  }

  // ---------------------------------------------------------------------
  // The changes of a run
  // ---------------------------------------------------------------------

  /** What the clock read when the transaction last checked its row. */
  function CheckedAt(es: seq<Event>, tx: TxId): Time
    requires IsRun(es)
  {
    if es == [] then 0
    else if Last(es) == Check(tx) then After(Init(es)).now
    else CheckedAt(Init(es), tx)
  }

  /** The changes that the run has committed, in the order of their commits. */
  function History(es: seq<Event>): seq<Change>
    requires IsRun(es)
  {
    if es == [] then []
    else History(Init(es)) + ChangeOf(Init(es), Last(es))
  }

  function ChangeOf(es: seq<Event>, e: Event): seq<Change>
    requires IsRun(es) && Enabled(After(es), e)
  {
    match e
    case Create(c, row) => [Creation(c, row)]
    case Revoke(c) => [Revocation(c, After(es).now)]
    case Commit(tx) =>
      var t := After(es).txs[tx];
      [Use(t.coupon, t.user, t.effect, CheckedAt(es, tx), t.at)]
    case _ => []
  }

  /** A transaction past its checks: they still refuse nothing on the row that it read. */
  ghost predicate ChecksHold(es: seq<Event>, t: Tx, tx: TxId)
    requires IsRun(es)
  {
    t.Begun? || t.Locked? || Verdict(t.row, t.user, CheckedAt(es, tx), false) == None
  }

  ghost predicate AllChecksHold(es: seq<Event>)
    requires IsRun(es)
  {
    forall tx :: tx in After(es).txs ==> ChecksHold(es, After(es).txs[tx], tx)
  }

  lemma {:induction false} ChecksKept(es: seq<Event>, tx: TxId)
    requires es != [] && IsRun(es) && tx in After(Init(es)).txs && tx in After(es).txs
    requires ChecksHold(Init(es), After(Init(es)).txs[tx], tx)
    ensures ChecksHold(es, After(es).txs[tx], tx)
  {
    hide Redeemed;
    var e := Last(es);
    assert e != Check(tx) ==> CheckedAt(es, tx) == CheckedAt(Init(es), tx);
  }

  lemma {:induction false} RunChecksHold(es: seq<Event>)
    requires IsRun(es)
    ensures AllChecksHold(es)
  {
    hide ChecksHold, CheckedAt, Verdict;
    if es != [] {
      RunChecksHold(Init(es));
      forall tx | tx in After(es).txs ensures ChecksHold(es, After(es).txs[tx], tx) {
        if tx in After(Init(es)).txs {
          ChecksKept(es, tx);
        } else {
          ChecksHoldAtFirst(es, After(es).txs[tx], tx);
        }
      }
    }
  }

  lemma ChecksHoldAtFirst(es: seq<Event>, t: Tx, tx: TxId)
    requires IsRun(es) && t.Begun?
    ensures ChecksHold(es, t, tx)
  {
  }

  function TablesOf(s: State): Tables { Tables(s.coupons, s.redemptions, s.grants) }

  /** A commit is allowed at that moment: the lock has kept the row, and nobody has redeemed for the user. */
  lemma CommitIsAllowed(es: seq<Event>, tx: TxId)
    requires IsRun(es) && Enabled(After(es), Commit(tx))
    ensures var t := After(es).txs[tx];
            Allowed(TablesOf(After(es)), Use(t.coupon, t.user, t.effect, CheckedAt(es, tx), t.at))
  {
    RunInv(es);
    RunChecksHold(es);
    assert TxOk(After(es), tx, After(es).txs[tx]) && ChecksHold(es, After(es).txs[tx], tx);
  }

  lemma SerialExtends(chs: seq<Change>, ch: Change, t: Tables)
    requires Serial(chs) == Some(t) && Allowed(t, ch)
    ensures Serial(chs + [ch]) == Some(Apply(t, ch))
  {
    assert Init(chs + [ch]) == chs;
  }

  /** An event's change is allowed at that moment and does to the tables what the event does. */
  lemma ChangeStep(es: seq<Event>, e: Event)
    requires IsRun(es) && Enabled(After(es), e)
    ensures ChangeOf(es, e) == [] ==> TablesOf(Step(After(es), e)) == TablesOf(After(es))
    ensures ChangeOf(es, e) != [] ==>
              && |ChangeOf(es, e)| == 1 && Allowed(TablesOf(After(es)), ChangeOf(es, e)[0])
              && Apply(TablesOf(After(es)), ChangeOf(es, e)[0]) == TablesOf(Step(After(es), e))
  {
    if e.Commit? {
      CommitIsAllowed(es, e.tx);
    }
  }

  /**
   The tables after any run are those of its committed changes applied one at a time
   in the order of their commits, each redemption passing all of its checks when it
   is applied, with the expiry read when it was checked.
   */
  lemma {:induction false} RunIsSerial(es: seq<Event>)
    requires IsRun(es)
    ensures Serial(History(es)) == Some(TablesOf(After(es)))
  {
    hide Serial, Allowed, Apply, ChangeOf, Verdict, TablesOf, Step, Enabled;
    if es == [] {
      NothingYet();
    } else {
      var before, e := Init(es), Last(es);
      RunIsSerial(before);
      ChangeStep(before, e);
      var ch := ChangeOf(before, e);
      if ch == [] {
        assert History(es) == History(before);
      } else {
        assert ch == [ch[0]];
        SerialExtends(History(before), ch[0], TablesOf(After(before)));
      }
    }
  }

  lemma NothingYet()
    ensures Serial([]) == Some(TablesOf(INITIAL))
  {
  }

  /** The serial run of the first `k` committed changes. */
  lemma {:induction false} SerialPrefix(chs: seq<Change>, k: nat)
    requires Serial(chs).Some? && k <= |chs|
    ensures Serial(chs[..k]).Some?
    ensures k < |chs| ==> Allowed(Serial(chs[..k]).value, chs[k])
    decreases |chs|
  {
    if k == |chs| {
      assert chs[..k] == chs;
    } else if k == |chs| - 1 {
      assert chs[..k] == Init(chs);
    } else {
      SerialPrefix(Init(chs), k);
      assert Init(chs)[..k] == chs[..k];
    }
  }

  /**
   What a committed use of a coupon met when its turn came: a row that was not
   revoked and not used up, unexpired at the clock reading of its check, held by
   nobody else, and no earlier use by that user.
   */
  lemma UsesAreAllowed(es: seq<Event>, k: nat)
    requires IsRun(es) && k < |History(es)| && History(es)[k].Use?
    ensures Serial(History(es)[..k]).Some?
    ensures var t, use := Serial(History(es)[..k]).value, History(es)[k];
            && use.coupon in t.coupons
            && var row := t.coupons[use.coupon];
            && row.revokedAt == None && row.used < row.maxUses
            && (row.expiresAt.Some? ==> use.checked < row.expiresAt.value)
            && (row.holder.Some? ==> row.holder.value == use.user) && (row.mode == Creator ==> row.holder.Some?)
            && forall i :: 0 <= i < |t.redemptions| ==>
                 t.redemptions[i].coupon != use.coupon || t.redemptions[i].user != use.user
  {
    RunIsSerial(es);
    SerialPrefix(History(es), k);
  }

  /** What a transaction holds was read and decided by its own events, in this order. */
  lemma {:induction false} CheckedBefore(es: seq<Event>, tx: TxId) returns (i: nat)
    requires IsRun(es) && tx in After(es).txs && !After(es).txs[tx].Begun? && !After(es).txs[tx].Locked?
    ensures i < |es| && es[i] == Check(tx) && IsRun(es[..i]) && CheckedAt(es, tx) == After(es[..i]).now
    ensures tx in After(es[..i]).txs && After(es[..i]).txs[tx].Locked?
    ensures After(es[..i]).txs[tx].row == After(es).txs[tx].row
    ensures After(es[..i]).txs[tx].coupon == After(es).txs[tx].coupon
    decreases |es|
  {
    var before := Init(es);
    if Last(es) == Check(tx) {
      i := |es| - 1;
      assert es[..i] == before;
    } else {
      i := CheckedBefore(before, tx);
      assert before[..i] == es[..i];
    }
  }

  /** A committed use was checked before the coupon's expiry, by the clock of its check. */
  lemma CommittedBeforeExpiry(es: seq<Event>, tx: TxId) returns (i: nat)
    requires IsRun(es) && Enabled(After(es), Commit(tx))
    ensures i < |es| && es[i] == Check(tx) && IsRun(es[..i])
    ensures var row := After(es).coupons[After(es).txs[tx].coupon];
            row.expiresAt.Some? ==> After(es[..i]).now < row.expiresAt.value
  {
    i := CheckedBefore(es, tx);
    CommitIsAllowed(es, tx);
  }
}
