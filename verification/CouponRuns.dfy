/**
 What every run of redemption transactions, revocations and creations keeps:
 limits, finality of revocation and expiry, and the invisibility of failures.
 */
module CouponRuns {
  import opened Prelude
  import opened Coupons

  // ---------------------------------------------------------------------
  // The invariant
  // ---------------------------------------------------------------------

  /** How often a coupon has been redeemed. */
  function UsesOf(rs: seq<Redemption>, c: CouponId): nat {
    if rs == [] then 0
    else UsesOf(Init(rs), c) + if Last(rs).coupon == c then 1 else 0
  }

  /** The row's own bookkeeping agrees with the redemption table. */
  ghost predicate RowOk(rs: seq<Redemption>, c: CouponId, row: Coupon) {
    && row.used == UsesOf(rs, c) <= row.maxUses
    && (row.mode == Creator ==> row.holder.Some?)
    && (forall i :: 0 <= i < |rs| && rs[i].coupon == c && row.holder.Some? ==> rs[i].user == row.holder.value)
  }

  /** A transaction past the lock holds it, and the row has not moved since it was read. */
  ghost predicate TxOk(s: State, tx: TxId, t: Tx) {
    t.Begun? ||
    (&& t.coupon in s.locks && s.locks[t.coupon] == tx
     && t.coupon in s.coupons && s.coupons[t.coupon] == t.row
     && (t.Locked? ||
         (&& t.row.revokedAt == None && t.row.used < t.row.maxUses
          && (t.row.holder.Some? ==> t.row.holder == Some(t.user))
          && !Redeemed(s.redemptions, t.coupon, t.user))))
  }

  ghost predicate LockOk(s: State, c: CouponId, tx: TxId) {
    tx in s.txs && !s.txs[tx].Begun? && s.txs[tx].coupon == c
  }

  predicate OncePerUser(rs: seq<Redemption>) {
    forall i, j :: 0 <= i < j < |rs| ==> rs[i].coupon != rs[j].coupon || rs[i].user != rs[j].user
  }

  /** Each grant was made by the redemption in the same position, and by nothing else. */
  predicate GrantsMatch(rs: seq<Redemption>, gs: seq<Grant>) {
    |gs| == |rs| && forall i :: 0 <= i < |rs| ==> gs[i].coupon == rs[i].coupon && gs[i].user == rs[i].user
  }

  ghost predicate Inv(s: State) {
    && (forall c :: c in s.coupons ==> RowOk(s.redemptions, c, s.coupons[c]))
    && (forall i :: 0 <= i < |s.redemptions| ==> s.redemptions[i].coupon in s.coupons)
    && (forall tx :: tx in s.txs ==> TxOk(s, tx, s.txs[tx]))
    && (forall c :: c in s.locks ==> LockOk(s, c, s.locks[c]))
    && OncePerUser(s.redemptions)
    && GrantsMatch(s.redemptions, s.grants)
  }

  lemma {:induction false} UnknownCouponUnused(rs: seq<Redemption>, c: CouponId)
    requires forall i :: 0 <= i < |rs| ==> rs[i].coupon != c
    ensures UsesOf(rs, c) == 0
  {
    if rs != [] {
      UnknownCouponUnused(Init(rs), c);
    }
  }

  /** One more redemption leaves every row's bookkeeping right, if its coupon counts it. */
  lemma RowAppend(rs: seq<Redemption>, r: Redemption, c: CouponId, row: Coupon)
    requires RowOk(rs, c, row)
    requires r.coupon == c ==> row.used < row.maxUses && (row.holder.Some? ==> row.holder == Some(r.user))
    ensures RowOk(rs + [r], c, if r.coupon == c then row.(used := row.used + 1) else row)
  {
    assert Init(rs + [r]) == rs;
  }

  lemma CommittedRow(s: State, tx: TxId, c: CouponId)
    requires Inv(s) && Enabled(s, Commit(tx)) && c in s.coupons
    ensures var s' := Step(s, Commit(tx)); RowOk(s'.redemptions, c, s'.coupons[c])
  {
    var t := s.txs[tx];
    assert RowOk(s.redemptions, c, s.coupons[c]) && TxOk(s, tx, t);
    RowAppend(s.redemptions, Redemption(t.coupon, t.user, t.at), c, s.coupons[c]);
  }

  lemma RowsStep(s: State, e: Event)
    requires Inv(s) && Enabled(s, e)
    ensures var s' := Step(s, e); forall c :: c in s'.coupons ==> RowOk(s'.redemptions, c, s'.coupons[c])
  {
    var s' := Step(s, e);
    forall c | c in s'.coupons ensures RowOk(s'.redemptions, c, s'.coupons[c]) {
      if c in s.coupons {
        assert RowOk(s.redemptions, c, s.coupons[c]);
        if e.Commit? {
          CommittedRow(s, e.tx, c);
        }
      } else {
        UnknownCouponUnused(s.redemptions, c);
      }
    }
  }

  /** Committing touches only the coupon whose lock the transaction holds. */
  lemma TxsStep(s: State, e: Event)
    requires Inv(s) && Enabled(s, e)
    ensures var s' := Step(s, e); forall tx :: tx in s'.txs ==> TxOk(s', tx, s'.txs[tx])
  {
    var s' := Step(s, e);
    forall tx | tx in s'.txs ensures TxOk(s', tx, s'.txs[tx]) {
      if tx in s.txs {
        assert TxOk(s, tx, s.txs[tx]);
        if e.Commit? {
          TxAfterCommit(s, e.tx, tx);
        }
      }
    }
  }

  lemma TxAfterCommit(s: State, done: TxId, tx: TxId)
    requires Inv(s) && Enabled(s, Commit(done)) && tx in s.txs && tx != done
    ensures TxOk(Step(s, Commit(done)), tx, s.txs[tx])
  {
    var s' := Step(s, Commit(done));
    assert TxOk(s, tx, s.txs[tx]) && TxOk(s, done, s.txs[done]);
    if !s.txs[tx].Begun? && !s.txs[tx].Locked? {
      NotRedeemedAppend(s.redemptions, Last(s'.redemptions), s.txs[tx].coupon, s.txs[tx].user);
    }
  }

  lemma NotRedeemedAppend(rs: seq<Redemption>, r: Redemption, c: CouponId, u: UserId)
    requires !Redeemed(rs, c, u) && r.coupon != c
    ensures !Redeemed(rs + [r], c, u)
  {
  }

  lemma LocksStep(s: State, e: Event)
    requires Inv(s) && Enabled(s, e)
    ensures var s' := Step(s, e); forall c :: c in s'.locks ==> LockOk(s', c, s'.locks[c])
  {
    var s' := Step(s, e);
    forall c | c in s'.locks ensures LockOk(s', c, s'.locks[c]) {
      if c in s.locks {
        assert LockOk(s, c, s.locks[c]);
      }
    }
  }

  lemma TablesStep(s: State, e: Event)
    requires Inv(s) && Enabled(s, e)
    ensures var s' := Step(s, e);
            && (forall i :: 0 <= i < |s'.redemptions| ==> s'.redemptions[i].coupon in s'.coupons)
            && OncePerUser(s'.redemptions) && GrantsMatch(s'.redemptions, s'.grants)
  {
    if e.Commit? {
      assert TxOk(s, e.tx, s.txs[e.tx]);
    }
  }

  lemma {:induction false} RunInv(es: seq<Event>)
    requires IsRun(es)
    ensures Inv(After(es))
  {
    if es != [] {
      RunInv(Init(es));
      var s, e := After(Init(es)), Last(es);
      RowsStep(s, e);
      TxsStep(s, e);
      LocksStep(s, e);
      TablesStep(s, e);
    }
  }

  // ---------------------------------------------------------------------
  // Promises over whole runs
  // ---------------------------------------------------------------------

  /**
   Under any interleaving: the use count is the number of redemption rows and
   never exceeds the limit, no user redeems a coupon twice, a coupon with a
   holder is redeemed by its holder only, and each redemption granted once.
   */
  lemma RedemptionLimits(es: seq<Event>, c: CouponId)
    requires IsRun(es) && c in After(es).coupons
    ensures var s := After(es);
            && s.coupons[c].used == UsesOf(s.redemptions, c) <= s.coupons[c].maxUses
            && OncePerUser(s.redemptions)
            && GrantsMatch(s.redemptions, s.grants)
            && (forall i :: 0 <= i < |s.redemptions| && s.redemptions[i].coupon == c && s.coupons[c].holder.Some?
                  ==> s.redemptions[i].user == s.coupons[c].holder.value)
  {
    RunInv(es);
    assert RowOk(After(es).redemptions, c, After(es).coupons[c]);
  }

  /** One more event: what it can and cannot do to a coupon. */
  lemma RowMoves(s: State, e: Event, c: CouponId)
    requires Inv(s) && Enabled(s, e) && c in s.coupons
    ensures var s' := Step(s, e);
            && c in s'.coupons
            && s'.coupons[c] == s.coupons[c].(used := s'.coupons[c].used, revokedAt := s'.coupons[c].revokedAt)
            && s.coupons[c].used <= s'.coupons[c].used
            && (s.coupons[c].revokedAt.Some? ==>
                  s'.coupons[c] == s.coupons[c] && UsesOf(s'.redemptions, c) == UsesOf(s.redemptions, c))
  {
    var s' := Step(s, e);
    if e.Commit? {
      assert TxOk(s, e.tx, s.txs[e.tx]);
      assert Init(s'.redemptions) == s.redemptions;
    }
  }

  lemma RunSplit(es: seq<Event>, more: seq<Event>)
    requires IsRun(es + more) && more != []
    ensures Init(es + more) == es + Init(more) && IsRun(es + Init(more))
    ensures Enabled(After(es + Init(more)), Last(more))
    ensures After(es + more) == Step(After(es + Init(more)), Last(more))
  {
    assert Init(es + more) == es + Init(more);
  }

  /** Nothing is redeemed once a revocation has been committed, however the run goes on. */
  lemma {:induction false} NothingAfterRevoke(es: seq<Event>, more: seq<Event>, c: CouponId)
    requires IsRun(es) && IsRun(es + more)
    requires c in After(es).coupons && After(es).coupons[c].revokedAt.Some?
    ensures c in After(es + more).coupons && After(es + more).coupons[c] == After(es).coupons[c]
    ensures UsesOf(After(es + more).redemptions, c) == UsesOf(After(es).redemptions, c)
    decreases |more|
  {
    if more == [] {
      assert es + more == es;
    } else {
      RunSplit(es, more);
      NothingAfterRevoke(es, Init(more), c);
      RunInv(es + Init(more));
      RowMoves(After(es + Init(more)), Last(more), c);
    }
  }

  /** What never changes about a coupon, and what only grows. */
  predicate Onward(row: Coupon, later: Coupon) {
    && later == row.(used := later.used, revokedAt := later.revokedAt)
    && row.used <= later.used && (row.revokedAt.Some? ==> later == row)
  }

  lemma {:induction false} RowOnward(es: seq<Event>, more: seq<Event>, c: CouponId)
    requires IsRun(es) && IsRun(es + more) && c in After(es).coupons
    ensures c in After(es + more).coupons && Onward(After(es).coupons[c], After(es + more).coupons[c])
    decreases |more|
  {
    if more == [] {
      assert es + more == es;
    } else {
      RunSplit(es, more);
      RowOnward(es, Init(more), c);
      RunInv(es + Init(more));
      RowMoves(After(es + Init(more)), Last(more), c);
    }
  }

  /**
   A coupon that is no longer active is never again active at a clock reading that
   is not earlier. A revoked or used up coupon is not active at any clock reading.
   */
  lemma InactiveForever(es: seq<Event>, more: seq<Event>, c: CouponId)
    requires IsRun(es) && IsRun(es + more)
    requires c in After(es).coupons && StatusOf(After(es).coupons[c], After(es).now) != IsActive
    ensures c in After(es + more).coupons
    ensures var row, later := After(es).coupons[c], After(es + more).coupons[c];
            After(es).now <= After(es + more).now || row.revokedAt.Some? || row.used >= row.maxUses ==>
              StatusOf(later, After(es + more).now) != IsActive
  {
    RowOnward(es, more, c);
  }

  // ---------------------------------------------------------------------
  // A transaction that does not commit leaves no trace
  // ---------------------------------------------------------------------

  predicate OfTx(e: Event, tx: TxId) {
    !e.Create? && !e.Revoke? && !e.Tick? && e.tx == tx
  }

  /** The run without the events of one transaction. */
  function Without(es: seq<Event>, tx: TxId): seq<Event> {
    if es == [] then []
    else if OfTx(Last(es), tx) then Without(Init(es), tx)
    else Without(Init(es), tx) + [Last(es)]
  }

  /** The same state, except that the transaction is not there. */
  function Cleared(s: State, tx: TxId): State { End(s, tx) }

  lemma OthersEnabled(s: State, e: Event, tx: TxId)
    requires Enabled(s, e) && !OfTx(e, tx)
    ensures Enabled(Cleared(s, tx), e)
  {
  }

  lemma OthersLocks(s: State, e: Event, tx: TxId)
    requires Enabled(s, e) && Enabled(Cleared(s, tx), e) && !OfTx(e, tx)
    ensures Step(Cleared(s, tx), e).locks == Cleared(Step(s, e), tx).locks
  {
    hide Verdict, Redeemed;
  }

  lemma OthersStep(s: State, e: Event, tx: TxId)
    requires Enabled(s, e) && Enabled(Cleared(s, tx), e) && !OfTx(e, tx)
    ensures Step(Cleared(s, tx), e) == Cleared(Step(s, e), tx)
  {
    hide Verdict, Redeemed, Unlock;
    OthersLocks(s, e, tx);
    assert Step(Cleared(s, tx), e).txs == Cleared(Step(s, e), tx).txs;
  }

  lemma OwnStep(s: State, e: Event, tx: TxId)
    requires Enabled(s, e) && OfTx(e, tx) && !e.Commit?
    ensures Cleared(Step(s, e), tx) == Cleared(s, tx)
  {
    var a, b := Cleared(Step(s, e), tx), Cleared(s, tx);
    assert a.locks == b.locks;
    assert a.txs == b.txs;
  }

  /**
   Removing a transaction that never commits from any run leaves a run that ends
   with the same coupons, redemptions and grants, and with all other transactions
   where they were: they could only have waited less.
   */
  lemma {:induction false} FailureLeavesNoTrace(es: seq<Event>, tx: TxId)
    requires IsRun(es)
    requires forall i :: 0 <= i < |es| ==> es[i] != Commit(tx)
    ensures IsRun(Without(es, tx))
    ensures After(Without(es, tx)) == Cleared(After(es), tx)
  {
    if es == [] {
      assert Cleared(INITIAL, tx) == INITIAL;
    } else {
      FailureLeavesNoTrace(Init(es), tx);
      var s, e := After(Init(es)), Last(es);
      if OfTx(e, tx) {
        OwnStep(s, e, tx);
      } else {
        OthersEnabled(s, e, tx);
        OthersStep(s, e, tx);
        assert Init(Without(es, tx)) == Without(Init(es), tx);
      }
    }
  }
}
