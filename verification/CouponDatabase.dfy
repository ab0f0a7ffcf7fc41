/**
 The coupon tables as one request handler sees them when nobody else is active.
 */
module CouponDatabase {
  import opened Prelude
  import opened Coupons

  datatype Result = Success(at: Time) | Refused(why: Refusal)

  /** The expiry is not in the future. */
  predicate Past(row: Coupon, now: Time) { row.expiresAt.Some? && !(now < row.expiresAt.value) }

  /** The row itself does not stand in the user's way. */
  predicate Redeemable(row: Coupon, u: UserId, now: Time) {
    && row.revokedAt == None && (row.expiresAt.Some? ==> now < row.expiresAt.value) && row.used < row.maxUses
    && (row.holder.Some? ==> row.holder.value == u) && (row.mode == Creator ==> row.holder.Some?)
  }

  /** The tables as one request handler sees them when nobody else is active. */
  class Database {
    var coupons: map<CouponId, Coupon>
    var redemptions: seq<Redemption>
    var grants: seq<Grant>
    var byCode: map<string, CouponId>

    ghost predicate Valid()
      reads this
    {
      && (forall code :: code in byCode ==> byCode[code] in coupons && coupons[byCode[code]].code == code)
      && (forall c :: c in coupons ==> coupons[c].code in byCode && byCode[coupons[c].code] == c)
    }

    ghost function View(now: Time): State
      reads this
    {
      State(coupons, redemptions, grants, map[], map[], now)
    }

    constructor ()
      ensures Valid() && View(0) == INITIAL
    {
      coupons, redemptions, grants, byCode := map[], [], [], map[];
    }

    /**
     Redeem a code; `effect` is what its action would do, or nothing if the
     action fails. A refusal changes nothing and names the first check that
     fails; a success counts the use and records it with its effect.
     */
    method Redeem(u: UserId, code: string, now: Time, effect: Option<string>) returns (result: Result)
      requires Valid()
      modifies this
      ensures Valid() && byCode == old(byCode)
      ensures result == Refused(NotFound) <==> code !in byCode
      ensures code in byCode ==>
        var row := old(coupons)[byCode[code]];
        && (result == Refused(Revoked) <==> row.revokedAt.Some?)
        && (result == Refused(Expired) <==> !row.revokedAt.Some? && Past(row, now))
        && (result == Refused(LimitReached) <==> !row.revokedAt.Some? && !Past(row, now) && row.maxUses <= row.used)
        && (result == Refused(NotHolder) <==>
              && !row.revokedAt.Some? && !Past(row, now) && row.used < row.maxUses
              && ((row.holder.Some? && row.holder.value != u) || (row.holder.None? && row.mode == Creator)))
        && (result == Refused(AlreadyUsed) <==>
              && Redeemable(row, u, now)
              && exists i :: 0 <= i < |old(redemptions)|
                   && old(redemptions)[i].coupon == byCode[code] && old(redemptions)[i].user == u)
        && (result == Refused(ActionFailed) <==>
              && Redeemable(row, u, now) && effect.None?
              && !exists i :: 0 <= i < |old(redemptions)|
                   && old(redemptions)[i].coupon == byCode[code] && old(redemptions)[i].user == u)
      ensures result.Refused? ==> coupons == old(coupons) && redemptions == old(redemptions) && grants == old(grants)
      ensures result.Success? ==>
        && result.at == now && effect.Some?
        && var c := byCode[code]; var row := old(coupons)[c];
        && Redeemable(row, u, now)
        && coupons == old(coupons)[c := row.(used := row.used + 1)]
        && redemptions == old(redemptions) + [Redemption(c, u, now)]
        && grants == old(grants) + [Grant(c, u, effect.value)]
    {
      if code !in byCode { return Refused(NotFound); }
      var c := byCode[code];
      var row := coupons[c];
      if row.revokedAt.Some? { return Refused(Revoked); }
      if row.expiresAt.Some? && row.expiresAt.value <= now { return Refused(Expired); }
      if row.used >= row.maxUses { return Refused(LimitReached); }
      if row.holder.Some? && row.holder != Some(u) { return Refused(NotHolder); }
      if row.mode == Creator && row.holder != Some(u) { return Refused(NotHolder); }
      var prior := Redeemed(redemptions, c, u);
      if prior { return Refused(AlreadyUsed); }
      if effect.None? { return Refused(ActionFailed); }
      coupons := coupons[c := row.(used := row.used + 1)];
      redemptions := redemptions + [Redemption(c, u, now)];
      grants := grants + [Grant(c, u, effect.value)];
      return Success(now);
    }

    /** The conditional update: an unknown or already revoked coupon is reported as not found. */
    method RevokeCoupon(c: CouponId, now: Time) returns (done: bool)
      requires Valid()
      modifies this`coupons
      ensures Valid()
      ensures done <==> c in old(coupons) && old(coupons)[c].revokedAt == None
      ensures coupons == if done then old(coupons)[c := old(coupons)[c].(revokedAt := Some(now))] else old(coupons)
    {
      done := c in coupons && coupons[c].revokedAt.None?;
      if done {
        coupons := coupons[c := coupons[c].(revokedAt := Some(now))];
      }
    }
  }

  /** A success leaves the tables as the committed transaction does. */
  lemma SuccessIsTheCommit(s: State, u: UserId, c: CouponId, effect: string)
    requires c in s.coupons
    ensures var s' := Committed(s, Recorded(u, c, s.coupons[c], effect, s.now));
            && s'.coupons == s.coupons[c := s.coupons[c].(used := s.coupons[c].used + 1)]
            && s'.redemptions == s.redemptions + [Redemption(c, u, s.now)]
            && s'.grants == s.grants + [Grant(c, u, effect)]
  {
  }

  /** A refusal of the transaction's checks is the one that the handler reports. */
  lemma VerdictMeans(row: Coupon, u: UserId, now: Time, prior: bool)
    ensures Verdict(row, u, now, prior) == None <==> Redeemable(row, u, now) && !prior
    ensures Verdict(row, u, now, prior) == Some(Revoked) <==> row.revokedAt.Some?
    ensures Verdict(row, u, now, prior) == Some(Expired) <==> row.revokedAt == None && Past(row, now)
    ensures Verdict(row, u, now, prior) == Some(LimitReached)
       <==> row.revokedAt == None && !Past(row, now) && row.maxUses <= row.used
    ensures Verdict(row, u, now, prior) == Some(AlreadyUsed) <==> Redeemable(row, u, now) && prior
  {
  }

  /**
   The status shown in the coupon list: active exactly when the row's own state
   refuses nobody, so that a redemption can only fail for who asks or what it does.
   */
  lemma ShownActiveIff(row: Coupon, now: Time)
    ensures StatusOf(row, now) == IsActive
       <==> row.revokedAt == None && (row.expiresAt.Some? ==> now < row.expiresAt.value) && row.used < row.maxUses
    ensures StatusOf(row, now) == IsActive
       <==> forall u, prior :: Verdict(row, u, now, prior) in {None, Some(NotHolder), Some(AlreadyUsed)}
    ensures StatusOf(row, now) == IsRevoked <==> row.revokedAt.Some?
    ensures StatusOf(row, now) == IsExpired <==> row.revokedAt == None && Past(row, now)
  {
    if StatusOf(row, now) != IsActive {
      assert Verdict(row, 0, now, false) !in {None, Some(NotHolder), Some(AlreadyUsed)};
    }
  }
}
