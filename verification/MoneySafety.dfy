/**
 * Conservation of money over everything the engine credited without a human, for every group of companies: one
 * company, or all of them.
 */
module MoneySafety {
  import opened Prelude
  import opened MatchTypes
  import opened Tables
  import opened Invariants
  import opened Steps

  /** Verifications made by the exact or the heuristic pass for these companies. */
  ghost function Auto(db: Db, of: iset<nat>): set<nat> {
    set k | k in db.verifs && !db.verifs[k].verifiedBy.ManualAdmin? && db.verifs[k].company in of
  }

  /** Expected amount of each order credited automatically, keyed by order. */
  ghost function ExpectedByOrder(db: Db, of: iset<nat>): map<nat, int>
    requires VerificationsSound(db)
  {
    map i | i in OrdersOf(db, of) :: db.orders[i].expected
  }

  /** Tolerance of each order credited automatically, keyed by order. */
  ghost function ToleranceByOrder(db: Db, of: iset<nat>): map<nat, int>
    requires VerificationsSound(db)
  {
    map i | i in OrdersOf(db, of) :: db.orders[i].tolerance
  }

  /** Amount of each distinct SMS spent on those orders, keyed by SMS. */
  ghost function AmountBySms(db: Db, of: iset<nat>): map<nat, int>
    requires VerificationsSound(db)
  {
    map s | s in SmsOf(db, of) :: Received(db.sms[s].amount)
  }

  /** Recorded delta of each automatic verification. */
  ghost function DeltaByVerification(db: Db, of: iset<nat>): map<nat, int> {
    map k | k in Auto(db, of) :: db.verifs[k].delta
  }

  ghost function OrdersOf(db: Db, of: iset<nat>): (r: set<nat>)
    requires VerificationsSound(db)
    ensures forall i :: i in r ==> i < |db.orders| && db.orders[i].company in of
  {
    set k | k in Auto(db, of) :: db.verifs[k].order
  }

  ghost function SmsOf(db: Db, of: iset<nat>): (r: set<nat>)
    requires VerificationsSound(db)
    ensures forall s :: s in r ==> s < |db.sms| && db.sms[s].company in of
  {
    set k | k in Auto(db, of) :: db.verifs[k].sms
  }

  // The same amounts keyed by verification.

  ghost function Expected(db: Db, of: iset<nat>): map<nat, int>
    requires VerificationsSound(db)
  {
    map k | k in Auto(db, of) :: db.orders[db.verifs[k].order].expected
  }

  ghost function Tolerance(db: Db, of: iset<nat>): map<nat, int>
    requires VerificationsSound(db)
  {
    map k | k in Auto(db, of) :: db.orders[db.verifs[k].order].tolerance
  }

  ghost function Amount(db: Db, of: iset<nat>): map<nat, int>
    requires VerificationsSound(db)
  {
    map k | k in Auto(db, of) :: Received(db.sms[db.verifs[k].sms].amount)
  }

  /** The order, and the SMS, of each of these verifications. */
  ghost function OrderNames(db: Db, of: iset<nat>): map<nat, nat> {
    map k | k in Auto(db, of) :: db.verifs[k].order
  }

  ghost function SmsNames(db: Db, of: iset<nat>): map<nat, nat> {
    map k | k in Auto(db, of) :: db.verifs[k].sms
  }

  /** A renaming of one key set into another, one to one and onto. */
  ghost predicate Renames(rename: map<nat, nat>, from: set<nat>, to: set<nat>) {
    && rename.Keys == from
    && (forall k :: k in rename ==> rename[k] in to)
    && (forall j, k :: j in rename && k in rename && j != k ==> rename[j] != rename[k])
    && (forall z :: z in to ==> exists k :: k in rename && rename[k] == z)
  }

  /** One verification per order and per SMS: keying by them loses nothing and counts nothing twice. */
  lemma NamesRename(db: Db, of: iset<nat>)
    requires VerificationsSound(db) && OncePerRow(db)
    ensures Renames(OrderNames(db, of), Auto(db, of), OrdersOf(db, of))
    ensures Renames(SmsNames(db, of), Auto(db, of), SmsOf(db, of))
  {
    hide VerificationsSound;
    var orders, sms := OrderNames(db, of), SmsNames(db, of);
    forall i | i in OrdersOf(db, of) ensures exists k :: k in orders && orders[k] == i {
      var k :| k in Auto(db, of) && db.verifs[k].order == i;
      assert orders[k] == i;
    }
    forall s | s in SmsOf(db, of) ensures exists k :: k in sms && sms[k] == s {
      var k :| k in Auto(db, of) && db.verifs[k].sms == s;
      assert sms[k] == s;
    }
  }

  lemma RekeyByOrder(db: Db, of: iset<nat>)
    requires VerificationsSound(db) && OncePerRow(db)
    ensures SumMap(Expected(db, of)) == SumMap(ExpectedByOrder(db, of))
    ensures SumMap(Tolerance(db, of)) == SumMap(ToleranceByOrder(db, of))
  {
    hide VerificationsSound, OncePerRow, Auto, OrdersOf;
    NamesRename(db, of);
    SumRekey(Expected(db, of), ExpectedByOrder(db, of), OrderNames(db, of));
    SumRekey(Tolerance(db, of), ToleranceByOrder(db, of), OrderNames(db, of));
  }

  lemma RekeyBySms(db: Db, of: iset<nat>)
    requires VerificationsSound(db) && OncePerRow(db)
    ensures SumMap(Amount(db, of)) == SumMap(AmountBySms(db, of))
  {
    hide VerificationsSound, OncePerRow, Auto, SmsOf;
    NamesRename(db, of);
    SumRekey(Amount(db, of), AmountBySms(db, of), SmsNames(db, of));
  }

  /** Received money is exactly expected money plus the recorded deltas. */
  lemma DeltasConserveMoney(db: Db, of: iset<nat>)
    requires VerificationsSound(db) && OncePerRow(db)
    ensures SumMap(AmountBySms(db, of)) == SumMap(ExpectedByOrder(db, of)) + SumMap(DeltaByVerification(db, of))
  {
    RekeyByOrder(db, of);
    RekeyBySms(db, of);
    SumAdd(Expected(db, of), DeltaByVerification(db, of), Amount(db, of));
  }

  ghost function Covered(db: Db, of: iset<nat>): map<nat, int>
    requires VerificationsSound(db)
  {
    map k | k in Auto(db, of) :: Amount(db, of)[k] + Tolerance(db, of)[k]
  }

  lemma EachIsCovered(db: Db, of: iset<nat>, k: nat)
    requires VerificationsSound(db) && k in Auto(db, of)
    ensures Expected(db, of)[k] <= Covered(db, of)[k]
  {
  }

  /**
   * Money safety: the orders credited automatically are never worth more than the distinct SMS spent
   * on them plus the tolerances the merchant granted.
   */
  lemma CreditedIsCovered(db: Db, of: iset<nat>)
    requires VerificationsSound(db) && OncePerRow(db)
    ensures SumMap(ExpectedByOrder(db, of)) <= SumMap(AmountBySms(db, of)) + SumMap(ToleranceByOrder(db, of))
  {
    RekeyByOrder(db, of);
    RekeyBySms(db, of);
    assert SumMap(Covered(db, of)) == SumMap(Amount(db, of)) + SumMap(Tolerance(db, of)) by {
      SumAdd(Amount(db, of), Tolerance(db, of), Covered(db, of));
    }
    assert SumMap(Expected(db, of)) <= SumMap(Covered(db, of)) by {
      hide VerificationsSound, OncePerRow;
      forall k | k in Auto(db, of) ensures Expected(db, of)[k] <= Covered(db, of)[k] {
        EachIsCovered(db, of, k);
      }
      SumMonotone(Expected(db, of), Covered(db, of));
    }
  }

  /** Both, in every reachable state and for every group of companies. */
  lemma RunsConserveMoney(db: Db, of: iset<nat>)
    requires Reachable(db)
    ensures VerificationsSound(db)
    ensures SumMap(AmountBySms(db, of)) == SumMap(ExpectedByOrder(db, of)) + SumMap(DeltaByVerification(db, of))
    ensures SumMap(ExpectedByOrder(db, of)) <= SumMap(AmountBySms(db, of)) + SumMap(ToleranceByOrder(db, of))
  {
    ReachableSafe(db);
    DeltasConserveMoney(db, of);
    CreditedIsCovered(db, of);
  }
}
