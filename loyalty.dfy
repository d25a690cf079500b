/** The loyalty ledger of src/hooks/useLoyalty.ts: the award gate, the tier
    rule, the two lookups, and the read-modify-write of a user's
    loyalty_points row together with the loyalty_transactions ledger. */
module Loyalty {
  import opened Wrappers
  import opened Seqs

  datatype Tier = Bronze | Silver | Gold

  function TierName(t: Tier): string {
    match t
    case Bronze => "bronze"
    case Silver => "silver"
    case Gold => "gold"
  }

  /** The tier of a lifetime total, as written on insert and on update. */
  function TierFor(lifetime: int): (t: Tier)
    ensures t == Gold <==> 1000 <= lifetime
    ensures t == Silver <==> 500 <= lifetime < 1000
    ensures t == Bronze <==> lifetime < 500
  {
    if lifetime >= 1000 then Gold else if lifetime >= 500 then Silver else Bronze
  }

  function TierRank(t: Tier): nat {
    match t
    case Bronze => 0
    case Silver => 1
    case Gold => 2
  }

  /** A larger lifetime total never gives a lower tier. */
  lemma TierMonotone(a: int, b: int)
    requires a <= b
    ensures TierRank(TierFor(a)) <= TierRank(TierFor(b))
  {
  }

  /** `Math.floor(servicePrice / 10) * 10`: ten points per whole ten dollars. */
  function AwardGate(price: real): (points: int)
    ensures points % 10 == 0
    ensures points as real <= price < points as real + 10.0
    ensures points <= 0 <==> price < 10.0
  {
    (price / 10.0).Floor * 10
  }

  /** A loyalty_points row; the table is keyed by user id. */
  datatype PointsRow = PointsRow(balance: int, lifetime: int, tier: Tier)

  datatype TxKind = Earned | Redeemed

  /** A loyalty_transactions row; the table only ever grows. */
  datatype Transaction = Transaction(
    userId: string, appointmentId: Option<string>, points: int, kind: TxKind, description: string)

  /** Every stored tier agrees with its row's lifetime total. */
  ghost predicate TiersConsistent(rows: map<string, PointsRow>) {
    forall u :: u in rows ==> rows[u].tier == TierFor(rows[u].lifetime)
  }

  /** The row inserted for a user's first award. */
  function NewRow(amount: int): PointsRow {
    PointsRow(amount, amount, TierFor(amount))
  }

  /** The rows after a complete award of `amount` to `user`: a missing row is
      first inserted holding `amount`, and then every award adds `amount` to
      balance and lifetime and recomputes the tier. */
  function AwardedRows(rows: map<string, PointsRow>, user: string, amount: int): (r: map<string, PointsRow>)
    ensures user in r
    ensures user in rows ==> r[user].balance == rows[user].balance + amount
    ensures user in rows ==> r[user].lifetime == rows[user].lifetime + amount
    ensures user !in rows ==> r[user].balance == 2 * amount && r[user].lifetime == 2 * amount
    ensures r[user].tier == TierFor(r[user].lifetime)
    ensures forall u :: u != user ==> (u in r <==> u in rows)
    ensures forall u :: u != user && u in rows ==> r[u] == rows[u]
    ensures TiersConsistent(rows) ==> TiersConsistent(r)
  {
    var row := if user in rows then rows[user] else NewRow(amount);
    rows[user := PointsRow(row.balance + amount, row.lifetime + amount, TierFor(row.lifetime + amount))]
  }

  /** The rows after a redemption: the update sets the balance computed from
      the cached row and matches no row when the user has none. */
  function RedeemedRows(rows: map<string, PointsRow>, user: string, cached: PointsRow, amount: int)
    : (r: map<string, PointsRow>)
    ensures user in rows ==> user in r && r[user] == rows[user].(balance := cached.balance - amount)
    ensures user !in rows ==> r == rows
    ensures forall u :: u != user ==> (u in r <==> u in rows)
    ensures forall u :: u != user && u in rows ==> r[u] == rows[u]
    ensures TiersConsistent(rows) ==> TiersConsistent(r)
  {
    if user in rows then rows[user := rows[user].(balance := cached.balance - amount)] else rows
  }

  /** The ledger entry an award appends. `priceText` is the price as
      JavaScript prints it. */
  function EarnedEntry(user: string, appointmentId: string, amount: int, priceText: string): Transaction {
    Transaction(user, Some(appointmentId), amount, Earned,
      "Points earned from appointment ($" + priceText + ")")
  }

  function RedeemedEntry(user: string, amount: int, description: string): Transaction {
    Transaction(user, None, -amount, Redeemed, description)
  }

  /** The sum of a user's ledger deltas. */
  function LedgerSum(ledger: seq<Transaction>, user: string): int
    decreases |ledger|
  {
    if ledger == [] then 0
    else (if ledger[0].userId == user then ledger[0].points else 0) + LedgerSum(ledger[1..], user)
  }

  /** Appending one entry moves its user's sum by its delta, and no other's. */
  lemma {:induction false} LedgerSumAppend(ledger: seq<Transaction>, t: Transaction, user: string)
    ensures LedgerSum(ledger + [t], user)
         == LedgerSum(ledger, user) + (if t.userId == user then t.points else 0)
    decreases |ledger|
  {
    if ledger != [] {
      assert (ledger + [t])[1..] == ledger[1..] + [t];
      LedgerSumAppend(ledger[1..], t, user);
    }
  }

  /** The user's balance equals the sum of the user's ledger deltas. */
  ghost predicate Reconciled(rows: map<string, PointsRow>, ledger: seq<Transaction>, user: string) {
    user in rows && rows[user].balance == LedgerSum(ledger, user)
  }

  /** An award to a user who already has a row keeps balance and ledger in step. */
  lemma AwardKeepsReconciled(
    rows: map<string, PointsRow>, ledger: seq<Transaction>, user: string,
    appointmentId: string, amount: int, priceText: string)
    requires Reconciled(rows, ledger, user)
    ensures Reconciled(AwardedRows(rows, user, amount),
                       ledger + [EarnedEntry(user, appointmentId, amount, priceText)], user)
  {
    LedgerSumAppend(ledger, EarnedEntry(user, appointmentId, amount, priceText), user);
  }

  /** A user's first award credits the balance twice while the ledger records
      the amount once: the balance ends at twice the ledger's sum. */
  lemma FirstAwardCreditsTwice(
    rows: map<string, PointsRow>, ledger: seq<Transaction>, user: string,
    appointmentId: string, amount: int, priceText: string)
    requires user !in rows && LedgerSum(ledger, user) == 0
    ensures AwardedRows(rows, user, amount)[user].balance
         == 2 * LedgerSum(ledger + [EarnedEntry(user, appointmentId, amount, priceText)], user)
  {
    LedgerSumAppend(ledger, EarnedEntry(user, appointmentId, amount, priceText), user);
  }

  /** A redemption against an up-to-date cached row keeps balance and ledger
      in step, and leaves lifetime and tier as they were. */
  lemma RedeemKeepsReconciled(
    rows: map<string, PointsRow>, ledger: seq<Transaction>, user: string,
    amount: int, description: string)
    requires Reconciled(rows, ledger, user)
    ensures Reconciled(RedeemedRows(rows, user, rows[user], amount),
                       ledger + [RedeemedEntry(user, amount, description)], user)
    ensures RedeemedRows(rows, user, rows[user], amount)[user].lifetime == rows[user].lifetime
    ensures RedeemedRows(rows, user, rows[user], amount)[user].tier == rows[user].tier
  {
    LedgerSumAppend(ledger, RedeemedEntry(user, amount, description), user);
  }

  /** A user's entries, newest first, at most 20 (fetchTransactions). Entries
      are created in ledger order, so created_at descending is the reverse:
      the i-th result is the user's i-th entry counted from the latest. */
  function RecentFor(ledger: seq<Transaction>, user: string): (r: seq<Transaction>)
    ensures var mine := Filter(ledger, OfUser(user));
      |r| == (if |mine| < 20 then |mine| else 20)
      && forall i :: 0 <= i < |r| ==> r[i] == mine[|mine| - 1 - i]
    ensures |r| <= 20
    ensures forall i :: 0 <= i < |r| ==> r[i].userId == user
    ensures forall t :: t in r ==> t in ledger
    ensures |Filter(ledger, OfUser(user))| <= 20 ==> r == Reverse(Filter(ledger, OfUser(user)))
  {
    var mine := Reverse(Filter(ledger, OfUser(user)));
    assert forall i :: 0 <= i < |mine| ==> mine[i] in Filter(ledger, OfUser(user));
    Take(mine, 20)
  }

  function OfUser(user: string): Transaction -> bool {
    (t: Transaction) => t.userId == user
  }

  /** The single row `.eq('user_id', u).single()` reads; a missing row
      (code PGRST116) reads as null. */
  function RowOf(rows: map<string, PointsRow>, user: string): Option<PointsRow> {
    if user in rows then Some(rows[user]) else None
  }

  datatype Benefits = Benefits(
    name: string, discount: int, color: string, bgColor: string, benefits: seq<string>)

  const BronzeBenefits := Benefits("Bronze", 0, "text-amber-600", "bg-amber-50",
    ["Earn points on every visit", "Birthday month special"])

  /** getTierBenefits: the static table, any other value falling back to bronze. */
  function TierBenefits(tier: string): (b: Benefits)
    ensures tier == "silver" ==> b.discount == 5 && |b.benefits| == 3
    ensures tier == "gold" ==> b.discount == 10 && |b.benefits| == 4
    ensures tier != "silver" && tier != "gold" <==> b == BronzeBenefits
    ensures BronzeBenefits.discount == 0 && |BronzeBenefits.benefits| == 2
  {
    if tier == "silver" then
      Benefits("Silver", 5, "text-gray-600", "bg-gray-50",
        ["5% discount on all services", "Priority booking", "Monthly special offers"])
    else if tier == "gold" then
      Benefits("Gold", 10, "text-yellow-600", "bg-yellow-50",
        ["10% discount on all services", "VIP priority booking", "Exclusive events", "Free upgrades"])
    else
      BronzeBenefits
  }

  /** A higher tier never has a smaller discount or fewer benefits. */
  lemma BenefitsGrowWithTier(a: Tier, b: Tier)
    requires TierRank(a) <= TierRank(b)
    ensures TierBenefits(TierName(a)).discount <= TierBenefits(TierName(b)).discount
    ensures |TierBenefits(TierName(a)).benefits| <= |TierBenefits(TierName(b)).benefits|
  {
  }

  /** getPointsToNextTier over the cached row. */
  function PointsToNextTier(data: Option<PointsRow>): (n: int)
    ensures data.None? || data.value.tier == Gold ==> n == 0
    ensures data.Some? && data.value.tier == Bronze ==> n == 500 - data.value.lifetime
    ensures data.Some? && data.value.tier == Silver ==> n == 1000 - data.value.lifetime
    ensures (data.Some? && data.value.tier != Gold && data.value.lifetime >= 0
             && data.value.tier == TierFor(data.value.lifetime)) ==> 1 <= n <= 500
    ensures data.Some? && data.value.tier != Gold ==> TierRank(TierFor(data.value.lifetime + n)) > TierRank(data.value.tier)
  {
    match data
    case None => 0
    case Some(row) =>
      match row.tier
      case Bronze => 500 - row.lifetime
      case Silver => 1000 - row.lifetime
      case Gold => 0
  }

  /** The step at which a backend call fails (an error result or a throw). */
  datatype Fault = NoFault | RpcFault | ReadFault | CreateFault | UpdateFault | LedgerFault

  /** The two tables the hook writes. */
  datatype Tables = Tables(rows: map<string, PointsRow>, ledger: seq<Transaction>)

  /** What a call returns, the tables it leaves, and the error it shows. */
  datatype Outcome = Outcome(ok: bool, tables: Tables, error: Option<string>)

  const AwardFailed := "Failed to award loyalty points"
  const RedeemFailed := "Failed to redeem points"
  const Insufficient := "Insufficient points"

  /** awardPoints for a signed-in user, call by call: the gate, the RPC, the
      row read, the insert of a missing row, the increment, the ledger insert. */
  function Award(t: Tables, user: string, appointmentId: string, price: real, priceText: string,
                 rpcPoints: int, fault: Fault): (r: Outcome)
    ensures AwardGate(price) <= 0 ==> r == Outcome(true, t, None)
    ensures (AwardGate(price) > 0 && (fault == RpcFault || fault == ReadFault
             || (fault == CreateFault && user !in t.rows))) ==> r == Outcome(false, t, Some(AwardFailed))
    ensures (AwardGate(price) > 0 && fault == UpdateFault) ==>
      r == Outcome(false, Tables(if user in t.rows then t.rows else t.rows[user := NewRow(rpcPoints)], t.ledger),
                   Some(AwardFailed))
    ensures (AwardGate(price) > 0 && fault == LedgerFault) ==>
      r == Outcome(false, Tables(AwardedRows(t.rows, user, rpcPoints), t.ledger), Some(AwardFailed))
    ensures (AwardGate(price) > 0 && (fault == NoFault || (fault == CreateFault && user in t.rows))) ==>
      r == Outcome(true, Tables(AwardedRows(t.rows, user, rpcPoints),
                                t.ledger + [EarnedEntry(user, appointmentId, rpcPoints, priceText)]), None)
    ensures r.ok <==> r.error == None
    ensures TiersConsistent(t.rows) ==> TiersConsistent(r.tables.rows)
    ensures forall u :: u != user ==> (u in r.tables.rows <==> u in t.rows)
    ensures forall u :: u != user && u in t.rows ==> r.tables.rows[u] == t.rows[u]
    ensures t.ledger <= r.tables.ledger && |r.tables.ledger| <= |t.ledger| + 1
  {
    if AwardGate(price) <= 0 then Outcome(true, t, None)
    else if fault == RpcFault || fault == ReadFault then Outcome(false, t, Some(AwardFailed))
    else if user !in t.rows && fault == CreateFault then Outcome(false, t, Some(AwardFailed))
    else
      var created := if user in t.rows then t.rows else t.rows[user := NewRow(rpcPoints)];
      assert TiersConsistent(t.rows) ==> TiersConsistent(created);
      if fault == UpdateFault then Outcome(false, Tables(created, t.ledger), Some(AwardFailed))
      else if fault == LedgerFault then
        Outcome(false, Tables(AwardedRows(t.rows, user, rpcPoints), t.ledger), Some(AwardFailed))
      else
        Outcome(true, Tables(AwardedRows(t.rows, user, rpcPoints),
                             t.ledger + [EarnedEntry(user, appointmentId, rpcPoints, priceText)]), None)
  }

  /** redeemPoints for a signed-in user with a cached row: the guard against
      the cached balance, the row update, the ledger insert. */
  function Redeem(t: Tables, user: string, cached: PointsRow, amount: int, description: string,
                  fault: Fault): (r: Outcome)
    ensures amount > cached.balance ==> r == Outcome(false, t, Some(Insufficient))
    ensures (amount <= cached.balance && fault == UpdateFault) ==> r == Outcome(false, t, Some(RedeemFailed))
    ensures (amount <= cached.balance && fault == LedgerFault) ==>
      r == Outcome(false, Tables(RedeemedRows(t.rows, user, cached, amount), t.ledger), Some(RedeemFailed))
    ensures (amount <= cached.balance && fault != UpdateFault && fault != LedgerFault) ==>
      r == Outcome(true, Tables(RedeemedRows(t.rows, user, cached, amount),
                                t.ledger + [RedeemedEntry(user, amount, description)]), None)
    ensures r.ok <==> r.error == None
    ensures forall u :: u in t.rows ==>
      u in r.tables.rows && r.tables.rows[u].lifetime == t.rows[u].lifetime && r.tables.rows[u].tier == t.rows[u].tier
    ensures TiersConsistent(t.rows) ==> TiersConsistent(r.tables.rows)
    ensures t.ledger <= r.tables.ledger && |r.tables.ledger| <= |t.ledger| + 1
  {
    if amount > cached.balance then Outcome(false, t, Some(Insufficient))
    else if fault == UpdateFault then Outcome(false, t, Some(RedeemFailed))
    else if fault == LedgerFault then
      Outcome(false, Tables(RedeemedRows(t.rows, user, cached, amount), t.ledger), Some(RedeemFailed))
    else
      Outcome(true, Tables(RedeemedRows(t.rows, user, cached, amount),
                           t.ledger + [RedeemedEntry(user, amount, description)]), None)
  }

  /** The useLoyalty hook for one signed-in (or anonymous) user, together
      with the two tables it reads and writes. */
  class LoyaltyHook {
    const user: Option<string>
    var rows: map<string, PointsRow>
    var ledger: seq<Transaction>
    var loyaltyData: Option<PointsRow>
    var transactions: seq<Transaction>
    var loading: bool
    var error: Option<string>

    constructor (user: Option<string>, rows: map<string, PointsRow>, ledger: seq<Transaction>)
      ensures this.user == user && this.rows == rows && this.ledger == ledger
      ensures loyaltyData == None && transactions == [] && !loading && error == None
    {
      this.user := user;
      this.rows := rows;
      this.ledger := ledger;
      loyaltyData := None;
      transactions := [];
      loading := false;
      error := None;
    }

    /** fetchLoyaltyData: a missing row is not an error and caches null. */
    method FetchLoyaltyData(readFails: bool)
      modifies this`loyaltyData, this`loading, this`error
      ensures user.None? ==> unchanged(this)
      ensures user.Some? && !readFails ==> loyaltyData == RowOf(rows, user.value) && error == None
      ensures user.Some? && readFails ==>
        loyaltyData == old(loyaltyData) && error == Some("Failed to load loyalty information")
      ensures user.Some? ==> !loading
    {
      if user.None? {
        return;
      }
      loading := true;
      error := None;
      if readFails {
        error := Some("Failed to load loyalty information");
      } else {
        loyaltyData := RowOf(rows, user.value);
      }
      loading := false;
    }

    /** fetchTransactions: a failed read is only logged. */
    method FetchTransactions(readFails: bool)
      modifies this`transactions
      ensures user.Some? && !readFails ==> transactions == RecentFor(ledger, user.value)
      ensures user.None? || readFails ==> transactions == old(transactions)
    {
      if user.Some? && !readFails {
        transactions := RecentFor(ledger, user.value);
      }
    }

    /** The backend calls of awardPoints past the gate, each able to fail:
        the RPC, the row read, the insert of a missing row, the increment
        and the ledger insert. */
    method WriteAward(u: string, appointmentId: string, price: real, priceText: string, rpcPoints: int,
                      fault: Fault)
      returns (ok: bool)
      requires AwardGate(price) > 0
      modifies this`rows, this`ledger, this`error
      ensures var r := Award(Tables(old(rows), old(ledger)), u, appointmentId, price, priceText, rpcPoints, fault);
        ok == r.ok && Tables(rows, ledger) == r.tables && error == r.error
    {
      error := None;
      if fault == RpcFault || fault == ReadFault {
        error := Some(AwardFailed);
        return false;
      }
      if u !in rows {
        if fault == CreateFault {
          error := Some(AwardFailed);
          return false;
        }
        rows := rows[u := NewRow(rpcPoints)];
      }
      if fault == UpdateFault {
        error := Some(AwardFailed);
        return false;
      }
      var current := rows[u];
      rows := rows[u := PointsRow(current.balance + rpcPoints, current.lifetime + rpcPoints,
                                  TierFor(current.lifetime + rpcPoints))];
      if fault == LedgerFault {
        error := Some(AwardFailed);
        return false;
      }
      ledger := ledger + [EarnedEntry(u, appointmentId, rpcPoints, priceText)];
      return true;
    }

    /** awardPoints. `rpcPoints` is what calculate_loyalty_points returns for
        the price; it, not the local gate, is the amount credited.
        `priceText` is the price as JavaScript prints it. */
    method AwardPoints(appointmentId: string, price: real, priceText: string, rpcPoints: int, fault: Fault)
      returns (ok: bool)
      modifies this
      ensures user.None? ==> !ok && unchanged(this)
      ensures user.Some? ==>
        var r := Award(Tables(old(rows), old(ledger)), user.value, appointmentId, price, priceText, rpcPoints, fault);
        ok == r.ok && Tables(rows, ledger) == r.tables && error == r.error && !loading
      ensures user.Some? ==>
        if ok && AwardGate(price) > 0
        then loyaltyData == RowOf(rows, user.value) && transactions == RecentFor(ledger, user.value)
        else loyaltyData == old(loyaltyData) && transactions == old(transactions)
    {
      if user.None? {
        return false;
      }
      loading := true;
      error := None;
      var pointsToAward := AwardGate(price);
      if pointsToAward <= 0 {
        loading := false;
        return true;
      }
      ok := WriteAward(user.value, appointmentId, price, priceText, rpcPoints, fault);
      if ok {
        FetchLoyaltyData(false);
        FetchTransactions(false);
      }
      loading := false;
    }

    /** redeemPoints: the guard and the new balance both use the cached row;
        the insufficient-points refusal does not touch `loading`. */
    method RedeemPoints(amount: int, description: string, fault: Fault) returns (ok: bool)
      modifies this
      ensures user.None? || old(loyaltyData).None? ==> !ok && unchanged(this)
      ensures user.Some? && old(loyaltyData).Some? ==>
        var r := Redeem(Tables(old(rows), old(ledger)), user.value, old(loyaltyData).value, amount, description, fault);
        ok == r.ok && Tables(rows, ledger) == r.tables && error == r.error
      ensures user.Some? && old(loyaltyData).Some? && amount > old(loyaltyData).value.balance ==>
        loading == old(loading)
      ensures user.Some? && old(loyaltyData).Some? && amount <= old(loyaltyData).value.balance ==> !loading
      ensures user.Some? && ok ==>
        loyaltyData == RowOf(rows, user.value) && transactions == RecentFor(ledger, user.value)
      ensures !ok ==> loyaltyData == old(loyaltyData) && transactions == old(transactions)
    {
      if user.None? || loyaltyData.None? {
        return false;
      }
      var u, cached := user.value, loyaltyData.value;
      if amount > cached.balance {
        error := Some(Insufficient);
        return false;
      }
      loading := true;
      error := None;
      if fault == UpdateFault {
        error := Some(RedeemFailed);
        loading := false;
        return false;
      }
      rows := RedeemedRows(rows, u, cached, amount);
      if fault == LedgerFault {
        error := Some(RedeemFailed);
        loading := false;
        return false;
      }
      ledger := ledger + [RedeemedEntry(u, amount, description)];
      FetchLoyaltyData(false);
      FetchTransactions(false);
      loading := false;
      return true;
    }
  }
}
