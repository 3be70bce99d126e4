/** SettleAuction: charges the winner and refunds everybody else, one transaction
    for each active hold of the auction, in whatever order the rows come. */
module AuctionSettle {
  import opened Optional
  import opened Sums
  import opened Tables

  /** The idempotency keys of the transactions table that this operation uses. */
  datatype TxKey = Refund(auction: AuctionId, bidder: UserId)
                 | Payment(auction: AuctionId, bidder: UserId)
                 | Other(id: int)

  datatype TxType = TxRelease | TxCharge

  datatype Transaction = Transaction(wallet: WalletId, kind: TxType, amount: int, reference: HoldId)

  datatype Notice = BalanceRefunded(hold: HoldId, bidder: UserId, refunded: int)
                  | PaymentSettled(hold: HoldId, winner: UserId, paid: int)

  datatype State = State(db: Db, transactions: map<TxKey, Transaction>, notices: seq<Notice>)

  datatype Row = Row(id: HoldId, hold: Hold)

  // ---- The transactions ----

  /** INSERT INTO transactions ... ON CONFLICT (idempotency_key) DO NOTHING */
  function Note(transactions: map<TxKey, Transaction>, key: TxKey, t: Transaction): map<TxKey, Transaction> {
    if key in transactions then transactions else transactions[key := t]
  }

  /** The database fails the transactions of the holds in down, and the key look-ups of those
      in blind; a look-up that fails counts as a key that is not there. */
  datatype Faults = Faults(down: set<HoldId>, blind: set<HoldId>)

  /** None is an error: nothing was committed. */
  function ReleaseHold(s: State, h: HoldId, key: TxKey, blind: bool, down: bool): Option<State> {
    if !blind && key in s.transactions then Some(s)
    else if h !in s.db.holds || !s.db.holds[h].status.Active? then None
    else if !HasWallet(s.db, s.db.holds[h].bidder) then None
    else
      var row := s.db.holds[h];
      var id := s.db.walletOf[row.bidder];
      var w := s.db.wallets[id];
      var tx :- UpdateBalance(s.db, id, w.available + row.amount, w.held - row.amount);
      if down then None
      else Some(State(SetStatus(tx, h, Released),
                      Note(s.transactions, key, Transaction(id, TxRelease, row.amount, h)),
                      s.notices + [BalanceRefunded(h, row.bidder, row.amount)]))
  }

  /** Trusts the row read before: neither its status nor its amount is read again. */
  function ChargeHold(s: State, row: Row, down: bool): Option<State> {
    if !HasWallet(s.db, row.hold.bidder) then None
    else
      var id := s.db.walletOf[row.hold.bidder];
      var w := s.db.wallets[id];
      var tx :- UpdateBalance(s.db, id, w.available, w.held - row.hold.amount);
      if down then None
      else Some(State(SetStatus(tx, row.id, Charged),
                      Note(s.transactions, Payment(row.hold.auction, row.hold.bidder),
                           Transaction(id, TxCharge, row.hold.amount, row.id)),
                      s.notices + [PaymentSettled(row.id, row.hold.bidder, row.hold.amount)]))
  }

  /** One turn of the loop: a refund that fails is skipped, a charge that fails is an error. */
  function SettleRow(s: State, auction: AuctionId, winner: UserId, row: Row, f: Faults): Option<State> {
    if row.hold.bidder == winner then ChargeHold(s, row, row.id in f.down)
    else
      var t := ReleaseHold(s, row.id, Refund(auction, row.hold.bidder), row.id in f.blind, row.id in f.down);
      Some(if t.Some? then t.value else s)
  }

  datatype Settled = Settled(state: State, ok: bool)

  function SettleRows(s: State, auction: AuctionId, winner: UserId, rows: seq<Row>, f: Faults): Settled
    decreases |rows|
  {
    if rows == [] then Settled(s, true)
    else
      var t := SettleRow(s, auction, winner, rows[0], f);
      if t.None? then Settled(s, false) else SettleRows(t.value, auction, winner, rows[1..], f)
  }

  /** rows is an answer to SELECT ... WHERE auction_id = $1 AND status = 'active'. */
  ghost predicate Lists(holds: map<HoldId, Hold>, auction: AuctionId, rows: seq<Row>) {
    && Distinct(rows)
    && (forall i :: 0 <= i < |rows| ==> IsRow(holds, auction, rows[i]))
    && (forall h | h in holds && holds[h].auction == auction && holds[h].status.Active? :: Row(h, holds[h]) in rows)
  }

  predicate IsRow(holds: map<HoldId, Hold>, auction: AuctionId, row: Row) {
    row.id in holds && holds[row.id] == row.hold && row.hold.auction == auction && row.hold.status.Active?
  }

  predicate Distinct(rows: seq<Row>) {
    forall i, j :: 0 <= i < j < |rows| ==> rows[i].id != rows[j].id
  }

  class WalletService {
    var state: State

    constructor (state: State)
      ensures this.state == state
    {
      this.state := state;
    }

    method SettleAuction(auction: AuctionId, winner: UserId, rows: seq<Row>, f: Faults) returns (ok: bool)
      modifies this
      ensures Settled(state, ok) == SettleRows(old(state), auction, winner, rows, f)
    {
      for i := 0 to |rows|
        invariant SettleRows(state, auction, winner, rows[i..], f) == SettleRows(old(state), auction, winner, rows, f)
      {
        var row := rows[i];
        assert rows[i..][1..] == rows[i + 1..];
        if row.hold.bidder == winner {
          var charged := Charge(row, row.id in f.down);
          if !charged {
            return false;
          }
        } else {
          var released := Release(row.id, Refund(auction, row.hold.bidder), row.id in f.blind, row.id in f.down);
        }
      }
      ok := true;
    }

    method Release(h: HoldId, key: TxKey, blind: bool, down: bool) returns (ok: bool)
      modifies this
      ensures var t := ReleaseHold(old(state), h, key, blind, down);
              ok == t.Some? && state == if ok then t.value else old(state)
    {
      if !blind && key in state.transactions {
        return true;
      }
      if h !in state.db.holds || !state.db.holds[h].status.Active? {
        return false;
      }
      var hold := state.db.holds[h];
      if !HasWallet(state.db, hold.bidder) {
        return false;
      }
      var id := state.db.walletOf[hold.bidder];
      var wallet := state.db.wallets[id];
      var tx := UpdateBalance(state.db, id, wallet.available + hold.amount, wallet.held - hold.amount);
      if tx.None? || down {
        return false;
      }
      state := State(SetStatus(tx.value, h, Released),
                     Note(state.transactions, key, Transaction(id, TxRelease, hold.amount, h)),
                     state.notices + [BalanceRefunded(h, hold.bidder, hold.amount)]);
      ok := true;
    }

    method Charge(row: Row, down: bool) returns (ok: bool)
      modifies this
      ensures var t := ChargeHold(old(state), row, down);
              ok == t.Some? && state == if ok then t.value else old(state)
    {
      if !HasWallet(state.db, row.hold.bidder) {
        return false;
      }
      var id := state.db.walletOf[row.hold.bidder];
      var wallet := state.db.wallets[id];
      var tx := UpdateBalance(state.db, id, wallet.available, wallet.held - row.hold.amount);
      if tx.None? || down {
        return false;
      }
      var key := Payment(row.hold.auction, row.hold.bidder);
      state := State(SetStatus(tx.value, row.id, Charged),
                     Note(state.transactions, key, Transaction(id, TxCharge, row.hold.amount, row.id)),
                     state.notices + [PaymentSettled(row.id, row.hold.bidder, row.hold.amount)]);
      ok := true;
    }
  }

  // ---- One turn, from a consistent state ----

  /** What remains to be done is still as it was read. */
  ghost predicate Pending(s: State, auction: AuctionId, rows: seq<Row>) {
    Distinct(rows) && forall i :: 0 <= i < |rows| ==> IsRow(s.db.holds, auction, rows[i])
  }

  /** The status that the turn gives to its hold. */
  function Turn(s: State, auction: AuctionId, winner: UserId, row: Row, f: Faults): HoldStatus {
    if row.id in f.down then Active
    else if row.hold.bidder == winner then Charged
    else if row.id !in f.blind && Refund(auction, row.hold.bidder) in s.transactions then Active
    else Released
  }

  ghost predicate Turned(s: State, t: State, auction: AuctionId, row: Row, status: HoldStatus) {
    && row.hold.wallet in s.db.wallets
    && t.db.walletOf == s.db.walletOf
    && t.db.holds == s.db.holds[row.id := row.hold.(status := status)]
    && t.db.wallets == s.db.wallets[row.hold.wallet := After(s.db.wallets[row.hold.wallet], row.hold.amount, status)]
    && t.transactions == Recorded(s.transactions, auction, row, status)
    && t.notices == s.notices + NoticesOf(row, status)
  }

  function Recorded(transactions: map<TxKey, Transaction>, auction: AuctionId, row: Row, status: HoldStatus): map<TxKey, Transaction> {
    var (id, amount) := (row.hold.wallet, row.hold.amount);
    if status.Released? then Note(transactions, Refund(auction, row.hold.bidder), Transaction(id, TxRelease, amount, row.id))
    else if status.Charged? then Note(transactions, Payment(auction, row.hold.bidder), Transaction(id, TxCharge, amount, row.id))
    else transactions
  }

  /** What the outbox says about a turn with this result. */
  function NoticesOf(row: Row, status: HoldStatus): seq<Notice> {
    if status.Released? then [BalanceRefunded(row.id, row.hold.bidder, row.hold.amount)]
    else if status.Charged? then [PaymentSettled(row.id, row.hold.bidder, row.hold.amount)]
    else []
  }

  function After(w: Wallet, amount: int, status: HoldStatus): Wallet {
    if status.Charged? then Wallet(w.available, w.held - amount)
    else if status.Released? then Wallet(w.available + amount, w.held - amount)
    else w
  }

  /** What a refund or a charge has to know about the tables. */
  ghost predicate Ready(db: Db, auction: AuctionId, row: Row) {
    var id := row.hold.wallet;
    && IsRow(db.holds, auction, row) && row.hold.bidder in db.walletOf && db.walletOf[row.hold.bidder] == id
    && id in db.wallets && 0 <= db.wallets[id].available && 0 < row.hold.amount <= db.wallets[id].held
  }

  lemma ConsistentIsReady(db: Db, auction: AuctionId, row: Row)
    requires Consistent(db) && IsRow(db.holds, auction, row)
    ensures Ready(db, auction, row)
  {
    assert 0 < db.holds[row.id].amount && HasWallet(db, row.hold.bidder);
    var id := row.hold.wallet;
    assert db.wallets[id].held == ActiveHolds(db.holds, id);
    HoldIsPart(db.holds, row.id, id);
  }

  lemma NothingTurned(s: State, auction: AuctionId, row: Row)
    requires Ready(s.db, auction, row)
    ensures Turned(s, s, auction, row, Active)
  {
    assert s.db.holds[row.id := row.hold] == s.db.holds;
    assert s.db.wallets[row.hold.wallet := s.db.wallets[row.hold.wallet]] == s.db.wallets;
  }

  lemma RefundIsMade(s: State, auction: AuctionId, row: Row, blind: bool)
    requires Ready(s.db, auction, row) && (blind || Refund(auction, row.hold.bidder) !in s.transactions)
    ensures var t := ReleaseHold(s, row.id, Refund(auction, row.hold.bidder), blind, false);
            t.Some? && Turned(s, t.value, auction, row, Released)
  {
  }

  lemma ChargeIsMade(s: State, auction: AuctionId, row: Row)
    requires Ready(s.db, auction, row)
    ensures var t := ChargeHold(s, row, false); t.Some? && Turned(s, t.value, auction, row, Charged)
  {
  }

  /** No CHECK constraint stops a settlement: a turn fails only if the database does. */
  lemma TurnIsMade(s: State, auction: AuctionId, winner: UserId, row: Row, f: Faults)
    requires Consistent(s.db) && IsRow(s.db.holds, auction, row)
    ensures var t := SettleRow(s, auction, winner, row, f);
            && (t.None? <==> row.hold.bidder == winner && row.id in f.down)
            && (t.Some? ==> Turned(s, t.value, auction, row, Turn(s, auction, winner, row, f)))
  {
    ConsistentIsReady(s.db, auction, row);
    ReadyRowTurns(s, auction, winner, row, f);
  }

  lemma ReadyRowTurns(s: State, auction: AuctionId, winner: UserId, row: Row, f: Faults)
    requires Ready(s.db, auction, row)
    ensures var t := SettleRow(s, auction, winner, row, f);
            && (t.None? <==> row.hold.bidder == winner && row.id in f.down)
            && (t.Some? ==> Turned(s, t.value, auction, row, Turn(s, auction, winner, row, f)))
  {
    NothingTurned(s, auction, row);
    if row.hold.bidder == winner {
      ChargeIsMade(s, auction, row);
    } else if row.id in f.blind || Refund(auction, row.hold.bidder) !in s.transactions {
      RefundIsMade(s, auction, row, row.id in f.blind);
    }
  }

  /** A turn takes from the held balance what it takes from the active holds. */
  lemma HeldAfterTurn(s: State, t: State, auction: AuctionId, row: Row, status: HoldStatus, id: WalletId)
    requires IsRow(s.db.holds, auction, row) && Turned(s, t, auction, row, status)
    requires status.Active? || status.Charged? || status.Released?
    requires id in s.db.wallets && s.db.wallets[id].held == ActiveHolds(s.db.holds, id)
    requires forall h | h in s.db.holds :: 0 < s.db.holds[h].amount
    ensures t.db.wallets[id].held == ActiveHolds(t.db.holds, id) && (0 <= s.db.wallets[id].held ==> 0 <= t.db.wallets[id].held)
  {
    HoldIsPart(s.db.holds, row.id, id);
    ActiveHoldsAfter(s.db.holds, row.id, row.hold.(status := status), id);
  }

  /** The rows of the tables but for the sums. */
  ghost predicate RowsFit(db: Db) {
    && (forall u | u in db.walletOf :: db.walletOf[u] in db.wallets)
    && (forall h | h in db.holds :: 0 < db.holds[h].amount && Fits(db, db.holds[h]))
  }

  predicate Fits(db: Db, hold: Hold) {
    hold.wallet in db.wallets && HasWallet(db, hold.bidder) && db.walletOf[hold.bidder] == hold.wallet
  }

  lemma TurnKeepsRows(s: State, t: State, auction: AuctionId, row: Row, status: HoldStatus)
    requires RowsFit(s.db) && IsRow(s.db.holds, auction, row) && Turned(s, t, auction, row, status)
    ensures RowsFit(t.db)
  {
    forall h | h in t.db.holds ensures 0 < t.db.holds[h].amount && Fits(t.db, t.db.holds[h]) {
      assert Fits(s.db, s.db.holds[h]);
    }
  }

  ghost predicate SumsFit(db: Db) {
    forall id | id in db.wallets ::
      0 <= db.wallets[id].available && 0 <= db.wallets[id].held && db.wallets[id].held == ActiveHolds(db.holds, id)
  }

  lemma ConsistentParts(db: Db)
    ensures Consistent(db) <==> RowsFit(db) && SumsFit(db)
  {
  }

  lemma TurnKeepsSums(s: State, t: State, auction: AuctionId, row: Row, status: HoldStatus)
    requires SumsFit(s.db) && (forall h | h in s.db.holds :: 0 < s.db.holds[h].amount)
    requires IsRow(s.db.holds, auction, row) && Turned(s, t, auction, row, status)
    requires status.Active? || status.Charged? || status.Released?
    ensures SumsFit(t.db)
  {
    forall id | id in t.db.wallets
      ensures 0 <= t.db.wallets[id].available && 0 <= t.db.wallets[id].held == ActiveHolds(t.db.holds, id)
    {
      HeldAfterTurn(s, t, auction, row, status, id);
    }
  }

  lemma TurnKeepsConsistent(s: State, t: State, auction: AuctionId, row: Row, status: HoldStatus)
    requires Consistent(s.db) && IsRow(s.db.holds, auction, row) && Turned(s, t, auction, row, status)
    requires status.Active? || status.Charged? || status.Released?
    ensures Consistent(t.db)
  {
    ConsistentParts(s.db);
    ConsistentParts(t.db);
    TurnKeepsRows(s, t, auction, row, status);
    TurnKeepsSums(s, t, auction, row, status);
  }

  // ---- Where the money went ----

  function RefundOf(before: map<HoldId, Hold>, after: map<HoldId, Hold>, id: WalletId, h: HoldId): int
  {
    if h in before && before[h].wallet == id && before[h].status.Active? && h in after && after[h].status.Released?
    then before[h].amount else 0
  }

  function PaymentOf(before: map<HoldId, Hold>, after: map<HoldId, Hold>, h: HoldId): int
  {
    if h in before && before[h].status.Active? && h in after && after[h].status.Charged? then before[h].amount else 0
  }

  /** The holds of a wallet that were released on the way from before to after. */
  ghost function RefundedTo(before: map<HoldId, Hold>, after: map<HoldId, Hold>, id: WalletId): int {
    SumOver(before.Keys, h => RefundOf(before, after, id, h))
  }

  ghost function Paid(before: map<HoldId, Hold>, after: map<HoldId, Hold>): int {
    SumOver(before.Keys, h => PaymentOf(before, after, h))
  }

  /** s follows from s0 by releasing and charging holds, and nothing else. */
  ghost predicate Accounted(s0: State, s: State) {
    && s.db.walletOf == s0.db.walletOf && s.db.wallets.Keys == s0.db.wallets.Keys
    && s.db.holds.Keys == s0.db.holds.Keys
    && (forall h | h in s0.db.holds :: s.db.holds[h] == s0.db.holds[h].(status := s.db.holds[h].status))
    && (forall id | id in s0.db.wallets ::
          s.db.wallets[id].available == s0.db.wallets[id].available + RefundedTo(s0.db.holds, s.db.holds, id))
    && TotalMoney(s.db.wallets) == TotalMoney(s0.db.wallets) - Paid(s0.db.holds, s.db.holds)
  }

  lemma AccountedAtFirst(s: State)
    ensures Accounted(s, s)
  {
    var holds := s.db.holds;
    forall id ensures RefundedTo(holds, holds, id) == 0 {
      SumZero(holds.Keys, h => RefundOf(holds, holds, id, h));
    }
    SumZero(holds.Keys, h => PaymentOf(holds, holds, h));
  }

  lemma RefundedAfterTurn(before: map<HoldId, Hold>, mid: map<HoldId, Hold>, h: HoldId, row: Hold, id: WalletId)
    requires h in before && h in mid && mid[h].status.Active?
    ensures RefundedTo(before, mid[h := row], id) == RefundedTo(before, mid, id) + RefundOf(before, mid[h := row], id, h)
  {
    var after := mid[h := row];
    assert before.Keys + {h} == before.Keys;
    SumChange(before.Keys, k => RefundOf(before, mid, id, k), k => RefundOf(before, after, id, k), h);
  }

  lemma PaidAfterTurn(before: map<HoldId, Hold>, mid: map<HoldId, Hold>, h: HoldId, row: Hold)
    requires h in before && h in mid && mid[h].status.Active?
    ensures Paid(before, mid[h := row]) == Paid(before, mid) + PaymentOf(before, mid[h := row], h)
  {
    var after := mid[h := row];
    assert before.Keys + {h} == before.Keys;
    SumChange(before.Keys, k => PaymentOf(before, mid, k), k => PaymentOf(before, after, k), h);
  }

  lemma MoneyAfterTurn(s: State, t: State, auction: AuctionId, row: Row, status: HoldStatus)
    requires Turned(s, t, auction, row, status)
    ensures TotalMoney(t.db.wallets) == TotalMoney(s.db.wallets) - if status.Charged? then row.hold.amount else 0
  {
    TotalMoneyAfter(s.db.wallets, row.hold.wallet, t.db.wallets[row.hold.wallet]);
  }

  lemma TurnIsAccounted(s0: State, s: State, t: State, auction: AuctionId, row: Row, status: HoldStatus)
    requires Accounted(s0, s) && IsRow(s.db.holds, auction, row) && Turned(s, t, auction, row, status)
    requires s0.db.holds[row.id].status.Active?
    ensures Accounted(s0, t)
  {
    var turned := row.hold.(status := status);
    forall id | id in s0.db.wallets
      ensures t.db.wallets[id].available == s0.db.wallets[id].available + RefundedTo(s0.db.holds, t.db.holds, id)
    {
      RefundedAfterTurn(s0.db.holds, s.db.holds, row.id, turned, id);
    }
    PaidAfterTurn(s0.db.holds, s.db.holds, row.id, turned);
    MoneyAfterTurn(s, t, auction, row, status);
  }

  /** The notices since s0 announce exactly the holds that were released or charged since,
      each once, with the right bidder and amount. */
  ghost predicate Announced(s0: State, s: State) {
    && s0.notices <= s.notices && s.db.holds.Keys == s0.db.holds.Keys
    && (forall i :: |s0.notices| <= i < |s.notices| ==> s.notices[i].hold in s0.db.holds && Tells(s0, s, s.notices[i]))
    && (forall i, j :: |s0.notices| <= i < j < |s.notices| ==> s.notices[i].hold != s.notices[j].hold)
    && (forall h | h in s0.db.holds && s.db.holds[h].status != s0.db.holds[h].status ::
          exists i :: |s0.notices| <= i < |s.notices| && s.notices[i].hold == h)
  }

  predicate Tells(s0: State, s: State, n: Notice)
    requires n.hold in s0.db.holds && n.hold in s.db.holds
  {
    var (before, after) := (s0.db.holds[n.hold], s.db.holds[n.hold]);
    && before.status.Active?
    && match n
       case BalanceRefunded(_, bidder, amount) => after.status.Released? && bidder == before.bidder && amount == before.amount
       case PaymentSettled(_, bidder, amount) => after.status.Charged? && bidder == before.bidder && amount == before.amount
  }

  lemma TurnIsAnnounced(s0: State, s: State, t: State, auction: AuctionId, row: Row, status: HoldStatus)
    requires Announced(s0, s) && IsRow(s.db.holds, auction, row) && Turned(s, t, auction, row, status)
    requires status.Active? || status.Charged? || status.Released?
    requires s0.db.holds[row.id] == row.hold
    ensures Announced(s0, t)
  {
    assert forall i :: |s0.notices| <= i < |s.notices| ==> Tells(s0, s, s.notices[i]) && s.notices[i].hold != row.id;
    forall h | h in s0.db.holds && t.db.holds[h].status != s0.db.holds[h].status
      ensures exists i :: |s0.notices| <= i < |t.notices| && t.notices[i].hold == h
    {
      if h == row.id {
        assert t.notices[|s.notices|].hold == h;
      } else {
        var i :| |s0.notices| <= i < |s.notices| && s.notices[i].hold == h;
        assert t.notices[i].hold == h;
      }
    }
  }

  // ---- Whole settlements ----

  lemma PendingStep(s: State, t: State, auction: AuctionId, rows: seq<Row>, status: HoldStatus)
    requires rows != [] && Pending(s, auction, rows) && Turned(s, t, auction, rows[0], status)
    ensures Pending(t, auction, rows[1..])
  {
    forall i | 0 <= i < |rows[1..]| ensures IsRow(t.db.holds, auction, rows[1..][i]) {
      assert rows[1..][i] == rows[i + 1];
    }
  }

  ghost predicate Good(s0: State, s: State) {
    Consistent(s.db) && Accounted(s0, s) && Announced(s0, s)
  }

  lemma TurnIsGood(s0: State, s: State, auction: AuctionId, winner: UserId, rows: seq<Row>, f: Faults)
    requires Good(s0, s) && rows != [] && Pending(s, auction, rows)
    requires rows[0].id in s0.db.holds && s0.db.holds[rows[0].id].status.Active?
    ensures var t := SettleRow(s, auction, winner, rows[0], f);
            t.Some? ==> Good(s0, t.value) && Pending(t.value, auction, rows[1..])
  {
    TurnIsMade(s, auction, winner, rows[0], f);
    var t := SettleRow(s, auction, winner, rows[0], f);
    if t.Some? {
      var status := Turn(s, auction, winner, rows[0], f);
      TurnKeepsConsistent(s, t.value, auction, rows[0], status);
      TurnIsAccounted(s0, s, t.value, auction, rows[0], status);
      TurnIsAnnounced(s0, s, t.value, auction, rows[0], status);
      PendingStep(s, t.value, auction, rows, status);
    }
  }

  lemma {:induction false} EveryTurnIsGood(good: State -> bool, s: State, auction: AuctionId, winner: UserId, rows: seq<Row>,
                                           f: Faults, all: set<HoldId>)
    requires good(s) && Pending(s, auction, rows) && forall i :: 0 <= i < |rows| ==> rows[i].id in all
    requires forall u: State, more: seq<Row> ::
               good(u) && more != [] && Pending(u, auction, more) && more[0].id in all
               ==> var t := SettleRow(u, auction, winner, more[0], f);
                   t.Some? ==> good(t.value) && Pending(t.value, auction, more[1..])
    ensures good(SettleRows(s, auction, winner, rows, f).state)
    decreases |rows|
  {
    if rows != [] {
      var t := SettleRow(s, auction, winner, rows[0], f);
      if t.Some? {
        EveryTurnIsGood(good, t.value, auction, winner, rows[1..], f, all);
      }
    }
  }

  /** In every settlement, whatever the database fails: the tables stay consistent, each
      available balance grows by exactly the holds released, the money in all wallets falls
      by exactly the holds charged, and the outbox announces exactly these holds. */
  lemma SettlementIsAccounted(s: State, auction: AuctionId, winner: UserId, rows: seq<Row>, f: Faults)
    requires Consistent(s.db) && Lists(s.db.holds, auction, rows)
    ensures var t := SettleRows(s, auction, winner, rows, f).state;
            Consistent(t.db) && Accounted(s, t) && Announced(s, t)
  {
    AccountedAtFirst(s);
    var all := set h | h in s.db.holds && s.db.holds[h].status.Active?;
    forall u: State, more: seq<Row> | Good(s, u) && more != [] && Pending(u, auction, more) && more[0].id in all
      ensures var t := SettleRow(u, auction, winner, more[0], f);
              t.Some? ==> Good(s, t.value) && Pending(t.value, auction, more[1..])
    {
      TurnIsGood(s, u, auction, winner, more, f);
    }
    EveryTurnIsGood(u => Good(s, u), s, auction, winner, rows, f, all);
  }

  /** The i-th row is the first of its bidder whose refund the database accepts. */
  predicate FirstOfBidder(rows: seq<Row>, f: Faults, i: nat)
    requires i < |rows|
  {
    forall j :: 0 <= j < i && rows[j].hold.bidder == rows[i].hold.bidder ==> rows[j].id in f.down
  }

  /** What becomes of the i-th row when no charge fails. */
  function StatusOf(s: State, auction: AuctionId, winner: UserId, rows: seq<Row>, f: Faults, i: nat): HoldStatus
    requires i < |rows|
  {
    if rows[i].id in f.down then Active
    else if rows[i].hold.bidder == winner then Charged
    else if rows[i].id in f.blind then Released
    else if Refund(auction, rows[i].hold.bidder) in s.transactions || !FirstOfBidder(rows, f, i) then Active
    else Released
  }

  predicate ChargesSucceed(winner: UserId, rows: seq<Row>, f: Faults) {
    forall i :: 0 <= i < |rows| && rows[i].hold.bidder == winner ==> rows[i].id !in f.down
  }

  /** The settlement reports success exactly when no charge fails, and then every hold
      of the auction has exactly the status StatusOf gives it. */
  lemma {:induction false} EveryHoldEndsAsStated(s: State, auction: AuctionId, winner: UserId, rows: seq<Row>, f: Faults)
    requires Consistent(s.db) && Pending(s, auction, rows)
    ensures var t := SettleRows(s, auction, winner, rows, f);
            && (t.ok <==> ChargesSucceed(winner, rows, f))
            && (t.ok ==> EndsAs(s, t.state, auction, winner, rows, f))
    decreases |rows|
  {
    if rows != [] {
      NextTurn(s, auction, winner, rows, f);
      var t := SettleRow(s, auction, winner, rows[0], f);
      if t.Some? {
        EveryHoldEndsAsStated(t.value, auction, winner, rows[1..], f);
        ChargesSucceedStep(winner, rows, f);
        if ChargesSucceed(winner, rows, f) {
          EndsAsStep(s, t.value, SettleRows(t.value, auction, winner, rows[1..], f).state, auction, winner, rows, f);
        }
      }
    }
  }

  /** What a turn means for the turns after it. */
  lemma NextTurn(s: State, auction: AuctionId, winner: UserId, rows: seq<Row>, f: Faults)
    requires rows != [] && Consistent(s.db) && Pending(s, auction, rows)
    ensures var t := SettleRow(s, auction, winner, rows[0], f);
            && IsRow(s.db.holds, auction, rows[0])
            && (t.None? <==> rows[0].hold.bidder == winner && rows[0].id in f.down)
            && (t.None? ==> !ChargesSucceed(winner, rows, f))
            && (t.Some? ==>
                  && Consistent(t.value.db) && Pending(t.value, auction, rows[1..])
                  && TurnsHold(s, t.value, auction, rows[0], Turn(s, auction, winner, rows[0], f)))
  {
    TurnIsMade(s, auction, winner, rows[0], f);
    var t := SettleRow(s, auction, winner, rows[0], f);
    if t.Some? {
      var status := Turn(s, auction, winner, rows[0], f);
      TurnKeepsConsistent(s, t.value, auction, rows[0], status);
      PendingStep(s, t.value, auction, rows, status);
      TurnedTurnsHold(s, t.value, auction, rows[0], status);
    }
  }

  ghost predicate EndsAs(s: State, end: State, auction: AuctionId, winner: UserId, rows: seq<Row>, f: Faults) {
    && end.db.holds.Keys == s.db.holds.Keys
    && (forall i :: 0 <= i < |rows| ==>
                      rows[i].id in end.db.holds && end.db.holds[rows[i].id] == rows[i].hold.(status := StatusOf(s, auction, winner, rows, f, i)))
    && (forall h | h in s.db.holds && (forall i :: 0 <= i < |rows| ==> rows[i].id != h) :: end.db.holds[h] == s.db.holds[h])
    && (forall b :: Refund(auction, b) in end.transactions <==> RefundKeyUsed(s, auction, winner, rows, f, b))
  }

  ghost predicate RefundKeyUsed(s: State, auction: AuctionId, winner: UserId, rows: seq<Row>, f: Faults, b: UserId) {
    || Refund(auction, b) in s.transactions
    || (b != winner && exists i :: 0 <= i < |rows| && rows[i].hold.bidder == b && rows[i].id !in f.down)
  }

  lemma ChargesSucceedStep(winner: UserId, rows: seq<Row>, f: Faults)
    requires rows != [] && (rows[0].hold.bidder == winner ==> rows[0].id !in f.down)
    ensures ChargesSucceed(winner, rows, f) <==> ChargesSucceed(winner, rows[1..], f)
  {
    assert rows == [rows[0]] + rows[1..];
    if ChargesSucceed(winner, rows, f) {
      forall i | 0 <= i < |rows[1..]| && rows[1..][i].hold.bidder == winner ensures rows[1..][i].id !in f.down {
        assert rows[1..][i] == rows[i + 1];
      }
    }
  }

  /** What EndsAs is about. */
  ghost predicate TurnsHold(s: State, t: State, auction: AuctionId, row: Row, status: HoldStatus) {
    && t.db.holds == s.db.holds[row.id := row.hold.(status := status)]
    && (forall b :: Refund(auction, b) in t.transactions <==>
                    Refund(auction, b) in s.transactions || (status.Released? && b == row.hold.bidder))
  }

  lemma TurnedTurnsHold(s: State, t: State, auction: AuctionId, row: Row, status: HoldStatus)
    requires Turned(s, t, auction, row, status)
    ensures TurnsHold(s, t, auction, row, status)
  {
  }

  lemma EndsAsStep(s: State, t: State, end: State, auction: AuctionId, winner: UserId, rows: seq<Row>, f: Faults)
    requires rows != [] && Distinct(rows) && IsRow(s.db.holds, auction, rows[0])
    requires rows[0].hold.bidder == winner ==> rows[0].id !in f.down
    requires TurnsHold(s, t, auction, rows[0], Turn(s, auction, winner, rows[0], f))
    requires EndsAs(t, end, auction, winner, rows[1..], f)
    ensures EndsAs(s, end, auction, winner, rows, f)
  {
    var rest := rows[1..];
    assert forall i :: 0 <= i < |rest| ==> rest[i] == rows[i + 1];
    forall i | 0 <= i < |rest|
      ensures StatusOf(t, auction, winner, rest, f, i) == StatusOf(s, auction, winner, rows, f, i + 1)
    {
      assert FirstOfBidder(rows, f, i + 1) <==>
             FirstOfBidder(rest, f, i) && (rows[0].hold.bidder == rows[i + 1].hold.bidder ==> rows[0].id in f.down);
    }
    forall i | 0 <= i < |rows|
      ensures rows[i].id in end.db.holds && end.db.holds[rows[i].id] == rows[i].hold.(status := StatusOf(s, auction, winner, rows, f, i))
    {
      if i > 0 {
        assert rest[i - 1] == rows[i];
      }
    }
    forall b
      ensures RefundKeyUsed(t, auction, winner, rest, f, b) <==> RefundKeyUsed(s, auction, winner, rows, f, b)
    {
      if RefundKeyUsed(t, auction, winner, rest, f, b) && Refund(auction, b) !in t.transactions {
        var i :| 0 <= i < |rest| && rest[i].hold.bidder == b && rest[i].id !in f.down;
        assert rows[i + 1].hold.bidder == b;
      }
      if RefundKeyUsed(s, auction, winner, rows, f, b) && Refund(auction, b) !in s.transactions {
        var i :| 0 <= i < |rows| && rows[i].hold.bidder == b && rows[i].id !in f.down;
        if i > 0 {
          assert rest[i - 1].hold.bidder == b;
        }
      }
    }
  }

  /** No hold of the auction is active any more. */
  ghost predicate Closed(s: State, auction: AuctionId) {
    forall h | h in s.db.holds && s.db.holds[h].auction == auction :: !s.db.holds[h].status.Active?
  }

  /** The database fails on no hold, and each loser's hold is refunded when its turn comes:
      its look-up fails, or the refund key is unused and no other hold of the bidder came before. */
  predicate RefundedInTurn(s: State, auction: AuctionId, winner: UserId, rows: seq<Row>, f: Faults) {
    forall i :: 0 <= i < |rows| ==>
                  && rows[i].id !in f.down
                  && (|| rows[i].hold.bidder == winner
                      || rows[i].id in f.blind
                      || (Refund(auction, rows[i].hold.bidder) !in s.transactions && NewBidder(rows, i)))
  }

  predicate NewBidder(rows: seq<Row>, i: nat)
    requires i < |rows|
  {
    forall j :: 0 <= j < i ==> rows[j].hold.bidder != rows[i].hold.bidder
  }

  /** A settlement closes the auction exactly when every hold is handled in its turn. */
  lemma ClosesExactlyWhen(s: State, auction: AuctionId, winner: UserId, rows: seq<Row>, f: Faults)
    requires Consistent(s.db) && Lists(s.db.holds, auction, rows)
    ensures Closed(SettleRows(s, auction, winner, rows, f).state, auction) <==>
            RefundedInTurn(s, auction, winner, rows, f)
  {
    EveryHoldEndsAsStated(s, auction, winner, rows, f);
    var t := SettleRows(s, auction, winner, rows, f);
    if !t.ok {
      FailedChargeStaysActive(s, auction, winner, rows, f);
    } else {
      ClosedByStatus(s, t.state, auction, winner, rows, f);
      SettledInTurn(s, auction, winner, rows, f);
    }
  }

  lemma SettledInTurn(s: State, auction: AuctionId, winner: UserId, rows: seq<Row>, f: Faults)
    ensures AllSettled(s, auction, winner, rows, f) <==> RefundedInTurn(s, auction, winner, rows, f)
  {
    forall i | 0 <= i < |rows|
      ensures (forall j :: 0 <= j < |rows| ==> rows[j].id !in f.down) ==> (FirstOfBidder(rows, f, i) <==> NewBidder(rows, i))
    {
    }
    if AllSettled(s, auction, winner, rows, f) {
      forall i | 0 <= i < |rows|
        ensures rows[i].id !in f.down
        ensures rows[i].hold.bidder == winner || rows[i].id in f.blind ||
                (Refund(auction, rows[i].hold.bidder) !in s.transactions && FirstOfBidder(rows, f, i))
      {
        assert !StatusOf(s, auction, winner, rows, f, i).Active?;
      }
    }
  }

  /** Each loser has one active hold, and its refund was not made before. */
  ghost predicate OneRefundEach(s: State, auction: AuctionId, winner: UserId) {
    forall h | h in s.db.holds && s.db.holds[h].auction == auction && s.db.holds[h].status.Active?
               && s.db.holds[h].bidder != winner ::
      && Refund(auction, s.db.holds[h].bidder) !in s.transactions
      && forall k | k in s.db.holds && s.db.holds[k].auction == auction && s.db.holds[k].status.Active?
                    && s.db.holds[k].bidder == s.db.holds[h].bidder :: k == h
  }

  /** When no look-up fails, whatever the order of the rows: exactly when the database fails on
      none of them and every loser had one active hold and an unused refund key. */
  lemma ClosesInAnyOrderExactlyWhen(s: State, auction: AuctionId, winner: UserId, rows: seq<Row>, f: Faults)
    requires Consistent(s.db) && Lists(s.db.holds, auction, rows) && f.blind == {}
    ensures Closed(SettleRows(s, auction, winner, rows, f).state, auction) <==>
            OneRefundEach(s, auction, winner) && forall i :: 0 <= i < |rows| ==> rows[i].id !in f.down
  {
    ClosesExactlyWhen(s, auction, winner, rows, f);
    SettledInTurn(s, auction, winner, rows, f);
    AllSettledExactlyWhen(s, auction, winner, rows, f);
  }

  ghost predicate AllSettled(s: State, auction: AuctionId, winner: UserId, rows: seq<Row>, f: Faults) {
    forall i :: 0 <= i < |rows| ==> !StatusOf(s, auction, winner, rows, f, i).Active?
  }

  lemma ClosedByStatus(s: State, t: State, auction: AuctionId, winner: UserId, rows: seq<Row>, f: Faults)
    requires Lists(s.db.holds, auction, rows) && EndsAs(s, t, auction, winner, rows, f)
    ensures Closed(t, auction) <==> AllSettled(s, auction, winner, rows, f)
  {
    if Closed(t, auction) {
      forall i | 0 <= i < |rows| ensures !StatusOf(s, auction, winner, rows, f, i).Active? {
        assert IsRow(s.db.holds, auction, rows[i]);
        assert t.db.holds[rows[i].id].auction == auction;
      }
    }
    if AllSettled(s, auction, winner, rows, f) {
      forall h | h in t.db.holds && t.db.holds[h].auction == auction ensures !t.db.holds[h].status.Active? {
        if i :| 0 <= i < |rows| && rows[i].id == h {
        } else {
          assert t.db.holds[h] == s.db.holds[h];
          assert Row(h, s.db.holds[h]) !in rows;
        }
      }
    }
  }

  lemma AllSettledExactlyWhen(s: State, auction: AuctionId, winner: UserId, rows: seq<Row>, f: Faults)
    requires Lists(s.db.holds, auction, rows) && f.blind == {}
    ensures AllSettled(s, auction, winner, rows, f) <==>
            OneRefundEach(s, auction, winner) && forall i :: 0 <= i < |rows| ==> rows[i].id !in f.down
  {
    var holds := s.db.holds;
    if AllSettled(s, auction, winner, rows, f) {
      forall h | h in holds && holds[h].auction == auction && holds[h].status.Active? && holds[h].bidder != winner
        ensures Refund(auction, holds[h].bidder) !in s.transactions
        ensures forall k | k in holds && holds[k].auction == auction && holds[k].status.Active?
                           && holds[k].bidder == holds[h].bidder :: k == h
      {
        var i :| 0 <= i < |rows| && rows[i] == Row(h, holds[h]);
        assert StatusOf(s, auction, winner, rows, f, i).Released?;
        forall k | k in holds && holds[k].auction == auction && holds[k].status.Active?
                   && holds[k].bidder == holds[h].bidder
          ensures k == h
        {
          var j :| 0 <= j < |rows| && rows[j] == Row(k, holds[k]);
          assert StatusOf(s, auction, winner, rows, f, j).Released?;
          assert FirstOfBidder(rows, f, i) && FirstOfBidder(rows, f, j);
        }
      }
      forall i | 0 <= i < |rows| ensures rows[i].id !in f.down {
        assert !StatusOf(s, auction, winner, rows, f, i).Active?;
      }
    }
    if OneRefundEach(s, auction, winner) && forall i :: 0 <= i < |rows| ==> rows[i].id !in f.down {
      forall i | 0 <= i < |rows| ensures !StatusOf(s, auction, winner, rows, f, i).Active? {
        assert IsRow(holds, auction, rows[i]);
        forall j | 0 <= j < i && rows[j].hold.bidder == rows[i].hold.bidder
          ensures rows[i].hold.bidder == winner
        {
          assert IsRow(holds, auction, rows[j]) && rows[j].id != rows[i].id;
        }
      }
    }
  }

  lemma {:induction false} FailedChargeStaysActive(s: State, auction: AuctionId, winner: UserId, rows: seq<Row>, f: Faults)
    requires Consistent(s.db) && Pending(s, auction, rows) && !ChargesSucceed(winner, rows, f)
    ensures !Closed(SettleRows(s, auction, winner, rows, f).state, auction)
    decreases |rows|
  {
    NextTurn(s, auction, winner, rows, f);
    var t := SettleRow(s, auction, winner, rows[0], f);
    if t.Some? {
      ChargesSucceedStep(winner, rows, f);
      FailedChargeStaysActive(t.value, auction, winner, rows[1..], f);
    } else {
      assert s.db.holds[rows[0].id].auction == auction;
    }
  }

  /** Settling changes nothing at all exactly when every hold that is left is a loser's whose
      refund the database fails, or is not asked for because its key is seen to be used. */
  lemma ChangesNothingExactlyWhen(t: State, auction: AuctionId, winner: UserId, rows: seq<Row>, f: Faults)
    requires Consistent(t.db) && Pending(t, auction, rows)
    ensures SettleRows(t, auction, winner, rows, f) == Settled(t, true) <==>
            forall i :: 0 <= i < |rows| ==>
                          && rows[i].hold.bidder != winner
                          && (rows[i].id in f.down || (rows[i].id !in f.blind && Refund(auction, rows[i].hold.bidder) in t.transactions))
  {
    if SettleRows(t, auction, winner, rows, f) == Settled(t, true) {
      EveryHoldEndsAsStated(t, auction, winner, rows, f);
      forall i | 0 <= i < |rows|
        ensures rows[i].hold.bidder != winner
        ensures rows[i].id in f.down || (rows[i].id !in f.blind && Refund(auction, rows[i].hold.bidder) in t.transactions)
      {
        assert IsRow(t.db.holds, auction, rows[i]);
        assert StatusOf(t, auction, winner, rows, f, i).Active?;
        assert RefundKeyUsed(t, auction, winner, rows, f, rows[i].hold.bidder) <==> Refund(auction, rows[i].hold.bidder) in t.transactions;
      }
    } else {
      if forall i :: 0 <= i < |rows| ==>
                       && rows[i].hold.bidder != winner
                       && (rows[i].id in f.down || (rows[i].id !in f.blind && Refund(auction, rows[i].hold.bidder) in t.transactions)) {
        NothingToDo(t, auction, winner, rows, f);
      }
    }
  }

  lemma {:induction false} NothingToDo(t: State, auction: AuctionId, winner: UserId, rows: seq<Row>, f: Faults)
    requires forall i :: 0 <= i < |rows| ==>
                           && rows[i].hold.bidder != winner
                           && (rows[i].id in f.down || (rows[i].id !in f.blind && Refund(auction, rows[i].hold.bidder) in t.transactions))
    ensures SettleRows(t, auction, winner, rows, f) == Settled(t, true)
    decreases |rows|
  {
    if rows != [] {
      assert SettleRow(t, auction, winner, rows[0], f) == Some(t);
      NothingToDo(t, auction, winner, rows[1..], f);
    }
  }

  /** After a call without failing transactions, a second call changes nothing exactly when none of
      the holds left over has a failing look-up and a transaction that succeeds: a hold that the
      first call left active because its bidder's refund key was used is refunded only by mistake. */
  lemma SecondCallChangesNothingExactlyWhen(s: State, auction: AuctionId, winner: UserId, rows: seq<Row>, first: Faults,
                                            again: seq<Row>, f: Faults)
    requires Consistent(s.db) && Lists(s.db.holds, auction, rows) && first.down == {}
    requires var t := SettleRows(s, auction, winner, rows, first).state; Lists(t.db.holds, auction, again)
    ensures var t := SettleRows(s, auction, winner, rows, first).state;
            SettleRows(t, auction, winner, again, f) == Settled(t, true) <==>
            forall i :: 0 <= i < |again| && again[i].id in f.blind ==> again[i].id in f.down
  {
    EveryHoldEndsAsStated(s, auction, winner, rows, first);
    SettlementIsAccounted(s, auction, winner, rows, first);
    var t := SettleRows(s, auction, winner, rows, first).state;
    forall i | 0 <= i < |again|
      ensures again[i].hold.bidder != winner && Refund(auction, again[i].hold.bidder) in t.transactions
    {
      LeftOverIsUsed(s, t, auction, winner, rows, first, again[i]);
    }
    ChangesNothingExactlyWhen(t, auction, winner, again, f);
  }

  lemma LeftOverIsUsed(s: State, t: State, auction: AuctionId, winner: UserId, rows: seq<Row>, f: Faults, row: Row)
    requires Lists(s.db.holds, auction, rows) && f.down == {} && EndsAs(s, t, auction, winner, rows, f)
    requires IsRow(t.db.holds, auction, row)
    ensures row.hold.bidder != winner && Refund(auction, row.hold.bidder) in t.transactions
  {
    if j :| 0 <= j < |rows| && rows[j].id == row.id {
      assert StatusOf(s, auction, winner, rows, f, j).Active?;
      assert RefundKeyUsed(s, auction, winner, rows, f, rows[j].hold.bidder);
    } else {
      assert false;
    }
  }

  // ---- The table of transactions ----

  /** The key under which a row is booked, given what has become of its hold. */
  function BookedAs(t: State, auction: AuctionId, row: Row): Option<TxKey> {
    if row.id !in t.db.holds then None
    else
      match t.db.holds[row.id].status
      case Charged => Some(Payment(auction, row.hold.bidder))
      case Released => Some(Refund(auction, row.hold.bidder))
      case _ => None
  }

  /** The i-th row is the first that is booked under the key, and the table has its wallet, amount and hold. */
  predicate BookedFirst(t: State, auction: AuctionId, rows: seq<Row>, i: nat, key: TxKey)
    requires i < |rows|
  {
    && BookedAs(t, auction, rows[i]) == Some(key)
    && (forall j :: 0 <= j < i ==> BookedAs(t, auction, rows[j]) != Some(key))
    && key in t.transactions
    && t.transactions[key] == Transaction(rows[i].hold.wallet, if key.Payment? then TxCharge else TxRelease,
                                          rows[i].hold.amount, rows[i].id)
  }

  /** What was there stays as it was; each hold that was charged or released has its key in the table;
      and what is new is booked for the first hold with that key. */
  ghost predicate BookedExactly(s: State, t: State, auction: AuctionId, rows: seq<Row>) {
    && (forall key | key in s.transactions :: key in t.transactions && t.transactions[key] == s.transactions[key])
    && (forall i :: 0 <= i < |rows| && BookedAs(t, auction, rows[i]).Some? ==> BookedAs(t, auction, rows[i]).value in t.transactions)
    && (forall key | key in t.transactions && key !in s.transactions ::
          exists i :: 0 <= i < |rows| && BookedFirst(t, auction, rows, i, key))
  }

  /** Holds that are not listed are left alone. */
  ghost predicate OthersStay(s: State, t: State, rows: seq<Row>) {
    && t.db.holds.Keys == s.db.holds.Keys
    && forall h | h in s.db.holds && (forall i :: 0 <= i < |rows| ==> rows[i].id != h) :: t.db.holds[h] == s.db.holds[h]
  }

  /** A single turn, for what it does to the table. */
  ghost predicate Books(s: State, u: State, auction: AuctionId, row: Row, status: HoldStatus) {
    && u.db.holds == s.db.holds[row.id := row.hold.(status := status)]
    && (forall key | key in s.transactions :: key in u.transactions && u.transactions[key] == s.transactions[key])
    && (forall key :: key in u.transactions <==>
                      || key in s.transactions
                      || (status.Charged? && key == Payment(auction, row.hold.bidder))
                      || (status.Released? && key == Refund(auction, row.hold.bidder)))
    && (forall key | key in u.transactions && key !in s.transactions ::
          u.transactions[key] == Transaction(row.hold.wallet, if key.Payment? then TxCharge else TxRelease, row.hold.amount, row.id))
  }

  lemma TurnBooks(s: State, u: State, auction: AuctionId, row: Row, status: HoldStatus)
    requires Turned(s, u, auction, row, status)
    ensures Books(s, u, auction, row, status)
  {
  }

  lemma BookedOneMore(s: State, u: State, t: State, auction: AuctionId, rows: seq<Row>, status: HoldStatus)
    requires rows != [] && Distinct(rows) && rows[0].id in s.db.holds && Books(s, u, auction, rows[0], status)
    requires BookedExactly(u, t, auction, rows[1..]) && OthersStay(u, t, rows[1..])
    ensures BookedExactly(s, t, auction, rows) && OthersStay(s, t, rows)
  {
    var (row, rest) := (rows[0], rows[1..]);
    assert forall i :: 0 <= i < |rest| ==> rest[i] == rows[i + 1];
    assert row.id in t.db.holds && t.db.holds[row.id].status == status;
    forall key | key in t.transactions && key !in s.transactions
      ensures exists i :: 0 <= i < |rows| && BookedFirst(t, auction, rows, i, key)
    {
      if key in u.transactions {
        assert BookedFirst(t, auction, rows, 0, key);
      } else {
        var i :| 0 <= i < |rest| && BookedFirst(t, auction, rest, i, key);
        assert BookedFirst(t, auction, rows, i + 1, key);
      }
    }
    forall i | 0 <= i < |rows| && BookedAs(t, auction, rows[i]).Some?
      ensures BookedAs(t, auction, rows[i]).value in t.transactions
    {
      if i > 0 {
        assert rows[i] == rest[i - 1];
      }
    }
  }

  lemma {:induction false} RowsAreBooked(s: State, auction: AuctionId, winner: UserId, rows: seq<Row>, f: Faults)
    requires Consistent(s.db) && Pending(s, auction, rows)
    ensures var t := SettleRows(s, auction, winner, rows, f).state;
            BookedExactly(s, t, auction, rows) && OthersStay(s, t, rows)
    decreases |rows|
  {
    if rows != [] {
      NextTurn(s, auction, winner, rows, f);
      TurnIsMade(s, auction, winner, rows[0], f);
      var u := SettleRow(s, auction, winner, rows[0], f);
      if u.Some? {
        var status := Turn(s, auction, winner, rows[0], f);
        RowsAreBooked(u.value, auction, winner, rows[1..], f);
        TurnBooks(s, u.value, auction, rows[0], status);
        BookedOneMore(s, u.value, SettleRows(u.value, auction, winner, rows[1..], f).state, auction, rows, status);
      } else {
        assert forall i :: 0 <= i < |rows| ==> BookedAs(s, auction, rows[i]) == None;
      }
    }
  }

  /** At the end of every settlement, whatever failed, the table of transactions keeps what it had, and
      has besides exactly one row under the payment key if the winner was charged, and one under the
      refund key of each bidder that got a hold released: with wallet, amount and hold of the first. */
  lemma TransactionsAreBooked(s: State, auction: AuctionId, winner: UserId, rows: seq<Row>, f: Faults)
    requires Consistent(s.db) && Lists(s.db.holds, auction, rows)
    ensures var t := SettleRows(s, auction, winner, rows, f).state;
            && BookedExactly(s, t, auction, rows)
            && (forall key | key !in s.transactions ::
                  key in t.transactions <==> exists i :: 0 <= i < |rows| && BookedAs(t, auction, rows[i]) == Some(key))
  {
    RowsAreBooked(s, auction, winner, rows, f);
    var t := SettleRows(s, auction, winner, rows, f).state;
    forall key | key in t.transactions && key !in s.transactions
      ensures exists i :: 0 <= i < |rows| && BookedAs(t, auction, rows[i]) == Some(key)
    {
      var i :| 0 <= i < |rows| && BookedFirst(t, auction, rows, i, key);
    }
  }

  // ---- One transaction, on any tables ----

  /** A refund is made exactly when its key is not seen to be used, the hold is active, and its bidder's
      wallet covers it; then it moves the money, releases the hold, books and announces it. */
  lemma RefundsExactlyWhen(s: State, h: HoldId, key: TxKey, blind: bool, down: bool)
    ensures var t := ReleaseHold(s, h, key, blind, down);
            var seen := !blind && key in s.transactions;
            && (seen ==> t == Some(s))
            && (!seen ==>
                  (t.Some? <==> && !down && h in s.db.holds && s.db.holds[h].status == Active && HasWallet(s.db, s.db.holds[h].bidder)
                                && var w := s.db.wallets[s.db.walletOf[s.db.holds[h].bidder]];
                                0 <= w.available + s.db.holds[h].amount && s.db.holds[h].amount <= w.held))
            && (!seen && t.Some? ==>
                  var (row, id) := (s.db.holds[h], s.db.walletOf[s.db.holds[h].bidder]);
                  var (w, after) := (s.db.wallets[id], t.value);
                  && after.db.wallets == s.db.wallets[id := Wallet(w.available + row.amount, w.held - row.amount)]
                  && after.db.holds == s.db.holds[h := row.(status := Released)]
                  && after.notices == s.notices + [BalanceRefunded(h, row.bidder, row.amount)]
                  && key in after.transactions
                  && after.transactions[key] == (if key in s.transactions then s.transactions[key] else Transaction(id, TxRelease, row.amount, h))
                  && forall k | k != key :: (k in after.transactions <==> k in s.transactions)
                                            && (k in s.transactions ==> after.transactions[k] == s.transactions[k]))
  {
  }

  /** A charge trusts the row: it is made exactly when the bidder's wallet covers the amount read. */
  lemma ChargesExactlyWhen(s: State, row: Row, down: bool)
    ensures var t := ChargeHold(s, row, down);
            && (t.Some? <==> && !down && HasWallet(s.db, row.hold.bidder)
                             && var w := s.db.wallets[s.db.walletOf[row.hold.bidder]];
                             0 <= w.available && row.hold.amount <= w.held)
            && (t.Some? ==>
                  var (id, key) := (s.db.walletOf[row.hold.bidder], Payment(row.hold.auction, row.hold.bidder));
                  var (w, after) := (s.db.wallets[id], t.value);
                  && after.db.wallets == s.db.wallets[id := Wallet(w.available, w.held - row.hold.amount)]
                  && after.db.holds == (if row.id in s.db.holds then s.db.holds[row.id := s.db.holds[row.id].(status := Charged)] else s.db.holds)
                  && after.notices == s.notices + [PaymentSettled(row.id, row.hold.bidder, row.hold.amount)]
                  && key in after.transactions
                  && after.transactions[key] == (if key in s.transactions then s.transactions[key]
                                                 else Transaction(id, TxCharge, row.hold.amount, row.id))
                  && forall k | k != key :: (k in after.transactions <==> k in s.transactions)
                                            && (k in s.transactions ==> after.transactions[k] == s.transactions[k]))
  {
  }
}
