/** The payment tables: wallets, bid_holds, wallet_transactions and outbox_events.
    A value of type Db is what one transaction sees; the CHECK and UNIQUE
    constraints of the schema are part of the row operations. Money is in cents. */
module Tables {
  import opened Optional
  import opened Sums

  type UserId = int
  type WalletId = int
  type HoldId = int
  type AuctionId = int

  datatype HoldStatus = Active | Released | Charged | Expired

  datatype Wallet = Wallet(available: int, held: int) {
    function Total(): int { available + held }
  }

  datatype Hold = Hold(auction: AuctionId, bidder: UserId, wallet: WalletId, amount: int, status: HoldStatus)

  datatype Op = OpDeposit | OpHold | OpRelease | OpCharge | OpCredit

  /** Idempotency keys: those chosen by clients, and those the settlement saga builds. */
  datatype Key = Client(id: int)
               | SagaCharge(auction: AuctionId, user: UserId)
               | SagaCredit(auction: AuctionId, user: UserId)
               | SagaRelease(auction: AuctionId, hold: HoldId)

  datatype Entry = Entry(key: Key, wallet: WalletId, op: Op, amount: int, before: int, after: int)

  datatype Event = AuctionSettled(auction: AuctionId, winner: UserId, seller: UserId, amount: int)
                 | PaymentCompleted(auction: AuctionId, winner: UserId, seller: UserId, amount: int)

  /** walletOf is the unique index on wallets.user_id. */
  datatype Db = Db(walletOf: map<UserId, WalletId>, wallets: map<WalletId, Wallet>,
                   holds: map<HoldId, Hold>, ledger: seq<Entry>, outbox: seq<Event>)

  // ---- Row operations ----

  predicate HasWallet(db: Db, user: UserId) {
    user in db.walletOf && db.walletOf[user] in db.wallets
  }

  /** UPDATE wallets; the row must exist and both CHECK constraints must hold. */
  function UpdateBalance(db: Db, id: WalletId, available: int, held: int): Option<Db> {
    if id in db.wallets && 0 <= available && 0 <= held
    then Some(db.(wallets := db.wallets[id := Wallet(available, held)]))
    else None
  }

  /** UPDATE bid_holds SET status; a missing row is not an error by itself. */
  function SetStatus(db: Db, h: HoldId, status: HoldStatus): Db {
    if h in db.holds then db.(holds := db.holds[h := db.holds[h].(status := status)]) else db
  }

  predicate KeyUsed(ledger: seq<Entry>, key: Key) {
    exists i :: 0 <= i < |ledger| && ledger[i].key == key
  }

  /** INSERT INTO wallet_transactions ... ON CONFLICT (idempotency_key) DO NOTHING */
  function Insert(ledger: seq<Entry>, e: Entry): seq<Entry> {
    if KeyUsed(ledger, e.key) then ledger else ledger + [e]
  }

  predicate SameEventKey(e: Event, f: Event) {
    e.auction == f.auction && e.AuctionSettled? == f.AuctionSettled?
  }

  /** INSERT INTO outbox_events ... ON CONFLICT (idempotency_key) DO NOTHING */
  function Emit(outbox: seq<Event>, e: Event): seq<Event> {
    if exists i :: 0 <= i < |outbox| && SameEventKey(outbox[i], e) then outbox else outbox + [e]
  }

  // ---- Sums over the tables ----

  function HeldBy(h: Hold, id: WalletId): int {
    if h.wallet == id && h.status.Active? then h.amount else 0
  }

  function HeldIn(holds: map<HoldId, Hold>, id: WalletId): HoldId -> int {
    h => if h in holds then HeldBy(holds[h], id) else 0
  }

  /** What the active holds reserve in a wallet. */
  ghost function ActiveHolds(holds: map<HoldId, Hold>, id: WalletId): int {
    SumOver(holds.Keys, HeldIn(holds, id))
  }

  function TotalIn(wallets: map<WalletId, Wallet>): WalletId -> int {
    id => if id in wallets then wallets[id].Total() else 0
  }

  /** All money in the wallets, available or held. */
  ghost function TotalMoney(wallets: map<WalletId, Wallet>): int {
    SumOver(wallets.Keys, TotalIn(wallets))
  }

  /** What every reachable state of the payment tables satisfies. */
  ghost predicate Consistent(db: Db) {
    && (forall u | u in db.walletOf :: db.walletOf[u] in db.wallets)
    && (forall id | id in db.wallets :: 0 <= db.wallets[id].available && 0 <= db.wallets[id].held)
    && (forall h | h in db.holds :: db.holds[h].wallet in db.wallets && 0 < db.holds[h].amount)
    && (forall h | h in db.holds :: HasWallet(db, db.holds[h].bidder) && db.walletOf[db.holds[h].bidder] == db.holds[h].wallet)
    && (forall id | id in db.wallets :: db.wallets[id].held == ActiveHolds(db.holds, id))
  }

  lemma ActiveHoldsAfter(holds: map<HoldId, Hold>, h: HoldId, row: Hold, id: WalletId)
    ensures ActiveHolds(holds[h := row], id) ==
            ActiveHolds(holds, id) + HeldBy(row, id) - if h in holds then HeldBy(holds[h], id) else 0
  {
    assert holds[h := row].Keys == holds.Keys + {h};
    SumChange(holds.Keys, HeldIn(holds, id), HeldIn(holds[h := row], id), h);
  }

  lemma TotalMoneyAfter(wallets: map<WalletId, Wallet>, id: WalletId, row: Wallet)
    ensures TotalMoney(wallets[id := row]) ==
            TotalMoney(wallets) + row.Total() - if id in wallets then wallets[id].Total() else 0
  {
    assert wallets[id := row].Keys == wallets.Keys + {id};
    SumChange(wallets.Keys, TotalIn(wallets), TotalIn(wallets[id := row]), id);
  }

  /** A payment from one wallet to another, at the level of the sums. */
  lemma TotalMoneyMoved(before: map<WalletId, Wallet>, after: map<WalletId, Wallet>,
                        payee: WalletId, credit: int, payer: WalletId, debit: int)
    requires before.Keys == after.Keys && payee in before && payer in before
    requires forall id | id in before ::
               after[id].Total() ==
               before[id].Total() + (if id == payee then credit else 0) - (if id == payer then debit else 0)
    ensures TotalMoney(after) == TotalMoney(before) + credit - debit
  {
    var mid := (id: WalletId) => TotalIn(before)(id) + if id == payee then credit else 0;
    assert before.Keys + {payee} == before.Keys == before.Keys + {payer};
    SumChange(before.Keys, TotalIn(before), mid, payee);
    forall id | id in before ensures TotalIn(after)(id) == mid(id) - if id == payer then debit else 0 {
      assert id in after.Keys;
    }
    SumChange(before.Keys, mid, TotalIn(after), payer);
  }

  /** No single hold exceeds what the active holds of its wallet reserve together. */
  lemma HoldIsPart(holds: map<HoldId, Hold>, h: HoldId, id: WalletId)
    requires h in holds && forall k | k in holds :: 0 < holds[k].amount
    ensures HeldBy(holds[h], id) <= ActiveHolds(holds, id)
  {
    SumExtract(holds.Keys, HeldIn(holds, id), h);
    forall k | k in holds.Keys ensures 0 <= HeldIn(holds, id)(k) {
      assert 0 < holds[k].amount;
    }
    SumNonNegative(holds.Keys - {h}, HeldIn(holds, id));
  }
}
