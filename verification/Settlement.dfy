/** The settlement saga of an ended auction: charge the winner's hold, credit the
    seller, release the losers' holds one by one, put the events in the outbox. */
module Settlement {
  import opened Optional
  import opened Sagas
  import opened Sums
  import opened Tables

  datatype SettlementData = SettlementData(auction: AuctionId, winner: UserId, seller: UserId, amount: int,
                                           winnerHold: HoldId, losers: seq<HoldId>)

  /** Which transactions of a run the database rolls back; release and reHold are indexed by loser. */
  datatype Faults = Faults(charge: bool, credit: bool, release: nat -> bool, publish: bool,
                           reverseCharge: bool, reverseCredit: bool, reHold: nat -> bool)

  /** The tables after a committed transaction, whether the charge and the credit then stand, and
      whether the transaction was one of a compensation. */
  datatype Snapshot = Snapshot(db: Db, charged: bool, credited: bool, undo: bool)

  /** The tables, plus bookkeeping of what the run has committed so far. */
  datatype World = World(db: Db, charged: bool, credited: bool, released: set<HoldId>, history: seq<Snapshot>)

  /** The losers' holds that had been released before the run. */
  function Earlier(sd: SettlementData, db: Db): set<HoldId> {
    set h | h in sd.losers && h in db.holds && db.holds[h].status.Released?
  }

  function Start(sd: SettlementData, db: Db): World {
    World(db, false, false, Earlier(sd, db), [Snapshot(db, false, false, false)])
  }

  function Commit(w: World, db: Db, charged: bool, credited: bool, released: set<HoldId>): World {
    World(db, charged, credited, released, w.history + [Snapshot(db, charged, credited, false)])
  }

  function CommitUndo(w: World, db: Db, charged: bool, credited: bool, released: set<HoldId>): World {
    World(db, charged, credited, released, w.history + [Snapshot(db, charged, credited, true)])
  }

  // ---- The transactions ----

  function ChargeTx(sd: SettlementData, db: Db): Option<Db> {
    if !HasWallet(db, sd.winner) then None
    else
      var id := db.walletOf[sd.winner];
      var newHeld := db.wallets[id].held - sd.amount;
      if newHeld < 0 then None
      else
        var tx :- UpdateBalance(db, id, db.wallets[id].available, newHeld);
        var e := Entry(SagaCharge(sd.auction, sd.winner), id, OpCharge, sd.amount, db.wallets[id].held, newHeld);
        Some(SetStatus(tx, sd.winnerHold, Charged).(ledger := Insert(db.ledger, e)))
  }

  function ReverseChargeTx(sd: SettlementData, db: Db): Option<Db> {
    if !HasWallet(db, sd.winner) then None
    else
      var id := db.walletOf[sd.winner];
      var tx :- UpdateBalance(db, id, db.wallets[id].available, db.wallets[id].held + sd.amount);
      Some(SetStatus(tx, sd.winnerHold, Active))
  }

  function CreditTx(sd: SettlementData, db: Db): Option<Db> {
    if !HasWallet(db, sd.seller) then None
    else
      var id := db.walletOf[sd.seller];
      var newAvailable := db.wallets[id].available + sd.amount;
      var tx :- UpdateBalance(db, id, newAvailable, db.wallets[id].held);
      var e := Entry(SagaCredit(sd.auction, sd.seller), id, OpCredit, sd.amount, db.wallets[id].available, newAvailable);
      Some(tx.(ledger := Insert(db.ledger, e)))
  }

  /** The reversal of a credit never goes below zero: the available balance is clamped. */
  function ReverseCreditTx(sd: SettlementData, db: Db): Option<Db> {
    if !HasWallet(db, sd.seller) then None
    else
      var id := db.walletOf[sd.seller];
      var rest := db.wallets[id].available - sd.amount;
      UpdateBalance(db, id, if rest < 0 then 0 else rest, db.wallets[id].held)
  }

  function ReleaseTx(sd: SettlementData, h: HoldId, db: Db): Option<Db> {
    if h !in db.holds || db.holds[h].wallet !in db.wallets then None
    else
      var id, amount := db.holds[h].wallet, db.holds[h].amount;
      var newHeld := db.wallets[id].held - amount;
      var tx :- UpdateBalance(db, id, db.wallets[id].available + amount, newHeld);
      var e := Entry(SagaRelease(sd.auction, h), id, OpRelease, amount, db.wallets[id].held, newHeld);
      Some(SetStatus(tx, h, Released).(ledger := Insert(db.ledger, e)))
  }

  function ReHoldTx(h: HoldId, db: Db): Option<Db> {
    if h !in db.holds || db.holds[h].wallet !in db.wallets then None
    else
      var id, amount := db.holds[h].wallet, db.holds[h].amount;
      var tx :- UpdateBalance(db, id, db.wallets[id].available - amount, db.wallets[id].held + amount);
      Some(SetStatus(tx, h, Active))
  }

  function PublishTx(sd: SettlementData, db: Db): Db {
    db.(outbox := Emit(Emit(db.outbox, AuctionSettled(sd.auction, sd.winner, sd.seller, sd.amount)),
                       PaymentCompleted(sd.auction, sd.winner, sd.seller, sd.amount)))
  }

  // ---- The steps and compensations ----

  function ChargeStep(sd: SettlementData, fault: bool, w: World): Outcome<World> {
    var tx := ChargeTx(sd, w.db);
    if fault || tx.None? then Outcome(w, false)
    else Outcome(Commit(w, tx.value, true, w.credited, w.released), true)
  }

  function ReverseChargeStep(sd: SettlementData, fault: bool, w: World): Outcome<World> {
    var tx := ReverseChargeTx(sd, w.db);
    if fault || tx.None? then Outcome(w, false)
    else Outcome(CommitUndo(w, tx.value, false, w.credited, w.released), true)
  }

  function CreditStep(sd: SettlementData, fault: bool, w: World): Outcome<World> {
    var tx := CreditTx(sd, w.db);
    if fault || tx.None? then Outcome(w, false)
    else Outcome(Commit(w, tx.value, w.charged, true, w.released), true)
  }

  function ReverseCreditStep(sd: SettlementData, fault: bool, w: World): Outcome<World> {
    var tx := ReverseCreditTx(sd, w.db);
    if fault || tx.None? then Outcome(w, false)
    else Outcome(CommitUndo(w, tx.value, w.charged, false, w.released), true)
  }

  function ReleaseOne(sd: SettlementData, h: HoldId, fault: bool, w: World): Outcome<World> {
    if fault || h !in w.db.holds then Outcome(w, false)
    else if !w.db.holds[h].status.Active? then Outcome(w, true)
    else
      var tx := ReleaseTx(sd, h, w.db);
      if tx.None? then Outcome(w, false)
      else Outcome(Commit(w, tx.value, w.charged, w.credited, w.released + {h}), true)
  }

  /** Stops at the first hold that cannot be released; what is released by then stays released. */
  function ReleaseLosers(sd: SettlementData, fault: nat -> bool, i: nat, w: World): Outcome<World>
    requires i <= |sd.losers|
    decreases |sd.losers| - i
  {
    if i == |sd.losers| then Outcome(w, true)
    else
      var o := ReleaseOne(sd, sd.losers[i], fault(i), w);
      if o.ok then ReleaseLosers(sd, fault, i + 1, o.world) else o
  }

  function ReHoldOne(h: HoldId, fault: bool, w: World): World {
    if fault || h !in w.db.holds || !w.db.holds[h].status.Released? then w
    else
      var tx := ReHoldTx(h, w.db);
      if tx.None? then w else CommitUndo(w, tx.value, w.charged, w.credited, w.released - {h})
  }

  /** Goes on after a hold that cannot be taken back, and reports success in any case. */
  function ReHoldLosers(sd: SettlementData, fault: nat -> bool, i: nat, w: World): World
    requires i <= |sd.losers|
    decreases |sd.losers| - i
  {
    if i == |sd.losers| then w
    else ReHoldLosers(sd, fault, i + 1, ReHoldOne(sd.losers[i], fault(i), w))
  }

  function PublishStep(sd: SettlementData, fault: bool, w: World): Outcome<World> {
    if fault then Outcome(w, false)
    else Outcome(Commit(w, PublishTx(sd, w.db), w.charged, w.credited, w.released), true)
  }

  function Saga(sd: SettlementData, f: Faults): seq<Step<World>> {
    [ Step("charge_winner", w => ChargeStep(sd, f.charge, w), Some(w => ReverseChargeStep(sd, f.reverseCharge, w))),
      Step("credit_seller", w => CreditStep(sd, f.credit, w), Some(w => ReverseCreditStep(sd, f.reverseCredit, w))),
      Step("release_loser_holds", w => ReleaseLosers(sd, f.release, 0, w),
           Some(w => Outcome(ReHoldLosers(sd, f.reHold, 0, w), true))),
      Step("publish_settlement_events", w => PublishStep(sd, f.publish, w), None) ]
  }

  // ---- What a run amounts to at any point ----

  /** The auction can be settled: the winner's hold covers the price, and every loser hold is
      active or was released before. */
  ghost predicate Settleable(sd: SettlementData, db: Db) {
    && Consistent(db)
    && HasWallet(db, sd.winner) && HasWallet(db, sd.seller)
    && sd.winnerHold in db.holds && sd.winnerHold !in sd.losers
    && db.holds[sd.winnerHold].status.Active?
    && db.holds[sd.winnerHold].amount == sd.amount
    && db.holds[sd.winnerHold].wallet == db.walletOf[sd.winner]
    && (forall h | h in sd.losers :: h in db.holds && (db.holds[h].status.Active? || db.holds[h].status.Released?))
  }

  /** The money of the loser holds that were released before is still available. */
  ghost predicate EarlierUnspent(sd: SettlementData, db: Db) {
    forall id | id in db.wallets :: Moved(db.holds, Earlier(sd, db), id) <= db.wallets[id].available
  }

  /** What the seller would have available, before the credit, with just the loser holds in kept released. */
  ghost function Spare(sd: SettlementData, db: Db, kept: set<HoldId>): int
    requires HasWallet(db, sd.seller)
  {
    var id := db.walletOf[sd.seller];
    db.wallets[id].available + Moved(db.holds, kept, id) - Moved(db.holds, Earlier(sd, db), id)
  }

  /** No choice of loser holds leaves the seller short of the credit, but not so short that the
      re-holds themselves would be refused. */
  ghost predicate SellerSafe(sd: SettlementData, db: Db)
    requires HasWallet(db, sd.seller)
  {
    forall kept: set<HoldId> :: kept <= Losers(sd) ==> !(-sd.amount <= Spare(sd, db, kept) < 0)
  }

  function Losers(sd: SettlementData): set<HoldId> {
    set h | h in sd.losers
  }

  function MovedBy(holds: map<HoldId, Hold>, id: WalletId): HoldId -> int {
    h => if h in holds && holds[h].wallet == id then holds[h].amount else 0
  }

  /** What the released holds moved from held to available in wallet id. */
  ghost function Moved(holds: map<HoldId, Hold>, released: set<HoldId>, id: WalletId): int {
    SumOver(released, MovedBy(holds, id))
  }

  ghost function WalletAt(sd: SettlementData, db: Db, charged: bool, credited: bool, released: set<HoldId>,
                          id: WalletId): Wallet
    requires HasWallet(db, sd.winner) && HasWallet(db, sd.seller) && id in db.wallets
  {
    var moved := Moved(db.holds, released, id) - Moved(db.holds, Earlier(sd, db), id);
    Wallet(db.wallets[id].available + moved + (if credited && id == db.walletOf[sd.seller] then sd.amount else 0),
           db.wallets[id].held - moved - (if charged && id == db.walletOf[sd.winner] then sd.amount else 0))
  }

  function StatusAt(sd: SettlementData, db: Db, charged: bool, released: set<HoldId>, h: HoldId): HoldStatus
    requires h in db.holds
  {
    if h == sd.winnerHold && charged then Charged
    else if h in released then Released
    else if h in sd.losers then Active
    else db.holds[h].status
  }

  /** The wallets of w are those of db, changed by exactly what w says stands committed. */
  ghost predicate WalletsTrack(sd: SettlementData, db: Db, w: World)
    requires HasWallet(db, sd.winner) && HasWallet(db, sd.seller)
  {
    && w.db.wallets.Keys == db.wallets.Keys
    && forall id | id in db.wallets :: w.db.wallets[id] == WalletAt(sd, db, w.charged, w.credited, w.released, id)
  }

  /** And so are the holds. */
  ghost predicate HoldsTrack(sd: SettlementData, db: Db, w: World) {
    && w.db.holds.Keys == db.holds.Keys
    && forall h | h in db.holds :: w.db.holds[h] == db.holds[h].(status := StatusAt(sd, db, w.charged, w.released, h))
  }

  ghost predicate Tracks(sd: SettlementData, db: Db, w: World)
    requires HasWallet(db, sd.winner) && HasWallet(db, sd.seller)
  {
    w.db.walletOf == db.walletOf && w.released <= Losers(sd) && WalletsTrack(sd, db, w) && HoldsTrack(sd, db, w)
  }

  lemma MovedAfter(holds: map<HoldId, Hold>, released: set<HoldId>, h: HoldId, id: WalletId)
    requires h in holds && h !in released
    ensures Moved(holds, released + {h}, id) ==
            Moved(holds, released, id) + if holds[h].wallet == id then holds[h].amount else 0
  {
    SumChange(released, MovedBy(holds, id), MovedBy(holds, id), h);
  }

  lemma MovedSplit(holds: map<HoldId, Hold>, released: set<HoldId>, earlier: set<HoldId>, id: WalletId)
    requires forall h | h in holds :: 0 < holds[h].amount
    ensures 0 <= Moved(holds, released, id) <= Moved(holds, earlier, id) + Moved(holds, released - earlier, id)
  {
    var part := MovedBy(holds, id);
    forall h ensures 0 <= part(h) {
      assert h in holds ==> 0 < holds[h].amount;
    }
    SumNonNegative(released, part);
    SumUnion(earlier, released - earlier, part);
    SumLe(released, part, earlier + (released - earlier), part);
  }

  lemma ActiveIsCovered(holds: map<HoldId, Hold>, chosen: set<HoldId>, id: WalletId)
    requires forall h | h in holds :: 0 < holds[h].amount
    requires forall h | h in chosen && h in holds :: holds[h].status.Active?
    ensures Moved(holds, chosen, id) <= ActiveHolds(holds, id)
  {
    var part, held := MovedBy(holds, id), HeldIn(holds, id);
    forall h ensures 0 <= held(h) && (h in chosen ==> part(h) <= held(h)) {
      assert h in holds ==> 0 < holds[h].amount;
    }
    SumLe(chosen, part, holds.Keys, held);
  }

  /** The winner's charge and the holds released by the run together fit into the held balance. */
  lemma MovedIsCovered(sd: SettlementData, db: Db, released: set<HoldId>, id: WalletId)
    requires Settleable(sd, db) && released <= Losers(sd) && id in db.wallets
    ensures 0 <= Moved(db.holds, released, id)
    ensures Moved(db.holds, released, id) - Moved(db.holds, Earlier(sd, db), id)
            + (if id == db.walletOf[sd.winner] then sd.amount else 0) <= db.wallets[id].held
  {
    var since := released - Earlier(sd, db);
    MovedSplit(db.holds, released, Earlier(sd, db), id);
    MovedAfter(db.holds, since, sd.winnerHold, id);
    ActiveIsCovered(db.holds, since + {sd.winnerHold}, id);
  }

  /** What one set of released holds moves, another that has them all moves too. */
  lemma MovedLe(holds: map<HoldId, Hold>, some: set<HoldId>, more: set<HoldId>, id: WalletId)
    requires forall h | h in holds :: 0 < holds[h].amount
    requires forall h | h in some && h in holds && holds[h].wallet == id :: h in more
    ensures Moved(holds, some, id) <= Moved(holds, more, id)
  {
    var part := MovedBy(holds, id);
    forall h ensures 0 <= part(h) && (h in some && h !in more ==> part(h) == 0) {
      assert h in holds ==> 0 < holds[h].amount;
    }
    SumLe(some, part, more, part);
  }

  lemma UnspentIsSafe(sd: SettlementData, db: Db)
    requires Settleable(sd, db) && EarlierUnspent(sd, db)
    ensures SellerSafe(sd, db)
  {
    forall kept: set<HoldId> | kept <= Losers(sd) ensures 0 <= Spare(sd, db, kept) {
      MovedSplit(db.holds, kept, {}, db.walletOf[sd.seller]);
    }
  }

  // ---- Conservation ----

  /** What has been charged but not credited (negative while only the credit stands). */
  function InFlight(sd: SettlementData, s: Snapshot): int {
    (if s.charged then sd.amount else 0) - (if s.credited then sd.amount else 0)
  }

  ghost predicate Balanced(wallets: map<WalletId, Wallet>) {
    forall id | id in wallets :: 0 <= wallets[id].available && 0 <= wallets[id].held
  }

  /** No money appears or disappears, and no balance is negative. */
  ghost predicate Safe(sd: SettlementData, db: Db, s: Snapshot) {
    TotalMoney(s.db.wallets) + InFlight(sd, s) == TotalMoney(db.wallets) && Balanced(s.db.wallets)
  }

  ghost predicate AllSafe(sd: SettlementData, db: Db, w: World) {
    forall i :: 0 <= i < |w.history| ==> Safe(sd, db, w.history[i])
  }

  lemma TrackedTotal(sd: SettlementData, db: Db, w: World)
    requires HasWallet(db, sd.winner) && HasWallet(db, sd.seller) && Tracks(sd, db, w)
    ensures TotalMoney(w.db.wallets) + InFlight(sd, Snapshot(w.db, w.charged, w.credited, false)) == TotalMoney(db.wallets)
  {
    forall id | id in db.wallets
      ensures w.db.wallets[id].Total() ==
              db.wallets[id].Total() + (if id == db.walletOf[sd.seller] then if w.credited then sd.amount else 0 else 0)
              - (if id == db.walletOf[sd.winner] then if w.charged then sd.amount else 0 else 0)
    {
      assert w.db.wallets[id] == WalletAt(sd, db, w.charged, w.credited, w.released, id);
    }
    TotalMoneyMoved(db.wallets, w.db.wallets,
                    db.walletOf[sd.seller], if w.credited then sd.amount else 0,
                    db.walletOf[sd.winner], if w.charged then sd.amount else 0);
  }

  // ---- Each transaction keeps Tracks ----

  ghost predicate Good(sd: SettlementData, db: Db, w: World)
    requires HasWallet(db, sd.winner) && HasWallet(db, sd.seller)
  {
    Tracks(sd, db, w) && Balanced(w.db.wallets) && AllSafe(sd, db, w)
  }

  predicate CommitOf(w: World, w': World) {
    || w' == Commit(w, w'.db, w'.charged, w'.credited, w'.released)
    || w' == CommitUndo(w, w'.db, w'.charged, w'.credited, w'.released)
  }

  /** A committed transaction that keeps Tracks keeps the whole history safe. */
  lemma CommitIsGood(sd: SettlementData, db: Db, w: World, w': World)
    requires HasWallet(db, sd.winner) && HasWallet(db, sd.seller)
    requires AllSafe(sd, db, w) && Tracks(sd, db, w') && Balanced(w'.db.wallets) && CommitOf(w, w')
    ensures Good(sd, db, w')
  {
    TrackedTotal(sd, db, w');
  }

  /** The little that a single transaction needs to know about the settlement. */
  predicate Named(sd: SettlementData, db: Db) {
    && HasWallet(db, sd.winner) && HasWallet(db, sd.seller)
    && sd.winnerHold in db.holds && sd.winnerHold !in sd.losers
    && db.holds[sd.winnerHold].status.Active? && 0 < sd.amount
  }

  predicate IsLoser(sd: SettlementData, db: Db, h: HoldId) {
    && h in sd.losers && h != sd.winnerHold
    && h in db.holds && db.holds[h].wallet in db.wallets && 0 < db.holds[h].amount
  }

  lemma SettleableFacts(sd: SettlementData, db: Db)
    requires Settleable(sd, db)
    ensures Named(sd, db) && Balanced(db.wallets)
    ensures forall h :: h in sd.losers ==> IsLoser(sd, db, h)
  {
  }

  /** The winner's held balance covers the charge at any point before it. */
  lemma ChargeCovered(sd: SettlementData, db: Db, w: World)
    requires Settleable(sd, db) && Tracks(sd, db, w) && !w.charged
    ensures sd.amount <= w.db.wallets[db.walletOf[sd.winner]].held
  {
    var id := db.walletOf[sd.winner];
    MovedIsCovered(sd, db, w.released, id);
    assert w.db.wallets[id] == WalletAt(sd, db, w.charged, w.credited, w.released, id);
  }

  /** The seller still has the credited amount at any point after the credit. */
  lemma CreditCovered(sd: SettlementData, db: Db, w: World)
    requires HasWallet(db, sd.winner) && HasWallet(db, sd.seller) && SellerSafe(sd, db)
    requires Tracks(sd, db, w) && Balanced(w.db.wallets) && w.credited
    ensures sd.amount <= w.db.wallets[db.walletOf[sd.seller]].available
  {
    var id := db.walletOf[sd.seller];
    assert w.db.wallets[id] == WalletAt(sd, db, w.charged, w.credited, w.released, id);
    assert w.db.wallets[id].available == Spare(sd, db, w.released) + sd.amount;
  }

  lemma HoldCovered(sd: SettlementData, db: Db, w: World, h: HoldId)
    requires Settleable(sd, db) && Tracks(sd, db, w) && IsLoser(sd, db, h)
    ensures h !in w.released ==> db.holds[h].amount <= w.db.wallets[db.holds[h].wallet].held
    ensures h in w.released && EarlierUnspent(sd, db) ==> db.holds[h].amount <= w.db.wallets[db.holds[h].wallet].available
  {
    var id := db.holds[h].wallet;
    assert w.db.wallets[id] == WalletAt(sd, db, w.charged, w.credited, w.released, id);
    if h in w.released {
      assert (w.released - {h}) + {h} == w.released;
      MovedAfter(db.holds, w.released - {h}, h, id);
      MovedIsCovered(sd, db, w.released - {h}, id);
    } else {
      MovedAfter(db.holds, w.released, h, id);
      MovedIsCovered(sd, db, w.released + {h}, id);
    }
  }

  lemma ChargeTracks(sd: SettlementData, db: Db, w: World)
    requires Named(sd, db) && Tracks(sd, db, w) && Balanced(w.db.wallets) && !w.charged
    requires sd.amount <= w.db.wallets[db.walletOf[sd.winner]].held
    ensures var o := ChargeStep(sd, false, w);
            o.ok && o.world.charged && Tracks(sd, db, o.world) && Balanced(o.world.db.wallets)
  {
  }

  lemma ReverseChargeTracks(sd: SettlementData, db: Db, w: World)
    requires Named(sd, db) && Tracks(sd, db, w) && Balanced(w.db.wallets) && w.charged
    ensures var o := ReverseChargeStep(sd, false, w);
            o.ok && !o.world.charged && Tracks(sd, db, o.world) && Balanced(o.world.db.wallets)
  {
  }

  lemma CreditTracks(sd: SettlementData, db: Db, w: World)
    requires Named(sd, db) && Tracks(sd, db, w) && Balanced(w.db.wallets) && !w.credited
    ensures var o := CreditStep(sd, false, w);
            o.ok && o.world.credited && Tracks(sd, db, o.world) && Balanced(o.world.db.wallets)
  {
  }

  /** The clamp at zero does not fire while the credited amount is still available. */
  lemma ReverseCreditTracks(sd: SettlementData, db: Db, w: World)
    requires Named(sd, db) && Tracks(sd, db, w) && Balanced(w.db.wallets) && w.credited
    requires sd.amount <= w.db.wallets[db.walletOf[sd.seller]].available
    ensures var o := ReverseCreditStep(sd, false, w);
            o.ok && !o.world.credited && Tracks(sd, db, o.world) && Balanced(o.world.db.wallets)
  {
  }

  /** moved is w with the amount of the hold h moved from held to available. */
  ghost predicate MovesMoney(hold: Hold, w: World, moved: World) {
    && moved.db.wallets.Keys == w.db.wallets.Keys
    && forall k | k in w.db.wallets ::
         moved.db.wallets[k] ==
         if k == hold.wallet then Wallet(w.db.wallets[k].available + hold.amount, w.db.wallets[k].held - hold.amount)
         else w.db.wallets[k]
  }

  /** moved is w with the hold h released. */
  ghost predicate MovesHold(hold: Hold, w: World, h: HoldId, moved: World) {
    && h in w.db.holds && w.db.holds[h] == hold.(status := Active)
    && moved.db.holds == w.db.holds[h := hold.(status := Released)]
  }

  predicate MovesBook(w: World, h: HoldId, moved: World) {
    && h !in w.released
    && (moved.charged, moved.credited, moved.released) == (w.charged, w.credited, w.released + {h})
  }

  lemma WalletAtMoved(sd: SettlementData, db: Db, w: World, h: HoldId, id: WalletId)
    requires HasWallet(db, sd.winner) && HasWallet(db, sd.seller) && id in db.wallets && h in db.holds && h !in w.released
    ensures var (before, after) := (WalletAt(sd, db, w.charged, w.credited, w.released, id),
                                    WalletAt(sd, db, w.charged, w.credited, w.released + {h}, id));
            var amount := if db.holds[h].wallet == id then db.holds[h].amount else 0;
            after == Wallet(before.available + amount, before.held - amount)
  {
    MovedAfter(db.holds, w.released, h, id);
  }

  lemma MovedWalletTracks(sd: SettlementData, db: Db, w: World, h: HoldId, moved: World, id: WalletId)
    requires HasWallet(db, sd.winner) && HasWallet(db, sd.seller) && h in db.holds
    requires id in db.wallets && id in w.db.wallets && id in moved.db.wallets
    requires MovesBook(w, h, moved) && MovesMoney(db.holds[h], w, moved)
    ensures w.db.wallets[id] == WalletAt(sd, db, w.charged, w.credited, w.released, id) <==>
            moved.db.wallets[id] == WalletAt(sd, db, moved.charged, moved.credited, moved.released, id)
  {
    WalletAtMoved(sd, db, w, h, id);
    var (before, after) := (w.db.wallets[id], moved.db.wallets[id]);
    var amount := if id == db.holds[h].wallet then db.holds[h].amount else 0;
    assert after == Wallet(before.available + amount, before.held - amount);
  }

  /** Releasing a hold, and taking it back, keep the wallets explained. */
  lemma MovedWalletsTrack(sd: SettlementData, db: Db, w: World, h: HoldId, moved: World)
    requires HasWallet(db, sd.winner) && HasWallet(db, sd.seller) && h in db.holds
    requires MovesBook(w, h, moved) && MovesMoney(db.holds[h], w, moved)
    ensures WalletsTrack(sd, db, w) <==> WalletsTrack(sd, db, moved)
  {
    if w.db.wallets.Keys == db.wallets.Keys {
      forall id | id in db.wallets
        ensures id in w.db.wallets && id in moved.db.wallets
        ensures w.db.wallets[id] == WalletAt(sd, db, w.charged, w.credited, w.released, id) <==>
                moved.db.wallets[id] == WalletAt(sd, db, moved.charged, moved.credited, moved.released, id)
      {
        assert id in w.db.wallets.Keys && id in moved.db.wallets.Keys;
        MovedWalletTracks(sd, db, w, h, moved, id);
      }
    }
  }

  lemma MovedHoldsTrack(sd: SettlementData, db: Db, w: World, h: HoldId, moved: World)
    requires IsLoser(sd, db, h) && MovesBook(w, h, moved) && MovesHold(db.holds[h], w, h, moved)
    ensures HoldsTrack(sd, db, w) <==> HoldsTrack(sd, db, moved)
  {
    if HoldsTrack(sd, db, w) {
      forall k | k in db.holds
        ensures moved.db.holds[k] == db.holds[k].(status := StatusAt(sd, db, moved.charged, moved.released, k))
      {
        assert w.db.holds[k] == db.holds[k].(status := StatusAt(sd, db, w.charged, w.released, k));
      }
    }
    if HoldsTrack(sd, db, moved) {
      forall k | k in db.holds
        ensures w.db.holds[k] == db.holds[k].(status := StatusAt(sd, db, w.charged, w.released, k))
      {
        assert k in moved.db.holds.Keys;
        assert moved.db.holds[k] == db.holds[k].(status := StatusAt(sd, db, moved.charged, moved.released, k));
      }
    }
  }

  lemma UpdateKeepsBalanced(db: Db, id: WalletId, available: int, held: int)
    requires Balanced(db.wallets) && UpdateBalance(db, id, available, held).Some?
    ensures Balanced(UpdateBalance(db, id, available, held).value.wallets)
  {
  }

  lemma ReleaseMoves(sd: SettlementData, h: HoldId, hold: Hold, w: World)
    requires Balanced(w.db.wallets) && hold.wallet in w.db.wallets && h !in w.released
    requires h in w.db.holds && w.db.holds[h] == hold.(status := Active)
    requires 0 < hold.amount <= w.db.wallets[hold.wallet].held
    ensures var o := ReleaseOne(sd, h, false, w);
            && o.ok && o.world == Commit(w, o.world.db, w.charged, w.credited, w.released + {h})
            && (o.world.db.outbox, o.world.db.walletOf) == (w.db.outbox, w.db.walletOf)
            && Balanced(o.world.db.wallets)
            && MovesBook(w, h, o.world) && MovesMoney(hold, w, o.world) && MovesHold(hold, w, h, o.world)
  {
    var row := w.db.wallets[hold.wallet];
    UpdateKeepsBalanced(w.db, hold.wallet, row.available + hold.amount, row.held - hold.amount);
  }

  lemma ReHoldMoves(h: HoldId, hold: Hold, w: World)
    requires Balanced(w.db.wallets) && hold.wallet in w.db.wallets && h in w.released
    requires h in w.db.holds && w.db.holds[h] == hold.(status := Released)
    requires 0 < hold.amount
    ensures var w' := ReHoldOne(h, false, w);
            if hold.amount <= w.db.wallets[hold.wallet].available then
              && w' == CommitUndo(w, w'.db, w.charged, w.credited, w.released - {h})
              && (w'.db.outbox, w'.db.walletOf) == (w.db.outbox, w.db.walletOf)
              && Balanced(w'.db.wallets)
              && MovesBook(w', h, w) && MovesMoney(hold, w', w) && MovesHold(hold, w', h, w)
            else
              w' == w
  {
    var row := w.db.wallets[hold.wallet];
    if hold.amount <= row.available {
      assert (w.released - {h}) + {h} == w.released;
      UpdateKeepsBalanced(w.db, hold.wallet, row.available - hold.amount, row.held + hold.amount);
      assert w.db.holds[h := hold.(status := Active)][h := hold.(status := Released)] == w.db.holds;
    }
  }

  lemma ReleaseTracks(sd: SettlementData, db: Db, h: HoldId, w: World)
    requires Named(sd, db) && Tracks(sd, db, w) && Balanced(w.db.wallets) && IsLoser(sd, db, h) && h !in w.released
    requires db.holds[h].amount <= w.db.wallets[db.holds[h].wallet].held
    ensures var o := ReleaseOne(sd, h, false, w);
            && o.ok && o.world.released == w.released + {h} && Tracks(sd, db, o.world) && Balanced(o.world.db.wallets)
            && o.world == Commit(w, o.world.db, w.charged, w.credited, w.released + {h})
            && o.world.db.outbox == w.db.outbox
  {
    assert w.db.holds[h] == db.holds[h].(status := Active);
    ReleaseMoves(sd, h, db.holds[h], w);
    MovedWalletsTrack(sd, db, w, h, ReleaseOne(sd, h, false, w).world);
    MovedHoldsTrack(sd, db, w, h, ReleaseOne(sd, h, false, w).world);
  }

  lemma ReHoldTracks(sd: SettlementData, db: Db, h: HoldId, w: World)
    requires Named(sd, db) && Tracks(sd, db, w) && Balanced(w.db.wallets) && IsLoser(sd, db, h) && h in w.released
    ensures var w' := ReHoldOne(h, false, w);
            if db.holds[h].amount <= w.db.wallets[db.holds[h].wallet].available then
              && Tracks(sd, db, w') && Balanced(w'.db.wallets)
              && w' == CommitUndo(w, w'.db, w.charged, w.credited, w.released - {h})
              && w'.db.outbox == w.db.outbox
            else
              w' == w
  {
    assert w.db.holds[h] == db.holds[h].(status := Released);
    ReHoldMoves(h, db.holds[h], w);
    if db.holds[h].amount <= w.db.wallets[db.holds[h].wallet].available {
      MovedWalletsTrack(sd, db, ReHoldOne(h, false, w), h, w);
      MovedHoldsTrack(sd, db, ReHoldOne(h, false, w), h, w);
    }
  }

  // ---- The loops over the losers ----

  function FirstFault(fault: nat -> bool, i: nat, n: nat): (k: nat)
    requires i <= n
    ensures i <= k <= n && (forall j :: i <= j < k ==> !fault(j)) && (k < n ==> fault(k))
    decreases n - i
  {
    if i == n || fault(i) then i else FirstFault(fault, i + 1, n)
  }

  function Prefix(losers: seq<HoldId>, k: nat): set<HoldId>
    requires k <= |losers|
  {
    set h | h in losers[..k]
  }

  lemma ReleaseNext(sd: SettlementData, db: Db, h: HoldId, w: World)
    requires Settleable(sd, db) && Good(sd, db, w) && h in sd.losers
    ensures var o := ReleaseOne(sd, h, false, w); o.ok && Released1(h, w, o.world) && Good(sd, db, o.world)
  {
    SettleableFacts(sd, db);
    if h in w.released {
      assert w.released + {h} == w.released;
      assert w.db.holds[h] == db.holds[h].(status := Released);
    } else {
      HoldCovered(sd, db, w, h);
      ReleaseTracks(sd, db, h, w);
      CommitIsGood(sd, db, w, ReleaseOne(sd, h, false, w).world);
    }
  }

  predicate Released1(h: HoldId, w: World, w': World) {
    (w'.charged, w'.credited, w'.released, w'.db.outbox) == (w.charged, w.credited, w.released + {h}, w.db.outbox)
  }

  /** A hold is taken back, or nothing changes: because of a fault, because it is not released, or
      because its money is not available any more. */
  predicate ReHeld1(h: HoldId, fault: bool, unspent: bool, w: World, w': World) {
    && (w'.charged, w'.credited, w'.db.outbox) == (w.charged, w.credited, w.db.outbox)
    && (w'.released == w.released || w'.released == w.released - {h})
    && (fault ==> w' == w)
    && (unspent && !fault ==> w'.released == w.released - {h})
  }

  lemma ReHoldNext(sd: SettlementData, db: Db, h: HoldId, fault: bool, unspent: bool, w: World)
    requires Settleable(sd, db) && Good(sd, db, w) && h in sd.losers && (unspent ==> EarlierUnspent(sd, db))
    ensures var w' := ReHoldOne(h, fault, w); Good(sd, db, w') && ReHeld1(h, fault, unspent, w, w')
  {
    SettleableFacts(sd, db);
    if !fault {
      if h in w.released {
        HoldCovered(sd, db, w, h);
        ReHoldTracks(sd, db, h, w);
        if ReHoldOne(h, false, w) != w {
          CommitIsGood(sd, db, w, ReHoldOne(h, false, w));
        }
      } else {
        assert w.db.holds[h] == db.holds[h].(status := Active);
        assert w.released - {h} == w.released;
      }
    }
  }

  /** The release loop keeps whatever each release keeps, and stops at the first fault. */
  lemma {:induction false} ReleaseLoop(sd: SettlementData, fault: nat -> bool, i: nat, w: World,
                                       base: set<HoldId>, good: World -> bool)
    requires i <= |sd.losers| && good(w) && w.released == base + Prefix(sd.losers, i)
    requires forall h, v :: h in sd.losers && good(v) ==>
                              var o := ReleaseOne(sd, h, false, v); o.ok && good(o.world) && Released1(h, v, o.world)
    ensures var o := ReleaseLosers(sd, fault, i, w);
            var k := FirstFault(fault, i, |sd.losers|);
            && good(o.world) && o.ok == (k == |sd.losers|)
            && (o.world.charged, o.world.credited, o.world.released, o.world.db.outbox) ==
               (w.charged, w.credited, base + Prefix(sd.losers, k), w.db.outbox)
    decreases |sd.losers| - i
  {
    if i < |sd.losers| && !fault(i) {
      var h := sd.losers[i];
      var o := ReleaseOne(sd, h, false, w);
      assert o.ok && good(o.world) && Released1(h, w, o.world);
      assert sd.losers[..i + 1] == sd.losers[..i] + [h];
      ReleaseLoop(sd, fault, i + 1, o.world, base, good);
    }
  }

  /** The loser holds that a re-hold of losers i, i + 1, ... reaches without a fault. */
  function Retaken(sd: SettlementData, fault: nat -> bool, i: nat): set<HoldId>
    requires i <= |sd.losers|
    decreases |sd.losers| - i
  {
    if i == |sd.losers| then {}
    else (if fault(i) then {} else {sd.losers[i]}) + Retaken(sd, fault, i + 1)
  }

  lemma {:induction false} RetakenExactly(sd: SettlementData, fault: nat -> bool, i: nat)
    requires i <= |sd.losers|
    ensures forall h :: h in Retaken(sd, fault, i) <==> exists k: nat :: i <= k < |sd.losers| && sd.losers[k] == h && !fault(k)
    decreases |sd.losers| - i
  {
    if i < |sd.losers| {
      RetakenExactly(sd, fault, i + 1);
    }
  }

  /** The loop that takes the holds back keeps whatever taking back one hold keeps. */
  lemma {:induction false} ReHoldLoop(sd: SettlementData, fault: nat -> bool, i: nat, w: World, unspent: bool, good: World -> bool)
    requires i <= |sd.losers| && good(w)
    requires forall h, v, b :: h in sd.losers && good(v) ==>
                                 var v' := ReHoldOne(h, b, v); good(v') && ReHeld1(h, b, unspent, v, v')
    ensures var w' := ReHoldLosers(sd, fault, i, w);
            && good(w') && (w'.charged, w'.credited, w'.db.outbox) == (w.charged, w.credited, w.db.outbox)
            && w'.released <= w.released
            && (unspent ==> w'.released == w.released - Retaken(sd, fault, i))
    decreases |sd.losers| - i
  {
    if i < |sd.losers| {
      var h := sd.losers[i];
      var w' := ReHoldOne(h, fault(i), w);
      assert good(w') && ReHeld1(h, fault(i), unspent, w, w');
      ReHoldLoop(sd, fault, i + 1, w', unspent, good);
    }
  }

  // ---- One step, one compensation ----

  /** Whether step i of a run cannot complete. */
  predicate StepFault(sd: SettlementData, f: Faults, i: nat) {
    match i
    case 0 => f.charge
    case 1 => f.credit
    case 2 => FirstFault(f.release, 0, |sd.losers|) < |sd.losers|
    case _ => f.publish
  }

  /** The losers' holds that are released when release_loser_holds stops. */
  function ReleasedBeforeFault(sd: SettlementData, f: Faults, db: Db): set<HoldId> {
    Earlier(sd, db) + Prefix(sd.losers, FirstFault(f.release, 0, |sd.losers|))
  }

  /** The bookkeeping once i steps are done. */
  ghost predicate AtStep(sd: SettlementData, db: Db, i: nat, w: World) {
    && w.charged == (i >= 1) && w.credited == (i >= 2)
    && w.released == (if i >= 3 then Losers(sd) else Earlier(sd, db))
    && w.db.outbox == if i >= 4 then PublishTx(sd, db).outbox else db.outbox
  }

  lemma StartIsGood(sd: SettlementData, db: Db)
    requires Settleable(sd, db)
    ensures Good(sd, db, Start(sd, db)) && AtStep(sd, db, 0, Start(sd, db))
  {
    SettleableFacts(sd, db);
  }

  /** What executing step i does to the bookkeeping. */
  ghost predicate StepEffect(sd: SettlementData, f: Faults, db: Db, i: nat, w: World, o: Outcome<World>) {
    && o.ok == !StepFault(sd, f, i)
    && (o.ok ==> AtStep(sd, db, i + 1, o.world))
    && (!o.ok ==>
          && (o.world.charged, o.world.credited, o.world.db.outbox) == (w.charged, w.credited, w.db.outbox)
          && o.world.released == if i == 2 then ReleasedBeforeFault(sd, f, db) else w.released)
  }

  /** What the compensation of step i does to the bookkeeping. */
  ghost predicate UndoEffect(sd: SettlementData, f: Faults, unspent: bool, i: nat, w: World, o: Outcome<World>) {
    && o.ok == (if i == 0 then !f.reverseCharge else i == 1 ==> !f.reverseCredit)
    && o.world.db.outbox == w.db.outbox
    && o.world.charged == (if i == 0 then f.reverseCharge else w.charged)
    && o.world.credited == (if i == 1 then f.reverseCredit else w.credited)
    && (i != 2 ==> o.world.released == w.released)
    && (i == 2 && unspent ==> o.world.released == w.released - Retaken(sd, f.reHold, 0))
  }

  predicate Undoable(i: nat, w: World) {
    (i == 0 ==> w.charged) && (i == 1 ==> w.credited)
  }

  lemma ChargeStepIsGood(sd: SettlementData, f: Faults, db: Db, w: World)
    requires Settleable(sd, db) && Good(sd, db, w) && AtStep(sd, db, 0, w)
    ensures var o := ChargeStep(sd, f.charge, w); Good(sd, db, o.world) && StepEffect(sd, f, db, 0, w, o)
  {
    if !f.charge {
      SettleableFacts(sd, db);
      ChargeCovered(sd, db, w);
      ChargeTracks(sd, db, w);
      CommitIsGood(sd, db, w, ChargeStep(sd, false, w).world);
    }
  }

  lemma CreditStepIsGood(sd: SettlementData, f: Faults, db: Db, w: World)
    requires Settleable(sd, db) && Good(sd, db, w) && AtStep(sd, db, 1, w)
    ensures var o := CreditStep(sd, f.credit, w); Good(sd, db, o.world) && StepEffect(sd, f, db, 1, w, o)
  {
    if !f.credit {
      SettleableFacts(sd, db);
      CreditTracks(sd, db, w);
      CommitIsGood(sd, db, w, CreditStep(sd, false, w).world);
    }
  }

  lemma PublishStepIsGood(sd: SettlementData, f: Faults, db: Db, w: World)
    requires Settleable(sd, db) && Good(sd, db, w) && AtStep(sd, db, 3, w)
    ensures var o := PublishStep(sd, f.publish, w); Good(sd, db, o.world) && StepEffect(sd, f, db, 3, w, o)
  {
    if !f.publish {
      var w' := PublishStep(sd, false, w).world;
      assert Tracks(sd, db, w');
      CommitIsGood(sd, db, w, w');
    }
  }

  lemma ReleaseStepIsGood(sd: SettlementData, f: Faults, db: Db, w: World)
    requires Settleable(sd, db) && Good(sd, db, w) && AtStep(sd, db, 2, w)
    ensures var o := ReleaseLosers(sd, f.release, 0, w); Good(sd, db, o.world) && StepEffect(sd, f, db, 2, w, o)
  {
    hide SumOver, Moved, ActiveHolds, TotalMoney, ReleaseOne, ReleaseLosers;
    var good := (v: World) => Good(sd, db, v);
    forall h, v | h in sd.losers && good(v)
      ensures var o := ReleaseOne(sd, h, false, v); o.ok && good(o.world) && Released1(h, v, o.world)
    {
      ReleaseNext(sd, db, h, v);
    }
    ReleaseLoop(sd, f.release, 0, w, Earlier(sd, db), good);
    assert sd.losers[..|sd.losers|] == sd.losers;
    assert Earlier(sd, db) + Prefix(sd.losers, |sd.losers|) == Losers(sd);
  }

  lemma StepIsGood(sd: SettlementData, f: Faults, db: Db, i: nat, w: World)
    requires Settleable(sd, db) && i < 4 && Good(sd, db, w) && AtStep(sd, db, i, w)
    ensures var o := Saga(sd, f)[i].execute(w); Good(sd, db, o.world) && StepEffect(sd, f, db, i, w, o)
  {
    hide SumOver;
    match i
    case 0 => ChargeStepIsGood(sd, f, db, w);
    case 1 => CreditStepIsGood(sd, f, db, w);
    case 2 => ReleaseStepIsGood(sd, f, db, w);
    case _ => PublishStepIsGood(sd, f, db, w);
  }

  lemma ReHoldStepIsGood(sd: SettlementData, f: Faults, db: Db, unspent: bool, w: World)
    requires Settleable(sd, db) && Good(sd, db, w) && (unspent ==> EarlierUnspent(sd, db))
    ensures var w' := ReHoldLosers(sd, f.reHold, 0, w);
            Good(sd, db, w') && UndoEffect(sd, f, unspent, 2, w, Outcome(w', true))
  {
    var good := (v: World) => Good(sd, db, v);
    forall h, v, b | h in sd.losers && good(v)
      ensures var v' := ReHoldOne(h, b, v); good(v') && ReHeld1(h, b, unspent, v, v')
    {
      ReHoldNext(sd, db, h, b, unspent, v);
    }
    ReHoldLoop(sd, f.reHold, 0, w, unspent, good);
  }

  lemma UndoIsGood(sd: SettlementData, f: Faults, db: Db, unspent: bool, i: nat, w: World)
    requires Settleable(sd, db) && SellerSafe(sd, db) && (unspent ==> EarlierUnspent(sd, db))
    requires i < 4 && Good(sd, db, w) && Undoable(i, w)
    ensures var o := Undo(Saga(sd, f)[i], w); Good(sd, db, o.world) && UndoEffect(sd, f, unspent, i, w, o)
  {
    hide SumOver;
    match i
    case 0 => ReverseChargeIsGood(sd, f, db, unspent, w);
    case 1 => ReverseCreditIsGood(sd, f, db, unspent, w);
    case 2 => ReHoldStepIsGood(sd, f, db, unspent, w);
    case _ =>
  }

  lemma ReverseChargeIsGood(sd: SettlementData, f: Faults, db: Db, unspent: bool, w: World)
    requires Settleable(sd, db) && Good(sd, db, w) && w.charged
    ensures var o := ReverseChargeStep(sd, f.reverseCharge, w); Good(sd, db, o.world) && UndoEffect(sd, f, unspent, 0, w, o)
  {
    if !f.reverseCharge {
      SettleableFacts(sd, db);
      ReverseChargeTracks(sd, db, w);
      CommitIsGood(sd, db, w, ReverseChargeStep(sd, false, w).world);
    }
  }

  lemma ReverseCreditIsGood(sd: SettlementData, f: Faults, db: Db, unspent: bool, w: World)
    requires Settleable(sd, db) && SellerSafe(sd, db) && Good(sd, db, w) && w.credited
    ensures var o := ReverseCreditStep(sd, f.reverseCredit, w); Good(sd, db, o.world) && UndoEffect(sd, f, unspent, 1, w, o)
  {
    if !f.reverseCredit {
      SettleableFacts(sd, db);
      CreditCovered(sd, db, w);
      ReverseCreditTracks(sd, db, w);
      CommitIsGood(sd, db, w, ReverseCreditStep(sd, false, w).world);
    }
  }

  /** The two lemmas above, for any property of worlds in place of Good. */
  ghost predicate Kept(sd: SettlementData, f: Faults, db: Db, steps: seq<Step<World>>, unspent: bool, good: World -> bool) {
    && |steps| == 4
    && good(Start(sd, db)) && AtStep(sd, db, 0, Start(sd, db))
    && (forall i: nat, w :: i < 4 && good(w) && AtStep(sd, db, i, w) ==>
                              var o := steps[i].execute(w); good(o.world) && StepEffect(sd, f, db, i, w, o))
    && (forall i: nat, w :: i < 4 && good(w) && Undoable(i, w) ==>
                              var o := Undo(steps[i], w); good(o.world) && UndoEffect(sd, f, unspent, i, w, o))
  }

  lemma GoodIsKept(sd: SettlementData, f: Faults, db: Db, unspent: bool) returns (good: World -> bool)
    requires Settleable(sd, db) && SellerSafe(sd, db) && (unspent ==> EarlierUnspent(sd, db))
    ensures Kept(sd, f, db, Saga(sd, f), unspent, good)
    ensures forall w :: good(w) ==> Good(sd, db, w)
  {
    good := (w: World) => Good(sd, db, w);
    StartIsGood(sd, db);
    forall i: nat, w | i < 4 && good(w) && AtStep(sd, db, i, w)
      ensures var o := Saga(sd, f)[i].execute(w); good(o.world) && StepEffect(sd, f, db, i, w, o)
    {
      StepIsGood(sd, f, db, i, w);
    }
    forall i: nat, w | i < 4 && good(w) && Undoable(i, w)
      ensures var o := Undo(Saga(sd, f)[i], w); good(o.world) && UndoEffect(sd, f, unspent, i, w, o)
    {
      UndoIsGood(sd, f, db, unspent, i, w);
    }
  }

  // ---- The main results ----

  /** Conservation: whatever fails, in whichever direction, after every committed transaction
      of the run the money in the wallets plus what is in flight is what it was at the start,
      and no balance is negative. */
  lemma MoneyIsConserved(sd: SettlementData, f: Faults, db: Db)
    requires Settleable(sd, db) && SellerSafe(sd, db)
    ensures AllSafe(sd, db, Final(Saga(sd, f), Start(sd, db)))
  {
    var good := GoodIsKept(sd, f, db, false);
    AlwaysGood(sd, f, db, Saga(sd, f), false, good);
  }

  lemma AlwaysGood(sd: SettlementData, f: Faults, db: Db, steps: seq<Step<World>>, unspent: bool, good: World -> bool)
    requires Kept(sd, f, db, steps, unspent, good)
    ensures good(Final(steps, Start(sd, db)))
  {
    var doing := (i: nat, w: World) => good(w) && AtStep(sd, db, i, w);
    var undoing := (i: nat, w: World) => good(w) && (i >= 1 ==> w.charged) && (i >= 2 ==> w.credited);
    SagaRule(steps, Start(sd, db), doing, undoing);
  }

  predicate NoFaultBefore(sd: SettlementData, f: Faults, i: nat) {
    && (i >= 1 ==> !f.charge)
    && (i >= 2 ==> !f.credit)
    && (i >= 3 ==> !StepFault(sd, f, 2))
    && (i >= 4 ==> !f.publish)
  }

  /** The losers' holds that are released when a failed run has been compensated: those of a
      release_loser_holds that failed half-way stay released, and of a complete one those whose
      taking back fails; what had been released before the run is taken back like the rest. */
  function ReleasedInTheEnd(sd: SettlementData, f: Faults, db: Db): set<HoldId> {
    if f.charge || f.credit then Earlier(sd, db)
    else if StepFault(sd, f, 2) then ReleasedBeforeFault(sd, f, db)
    else Losers(sd) - Retaken(sd, f.reHold, 0)
  }

  ghost predicate CompensationsSucceed(f: Faults) {
    !f.reverseCharge && !f.reverseCredit && forall k: nat :: !f.reHold(k)
  }

  /** The bookkeeping while steps i-1 .. 0 of a failed run are still to be compensated. */
  ghost predicate AtUndo(sd: SettlementData, f: Faults, db: Db, unspent: bool, i: nat, w: World) {
    && w.charged == (if i >= 1 then true else !f.charge && f.reverseCharge)
    && w.credited == (if i >= 2 then true else !f.charge && !f.credit && f.reverseCredit)
    && w.db.outbox == db.outbox
    && !NoFaultBefore(sd, f, 4) && NoFaultBefore(sd, f, if i <= 3 then i else 3)
    && (i >= 3 ==> w.released == Losers(sd))
    && (i < 3 && unspent ==> w.released == ReleasedInTheEnd(sd, f, db))
  }

  /** The first step of a run that cannot complete; 4 when all can. */
  function FailingStep(sd: SettlementData, f: Faults): (n: nat)
    ensures n <= 4 && NoFaultBefore(sd, f, n) && (n < 4 ==> StepFault(sd, f, n))
  {
    if f.charge then 0 else if f.credit then 1 else if StepFault(sd, f, 2) then 2 else if f.publish then 3 else 4
  }

  /** What is reported: the step that failed, and whether the reversal of one before it failed too. */
  function PlannedReport(sd: SettlementData, f: Faults): Report {
    var n := FailingStep(sd, f);
    if n == 4 then Succeeded
    else if (n >= 1 && f.reverseCharge) || (n >= 2 && f.reverseCredit) then CompensationFailed(n)
    else StepFailed(n)
  }

  /** How a run ends, in terms of the faults it meets. */
  ghost predicate EndsAsPlanned(sd: SettlementData, f: Faults, db: Db, steps: seq<Step<World>>, unspent: bool) {
    var report := Outline(steps, Start(sd, db));
    var end := Final(steps, Start(sd, db));
    && report == PlannedReport(sd, f)
    && (report.Succeeded? <==> NoFaultBefore(sd, f, 4))
    && (report.Succeeded? ==>
          && end.charged && end.credited && end.released == Losers(sd)
          && end.db.outbox == PublishTx(sd, db).outbox)
    && (!report.Succeeded? ==> AtUndo(sd, f, db, unspent, 0, end))
  }

  lemma UndoAdvances(sd: SettlementData, f: Faults, db: Db, steps: seq<Step<World>>, unspent: bool, good: World -> bool, i: nat, w: World)
    requires Kept(sd, f, db, steps, unspent, good) && i < 4 && good(w) && AtUndo(sd, f, db, unspent, i + 1, w)
    ensures var o := Undo(steps[i], w);
            && good(o.world) && (i < 3 ==> AtUndo(sd, f, db, unspent, i, o.world))
            && (!f.reverseCharge && !f.reverseCredit ==> o.ok)
  {
    assert Undoable(i, w);
  }

  ghost predicate Doing(sd: SettlementData, f: Faults, db: Db, i: nat, w: World) {
    i <= 4 && AtStep(sd, db, i, w) && NoFaultBefore(sd, f, i)
  }

  ghost predicate Undoing(sd: SettlementData, f: Faults, db: Db, unspent: bool, i: nat, w: World) {
    i < 4 && AtUndo(sd, f, db, unspent, i, w)
  }

  lemma Phases(sd: SettlementData, f: Faults, db: Db, steps: seq<Step<World>>, unspent: bool, good: World -> bool)
    returns (doing: (nat, World) -> bool, undoing: (nat, World) -> bool)
    requires Kept(sd, f, db, steps, unspent, good)
    ensures Sound(steps, doing, undoing) && doing(0, Start(sd, db))
    ensures !f.reverseCharge && !f.reverseCredit ==> UndoNeverFails(steps, undoing)
    ensures forall i: nat, w :: doing(i, w) ==> Doing(sd, f, db, i, w)
    ensures forall i: nat, w :: undoing(i, w) ==> Undoing(sd, f, db, unspent, i, w)
  {
    doing := (i: nat, w: World) => good(w) && Doing(sd, f, db, i, w);
    undoing := (i: nat, w: World) => good(w) && Undoing(sd, f, db, unspent, i, w);
    forall i: nat, w | i < |steps| && undoing(i + 1, w)
      ensures var o := Undo(steps[i], w);
              undoing(i, o.world) && (!f.reverseCharge && !f.reverseCredit ==> o.ok)
    {
      UndoAdvances(sd, f, db, steps, unspent, good, i, w);
    }
    forall i: nat, w | i < |steps| && doing(i, w)
      ensures var o := steps[i].execute(w); if o.ok then doing(i + 1, o.world) else undoing(i, o.world)
    {
      StepLeads(sd, f, db, steps, unspent, good, i, w);
    }
  }

  lemma EndOfRun(sd: SettlementData, f: Faults, db: Db, steps: seq<Step<World>>, unspent: bool, good: World -> bool)
    requires Kept(sd, f, db, steps, unspent, good)
    ensures EndsAsPlanned(sd, f, db, steps, unspent)
  {
    var doing, undoing := Phases(sd, f, db, steps, unspent, good);
    SagaRule(steps, Start(sd, db), doing, undoing);
    ReportsAsPlanned(sd, f, db, steps, unspent, good);
  }

  lemma {:induction false} StepsAreKept(sd: SettlementData, f: Faults, db: Db, steps: seq<Step<World>>, unspent: bool,
                                        good: World -> bool, i: nat)
    requires Kept(sd, f, db, steps, unspent, good) && i <= FailingStep(sd, f)
    ensures good(Fold(steps, i, Start(sd, db))) && AtStep(sd, db, i, Fold(steps, i, Start(sd, db)))
    ensures SucceedUpTo(steps, Start(sd, db), i)
  {
    if i > 0 {
      StepsAreKept(sd, f, db, steps, unspent, good, i - 1);
      var w := Fold(steps, i - 1, Start(sd, db));
      assert StepEffect(sd, f, db, i - 1, w, steps[i - 1].execute(w));
    }
  }

  lemma {:induction false} UndosAreKept(sd: SettlementData, f: Faults, db: Db, steps: seq<Step<World>>, unspent: bool,
                                        good: World -> bool, n: nat, i: nat, w: World)
    requires Kept(sd, f, db, steps, unspent, good) && i < n < 4 && good(w) && AtUndo(sd, f, db, unspent, n, w)
    ensures good(BeforeUndo(steps, n, i, w)) && AtUndo(sd, f, db, unspent, i + 1, BeforeUndo(steps, n, i, w))
    ensures CompensationFails(steps, n, i, w) <==> if i == 0 then f.reverseCharge else i == 1 && f.reverseCredit
    decreases n
  {
    if i < n - 1 {
      UndoAdvances(sd, f, db, steps, unspent, good, n - 1, w);
      UndosAreKept(sd, f, db, steps, unspent, good, n - 1, i, Undo(steps[n - 1], w).world);
    } else {
      assert Undoable(i, w);
      assert UndoEffect(sd, f, unspent, i, w, Undo(steps[i], w));
    }
  }

  lemma ReportsAsPlanned(sd: SettlementData, f: Faults, db: Db, steps: seq<Step<World>>, unspent: bool, good: World -> bool)
    requires Kept(sd, f, db, steps, unspent, good)
    ensures Outline(steps, Start(sd, db)) == PlannedReport(sd, f)
  {
    var n, w0 := FailingStep(sd, f), Start(sd, db);
    StepsAreKept(sd, f, db, steps, unspent, good, n);
    ReportExactlyWhen(steps, w0, n);
    if n < 4 {
      var w := Fold(steps, n, w0);
      assert StepEffect(sd, f, db, n, w, steps[n].execute(w));
      StepLeads(sd, f, db, steps, unspent, good, n, w);
      var failed := Fold(steps, n + 1, w0);
      forall i: nat | i < n
        ensures CompensationFails(steps, n, i, failed) <==> if i == 0 then f.reverseCharge else i == 1 && f.reverseCredit
      {
        UndosAreKept(sd, f, db, steps, unspent, good, n, i, failed);
      }
      if n >= 1 && f.reverseCharge {
        assert CompensationFails(steps, n, 0, failed);
      } else if n >= 2 && f.reverseCredit {
        assert CompensationFails(steps, n, 1, failed);
      }
    }
  }

  lemma StepLeads(sd: SettlementData, f: Faults, db: Db, steps: seq<Step<World>>, unspent: bool, good: World -> bool, i: nat, w: World)
    requires Kept(sd, f, db, steps, unspent, good) && i < 4 && good(w) && AtStep(sd, db, i, w) && NoFaultBefore(sd, f, i)
    ensures var o := steps[i].execute(w);
            && good(o.world)
            && (o.ok ==> AtStep(sd, db, i + 1, o.world) && NoFaultBefore(sd, f, i + 1))
            && (!o.ok ==> AtUndo(sd, f, db, unspent, i, o.world))
  {
    assert StepEffect(sd, f, db, i, w, steps[i].execute(w));
  }

  /** All or restored. An isolated run completes exactly when no step fails; then the price has
      moved from the winner's held balance to the seller, every loser hold is released and the
      events are out. Otherwise no event is out, and the charge and the credit are undone unless
      their own reversal fails; and if the money of earlier releases is unspent, exactly the
      holds of ReleasedInTheEnd are released. */
  lemma AllOrRestored(sd: SettlementData, f: Faults, db: Db)
    requires Settleable(sd, db) && SellerSafe(sd, db)
    ensures Tracks(sd, db, Final(Saga(sd, f), Start(sd, db)))
    ensures EndsAsPlanned(sd, f, db, Saga(sd, f), EarlierUnspent(sd, db))
  {
    var unspent := EarlierUnspent(sd, db);
    var good := GoodIsKept(sd, f, db, unspent);
    AlwaysGood(sd, f, db, Saga(sd, f), unspent, good);
    EndOfRun(sd, f, db, Saga(sd, f), unspent, good);
  }

  /** A failed run whose charge and credit are reversed has restored wallets and holds exactly when,
      in the end, the same loser holds are released as before the run. */
  lemma RestoredExactlyWhen(sd: SettlementData, f: Faults, db: Db)
    requires Settleable(sd, db) && EarlierUnspent(sd, db) && !NoFaultBefore(sd, f, 4)
    requires !f.reverseCharge && !f.reverseCredit
    ensures var end := Final(Saga(sd, f), Start(sd, db));
            && Outline(Saga(sd, f), Start(sd, db)).StepFailed?
            && ((end.db.wallets, end.db.holds) == (db.wallets, db.holds) <==>
                ReleasedInTheEnd(sd, f, db) == Earlier(sd, db))
  {
    UnspentIsSafe(sd, db);
    AllOrRestored(sd, f, db);
    RestoredIffReleased(sd, db, Final(Saga(sd, f), Start(sd, db)));
  }

  lemma RestoredIffReleased(sd: SettlementData, db: Db, w: World)
    requires Settleable(sd, db) && Tracks(sd, db, w) && !w.charged && !w.credited
    ensures (w.db.wallets, w.db.holds) == (db.wallets, db.holds) <==> w.released == Earlier(sd, db)
  {
    if w.released == Earlier(sd, db) {
      forall h | h in db.holds ensures w.db.holds[h] == db.holds[h] {
        assert h in sd.losers ==> db.holds[h].status.Active? || db.holds[h].status.Released?;
      }
      forall id | id in db.wallets ensures w.db.wallets[id] == db.wallets[id] {
        assert w.db.wallets[id] == WalletAt(sd, db, false, false, Earlier(sd, db), id);
      }
      assert w.db.wallets == db.wallets && w.db.holds == db.holds;
    }
    if w.db.holds == db.holds {
      forall h ensures h in w.released <==> h in Earlier(sd, db) {
        assert h in w.released ==> h in Losers(sd);
        assert h in sd.losers ==> h in db.holds && w.db.holds[h].status == db.holds[h].status;
      }
      assert w.released == Earlier(sd, db);
    }
  }

  /** If the losers' holds are all active, that is: unless release_loser_holds fails after its first hold. */
  lemma RestoredUnlessHalfReleased(sd: SettlementData, f: Faults, db: Db)
    requires Settleable(sd, db) && CompensationsSucceed(f) && !NoFaultBefore(sd, f, 4)
    requires Earlier(sd, db) == {}
    ensures var end := Final(Saga(sd, f), Start(sd, db));
            (end.db.wallets, end.db.holds) == (db.wallets, db.holds) <==>
            f.charge || f.credit || FirstFault(f.release, 0, |sd.losers|) in {0, |sd.losers|}
  {
    NothingEarlier(sd, db);
    RestoredExactlyWhen(sd, f, db);
    RetakenExactly(sd, f.reHold, 0);
    var k := FirstFault(f.release, 0, |sd.losers|);
    if 0 < k {
      assert sd.losers[0] in sd.losers[..k];
      assert sd.losers[0] in ReleasedBeforeFault(sd, f, db);
    }
    forall h | h in Losers(sd) ensures h in Retaken(sd, f.reHold, 0) {
      var n: nat :| n < |sd.losers| && sd.losers[n] == h;
      assert !f.reHold(n);
    }
  }

  lemma NothingEarlier(sd: SettlementData, db: Db)
    requires Settleable(sd, db) && Earlier(sd, db) == {}
    ensures EarlierUnspent(sd, db)
  {
  }

  /** The money in the wallets after a run is what it was, except when exactly one of the
      charge and the credit still stands because its reversal failed. */
  lemma MoneyAfterARun(sd: SettlementData, f: Faults, db: Db)
    requires Settleable(sd, db) && SellerSafe(sd, db)
    ensures var end := Final(Saga(sd, f), Start(sd, db));
            var kept := !NoFaultBefore(sd, f, 4) && !f.charge;
            TotalMoney(end.db.wallets) == TotalMoney(db.wallets)
            - (if kept && f.reverseCharge then sd.amount else 0)
            + (if kept && !f.credit && f.reverseCredit then sd.amount else 0)
  {
    AllOrRestored(sd, f, db);
    TrackedTotal(sd, db, Final(Saga(sd, f), Start(sd, db)));
  }

  // ---- When the clamp at zero creates money ----

  /** Only the publication fails, and of the compensations just the re-holds of the holds in kept. */
  function KeepReleased(sd: SettlementData, kept: set<HoldId>): Faults {
    Faults(false, false, (k: nat) => false, true, false, false, (k: nat) => k < |sd.losers| && sd.losers[k] in kept)
  }

  /** In the seller's wallet the holds of kept, and those not come to yet, are released. */
  ghost predicate SellersReleased(sd: SettlementData, db: Db, kept: set<HoldId>, i: nat, w: World)
    requires HasWallet(db, sd.seller) && i <= |sd.losers|
  {
    forall h | h in sd.losers && h in db.holds && db.holds[h].wallet == db.walletOf[sd.seller] ::
      h in w.released <==> h in kept || h !in sd.losers[..i]
  }

  /** A re-hold in the seller's wallet that the kept holds leave room for goes through. */
  lemma SellerCovers(sd: SettlementData, db: Db, kept: set<HoldId>, i: nat, w: World, h: HoldId)
    requires Settleable(sd, db) && Good(sd, db, w) && w.credited && i <= |sd.losers|
    requires kept <= Losers(sd) && -sd.amount <= Spare(sd, db, kept)
    requires SellersReleased(sd, db, kept, i, w)
    requires h in w.released && h !in kept && IsLoser(sd, db, h) && db.holds[h].wallet == db.walletOf[sd.seller]
    ensures db.holds[h].amount <= w.db.wallets[db.walletOf[sd.seller]].available
  {
    var id := db.walletOf[sd.seller];
    MovedAfter(db.holds, kept, h, id);
    forall k | k in kept + {h} && k in db.holds && db.holds[k].wallet == id ensures k in w.released {
      assert k in Losers(sd);
    }
    MovedLe(db.holds, kept + {h}, w.released, id);
    assert w.db.wallets[id] == WalletAt(sd, db, w.charged, w.credited, w.released, id);
  }

  lemma {:induction false} ReHoldAllBut(sd: SettlementData, db: Db, kept: set<HoldId>, i: nat, w: World)
    requires Settleable(sd, db) && Good(sd, db, w) && w.charged && w.credited && i <= |sd.losers|
    requires kept <= Losers(sd) && -sd.amount <= Spare(sd, db, kept)
    requires SellersReleased(sd, db, kept, i, w)
    ensures var w' := ReHoldLosers(sd, KeepReleased(sd, kept).reHold, i, w);
            Good(sd, db, w') && w'.charged && w'.credited && SellersReleased(sd, db, kept, |sd.losers|, w')
    decreases |sd.losers| - i
  {
    hide SumOver;
    if i < |sd.losers| {
      var h := sd.losers[i];
      var fault := KeepReleased(sd, kept).reHold;
      assert fault(i) <==> h in kept;
      var w' := ReHoldOne(h, fault(i), w);
      SettleableFacts(sd, db);
      ReHoldNext(sd, db, h, fault(i), false, w);
      assert sd.losers[..i + 1] == sd.losers[..i] + [h];
      if h !in kept && h in w.released && db.holds[h].wallet == db.walletOf[sd.seller] {
        SellerCovers(sd, db, kept, i, w, h);
        ReHoldTracks(sd, db, h, w);
      }
      ReHoldAllBut(sd, db, kept, i + 1, w');
    }
  }

  /** Reversing the credit for a seller who is short of it by -spare creates so much money. */
  lemma ClampedReversal(sd: SettlementData, db: Db, kept: set<HoldId>, w: World)
    requires Settleable(sd, db) && Good(sd, db, w) && w.charged && w.credited
    requires kept <= Losers(sd) && -sd.amount <= Spare(sd, db, kept) < 0
    requires SellersReleased(sd, db, kept, |sd.losers|, w)
    ensures var o := ReverseCreditStep(sd, false, w);
            && o.ok && o.world == CommitUndo(w, o.world.db, true, false, w.released)
            && o.world.db.walletOf == db.walletOf && Balanced(o.world.db.wallets)
            && TotalMoney(o.world.db.wallets) + sd.amount == TotalMoney(db.wallets) - Spare(sd, db, kept)
  {
    hide SumOver;
    var id := db.walletOf[sd.seller];
    assert sd.losers[..|sd.losers|] == sd.losers;
    MovedLe(db.holds, kept, w.released, id);
    MovedLe(db.holds, w.released, kept, id);
    var row := w.db.wallets[id];
    assert row == WalletAt(sd, db, w.charged, w.credited, w.released, id);
    assert row.available == Spare(sd, db, kept) + sd.amount;
    TrackedTotal(sd, db, w);
    TotalMoneyAfter(w.db.wallets, id, Wallet(0, row.held));
  }

  /** The run up to the failing publication. */
  lemma UpToPublication(sd: SettlementData, f: Faults, db: Db) returns (w: World)
    requires Settleable(sd, db) && NoFaultBefore(sd, f, 3) && f.publish
    ensures Good(sd, db, w) && AtStep(sd, db, 3, w) && Forward(Saga(sd, f), 0, Start(sd, db)) == (w, 3)
  {
    var steps := Saga(sd, f);
    var w0 := Start(sd, db);
    StartIsGood(sd, db);
    StepIsGood(sd, f, db, 0, w0);
    var w1 := steps[0].execute(w0).world;
    StepIsGood(sd, f, db, 1, w1);
    var w2 := steps[1].execute(w1).world;
    StepIsGood(sd, f, db, 2, w2);
    w := steps[2].execute(w2).world;
    assert steps[3].execute(w) == Outcome(w, false);
    assert Forward(steps, 3, w) == (w, 3);
    assert Forward(steps, 2, w2) == Forward(steps, 3, w);
    assert Forward(steps, 1, w1) == Forward(steps, 2, w2);
    assert Forward(steps, 0, w0) == Forward(steps, 1, w1);
  }

  lemma BackFromPublication(sd: SettlementData, f: Faults, w: World)
    ensures var w2 := ReHoldLosers(sd, f.reHold, 0, w);
            var w1 := ReverseCreditStep(sd, f.reverseCredit, w2).world;
            Backward(Saga(sd, f), 3, w).0 == ReverseChargeStep(sd, f.reverseCharge, w1).world
  {
    var steps := Saga(sd, f);
    var w2 := Undo(steps[2], w).world;
    var w1 := Undo(steps[1], w2).world;
    assert Backward(steps, 3, w).0 == Backward(steps, 2, w2).0;
    assert Backward(steps, 2, w2).0 == Backward(steps, 1, w1).0;
    assert Backward(steps, 1, w1).0 == Backward(steps, 0, Undo(steps[0], w1).world).0;
  }

  /** A run in which only the publication fails, with its compensations one after the other. */
  lemma PublicationFails(sd: SettlementData, f: Faults, db: Db) returns (w: World)
    requires Settleable(sd, db) && NoFaultBefore(sd, f, 3) && f.publish
    ensures Good(sd, db, w) && AtStep(sd, db, 3, w)
    ensures var w2 := ReHoldLosers(sd, f.reHold, 0, w);
            var w1 := ReverseCreditStep(sd, f.reverseCredit, w2).world;
            Final(Saga(sd, f), Start(sd, db)) == ReverseChargeStep(sd, f.reverseCharge, w1).world
  {
    w := UpToPublication(sd, f, db);
    BackFromPublication(sd, f, w);
  }

  lemma NoReleaseFault(sd: SettlementData, kept: set<HoldId>)
    ensures NoFaultBefore(sd, KeepReleased(sd, kept), 3)
  {
    var f := KeepReleased(sd, kept);
    assert forall k: nat :: !f.release(k);
  }

  /** If some loser holds, kept released, leave the seller short, a run in which just their
      re-holds and the publication fail ends with more money than there was. */
  lemma ClampCreatesMoney(sd: SettlementData, db: Db, kept: set<HoldId>)
    requires Settleable(sd, db) && kept <= Losers(sd) && -sd.amount <= Spare(sd, db, kept) < 0
    ensures var end := Final(Saga(sd, KeepReleased(sd, kept)), Start(sd, db));
            && !AllSafe(sd, db, end) && !end.charged && !end.credited
            && TotalMoney(end.db.wallets) == TotalMoney(db.wallets) - Spare(sd, db, kept)
  {
    var f := KeepReleased(sd, kept);
    NoReleaseFault(sd, kept);
    var w := PublicationFails(sd, f, db);
    assert SellersReleased(sd, db, kept, 0, w);
    ReHoldAllBut(sd, db, kept, 0, w);
    ClampAndReverse(sd, db, kept, ReHoldLosers(sd, f.reHold, 0, w));
  }

  lemma ClampAndReverse(sd: SettlementData, db: Db, kept: set<HoldId>, w: World)
    requires Settleable(sd, db) && Good(sd, db, w) && w.charged && w.credited
    requires kept <= Losers(sd) && -sd.amount <= Spare(sd, db, kept) < 0
    requires SellersReleased(sd, db, kept, |sd.losers|, w)
    ensures var end := ReverseChargeStep(sd, false, ReverseCreditStep(sd, false, w).world).world;
            && !AllSafe(sd, db, end) && !end.charged && !end.credited
            && TotalMoney(end.db.wallets) == TotalMoney(db.wallets) - Spare(sd, db, kept)
  {
    SettleableFacts(sd, db);
    ClampedReversal(sd, db, kept, w);
    var w1 := ReverseCreditStep(sd, false, w).world;
    WalletsStay(sd, db, w);
    ReversedCharge(sd, db, w1);
    var end := ReverseChargeStep(sd, false, w1).world;
    assert end.history[|w.history|] == Snapshot(w1.db, true, false, true);
    assert !Safe(sd, db, end.history[|w.history|]);
  }

  lemma WalletsStay(sd: SettlementData, db: Db, w: World)
    requires HasWallet(db, sd.winner) && HasWallet(db, sd.seller) && Tracks(sd, db, w)
    ensures HasWallet(ReverseCreditStep(sd, false, w).world.db, sd.winner)
  {
  }

  lemma ReversedCharge(sd: SettlementData, db: Db, w: World)
    requires HasWallet(db, sd.winner) && w.db.walletOf == db.walletOf && HasWallet(w.db, sd.winner)
    requires Balanced(w.db.wallets) && 0 < sd.amount
    ensures var o := ReverseChargeStep(sd, false, w);
            && o.world == CommitUndo(w, o.world.db, false, w.credited, w.released)
            && TotalMoney(o.world.db.wallets) == TotalMoney(w.db.wallets) + sd.amount
  {
    var id := db.walletOf[sd.winner];
    var row := w.db.wallets[id];
    TotalMoneyAfter(w.db.wallets, id, Wallet(row.available, row.held + sd.amount));
  }

  /** Conservation holds in every run exactly when no choice of loser holds that could stay released
      leaves the seller short of the credit. */
  lemma MoneyIsConservedExactlyWhen(sd: SettlementData, db: Db)
    requires Settleable(sd, db)
    ensures (forall f :: AllSafe(sd, db, Final(Saga(sd, f), Start(sd, db)))) <==> SellerSafe(sd, db)
  {
    if SellerSafe(sd, db) {
      forall f ensures AllSafe(sd, db, Final(Saga(sd, f), Start(sd, db))) {
        MoneyIsConserved(sd, f, db);
      }
    } else {
      var kept: set<HoldId> :| kept <= Losers(sd) && -sd.amount <= Spare(sd, db, kept) < 0;
      ClampCreatesMoney(sd, db, kept);
    }
  }

  // ---- Audit entries and events ----

  /** after follows from before by a change of one wallet that the entry documents; the entry is
      written exactly if its key is new. */
  ghost predicate Documents(before: Db, after: Db, e: Entry) {
    && e.wallet in before.wallets && e.wallet in after.wallets
    && (forall id | id in before.wallets && id != e.wallet :: id in after.wallets && after.wallets[id] == before.wallets[id])
    && (after.ledger == before.ledger + [e] <==> !KeyUsed(before.ledger, e.key))
    && (after.ledger == before.ledger <==> KeyUsed(before.ledger, e.key))
    && var (row, row') := (before.wallets[e.wallet], after.wallets[e.wallet]);
    match e.op
    case OpCredit => e.before == row.available && e.after == row'.available == e.before + e.amount
    case _ => e.before == row.held && e.after == row'.held == e.before - e.amount
  }

  /** Every forward transaction of the saga documents its change under a key of the auction. */
  lemma ForwardIsDocumented(sd: SettlementData, h: HoldId, db: Db)
    ensures ChargeTx(sd, db).Some? ==>
              exists e :: Documents(db, ChargeTx(sd, db).value, e)
                          && (e.key, e.op, e.amount) == (SagaCharge(sd.auction, sd.winner), OpCharge, sd.amount)
    ensures CreditTx(sd, db).Some? ==>
              exists e :: Documents(db, CreditTx(sd, db).value, e)
                          && (e.key, e.op, e.amount) == (SagaCredit(sd.auction, sd.seller), OpCredit, sd.amount)
    ensures ReleaseTx(sd, h, db).Some? ==>
              exists e :: Documents(db, ReleaseTx(sd, h, db).value, e)
                          && (e.key, e.op, e.amount) == (SagaRelease(sd.auction, h), OpRelease, db.holds[h].amount)
  {
    if ChargeTx(sd, db).Some? {
      var id := db.walletOf[sd.winner];
      var held := db.wallets[id].held;
      assert Documents(db, ChargeTx(sd, db).value,
                       Entry(SagaCharge(sd.auction, sd.winner), id, OpCharge, sd.amount, held, held - sd.amount));
    }
    if CreditTx(sd, db).Some? {
      var id := db.walletOf[sd.seller];
      var available := db.wallets[id].available;
      assert Documents(db, CreditTx(sd, db).value,
                       Entry(SagaCredit(sd.auction, sd.seller), id, OpCredit, sd.amount, available, available + sd.amount));
    }
    if ReleaseTx(sd, h, db).Some? {
      var (id, amount) := (db.holds[h].wallet, db.holds[h].amount);
      var held := db.wallets[id].held;
      assert Documents(db, ReleaseTx(sd, h, db).value,
                       Entry(SagaRelease(sd.auction, h), id, OpRelease, amount, held, held - amount));
    }
  }

  /** No compensation does: the ledger keeps claiming what was undone. */
  lemma CompensationsAreUndocumented(sd: SettlementData, h: HoldId, db: Db)
    requires 0 < sd.amount && forall k | k in db.holds :: 0 < db.holds[k].amount
    ensures var t := ReverseChargeTx(sd, db); t.Some? ==> t.value.ledger == db.ledger && t.value.wallets != db.wallets
    ensures var t := ReHoldTx(h, db); t.Some? ==> t.value.ledger == db.ledger && t.value.wallets != db.wallets
    ensures var t := ReverseCreditTx(sd, db);
            t.Some? ==> && t.value.ledger == db.ledger
                        && (t.value.wallets != db.wallets <==> db.wallets[db.walletOf[sd.seller]].available != 0)
  {
    if ReverseChargeTx(sd, db).Some? {
      var id := db.walletOf[sd.winner];
      assert ReverseChargeTx(sd, db).value.wallets[id] != db.wallets[id];
    }
    if ReHoldTx(h, db).Some? {
      var id := db.holds[h].wallet;
      assert ReHoldTx(h, db).value.wallets[id] != db.wallets[id];
    }
    if ReverseCreditTx(sd, db).Some? {
      var id := db.walletOf[sd.seller];
      var after := ReverseCreditTx(sd, db).value.wallets;
      if db.wallets[id].available == 0 {
        assert after[id] == db.wallets[id];
        assert after == db.wallets;
      } else {
        assert after[id] != db.wallets[id];
      }
    }
  }

  /** Publishing puts out the two events of the auction that are not there yet, and only those. */
  lemma EventsAreOut(sd: SettlementData, db: Db)
    ensures var settled, completed := AuctionSettled(sd.auction, sd.winner, sd.seller, sd.amount),
                                      PaymentCompleted(sd.auction, sd.winner, sd.seller, sd.amount);
            var isOut := (e: Event) => exists i :: 0 <= i < |db.outbox| && SameEventKey(db.outbox[i], e);
            PublishTx(sd, db).outbox ==
            db.outbox + (if isOut(settled) then [] else [settled]) + (if isOut(completed) then [] else [completed])
  {
    var settled, completed := AuctionSettled(sd.auction, sd.winner, sd.seller, sd.amount),
                              PaymentCompleted(sd.auction, sd.winner, sd.seller, sd.amount);
    var first := Emit(db.outbox, settled);
    assert forall i :: 0 <= i < |db.outbox| ==> first[i] == db.outbox[i];
    assert !SameEventKey(settled, completed);
  }

  // ---- The saga as it runs ----

  /** Runs the settlement saga for tables in which all bookkeeping inserts succeed. */
  method Settle(sd: SettlementData, f: Faults, db: Db) returns (report: Report, end: World)
    requires Settleable(sd, db) && SellerSafe(sd, db)
    ensures report == PlannedReport(sd, f) && report.Succeeded? == NoFaultBefore(sd, f, 4)
    ensures Tracks(sd, db, end) && AllSafe(sd, db, end)
    ensures report.Succeeded? ==> end.charged && end.credited && end.released == Losers(sd)
    ensures !report.Succeeded? ==>
              && (EarlierUnspent(sd, db) ==> end.released == ReleasedInTheEnd(sd, f, db))
              && (!f.reverseCharge && !f.reverseCredit ==> !end.charged && !end.credited)
  {
    var saga := Saga(sd, f);
    var orchestrator := new Orchestrator(Start(sd, db));
    report := orchestrator.Execute(saga, true, |saga|);
    end := orchestrator.world;
    AllOrRestored(sd, f, db);
    MoneyIsConserved(sd, f, db);
  }

  /** The step functions as they change the tables, one database transaction each or one per hold. */
  class SettlementSteps {
    var world: World

    constructor (w: World)
      ensures world == w
    {
      world := w;
    }

    method ChargeWinner(sd: SettlementData, fault: bool) returns (ok: bool)
      modifies this
      ensures Outcome(world, ok) == ChargeStep(sd, fault, old(world))
    {
      var tx := world.db;
      if !HasWallet(tx, sd.winner) {
        return false;
      }
      var id := tx.walletOf[sd.winner];
      var row := tx.wallets[id];
      var newHeld := row.held - sd.amount;
      if newHeld < 0 {
        return false;
      }
      var updated := UpdateBalance(tx, id, row.available, newHeld);
      if updated.None? {
        return false;
      }
      tx := SetStatus(updated.value, sd.winnerHold, Charged);
      var entry := Entry(SagaCharge(sd.auction, sd.winner), id, OpCharge, sd.amount, row.held, newHeld);
      tx := tx.(ledger := Insert(tx.ledger, entry));
      if fault {
        return false;
      }
      world := Commit(world, tx, true, world.credited, world.released);
      return true;
    }

    method ReverseCharge(sd: SettlementData, fault: bool) returns (ok: bool)
      modifies this
      ensures Outcome(world, ok) == ReverseChargeStep(sd, fault, old(world))
    {
      var tx := world.db;
      if !HasWallet(tx, sd.winner) {
        return false;
      }
      var id := tx.walletOf[sd.winner];
      var row := tx.wallets[id];
      var updated := UpdateBalance(tx, id, row.available, row.held + sd.amount);
      if updated.None? {
        return false;
      }
      tx := SetStatus(updated.value, sd.winnerHold, Active);
      if fault {
        return false;
      }
      world := CommitUndo(world, tx, false, world.credited, world.released);
      return true;
    }

    method CreditSeller(sd: SettlementData, fault: bool) returns (ok: bool)
      modifies this
      ensures Outcome(world, ok) == CreditStep(sd, fault, old(world))
    {
      var tx := world.db;
      if !HasWallet(tx, sd.seller) {
        return false;
      }
      var id := tx.walletOf[sd.seller];
      var row := tx.wallets[id];
      var newAvailable := row.available + sd.amount;
      var updated := UpdateBalance(tx, id, newAvailable, row.held);
      if updated.None? {
        return false;
      }
      tx := updated.value;
      var entry := Entry(SagaCredit(sd.auction, sd.seller), id, OpCredit, sd.amount, row.available, newAvailable);
      tx := tx.(ledger := Insert(tx.ledger, entry));
      if fault {
        return false;
      }
      world := Commit(world, tx, world.charged, true, world.released);
      return true;
    }

    method ReverseCredit(sd: SettlementData, fault: bool) returns (ok: bool)
      modifies this
      ensures Outcome(world, ok) == ReverseCreditStep(sd, fault, old(world))
    {
      var tx := world.db;
      if !HasWallet(tx, sd.seller) {
        return false;
      }
      var id := tx.walletOf[sd.seller];
      var row := tx.wallets[id];
      var newAvailable := row.available - sd.amount;
      if newAvailable < 0 {
        newAvailable := 0;
      }
      var updated := UpdateBalance(tx, id, newAvailable, row.held);
      if updated.None? || fault {
        return false;
      }
      world := CommitUndo(world, updated.value, world.charged, false, world.released);
      return true;
    }

    method ReleaseLoserHolds(sd: SettlementData, fault: nat -> bool) returns (ok: bool)
      modifies this
      ensures Outcome(world, ok) == ReleaseLosers(sd, fault, 0, old(world))
    {
      for i := 0 to |sd.losers|
        invariant ReleaseLosers(sd, fault, i, world) == ReleaseLosers(sd, fault, 0, old(world))
      {
        var released := ReleaseOneHold(sd, sd.losers[i], fault(i));
        if !released {
          return false;
        }
      }
      return true;
    }

    method ReleaseOneHold(sd: SettlementData, h: HoldId, fault: bool) returns (ok: bool)
      modifies this
      ensures Outcome(world, ok) == ReleaseOne(sd, h, fault, old(world))
    {
      var tx := world.db;
      if fault || h !in tx.holds {
        return false;
      }
      var hold := tx.holds[h];
      if hold.status != Active {
        return true;
      }
      if hold.wallet !in tx.wallets {
        return false;
      }
      var row := tx.wallets[hold.wallet];
      var newAvailable, newHeld := row.available + hold.amount, row.held - hold.amount;
      var updated := UpdateBalance(tx, hold.wallet, newAvailable, newHeld);
      if updated.None? {
        return false;
      }
      tx := SetStatus(updated.value, h, Released);
      var entry := Entry(SagaRelease(sd.auction, h), hold.wallet, OpRelease, hold.amount, row.held, newHeld);
      tx := tx.(ledger := Insert(tx.ledger, entry));
      world := Commit(world, tx, world.charged, world.credited, world.released + {h});
      return true;
    }

    method ReverseRelease(sd: SettlementData, fault: nat -> bool) returns (ok: bool)
      modifies this
      ensures world == ReHoldLosers(sd, fault, 0, old(world)) && ok
    {
      for i := 0 to |sd.losers|
        invariant ReHoldLosers(sd, fault, i, world) == ReHoldLosers(sd, fault, 0, old(world))
      {
        ReHold(sd.losers[i], fault(i));
      }
      return true;
    }

    method ReHold(h: HoldId, fault: bool)
      modifies this
      ensures world == ReHoldOne(h, fault, old(world))
    {
      var tx := world.db;
      if fault || h !in tx.holds {
        return;
      }
      var hold := tx.holds[h];
      if hold.status != Released || hold.wallet !in tx.wallets {
        return;
      }
      var row := tx.wallets[hold.wallet];
      var updated := UpdateBalance(tx, hold.wallet, row.available - hold.amount, row.held + hold.amount);
      if updated.Some? {
        tx := SetStatus(updated.value, h, Active);
        world := CommitUndo(world, tx, world.charged, world.credited, world.released - {h});
      }
    }

    method PublishSettlementEvents(sd: SettlementData, fault: bool) returns (ok: bool)
      modifies this
      ensures Outcome(world, ok) == PublishStep(sd, fault, old(world))
    {
      var tx := world.db;
      tx := tx.(outbox := Emit(tx.outbox, AuctionSettled(sd.auction, sd.winner, sd.seller, sd.amount)));
      tx := tx.(outbox := Emit(tx.outbox, PaymentCompleted(sd.auction, sd.winner, sd.seller, sd.amount)));
      if fault {
        return false;
      }
      world := Commit(world, tx, world.charged, world.credited, world.released);
      return true;
    }
  }
}
