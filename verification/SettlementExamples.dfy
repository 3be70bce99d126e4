/** Tables on which the settlement saga does not do what its documentation says. */
module SettlementExamples {
  import opened Sagas
  import opened Settlement
  import opened Sums
  import opened Tables

  // ---- Tables of two and three rows ----

  function TwoHolds(a: Hold, b: Hold): map<HoldId, Hold> {
    map[][1 := a][2 := b]
  }

  lemma ActiveOfTwo(a: Hold, b: Hold, id: WalletId)
    ensures ActiveHolds(TwoHolds(a, b), id) == HeldBy(a, id) + HeldBy(b, id)
  {
    ActiveHoldsAfter(map[], 1, a, id);
    ActiveHoldsAfter(map[][1 := a], 2, b, id);
  }

  lemma TotalOfTwo(a: Wallet, b: Wallet)
    ensures TotalMoney(map[][1 := a][2 := b]) == a.Total() + b.Total()
  {
    TotalMoneyAfter(map[], 1, a);
    TotalMoneyAfter(map[][1 := a], 2, b);
  }

  // ---- A release that fails half-way ----

  /** User 1 won at price from user 4; users 2 and 3 lost, with x and y on hold. */
  function TwoLosers(price: int): SettlementData {
    SettlementData(9, 1, 4, price, 1, [2, 3])
  }

  function LosersTables(price: int, x: int, y: int): Db {
    Db(map[1 := 1, 2 := 2, 3 := 3, 4 := 4],
       map[1 := Wallet(0, price), 2 := Wallet(0, x), 3 := Wallet(0, y), 4 := Wallet(0, 0)],
       TwoHolds(Hold(9, 1, 1, price, Active), Hold(9, 2, 2, x, Active))[3 := Hold(9, 3, 3, y, Active)], [], [])
  }

  /** The release of the second loser's hold fails, and nothing else. */
  function SecondReleaseFails(): Settlement.Faults {
    Settlement.Faults(false, false, (k: nat) => k == 1, false, false, false, (k: nat) => false)
  }

  lemma LosersHeld(price: int, x: int, y: int, id: WalletId)
    requires id in LosersTables(price, x, y).wallets
    ensures LosersTables(price, x, y).wallets[id].held == ActiveHolds(LosersTables(price, x, y).holds, id)
  {
    var holds := LosersTables(price, x, y).holds;
    ActiveOfTwo(holds[1], holds[2], id);
    ActiveHoldsAfter(TwoHolds(holds[1], holds[2]), 3, holds[3], id);
  }

  lemma LosersAreConsistent(price: int, x: int, y: int)
    requires 0 < price && 0 < x && 0 < y
    ensures Consistent(LosersTables(price, x, y))
  {
    hide SumOver, ActiveHolds;
    var db := LosersTables(price, x, y);
    forall id | id in db.wallets ensures 0 <= db.wallets[id].available && 0 <= db.wallets[id].held == ActiveHolds(db.holds, id) {
      LosersHeld(price, x, y, id);
    }
    forall h | h in db.holds
      ensures var row := db.holds[h];
              && row.wallet in db.wallets && 0 < row.amount
              && row.bidder in db.walletOf && db.walletOf[row.bidder] == row.wallet
    {
      assert h == 1 || h == 2 || h == 3;
    }
  }

  lemma LosersAreSettleable(price: int, x: int, y: int)
    requires 0 < price && 0 < x && 0 < y
    ensures Settleable(TwoLosers(price), LosersTables(price, x, y))
    ensures Earlier(TwoLosers(price), LosersTables(price, x, y)) == {}
  {
    hide Consistent;
    LosersAreConsistent(price, x, y);
  }

  lemma OneIsReleased(sd: SettlementData, db: Db)
    requires sd.losers == [2, 3] && Earlier(sd, db) == {}
    ensures var f := SecondReleaseFails();
            !NoFaultBefore(sd, f, 4) && CompensationsSucceed(f) && ReleasedInTheEnd(sd, f, db) == {2}
  {
    var f := SecondReleaseFails();
    assert f.release(1) && !f.release(0);
    assert FirstFault(f.release, 1, 2) == 1;
    assert FirstFault(f.release, 0, 2) == 1;
    assert sd.losers[..1] == [2];
  }

  lemma FailedRun(sd: SettlementData, f: Settlement.Faults, db: Db)
    requires Settleable(sd, db) && Earlier(sd, db) == {} && CompensationsSucceed(f) && !NoFaultBefore(sd, f, 4)
    ensures var end := Final(Saga(sd, f), Start(sd, db));
            && Outline(Saga(sd, f), Start(sd, db)).StepFailed?
            && Tracks(sd, db, end) && !end.charged && !end.credited && end.released == ReleasedInTheEnd(sd, f, db)
  {
    NothingEarlier(sd, db);
    UnspentIsSafe(sd, db);
    AllOrRestored(sd, f, db);
  }

  /** What any world with just that hold released looks like. */
  lemma OneReleased(sd: SettlementData, db: Db, h: HoldId, w: World)
    requires HasWallet(db, sd.winner) && HasWallet(db, sd.seller) && Earlier(sd, db) == {}
    requires Tracks(sd, db, w) && !w.charged && !w.credited && w.released == {h} && IsLoser(sd, db, h)
    ensures var (id, amount) := (db.holds[h].wallet, db.holds[h].amount);
            w.db.wallets[id] == Wallet(db.wallets[id].available + amount, db.wallets[id].held - amount)
    ensures w.db.holds[h] == db.holds[h].(status := Released)
  {
    var id := db.holds[h].wallet;
    assert {} + {h} == {h};
    MovedAfter(db.holds, {}, h, id);
    assert w.db.wallets[id] == WalletAt(sd, db, false, false, {h}, id);
  }

  /** All compensations succeed, and yet the first loser's hold stays released and its money available. */
  lemma HalfReleasedIsNotRestored(price: int, x: int, y: int)
    requires 0 < price && 0 < x && 0 < y
    ensures Settleable(TwoLosers(price), LosersTables(price, x, y)) && CompensationsSucceed(SecondReleaseFails())
    ensures var (steps, w) := (Saga(TwoLosers(price), SecondReleaseFails()), Start(TwoLosers(price), LosersTables(price, x, y)));
            && Outline(steps, w).StepFailed?
            && 2 in Final(steps, w).db.holds && Final(steps, w).db.holds[2].status == Released
            && 2 in Final(steps, w).db.wallets && Final(steps, w).db.wallets[2] == Wallet(x, 0)
  {
    hide SumOver, Moved, ActiveHolds;
      var (sd, db) := (TwoLosers(price), LosersTables(price, x, y));
    LosersAreSettleable(price, x, y);
    OneIsReleased(sd, db);
    FailedRun(sd, SecondReleaseFails(), db);
    OneReleased(sd, db, 2, Final(Saga(sd, SecondReleaseFails()), Start(sd, db)));
  }

  // ---- A clamp that creates money ----

  /** The seller, user 2, had bid on the own auction; that hold was released before, and its money is spent. */
  function SellerLost(price: int): SettlementData {
    SettlementData(9, 1, 2, price, 1, [2])
  }

  function SpentTables(price: int, spent: int): Db {
    Db(map[1 := 1, 2 := 2], map[][1 := Wallet(0, price)][2 := Wallet(0, 0)],
       TwoHolds(Hold(9, 1, 1, price, Active), Hold(9, 2, 2, spent, Released)), [], [])
  }

  lemma SpentIsSettleable(price: int, spent: int)
    requires 0 < price && 0 < spent
    ensures Settleable(SellerLost(price), SpentTables(price, spent))
  {
    var db := SpentTables(price, spent);
    forall id | id in db.wallets ensures db.wallets[id].held == ActiveHolds(db.holds, id) {
      ActiveOfTwo(db.holds[1], db.holds[2], id);
    }
  }

  lemma SellerIsShort(price: int, spent: int)
    ensures HasWallet(SpentTables(price, spent), 2) && Spare(SellerLost(price), SpentTables(price, spent), {}) == -spent
  {
    var db := SpentTables(price, spent);
    MovedAfter(db.holds, {}, 2, 2);
    assert Earlier(SellerLost(price), db) == {} + {2};
  }

  /** Only the publication fails, and the wallets hold what was spent once more. */
  lemma ClampAddsWhatWasSpent(price: int, spent: int)
    requires 0 < spent <= price
    ensures Settleable(SellerLost(price), SpentTables(price, spent)) && CompensationsSucceed(KeepReleased(SellerLost(price), {}))
    ensures var (steps, w) := (Saga(SellerLost(price), KeepReleased(SellerLost(price), {})),
                               Start(SellerLost(price), SpentTables(price, spent)));
            TotalMoney(w.db.wallets) == price && TotalMoney(Final(steps, w).db.wallets) == price + spent
  {
    SpentIsSettleable(price, spent);
    SellerIsShort(price, spent);
    TotalOfTwo(Wallet(0, price), Wallet(0, 0));
    ClampCreatesMoney(SellerLost(price), SpentTables(price, spent), {});
  }
}
