/** What each transaction of the settlement saga does to any tables whatsoever, when it reports
    success, and what a run that completes has done to them. */
module SettlementOutcomes {
  import opened Optional
  import opened Sagas
  import opened Settlement
  import opened Sums
  import opened Tables

  // ---- One transaction ----

  /** The wallets, but for the one of the user, are as they were; that one has the given row. */
  predicate OnlyWallet(before: map<WalletId, Wallet>, after: map<WalletId, Wallet>, id: WalletId, row: Wallet) {
    && after.Keys == before.Keys && id in before && after[id] == row
    && forall k | k in before && k != id :: after[k] == before[k]
  }

  /** The holds, but for h, are as they were; h, if it is there, has the given status. */
  predicate OnlyStatus(before: map<HoldId, Hold>, after: map<HoldId, Hold>, h: HoldId, status: HoldStatus) {
    && after.Keys == before.Keys
    && (h in before ==> after[h] == Hold(before[h].auction, before[h].bidder, before[h].wallet, before[h].amount, status))
    && forall k | k in before && k != h :: after[k] == before[k]
  }

  /** Everything a transaction does not touch. */
  predicate RestStays(before: Db, after: Db) {
    after.walletOf == before.walletOf && after.outbox == before.outbox
  }

  /** The entry is appended, unless its key was used. */
  predicate Logged(before: seq<Entry>, after: seq<Entry>, e: Entry) {
    after == if exists i :: 0 <= i < |before| && before[i].key == e.key then before else before + [e]
  }

  /** The row of a user that has a wallet. */
  function RowOf(db: Db, user: UserId): Wallet
    requires HasWallet(db, user)
  {
    db.wallets[db.walletOf[user]]
  }

  /** The winner is charged exactly if the held balance covers the price (no constraint of the row
      being violated already); otherwise nothing changes and the step fails. */
  lemma ChargesExactlyWhen(sd: SettlementData, fault: bool, w: World)
    ensures var o := ChargeStep(sd, fault, w);
            && (o.ok <==> && !fault && HasWallet(w.db, sd.winner)
                          && 0 <= RowOf(w.db, sd.winner).available && sd.amount <= RowOf(w.db, sd.winner).held)
            && (!o.ok ==> o.world == w)
            && (o.ok ==>
                  var (before, after, id) := (w.db, o.world.db, w.db.walletOf[sd.winner]);
                  var (available, held) := (before.wallets[id].available, before.wallets[id].held);
                  && OnlyWallet(before.wallets, after.wallets, id, Wallet(available, held - sd.amount))
                  && OnlyStatus(before.holds, after.holds, sd.winnerHold, Charged) && RestStays(before, after)
                  && Logged(before.ledger, after.ledger,
                            Entry(SagaCharge(sd.auction, sd.winner), id, OpCharge, sd.amount, held, held - sd.amount)))
  {
  }

  lemma ChargeIsReversedExactlyWhen(sd: SettlementData, fault: bool, w: World)
    ensures var o := ReverseChargeStep(sd, fault, w);
            && (o.ok <==> && !fault && HasWallet(w.db, sd.winner)
                          && 0 <= RowOf(w.db, sd.winner).available && 0 <= RowOf(w.db, sd.winner).held + sd.amount)
            && (!o.ok ==> o.world == w)
            && (o.ok ==>
                  var (before, after, id) := (w.db, o.world.db, w.db.walletOf[sd.winner]);
                  var (available, held) := (before.wallets[id].available, before.wallets[id].held);
                  && OnlyWallet(before.wallets, after.wallets, id, Wallet(available, held + sd.amount))
                  && OnlyStatus(before.holds, after.holds, sd.winnerHold, Active) && RestStays(before, after)
                  && after.ledger == before.ledger)
  {
  }

  lemma CreditsExactlyWhen(sd: SettlementData, fault: bool, w: World)
    ensures var o := CreditStep(sd, fault, w);
            && (o.ok <==> && !fault && HasWallet(w.db, sd.seller)
                          && 0 <= RowOf(w.db, sd.seller).available + sd.amount && 0 <= RowOf(w.db, sd.seller).held)
            && (!o.ok ==> o.world == w)
            && (o.ok ==>
                  var (before, after, id) := (w.db, o.world.db, w.db.walletOf[sd.seller]);
                  var (available, held) := (before.wallets[id].available, before.wallets[id].held);
                  && OnlyWallet(before.wallets, after.wallets, id, Wallet(available + sd.amount, held))
                  && after.holds == before.holds && RestStays(before, after)
                  && Logged(before.ledger, after.ledger,
                            Entry(SagaCredit(sd.auction, sd.seller), id, OpCredit, sd.amount, available, available + sd.amount)))
  {
  }

  lemma CreditIsReversedExactlyWhen(sd: SettlementData, fault: bool, w: World)
    ensures var o := ReverseCreditStep(sd, fault, w);
            && (o.ok <==> !fault && HasWallet(w.db, sd.seller) && 0 <= RowOf(w.db, sd.seller).held)
            && (!o.ok ==> o.world == w)
            && (o.ok ==>
                  var (before, after, id) := (w.db, o.world.db, w.db.walletOf[sd.seller]);
                  var (available, held) := (before.wallets[id].available, before.wallets[id].held);
                  && 0 <= after.wallets[id].available
                  && (sd.amount <= available ==> after.wallets[id].available == available - sd.amount)
                  && (available < sd.amount ==> after.wallets[id].available == 0)
                  && OnlyWallet(before.wallets, after.wallets, id, Wallet(after.wallets[id].available, held))
                  && after.holds == before.holds && RestStays(before, after) && after.ledger == before.ledger)
  {
  }

  /** A hold that is not active counts as released; an active one is, exactly if its wallet covers it. */
  lemma ReleasesExactlyWhen(sd: SettlementData, h: HoldId, fault: bool, w: World)
    ensures var o := ReleaseOne(sd, h, fault, w);
            var active := h in w.db.holds && w.db.holds[h].status == Active;
            && (o.ok <==> && !fault && h in w.db.holds
                          && (active ==>
                                var hold := w.db.holds[h];
                                && hold.wallet in w.db.wallets
                                && 0 <= w.db.wallets[hold.wallet].available + hold.amount
                                && hold.amount <= w.db.wallets[hold.wallet].held))
            && (!(o.ok && active) ==> o.world == w)
            && (o.ok && active ==>
                  var (before, after, hold) := (w.db, o.world.db, w.db.holds[h]);
                  var (available, held) := (before.wallets[hold.wallet].available, before.wallets[hold.wallet].held);
                  && OnlyWallet(before.wallets, after.wallets, hold.wallet, Wallet(available + hold.amount, held - hold.amount))
                  && OnlyStatus(before.holds, after.holds, h, Released) && RestStays(before, after)
                  && Logged(before.ledger, after.ledger,
                            Entry(SagaRelease(sd.auction, h), hold.wallet, OpRelease, hold.amount, held, held - hold.amount)))
  {
  }

  /** A released hold is taken back exactly if its wallet still has the money available. */
  lemma TakenBackExactlyWhen(h: HoldId, fault: bool, w: World)
    ensures var w' := ReHoldOne(h, fault, w);
            var taken := && !fault && h in w.db.holds && w.db.holds[h].status == Released
                         && w.db.holds[h].wallet in w.db.wallets
                         && w.db.holds[h].amount <= w.db.wallets[w.db.holds[h].wallet].available
                         && 0 <= w.db.wallets[w.db.holds[h].wallet].held + w.db.holds[h].amount;
            && (!taken ==> w' == w)
            && (taken ==>
                  var (before, after, hold) := (w.db, w'.db, w.db.holds[h]);
                  var (available, held) := (before.wallets[hold.wallet].available, before.wallets[hold.wallet].held);
                  && OnlyWallet(before.wallets, after.wallets, hold.wallet, Wallet(available - hold.amount, held + hold.amount))
                  && OnlyStatus(before.holds, after.holds, h, Active) && RestStays(before, after)
                  && after.ledger == before.ledger)
  {
  }

  lemma PublishesExactlyWhen(sd: SettlementData, fault: bool, w: World)
    ensures var o := PublishStep(sd, fault, w);
            && (o.ok <==> !fault) && (!o.ok ==> o.world == w)
            && (o.ok ==>
                  && o.world.db.wallets == w.db.wallets && o.world.db.holds == w.db.holds
                  && o.world.db.walletOf == w.db.walletOf && o.world.db.ledger == w.db.ledger
                  && forall e :: e in o.world.db.outbox <==>
                                 || e in w.db.outbox
                                 || (&& (forall i :: 0 <= i < |w.db.outbox| ==> !SameEventKey(w.db.outbox[i], e))
                                     && (|| e == AuctionSettled(sd.auction, sd.winner, sd.seller, sd.amount)
                                         || e == PaymentCompleted(sd.auction, sd.winner, sd.seller, sd.amount))))
  {
    EventsAreOut(sd, w.db);
  }

  // ---- The loops over the losers ----

  /** The world after the first n releases, whether they succeeded or not. */
  function AfterReleases(sd: SettlementData, fault: nat -> bool, w: World, n: nat): World
    requires n <= |sd.losers|
  {
    if n == 0 then w
    else ReleaseOne(sd, sd.losers[n - 1], fault(n - 1), AfterReleases(sd, fault, w, n - 1)).world
  }

  predicate ReleasesAt(sd: SettlementData, fault: nat -> bool, w: World, k: nat)
    requires k < |sd.losers|
  {
    ReleaseOne(sd, sd.losers[k], fault(k), AfterReleases(sd, fault, w, k)).ok
  }

  lemma FailedReleaseKeeps(sd: SettlementData, h: HoldId, fault: bool, w: World)
    ensures var o := ReleaseOne(sd, h, fault, w); !o.ok ==> o.world == w
  {
  }

  /** The loop goes on up to the first release that fails, and keeps what was released by then. */
  lemma {:induction false} StopsAtFirstFailure(sd: SettlementData, fault: nat -> bool, w: World, i: nat) returns (n: nat)
    requires i <= |sd.losers| && forall k :: 0 <= k < i ==> ReleasesAt(sd, fault, w, k)
    ensures var o := ReleaseLosers(sd, fault, i, AfterReleases(sd, fault, w, i));
            && i <= n <= |sd.losers| && (forall k :: 0 <= k < n ==> ReleasesAt(sd, fault, w, k))
            && o.world == AfterReleases(sd, fault, w, n) && (o.ok <==> n == |sd.losers|)
            && (n < |sd.losers| ==> !ReleasesAt(sd, fault, w, n))
    decreases |sd.losers| - i
  {
    hide ReleaseOne;
    n := i;
    if i < |sd.losers| {
      FailedReleaseKeeps(sd, sd.losers[i], fault(i), AfterReleases(sd, fault, w, i));
      if ReleasesAt(sd, fault, w, i) {
        n := StopsAtFirstFailure(sd, fault, w, i + 1);
      }
    }
  }

  lemma ReleasesAllExactlyWhen(sd: SettlementData, fault: nat -> bool, w: World)
    ensures ReleaseLosers(sd, fault, 0, w).ok <==> forall k :: 0 <= k < |sd.losers| ==> ReleasesAt(sd, fault, w, k)
  {
    var n := StopsAtFirstFailure(sd, fault, w, 0);
  }

  function AfterReHolds(sd: SettlementData, fault: nat -> bool, w: World, n: nat): World
    requires n <= |sd.losers|
  {
    if n == 0 then w
    else ReHoldOne(sd.losers[n - 1], fault(n - 1), AfterReHolds(sd, fault, w, n - 1))
  }

  /** Every loser hold is tried, in turn. */
  lemma {:induction false} TriesThemAll(sd: SettlementData, fault: nat -> bool, w: World, i: nat)
    requires i <= |sd.losers|
    ensures ReHoldLosers(sd, fault, i, AfterReHolds(sd, fault, w, i)) == AfterReHolds(sd, fault, w, |sd.losers|)
    decreases |sd.losers| - i
  {
    if i < |sd.losers| {
      TriesThemAll(sd, fault, w, i + 1);
    }
  }

  // ---- A run that completes ----

  /** The loser holds, from position i on, that there is something to release of. */
  function StillHeld(sd: SettlementData, holds: map<HoldId, Hold>, i: nat): set<HoldId>
    requires i <= |sd.losers|
  {
    set h | h in sd.losers[i..] && h in holds && holds[h].status.Active?
  }

  /** The money of the holds in released goes from held to available, and their status follows. */
  ghost predicate MovesAll(before: Db, after: Db, released: set<HoldId>) {
    && after.wallets.Keys == before.wallets.Keys
    && (forall id | id in before.wallets ::
          var moved := Moved(before.holds, released, id);
          after.wallets[id] == Wallet(before.wallets[id].available + moved, before.wallets[id].held - moved))
    && after.holds.Keys == before.holds.Keys
    && (forall h | h in before.holds ::
          after.holds[h] == if h in released then before.holds[h].(status := Released) else before.holds[h])
    && RestStays(before, after)
  }

  lemma MovedSame(a: map<HoldId, Hold>, b: map<HoldId, Hold>, released: set<HoldId>, id: WalletId)
    requires a.Keys == b.Keys && forall h | h in a :: (a[h].wallet, a[h].amount) == (b[h].wallet, b[h].amount)
    ensures Moved(a, released, id) == Moved(b, released, id)
  {
    forall h ensures MovedBy(a, id)(h) == MovedBy(b, id)(h) {
      assert h in a <==> h in b.Keys;
    }
    SumSame(released, MovedBy(a, id), MovedBy(b, id));
  }

  lemma MovesOneMore(before: Db, mid: Db, after: Db, h: HoldId, rest: set<HoldId>)
    requires h in before.holds && before.holds[h].status.Active? && h !in rest
    requires MovesAll(before, mid, {h}) && MovesAll(mid, after, rest)
    ensures MovesAll(before, after, rest + {h})
  {
    forall id | id in before.wallets
      ensures var moved := Moved(before.holds, rest + {h}, id);
              after.wallets[id] == Wallet(before.wallets[id].available + moved, before.wallets[id].held - moved)
    {
      assert id in mid.wallets.Keys;
      MovedAfter(before.holds, {}, h, id);
      assert {} + {h} == {h};
      MovedAfter(before.holds, rest, h, id);
      MovedSame(before.holds, mid.holds, rest, id);
    }
    forall k | k in before.holds
      ensures after.holds[k] == if k in rest + {h} then before.holds[k].(status := Released) else before.holds[k]
    {
      assert k in mid.holds.Keys;
    }
  }

  lemma ReleaseMovesOne(sd: SettlementData, h: HoldId, fault: bool, w: World)
    requires ReleaseOne(sd, h, fault, w).ok && h in w.db.holds && w.db.holds[h].status.Active?
    ensures MovesAll(w.db, ReleaseOne(sd, h, fault, w).world.db, {h})
  {
    ReleasesExactlyWhen(sd, h, fault, w);
    forall id | id in w.db.wallets
      ensures Moved(w.db.holds, {h}, id) == if w.db.holds[h].wallet == id then w.db.holds[h].amount else 0
    {
      assert {} + {h} == {h};
      MovedAfter(w.db.holds, {}, h, id);
    }
  }

  lemma NothingToRelease(sd: SettlementData, h: HoldId, fault: bool, w: World)
    requires ReleaseOne(sd, h, fault, w).ok
    ensures h in w.db.holds && (!w.db.holds[h].status.Active? ==> ReleaseOne(sd, h, fault, w).world == w)
  {
  }

  lemma {:induction false} ReleasesMoveAll(sd: SettlementData, fault: nat -> bool, i: nat, w: World)
    requires i <= |sd.losers| && ReleaseLosers(sd, fault, i, w).ok
    ensures MovesAll(w.db, ReleaseLosers(sd, fault, i, w).world.db, StillHeld(sd, w.db.holds, i))
    ensures forall k :: i <= k < |sd.losers| ==> sd.losers[k] in w.db.holds
    decreases |sd.losers| - i
  {
    hide ReleaseOne, Moved;
    if i == |sd.losers| {
      NothingMoves(w.db);
      assert StillHeld(sd, w.db.holds, i) == {};
    } else {
      var h := sd.losers[i];
      var o := ReleaseOne(sd, h, fault(i), w);
      assert ReleaseLosers(sd, fault, i, w) == ReleaseLosers(sd, fault, i + 1, o.world);
      NothingToRelease(sd, h, fault(i), w);
      ReleasesMoveAll(sd, fault, i + 1, o.world);
      if w.db.holds[h].status.Active? {
        ReleaseMovesOne(sd, h, fault(i), w);
        OneLessHeld(sd, w.db, o.world.db, i);
        MovesOneMore(w.db, o.world.db, ReleaseLosers(sd, fault, i, w).world.db, h, StillHeld(sd, o.world.db.holds, i + 1));
      } else {
        assert sd.losers[i..] == [h] + sd.losers[i + 1..];
        assert StillHeld(sd, w.db.holds, i) == StillHeld(sd, w.db.holds, i + 1);
      }
    }
  }

  lemma NothingMoves(db: Db)
    ensures MovesAll(db, db, {})
  {
  }

  lemma OneLessHeld(sd: SettlementData, before: Db, after: Db, i: nat)
    requires i < |sd.losers| && sd.losers[i] in before.holds && before.holds[sd.losers[i]].status.Active?
    requires MovesAll(before, after, {sd.losers[i]})
    ensures StillHeld(sd, before.holds, i) == StillHeld(sd, after.holds, i + 1) + {sd.losers[i]}
    ensures sd.losers[i] !in StillHeld(sd, after.holds, i + 1)
  {
    hide Moved;
    assert sd.losers[i..] == [sd.losers[i]] + sd.losers[i + 1..];
    forall h ensures h in StillHeld(sd, before.holds, i) <==> h in StillHeld(sd, after.holds, i + 1) + {sd.losers[i]} {
      assert h in before.holds <==> h in after.holds.Keys;
    }
    var h := sd.losers[i];
    assert h in {h} && after.holds[h] == before.holds[h].(status := Released);
  }

  /** The loser holds that a run finds active; the winner's own is charged before. */
  function ToRelease(sd: SettlementData, db: Db): set<HoldId> {
    set h | h in sd.losers && h in db.holds && h != sd.winnerHold && db.holds[h].status.Active?
  }

  /** The tables once everything is done. */
  ghost predicate PriceMoved(sd: SettlementData, db: Db, end: Db) {
    && HasWallet(db, sd.winner) && HasWallet(db, sd.seller)
    && (forall h | h in sd.losers :: h in db.holds)
    && end.walletOf == db.walletOf && end.wallets.Keys == db.wallets.Keys && end.holds.Keys == db.holds.Keys
    && (forall id | id in db.wallets ::
          var moved := Moved(db.holds, ToRelease(sd, db), id);
          && end.wallets[id].available ==
             db.wallets[id].available + moved + (if id == db.walletOf[sd.seller] then sd.amount else 0)
          && end.wallets[id].held ==
             db.wallets[id].held - moved - (if id == db.walletOf[sd.winner] then sd.amount else 0))
    && (forall h | h in db.holds ::
          end.holds[h] == db.holds[h].(status := if h == sd.winnerHold then Charged
          else if h in ToRelease(sd, db) then Released
          else db.holds[h].status))
    && EventOut(end.outbox, AuctionSettled(sd.auction, sd.winner, sd.seller, sd.amount))
    && EventOut(end.outbox, PaymentCompleted(sd.auction, sd.winner, sd.seller, sd.amount))
  }

  predicate EventOut(outbox: seq<Event>, e: Event) {
    exists i :: 0 <= i < |outbox| && SameEventKey(outbox[i], e)
  }

  /** A run that reports success, on any tables: the winner's held balance is less by the price, the
      seller's available balance is more by it, the losers have their money back, and the events are out. */
  lemma SuccessMovesThePrice(sd: SettlementData, f: Faults, db: Db)
    requires Outline(Saga(sd, f), Start(sd, db)).Succeeded?
    ensures PriceMoved(sd, db, Final(Saga(sd, f), Start(sd, db)).db)
  {
    var (steps, w0) := (Saga(sd, f), Start(sd, db));
    ReportExactlyWhen(steps, w0, 4);
    ForwardExactly(steps, w0, 4);
    var (w1, w2, w3) := (Fold(steps, 1, w0), Fold(steps, 2, w0), Fold(steps, 3, w0));
    SucceedBefore(steps, w0, 0, 4);
    SucceedBefore(steps, w0, 1, 4);
    SucceedBefore(steps, w0, 2, 4);
    SucceedBefore(steps, w0, 3, 4);
    ChargedAndCredited(sd, f.charge, f.credit, w0);
    ReleasedAndOut(sd, f, w2);
    CompletedMovesThePrice(sd, db, w2.db, w3.db, Fold(steps, 4, w0).db);
  }

  lemma ChargedAndCredited(sd: SettlementData, chargeFault: bool, creditFault: bool, w: World)
    requires ChargeStep(sd, chargeFault, w).ok && CreditStep(sd, creditFault, ChargeStep(sd, chargeFault, w).world).ok
    ensures PaidFor(sd, w.db, CreditStep(sd, creditFault, ChargeStep(sd, chargeFault, w).world).world.db)
  {
    ChargesExactlyWhen(sd, chargeFault, w);
    CreditsExactlyWhen(sd, creditFault, ChargeStep(sd, chargeFault, w).world);
  }

  ghost predicate PaidFor(sd: SettlementData, db: Db, paid: Db) {
    && HasWallet(db, sd.winner) && HasWallet(db, sd.seller)
    && paid.walletOf == db.walletOf && paid.wallets.Keys == db.wallets.Keys && OnlyStatus(db.holds, paid.holds, sd.winnerHold, Charged)
    && forall id | id in db.wallets ::
         && paid.wallets[id].available == db.wallets[id].available + (if id == db.walletOf[sd.seller] then sd.amount else 0)
         && paid.wallets[id].held == db.wallets[id].held - (if id == db.walletOf[sd.winner] then sd.amount else 0)
  }

  lemma ReleasedAndOut(sd: SettlementData, f: Faults, w: World)
    requires var o := ReleaseLosers(sd, f.release, 0, w); o.ok && PublishStep(sd, f.publish, o.world).ok
    ensures var w3 := ReleaseLosers(sd, f.release, 0, w).world;
            var end := PublishStep(sd, f.publish, w3).world.db;
            && MovesAll(w.db, w3.db, StillHeld(sd, w.db.holds, 0))
            && (forall h | h in sd.losers :: h in w.db.holds)
            && (end.wallets, end.holds, end.walletOf) == (w3.db.wallets, w3.db.holds, w3.db.walletOf)
            && EventOut(end.outbox, AuctionSettled(sd.auction, sd.winner, sd.seller, sd.amount))
            && EventOut(end.outbox, PaymentCompleted(sd.auction, sd.winner, sd.seller, sd.amount))
  {
    ReleasesMoveAll(sd, f.release, 0, w);
    var w3 := ReleaseLosers(sd, f.release, 0, w).world;
    BothAreOut(sd, w3.db.outbox);
  }

  lemma EmittedIsOut(outbox: seq<Event>, e: Event)
    ensures EventOut(Emit(outbox, e), e)
    ensures forall other :: EventOut(outbox, other) ==> EventOut(Emit(outbox, e), other)
  {
    if !EventOut(outbox, e) {
      assert Emit(outbox, e)[|outbox|] == e;
      assert forall i :: 0 <= i < |outbox| ==> Emit(outbox, e)[i] == outbox[i];
    }
  }

  lemma BothAreOut(sd: SettlementData, outbox: seq<Event>)
    ensures var (settled, completed) := (AuctionSettled(sd.auction, sd.winner, sd.seller, sd.amount),
                                         PaymentCompleted(sd.auction, sd.winner, sd.seller, sd.amount));
            var after := Emit(Emit(outbox, settled), completed);
            EventOut(after, settled) && EventOut(after, completed)
  {
    var settled, completed := AuctionSettled(sd.auction, sd.winner, sd.seller, sd.amount),
                              PaymentCompleted(sd.auction, sd.winner, sd.seller, sd.amount);
    EmittedIsOut(outbox, settled);
    EmittedIsOut(Emit(outbox, settled), completed);
  }

  lemma CompletedMovesThePrice(sd: SettlementData, db: Db, paid: Db, released: Db, end: Db)
    requires PaidFor(sd, db, paid) && MovesAll(paid, released, StillHeld(sd, paid.holds, 0))
    requires forall h | h in sd.losers :: h in paid.holds
    requires (end.wallets, end.holds, end.walletOf) == (released.wallets, released.holds, released.walletOf)
    requires EventOut(end.outbox, AuctionSettled(sd.auction, sd.winner, sd.seller, sd.amount))
    requires EventOut(end.outbox, PaymentCompleted(sd.auction, sd.winner, sd.seller, sd.amount))
    ensures PriceMoved(sd, db, end)
  {
    var all := ToRelease(sd, db);
    assert sd.losers[0..] == sd.losers;
    forall h ensures h in StillHeld(sd, paid.holds, 0) <==> h in all {
      assert h in paid.holds.Keys <==> h in db.holds.Keys;
    }
    assert StillHeld(sd, paid.holds, 0) == all;
    forall id | id in db.wallets ensures id in paid.wallets && id in end.wallets && Moved(paid.holds, all, id) == Moved(db.holds, all, id) {
      assert id in paid.wallets.Keys && id in end.wallets.Keys;
      MovedSame(paid.holds, db.holds, all, id);
    }
    forall h | h in db.holds ensures h in paid.holds && h in end.holds {
      assert h in paid.holds.Keys && h in end.holds.Keys;
    }
  }

  /** A seller that cannot be paid: on any tables the run stops at the credit, and if the reversal of
      the charge is not disturbed, the money is back where it was and the winner's hold is active. */
  lemma FailedCreditIsReversed(sd: SettlementData, f: Faults, db: Db)
    requires ChargeStep(sd, f.charge, Start(sd, db)).ok
    requires f.credit || !HasWallet(db, sd.seller)
    requires !f.reverseCharge && 0 <= RowOf(db, sd.winner).held
    ensures Outline(Saga(sd, f), Start(sd, db)) == StepFailed(1)
    ensures var end := Final(Saga(sd, f), Start(sd, db)).db;
            && end.wallets == db.wallets && end.outbox == db.outbox
            && OnlyStatus(db.holds, end.holds, sd.winnerHold, Active)
  {
    var (steps, w0) := (Saga(sd, f), Start(sd, db));
    var o := ChargeStep(sd, f.charge, w0);
    ChargesExactlyWhen(sd, f.charge, w0);
    CreditsExactlyWhen(sd, f.credit, o.world);
    ChargeIsReversedExactlyWhen(sd, false, o.world);
    var end := ReverseChargeStep(sd, false, o.world).world;
    assert Fold(steps, 0, w0) == w0 && Fold(steps, 1, w0) == o.world && Fold(steps, 2, w0) == o.world;
    assert SucceedUpTo(steps, w0, 0);
    assert SucceedUpTo(steps, w0, 1) && StopsAt(steps, w0, 1);
    ReportExactlyWhen(steps, w0, 1);
    ForwardExactly(steps, w0, 1);
    UndoneInTurn(steps, 1, 0, o.world);
    assert end.db.wallets == db.wallets;
  }
}
