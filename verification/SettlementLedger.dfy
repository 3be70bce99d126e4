/** What the audit ledger says about a run of the settlement saga: the entries that the run
    adds, replayed over the initial wallets, against the wallets at its end. */
module SettlementLedger {
  import opened Optional
  import opened Sagas
  import opened Settlement
  import opened Sums
  import opened Tables
  import Wallets

  /** None of the keys that the saga uses is in the ledger. */
  predicate FreshKeys(sd: SettlementData, db: Db) {
    && !KeyUsed(db.ledger, SagaCharge(sd.auction, sd.winner))
    && !KeyUsed(db.ledger, SagaCredit(sd.auction, sd.seller))
    && forall h | h in sd.losers :: !KeyUsed(db.ledger, SagaRelease(sd.auction, h))
  }

  /** What the run has added to the ledger. */
  function Added(db: Db, w: World): seq<Entry>
    requires |db.ledger| <= |w.db.ledger|
  {
    w.db.ledger[|db.ledger|..]
  }

  predicate NothingUndone(w: World) {
    forall i :: 0 <= i < |w.history| ==> !w.history[i].undo
  }

  /** What stands committed, or is said to. */
  datatype Standing = Standing(charged: bool, credited: bool, released: set<HoldId>)

  function Stands(w: World): Standing {
    Standing(w.charged, w.credited, w.released)
  }

  function Claimed(sd: SettlementData, db: Db, entries: seq<Entry>): Standing {
    Standing(KeyUsed(entries, SagaCharge(sd.auction, sd.winner)),
             KeyUsed(entries, SagaCredit(sd.auction, sd.seller)),
             Earlier(sd, db) + set h | h in sd.losers && KeyUsed(entries, SagaRelease(sd.auction, h)))
  }

  predicate Within(s: Standing, c: Standing) {
    (s.charged ==> c.charged) && (s.credited ==> c.credited) && s.released <= c.released
  }

  /** The wallets of db, changed by exactly what the standing says. */
  ghost predicate WalletsAt(sd: SettlementData, db: Db, wallets: map<WalletId, Wallet>, s: Standing)
    requires HasWallet(db, sd.winner) && HasWallet(db, sd.seller)
  {
    && wallets.Keys == db.wallets.Keys
    && forall id | id in db.wallets :: wallets[id] == WalletAt(sd, db, s.charged, s.credited, s.released, id)
  }

  /** The added entries replay to what they claim, and they claim what stands exactly until the
      first compensating transaction. */
  ghost predicate Booked(sd: SettlementData, db: Db, w: World)
    requires HasWallet(db, sd.winner) && HasWallet(db, sd.seller)
  {
    && db.ledger <= w.db.ledger
    && var c := Claimed(sd, db, Added(db, w));
    && WalletsAt(sd, db, Wallets.Replay(db.wallets, Added(db, w)), c)
    && Within(Stands(w), c)
    && (NothingUndone(w) <==> Stands(w) == c)
  }

  // ---- Entries ----

  lemma KeyAppended(entries: seq<Entry>, e: Entry, key: Key)
    ensures KeyUsed(entries + [e], key) <==> KeyUsed(entries, key) || e.key == key
  {
    assert (entries + [e])[|entries|] == e;
    assert forall i :: 0 <= i < |entries| ==> (entries + [e])[i] == entries[i];
  }

  lemma KeyInParts(ledger: seq<Entry>, entries: seq<Entry>, key: Key)
    ensures KeyUsed(ledger + entries, key) <==> KeyUsed(ledger, key) || KeyUsed(entries, key)
  {
    var all := ledger + entries;
    assert forall i :: 0 <= i < |ledger| ==> all[i] == ledger[i];
    assert forall i :: 0 <= i < |entries| ==> all[|ledger| + i] == entries[i];
    if i :| 0 <= i < |all| && all[i].key == key && i >= |ledger| {
      assert entries[i - |ledger|].key == key;
    }
  }

  lemma InsertedIsAdded(db: Db, w: World, ledger: seq<Entry>, e: Entry)
    requires db.ledger <= w.db.ledger && ledger == Insert(w.db.ledger, e)
    requires !KeyUsed(db.ledger, e.key) && !KeyUsed(Added(db, w), e.key)
    ensures db.ledger <= ledger && ledger[|db.ledger|..] == Added(db, w) + [e]
  {
    assert w.db.ledger == db.ledger + Added(db, w);
    KeyInParts(db.ledger, Added(db, w), e.key);
  }

  /** An entry of the saga changes the claim and the replayed wallets in the same way. */
  lemma EntryClaims(sd: SettlementData, db: Db, entries: seq<Entry>, e: Entry, c: Standing)
    requires HasWallet(db, sd.winner) && HasWallet(db, sd.seller)
    requires WalletsAt(sd, db, Wallets.Replay(db.wallets, entries), Claimed(sd, db, entries))
    requires Claims(sd, db, entries, e, c)
    ensures WalletsAt(sd, db, Wallets.Replay(db.wallets, entries + [e]), c)
  {
    var (before, after) := (Wallets.Replay(db.wallets, entries), Wallets.Replay(db.wallets, entries + [e]));
    Wallets.ReplayAppend(db.wallets, entries, e);
    assert e.wallet in before.Keys;
    forall id | id in db.wallets ensures after[id] == WalletAt(sd, db, c.charged, c.credited, c.released, id) {
      assert id in before.Keys;
      assert Follows(sd, db, e, Claimed(sd, db, entries), c, id);
    }
  }

  // ---- Forward ----

  /** e is a new entry of the saga, and c what is claimed with it. */
  ghost predicate Claims(sd: SettlementData, db: Db, entries: seq<Entry>, e: Entry, c: Standing)
    requires HasWallet(db, sd.winner) && HasWallet(db, sd.seller)
  {
    && !KeyUsed(db.ledger, e.key) && !KeyUsed(entries, e.key)
    && e.wallet in db.wallets && Claimed(sd, db, entries + [e]) == c
    && forall id | id in db.wallets :: Follows(sd, db, e, Claimed(sd, db, entries), c, id)
  }

  ghost predicate Follows(sd: SettlementData, db: Db, e: Entry, was: Standing, now: Standing, id: WalletId)
    requires HasWallet(db, sd.winner) && HasWallet(db, sd.seller) && id in db.wallets
  {
    var (before, after) := (WalletAt(sd, db, was.charged, was.credited, was.released, id),
                            WalletAt(sd, db, now.charged, now.credited, now.released, id));
    after == if id == e.wallet then Wallets.Effect(before, e.op, e.amount) else before
  }

  /** A committed transaction whose entry claims what then stands. */
  lemma Posted(sd: SettlementData, db: Db, w: World, w': World, e: Entry)
    requires HasWallet(db, sd.winner) && HasWallet(db, sd.seller) && Booked(sd, db, w) && NothingUndone(w)
    requires w' == Commit(w, w'.db, w'.charged, w'.credited, w'.released)
    requires w'.db.ledger == Insert(w.db.ledger, e)
    requires Claims(sd, db, Added(db, w), e, Stands(w'))
    ensures Booked(sd, db, w') && NothingUndone(w')
  {
    InsertedIsAdded(db, w, w'.db.ledger, e);
    EntryClaims(sd, db, Added(db, w), e, Stands(w'));
    HistoryGrows(w, w');
  }

  lemma ChargeClaims(sd: SettlementData, db: Db, entries: seq<Entry>, e: Entry, was: Standing)
    requires Named(sd, db) && FreshKeys(sd, db) && Claimed(sd, db, entries) == was && !was.charged
    requires (e.key, e.wallet, e.op, e.amount) == (SagaCharge(sd.auction, sd.winner), db.walletOf[sd.winner], OpCharge, sd.amount)
    ensures Claims(sd, db, entries, e, was.(charged := true))
  {
    ClaimsGrow(sd, db, entries, e);
    forall id | id in db.wallets ensures Follows(sd, db, e, was, was.(charged := true), id) {
    }
  }

  lemma CreditClaims(sd: SettlementData, db: Db, entries: seq<Entry>, e: Entry, was: Standing)
    requires Named(sd, db) && FreshKeys(sd, db) && Claimed(sd, db, entries) == was && !was.credited
    requires (e.key, e.wallet, e.op, e.amount) == (SagaCredit(sd.auction, sd.seller), db.walletOf[sd.seller], OpCredit, sd.amount)
    ensures Claims(sd, db, entries, e, was.(credited := true))
  {
    ClaimsGrow(sd, db, entries, e);
    forall id | id in db.wallets ensures Follows(sd, db, e, was, was.(credited := true), id) {
    }
  }

  lemma ReleaseClaims(sd: SettlementData, db: Db, entries: seq<Entry>, e: Entry, was: Standing, h: HoldId)
    requires Named(sd, db) && FreshKeys(sd, db) && IsLoser(sd, db, h) && Claimed(sd, db, entries) == was && h !in was.released
    requires (e.key, e.wallet, e.op, e.amount) == (SagaRelease(sd.auction, h), db.holds[h].wallet, OpRelease, db.holds[h].amount)
    ensures Claims(sd, db, entries, e, was.(released := was.released + {h}))
  {
    ClaimsGrow(sd, db, entries, e);
    forall id | id in db.wallets ensures Follows(sd, db, e, was, was.(released := was.released + {h}), id) {
      MovedAfter(db.holds, was.released, h, id);
    }
  }

  lemma ChargeIsBooked(sd: SettlementData, fault: bool, db: Db, w: World)
    requires Named(sd, db) && FreshKeys(sd, db) && w.db.walletOf == db.walletOf
    requires Booked(sd, db, w) && NothingUndone(w) && !w.charged
    ensures var o := ChargeStep(sd, fault, w); Booked(sd, db, o.world) && NothingUndone(o.world)
  {
    var o := ChargeStep(sd, fault, w);
    if o.ok {
      var id := db.walletOf[sd.winner];
      var held := w.db.wallets[id].held;
      var e := Entry(SagaCharge(sd.auction, sd.winner), id, OpCharge, sd.amount, held, held - sd.amount);
      ChargeClaims(sd, db, Added(db, w), e, Stands(w));
      Posted(sd, db, w, o.world, e);
    }
  }

  lemma CreditIsBooked(sd: SettlementData, fault: bool, db: Db, w: World)
    requires Named(sd, db) && FreshKeys(sd, db) && w.db.walletOf == db.walletOf
    requires Booked(sd, db, w) && NothingUndone(w) && !w.credited
    ensures var o := CreditStep(sd, fault, w); Booked(sd, db, o.world) && NothingUndone(o.world)
  {
    var o := CreditStep(sd, fault, w);
    if o.ok {
      var id := db.walletOf[sd.seller];
      var available := w.db.wallets[id].available;
      var e := Entry(SagaCredit(sd.auction, sd.seller), id, OpCredit, sd.amount, available, available + sd.amount);
      CreditClaims(sd, db, Added(db, w), e, Stands(w));
      Posted(sd, db, w, o.world, e);
    }
  }

  lemma ReleaseIsBooked(sd: SettlementData, db: Db, h: HoldId, w: World)
    requires Named(sd, db) && FreshKeys(sd, db) && IsLoser(sd, db, h) && Booked(sd, db, w) && NothingUndone(w)
    requires h in w.db.holds && w.db.holds[h] == db.holds[h].(status := StatusAt(sd, db, w.charged, w.released, h))
    ensures var o := ReleaseOne(sd, h, false, w); Booked(sd, db, o.world) && NothingUndone(o.world)
  {
    var o := ReleaseOne(sd, h, false, w);
    if o.world != w {
      var e := ReleaseEntry(sd, h, w);
      ReleaseClaims(sd, db, Added(db, w), e, Stands(w), h);
      Posted(sd, db, w, o.world, e);
    }
  }

  lemma ReleaseEntry(sd: SettlementData, h: HoldId, w: World) returns (e: Entry)
    requires ReleaseOne(sd, h, false, w).world != w
    ensures var w' := ReleaseOne(sd, h, false, w).world;
            && w' == Commit(w, w'.db, w.charged, w.credited, w.released + {h})
            && w'.db.ledger == Insert(w.db.ledger, e)
    ensures var hold := w.db.holds[h];
            && hold.status.Active?
            && (e.key, e.wallet, e.op, e.amount) == (SagaRelease(sd.auction, h), hold.wallet, OpRelease, hold.amount)
  {
    var hold := w.db.holds[h];
    var held := w.db.wallets[hold.wallet].held;
    e := Entry(SagaRelease(sd.auction, h), hold.wallet, OpRelease, hold.amount, held, held - hold.amount);
  }

  lemma ClaimsGrow(sd: SettlementData, db: Db, entries: seq<Entry>, e: Entry)
    requires e.key.SagaRelease? ==> e.key.hold in sd.losers && e.key.auction == sd.auction
    requires e.key.SagaCharge? ==> e.key == SagaCharge(sd.auction, sd.winner)
    requires e.key.SagaCredit? ==> e.key == SagaCredit(sd.auction, sd.seller)
    ensures var (was, now) := (Claimed(sd, db, entries), Claimed(sd, db, entries + [e]));
            match e.key
            case SagaCharge(_, _) => now == was.(charged := true)
            case SagaCredit(_, _) => now == was.(credited := true)
            case SagaRelease(_, h) => now == was.(released := was.released + {h})
            case Client(_) => now == was
  {
    forall key ensures KeyUsed(entries + [e], key) <==> KeyUsed(entries, key) || e.key == key {
      KeyAppended(entries, e, key);
    }
  }

  lemma HistoryGrows(w: World, w': World)
    requires w' == Commit(w, w'.db, w'.charged, w'.credited, w'.released)
    ensures NothingUndone(w') <==> NothingUndone(w)
  {
    if NothingUndone(w') {
      forall i | 0 <= i < |w.history| ensures !w.history[i].undo {
        assert w'.history[i] == w.history[i];
      }
    }
  }

  // ---- Backward ----

  lemma UndoIsUnbooked(sd: SettlementData, db: Db, w: World, w': World)
    requires HasWallet(db, sd.winner) && HasWallet(db, sd.seller) && Booked(sd, db, w)
    requires w' == CommitUndo(w, w'.db, w'.charged, w'.credited, w'.released) && w'.db.ledger == w.db.ledger
    requires Within(Stands(w'), Stands(w)) && Stands(w') != Stands(w)
    ensures Booked(sd, db, w')
  {
    assert w'.history[|w.history|].undo;
    assert !NothingUndone(w');
    LessIsNotClaimed(Stands(w'), Stands(w), Claimed(sd, db, Added(db, w)));
  }

  lemma LessIsNotClaimed(s': Standing, s: Standing, c: Standing)
    requires Within(s', s) && s' != s && Within(s, c)
    ensures Within(s', c) && s' != c
  {
    if s'.released == c.released {
      assert s'.released == s.released;
    }
  }

  lemma ReHoldIsBooked(sd: SettlementData, db: Db, h: HoldId, fault: bool, w: World)
    requires Settleable(sd, db) && Good(sd, db, w) && Booked(sd, db, w) && h in sd.losers
    ensures Booked(sd, db, ReHoldOne(h, fault, w))
  {
    hide SumOver;
    SettleableFacts(sd, db);
    if !fault {
      assert w.db.holds[h] == db.holds[h].(status := StatusAt(sd, db, w.charged, w.released, h));
      if h in w.released {
        ReHoldTracks(sd, db, h, w);
        if ReHoldOne(h, false, w) != w {
          UndoIsUnbooked(sd, db, w, ReHoldOne(h, false, w));
        }
      }
    }
  }

  // ---- Steps and compensations ----

  lemma ReleasesAreBooked(sd: SettlementData, f: Faults, db: Db, w: World)
    requires Settleable(sd, db) && FreshKeys(sd, db) && Good(sd, db, w) && AtStep(sd, db, 2, w)
    requires Booked(sd, db, w) && NothingUndone(w)
    ensures var o := ReleaseLosers(sd, f.release, 0, w); Booked(sd, db, o.world) && NothingUndone(o.world)
  {
    var good := (v: World) => Good(sd, db, v) && Booked(sd, db, v) && NothingUndone(v);
    forall h, v | h in sd.losers && good(v)
      ensures var o := ReleaseOne(sd, h, false, v); o.ok && good(o.world) && Released1(h, v, o.world)
    {
      ReleaseNext(sd, db, h, v);
      NextReleaseIsBooked(sd, db, h, v);
    }
    ReleaseLoop(sd, f.release, 0, w, Earlier(sd, db), good);
  }

  lemma NextReleaseIsBooked(sd: SettlementData, db: Db, h: HoldId, w: World)
    requires Settleable(sd, db) && FreshKeys(sd, db) && Tracks(sd, db, w) && h in sd.losers
    requires Booked(sd, db, w) && NothingUndone(w)
    ensures var o := ReleaseOne(sd, h, false, w); Booked(sd, db, o.world) && NothingUndone(o.world)
  {
    SettleableFacts(sd, db);
    assert w.db.holds[h] == db.holds[h].(status := StatusAt(sd, db, w.charged, w.released, h));
    ReleaseIsBooked(sd, db, h, w);
  }

  lemma PublishIsBooked(sd: SettlementData, fault: bool, db: Db, w: World)
    requires HasWallet(db, sd.winner) && HasWallet(db, sd.seller) && Booked(sd, db, w) && NothingUndone(w)
    ensures var o := PublishStep(sd, fault, w); Booked(sd, db, o.world) && NothingUndone(o.world)
  {
    if !fault {
      HistoryGrows(w, PublishStep(sd, false, w).world);
    }
  }

  lemma StepIsBooked(sd: SettlementData, f: Faults, db: Db, i: nat, w: World)
    requires Settleable(sd, db) && FreshKeys(sd, db) && i < 4 && Good(sd, db, w) && AtStep(sd, db, i, w)
    requires Booked(sd, db, w) && NothingUndone(w)
    ensures var o := Saga(sd, f)[i].execute(w); Booked(sd, db, o.world) && NothingUndone(o.world)
  {
    if i == 2 {
      ReleasesAreBooked(sd, f, db, w);
    } else {
      SettleableFacts(sd, db);
      SingleStepIsBooked(sd, f, db, i, w);
    }
  }

  lemma SingleStepIsBooked(sd: SettlementData, f: Faults, db: Db, i: nat, w: World)
    requires Named(sd, db) && FreshKeys(sd, db) && i in {0, 1, 3} && w.db.walletOf == db.walletOf
    requires (i == 0 ==> !w.charged) && (i == 1 ==> !w.credited)
    requires Booked(sd, db, w) && NothingUndone(w)
    ensures var o := Saga(sd, f)[i].execute(w); Booked(sd, db, o.world) && NothingUndone(o.world)
  {
    match i
    case 0 => ChargeIsBooked(sd, f.charge, db, w);
    case 1 => CreditIsBooked(sd, f.credit, db, w);
    case _ => PublishIsBooked(sd, f.publish, db, w);
  }

  lemma ReHoldsAreBooked(sd: SettlementData, f: Faults, db: Db, w: World)
    requires Settleable(sd, db) && Good(sd, db, w) && Booked(sd, db, w)
    ensures Booked(sd, db, ReHoldLosers(sd, f.reHold, 0, w))
  {
    var good := (v: World) => Good(sd, db, v) && Booked(sd, db, v);
    forall h, v, b | h in sd.losers && good(v)
      ensures var v' := ReHoldOne(h, b, v); good(v') && ReHeld1(h, b, false, v, v')
    {
      ReHoldNext(sd, db, h, b, false, v);
      ReHoldIsBooked(sd, db, h, b, v);
    }
    ReHoldLoop(sd, f.reHold, 0, w, false, good);
  }

  // ---- What the wallets tell ----

  lemma Further<T>(some: set<T>, more: set<T>) returns (h: T)
    requires some <= more && some != more
    ensures h in more && h !in some
  {
    assert some + (more - some) == more;
    assert more - some != {};
    h :| h in more - some;
  }

  /** Of two standings, one within the other, the held balances tell all but the credit. */
  lemma HeldDecides(sd: SettlementData, db: Db, s: Standing, c: Standing) returns (id: WalletId)
    requires Settleable(sd, db) && Within(s, c) && c.released <= Losers(sd)
    requires (s.charged, s.released) != (c.charged, c.released)
    ensures id in db.wallets
    ensures WalletAt(sd, db, s.charged, s.credited, s.released, id).held !=
            WalletAt(sd, db, c.charged, c.credited, c.released, id).held
  {
    SettleableFacts(sd, db);
    if s.charged != c.charged {
      id := db.walletOf[sd.winner];
      MovedLe(db.holds, s.released, c.released, id);
    } else {
      var h := Further(s.released, c.released);
      id := db.holds[h].wallet;
      assert IsLoser(sd, db, h);
      MovedAfter(db.holds, s.released, h, id);
      MovedLe(db.holds, s.released + {h}, c.released, id);
    }
  }

  /** The wallets tell which of the two it is. */
  lemma WalletsDecide(sd: SettlementData, db: Db, wallets: map<WalletId, Wallet>, s: Standing, c: Standing)
    requires Settleable(sd, db) && Within(s, c) && c.released <= Losers(sd) && WalletsAt(sd, db, wallets, s)
    ensures WalletsAt(sd, db, wallets, c) <==> s == c
  {
    if (s.charged, s.released) != (c.charged, c.released) {
      var id := HeldDecides(sd, db, s, c);
      assert wallets[id] == WalletAt(sd, db, s.charged, s.credited, s.released, id);
    } else if s.credited != c.credited {
      var id := db.walletOf[sd.seller];
      assert 0 < sd.amount;
      assert wallets[id] == WalletAt(sd, db, s.charged, s.credited, s.released, id);
    }
  }

  lemma SameWallets(sd: SettlementData, db: Db, a: map<WalletId, Wallet>, b: map<WalletId, Wallet>, s: Standing)
    requires HasWallet(db, sd.winner) && HasWallet(db, sd.seller)
    requires WalletsAt(sd, db, a, s) && WalletsAt(sd, db, b, s)
    ensures a == b
  {
    forall id | id in a ensures id in b && a[id] == b[id] {
      assert id in a.Keys;
    }
    assert forall id | id in b :: id in b.Keys;
  }

  // ---- Reversals, be they clamped or not ----

  /** What is to be shown of a world, and what keeps it true when the charge is reversed. */
  ghost predicate Truthful(sd: SettlementData, db: Db, w: World)
    requires HasWallet(db, sd.winner)
  {
    && w.db.walletOf == db.walletOf && db.ledger <= w.db.ledger
    && var (id, replayed) := (db.walletOf[sd.winner], Wallets.Replay(db.wallets, Added(db, w)));
    && id in replayed && id in w.db.wallets && replayed[id].held <= w.db.wallets[id].held
    && (replayed == w.db.wallets <==> NothingUndone(w))
  }

  lemma BookedIsTruthful(sd: SettlementData, db: Db, w: World)
    requires Settleable(sd, db) && Tracks(sd, db, w) && Booked(sd, db, w)
    ensures Truthful(sd, db, w)
  {
    var (id, replayed, c) := (db.walletOf[sd.winner], Wallets.Replay(db.wallets, Added(db, w)), Claimed(sd, db, Added(db, w)));
    assert WalletsAt(sd, db, w.db.wallets, Stands(w));
    WalletsDecide(sd, db, w.db.wallets, Stands(w), c);
    MovedLe(db.holds, w.released, c.released, id);
    assert id in replayed.Keys && id in w.db.wallets.Keys;
    if Stands(w) == c {
      SameWallets(sd, db, replayed, w.db.wallets, c);
    }
  }

  lemma UndoneIsTruthful(sd: SettlementData, db: Db, w: World, w': World)
    requires HasWallet(db, sd.winner) && Truthful(sd, db, w)
    requires w' == CommitUndo(w, w'.db, w'.charged, w'.credited, w'.released)
    requires w'.db.ledger == w.db.ledger && w'.db.walletOf == w.db.walletOf
    requires var id := db.walletOf[sd.winner]; id in w'.db.wallets && w.db.wallets[id].held <= w'.db.wallets[id].held
    requires Wallets.Replay(db.wallets, Added(db, w)) != w'.db.wallets
    ensures Truthful(sd, db, w')
  {
    assert w'.history[|w.history|].undo;
  }

  lemma ReverseChargeIsTruthful(sd: SettlementData, fault: bool, db: Db, w: World)
    requires HasWallet(db, sd.winner) && 0 < sd.amount && Truthful(sd, db, w)
    ensures Truthful(sd, db, ReverseChargeStep(sd, fault, w).world)
  {
    var o := ReverseChargeStep(sd, fault, w);
    if o.ok {
      UndoneIsTruthful(sd, db, w, o.world);
    }
  }

  lemma ReverseCreditIsTruthful(sd: SettlementData, fault: bool, db: Db, w: World)
    requires Settleable(sd, db) && Good(sd, db, w) && Booked(sd, db, w) && w.credited
    ensures Truthful(sd, db, ReverseCreditStep(sd, fault, w).world)
  {
    hide SumOver;
    var o := ReverseCreditStep(sd, fault, w);
    BookedIsTruthful(sd, db, w);
    if o.ok {
      CreditReversalShows(sd, db, w);
      UndoneIsTruthful(sd, db, w, o.world);
    }
  }

  lemma CreditReversalShows(sd: SettlementData, db: Db, w: World)
    requires Settleable(sd, db) && Tracks(sd, db, w) && Booked(sd, db, w) && w.credited && ReverseCreditStep(sd, false, w).ok
    ensures Wallets.Replay(db.wallets, Added(db, w)) != ReverseCreditStep(sd, false, w).world.db.wallets
  {
    hide SumOver;
    var (w', s, c) := (ReverseCreditStep(sd, false, w).world, Stands(w), Claimed(sd, db, Added(db, w)));
    var replayed := Wallets.Replay(db.wallets, Added(db, w));
    if s == c {
      var id := db.walletOf[sd.seller];
      MovedLe(db.holds, Earlier(sd, db), c.released, id);
      assert w.db.wallets[id] == WalletAt(sd, db, w.charged, w.credited, w.released, id);
      assert replayed[id].available != w'.db.wallets[id].available;
    } else {
      var id := HeldDecides(sd, db, s, c);
      assert w.db.wallets[id] == WalletAt(sd, db, w.charged, w.credited, w.released, id);
      assert replayed[id].held != w'.db.wallets[id].held;
    }
  }

  // ---- The main result ----

  lemma StartIsBooked(sd: SettlementData, db: Db)
    requires HasWallet(db, sd.winner) && HasWallet(db, sd.seller)
    ensures Booked(sd, db, Start(sd, db)) && NothingUndone(Start(sd, db))
  {
    assert Added(db, Start(sd, db)) == [];
    assert Claimed(sd, db, []) == Standing(false, false, Earlier(sd, db));
  }

  ghost predicate ForeRule(sd: SettlementData, f: Faults, db: Db, steps: seq<Step<World>>, fore: World -> bool) {
    && fore(Start(sd, db)) && AtStep(sd, db, 0, Start(sd, db))
    && |steps| == 4
    && forall i: nat, w :: i < 4 && fore(w) && AtStep(sd, db, i, w) ==>
                             var o := steps[i].execute(w); fore(o.world) && StepEffect(sd, f, db, i, w, o)
  }

  ghost predicate BackRule(steps: seq<Step<World>>, back: World -> bool) {
    && |steps| == 4
    && forall i: nat, w :: 2 <= i < 4 && back(w) ==>
                             var o := Undo(steps[i], w); back(o.world) && (o.world.charged, o.world.credited) == (w.charged, w.credited)
  }

  ghost predicate TruthRule(steps: seq<Step<World>>, back: World -> bool, truth: World -> bool) {
    && |steps| == 4
    && (forall w :: truth(w) ==> truth(Undo(steps[0], w).world))
    && (forall w :: back(w) && w.credited ==> truth(Undo(steps[1], w).world))
  }

  /** The lemmas above, for any properties of worlds in place of Good, Booked and Truthful. */
  ghost predicate KeptTrue(sd: SettlementData, f: Faults, db: Db, steps: seq<Step<World>>,
                           fore: World -> bool, back: World -> bool, truth: World -> bool) {
    && ForeRule(sd, f, db, steps, fore) && BackRule(steps, back) && TruthRule(steps, back, truth)
    && (forall w :: fore(w) ==> back(w)) && (forall w :: back(w) ==> truth(w))
  }

  lemma ForeIsKept(sd: SettlementData, f: Faults, db: Db, i: nat, w: World)
    requires Settleable(sd, db) && FreshKeys(sd, db) && i < 4 && Good(sd, db, w) && AtStep(sd, db, i, w)
    requires Booked(sd, db, w) && NothingUndone(w)
    ensures var o := Saga(sd, f)[i].execute(w);
            Good(sd, db, o.world) && Booked(sd, db, o.world) && NothingUndone(o.world) && StepEffect(sd, f, db, i, w, o)
  {
    StepIsGood(sd, f, db, i, w);
    StepIsBooked(sd, f, db, i, w);
  }

  lemma BackIsKept(sd: SettlementData, f: Faults, db: Db, i: nat, w: World)
    requires Settleable(sd, db) && 2 <= i < 4 && Good(sd, db, w) && Booked(sd, db, w)
    ensures var o := Undo(Saga(sd, f)[i], w);
            && Good(sd, db, o.world) && Booked(sd, db, o.world)
            && (o.world.charged, o.world.credited) == (w.charged, w.credited)
  {
    hide SumOver;
    if i == 2 {
      ReHoldStepIsGood(sd, f, db, false, w);
      ReHoldsAreBooked(sd, f, db, w);
    }
  }

  lemma ForeKept(sd: SettlementData, f: Faults, db: Db) returns (fore: World -> bool)
    requires Settleable(sd, db) && FreshKeys(sd, db)
    ensures forall w :: fore(w) ==> Good(sd, db, w) && Booked(sd, db, w)
    ensures ForeRule(sd, f, db, Saga(sd, f), fore)
  {
    fore := (w: World) => Good(sd, db, w) && Booked(sd, db, w) && NothingUndone(w);
    StartIsGood(sd, db);
    StartIsBooked(sd, db);
    forall i: nat, w | i < 4 && fore(w) && AtStep(sd, db, i, w)
      ensures var o := Saga(sd, f)[i].execute(w); fore(o.world) && StepEffect(sd, f, db, i, w, o)
    {
      ForeIsKept(sd, f, db, i, w);
    }
  }

  lemma BackKept(sd: SettlementData, f: Faults, db: Db) returns (back: World -> bool)
    requires Settleable(sd, db)
    ensures forall w :: back(w) <==> Good(sd, db, w) && Booked(sd, db, w)
    ensures BackRule(Saga(sd, f), back)
  {
    back := (w: World) => Good(sd, db, w) && Booked(sd, db, w);
    forall i: nat, w | 2 <= i < 4 && back(w)
      ensures var o := Undo(Saga(sd, f)[i], w); back(o.world) && (o.world.charged, o.world.credited) == (w.charged, w.credited)
    {
      BackIsKept(sd, f, db, i, w);
    }
  }

  lemma TruthKept(sd: SettlementData, f: Faults, db: Db, back: World -> bool) returns (truth: World -> bool)
    requires Settleable(sd, db) && forall w :: back(w) ==> Good(sd, db, w) && Booked(sd, db, w)
    ensures forall w :: truth(w) <==> Truthful(sd, db, w)
    ensures TruthRule(Saga(sd, f), back, truth)
  {
    hide SumOver, Moved, ActiveHolds;
    truth := (w: World) => Truthful(sd, db, w);
    SettleableFacts(sd, db);
    forall w | truth(w) ensures truth(Undo(Saga(sd, f)[0], w).world) {
      ReverseChargeIsTruthful(sd, f.reverseCharge, db, w);
    }
    forall w | back(w) && w.credited ensures truth(Undo(Saga(sd, f)[1], w).world) {
      ReverseCreditIsTruthful(sd, f.reverseCredit, db, w);
    }
  }

  lemma TruthIsKept(sd: SettlementData, f: Faults, db: Db) returns (fore: World -> bool, back: World -> bool, truth: World -> bool)
    requires Settleable(sd, db) && FreshKeys(sd, db)
    ensures KeptTrue(sd, f, db, Saga(sd, f), fore, back, truth)
    ensures forall w :: truth(w) ==> Truthful(sd, db, w)
  {
    fore := ForeKept(sd, f, db);
    back := BackKept(sd, f, db);
    truth := TruthKept(sd, f, db, back);
    forall w | back(w) ensures truth(w) {
      BookedIsTruthful(sd, db, w);
    }
  }

  lemma TruthAdvances(sd: SettlementData, f: Faults, db: Db, steps: seq<Step<World>>,
                      fore: World -> bool, back: World -> bool, truth: World -> bool, i: nat, w: World)
    requires KeptTrue(sd, f, db, steps, fore, back, truth) && i < 4 && truth(w) && (i >= 1 ==> back(w) && w.credited)
    ensures var o := Undo(steps[i], w); truth(o.world) && (i >= 2 ==> back(o.world) && o.world.credited)
  {
  }

  lemma StepLeadsOn(sd: SettlementData, f: Faults, db: Db, steps: seq<Step<World>>,
                    fore: World -> bool, back: World -> bool, truth: World -> bool, i: nat, w: World)
    requires KeptTrue(sd, f, db, steps, fore, back, truth) && i < 4 && fore(w) && AtStep(sd, db, i, w)
    ensures var o := steps[i].execute(w);
            && fore(o.world) && back(o.world) && truth(o.world)
            && (if o.ok then AtStep(sd, db, i + 1, o.world) else i >= 2 ==> o.world.credited)
  {
    assert StepEffect(sd, f, db, i, w, steps[i].execute(w));
  }

  lemma EndIsTrue(sd: SettlementData, f: Faults, db: Db, steps: seq<Step<World>>,
                  fore: World -> bool, back: World -> bool, truth: World -> bool)
    requires KeptTrue(sd, f, db, steps, fore, back, truth)
    ensures truth(Final(steps, Start(sd, db)))
  {
    var doing := (i: nat, w: World) => fore(w) && AtStep(sd, db, i, w);
    var undoing := (i: nat, w: World) => truth(w) && (i >= 2 ==> back(w) && w.credited);
    forall i: nat, w | i < |steps| && undoing(i + 1, w) ensures undoing(i, Undo(steps[i], w).world) {
      TruthAdvances(sd, f, db, steps, fore, back, truth, i, w);
    }
    forall i: nat, w | i < |steps| && doing(i, w)
      ensures var o := steps[i].execute(w); if o.ok then doing(i + 1, o.world) else undoing(i, o.world)
    {
      StepLeadsOn(sd, f, db, steps, fore, back, truth, i, w);
    }
    SagaRule(steps, Start(sd, db), doing, undoing);
  }

  /** Starting from a ledger without the saga's keys, the entries that a run adds replay to its
      final wallets exactly when no compensating transaction was committed. */
  lemma LedgerTellsTheTruthExactlyWhen(sd: SettlementData, f: Faults, db: Db)
    requires Settleable(sd, db) && FreshKeys(sd, db)
    ensures var end := Final(Saga(sd, f), Start(sd, db));
            && db.ledger <= end.db.ledger
            && (Wallets.Replay(db.wallets, end.db.ledger[|db.ledger|..]) == end.db.wallets <==> NothingUndone(end))
  {
    var fore, back, truth := TruthIsKept(sd, f, db);
    EndIsTrue(sd, f, db, Saga(sd, f), fore, back, truth);
  }
}
