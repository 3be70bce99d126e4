/** The wallet service: hold, release, charge, credit and deposit. Each operation
    first looks its idempotency key up, and later, in a transaction of its own,
    changes balances, holds and the audit ledger. */
module Wallets {
  import opened Optional
  import opened Sums
  import opened Tables

  datatype Action = HoldFunds(user: UserId, auction: AuctionId, amount: int)
                  | ReleaseFunds(hold: HoldId)
                  | ChargeFunds(hold: HoldId)
                  | CreditFunds(user: UserId, amount: int)
                  | DepositFunds(user: UserId, amount: int)

  datatype Request = Request(key: Key, action: Action)

  datatype Failure = InsufficientBalance | WalletNotFound | DuplicateOperation | HoldNotFound | DatabaseError

  /** What a committed transaction did: the audit entry it wrote and the hold it touched. */
  datatype Change = Change(entry: Entry, hold: Option<HoldId>)

  datatype Result = Committed(db: Db, change: Change) | Rejected(why: Failure)

  // ---- The transactions ----

  function HoldTx(db: Db, key: Key, user: UserId, auction: AuctionId, amount: int, newId: HoldId): Result {
    if !HasWallet(db, user) then Rejected(WalletNotFound)
    else
      var id := db.walletOf[user];
      var row := db.wallets[id];
      if row.available < amount then Rejected(InsufficientBalance)
      else
        var e := Entry(key, id, OpHold, amount, row.available, row.available - amount);
        var tx := UpdateBalance(db, id, row.available - amount, row.held + amount);
        if amount <= 0 || newId in db.holds || tx.None? then Rejected(DatabaseError)
        else Committed(tx.value.(ledger := Insert(db.ledger, e),
                       holds := db.holds[newId := Hold(auction, user, id, amount, Active)]),
                       Change(e, Some(newId)))
  }

  function ReleaseTx(db: Db, key: Key, h: HoldId): Result {
    if h !in db.holds || !db.holds[h].status.Active? then Rejected(HoldNotFound)
    else if db.holds[h].wallet !in db.wallets then Rejected(WalletNotFound)
    else
      var (id, amount) := (db.holds[h].wallet, db.holds[h].amount);
      var row := db.wallets[id];
      var e := Entry(key, id, OpRelease, amount, row.available, row.available + amount);
      var tx := UpdateBalance(db, id, row.available + amount, row.held - amount);
      if tx.None? then Rejected(DatabaseError)
      else Committed(SetStatus(tx.value, h, Released).(ledger := Insert(db.ledger, e)), Change(e, Some(h)))
  }

  function ChargeTx(db: Db, key: Key, h: HoldId): Result {
    if h !in db.holds || !db.holds[h].status.Active? then Rejected(HoldNotFound)
    else if db.holds[h].wallet !in db.wallets then Rejected(WalletNotFound)
    else
      var (id, amount) := (db.holds[h].wallet, db.holds[h].amount);
      var row := db.wallets[id];
      var e := Entry(key, id, OpCharge, amount, row.held, row.held - amount);
      var tx := UpdateBalance(db, id, row.available, row.held - amount);
      if tx.None? then Rejected(DatabaseError)
      else Committed(SetStatus(tx.value, h, Charged).(ledger := Insert(db.ledger, e)), Change(e, Some(h)))
  }

  /** Credits and deposits differ only in the kind of their audit entry. */
  function AddTx(db: Db, key: Key, op: Op, user: UserId, amount: int): Result {
    if !HasWallet(db, user) then Rejected(WalletNotFound)
    else
      var id := db.walletOf[user];
      var row := db.wallets[id];
      var e := Entry(key, id, op, amount, row.available, row.available + amount);
      var tx := UpdateBalance(db, id, row.available + amount, row.held);
      if tx.None? then Rejected(DatabaseError)
      else Committed(tx.value.(ledger := Insert(db.ledger, e)), Change(e, None))
  }

  function Apply(db: Db, req: Request, newId: HoldId): Result {
    match req.action
    case HoldFunds(user, auction, amount) => HoldTx(db, req.key, user, auction, amount, newId)
    case ReleaseFunds(h) => ReleaseTx(db, req.key, h)
    case ChargeFunds(h) => ChargeTx(db, req.key, h)
    case CreditFunds(user, amount) => AddTx(db, req.key, OpCredit, user, amount)
    case DepositFunds(user, amount) => AddTx(db, req.key, OpDeposit, user, amount)
  }

  // ---- The effect of a change on a wallet, read off its audit entry ----

  function Effect(row: Wallet, op: Op, amount: int): Wallet {
    match op
    case OpHold => Wallet(row.available - amount, row.held + amount)
    case OpRelease => Wallet(row.available + amount, row.held - amount)
    case OpCharge => Wallet(row.available, row.held - amount)
    case OpCredit => Wallet(row.available + amount, row.held)
    case OpDeposit => Wallet(row.available + amount, row.held)
  }

  /** The balance an entry documents: the held one for charges, the available one otherwise. */
  function Documented(row: Wallet, op: Op): int {
    if op.OpCharge? then row.held else row.available
  }

  /** The wallets that the entries lead to. */
  function Replay(wallets: map<WalletId, Wallet>, entries: seq<Entry>): map<WalletId, Wallet> {
    if entries == [] then wallets
    else
      var before := Replay(wallets, entries[..|entries| - 1]);
      var e := entries[|entries| - 1];
      if e.wallet in before then before[e.wallet := Effect(before[e.wallet], e.op, e.amount)] else before
  }

  lemma ReplayAppend(wallets: map<WalletId, Wallet>, entries: seq<Entry>, e: Entry)
    ensures Replay(wallets, entries + [e]) ==
            var before := Replay(wallets, entries);
            if e.wallet in before then before[e.wallet := Effect(before[e.wallet], e.op, e.amount)] else before
  {
    assert (entries + [e])[..|entries|] == entries;
  }

  /** What any committed transaction has done to the tables. */
  ghost predicate Applied(db: Db, after: Db, c: Change) {
    var e := c.entry;
    && e.wallet in db.wallets
    && after.wallets == db.wallets[e.wallet := Effect(db.wallets[e.wallet], e.op, e.amount)]
    && e.before == Documented(db.wallets[e.wallet], e.op)
    && e.after == Documented(after.wallets[e.wallet], e.op)
    && after.ledger == Insert(db.ledger, e)
    && after.walletOf == db.walletOf && after.outbox == db.outbox
    && (Leaves(c) ==> Unhold(db, after, c))
    && (!Leaves(c) ==> forall h | h in db.holds :: h in after.holds && after.holds[h] == db.holds[h])
  }

  predicate Leaves(c: Change) {
    c.hold.Some? && (c.entry.op.OpRelease? || c.entry.op.OpCharge?)
  }

  ghost predicate Unhold(db: Db, after: Db, c: Change)
    requires c.hold.Some?
  {
    var h := c.hold.value;
    && h in db.holds && db.holds[h].status.Active?
    && after.holds == db.holds[h := db.holds[h].(status := if c.entry.op.OpCharge? then Charged else Released)]
  }

  /** The change is the requested one: kind, wallet, amount and hold. */
  ghost predicate AsRequested(db: Db, req: Request, newId: HoldId, after: Db, c: Change) {
    var e := c.entry;
    && e.key == req.key
    && match req.action
       case HoldFunds(user, auction, amount) =>
         && e.op.OpHold? && user in db.walletOf && e.wallet == db.walletOf[user] && e.amount == amount
         && newId !in db.holds && after.holds == db.holds[newId := Hold(auction, user, e.wallet, amount, Active)]
       case ReleaseFunds(h) => e.op.OpRelease? && c.hold == Some(h) && OfHold(db, h, e)
       case ChargeFunds(h) => e.op.OpCharge? && c.hold == Some(h) && OfHold(db, h, e)
       case CreditFunds(user, amount) =>
         e.op.OpCredit? && user in db.walletOf && e.wallet == db.walletOf[user] && e.amount == amount && after.holds == db.holds
       case DepositFunds(user, amount) =>
         e.op.OpDeposit? && user in db.walletOf && e.wallet == db.walletOf[user] && e.amount == amount && after.holds == db.holds
  }

  predicate OfHold(db: Db, h: HoldId, e: Entry) {
    h in db.holds && e.wallet == db.holds[h].wallet && e.amount == db.holds[h].amount
  }

  lemma ApplyHasEffect(db: Db, req: Request, newId: HoldId)
    requires Apply(db, req, newId).Committed?
    ensures var r := Apply(db, req, newId); Applied(db, r.db, r.change) && AsRequested(db, req, newId, r.db, r.change)
  {
  }

  // ---- Consistency ----

  /** A hold and its wallet may change together if the held balance follows the hold. */
  lemma HoldAndWalletChange(db: Db, after: Db, row: Wallet, h: HoldId, hold: Hold)
    requires Consistent(db) && HasWallet(db, hold.bidder) && hold.wallet == db.walletOf[hold.bidder]
    requires 0 <= row.available && 0 <= row.held && 0 < hold.amount
    requires h in db.holds ==> db.holds[h].wallet == hold.wallet
    requires row.held == db.wallets[hold.wallet].held + HeldBy(hold, hold.wallet)
                         - if h in db.holds then HeldBy(db.holds[h], hold.wallet) else 0
    requires after.walletOf == db.walletOf
    requires after.wallets == db.wallets[hold.wallet := row] && after.holds == db.holds[h := hold]
    ensures Consistent(after)
  {
    hide SumOver;
    forall id | id in after.wallets ensures after.wallets[id].held == ActiveHolds(after.holds, id) {
      ActiveHoldsAfter(db.holds, h, hold, id);
    }
  }

  lemma HoldKeepsConsistent(db: Db, key: Key, user: UserId, auction: AuctionId, amount: int, newId: HoldId)
    requires Consistent(db) && HoldTx(db, key, user, auction, amount, newId).Committed?
    ensures Consistent(HoldTx(db, key, user, auction, amount, newId).db)
  {
    var (after, id) := (HoldTx(db, key, user, auction, amount, newId).db, db.walletOf[user]);
    HoldAndWalletChange(db, after, after.wallets[id], newId, Hold(auction, user, id, amount, Active));
  }

  lemma ReleaseKeepsConsistent(db: Db, key: Key, h: HoldId)
    requires Consistent(db) && ReleaseTx(db, key, h).Committed?
    ensures Consistent(ReleaseTx(db, key, h).db)
  {
    var after := ReleaseTx(db, key, h).db;
    HoldAndWalletChange(db, after, after.wallets[db.holds[h].wallet], h, db.holds[h].(status := Released));
  }

  lemma ChargeKeepsConsistent(db: Db, key: Key, h: HoldId)
    requires Consistent(db) && ChargeTx(db, key, h).Committed?
    ensures Consistent(ChargeTx(db, key, h).db)
  {
    var after := ChargeTx(db, key, h).db;
    HoldAndWalletChange(db, after, after.wallets[db.holds[h].wallet], h, db.holds[h].(status := Charged));
  }

  lemma AddKeepsConsistent(db: Db, key: Key, op: Op, user: UserId, amount: int)
    requires Consistent(db) && AddTx(db, key, op, user, amount).Committed?
    ensures Consistent(AddTx(db, key, op, user, amount).db)
  {
    var id := db.walletOf[user];
    WalletGrows(db, AddTx(db, key, op, user, amount).db, id, Wallet(db.wallets[id].available + amount, db.wallets[id].held));
  }

  lemma ApplyKeepsConsistent(db: Db, req: Request, newId: HoldId)
    requires Consistent(db) && Apply(db, req, newId).Committed?
    ensures Consistent(Apply(db, req, newId).db)
  {
    match req.action
    case HoldFunds(user, auction, amount) => HoldKeepsConsistent(db, req.key, user, auction, amount, newId);
    case ReleaseFunds(h) => ReleaseKeepsConsistent(db, req.key, h);
    case ChargeFunds(h) => ChargeKeepsConsistent(db, req.key, h);
    case CreditFunds(user, amount) => AddKeepsConsistent(db, req.key, OpCredit, user, amount);
    case DepositFunds(user, amount) => AddKeepsConsistent(db, req.key, OpDeposit, user, amount);
  }

  lemma WalletGrows(db: Db, after: Db, id: WalletId, row: Wallet)
    requires Consistent(db) && id in db.wallets && row.held == db.wallets[id].held && 0 <= row.available
    requires after.walletOf == db.walletOf && after.holds == db.holds && after.wallets == db.wallets[id := row]
    ensures Consistent(after)
  {
    forall k | k in after.wallets
      ensures 0 <= after.wallets[k].available && 0 <= after.wallets[k].held == ActiveHolds(after.holds, k)
    {
      assert db.wallets[k].held == ActiveHolds(db.holds, k);
    }
    forall h | h in after.holds
      ensures after.holds[h].wallet in after.wallets && 0 < after.holds[h].amount
      ensures HasWallet(after, after.holds[h].bidder) && after.walletOf[after.holds[h].bidder] == after.holds[h].wallet
    {
      assert 0 < db.holds[h].amount && HasWallet(db, db.holds[h].bidder);
    }
  }

  /** With consistent tables and a fresh hold id, no constraint of the schema is ever violated
      by a request that does not ask for a negative amount (nor for an empty hold). */
  lemma ConstraintsNeverFire(db: Db, req: Request, newId: HoldId)
    requires Consistent(db) && newId !in db.holds
    requires req.action.HoldFunds? ==> 0 < req.action.amount
    requires req.action.CreditFunds? || req.action.DepositFunds? ==> 0 <= req.action.amount
    ensures Apply(db, req, newId) != Rejected(DatabaseError)
  {
    if req.action.ReleaseFunds? || req.action.ChargeFunds? {
      var h := req.action.hold;
      if h in db.holds {
        HoldIsPart(db.holds, h, db.holds[h].wallet);
      }
    }
  }

  /** What a request needs to be granted. */
  predicate Grantable(db: Db, action: Action, newId: HoldId) {
    match action
    case HoldFunds(user, _, amount) =>
      HasWallet(db, user) && 0 < amount <= db.wallets[db.walletOf[user]].available && newId !in db.holds
    case ReleaseFunds(h) => h in db.holds && db.holds[h].status == Active
    case ChargeFunds(h) => h in db.holds && db.holds[h].status == Active
    case CreditFunds(user, amount) => HasWallet(db, user) && 0 <= db.wallets[db.walletOf[user]].available + amount
    case DepositFunds(user, amount) => HasWallet(db, user) && 0 <= db.wallets[db.walletOf[user]].available + amount
  }

  /** The user of the requests that name one has no wallet. */
  predicate NoWallet(db: Db, action: Action) {
    (action.HoldFunds? || action.CreditFunds? || action.DepositFunds?) && !HasWallet(db, action.user)
  }

  /** The wallet of a hold can always be released from or charged. */
  lemma HoldIsCovered(db: Db, h: HoldId)
    requires Consistent(db) && h in db.holds && db.holds[h].status.Active?
    ensures var hold := db.holds[h];
            && hold.wallet in db.wallets && 0 <= db.wallets[hold.wallet].available
            && 0 < hold.amount <= db.wallets[hold.wallet].held
  {
    HoldIsPart(db.holds, h, db.holds[h].wallet);
  }

  /** On consistent tables a request is granted exactly when its hold is active, or its user has a wallet
      that covers it; and every rejection has just one reason. */
  lemma CommitsExactlyWhen(db: Db, req: Request, newId: HoldId)
    requires Consistent(db)
    ensures var r := Apply(db, req, newId);
            && (r.Committed? <==> Grantable(db, req.action, newId))
            && (r == Rejected(WalletNotFound) <==> NoWallet(db, req.action))
            && (r == Rejected(HoldNotFound) <==>
                && (req.action.ReleaseFunds? || req.action.ChargeFunds?)
                && (req.action.hold in db.holds ==> db.holds[req.action.hold].status != Active))
            && (r == Rejected(InsufficientBalance) <==>
                && req.action.HoldFunds? && !NoWallet(db, req.action)
                && db.wallets[db.walletOf[req.action.user]].available < req.action.amount)
            && r != Rejected(DuplicateOperation)
  {
    if (req.action.ReleaseFunds? || req.action.ChargeFunds?) && req.action.hold in db.holds && db.holds[req.action.hold].status.Active? {
      HoldIsCovered(db, req.action.hold);
    }
  }

  // ---- Interleaved requests ----

  /** checked holds the requests that passed their key look-up and have not run their transaction yet. */
  datatype Sys = Sys(db: Db, checked: map<int, Request>, done: seq<Change>)

  datatype Step = Check(id: int, req: Request, lookupFails: bool)
                | Transact(id: int, newId: HoldId, fault: bool)

  function Next(s: Sys, step: Step): Sys {
    match step
    case Check(id, req, lookupFails) =>
      if id in s.checked || (!lookupFails && KeyUsed(s.db.ledger, req.key)) then s
      else s.(checked := s.checked[id := req])
    case Transact(id, newId, fault) =>
      if id !in s.checked then s
      else
        var r := Apply(s.db, s.checked[id], newId);
        if fault || r.Rejected? then s.(checked := s.checked - {id})
        else Sys(r.db, s.checked - {id}, s.done + [r.change])
  }

  function Run(db: Db, steps: seq<Step>): Sys {
    if steps == [] then Sys(db, map[], []) else Next(Run(db, steps[..|steps| - 1]), steps[|steps| - 1])
  }

  function Entries(done: seq<Change>): seq<Entry> {
    seq(|done|, i requires 0 <= i < |done| => done[i].entry)
  }

  ghost predicate LeftOnce(s: Sys) {
    && (forall i :: 0 <= i < |s.done| && Leaves(s.done[i]) ==>
                      s.done[i].hold.value in s.db.holds && !s.db.holds[s.done[i].hold.value].status.Active?)
    && (forall i, j :: 0 <= i < j < |s.done| && Leaves(s.done[i]) && Leaves(s.done[j]) ==>
                         s.done[i].hold != s.done[j].hold)
  }

  /** Each change documents the balance it found and the balance it left. */
  ghost predicate DocumentedAll(wallets: map<WalletId, Wallet>, entries: seq<Entry>) {
    forall i :: 0 <= i < |entries| ==> DocumentedAt(wallets, entries, i)
  }

  ghost predicate DocumentedAt(wallets: map<WalletId, Wallet>, entries: seq<Entry>, i: nat)
    requires i < |entries|
  {
    var (e, before, after) := (entries[i], Replay(wallets, entries[..i]), Replay(wallets, entries[..i + 1]));
    && e.wallet in before && e.wallet in after
    && e.before == Documented(before[e.wallet], e.op)
    && e.after == Documented(after[e.wallet], e.op)
    && e.after == if e.op.OpHold? || e.op.OpCharge? then e.before - e.amount else e.before + e.amount
  }

  /** In every interleaving of checks and transactions, whatever the keys and the faults: the
      tables stay consistent, a hold leaves the active state at most once, and the wallets are
      the initial ones changed by exactly the committed operations. */
  lemma {:induction false} Interleavings(db: Db, steps: seq<Step>)
    requires Consistent(db)
    ensures var s := Run(db, steps);
            && Consistent(s.db) && LeftOnce(s)
            && s.db.wallets == Replay(db.wallets, Entries(s.done))
            && DocumentedAll(db.wallets, Entries(s.done))
  {
    if steps != [] {
      var s := Run(db, steps[..|steps| - 1]);
      Interleavings(db, steps[..|steps| - 1]);
      NextIsDocumented(db.wallets, s, steps[|steps| - 1]);
    }
  }

  lemma NextIsDocumented(wallets: map<WalletId, Wallet>, s: Sys, step: Step)
    requires Consistent(s.db) && LeftOnce(s)
    requires s.db.wallets == Replay(wallets, Entries(s.done)) && DocumentedAll(wallets, Entries(s.done))
    ensures var t := Next(s, step);
            && Consistent(t.db) && LeftOnce(t)
            && t.db.wallets == Replay(wallets, Entries(t.done)) && DocumentedAll(wallets, Entries(t.done))
  {
    hide SumOver;
    if step.Transact? && step.id in s.checked && !step.fault {
      var r := Apply(s.db, s.checked[step.id], step.newId);
      if r.Committed? {
        ApplyHasEffect(s.db, s.checked[step.id], step.newId);
        ApplyKeepsConsistent(s.db, s.checked[step.id], step.newId);
        LeftOnceStep(s, r.db, r.change);
        CommitStep(wallets, s, r.db, r.change);
      }
    }
  }

  /** What the entries bring into wallet id: deposits and credits less charges. */
  function Net(entries: seq<Entry>, id: WalletId): int {
    if entries == [] then 0
    else
      var e := entries[|entries| - 1];
      Net(entries[..|entries| - 1], id) +
      if e.wallet != id then 0
      else if e.op.OpDeposit? || e.op.OpCredit? then e.amount
      else if e.op.OpCharge? then -e.amount
      else 0
  }

  lemma {:induction false} ReplayTotal(wallets: map<WalletId, Wallet>, entries: seq<Entry>, id: WalletId)
    requires id in wallets
    ensures var after := Replay(wallets, entries);
            id in after && after[id].Total() == wallets[id].Total() + Net(entries, id)
  {
    if entries != [] {
      ReplayTotal(wallets, entries[..|entries| - 1], id);
    }
  }

  /** In every interleaving the money of a wallet is its initial money plus committed deposits
      and credits less committed charges; holding and releasing move none of it. */
  lemma MoneyOfAWallet(db: Db, steps: seq<Step>, id: WalletId)
    requires Consistent(db) && id in db.wallets
    ensures var s := Run(db, steps);
            id in s.db.wallets && s.db.wallets[id].Total() == db.wallets[id].Total() + Net(Entries(s.done), id)
  {
    Interleavings(db, steps);
    ReplayTotal(db.wallets, Entries(Run(db, steps).done), id);
  }

  lemma LeftOnceStep(s: Sys, after: Db, c: Change)
    requires Applied(s.db, after, c) && LeftOnce(s)
    ensures LeftOnce(Sys(after, s.checked, s.done + [c]))
  {
    forall i | 0 <= i < |s.done| && Leaves(s.done[i])
      ensures var h := s.done[i].hold.value;
              h in after.holds && !after.holds[h].status.Active? && (Leaves(c) ==> s.done[i].hold != c.hold)
    {
    }
  }

  lemma CommitStep(wallets: map<WalletId, Wallet>, s: Sys, after: Db, c: Change)
    requires Applied(s.db, after, c)
    requires s.db.wallets == Replay(wallets, Entries(s.done)) && DocumentedAll(wallets, Entries(s.done))
    ensures after.wallets == Replay(wallets, Entries(s.done + [c]))
    ensures DocumentedAll(wallets, Entries(s.done + [c]))
  {
    var was, now := Entries(s.done), Entries(s.done + [c]);
    assert now == was + [c.entry];
    ReplayAppend(wallets, was, c.entry);
    forall i | 0 <= i < |now| ensures DocumentedAt(wallets, now, i) {
      assert now[..i] == was[..i];
      if i < |was| {
        assert now[..i + 1] == was[..i + 1];
        assert DocumentedAt(wallets, was, i);
      } else {
        assert was[..i] == was && now[..i + 1] == now;
      }
    }
  }

  // ---- The audit ledger ----

  /** The ledger documents everything that happened since it was ledger0. */
  ghost predicate Complete(ledger0: seq<Entry>, s: Sys) {
    s.db.ledger == ledger0 + Entries(s.done)
  }

  /** No look-up fails, and no two requests with the same key are between check and transaction. */
  ghost predicate Orderly(db: Db, steps: seq<Step>) {
    forall i :: 0 <= i < |steps| && steps[i].Check? ==> !steps[i].lookupFails && KeyFree(Run(db, steps[..i]), steps[i].req.key)
  }

  ghost predicate KeyFree(s: Sys, key: Key) {
    forall id | id in s.checked :: s.checked[id].key != key
  }

  /** Requests under way have different keys, none of which the ledger has. */
  ghost predicate KeysApart(s: Sys) {
    && (forall id | id in s.checked :: !KeyUsed(s.db.ledger, s.checked[id].key))
    && (forall id, jd | id in s.checked && jd in s.checked && id != jd :: s.checked[id].key != s.checked[jd].key)
  }

  /** Ledger replay: in an orderly run wallet_transactions lists exactly the committed operations,
      in commit order, so that replaying it over the initial balances yields every balance. */
  lemma {:induction false} LedgerIsComplete(db: Db, steps: seq<Step>)
    requires Orderly(db, steps)
    ensures Complete(db.ledger, Run(db, steps)) && KeysApart(Run(db, steps))
  {
    if steps == [] {
      assert db.ledger + Entries([]) == db.ledger;
    } else {
      var before := steps[..|steps| - 1];
      forall i | 0 <= i < |before| ensures before[..i] == steps[..i] {}
      LedgerIsComplete(db, before);
      var s, step := Run(db, before), steps[|steps| - 1];
      if step.Transact? && step.id in s.checked {
        var r := Apply(s.db, s.checked[step.id], step.newId);
        if !step.fault && r.Committed? {
          ApplyHasEffect(s.db, s.checked[step.id], step.newId);
          assert r.db.ledger == s.db.ledger + [r.change.entry];
          assert Entries(s.done + [r.change]) == Entries(s.done) + [r.change.entry];
        }
      }
    }
  }

  /** Whatever the ledger had before, the entries that an orderly run appends replay to the wallets. */
  lemma LedgerReplay(db: Db, steps: seq<Step>)
    requires Consistent(db) && Orderly(db, steps)
    ensures var s := Run(db, steps);
            && db.ledger <= s.db.ledger
            && s.db.wallets == Replay(db.wallets, s.db.ledger[|db.ledger|..])
            && DocumentedAll(db.wallets, s.db.ledger[|db.ledger|..])
            && (UniqueKeys(db.ledger) ==> UniqueKeys(s.db.ledger))
  {
    Interleavings(db, steps);
    LedgerIsComplete(db, steps);
    if UniqueKeys(db.ledger) {
      KeysStayUnique(db, steps);
    }
    var s := Run(db, steps);
    assert s.db.ledger[|db.ledger|..] == Entries(s.done);
  }

  ghost predicate UniqueKeys(ledger: seq<Entry>) {
    forall i, j :: 0 <= i < j < |ledger| ==> ledger[i].key != ledger[j].key
  }

  lemma {:induction false} KeysStayUnique(db: Db, steps: seq<Step>)
    requires UniqueKeys(db.ledger)
    ensures UniqueKeys(Run(db, steps).db.ledger)
  {
    if steps != [] {
      var before := steps[..|steps| - 1];
      KeysStayUnique(db, before);
      var s, step := Run(db, before), steps[|steps| - 1];
      if step.Transact? && step.id in s.checked && Apply(s.db, s.checked[step.id], step.newId).Committed? {
        ApplyHasEffect(s.db, s.checked[step.id], step.newId);
      }
    }
  }

  /** Transaction by transaction, and exactly: committing keeps the ledger in step with the
      wallets if and only if the key is new to the ledger or no money moves. */
  lemma CommitKeepsReplayIff(wallets: map<WalletId, Wallet>, db: Db, req: Request, newId: HoldId)
    requires Apply(db, req, newId).Committed? && db.wallets == Replay(wallets, db.ledger)
    ensures var r := Apply(db, req, newId);
            r.db.wallets == Replay(wallets, r.db.ledger) <==>
            !KeyUsed(db.ledger, req.key) || r.change.entry.amount == 0
  {
    var r := Apply(db, req, newId);
    var e := r.change.entry;
    ApplyHasEffect(db, req, newId);
    ReplayAppend(wallets, db.ledger, e);
    if KeyUsed(db.ledger, req.key) {
      var row := db.wallets[e.wallet];
      assert r.db.wallets == db.wallets[e.wallet := Effect(row, e.op, e.amount)];
      if e.amount == 0 {
        assert r.db.wallets == db.wallets;
      } else {
        assert r.db.wallets[e.wallet] != db.wallets[e.wallet];
      }
    }
  }

  /** The step commits a request with the key. */
  predicate Commits(s: Sys, step: Step, key: Key) {
    && step.Transact? && step.id in s.checked && s.checked[step.id].key == key
    && !step.fault && Apply(s.db, s.checked[step.id], step.newId).Committed?
  }

  /** Some step from position c on commits a request with the key. */
  predicate CommittedSince(db: Db, steps: seq<Step>, c: nat, key: Key)
    decreases |steps|
  {
    c < |steps| &&
    var n := |steps| - 1;
    CommittedSince(db, steps[..n], c, key) || Commits(Run(db, steps[..n]), steps[n], key)
  }

  lemma {:induction false} KeyUsedSince(db: Db, steps: seq<Step>, c: nat, key: Key)
    requires c <= |steps|
    ensures KeyUsed(Run(db, steps).db.ledger, key) <==>
            KeyUsed(Run(db, steps[..c]).db.ledger, key) || CommittedSince(db, steps, c, key)
    decreases |steps|
  {
    if c == |steps| {
      assert steps[..c] == steps;
    } else {
      var n := |steps| - 1;
      KeyUsedSince(db, steps[..n], c, key);
      assert steps[..n][..c] == steps[..c];
      StepUsesKey(Run(db, steps[..n]), steps[n], key);
    }
  }

  lemma StepUsesKey(s: Sys, step: Step, key: Key)
    ensures KeyUsed(Next(s, step).db.ledger, key) <==> KeyUsed(s.db.ledger, key) || Commits(s, step, key)
  {
    if step.Transact? && step.id in s.checked && !step.fault && Apply(s.db, s.checked[step.id], step.newId).Committed? {
      ApplyHasEffect(s.db, s.checked[step.id], step.newId);
      InsertUsesKey(s.db.ledger, Apply(s.db, s.checked[step.id], step.newId).change.entry, key);
    }
  }

  lemma InsertUsesKey(ledger: seq<Entry>, e: Entry, key: Key)
    ensures KeyUsed(Insert(ledger, e), key) <==> KeyUsed(ledger, key) || e.key == key
  {
    if !KeyUsed(ledger, e.key) {
      assert (ledger + [e])[|ledger|] == e;
      assert forall i :: 0 <= i < |ledger| ==> (ledger + [e])[i] == ledger[i];
    }
  }

  /** When a request that passed its check comes to its transaction, its key has been used by another
      commit exactly when its look-up failed to see that, or the commit came after the look-up. */
  lemma SharedKeyExactlyWhen(db: Db, steps: seq<Step>, c: nat, id: int, req: Request, lookupFails: bool)
    requires c < |steps| && steps[c] == Check(id, req, lookupFails)
    requires var s := Run(db, steps[..c]); id !in s.checked && id in Next(s, steps[c]).checked
    ensures KeyUsed(Run(db, steps).db.ledger, req.key) <==>
            || (lookupFails && KeyUsed(Run(db, steps[..c]).db.ledger, req.key))
            || CommittedSince(db, steps, c + 1, req.key)
  {
    assert steps[..c + 1][..c] == steps[..c];
    KeyUsedSince(db, steps, c + 1, req.key);
  }

  /** The guarantee needs the order: two overlapping deposits with one key both change the balance,
      and the ledger documents only the first. */
  lemma OverlappingDepositsBothCount(db: Db, user: UserId, key: Key, amount: int)
    requires HasWallet(db, user) && !KeyUsed(db.ledger, key) && 0 < amount
    requires 0 <= db.wallets[db.walletOf[user]].available && 0 <= db.wallets[db.walletOf[user]].held
    ensures var (id, deposit) := (db.walletOf[user], Request(key, DepositFunds(user, amount)));
            var checked := Next(Next(Sys(db, map[], []), Check(1, deposit, false)), Check(2, deposit, false));
            var s := Next(Next(checked, Transact(1, 0, false)), Transact(2, 0, false));
            && id in s.db.wallets && s.db.wallets[id].available == db.wallets[id].available + 2 * amount
            && |s.db.ledger| == |db.ledger| + 1
  {
    var (id, deposit) := (db.walletOf[user], Request(key, DepositFunds(user, amount)));
    var first := AddTx(db, key, OpDeposit, user, amount).db;
    assert first.ledger[|db.ledger|].key == key;
    var second := AddTx(first, key, OpDeposit, user, amount).db;
    assert second.ledger == first.ledger && second.wallets[id].available == db.wallets[id].available + 2 * amount;
  }

  // ---- The service ----

  datatype Reply = Granted(before: int, after: int) | Denied(why: Failure)

  /** A request that no other request comes between. */
  function Serve(db: Db, req: Request, newId: HoldId, lookupFails: bool, fault: bool): (Db, Reply) {
    if !lookupFails && KeyUsed(db.ledger, req.key) then (db, Denied(DuplicateOperation))
    else
      match Apply(db, req, newId)
      case Rejected(why) => (db, Denied(why))
      case Committed(after, c) =>
        if fault then (db, Denied(DatabaseError)) else (after, Granted(c.entry.before, c.entry.after))
  }

  class Service {
    var db: Db

    constructor (db: Db)
      ensures this.db == db
    {
      this.db := db;
    }

    method CheckIdempotencyKey(key: Key) returns (exists': bool)
      ensures exists' == KeyUsed(db.ledger, key)
    {
      exists' := false;
      for i := 0 to |db.ledger|
        invariant exists' == exists k :: 0 <= k < i && db.ledger[k].key == key
      {
        if db.ledger[i].key == key {
          exists' := true;
        }
      }
    }

    method HoldFunds(key: Key, user: UserId, auction: AuctionId, amount: int, newId: HoldId,
                     lookupFails: bool, fault: bool) returns (reply: Reply)
      modifies this
      ensures (db, reply) == Serve(old(db), Request(key, Action.HoldFunds(user, auction, amount)), newId, lookupFails, fault)
    {
      var duplicate := CheckIdempotencyKey(key);
      if duplicate && !lookupFails {
        return Denied(DuplicateOperation);
      }
      var tx := db;
      if !HasWallet(tx, user) {
        return Denied(WalletNotFound);
      }
      var id := tx.walletOf[user];
      var row := tx.wallets[id];
      if row.available < amount {
        return Denied(InsufficientBalance);
      }
      var newAvailable, newHeld := row.available - amount, row.held + amount;
      tx := tx.(ledger := Insert(tx.ledger, Entry(key, id, OpHold, amount, row.available, newAvailable)));
      if amount <= 0 || newId in tx.holds {
        return Denied(DatabaseError);
      }
      tx := tx.(holds := tx.holds[newId := Hold(auction, user, id, amount, Active)]);
      var updated := UpdateBalance(tx, id, newAvailable, newHeld);
      if updated.None? || fault {
        return Denied(DatabaseError);
      }
      db := updated.value;
      return Granted(row.available, newAvailable);
    }

    method ReleaseFunds(key: Key, h: HoldId, lookupFails: bool, fault: bool) returns (reply: Reply)
      modifies this
      ensures (db, reply) == Serve(old(db), Request(key, Action.ReleaseFunds(h)), 0, lookupFails, fault)
    {
      var duplicate := CheckIdempotencyKey(key);
      if duplicate && !lookupFails {
        return Denied(DuplicateOperation);
      }
      var tx := db;
      if h !in tx.holds || tx.holds[h].status != Active {
        return Denied(HoldNotFound);
      }
      var hold := tx.holds[h];
      if hold.wallet !in tx.wallets {
        return Denied(WalletNotFound);
      }
      var row := tx.wallets[hold.wallet];
      var newAvailable, newHeld := row.available + hold.amount, row.held - hold.amount;
      tx := tx.(ledger := Insert(tx.ledger, Entry(key, hold.wallet, OpRelease, hold.amount, row.available, newAvailable)));
      tx := SetStatus(tx, h, Released);
      var updated := UpdateBalance(tx, hold.wallet, newAvailable, newHeld);
      if updated.None? || fault {
        return Denied(DatabaseError);
      }
      db := updated.value;
      return Granted(row.available, newAvailable);
    }

    method ChargeFunds(key: Key, h: HoldId, lookupFails: bool, fault: bool) returns (reply: Reply)
      modifies this
      ensures (db, reply) == Serve(old(db), Request(key, Action.ChargeFunds(h)), 0, lookupFails, fault)
    {
      var duplicate := CheckIdempotencyKey(key);
      if duplicate && !lookupFails {
        return Denied(DuplicateOperation);
      }
      var tx := db;
      if h !in tx.holds || tx.holds[h].status != Active {
        return Denied(HoldNotFound);
      }
      var hold := tx.holds[h];
      if hold.wallet !in tx.wallets {
        return Denied(WalletNotFound);
      }
      var row := tx.wallets[hold.wallet];
      var newHeld := row.held - hold.amount;
      tx := tx.(ledger := Insert(tx.ledger, Entry(key, hold.wallet, OpCharge, hold.amount, row.held, newHeld)));
      tx := SetStatus(tx, h, Charged);
      var updated := UpdateBalance(tx, hold.wallet, row.available, newHeld);
      if updated.None? || fault {
        return Denied(DatabaseError);
      }
      db := updated.value;
      return Granted(row.held, newHeld);
    }

    method CreditFunds(key: Key, user: UserId, amount: int, lookupFails: bool, fault: bool) returns (reply: Reply)
      modifies this
      ensures (db, reply) == Serve(old(db), Request(key, Action.CreditFunds(user, amount)), 0, lookupFails, fault)
    {
      reply := Add(key, OpCredit, user, amount, lookupFails, fault);
    }

    method DepositFunds(key: Key, user: UserId, amount: int, lookupFails: bool, fault: bool) returns (reply: Reply)
      modifies this
      ensures (db, reply) == Serve(old(db), Request(key, Action.DepositFunds(user, amount)), 0, lookupFails, fault)
    {
      reply := Add(key, OpDeposit, user, amount, lookupFails, fault);
    }

    method Add(key: Key, op: Op, user: UserId, amount: int, lookupFails: bool, fault: bool) returns (reply: Reply)
      requires op.OpCredit? || op.OpDeposit?
      modifies this
      ensures (db, reply) == Serve(old(db), Request(key, if op.OpCredit? then Action.CreditFunds(user, amount)
                                                    else Action.DepositFunds(user, amount)), 0, lookupFails, fault)
    {
      var duplicate := CheckIdempotencyKey(key);
      if duplicate && !lookupFails {
        return Denied(DuplicateOperation);
      }
      var tx := db;
      if !HasWallet(tx, user) {
        return Denied(WalletNotFound);
      }
      var id := tx.walletOf[user];
      var row := tx.wallets[id];
      var newAvailable := row.available + amount;
      tx := tx.(ledger := Insert(tx.ledger, Entry(key, id, op, amount, row.available, newAvailable)));
      var updated := UpdateBalance(tx, id, newAvailable, row.held);
      if updated.None? || fault {
        return Denied(DatabaseError);
      }
      db := updated.value;
      return Granted(row.available, newAvailable);
    }
  }

  /** Serving a request alone is its check followed at once by its transaction. */
  lemma ServeIsCheckThenTransact(db: Db, req: Request, newId: HoldId, lookupFails: bool, fault: bool)
    ensures Serve(db, req, newId, lookupFails, fault).0 ==
            Next(Next(Sys(db, map[], []), Check(0, req, lookupFails)), Transact(0, newId, fault)).db
  {
  }

  /** The wallet that a request is about. */
  function WalletOf(db: Db, action: Action): WalletId
    requires Consistent(db)
    requires if action.ReleaseFunds? || action.ChargeFunds? then action.hold in db.holds else HasWallet(db, action.user)
    ensures WalletOf(db, action) in db.wallets
  {
    if action.ReleaseFunds? || action.ChargeFunds? then db.holds[action.hold].wallet else db.walletOf[action.user]
  }

  /** What is replied: a duplicate is refused when its look-up succeeds, a failing transaction is an error,
      and a grant states the balance before and after, the held one for a charge. */
  lemma RepliesExactly(db: Db, req: Request, newId: HoldId, lookupFails: bool, fault: bool)
    requires Consistent(db)
    ensures var (after, reply) := Serve(db, req, newId, lookupFails, fault);
            var duplicate := !lookupFails && KeyUsed(db.ledger, req.key);
            && (reply.Granted? <==> !duplicate && !fault && Grantable(db, req.action, newId))
            && (reply == Denied(DuplicateOperation) <==> duplicate)
            && (!duplicate && fault && Grantable(db, req.action, newId) ==> reply == Denied(DatabaseError))
            && (!duplicate && !Grantable(db, req.action, newId) ==> reply == Denied(Apply(db, req, newId).why))
            && (reply.Denied? ==> after == db)
            && (reply.Granted? ==>
                  var id := WalletOf(db, req.action);
                  && id in after.wallets
                  && (reply.before, reply.after) == if req.action.ChargeFunds? then (db.wallets[id].held, after.wallets[id].held)
                                                    else (db.wallets[id].available, after.wallets[id].available))
  {
    CommitsExactlyWhen(db, req, newId);
  }

  /** Executing a request again, with the same key, changes nothing and is reported as duplicate,
      as long as the look-up of the key succeeds. */
  lemma ServedOnce(db: Db, req: Request, newId: HoldId, again: HoldId, lookupFails: bool, fault: bool)
    ensures var (after, reply) := Serve(db, req, newId, lookupFails, false);
            reply.Granted? ==> Serve(after, req, again, false, fault) == (after, Denied(DuplicateOperation))
  {
    if Apply(db, req, newId).Committed? {
      ApplyHasEffect(db, req, newId);
      InsertUsesKey(db.ledger, Apply(db, req, newId).change.entry, req.key);
    }
  }

  /** What a second execution of the action would change. */
  predicate Repeats(db: Db, action: Action, newId: HoldId) {
    match action
    case ReleaseFunds(_) => false
    case ChargeFunds(_) => false
    case CreditFunds(user, amount) => Adds(db, user, amount)
    case DepositFunds(user, amount) => Adds(db, user, amount)
    case HoldFunds(user, _, amount) =>
      HasWallet(db, user) && 0 < amount <= db.wallets[db.walletOf[user]].available && newId !in db.holds
  }

  predicate Adds(db: Db, user: UserId, amount: int) {
    HasWallet(db, user) && amount != 0 && 0 <= db.wallets[db.walletOf[user]].available + amount
  }

  /** Executing a granted request again changes something exactly when the look-up of its key fails
      and its transaction does not, and it is a credit or deposit of some money, or a hold that is
      covered once more; a release or charge can never be repeated. */
  lemma RepeatChangesExactlyWhen(db: Db, req: Request, newId: HoldId, blind: bool, again: HoldId, lookupFails: bool, fault: bool)
    requires Consistent(db) && Serve(db, req, newId, blind, false).1.Granted?
    ensures var after := Serve(db, req, newId, blind, false).0;
            Serve(after, req, again, lookupFails, fault).0 != after <==>
            lookupFails && !fault && Repeats(after, req.action, again)
  {
    ServedOnce(db, req, newId, again, blind, fault);
    ApplyHasEffect(db, req, newId);
    ApplyKeepsConsistent(db, req, newId);
    var after := Apply(db, req, newId).db;
    InsertUsesKey(db.ledger, Apply(db, req, newId).change.entry, req.key);
    RepeatedApply(after, req, again);
  }

  lemma RepeatedApply(db: Db, req: Request, newId: HoldId)
    requires Consistent(db) && KeyUsed(db.ledger, req.key)
    requires req.action.ReleaseFunds? || req.action.ChargeFunds? ==>
               req.action.hold in db.holds && !db.holds[req.action.hold].status.Active?
    ensures var r := Apply(db, req, newId);
            r.Committed? && r.db != db <==> Repeats(db, req.action, newId)
  {
    var r := Apply(db, req, newId);
    match req.action
    case HoldFunds(user, _, _) =>
      if r.Committed? {
        assert newId in r.db.holds;
      }
    case ReleaseFunds(_) =>
    case ChargeFunds(_) =>
    case CreditFunds(user, amount) => AddedAgain(db, req.key, OpCredit, user, amount);
    case DepositFunds(user, amount) => AddedAgain(db, req.key, OpDeposit, user, amount);
  }

  lemma AddedAgain(db: Db, key: Key, op: Op, user: UserId, amount: int)
    requires Consistent(db) && KeyUsed(db.ledger, key)
    ensures var r := AddTx(db, key, op, user, amount);
            r.Committed? && r.db != db <==> Adds(db, user, amount)
  {
    if HasWallet(db, user) {
      var id := db.walletOf[user];
      var row := db.wallets[id];
      if amount == 0 {
        assert db.wallets[id := Wallet(row.available, row.held)] == db.wallets;
      } else {
        assert db.wallets[id := Wallet(row.available + amount, row.held)][id] != db.wallets[id];
      }
    }
  }

  /** Two deposits with one key, one after the other: if the second look-up fails, both count. */
  lemma FailedLookupCountsTwice(db: Db, user: UserId, key: Key, amount: int)
    requires HasWallet(db, user) && !KeyUsed(db.ledger, key) && 0 < amount
    requires 0 <= db.wallets[db.walletOf[user]].available && 0 <= db.wallets[db.walletOf[user]].held
    ensures var (id, deposit) := (db.walletOf[user], Request(key, DepositFunds(user, amount)));
            var (once, first) := Serve(db, deposit, 0, false, false);
            var (twice, second) := Serve(once, deposit, 0, true, false);
            && first.Granted? && second.Granted?
            && id in twice.wallets && twice.wallets[id].available == db.wallets[id].available + 2 * amount
            && |twice.ledger| == |db.ledger| + 1
  {
    var once := AddTx(db, key, OpDeposit, user, amount).db;
    assert once.ledger[|db.ledger|].key == key;
  }
}
