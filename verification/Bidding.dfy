/** One auction across the services: bids with their holds on the user wallets, the
    cached highest bid, the scheduler's choice of a winner and the wallet consumer that
    pays the seller. The auction lock makes each bid one step; Env says which of the
    calls to other systems take effect. Money is in cents. */
module Bidding {
  import opened Optional
  import opened Sums

  type User = int

  datatype Bid = Bid(user: User, amount: int)

  datatype Auction = Auction(active: bool, seller: User, reserve: int, price: int, winner: Option<Bid>)

  datatype State = State(auction: Auction, bids: seq<Bid>, cache: Option<int>, wallets: Wallets)

  datatype Kind = TxHold | TxRelease | TxSettle | TxCredit

  /** A row of wallet_transactions. */
  datatype Move = Move(user: User, kind: Kind, delta: int, before: int, after: int)

  datatype Wallets = Wallets(balances: map<User, int>, history: seq<Move>)

  datatype Env = Env(cacheRead: bool, maxRead: bool, hold: bool, save: bool, cacheSet: bool, priceSet: bool,
                     bidderRead: bool, release: bool)

  datatype Outcome = Accepted | AuctionNotActive | SellerCannotBid | ReadFailed | BidTooLow | SaveFailed

  // ---- User wallets ----

  /** Adds delta to a balance, which must exist and must not become negative, and records it. */
  function AdjustBalance(w: Wallets, user: User, kind: Kind, delta: int): Option<Wallets> {
    if user in w.balances && 0 <= w.balances[user] + delta then
      var before := w.balances[user];
      Some(Wallets(w.balances[user := before + delta], w.history + [Move(user, kind, delta, before, before + delta)]))
    else
      None
  }

  /** The callers of the wallets only log an error. */
  function Attempted(w: Wallets, call: bool, user: User, kind: Kind, delta: int): Wallets {
    var after := AdjustBalance(w, user, kind, delta);
    if call && after.Some? then after.value else w
  }

  // ---- Queries over the bids ----

  /** ORDER BY amount DESC LIMIT 1; of equal amounts the earliest. */
  function Top(bids: seq<Bid>): Bid
    requires bids != []
  {
    if |bids| == 1 then bids[0]
    else
      var rest := Top(bids[..|bids| - 1]);
      if bids[|bids| - 1].amount > rest.amount then bids[|bids| - 1] else rest
  }

  /** COALESCE(MAX(amount), 0) */
  function Lead(bids: seq<Bid>): int {
    if bids == [] then 0 else Top(bids).amount
  }

  // ---- Placing a bid ----

  /** The bidder that was leading gets back what was read as the highest bid. */
  function ReleasePrevious(w: Wallets, bids: seq<Bid>, highest: int, env: Env): Wallets {
    if 0 < highest && env.bidderRead && bids != []
    then Attempted(w, env.release, Top(bids).user, TxRelease, highest) else w
  }

  predicate CacheMisses(s: State) {
    s.cache.None? || s.cache.value == 0
  }

  function HighestBid(s: State, env: Env): Option<int> {
    if env.cacheRead && !CacheMisses(s) then s.cache
    else if env.maxRead then Some(Lead(s.bids))
    else None
  }

  function Max(a: int, b: int): int {
    if a < b then b else a
  }

  function PlaceBid(s: State, user: User, amount: int, env: Env): (State, Outcome) {
    var highest := HighestBid(s, env);
    if !s.auction.active then (s, AuctionNotActive)
    else if s.auction.seller == user then (s, SellerCannotBid)
    else if highest.None? then (s, ReadFailed)
    else if amount <= Max(s.auction.price, highest.value) then (s, BidTooLow)
    else
      var held := Attempted(s.wallets, env.hold, user, TxHold, -amount);
      if !env.save then (s.(wallets := held), SaveFailed)
      else
        (State(if env.priceSet then s.auction.(price := amount) else s.auction,
         s.bids + [Bid(user, amount)],
         if env.cacheSet then Some(amount) else s.cache,
         ReleasePrevious(held, s.bids, highest.value, env)),
         Accepted)
  }

  // ---- The end of the auction ----

  datatype Ended = Ended(seller: User, winner: Option<Bid>)

  /** read and write: do the queries of the scheduler succeed? Without an event the
      auction is taken up again at the next tick. */
  function EndAuction(s: State, read: bool, write: bool): (State, Option<Ended>) {
    if read && s.bids != [] && Top(s.bids).amount >= s.auction.reserve then
      var top := Top(s.bids);
      if write
      then (s.(auction := s.auction.(active := false, price := top.amount, winner := Some(top))),
            Some(Ended(s.auction.seller, Some(top))))
      else (s, None)
    else
      (if write then s.(auction := s.auction.(active := false)) else s, Some(Ended(s.auction.seller, None)))
  }

  /** The winner's hold becomes a charge without a change of balance; the seller is paid. */
  function HandleEnded(w: Wallets, event: Ended, settle: bool, credit: bool): Wallets {
    if event.winner.None? then w
    else
      var settled := Attempted(w, settle, event.winner.value.user, TxSettle, 0);
      Attempted(settled, credit, event.seller, TxCredit, event.winner.value.amount)
  }

  class AuctionHouse {
    var auction: Auction
    var bids: seq<Bid>
    var cache: Option<int>
    var wallets: Wallets

    function View(): State
      reads this
    {
      State(auction, bids, cache, wallets)
    }

    constructor (auction: Auction, wallets: Wallets)
      ensures View() == State(auction, [], None, wallets)
    {
      this.auction, this.wallets := auction, wallets;
      bids, cache := [], None;
    }

    /** AdjustBalance in a transaction of its own. */
    method Adjust(user: User, kind: Kind, delta: int) returns (ok: bool)
      modifies this`wallets
      ensures wallets == Attempted(old(wallets), true, user, kind, delta)
      ensures ok == AdjustBalance(old(wallets), user, kind, delta).Some?
    {
      if user !in wallets.balances {
        return false;
      }
      var before := wallets.balances[user];
      var after := before + delta;
      if after < 0 {
        return false;
      }
      wallets := Wallets(wallets.balances[user := after], wallets.history + [Move(user, kind, delta, before, after)]);
      ok := true;
    }

    method Place(user: User, amount: int, env: Env) returns (outcome: Outcome)
      modifies this
      ensures (View(), outcome) == PlaceBid(old(View()), user, amount, env)
    {
      if !auction.active {
        return AuctionNotActive;
      }
      if auction.seller == user {
        return SellerCannotBid;
      }
      var highestBid := 0;
      if env.cacheRead && cache.Some? {
        highestBid := cache.value;
      }
      if highestBid == 0 {
        if !env.maxRead {
          return ReadFailed;
        }
        highestBid := Lead(bids);
      }
      var floor := auction.price;
      if highestBid > floor {
        floor := highestBid;
      }
      if amount <= floor {
        return BidTooLow;
      }
      if env.hold {
        var held := Adjust(user, TxHold, -amount);
      }
      if !env.save {
        return SaveFailed;
      }
      var others := bids;
      bids := bids + [Bid(user, amount)];
      if env.cacheSet {
        cache := Some(amount);
      }
      if env.priceSet {
        auction := auction.(price := amount);
      }
      Release(others, highestBid, env);
      outcome := Accepted;
    }

    method Release(others: seq<Bid>, highestBid: int, env: Env)
      modifies this`wallets
      ensures wallets == ReleasePrevious(old(wallets), others, highestBid, env)
    {
      if highestBid > 0 {
        if env.bidderRead && others != [] {
          var previous := Top(others).user;
          if env.release {
            var released := Adjust(previous, TxRelease, highestBid);
          }
        }
      }
    }

    method End(read: bool, write: bool) returns (event: Option<Ended>)
      modifies this`auction
      ensures (View(), event) == EndAuction(old(View()), read, write)
    {
      var winner: Option<Bid> := None;
      if read && bids != [] {
        winner := Some(Top(bids));
      }
      if winner.Some? && winner.value.amount >= auction.reserve {
        if !write {
          return None;
        }
        auction := auction.(active := false, price := winner.value.amount, winner := winner);
        event := Some(Ended(auction.seller, winner));
      } else {
        if write {
          auction := auction.(active := false);
        }
        event := Some(Ended(auction.seller, None));
      }
    }

    method HandleAuctionEnded(event: Ended, settle: bool, credit: bool)
      modifies this`wallets
      ensures wallets == HandleEnded(old(wallets), event, settle, credit)
    {
      if event.winner.None? {
        return;
      }
      if settle {
        var settled := Adjust(event.winner.value.user, TxSettle, 0);
      }
      if credit {
        var credited := Adjust(event.seller, TxCredit, event.winner.value.amount);
      }
    }
  }

  // ---- What each operation does ----

  /** What the attempt knows as the highest bid, if it can read it. */
  predicate Knows(s: State, env: Env, highest: int) {
    if env.cacheRead && s.cache.Some? && s.cache.value != 0 then highest == s.cache.value
    else env.maxRead && (if s.bids == [] then highest == 0 else IsLargest(s.bids, highest))
  }

  /** Some bid has the amount, and none has more. */
  predicate IsLargest(bids: seq<Bid>, amount: int) {
    && (exists i :: 0 <= i < |bids| && bids[i].amount == amount)
    && forall i :: 0 <= i < |bids| ==> bids[i].amount <= amount
  }

  lemma {:induction false} TopIsLargest(bids: seq<Bid>)
    requires bids != []
    ensures Top(bids) in bids && IsLargest(bids, Top(bids).amount)
    ensures forall i :: 0 <= i < |bids| && bids[i].amount == Top(bids).amount && bids[i] != Top(bids) ==>
                          exists j :: 0 <= j < i && bids[j] == Top(bids)
  {
    var n := |bids| - 1;
    if n > 0 {
      TopIsLargest(bids[..n]);
      var rest := Top(bids[..n]);
      var k :| 0 <= k < n && bids[..n][k] == rest;
      assert bids[k] == rest;
      forall i | 0 <= i < n ensures bids[i].amount <= rest.amount {
        assert bids[..n][i] == bids[i];
      }
      var top := if bids[n].amount > rest.amount then n else k;
      assert bids[top] == Top(bids);
      forall i | 0 <= i < |bids| && bids[i].amount == Top(bids).amount && bids[i] != Top(bids)
        ensures exists j :: 0 <= j < i && bids[j] == Top(bids)
      {
        if i == n {
          assert bids[k] == rest;
        } else {
          assert bids[..n][i] == bids[i];
          var j :| 0 <= j < i && bids[..n][j] == rest;
          assert bids[j] == rest;
        }
      }
    }
  }

  /** A bid is let through exactly when the auction is active, the bidder is not its seller, the highest
      bid can be read, and the amount is above it and above the price. */
  ghost predicate LetThrough(s: State, user: User, amount: int, env: Env) {
    && s.auction.active && user != s.auction.seller && s.auction.price < amount
    && exists highest :: Knows(s, env, highest) && highest < amount
  }

  /** Which check refuses a bid. */
  lemma RefusesExactlyWhen(s: State, user: User, amount: int, env: Env)
    ensures var outcome := PlaceBid(s, user, amount, env).1;
            var readable := exists highest :: Knows(s, env, highest);
            && (outcome == AuctionNotActive <==> !s.auction.active)
            && (outcome == SellerCannotBid <==> s.auction.active && user == s.auction.seller)
            && (outcome == ReadFailed <==> s.auction.active && user != s.auction.seller && !readable)
            && (outcome == BidTooLow <==>
                s.auction.active && user != s.auction.seller && readable && !LetThrough(s, user, amount, env))
            && (outcome == SaveFailed <==> LetThrough(s, user, amount, env) && !env.save)
            && (outcome == Accepted <==> LetThrough(s, user, amount, env) && env.save)
  {
    if HighestBid(s, env).Some? {
      KnowsTheHighest(s, env);
      assert Knows(s, env, HighestBid(s, env).value);
    } else {
      assert forall highest :: !Knows(s, env, highest);
    }
  }

  lemma KnowsTheHighest(s: State, env: Env)
    requires HighestBid(s, env).Some?
    ensures forall highest :: Knows(s, env, highest) <==> highest == HighestBid(s, env).value
  {
    if s.bids != [] {
      TopIsLargest(s.bids);
    }
    forall highest ensures Knows(s, env, highest) <==> highest == HighestBid(s, env).value {
      if s.bids != [] && IsLargest(s.bids, highest) {
        var i :| 0 <= i < |s.bids| && s.bids[i].amount == highest;
        var j :| 0 <= j < |s.bids| && s.bids[j] == Top(s.bids);
      }
    }
  }

  /** What an attempt leaves: an accepted bid is appended, and is the cached highest bid and the price as
      far as those writes take effect; one that cannot be saved leaves only its hold; any other nothing. */
  lemma LeavesExactly(s: State, user: User, amount: int, env: Env)
    ensures var (t, outcome) := PlaceBid(s, user, amount, env);
            && (outcome == Accepted ==>
                  && t.bids == s.bids + [Bid(user, amount)]
                  && t.cache == (if env.cacheSet then Some(amount) else s.cache)
                  && t.auction.price == (if env.priceSet then amount else s.auction.price))
            && (outcome != Accepted ==> t.bids == s.bids && t.cache == s.cache && t.auction.price == s.auction.price)
            && (outcome != Accepted && outcome != SaveFailed ==> t.wallets == s.wallets)
            && (t.auction.active, t.auction.seller, t.auction.reserve, t.auction.winner) ==
               (s.auction.active, s.auction.seller, s.auction.reserve, s.auction.winner)
  {
  }

  /** The wallet service makes the move, if it is reached, exactly when the user has a wallet that covers it. */
  ghost predicate MovedOnce(w: Wallets, w': Wallets, call: bool, user: User, kind: Kind, delta: int) {
    if call && user in w.balances && 0 <= w.balances[user] + delta then
      && w'.balances.Keys == w.balances.Keys && w'.balances[user] == w.balances[user] + delta
      && (forall u | u in w.balances && u != user :: w'.balances[u] == w.balances[u])
      && w'.history == w.history + [Move(user, kind, delta, w.balances[user], w.balances[user] + delta)]
    else
      w' == w
  }

  /** The money of a bid that is let through: first the bidder's amount is held; then, once the bid is
      saved, the amount known as the highest goes back to the bidder of the largest bid so far, if there
      is one and it can be read. */
  lemma HoldsAndReleases(s: State, user: User, amount: int, env: Env) returns (held: Wallets)
    requires LetThrough(s, user, amount, env)
    ensures var after := PlaceBid(s, user, amount, env).0.wallets;
            && MovedOnce(s.wallets, held, env.hold, user, TxHold, -amount)
            && (!env.save ==> after == held)
            && (env.save && s.bids == [] ==> after == held)
            && (env.save && s.bids != [] ==>
                  forall highest :: Knows(s, env, highest) ==>
                                      if 0 < highest then MovedOnce(held, after, env.bidderRead && env.release, Top(s.bids).user, TxRelease, highest)
                                      else after == held)
  {
    RefusesExactlyWhen(s, user, amount, env);
    held := Attempted(s.wallets, env.hold, user, TxHold, -amount);
    KnowsTheHighest(s, env);
  }

  /** The ended event: the winner's hold is settled by a move of nothing, then the seller is credited;
      an event without a winner moves nothing. */
  lemma HandlesExactly(w: Wallets, event: Ended, settle: bool, credit: bool) returns (settled: Wallets)
    ensures var after := HandleEnded(w, event, settle, credit);
            && (event.winner == None ==> after == w)
            && (event.winner.Some? ==>
                  && MovedOnce(w, settled, settle, event.winner.value.user, TxSettle, 0)
                  && MovedOnce(settled, after, credit, event.seller, TxCredit, event.winner.value.amount))
  {
    settled := if event.winner.None? then w else Attempted(w, settle, event.winner.value.user, TxSettle, 0);
  }

  // ---- Runs ----

  /** The cache entry may expire at any time. */
  datatype Event = Attempt(user: User, amount: int, env: Env) | Expire

  function Next(s: State, e: Event): State {
    match e
    case Attempt(user, amount, env) => PlaceBid(s, user, amount, env).0
    case Expire => s.(cache := None)
  }

  function Run(s: State, events: seq<Event>): State {
    if events == [] then s else Next(Run(s, events[..|events| - 1]), events[|events| - 1])
  }

  /** The attempt passes all checks up to the floor: the hold is tried. */
  predicate Reaches(s: State, e: Event) {
    e.Attempt? &&
    var highest := HighestBid(s, e.env);
    && s.auction.active && s.auction.seller != e.user
    && highest.Some? && Max(s.auction.price, highest.value) < e.amount
  }

  predicate Accepts(s: State, e: Event) {
    e.Attempt? && PlaceBid(s, e.user, e.amount, e.env).1.Accepted?
  }

  /** Requests with a positive amount, as the API validates. */
  predicate Valid(events: seq<Event>) {
    forall i :: 0 <= i < |events| && events[i].Attempt? ==> 0 < events[i].amount
  }

  /** If the step accepts a bid, the cache or the price is written, or nothing was cached. */
  predicate OneWrite(s: State, e: Event) {
    Accepts(s, e) ==> e.env.cacheSet || e.env.priceSet || CacheMisses(s)
  }

  ghost predicate Always(good: (State, Event) -> bool, s: State, events: seq<Event>) {
    forall i :: 0 <= i < |events| ==> good(Run(s, events[..i]), events[i])
  }

  lemma AlwaysStep(good: (State, Event) -> bool, s: State, events: seq<Event>)
    requires events != [] && Always(good, s, events)
    ensures Always(good, s, events[..|events| - 1]) && good(Run(s, events[..|events| - 1]), events[|events| - 1])
  {
    var n := |events| - 1;
    assert forall i :: 0 <= i < n ==> events[..n][..i] == events[..i];
  }

  // ---- Bids increase ----

  predicate Increasing(bids: seq<Bid>) {
    forall i, j :: 0 <= i < j < |bids| ==> bids[i].amount < bids[j].amount
  }

  predicate NonNegative(balances: map<User, int>) {
    forall user | user in balances :: 0 <= balances[user]
  }

  /** What the cache, the price and the bids have to do with each other at any time. */
  predicate WellFormed(s: State) {
    && 0 <= s.auction.price
    && NonNegative(s.wallets.balances)
    && (forall i :: 0 <= i < |s.bids| ==> 0 < s.bids[i].amount && s.bids[i].user != s.auction.seller)
    && (s.cache.Some? ==> 0 < s.cache.value <= Lead(s.bids))
  }

  /** The price or the cache knows the leading bid, or the database will be asked. */
  predicate Guarded(s: State) {
    Lead(s.bids) <= s.auction.price || CacheMisses(s) || Lead(s.bids) <= s.cache.value
  }

  /** Guarded is exactly what makes every acceptable bid outbid the leader. */
  lemma GuardedExactly(s: State)
    requires WellFormed(s) && s.auction.active
    ensures Guarded(s) <==>
            forall user, amount, env :: Accepts(s, Attempt(user, amount, env)) ==> Lead(s.bids) < amount
  {
    if !Guarded(s) {
      var all := Env(true, true, true, true, true, true, true, true);
      assert Accepts(s, Attempt(s.auction.seller + 1, Lead(s.bids), all));
    }
  }

  lemma TopAppend(bids: seq<Bid>, bid: Bid)
    ensures Top(bids + [bid]) == if bids != [] && bid.amount <= Lead(bids) then Top(bids) else bid
  {
    assert (bids + [bid])[..|bids|] == bids;
  }

  lemma {:induction false} LeadBounds(bids: seq<Bid>)
    requires bids != []
    ensures forall i :: 0 <= i < |bids| ==> bids[i].amount <= Lead(bids)
    ensures Top(bids) in bids
  {
    if |bids| > 1 {
      LeadBounds(bids[..|bids| - 1]);
    }
  }

  lemma AttemptedIsNonNegative(w: Wallets, call: bool, user: User, kind: Kind, delta: int)
    requires NonNegative(w.balances)
    ensures NonNegative(Attempted(w, call, user, kind, delta).balances)
  {
  }

  /** The wallets after an attempt that gets as far as the hold. */
  function WalletsAfter(s: State, user: User, amount: int, highest: int, env: Env): Wallets {
    var held := Attempted(s.wallets, env.hold, user, TxHold, -amount);
    if env.save then ReleasePrevious(held, s.bids, highest, env) else held
  }

  lemma WalletsStayNonNegative(s: State, user: User, amount: int, highest: int, env: Env)
    requires NonNegative(s.wallets.balances)
    ensures NonNegative(WalletsAfter(s, user, amount, highest, env).balances)
  {
    AttemptedIsNonNegative(s.wallets, env.hold, user, TxHold, -amount);
    if s.bids != [] {
      var held := Attempted(s.wallets, env.hold, user, TxHold, -amount);
      AttemptedIsNonNegative(held, env.release, Top(s.bids).user, TxRelease, highest);
    }
  }

  lemma AcceptedIsWellFormed(s: State, t: State, bid: Bid)
    requires WellFormed(s) && 0 < bid.amount && bid.user != s.auction.seller
    requires s.auction.price < bid.amount && t.auction.price in {s.auction.price, bid.amount}
    requires t.auction.seller == s.auction.seller && t.bids == s.bids + [bid]
    requires t.cache == s.cache || t.cache == Some(bid.amount)
    requires NonNegative(t.wallets.balances)
    ensures WellFormed(t)
  {
    TopAppend(s.bids, bid);
  }

  lemma StepIsWellFormed(s: State, e: Event)
    requires WellFormed(s) && (e.Attempt? ==> 0 < e.amount)
    ensures WellFormed(Next(s, e))
  {
    if e.Attempt? && Reaches(s, e) {
      WalletsStayNonNegative(s, e.user, e.amount, HighestBid(s, e.env).value, e.env);
      if e.env.save {
        AcceptedIsWellFormed(s, Next(s, e), Bid(e.user, e.amount));
      }
    }
  }

  /** The guard is lost exactly by an accepted bid of which neither the cache nor the price
      learns, while an older bid is cached. */
  lemma StepKeepsGuardExactly(s: State, e: Event)
    requires WellFormed(s) && Guarded(s) && (e.Attempt? ==> 0 < e.amount)
    ensures Guarded(Next(s, e)) <==> (Accepts(s, e) ==> e.env.cacheSet || e.env.priceSet || CacheMisses(s))
  {
    if Accepts(s, e) {
      TopAppend(s.bids, Bid(e.user, e.amount));
    }
  }

  lemma StepIncreases(s: State, e: Event)
    requires WellFormed(s) && Guarded(s) && Increasing(s.bids) && (e.Attempt? ==> 0 < e.amount)
    ensures Increasing(Next(s, e).bids) && s.bids <= Next(s, e).bids
  {
    if Accepts(s, e) && s.bids != [] {
      LeadBounds(s.bids);
    }
  }

  /** Over every run, under arbitrary cache expiry and read errors: the bids strictly
      increase as long as each accepted bid gets into the cache or the price. */
  lemma {:induction false} BidsIncrease(s: State, events: seq<Event>)
    requires WellFormed(s) && Guarded(s) && Increasing(s.bids) && Valid(events) && Always(OneWrite, s, events)
    ensures var t := Run(s, events);
            WellFormed(t) && Guarded(t) && Increasing(t.bids) && s.bids <= t.bids
  {
    if events != [] {
      var n := |events| - 1;
      AlwaysStep(OneWrite, s, events);
      BidsIncrease(s, events[..n]);
      var t, e := Run(s, events[..n]), events[n];
      StepIsWellFormed(t, e);
      StepKeepsGuardExactly(t, e);
      StepIncreases(t, e);
    }
  }

  // ---- The money ----

  /** What the leading bid takes from a user's balance. */
  function Out(bids: seq<Bid>, user: User): int {
    if bids != [] && Top(bids).user == user then Lead(bids) else 0
  }

  /** Only the leader's money is out, and it is exactly the leading bid. */
  predicate LeaderOut(balances: map<User, int>, bids: seq<Bid>, start: map<User, int>) {
    && balances.Keys == start.Keys
    && forall user | user in start :: balances[user] == start[user] - Out(bids, user)
  }

  predicate OnlyLeaderPays(s: State, start: map<User, int>) {
    LeaderOut(s.wallets.balances, s.bids, start)
  }

  predicate Covers(w: Wallets, user: User, amount: int) {
    user in w.balances && amount <= w.balances[user]
  }

  /** The highest bid that the attempt reads is the leading one. */
  predicate ReadsLead(s: State, e: Event) {
    e.Attempt? ==> !e.env.cacheRead || CacheMisses(s) || s.cache.value == Lead(s.bids)
  }

  /** A bid that is saved was paid for (by a bidder with a wallet), and the bidder that was leading
      got back exactly that bid; a bid that is not saved took no money. */
  predicate AccountsBalance(s: State, e: Event)
    requires e.Attempt?
  {
    if e.env.save then
      && (e.user in s.wallets.balances ==> e.env.hold && Covers(s.wallets, e.user, e.amount))
      && (s.bids != [] && Top(s.bids).user in s.wallets.balances ==>
            e.env.bidderRead && e.env.release && ReadsLead(s, e))
    else
      !(e.env.hold && Covers(s.wallets, e.user, e.amount))
  }

  /** Whatever fails, only the leader's money is out after a step exactly when its accounts balance. */
  lemma StepKeepsAccountsExactly(s: State, e: Event, start: map<User, int>)
    requires WellFormed(s) && Guarded(s) && OnlyLeaderPays(s, start) && (e.Attempt? ==> 0 < e.amount)
    ensures OnlyLeaderPays(Next(s, e), start) <==> (Reaches(s, e) ==> AccountsBalance(s, e))
  {
    if Reaches(s, e) {
      AttemptMovesMoney(s, e);
      ReadIsPositive(s, e);
      var held := e.env.hold && Covers(s.wallets, e.user, e.amount);
      var after := Next(s, e).wallets.balances;
      if e.env.save {
        AccountsAfterBid(s.wallets.balances, after, start, s.bids, Bid(e.user, e.amount),
                         held, Releases(s, e), HighestBid(s, e.env).value);
      } else if held {
        assert after[e.user] != start[e.user] - Out(s.bids, e.user);
      } else {
        assert after == s.wallets.balances;
      }
    }
  }

  /** The bidder that was leading gets money back. */
  predicate Releases(s: State, e: Event)
    requires e.Attempt?
  {
    e.env.save && s.bids != [] && e.env.bidderRead && e.env.release && Top(s.bids).user in s.wallets.balances
  }

  lemma AttemptedBalances(w: Wallets, call: bool, user: User, kind: Kind, delta: int)
    ensures Attempted(w, call, user, kind, delta).balances ==
            if call && user in w.balances && 0 <= w.balances[user] + delta
            then w.balances[user := w.balances[user] + delta] else w.balances
  {
  }

  /** Every balance is moved by the hold and by the release, and by nothing else. */
  lemma AttemptMovesMoney(s: State, e: Event)
    requires WellFormed(s) && Guarded(s) && Reaches(s, e) && 0 < e.amount
    ensures var (before, after) := (s.wallets.balances, Next(s, e).wallets.balances);
            var highest := HighestBid(s, e.env).value;
            && after.Keys == before.Keys
            && (forall user | user in before ::
                  after[user] == before[user]
                  - (if user == e.user && e.env.hold && Covers(s.wallets, e.user, e.amount) then e.amount else 0)
                  + (if Releases(s, e) && user == Top(s.bids).user then highest else 0))
  {
    ReadIsPositive(s, e);
    var highest := HighestBid(s, e.env).value;
    var held := Attempted(s.wallets, e.env.hold, e.user, TxHold, -e.amount);
    AttemptedBalances(s.wallets, e.env.hold, e.user, TxHold, -e.amount);
    AttemptedIsNonNegative(s.wallets, e.env.hold, e.user, TxHold, -e.amount);
    if s.bids != [] {
      AttemptedBalances(held, e.env.release, Top(s.bids).user, TxRelease, highest);
    }
    assert Next(s, e).wallets == WalletsAfter(s, e.user, e.amount, highest, e.env);
  }

  lemma ReadIsPositive(s: State, e: Event)
    requires WellFormed(s) && Guarded(s) && Reaches(s, e)
    ensures var highest := HighestBid(s, e.env).value;
            && 0 <= Lead(s.bids) < e.amount && (s.bids != [] ==> 0 < highest < e.amount && 0 < Lead(s.bids))
            && (highest == Lead(s.bids) <==> ReadsLead(s, e))
  {
    if s.bids != [] {
      LeadBounds(s.bids);
    }
  }

  lemma AccountsAfterBid(before: map<User, int>, after: map<User, int>, start: map<User, int>,
                         bids: seq<Bid>, bid: Bid, held: bool, releases: bool, released: int)
    requires LeaderOut(before, bids, start) && 0 <= Lead(bids) < bid.amount
    requires held ==> bid.user in start
    requires releases ==> bids != [] && Top(bids).user in start
    requires bids != [] ==> 0 < released < bid.amount && 0 < Lead(bids)
    requires after.Keys == before.Keys
    requires forall user | user in before ::
               after[user] == before[user] - (if user == bid.user && held then bid.amount else 0)
               + (if releases && user == Top(bids).user then released else 0)
    ensures LeaderOut(after, bids + [bid], start) <==>
            && (bid.user in start ==> held)
            && (bids != [] && Top(bids).user in start ==> releases && released == Lead(bids))
  {
    TopAppend(bids, bid);
    if bid.user in start && LeaderOut(after, bids + [bid], start) {
      assert after[bid.user] == start[bid.user] - Out(bids + [bid], bid.user);
    }
    if bids != [] && Top(bids).user in start && LeaderOut(after, bids + [bid], start) {
      var leader := Top(bids).user;
      assert after[leader] == start[leader] - Out(bids + [bid], leader);
    }
  }

  // ---- Holds and bids ----

  predicate HoldTaken(s: State, t: State, user: User, amount: int) {
    exists i :: |s.wallets.history| <= i < |t.wallets.history| && IsHold(t.wallets.history[i], user, amount)
  }

  predicate IsHold(m: Move, user: User, amount: int) {
    m.user == user && m.kind.TxHold? && m.delta == -amount
  }

  /** For every attempt: one that does not get past the floor changes nothing. Of the others the
      hold and the bid are made together, or neither is, exactly when the bid can be saved just
      in case the wallet service answers and the bidder's balance covers the amount. */
  lemma HoldAndBidTogetherExactlyWhen(s: State, e: Event)
    requires e.Attempt?
    ensures var t := Next(s, e);
            && (!Reaches(s, e) ==> t == s)
            && (Reaches(s, e) ==>
                  && (t.bids == s.bids + [Bid(e.user, e.amount)] || t.bids == s.bids)
                  && ((HoldTaken(s, t, e.user, e.amount) <==> t.bids != s.bids) <==>
                      e.env.save == (e.env.hold && Covers(s.wallets, e.user, e.amount))))
  {
    if Reaches(s, e) {
      var t, n := Next(s, e), |s.wallets.history|;
      assert t.wallets == WalletsAfter(s, e.user, e.amount, HighestBid(s, e.env).value, e.env);
      var held := Attempted(s.wallets, e.env.hold, e.user, TxHold, -e.amount);
      if e.env.hold && Covers(s.wallets, e.user, e.amount) {
        assert IsHold(held.history[n], e.user, e.amount) && t.wallets.history[n] == held.history[n];
      } else {
        assert held == s.wallets;
        assert forall i :: n <= i < |t.wallets.history| ==> t.wallets.history[i].kind.TxRelease?;
      }
    }
  }

  /** Money held for a bid that is not there: the bid cannot be saved. */
  lemma HoldWithoutBid(seller: User, bidder: User)
    requires seller != bidder
    ensures var s := State(Auction(true, seller, 0, 0, None), [], None, Wallets(map[bidder := 10], []));
            var t := Next(s, Attempt(bidder, 10, Env(true, true, true, false, true, true, true, true)));
            HoldTaken(s, t, bidder, 10) && t.wallets.balances == map[bidder := 0] && t.bids == []
  {
    var s := State(Auction(true, seller, 0, 0, None), [], None, Wallets(map[bidder := 10], []));
    var t := Next(s, Attempt(bidder, 10, Env(true, true, true, false, true, true, true, true)));
    assert IsHold(t.wallets.history[0], bidder, 10);
  }

  /** A bid without money held for it, with every call succeeding: the bidder has none. */
  lemma BidWithoutHold(seller: User, bidder: User)
    requires seller != bidder
    ensures var s := State(Auction(true, seller, 0, 0, None), [], None, Wallets(map[bidder := 0], []));
            var t := Next(s, Attempt(bidder, 10, Env(true, true, true, true, true, true, true, true)));
            !HoldTaken(s, t, bidder, 10) && t.wallets == s.wallets && t.bids == [Bid(bidder, 10)]
  {
  }

  // ---- Every change of a balance is recorded ----

  /** The move states the user's balance before and after. */
  predicate Fits(before: map<User, int>, m: Move) {
    m.user in before && m.before == before[m.user] && m.after == m.before + m.delta && 0 <= m.after
  }

  /** The moves, each of which fits where it is made, lead from the one map of balances to the other. */
  predicate Leads(from: map<User, int>, moves: seq<Move>, to: map<User, int>)
    decreases |moves|
  {
    if moves == [] then from == to
    else Fits(from, moves[0]) && Leads(from[moves[0].user := moves[0].after], moves[1..], to)
  }

  predicate Explained(w: Wallets, w': Wallets) {
    w.history <= w'.history && Leads(w.balances, w'.history[|w.history|..], w'.balances)
  }

  lemma {:induction false} LeadsFurther(from: map<User, int>, moves: seq<Move>, to: map<User, int>, m: Move)
    requires Leads(from, moves, to) && Fits(to, m)
    ensures Leads(from, moves + [m], to[m.user := m.after])
    decreases |moves|
  {
    if moves == [] {
      assert moves + [m] == [m] && [m][1..] == [];
    } else {
      assert (moves + [m])[1..] == moves[1..] + [m];
      LeadsFurther(from[moves[0].user := moves[0].after], moves[1..], to, m);
    }
  }

  lemma AttemptedIsExplained(w0: Wallets, w: Wallets, call: bool, user: User, kind: Kind, delta: int)
    requires Explained(w0, w)
    ensures Explained(w0, Attempted(w, call, user, kind, delta))
  {
    if call && user in w.balances && 0 <= w.balances[user] + delta {
      var m := Move(user, kind, delta, w.balances[user], w.balances[user] + delta);
      LeadsFurther(w0.balances, w.history[|w0.history|..], w.balances, m);
      assert (w.history + [m])[|w0.history|..] == w.history[|w0.history|..] + [m];
    }
  }

  lemma StepIsExplained(w0: Wallets, s: State, e: Event)
    requires Explained(w0, s.wallets)
    ensures Explained(w0, Next(s, e).wallets)
  {
    if Reaches(s, e) {
      var highest := HighestBid(s, e.env).value;
      var held := Attempted(s.wallets, e.env.hold, e.user, TxHold, -e.amount);
      AttemptedIsExplained(w0, s.wallets, e.env.hold, e.user, TxHold, -e.amount);
      if s.bids != [] {
        AttemptedIsExplained(w0, held, e.env.release, Top(s.bids).user, TxRelease, highest);
      }
      assert Next(s, e).wallets == WalletsAfter(s, e.user, e.amount, highest, e.env);
    } else {
      assert Next(s, e).wallets == s.wallets;
    }
  }

  /** Over every run, whatever fails, the history explains every balance. */
  lemma {:induction false} RunIsExplained(s: State, events: seq<Event>)
    ensures Explained(s.wallets, Run(s, events).wallets)
  {
    assert s.wallets.history[|s.wallets.history|..] == [];
    if events != [] {
      RunIsExplained(s, events[..|events| - 1]);
      StepIsExplained(s.wallets, Run(s, events[..|events| - 1]), events[|events| - 1]);
    }
  }

  /** A bid that passes the floor is paid for, saved, and settles with the bidder before. */
  predicate PaysInFull(s: State, e: Event) {
    Reaches(s, e) ==> e.env.save && e.user in s.wallets.balances && AccountsBalance(s, e)
  }

  predicate BiddersHaveWallets(s: State) {
    forall i :: 0 <= i < |s.bids| ==> s.bids[i].user in s.wallets.balances
  }

  lemma StepKeepsWallets(s: State, e: Event)
    requires BiddersHaveWallets(s) && PaysInFull(s, e)
    ensures BiddersHaveWallets(Next(s, e))
  {
  }

  lemma {:induction false} OnlyLeaderPaysAlways(s: State, events: seq<Event>, start: map<User, int>)
    requires WellFormed(s) && Guarded(s) && Increasing(s.bids) && OnlyLeaderPays(s, start) && BiddersHaveWallets(s)
    requires Valid(events) && Always(OneWrite, s, events) && Always(PaysInFull, s, events)
    ensures OnlyLeaderPays(Run(s, events), start) && BiddersHaveWallets(Run(s, events))
  {
    if events != [] {
      var n := |events| - 1;
      AlwaysStep(OneWrite, s, events);
      AlwaysStep(PaysInFull, s, events);
      BidsIncrease(s, events[..n]);
      OnlyLeaderPaysAlways(s, events[..n], start);
      StepKeepsAccountsExactly(Run(s, events[..n]), events[n], start);
      StepKeepsWallets(Run(s, events[..n]), events[n]);
    }
  }

  /** All balances together fall short of the start by the leading bid. */
  lemma TotalFallsByLead(s: State, start: map<User, int>)
    requires OnlyLeaderPays(s, start) && (s.bids != [] ==> Top(s.bids).user in start)
    ensures Sum(s.wallets.balances) == Sum(start) - Lead(s.bids)
    ensures s.bids != [] ==> s.wallets.balances == start[Top(s.bids).user := start[Top(s.bids).user] - Lead(s.bids)]
  {
    if s.bids == [] {
      SameBalances(s.wallets.balances, start);
    } else {
      var leader := Top(s.bids).user;
      SameBalances(s.wallets.balances, start[leader := start[leader] - Lead(s.bids)]);
      SumUpdate(start, leader, start[leader] - Lead(s.bids));
    }
  }

  lemma SameBalances(a: map<User, int>, b: map<User, int>)
    requires a.Keys == b.Keys && forall user | user in b :: a[user] == b[user]
    ensures a == b
  {
    forall user | user in a ensures user in b && a[user] == b[user] {
      assert user in b.Keys;
    }
    assert forall user | user in b :: user in a.Keys;
  }

  /** There is a winner exactly when the leading bid meets the reserve price (and the scheduler's
      queries succeed); it is a highest bid, and auction and event name it. An auction whose
      winner could not be written stays open; otherwise its end is announced. */
  lemma WinnerIsHighest(t: State, read: bool, write: bool)
    ensures var (ended, event) := EndAuction(t, read, write);
            var won := read && t.bids != [] && Lead(t.bids) >= t.auction.reserve;
            && ended == t.(auction := ended.auction)
            && (ended.auction.seller, ended.auction.reserve) == (t.auction.seller, t.auction.reserve)
            && (event.None? <==> won && !write)
            && (event.None? ==> ended == t)
            && (event.Some? ==> event.value.seller == t.auction.seller && event.value.winner.Some? == won)
            && (event.Some? && won ==>
                  && !ended.auction.active && ended.auction.winner == event.value.winner
                  && event.value.winner.value in t.bids && ended.auction.price == event.value.winner.value.amount
                  && forall i :: 0 <= i < |t.bids| ==> t.bids[i].amount <= ended.auction.price)
            && (event.Some? && !won ==>
                  && ended.auction.active == (t.auction.active && !write)
                  && (ended.auction.winner, ended.auction.price) == (t.auction.winner, t.auction.price))
  {
    if t.bids != [] {
      LeadBounds(t.bids);
    }
  }

  /** The wallets once the auction has ended and its event, if any, has been handled. */
  function WalletsAtEnd(t: State, read: bool, write: bool, settle: bool, credit: bool): Wallets {
    var (ended, event) := EndAuction(t, read, write);
    if event.Some? then HandleEnded(ended.wallets, event.value, settle, credit) else ended.wallets
  }

  lemma BalancesAtEnd(t: State, read: bool, write: bool, settle: bool, credit: bool)
    requires t.bids != [] && 0 <= Lead(t.bids)
    requires var (seller, balances) := (t.auction.seller, t.wallets.balances);
             && seller in balances && Top(t.bids).user in balances
             && 0 <= balances[seller] && 0 <= balances[Top(t.bids).user]
    ensures var (seller, balances) := (t.auction.seller, t.wallets.balances);
            WalletsAtEnd(t, read, write, settle, credit).balances ==
            if read && write && credit && Lead(t.bids) >= t.auction.reserve
            then balances[seller := balances[seller] + Lead(t.bids)] else balances
  {
    PaidBalances(t.wallets, t.auction.seller, Top(t.bids), settle, credit);
  }

  /** The total is back at the start exactly when there were no bids, or the leading bid meets the
      reserve price and is read, written and credited; then the seller has what the winner lost. */
  lemma EndConservesMoneyExactlyWhen(t: State, start: map<User, int>, read: bool, write: bool, settle: bool, credit: bool)
    requires WellFormed(t) && OnlyLeaderPays(t, start) && BiddersHaveWallets(t) && t.auction.seller in start
    ensures var paid := WalletsAtEnd(t, read, write, settle, credit).balances;
            var sold := read && write && credit && t.bids != [] && Lead(t.bids) >= t.auction.reserve;
            && (Sum(paid) == Sum(start) <==> t.bids == [] || sold)
            && (sold ==>
                  var (seller, winner) := (t.auction.seller, Top(t.bids).user);
                  && winner in start && winner != seller
                  && paid == start[seller := start[seller] + Lead(t.bids)][winner := start[winner] - Lead(t.bids)])
            && (!sold ==> paid == t.wallets.balances)
  {
    hide SumOver;
    if t.bids != [] {
      LeadBounds(t.bids);
      TotalFallsByLead(t, start);
      BalancesAtEnd(t, read, write, settle, credit);
      SellerIsPaid(t.wallets.balances, start, t.auction.seller, Top(t.bids));
    } else {
      TotalFallsByLead(t, start);
    }
  }

  lemma PaidBalances(w: Wallets, seller: User, top: Bid, settle: bool, credit: bool)
    requires seller in w.balances && top.user in w.balances && 0 <= top.amount
    requires 0 <= w.balances[seller] && 0 <= w.balances[top.user]
    ensures HandleEnded(w, Ended(seller, Some(top)), settle, credit).balances ==
            if credit then w.balances[seller := w.balances[seller] + top.amount] else w.balances
  {
    assert w.balances[top.user := w.balances[top.user] + 0] == w.balances;
  }

  lemma SellerIsPaid(balances: map<User, int>, start: map<User, int>, seller: User, top: Bid)
    requires seller in start && top.user in start && seller != top.user
    requires balances == start[top.user := start[top.user] - top.amount]
    ensures var paid := balances[seller := balances[seller] + top.amount];
            && paid == start[seller := start[seller] + top.amount][top.user := start[top.user] - top.amount]
            && Sum(paid) == Sum(start)
  {
    hide SumOver;
    SumUpdate(start, top.user, start[top.user] - top.amount);
    SumUpdate(balances, seller, balances[seller] + top.amount);
  }

  /** A new auction, run to its end: during the bidding all balances plus the leading bid never
      change, and only the leader's money is out; at the end the money is back exactly when there
      were no bids, or the reserve price was met and the winner read, written and credited. */
  lemma AuctionConservesMoney(s: State, events: seq<Event>, read: bool, write: bool, settle: bool, credit: bool)
    requires WellFormed(s) && s.bids == [] && s.cache.None? && s.auction.seller in s.wallets.balances
    requires Valid(events) && Always(OneWrite, s, events) && Always(PaysInFull, s, events)
    ensures var (t, start) := (Run(s, events), s.wallets.balances);
            && OnlyLeaderPays(t, start)
            && Sum(t.wallets.balances) + Lead(t.bids) == Sum(start)
            && (Sum(WalletsAtEnd(t, read, write, settle, credit).balances) == Sum(start) <==>
                t.bids == [] || (read && write && credit && Lead(t.bids) >= s.auction.reserve))
  {
    var t, start := Run(s, events), s.wallets.balances;
    BidsIncrease(s, events);
    OnlyLeaderPaysAlways(s, events, start);
    AuctionStays(s, events);
    if t.bids != [] {
      LeadBounds(t.bids);
    }
    TotalFallsByLead(t, start);
    EndConservesMoneyExactlyWhen(t, start, read, write, settle, credit);
  }

  lemma {:induction false} AuctionStays(s: State, events: seq<Event>)
    ensures var a := Run(s, events).auction;
            a.seller == s.auction.seller && a.reserve == s.auction.reserve && a.active == s.auction.active
  {
    if events != [] {
      AuctionStays(s, events[..|events| - 1]);
    }
  }
}
