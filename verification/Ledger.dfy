/** Conservation of quantity over whole runs, and the fill records that report it. */
module Ledger {
  import opened Orders
  import opened FlatBook
  import opened ThreadSpec
  import opened Ownership
  import opened Invariant

  // ----- per-order quantities -----------------------------------------------

  function QtyIn(s: seq<Order>, id: nat): nat {
    if s == [] then 0 else if s[0].id == id then s[0].quantity else QtyIn(s[1..], id)
  }

  /** What the book still holds of an order. */
  function Resting(f: Flat, id: nat): nat {
    QtyIn(f.bids, id) + QtyIn(f.asks, id)
  }

  /** What an order bought in a list of trades. */
  function Bought(ts: seq<Trade>, id: nat): nat {
    if ts == [] then 0 else (if ts[0].buyer == id then ts[0].quantity else 0) + Bought(ts[1..], id)
  }

  /** What it sold. */
  function Sold(ts: seq<Trade>, id: nat): nat {
    if ts == [] then 0 else (if ts[0].seller == id then ts[0].quantity else 0) + Sold(ts[1..], id)
  }

  lemma {:induction false} QtyAbsent(s: seq<Order>, id: nat)
    requires id !in Ids(s)
    ensures QtyIn(s, id) == 0
  {
    if s != [] {
      QtyAbsent(s[1..], id);
    }
  }

  lemma {:induction false} QtyInsert(side: Side, s: seq<Order>, o: Order, id: nat)
    requires o.id !in Ids(s)
    ensures QtyIn(Insert(side, s, o), id) == if id == o.id then o.quantity else QtyIn(s, id)
  {
    var r := Insert(side, s, o);
    if s == [] || Better(side, o.price, s[0].price) {
      assert r[1..] == s;
    } else {
      QtyInsert(side, s[1..], o, id);
      assert r[1..] == Insert(side, s[1..], o);
    }
  }

  lemma {:induction false} QtyKeep(s: seq<Order>, dead: set<nat>, id: nat)
    requires Distinct(s)
    ensures QtyIn(Keep(s, dead), id) == if id in dead then 0 else QtyIn(s, id)
  {
    if s != [] {
      QtyKeep(s[1..], dead, id);
      if s[0].id in dead {
        if id == s[0].id {
          QtyAbsent(s[1..], id);
        }
      } else {
        assert ([s[0]] + Keep(s[1..], dead))[1..] == Keep(s[1..], dead);
      }
    }
  }

  lemma TradedCons(t: Trade, ts: seq<Trade>, id: nat)
    ensures Bought([t] + ts, id) == (if t.buyer == id then t.quantity else 0) + Bought(ts, id)
    ensures Sold([t] + ts, id) == (if t.seller == id then t.quantity else 0) + Sold(ts, id)
  {
    assert ([t] + ts)[1..] == ts;
  }

  lemma NothingTraded(id: nat)
    ensures Bought([], id) == 0 && Sold([], id) == 0
  {
  }

  /** The taker gives up exactly what it trades, all of it on its own side. */
  lemma {:induction false} GreedyTaker(t: Order, qty: nat, opp: seq<Order>)
    requires t.id !in Ids(opp)
    ensures var m := Greedy(t, qty, opp);
            if t.side.Bid? then qty == m.left + Bought(m.trades, t.id) && Sold(m.trades, t.id) == 0
            else qty == m.left + Sold(m.trades, t.id) && Bought(m.trades, t.id) == 0
    decreases |opp|
  {
    hide Bought, Sold;
    NothingTraded(t.id);
    if qty == 0 || opp == [] || !Reaches(t, opp[0]) {
    } else {
      var q := Min(qty, opp[0].quantity);
      if q == opp[0].quantity {
        GreedyTaker(t, qty - q, opp[1..]);
        TradedCons(TradeOf(t, opp[0], q), Greedy(t, qty - q, opp[1..]).trades, t.id);
      } else {
        TradedCons(TradeOf(t, opp[0], q), [], t.id);
      }
    }
  }

  /** So does every resting order. */
  lemma {:induction false} GreedyMaker(t: Order, qty: nat, opp: seq<Order>, id: nat)
    requires Distinct(opp) && id != t.id
    ensures var m := Greedy(t, qty, opp);
            if t.side.Bid? then QtyIn(opp, id) == QtyIn(m.opp, id) + Sold(m.trades, id) && Bought(m.trades, id) == 0
            else QtyIn(opp, id) == QtyIn(m.opp, id) + Bought(m.trades, id) && Sold(m.trades, id) == 0
    decreases |opp|
  {
    hide Bought, Sold;
    NothingTraded(id);
    if qty == 0 || opp == [] || !Reaches(t, opp[0]) {
    } else {
      var q := Min(qty, opp[0].quantity);
      if q == opp[0].quantity {
        GreedyMaker(t, qty - q, opp[1..], id);
        TradedCons(TradeOf(t, opp[0], q), Greedy(t, qty - q, opp[1..]).trades, id);
        if id == opp[0].id {
          QtyAbsent(opp[1..], id);
        }
      } else {
        TradedCons(TradeOf(t, opp[0], q), [], id);
        assert Consume(opp, q)[1..] == opp[1..];
      }
    }
  }

  // ----- one command --------------------------------------------------------

  /** What one command entered, bought, sold, cancelled and dropped of an order. */
  datatype Entry = Entry(entered: nat, bought: nat, sold: nat, cancelled: nat, dropped: nat)

  const Nothing := Entry(0, 0, 0, 0, 0)

  /** The quantity of a new order, and of a market order what the book could not fill. */
  function NewEntry(cfg: Config, s: State, c: Command, id: nat): Entry {
    if CheckRisk(cfg, s, c) != NoReason then Nothing
    else
      var x := Execute(s.book, OrderFor(s, c));
      Entry(if id == s.nextId then c.quantity else 0, Bought(x.trades, id), Sold(x.trades, id), 0,
            if id == s.nextId && c.market then x.left else 0)
  }

  function EntryOf(cfg: Config, s: State, c: Command, id: nat): Entry {
    var found := FindOrder(cfg, s.idx, c.session, c.clientId);
    match c.what
    case NewOrder => NewEntry(cfg, s, c, id)
    case CancelOrder => if id == found then Nothing.(cancelled := Resting(s.book, id)) else Nothing
    case ModifyOrder =>
      if found == 0 || found !in AllIds(s.book) then Nothing
      else
        var side := if found in s.idx.sideOf then s.idx.sideOf[found] else Bid;
        var e := NewEntry(cfg, Removed(cfg, s, found), Replacement(c, side), id);
        if id == found then e.(cancelled := Resting(s.book, id)) else e
    case CancelAll => if id in Held(s.idx, c.session) then Nothing.(cancelled := Resting(s.book, id)) else Nothing
    case SessionOpened => Nothing
    case Subscribe => Nothing
  }

  ghost predicate Balanced(before: Flat, e: Entry, after: Flat, id: nat) {
    e.entered + Resting(before, id) == e.bought + e.sold + e.cancelled + e.dropped + Resting(after, id)
  }

  lemma RestingAbsent(f: Flat, id: nat)
    requires id !in AllIds(f)
    ensures Resting(f, id) == 0
  {
    QtyAbsent(f.bids, id);
    QtyAbsent(f.asks, id);
  }

  lemma DropBalanced(f: Flat, dead: set<nat>, id: nat)
    requires BookOk(f)
    ensures Resting(Drop(f, dead), id) == if id in dead then 0 else Resting(f, id)
  {
    BookOkDistinct(f);
    QtyKeep(f.bids, dead, id);
    QtyKeep(f.asks, dead, id);
  }

  lemma ExecuteBalanced(f: Flat, o: Order, id: nat)
    requires BookOk(f) && o.id !in AllIds(f) && o.quantity > 0
    ensures var x := Execute(f, o);
            Balanced(f, Entry(if id == o.id then o.quantity else 0, Bought(x.trades, id), Sold(x.trades, id), 0,
                              if id == o.id && o.kind.Market? then x.left else 0), x.book, id)
  {
    var own, opp := f.Of(o.side), f.Of(o.side.Opposite());
    BookOkDistinct(f);
    var m := Greedy(o, o.quantity, opp);
    GreedyTaker(o, o.quantity, opp);
    if id != o.id {
      GreedyMaker(o, o.quantity, opp, id);
    }
    GreedyOk(o, o.quantity, opp);
    QtyInsert(o.side, own, o.(quantity := m.left), id);
    hide BookOk, DistinctBook, Greedy, Insert, QtyIn, Bought, Sold;
    if id == o.id {
      QtyAbsent(own, id);
      QtyAbsent(opp, id);
      QtyAbsent(m.opp, id);
    }
  }

  lemma NewBalanced(cfg: Config, s: State, c: Command, id: nat)
    requires Inv(cfg, s)
    ensures Balanced(s.book, NewEntry(cfg, s, c, id), ApplyNew(cfg, s, c).state.book, id)
  {
    hide Good, BookOk, BookPositive, Execute, Resting, PublishTrades;
    if CheckRisk(cfg, s, c) == NoReason {
      ExecuteBalanced(s.book, OrderFor(s, c), id);
    }
  }

  /** For every command and every order: entered plus resting before equals
      bought plus sold plus cancelled plus dropped plus resting after. */
  lemma ApplyBalanced(cfg: Config, s: State, c: Command, id: nat)
    requires Inv(cfg, s)
    ensures Balanced(s.book, EntryOf(cfg, s, c, id), Apply(cfg, s, c).state.book, id)
  {
    hide Good, BookOk, BookPositive, Resting, ApplyNew, NewEntry, Forget, ForgetAll;
    var found := FindOrder(cfg, s.idx, c.session, c.clientId);
    DropBalanced(s.book, {found}, id);
    RestingAbsent'(s.book, id);
    match c.what
    case NewOrder => NewBalanced(cfg, s, c, id);
    case CancelOrder =>
    case ModifyOrder =>
      if found != 0 && found in AllIds(s.book) {
        var side := if found in s.idx.sideOf then s.idx.sideOf[found] else Bid;
        RemovedKeepsInv(cfg, s, found);
        NewBalanced(cfg, Removed(cfg, s, found), Replacement(c, side), id);
        NothingCancelled(cfg, Removed(cfg, s, found), Replacement(c, side), id);
      }
    case CancelAll => DropBalanced(s.book, Held(s.idx, c.session), id);
    case SessionOpened =>
    case Subscribe =>
  }

  lemma RestingAbsent'(f: Flat, id: nat)
    ensures id !in AllIds(f) ==> Resting(f, id) == 0
  {
    if id !in AllIds(f) {
      RestingAbsent(f, id);
    }
  }

  lemma NothingCancelled(cfg: Config, s: State, c: Command, id: nat)
    ensures NewEntry(cfg, s, c, id).cancelled == 0
  {
  }

  // ----- whole runs ---------------------------------------------------------

  function Plus(a: Entry, b: Entry): Entry {
    Entry(a.entered + b.entered, a.bought + b.bought, a.sold + b.sold, a.cancelled + b.cancelled, a.dropped + b.dropped)
  }

  /** An order's account over a whole run. */
  function Account(cfg: Config, s: State, cs: seq<Command>, id: nat): Entry
    decreases cs
  {
    if cs == [] then Nothing
    else Plus(EntryOf(cfg, s, cs[0], id), Account(cfg, Apply(cfg, s, cs[0]).state, cs[1..], id))
  }

  /** Over any run, every order's entered quantity equals what it traded, what was
      cancelled, what a market order dropped, and what still rests. */
  lemma {:induction false} RunBalanced(cfg: Config, s: State, cs: seq<Command>, id: nat)
    requires Inv(cfg, s)
    ensures Balanced(s.book, Account(cfg, s, cs, id), Run(cfg, s, cs).book, id)
    decreases cs
  {
    hide Inv, EntryOf, Apply, Resting;
    if cs != [] {
      ApplyBalanced(cfg, s, cs[0], id);
      ApplyKeepsInv(cfg, s, cs[0]);
      RunBalanced(cfg, Apply(cfg, s, cs[0]).state, cs[1..], id);
    }
  }

  // ----- the two sides of a run ---------------------------------------------

  /** Every trade of a run, oldest first. */
  function RunTrades(cfg: Config, s: State, cs: seq<Command>): seq<Trade>
    decreases cs
  {
    if cs == [] then [] else Apply(cfg, s, cs[0]).trades + RunTrades(cfg, Apply(cfg, s, cs[0]).state, cs[1..])
  }

  /** What the orders with ids below n bought, by their accounts. */
  function AllBought(cfg: Config, s: State, cs: seq<Command>, n: nat): nat {
    if n == 0 then 0 else AllBought(cfg, s, cs, n - 1) + Account(cfg, s, cs, n - 1).bought
  }

  /** What they sold. */
  function AllSold(cfg: Config, s: State, cs: seq<Command>, n: nat): nat {
    if n == 0 then 0 else AllSold(cfg, s, cs, n - 1) + Account(cfg, s, cs, n - 1).sold
  }

  lemma {:induction false} TradedAppend(a: seq<Trade>, b: seq<Trade>, id: nat)
    ensures Bought(a + b, id) == Bought(a, id) + Bought(b, id)
    ensures Sold(a + b, id) == Sold(a, id) + Sold(b, id)
  {
    if a == [] {
      assert a + b == b;
    } else {
      assert (a + b)[1..] == a[1..] + b;
      TradedAppend(a[1..], b, id);
    }
  }

  /** A command's entry is its share of the command's trades. */
  lemma EntryTrades(cfg: Config, s: State, c: Command, id: nat)
    ensures EntryOf(cfg, s, c, id).bought == Bought(Apply(cfg, s, c).trades, id)
    ensures EntryOf(cfg, s, c, id).sold == Sold(Apply(cfg, s, c).trades, id)
  {
    hide Execute, PublishTrades, Register, Forget, ForgetAll, Drop, CheckRisk, Resting;
    assert Bought([], id) == 0 && Sold([], id) == 0;
  }

  lemma {:induction false} AccountTrades(cfg: Config, s: State, cs: seq<Command>, id: nat)
    ensures Account(cfg, s, cs, id).bought == Bought(RunTrades(cfg, s, cs), id)
    ensures Account(cfg, s, cs, id).sold == Sold(RunTrades(cfg, s, cs), id)
    decreases cs
  {
    hide EntryOf, Apply;
    if cs != [] {
      var next := Apply(cfg, s, cs[0]).state;
      EntryTrades(cfg, s, cs[0], id);
      AccountTrades(cfg, next, cs[1..], id);
      TradedAppend(Apply(cfg, s, cs[0]).trades, RunTrades(cfg, next, cs[1..]), id);
    }
  }

  /** Both parties of every trade have ids below n. */
  ghost predicate Below(ts: seq<Trade>, n: nat) {
    ts == [] || (ts[0].buyer < n && ts[0].seller < n && Below(ts[1..], n))
  }

  lemma {:induction false} BelowUp(ts: seq<Trade>, n: nat, m: nat)
    requires Below(ts, n) && n <= m
    ensures Below(ts, m)
  {
    if ts != [] {
      BelowUp(ts[1..], n, m);
    }
  }

  lemma {:induction false} BelowAppend(a: seq<Trade>, b: seq<Trade>, n: nat)
    requires Below(a, n) && Below(b, n)
    ensures Below(a + b, n)
  {
    if a == [] {
      assert a + b == b;
    } else {
      assert (a + b)[1..] == a[1..] + b;
      BelowAppend(a[1..], b, n);
    }
  }

  lemma {:induction false} GreedyBelow(t: Order, qty: nat, opp: seq<Order>, n: nat)
    requires t.id < n && (forall id :: id in Ids(opp) ==> id < n)
    ensures Below(Greedy(t, qty, opp).trades, n)
    decreases |opp|
  {
    if qty == 0 || opp == [] || !Reaches(t, opp[0]) {
    } else {
      var q := Min(qty, opp[0].quantity);
      var tr := TradeOf(t, opp[0], q);
      assert opp[0].id in Ids(opp) && forall id :: id in Ids(opp[1..]) ==> id in Ids(opp);
      if q == opp[0].quantity {
        var m := Greedy(t, qty - q, opp[1..]);
        GreedyBelow(t, qty - q, opp[1..], n);
        assert ([tr] + m.trades)[1..] == m.trades;
      } else {
        assert ([tr] + [])[1..] == [];
      }
    }
  }

  lemma NewBelow(cfg: Config, s: State, c: Command)
    requires Inv(cfg, s)
    ensures var r := ApplyNew(cfg, s, c); s.nextId <= r.state.nextId && Below(r.trades, r.state.nextId)
  {
    hide Good, BookOk, BookPositive, PublishTrades, Register, Forget, Greedy, CheckRisk;
    var o := OrderFor(s, c);
    assert forall id :: id in Ids(s.book.Of(o.side.Opposite())) ==> id in AllIds(s.book);
    GreedyBelow(o, o.quantity, s.book.Of(o.side.Opposite()), o.id + 1);
  }

  lemma ApplyBelow(cfg: Config, s: State, c: Command)
    requires Inv(cfg, s)
    ensures var r := Apply(cfg, s, c); s.nextId <= r.state.nextId && Below(r.trades, r.state.nextId)
  {
    hide Inv, ApplyNew, Forget, ForgetAll, Drop;
    var found := FindOrder(cfg, s.idx, c.session, c.clientId);
    if c.what.NewOrder? {
      NewBelow(cfg, s, c);
    } else if c.what.ModifyOrder? && found != 0 && found in AllIds(s.book) {
      var side := if found in s.idx.sideOf then s.idx.sideOf[found] else Bid;
      RemovedKeepsInv(cfg, s, found);
      NewBelow(cfg, Removed(cfg, s, found), Replacement(c, side));
    }
  }

  lemma {:induction false} RunBelow(cfg: Config, s: State, cs: seq<Command>)
    requires Inv(cfg, s)
    ensures s.nextId <= Run(cfg, s, cs).nextId && Below(RunTrades(cfg, s, cs), Run(cfg, s, cs).nextId)
    decreases cs
  {
    hide Inv, Apply;
    if cs != [] {
      var r := Apply(cfg, s, cs[0]);
      ApplyBelow(cfg, s, cs[0]);
      ApplyKeepsInv(cfg, s, cs[0]);
      RunBelow(cfg, r.state, cs[1..]);
      BelowUp(r.trades, r.state.nextId, Run(cfg, s, cs).nextId);
      BelowAppend(r.trades, RunTrades(cfg, r.state, cs[1..]), Run(cfg, s, cs).nextId);
    }
  }

  /** Sums over the orders below n, from the trades. */
  function BoughtBelow(ts: seq<Trade>, n: nat): nat {
    if n == 0 then 0 else BoughtBelow(ts, n - 1) + Bought(ts, n - 1)
  }

  function SoldBelow(ts: seq<Trade>, n: nat): nat {
    if n == 0 then 0 else SoldBelow(ts, n - 1) + Sold(ts, n - 1)
  }

  lemma {:induction false} FirstTrade(ts: seq<Trade>, n: nat)
    requires ts != []
    ensures BoughtBelow(ts, n) == BoughtBelow(ts[1..], n) + if ts[0].buyer < n then ts[0].quantity else 0
    ensures SoldBelow(ts, n) == SoldBelow(ts[1..], n) + if ts[0].seller < n then ts[0].quantity else 0
    decreases n
  {
    if n > 0 {
      FirstTrade(ts, n - 1);
    }
  }

  lemma {:induction false} NoTrades(n: nat)
    ensures BoughtBelow([], n) == 0 && SoldBelow([], n) == 0
    decreases n
  {
    if n > 0 {
      NoTrades(n - 1);
    }
  }

  lemma {:induction false} EveryTradeTwice(ts: seq<Trade>, n: nat)
    requires Below(ts, n)
    ensures BoughtBelow(ts, n) == TradedQty(ts) && SoldBelow(ts, n) == TradedQty(ts)
    decreases ts
  {
    hide BoughtBelow, SoldBelow;
    if ts == [] {
      NoTrades(n);
    } else {
      FirstTrade(ts, n);
      EveryTradeTwice(ts[1..], n);
    }
  }

  lemma {:induction false} AllFromTrades(cfg: Config, s: State, cs: seq<Command>, n: nat)
    ensures AllBought(cfg, s, cs, n) == BoughtBelow(RunTrades(cfg, s, cs), n)
    ensures AllSold(cfg, s, cs, n) == SoldBelow(RunTrades(cfg, s, cs), n)
    decreases n
  {
    hide Account, RunTrades;
    if n > 0 {
      AccountTrades(cfg, s, cs, n - 1);
      AllFromTrades(cfg, s, cs, n - 1);
    }
  }

  /** Over any run, what all orders together bought equals what they together
      sold, and both equal the volume traded. */
  lemma BoughtIsSold(cfg: Config, s: State, cs: seq<Command>)
    requires Inv(cfg, s)
    ensures var n := Run(cfg, s, cs).nextId; var volume := TradedQty(RunTrades(cfg, s, cs));
            AllBought(cfg, s, cs, n) == volume && AllSold(cfg, s, cs, n) == volume
  {
    hide Inv, Run, RunTrades, AllBought, AllSold, BoughtBelow, SoldBelow, Below;
    var n := Run(cfg, s, cs).nextId;
    RunBelow(cfg, s, cs);
    EveryTradeTwice(RunTrades(cfg, s, cs), n);
    AllFromTrades(cfg, s, cs, n);
  }

  // ----- fill records -------------------------------------------------------

  /** The record of a fill, addressed through the index. */
  function FillRecord(idx: Index, id: nat, price: int, q: nat, rem: nat): Event {
    Fill(if id in idx.owner then idx.owner[id] else 0, if id in idx.clientOf then idx.clientOf[id] else 0,
         id, price, q, rem)
  }

  /** The two records each trade of a match should yield, buyer first, with the
      remaining quantities read off the book instead of the maps. */
  function MatchRecords(idx: Index, t: Order, qty: nat, opp: seq<Order>): seq<Event>
    decreases |opp|
  {
    if qty == 0 || opp == [] || !Reaches(t, opp[0]) then []
    else
      var q := Min(qty, opp[0].quantity);
      var tr := TradeOf(t, opp[0], q);
      var taker := FillRecord(idx, t.id, tr.price, q, qty - q);
      var maker := FillRecord(idx, opp[0].id, tr.price, q, opp[0].quantity - q);
      (if t.side.Bid? then [taker, maker] else [maker, taker]) +
      (if q == opp[0].quantity then MatchRecords(idx, t, qty - q, opp[1..]) else [])
  }

  /** i addresses the given orders as j does. */
  ghost predicate SameAddress(i: Index, j: Index, ids: set<nat>) {
    forall id :: id in ids ==>
      && id in i.owner && id in j.owner && i.owner[id] == j.owner[id]
      && id in i.clientOf && id in j.clientOf && i.clientOf[id] == j.clientOf[id]
  }

  lemma RouteKeepsOthers(cfg: Config, i: Index, id: nat, t: Trade, x: nat)
    requires x != id
    ensures var r := RouteFill(cfg, i, id, t).idx;
            && (x in r.owner <==> x in i.owner) && (x in r.clientOf <==> x in i.clientOf)
            && (x in i.owner ==> r.owner[x] == i.owner[x]) && (x in i.clientOf ==> r.clientOf[x] == i.clientOf[x])
  {
  }

  lemma RouteKeepsSelf(cfg: Config, i: Index, id: nat, t: Trade)
    requires id in i.remaining && i.remaining[id] > t.quantity
    ensures RouteFill(cfg, i, id, t).idx.owner == i.owner && RouteFill(cfg, i, id, t).idx.clientOf == i.clientOf
  {
  }

  lemma TakerEntry(cfg: Config, idx: Index, t: Order, own: seq<Order>, opp: seq<Order>)
    requires Good(cfg, idx, WithTaker(t, own, opp)) && DistinctBook(WithTaker(t, own, opp)) && opp != []
    ensures t.id in idx.remaining && idx.remaining[t.id] == t.quantity
    ensures opp[0].id != t.id && opp[0].id !in Ids(opp[1..])
  {
    hide SessionsOk, KeysSound;
    assert ([t] + own)[1..] == own;
    ExactMake(idx, t.side, [t] + own, opp);
  }

  /** After one trade of a match the parties still to come are addressed alike. */
  lemma AddressAfter(cfg: Config, base: Index, idx: Index, t: Order, own: seq<Order>, opp: seq<Order>)
    requires Good(cfg, idx, WithTaker(t, own, opp)) && DistinctBook(WithTaker(t, own, opp)) && opp != []
    requires opp[0].quantity < t.quantity && SameAddress(idx, base, {t.id} + Ids(opp))
    ensures var tr := TradeOf(t, opp[0], opp[0].quantity);
            SameAddress(RouteTrade(cfg, idx, tr).idx, base, {t.id} + Ids(opp[1..]))
  {
    hide Good, DistinctBook, RouteTrade;
    TakerEntry(cfg, idx, t, own, opp);
    var tr := TradeOf(t, opp[0], opp[0].quantity);
    forall x | x in {t.id} + Ids(opp[1..])
      ensures x in RouteTrade(cfg, idx, tr).idx.owner && x in RouteTrade(cfg, idx, tr).idx.clientOf
      ensures RouteTrade(cfg, idx, tr).idx.owner[x] == base.owner[x]
      ensures RouteTrade(cfg, idx, tr).idx.clientOf[x] == base.clientOf[x]
    {
      RouteBoth(cfg, idx, tr, t.id, opp[0].id, x);
    }
  }

  /** A trade moves the addresses of nobody but an exhausted party. */
  lemma RouteBoth(cfg: Config, idx: Index, tr: Trade, taker: nat, maker: nat, x: nat)
    requires (tr.buyer == taker && tr.seller == maker) || (tr.buyer == maker && tr.seller == taker)
    requires taker != maker && x != maker && x in idx.owner && x in idx.clientOf
    requires taker in idx.remaining && idx.remaining[taker] > tr.quantity
    ensures var r := RouteTrade(cfg, idx, tr).idx;
            x in r.owner && x in r.clientOf && r.owner[x] == idx.owner[x] && r.clientOf[x] == idx.clientOf[x]
  {
    hide Forget;
    var b := RouteFill(cfg, idx, tr.buyer, tr).idx;
    RouteRemaining(cfg, idx, tr.buyer, tr, taker);
    if x != taker {
      RouteKeepsOthers(cfg, idx, tr.buyer, tr, x);
      RouteKeepsOthers(cfg, b, tr.seller, tr, x);
    } else if tr.buyer == taker {
      RouteKeepsSelf(cfg, idx, taker, tr);
      RouteKeepsOthers(cfg, b, maker, tr, x);
    } else {
      RouteKeepsOthers(cfg, idx, maker, tr, x);
      RouteKeepsSelf(cfg, b, taker, tr);
    }
  }

  lemma RouteRemaining(cfg: Config, idx: Index, id: nat, t: Trade, x: nat)
    requires x in idx.remaining
    ensures x != id ==> x in RouteFill(cfg, idx, id, t).idx.remaining &&
                        RouteFill(cfg, idx, id, t).idx.remaining[x] == idx.remaining[x]
  {
  }

  lemma {:induction false} MatchRecordsSame(idx: Index, t: Order, t': Order, qty: nat, opp: seq<Order>)
    requires t' == t.(quantity := t'.quantity)
    ensures MatchRecords(idx, t', qty, opp) == MatchRecords(idx, t, qty, opp)
    decreases |opp|
  {
    if qty == 0 || opp == [] || !Reaches(t, opp[0]) {
    } else {
      var q := Min(qty, opp[0].quantity);
      if q == opp[0].quantity {
        MatchRecordsSame(idx, t, t', qty - q, opp[1..]);
      }
    }
  }

  lemma HeadRecords(cfg: Config, base: Index, idx: Index, t: Order, own: seq<Order>, opp: seq<Order>)
    requires Good(cfg, idx, WithTaker(t, own, opp)) && DistinctBook(WithTaker(t, own, opp)) && opp != []
    requires SameAddress(idx, base, {t.id} + Ids(opp))
    ensures var q := Min(t.quantity, opp[0].quantity); var tr := TradeOf(t, opp[0], q);
            var taker := FillRecord(base, t.id, tr.price, q, t.quantity - q);
            var maker := FillRecord(base, opp[0].id, tr.price, q, opp[0].quantity - q);
            RouteTrade(cfg, idx, tr).events == if t.side.Bid? then [taker, maker] else [maker, taker]
  {
    hide Good, DistinctBook;
    var q := Min(t.quantity, opp[0].quantity);
    RouteHeads(cfg, idx, WithTaker(t, own, opp), TradeOf(t, opp[0], q));
  }

  /** Publishing a match emits exactly two records per trade, buyer then seller,
      each with the quantity its order then holds in the book. */
  lemma {:induction false} PublishRecords(cfg: Config, base: Index, idx: Index, t: Order, own: seq<Order>,
                                          opp: seq<Order>)
    requires Good(cfg, idx, WithTaker(t, own, opp)) && DistinctBook(WithTaker(t, own, opp)) && t.quantity > 0
    requires SameAddress(idx, base, {t.id} + Ids(opp))
    ensures PublishTrades(cfg, idx, Greedy(t, t.quantity, opp).trades).events == MatchRecords(base, t, t.quantity, opp)
    decreases |opp|
  {
    hide Good, DistinctBook, RouteTrade, SameAddress, FillRecord;
    if opp == [] || !Reaches(t, opp[0]) {
    } else {
      var q := Min(t.quantity, opp[0].quantity);
      var tr := TradeOf(t, opp[0], q);
      HeadRecords(cfg, base, idx, t, own, opp);
      GreedyStep(t, t.quantity, opp);
      var g := Greedy(t, t.quantity - q, Consume(opp, q));
      assert ([tr] + g.trades)[1..] == g.trades;
      if q < t.quantity {
        var t' := t.(quantity := t.quantity - q);
        RouteTaker(cfg, idx, t, own, opp);
        AddressAfter(cfg, base, idx, t, own, opp);
        GreedySame(t, t', t'.quantity, opp[1..]);
        MatchRecordsSame(base, t, t', t'.quantity, opp[1..]);
        PublishRecords(cfg, base, RouteTrade(cfg, idx, tr).idx, t', own, opp[1..]);
      } else {
        NoMoreRecords(base, t, opp);
      }
    }
  }

  lemma NoMoreRecords(idx: Index, t: Order, opp: seq<Order>)
    requires opp != []
    ensures MatchRecords(idx, t, 0, opp[1..]) == []
  {
  }

  /** What a client believes an order holds after reading these events. */
  function LastRemaining(es: seq<Event>, id: nat, before: nat): nat
    decreases es
  {
    if es == [] then before
    else LastRemaining(es[1..], id, if es[0].Fill? && es[0].orderId == id then es[0].remaining else before)
  }

  lemma LastPair(a: Event, b: Event, es: seq<Event>, id: nat, before: nat)
    ensures LastRemaining([a, b] + es, id, before) ==
            LastRemaining(es, id, if b.Fill? && b.orderId == id then b.remaining
                                  else if a.Fill? && a.orderId == id then a.remaining else before)
  {
    assert ([a, b] + es)[1..] == [b] + es;
    assert ([b] + es)[1..] == es;
  }

  /** The records lead the taker's client to what the book left of its order. */
  lemma {:induction false} RecordsTaker(idx: Index, t: Order, qty: nat, opp: seq<Order>)
    requires t.id !in Ids(opp)
    ensures LastRemaining(MatchRecords(idx, t, qty, opp), t.id, qty) == Greedy(t, qty, opp).left
    decreases |opp|
  {
    if qty == 0 || opp == [] || !Reaches(t, opp[0]) {
    } else {
      var q := Min(qty, opp[0].quantity);
      var tr := TradeOf(t, opp[0], q);
      var taker := FillRecord(idx, t.id, tr.price, q, qty - q);
      var maker := FillRecord(idx, opp[0].id, tr.price, q, opp[0].quantity - q);
      var rest := if q == opp[0].quantity then MatchRecords(idx, t, qty - q, opp[1..]) else [];
      if q == opp[0].quantity {
        RecordsTaker(idx, t, qty - q, opp[1..]);
      }
      LastPair(taker, maker, rest, t.id, qty);
      LastPair(maker, taker, rest, t.id, qty);
    }
  }

  /** And every resting order's client to what the book left of theirs. */
  lemma {:induction false} RecordsMaker(idx: Index, t: Order, qty: nat, opp: seq<Order>, id: nat)
    requires Distinct(opp) && t.id !in Ids(opp) && id != t.id
    ensures LastRemaining(MatchRecords(idx, t, qty, opp), id, QtyIn(opp, id)) == QtyIn(Greedy(t, qty, opp).opp, id)
    decreases |opp|
  {
    if qty == 0 || opp == [] || !Reaches(t, opp[0]) {
    } else {
      var q := Min(qty, opp[0].quantity);
      var tr := TradeOf(t, opp[0], q);
      var taker := FillRecord(idx, t.id, tr.price, q, qty - q);
      var maker := FillRecord(idx, opp[0].id, tr.price, q, opp[0].quantity - q);
      var rest := if q == opp[0].quantity then MatchRecords(idx, t, qty - q, opp[1..]) else [];
      LastPair(taker, maker, rest, id, QtyIn(opp, id));
      LastPair(maker, taker, rest, id, QtyIn(opp, id));
      if q == opp[0].quantity {
        RecordsMaker(idx, t, qty - q, opp[1..], id);
        if id == opp[0].id {
          QtyAbsent(opp[1..], id);
        }
      } else {
        assert Consume(opp, q)[1..] == opp[1..];
      }
    }
  }

  lemma {:induction false} RecordsOthers(idx: Index, t: Order, qty: nat, opp: seq<Order>, id: nat, before: nat)
    requires id != t.id && id !in Ids(opp)
    ensures LastRemaining(MatchRecords(idx, t, qty, opp), id, before) == before
    decreases |opp|
  {
    if qty == 0 || opp == [] || !Reaches(t, opp[0]) {
    } else {
      var q := Min(qty, opp[0].quantity);
      var tr := TradeOf(t, opp[0], q);
      var taker := FillRecord(idx, t.id, tr.price, q, qty - q);
      var maker := FillRecord(idx, opp[0].id, tr.price, q, opp[0].quantity - q);
      var rest := if q == opp[0].quantity then MatchRecords(idx, t, qty - q, opp[1..]) else [];
      LastPair(taker, maker, rest, id, before);
      LastPair(maker, taker, rest, id, before);
      if q == opp[0].quantity {
        RecordsOthers(idx, t, qty - q, opp[1..], id, before);
      }
    }
  }

  /** The records of a match turn the quantities held before into those held
      after; what a market order did not fill is dropped. */
  lemma RecordsTellTruth(idx: Index, f: Flat, o: Order, id: nat)
    requires BookOk(f) && o.id !in AllIds(f)
    ensures LastRemaining(MatchRecords(idx, o, o.quantity, f.Of(o.side.Opposite())), id,
                          if id == o.id then o.quantity else Resting(f, id))
            == Resting(Execute(f, o).book, id) + if id == o.id && o.kind.Market? then Execute(f, o).left else 0
  {
    var own, opp := f.Of(o.side), f.Of(o.side.Opposite());
    var m := Greedy(o, o.quantity, opp);
    BookOkDistinct(f);
    hide Greedy, Insert, QtyIn, MatchRecords, LastRemaining, SideOk;
    GreedyOk(o, o.quantity, opp);
    QtyInsert(o.side, own, o.(quantity := m.left), id);
    QtyAbsent'(own, id);
    QtyAbsent'(opp, id);
    QtyAbsent'(m.opp, id);
    hide BookOk;
    if id == o.id {
      RecordsTaker(idx, o, o.quantity, opp);
    } else if id in Ids(opp) {
      RecordsMaker(idx, o, o.quantity, opp, id);
    } else {
      RecordsOthers(idx, o, o.quantity, opp, id, Resting(f, id));
    }
  }

  lemma QtyAbsent'(s: seq<Order>, id: nat)
    ensures id !in Ids(s) ==> QtyIn(s, id) == 0
  {
    if id !in Ids(s) {
      QtyAbsent(s, id);
    }
  }

  lemma OwnAddress(cfg: Config, idx: Index, t: Order, own: seq<Order>, opp: seq<Order>)
    requires Good(cfg, idx, WithTaker(t, own, opp))
    ensures SameAddress(idx, idx, {t.id} + Ids(opp))
  {
    hide Lists, SessionsOk, KeysSound;
    ExactMake(idx, t.side, [t] + own, opp);
    assert ([t] + own)[1..] == own;
  }

  /** A new order's acknowledgement is followed by exactly the records its match
      calls for. */
  lemma NewEvents(cfg: Config, s: State, c: Command)
    requires Inv(cfg, s) && CheckRisk(cfg, s, c) == NoReason
    ensures var o := OrderFor(s, c);
            ApplyNew(cfg, s, c).events ==
            [Ack(c.session, c.clientId, o.id, false)] +
            MatchRecords(Register(cfg, s.idx, o.id, c), o, o.quantity, s.book.Of(o.side.Opposite()))
  {
    var o := OrderFor(s, c);
    var own, opp := s.book.Of(o.side), s.book.Of(o.side.Opposite());
    var idx := Register(cfg, s.idx, o.id, c);
    assert s.book == Flat.Make(o.side, own, opp) && o.id !in AllIds(s.book);
    BookOkDistinct(s.book);
    hide Good, BookOk, BookPositive, DistinctBook, Register, PublishTrades, MatchRecords, Greedy;
    RegisterGood(cfg, s.idx, o, own, opp, c);
    TakerDistinct(o, own, opp);
    OwnAddress(cfg, idx, o, own, opp);
    PublishRecords(cfg, idx, idx, o, own, opp);
  }

  /** An order the match does not concern is not mentioned. */
  lemma NewSaysNothing(cfg: Config, s: State, c: Command, id: nat, before: nat)
    requires Inv(cfg, s) && id != s.nextId && id !in AllIds(s.book)
    ensures LastRemaining(ApplyNew(cfg, s, c).events, id, before) == before
  {
    hide Inv, ApplyNew, LastRemaining, CheckRisk, MatchRecords, Register;
    if CheckRisk(cfg, s, c) == NoReason {
      NewEvents(cfg, s, c);
      var o := OrderFor(s, c);
      var rs := MatchRecords(Register(cfg, s.idx, o.id, c), o, o.quantity, s.book.Of(o.side.Opposite()));
      SkipFirst(Ack(c.session, c.clientId, o.id, false), rs, id, before);
      RecordsOthers(Register(cfg, s.idx, o.id, c), o, o.quantity, s.book.Of(o.side.Opposite()), id, before);
    } else {
      Rejected(cfg, s, c);
      SkipFirst(Reject(c.session, c.clientId, CheckRisk(cfg, s, c)), [], id, before);
    }
  }

  lemma Rejected(cfg: Config, s: State, c: Command)
    requires CheckRisk(cfg, s, c) != NoReason
    ensures ApplyNew(cfg, s, c) == Step(s, [Reject(c.session, c.clientId, CheckRisk(cfg, s, c))], [])
  {
  }

  lemma SkipFirst(e: Event, es: seq<Event>, id: nat, before: nat)
    requires !e.Fill?
    ensures LastRemaining([e] + es, id, before) == LastRemaining(es, id, before)
    ensures LastRemaining([e], id, before) == before
  {
    assert ([e] + es)[1..] == es && [e][1..] == [];
  }

  lemma NewTellsTruth(cfg: Config, s: State, c: Command, id: nat)
    requires Inv(cfg, s)
    ensures var e := NewEntry(cfg, s, c, id); var r := ApplyNew(cfg, s, c);
            LastRemaining(r.events, id, e.entered + Resting(s.book, id)) == Resting(r.state.book, id) + e.dropped
  {
    hide Good, BookOk, BookPositive, Execute, Register, MatchRecords, Resting, PublishTrades, Bought, Sold;
    hide LastRemaining;
    var o := OrderFor(s, c);
    if CheckRisk(cfg, s, c) == NoReason {
      NewEvents(cfg, s, c);
      var rs := MatchRecords(Register(cfg, s.idx, o.id, c), o, o.quantity, s.book.Of(o.side.Opposite()));
      RestingAbsent'(s.book, id);
      SkipFirst(Ack(c.session, c.clientId, o.id, false), rs, id, NewEntry(cfg, s, c, id).entered + Resting(s.book, id));
      RecordsTellTruth(Register(cfg, s.idx, o.id, c), s.book, o, id);
    } else {
      Rejected(cfg, s, c);
      SkipFirst(Reject(c.session, c.clientId, CheckRisk(cfg, s, c)), [], id, Resting(s.book, id));
    }
  }

  /** For every command and every order, a market order's and a modify's
      replacement included: a client that reads the command's events goes from
      what it held and entered to what still rests and what was cancelled or
      dropped, so the fills it is told are exactly what it traded. */
  lemma FillsTellTruth(cfg: Config, s: State, c: Command, id: nat)
    requires Inv(cfg, s)
    ensures var e := EntryOf(cfg, s, c, id); var r := Apply(cfg, s, c);
            LastRemaining(r.events, id, e.entered + Resting(s.book, id)) ==
            Resting(r.state.book, id) + e.cancelled + e.dropped
  {
    hide Good, BookOk, BookPositive, Resting, ApplyNew, NewEntry, Forget, ForgetAll, LastRemaining;
    var found := FindOrder(cfg, s.idx, c.session, c.clientId);
    var held := Resting(s.book, id);
    DropBalanced(s.book, {found}, id);
    RestingAbsent'(s.book, id);
    SkipFirst(Reject(c.session, c.clientId, UnknownOrder), [], id, held);
    match c.what
    case NewOrder =>
      NewTellsTruth(cfg, s, c, id);
      NothingCancelled(cfg, s, c, id);
    case CancelOrder => SkipFirst(Ack(c.session, c.clientId, found, true), [], id, held);
    case ModifyOrder =>
      if found != 0 && found in AllIds(s.book) {
        var side := if found in s.idx.sideOf then s.idx.sideOf[found] else Bid;
        ModifyTellsTruth(cfg, s, found, Replacement(c, side), id);
      }
    case CancelAll =>
      DropBalanced(s.book, Held(s.idx, c.session), id);
      SkipFirst(SessionRetired(c.session), [], id, held);
    case SessionOpened => NoEvents(id, held);
    case Subscribe => SkipFirst(Ack(c.session, 0, 0, false), [], id, held);
  }

  lemma NoEvents(id: nat, before: nat)
    ensures LastRemaining([], id, before) == before
  {
  }

  /** The replacement's events, read with the old order already cancelled. */
  lemma ModifyTellsTruth(cfg: Config, s: State, found: nat, c: Command, id: nat)
    requires Inv(cfg, s) && found in AllIds(s.book)
    ensures var v := Removed(cfg, s, found); var e := NewEntry(cfg, v, c, id); var r := ApplyNew(cfg, v, c);
            && e.cancelled == 0
            && LastRemaining(r.events, id, e.entered + Resting(s.book, id)) ==
               Resting(r.state.book, id) + e.dropped + if id == found then Resting(s.book, id) else 0
  {
    hide Inv, ApplyNew, NewEntry, Resting, LastRemaining, Drop, Forget, BookOk, AllIds;
    OldId(cfg, s, found);
    var v := Removed(cfg, s, found);
    RemovedKeepsInv(cfg, s, found);
    DropBalanced(s.book, {found}, id);
    NothingCancelled(cfg, v, c, id);
    NewTellsTruth(cfg, v, c, id);
    if id == found {
      NotNew(cfg, v, c, id);
      NewSaysNothing(cfg, v, c, id, 0);
      NewSaysNothing(cfg, v, c, id, Resting(s.book, id));
    }
  }

  lemma NotNew(cfg: Config, s: State, c: Command, id: nat)
    requires id != s.nextId
    ensures NewEntry(cfg, s, c, id).entered == 0 && NewEntry(cfg, s, c, id).dropped == 0
  {
  }

  lemma OldId(cfg: Config, s: State, id: nat)
    requires Inv(cfg, s) && id in AllIds(s.book)
    ensures id < s.nextId && BookOk(s.book)
  {
  }
}
