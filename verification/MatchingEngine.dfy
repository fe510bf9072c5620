/** The engine (src/matching_engine.cpp): one book, one trade log, and
    processOrder, which rests a limit order first and then crosses the book. */
module Engines {
  import opened Orders
  import opened FlatBook
  import opened OrderBooks

  datatype ApplyResult = ApplyResult(accepted: bool, reason: RejectReason, filled: nat, fullyFilled: bool)

  datatype Processed = Processed(book: Flat, trades: seq<Trade>, result: ApplyResult)

  /** processOrder on the flat book, for every order kind and quantity. */
  function Process(f: Flat, o: Order): Processed {
    match o.kind
    case Cancel =>
      var found := o.id in AllIds(f);
      Processed(Drop(f, {o.id}), [], ApplyResult(found, if found then NoReason else UnknownOrder, 0, false))
    case Market =>
      var m := Greedy(o, o.quantity, f.Of(o.side.Opposite()));
      Processed(Flat.Make(o.side, f.Of(o.side), m.opp), m.trades,
                ApplyResult(true, NoReason, if m.left <= o.quantity then o.quantity - m.left else 0, true))
    case Limit =>
      var c := CrossLoop(Rest(f, o), o.id, o.quantity);
      Processed(c.book, c.trades,
                ApplyResult(true, NoReason, if c.left <= o.quantity then o.quantity - c.left else 0, c.left == 0))
  }

  /** On an uncrossed book a positive limit order is matched greedily. */
  lemma ProcessLimitIsGreedy(f: Flat, o: Order)
    requires !IsCrossed(f) && o.kind.Limit? && o.quantity > 0
    ensures Process(f, o).book == GreedyLimit(f, o).book
    ensures Process(f, o).trades == GreedyLimit(f, o).trades
    ensures Process(f, o).result.fullyFilled <==> GreedyLimit(f, o).left == 0
  {
    CrossIsGreedy(f, o);
  }

  // ----- the loop's own bookkeeping -----------------------------------------

  /** Wherever `id` rests in the list, it holds exactly `left` units. */
  ghost predicate Holds(s: seq<Order>, id: nat, left: nat) {
    s == [] || ((s[0].id == id ==> s[0].quantity == left) && Holds(s[1..], id, left))
  }

  lemma {:induction false} HoldsAbsent(s: seq<Order>, id: nat, left: nat)
    requires id !in Ids(s)
    ensures Holds(s, id, left)
  {
    if s != [] {
      HoldsAbsent(s[1..], id, left);
    }
  }

  lemma {:induction false} HoldsInsert(side: Side, s: seq<Order>, o: Order)
    requires o.id !in Ids(s)
    ensures Holds(Insert(side, s, o), o.id, o.quantity)
  {
    var r := Insert(side, s, o);
    if s == [] || Better(side, o.price, s[0].price) {
      assert r[1..] == s;
      HoldsAbsent(s, o.id, o.quantity);
    } else {
      HoldsInsert(side, s[1..], o);
      assert r[1..] == Insert(side, s[1..], o);
    }
  }

  function LeftAfter(t: Trade, id: nat, left: nat): nat
    requires t.buyer == id || t.seller == id ==> t.quantity <= left
  {
    if t.buyer == id || t.seller == id then left - t.quantity else left
  }

  lemma HoldsConsume(side: Side, s: seq<Order>, q: nat, id: nat, left: nat, left': nat)
    requires SideOk(side, s) && s != [] && q <= s[0].quantity && Holds(s, id, left)
    requires if s[0].id == id then left' == left - q else left' == left || id !in Ids(s)
    ensures Holds(Consume(s, q), id, left')
  {
    if s[0].id == id || id !in Ids(s) {
      HoldsAbsent(s[1..], id, left');
    }
    if q < s[0].quantity {
      assert Consume(s, q)[1..] == s[1..];
    }
  }

  /** The running remainder never underflows, and keeps describing the incoming order. */
  lemma RemainderTracks(f: Flat, id: nat, left: nat)
    requires BookOk(f) && IsCrossed(f) && Holds(f.bids, id, left) && Holds(f.asks, id, left)
    ensures var t := TopTrade(f);
            && (t.buyer == id || t.seller == id ==> t.quantity <= left)
            && Holds(TopCross(f).bids, id, LeftAfter(t, id, left))
            && Holds(TopCross(f).asks, id, LeftAfter(t, id, left))
  {
    var t := TopTrade(f);
    var left' := LeftAfter(t, id, left);
    HoldsConsume(Bid, f.bids, TopQty(f), id, left, left');
    HoldsConsume(Ask, f.asks, TopQty(f), id, left, left');
  }

  /** The crossing done so far plus the crossing still due is the whole crossing c. */
  ghost predicate Crossed(f: Flat, id: nat, left: nat, done: seq<Trade>, c: Crossing) {
    var r := CrossLoop(f, id, left);
    && r.book == c.book && done + r.trades == c.trades && r.left == c.left
    && Holds(f.bids, id, left) && Holds(f.asks, id, left)
  }

  lemma CrossStep(f: Flat, id: nat, left: nat, done: seq<Trade>, c: Crossing)
    requires BookOk(f) && Crossed(f, id, left, done, c) && left > 0 && IsCrossed(f)
    ensures var t := TopTrade(f);
            && (t.buyer == id || t.seller == id ==> t.quantity <= left)
            && Crossed(TopCross(f), id, LeftAfter(t, id, left), done + [t], c)
    ensures |TopCross(f).bids| + |TopCross(f).asks| < |f.bids| + |f.asks|
  {
    RemainderTracks(f, id, left);
    var r := CrossLoop(TopCross(f), id, LeftAfter(TopTrade(f), id, left));
    assert done + ([TopTrade(f)] + r.trades) == done + [TopTrade(f)] + r.trades;
  }

  lemma CrossStart(f: Flat, o: Order)
    requires o.id !in AllIds(f)
    ensures Crossed(Rest(f, o), o.id, o.quantity, [], CrossLoop(Rest(f, o), o.id, o.quantity))
  {
    HoldsInsert(o.side, f.Of(o.side), o);
    HoldsAbsent(f.Of(o.side.Opposite()), o.id, o.quantity);
    var c := CrossLoop(Rest(f, o), o.id, o.quantity);
    assert [] + c.trades == c.trades;
  }

  lemma CrossDone(f: Flat, id: nat, left: nat, done: seq<Trade>, c: Crossing)
    requires Crossed(f, id, left, done, c) && (left == 0 || !IsCrossed(f))
    ensures c == Crossing(f, done, left)
  {
    assert done + [] == done;
  }

  // ----- what the result reports --------------------------------------------

  /** What the given order trades, on either side, in a list of trades. */
  function Involving(ts: seq<Trade>, id: nat): nat {
    if ts == [] then 0
    else (if ts[0].buyer == id || ts[0].seller == id then ts[0].quantity else 0) + Involving(ts[1..], id)
  }

  lemma InvolvingCons(t: Trade, ts: seq<Trade>, id: nat)
    ensures Involving([t] + ts, id) == (if t.buyer == id || t.seller == id then t.quantity else 0) + Involving(ts, id)
  {
    assert ([t] + ts)[1..] == ts;
  }

  /** The loop's remainder is what the incoming order has not traded. */
  lemma {:induction false} LoopFills(f: Flat, id: nat, left: nat)
    requires BookOk(f) && Holds(f.bids, id, left) && Holds(f.asks, id, left)
    ensures left == CrossLoop(f, id, left).left + Involving(CrossLoop(f, id, left).trades, id)
    decreases |f.bids| + |f.asks|
  {
    if left > 0 && IsCrossed(f) {
      var t := TopTrade(f);
      RemainderTracks(f, id, left);
      TopCrossOk(f);
      var left' := LeftAfter(t, id, left);
      var r := CrossLoop(TopCross(f), id, left');
      hide BookOk, Holds, TopCross;
      LoopFills(TopCross(f), id, left');
      InvolvingCons(t, r.trades, id);
    }
  }

  lemma {:induction false} GreedyInvolves(t: Order, qty: nat, opp: seq<Order>)
    ensures Involving(Greedy(t, qty, opp).trades, t.id) == TradedQty(Greedy(t, qty, opp).trades)
    decreases |opp|
  {
    if qty == 0 || opp == [] || !Reaches(t, opp[0]) {
    } else {
      var q := Min(qty, opp[0].quantity);
      var tr := TradeOf(t, opp[0], q);
      if q == opp[0].quantity {
        GreedyInvolves(t, qty - q, opp[1..]);
        InvolvingCons(tr, Greedy(t, qty - q, opp[1..]).trades, t.id);
        TradedQtyCons(tr, Greedy(t, qty - q, opp[1..]).trades);
      } else {
        InvolvingCons(tr, [], t.id);
        TradedQtyCons(tr, []);
      }
    }
  }

  /** On any book, even a crossed one: the reported quantity is what the order's
      own trades add up to.  A limit order reports itself done exactly if that is
      all of it, a market order always, a cancel never. */
  lemma ProcessReports(f: Flat, o: Order)
    requires BookOk(f) && (o.kind.Limit? ==> o.id !in AllIds(f))
    ensures var p := Process(f, o); var r := p.result;
            match o.kind
            case Cancel =>
              && r.filled == 0 && !r.fullyFilled && p.trades == []
              && (r.accepted <==> o.id in AllIds(f)) && r.reason == if r.accepted then NoReason else UnknownOrder
            case Market => r.accepted && r.reason.NoReason? && r.filled == Involving(p.trades, o.id) && r.fullyFilled
            case Limit =>
              && r.accepted && r.reason.NoReason? && r.filled == Involving(p.trades, o.id)
              && (r.fullyFilled <==> r.filled == o.quantity)
  {
    if o.kind.Market? {
      GreedyInvolves(o, o.quantity, f.Of(o.side.Opposite()));
      GreedyConserves(o, o.quantity, f.Of(o.side.Opposite()));
    } else if o.kind.Limit? {
      RestOk(f, o);
      HoldsInsert(o.side, f.Of(o.side), o);
      HoldsAbsent(f.Of(o.side.Opposite()), o.id, o.quantity);
      hide BookOk, Holds, CrossLoop;
      LoopFills(Rest(f, o), o.id, o.quantity);
    }
  }

  /** On an uncrossed book that is the whole volume traded, and the lesser of what
      was asked for and what the opposite side holds within the limit. */
  lemma ProcessFills(f: Flat, o: Order)
    requires BookOk(f) && !IsCrossed(f) && !o.kind.Cancel?
    ensures var p := Process(f, o);
            && p.result.filled == TradedQty(p.trades)
            && p.result.filled == Min(o.quantity, Available(o, f.Of(o.side.Opposite())))
  {
    var opp := f.Of(o.side.Opposite());
    GreedyConserves(o, o.quantity, opp);
    GreedyFills(o, o.quantity, opp);
    hide BookOk, Greedy, Available;
    if o.kind.Limit? && o.quantity > 0 {
      CrossIsGreedy(f, o);
    }
  }

  /** Every trade of a limit order on an uncrossed book is struck at the price of
      whoever sells, however it came about; a market order trades at the resting
      price. */
  lemma ProcessPrices(f: Flat, o: Order, i: nat)
    requires !IsCrossed(f) && !o.kind.Cancel? && i < |Process(f, o).trades|
    ensures var opp := f.Of(o.side.Opposite()); var t := Process(f, o).trades[i];
            && i < |opp| && t.timestamp == Max(o.timestamp, opp[i].timestamp)
            && (if o.side.Bid? then t.buyer == o.id && t.seller == opp[i].id
                else t.buyer == opp[i].id && t.seller == o.id)
            && t.price == if o.side.Bid? || o.kind.Market? then opp[i].price else o.price
  {
    var opp := f.Of(o.side.Opposite());
    hide Greedy;
    if o.kind.Limit? && o.quantity > 0 {
      CrossIsGreedy(f, o);
    }
    GreedyPrices(o, o.quantity, opp, i);
    GreedySeller(o, o.quantity, opp, i);
  }

  class MatchingEngine {
    const book: OrderBook
    var tradeLog: seq<Trade>

    ghost predicate Valid()
      reads this, book
    {
      book.Valid()
    }

    constructor ()
      ensures Valid() && fresh(book) && book.Book() == Flat([], []) && tradeLog == []
    {
      book := new OrderBook();
      tradeLog := [];
    }

    method ClearTradeLog()
      modifies this
      ensures tradeLog == []
    {
      tradeLog := [];
    }

    method ProcessOrder(o: Order) returns (r: ApplyResult)
      requires Valid() && (o.kind.Limit? ==> o.id !in AllIds(book.Book()))
      modifies this, book
      ensures Valid()
      ensures var p := Process(old(book.Book()), o);
              book.Book() == p.book && tradeLog == old(tradeLog) + p.trades && r == p.result
      ensures !o.kind.Cancel? && !IsCrossed(old(book.Book())) ==>
                && r.filled == TradedQty(tradeLog[|old(tradeLog)|..])
                && r.filled == Min(o.quantity, Available(o, old(book.Book()).Of(o.side.Opposite())))
    {
      if !o.kind.Cancel? && !IsCrossed(book.Book()) {
        ProcessFills(book.Book(), o);
      }
      if o.kind.Cancel? {
        var removed := book.CancelOrder(o.id);
        return ApplyResult(removed, if removed then NoReason else UnknownOrder, 0, false);
      }
      if o.kind.Market? {
        var left, trades := book.MatchMarket(o.id, o.side, o.quantity, o.timestamp);
        GreedySame(o, o.(price := 0), o.quantity, old(book.Book()).Of(o.side.Opposite()));
        GreedyConserves(o, o.quantity, old(book.Book()).Of(o.side.Opposite()));
        tradeLog := tradeLog + trades;
        return ApplyResult(true, NoReason, o.quantity - left, true);
      }
      r := ProcessLimit(o);
    }

    /** One turn of the crossing loop. */
    method Turn(id: nat, left: nat, ghost done: seq<Trade>, ghost c: Crossing) returns (t: Trade, rest: nat)
      requires Valid() && left > 0 && IsCrossed(book.Book()) && Crossed(book.Book(), id, left, done, c)
      modifies this, book
      ensures Valid() && Crossed(book.Book(), id, rest, done + [t], c)
      ensures t == TopTrade(old(book.Book())) && rest <= left
      ensures tradeLog == old(tradeLog) + [t]
      ensures |book.Book().bids| + |book.Book().asks| < |old(book.Book()).bids| + |old(book.Book()).asks|
    {
      CrossStep(book.Book(), id, left, done, c);
      var trade := book.ExecuteTopCross();
      t := trade.value;
      tradeLog := tradeLog + [t];
      rest := if t.buyer == id || t.seller == id then left - t.quantity else left;
    }

    /** Rest first, then cross while the incoming order still has quantity. */
    method ProcessLimit(o: Order) returns (r: ApplyResult)
      requires Valid() && o.kind.Limit? && o.id !in AllIds(book.Book())
      modifies this, book
      ensures Valid()
      ensures var p := Process(old(book.Book()), o);
              book.Book() == p.book && tradeLog == old(tradeLog) + p.trades && r == p.result
    {
      hide Crossed, CrossLoop;
      ghost var c := CrossLoop(Rest(book.Book(), o), o.id, o.quantity);
      CrossStart(book.Book(), o);
      var remaining: nat := o.quantity;
      book.AddOrder(o);
      ghost var done: seq<Trade> := [];
      var crossed := book.IsCrossedNow();
      while remaining > 0 && crossed
        invariant Valid() && crossed == IsCrossed(book.Book())
        invariant remaining <= o.quantity
        invariant Crossed(book.Book(), o.id, remaining, done, c)
        invariant tradeLog == old(tradeLog) + done
        decreases |book.Book().bids| + |book.Book().asks|
      {
        var t;
        t, remaining := Turn(o.id, remaining, done, c);
        done := done + [t];
        crossed := book.IsCrossedNow();
      }
      CrossDone(book.Book(), o.id, remaining, done, c);
      return ApplyResult(true, NoReason, o.quantity - remaining, remaining == 0);
    }
  }
}
