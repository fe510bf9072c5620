/** The reference book: each side is one list of resting orders in price-time
    priority, with no levels, no cached totals and no index.  Everything the
    engine does is stated against this list. */
module FlatBook {
  import opened Orders

  datatype Flat = Flat(bids: seq<Order>, asks: seq<Order>) {
    function Of(side: Side): seq<Order> {
      if side.Bid? then bids else asks
    }

    /** The book whose `side` list is `own` and whose other list is `opp`. */
    static function Make(side: Side, own: seq<Order>, opp: seq<Order>): Flat {
      if side.Bid? then Flat(own, opp) else Flat(opp, own)
    }
  }

  function Ids(s: seq<Order>): set<nat> {
    if s == [] then {} else {s[0].id} + Ids(s[1..])
  }

  function AllIds(f: Flat): set<nat> {
    Ids(f.bids) + Ids(f.asks)
  }

  /** Best price first, no id twice, only resting limit orders of this side. */
  ghost predicate SideOk(side: Side, s: seq<Order>) {
    s == [] ||
    (&& s[0].side == side && s[0].kind.Limit?
     && s[0].id !in Ids(s[1..])
     && (|s| > 1 ==> !Better(side, s[1].price, s[0].price))
     && SideOk(side, s[1..]))
  }

  ghost predicate Positive(s: seq<Order>) {
    s == [] || (s[0].quantity > 0 && Positive(s[1..]))
  }

  /** Structural well-formedness of the whole book. */
  ghost predicate BookOk(f: Flat) {
    SideOk(Bid, f.bids) && SideOk(Ask, f.asks) && Ids(f.bids) !! Ids(f.asks)
  }

  ghost predicate BookPositive(f: Flat) {
    Positive(f.bids) && Positive(f.asks)
  }

  predicate IsCrossed(f: Flat) {
    f.bids != [] && f.asks != [] && f.bids[0].price >= f.asks[0].price
  }

  function SumQty(s: seq<Order>): nat {
    if s == [] then 0 else s[0].quantity + SumQty(s[1..])
  }

  lemma {:induction false} Append(a: seq<Order>, b: seq<Order>)
    ensures SumQty(a + b) == SumQty(a) + SumQty(b)
    ensures Ids(a + b) == Ids(a) + Ids(b)
  {
    if a == [] {
      assert a + b == b;
    } else {
      assert (a + b)[1..] == a[1..] + b;
      Append(a[1..], b);
    }
  }

  lemma {:induction false} IdAt(s: seq<Order>, i: nat)
    requires i < |s|
    ensures s[i].id in Ids(s)
  {
    if i > 0 {
      IdAt(s[1..], i - 1);
    }
  }

  /** Sorting is transitive: nothing in the list is better than its head. */
  lemma {:induction false} HeadIsBest(side: Side, s: seq<Order>, i: nat)
    requires SideOk(side, s) && i < |s|
    ensures !Better(side, s[i].price, s[0].price)
  {
    if i > 0 {
      HeadIsBest(side, s[1..], i - 1);
    }
  }

  // ----- resting an order ---------------------------------------------------

  /** Join the queue behind every order at least as good, ahead of every worse one. */
  function Insert(side: Side, s: seq<Order>, o: Order): seq<Order> {
    if s == [] || Better(side, o.price, s[0].price) then [o] + s
    else [s[0]] + Insert(side, s[1..], o)
  }

  function Rest(f: Flat, o: Order): Flat {
    Flat.Make(o.side, Insert(o.side, f.Of(o.side), o), f.Of(o.side.Opposite()))
  }

  ghost predicate NoneWorse(side: Side, a: seq<Order>, price: int) {
    a == [] || (!Better(side, price, a[0].price) && NoneWorse(side, a[1..], price))
  }

  /** The only position that respects price-time priority is the one Insert picks. */
  lemma {:induction false} InsertAt(side: Side, a: seq<Order>, b: seq<Order>, o: Order)
    requires NoneWorse(side, a, o.price)
    requires b != [] ==> Better(side, o.price, b[0].price)
    ensures Insert(side, a + b, o) == a + [o] + b
  {
    if a == [] {
      assert a + b == b && a + [o] + b == [o] + b;
    } else {
      assert (a + b)[1..] == a[1..] + b;
      InsertAt(side, a[1..], b, o);
      assert a + [o] + b == [a[0]] + (a[1..] + [o] + b);
    }
  }

  lemma {:induction false} InsertOk(side: Side, s: seq<Order>, o: Order)
    requires SideOk(side, s) && o.id !in Ids(s) && o.side == side && o.kind.Limit?
    ensures SideOk(side, Insert(side, s, o))
    ensures Ids(Insert(side, s, o)) == Ids(s) + {o.id}
    ensures Insert(side, s, o)[0] == if s == [] || Better(side, o.price, s[0].price) then o else s[0]
  {
    var r := Insert(side, s, o);
    if s == [] || Better(side, o.price, s[0].price) {
      assert r[1..] == s;
    } else {
      InsertOk(side, s[1..], o);
      assert r[1..] == Insert(side, s[1..], o);
    }
  }

  lemma {:induction false} InsertSum(side: Side, s: seq<Order>, o: Order)
    ensures SumQty(Insert(side, s, o)) == SumQty(s) + o.quantity
    ensures Positive(s) && o.quantity > 0 ==> Positive(Insert(side, s, o))
  {
    var r := Insert(side, s, o);
    if s == [] || Better(side, o.price, s[0].price) {
      assert r[1..] == s;
    } else {
      InsertSum(side, s[1..], o);
      assert r[1..] == Insert(side, s[1..], o);
    }
  }

  lemma RestOk(f: Flat, o: Order)
    requires BookOk(f) && o.id !in AllIds(f) && o.kind.Limit?
    ensures BookOk(Rest(f, o))
    ensures AllIds(Rest(f, o)) == AllIds(f) + {o.id}
  {
    InsertOk(o.side, f.Of(o.side), o);
  }

  // ----- removing orders ----------------------------------------------------

  /** The list without the orders whose id is in `dead`, order preserved. */
  function Keep(s: seq<Order>, dead: set<nat>): seq<Order> {
    if s == [] then []
    else if s[0].id in dead then Keep(s[1..], dead)
    else [s[0]] + Keep(s[1..], dead)
  }

  function Drop(f: Flat, dead: set<nat>): Flat {
    Flat(Keep(f.bids, dead), Keep(f.asks, dead))
  }

  lemma {:induction false} KeepAppend(a: seq<Order>, b: seq<Order>, dead: set<nat>)
    ensures Keep(a + b, dead) == Keep(a, dead) + Keep(b, dead)
  {
    if a == [] {
      assert a + b == b;
    } else {
      assert (a + b)[1..] == a[1..] + b;
      KeepAppend(a[1..], b, dead);
    }
  }

  lemma {:induction false} KeepNone(s: seq<Order>, dead: set<nat>)
    requires Ids(s) !! dead
    ensures Keep(s, dead) == s
  {
    if s != [] {
      KeepNone(s[1..], dead);
    }
  }

  lemma {:induction false} KeepTwice(s: seq<Order>, a: set<nat>, b: set<nat>)
    ensures Keep(Keep(s, a), b) == Keep(s, a + b)
  {
    if s != [] {
      KeepTwice(s[1..], a, b);
      if s[0].id !in a {
        assert ([s[0]] + Keep(s[1..], a))[1..] == Keep(s[1..], a);
      }
    }
  }

  /** Cancelling one order of a duplicate-free list takes out exactly its position. */
  lemma KeepOne(a: seq<Order>, o: Order, b: seq<Order>)
    requires o.id !in Ids(a) && o.id !in Ids(b)
    ensures Keep(a + [o] + b, {o.id}) == a + b
  {
    KeepAppend(a + [o], b, {o.id});
    KeepAppend(a, [o], {o.id});
    KeepNone(a, {o.id});
    KeepNone(b, {o.id});
    assert Keep([o], {o.id}) == [];
  }

  lemma {:induction false} KeepOk(side: Side, s: seq<Order>, dead: set<nat>)
    requires SideOk(side, s)
    ensures SideOk(side, Keep(s, dead))
    ensures Ids(Keep(s, dead)) == Ids(s) - dead
    ensures Positive(s) ==> Positive(Keep(s, dead))
    ensures s != [] && Keep(s, dead) != [] ==> !Better(side, Keep(s, dead)[0].price, s[0].price)
  {
    if s != [] {
      KeepOk(side, s[1..], dead);
      var k := Keep(s[1..], dead);
      if s[0].id !in dead {
        assert ([s[0]] + k)[1..] == k;
      }
    }
  }

  lemma DropOk(f: Flat, dead: set<nat>)
    requires BookOk(f)
    ensures BookOk(Drop(f, dead))
    ensures AllIds(Drop(f, dead)) == AllIds(f) - dead
    ensures !IsCrossed(f) ==> !IsCrossed(Drop(f, dead))
    ensures BookPositive(f) ==> BookPositive(Drop(f, dead))
  {
    KeepOk(Bid, f.bids, dead);
    KeepOk(Ask, f.asks, dead);
  }

  // ----- filling the head of a queue ----------------------------------------

  /** The queue after its head gave up q units; an exhausted head leaves. */
  function Consume(s: seq<Order>, q: nat): seq<Order>
    requires s != [] && q <= s[0].quantity
  {
    if q == s[0].quantity then s[1..] else [s[0].(quantity := s[0].quantity - q)] + s[1..]
  }

  lemma ConsumeOk(side: Side, s: seq<Order>, q: nat)
    requires SideOk(side, s) && s != [] && q <= s[0].quantity
    ensures SideOk(side, Consume(s, q))
    ensures Ids(Consume(s, q)) == if q == s[0].quantity then Ids(s) - {s[0].id} else Ids(s)
    ensures SumQty(Consume(s, q)) == SumQty(s) - q
    ensures Positive(s) ==> Positive(Consume(s, q))
    ensures Consume(s, q) != [] ==> !Better(side, Consume(s, q)[0].price, s[0].price)
  {
    if q < s[0].quantity {
      assert Consume(s, q)[1..] == s[1..];
    }
  }

  /** The book after the first order of a side gave up q units. */
  function Filled(f: Flat, side: Side, q: nat): Flat
    requires f.Of(side) != [] && q <= f.Of(side)[0].quantity
  {
    Flat.Make(side, Consume(f.Of(side), q), f.Of(side.Opposite()))
  }

  // ----- greedy price-time matching -----------------------------------------

  /** The taker's limit reaches the resting order; a market order reaches everything. */
  predicate Reaches(t: Order, o: Order) {
    t.kind.Market? || (if t.side.Bid? then o.price <= t.price else t.price <= o.price)
  }

  /** A trade between a taker and a resting order.  A limit cross prints at the
      ask's price whoever is the aggressor; a market order prints at the resting
      price. */
  function TradeOf(t: Order, o: Order, q: nat): Trade {
    var ts := Max(t.timestamp, o.timestamp);
    if t.side.Bid? then Trade(t.id, o.id, o.price, q, ts)
    else Trade(o.id, t.id, if t.kind.Market? then o.price else t.price, q, ts)
  }

  datatype Matching = Matching(trades: seq<Trade>, opp: seq<Order>, left: nat)

  /** Walk the opposite queue from its head and take what the limit allows. */
  function Greedy(t: Order, qty: nat, opp: seq<Order>): Matching
    decreases |opp|
  {
    if qty == 0 || opp == [] || !Reaches(t, opp[0]) then Matching([], opp, qty)
    else
      var q := Min(qty, opp[0].quantity);
      var m := if q == opp[0].quantity then Greedy(t, qty - q, opp[1..])
               else Matching([], Consume(opp, q), 0);
      Matching([TradeOf(t, opp[0], q)] + m.trades, m.opp, m.left)
  }

  /** One step of the walk: fill the head, go on with what it leaves. */
  lemma GreedyStep(t: Order, qty: nat, opp: seq<Order>)
    requires qty > 0 && opp != [] && Reaches(t, opp[0])
    ensures var q := Min(qty, opp[0].quantity); var g := Greedy(t, qty - q, Consume(opp, q));
            Greedy(t, qty, opp) == Matching([TradeOf(t, opp[0], q)] + g.trades, g.opp, g.left)
  {
  }

  /** Quantity the taker could reach: every resting order within its limit. */
  function Available(t: Order, opp: seq<Order>): nat {
    if opp == [] then 0
    else (if Reaches(t, opp[0]) then opp[0].quantity else 0) + Available(t, opp[1..])
  }

  function TradedQty(ts: seq<Trade>): nat {
    if ts == [] then 0 else ts[0].quantity + TradedQty(ts[1..])
  }

  lemma {:induction false} OutOfReach(t: Order, opp: seq<Order>)
    requires SideOk(t.side.Opposite(), opp) && opp != [] && !Reaches(t, opp[0])
    ensures Available(t, opp) == 0
  {
    if |opp| > 1 {
      OutOfReach(t, opp[1..]);
    }
  }

  lemma TradedQtyCons(t: Trade, ts: seq<Trade>)
    ensures TradedQty([t] + ts) == t.quantity + TradedQty(ts)
  {
    assert ([t] + ts)[1..] == ts;
  }

  /** Filled quantity is exactly min(requested, available within the limit), and
      what is left of the opposite side starts out of reach unless the taker was
      filled. */
  lemma {:induction false} GreedyFills(t: Order, qty: nat, opp: seq<Order>)
    requires SideOk(t.side.Opposite(), opp)
    ensures var m := Greedy(t, qty, opp);
            && m.left <= qty
            && qty - m.left == Min(qty, Available(t, opp))
            && (m.left > 0 ==> m.opp == [] || !Reaches(t, m.opp[0]))
    decreases |opp|
  {
    if qty == 0 || opp == [] {
    } else if !Reaches(t, opp[0]) {
      OutOfReach(t, opp);
    } else {
      var q := Min(qty, opp[0].quantity);
      if q == opp[0].quantity {
        GreedyFills(t, qty - q, opp[1..]);
      }
    }
  }

  /** The taker and the opposite side each give up exactly the traded quantity. */
  lemma {:induction false} GreedyConserves(t: Order, qty: nat, opp: seq<Order>)
    ensures var m := Greedy(t, qty, opp);
            && TradedQty(m.trades) + m.left == qty
            && SumQty(opp) == SumQty(m.opp) + TradedQty(m.trades)
    decreases |opp|
  {
    if qty == 0 || opp == [] || !Reaches(t, opp[0]) {
    } else {
      var q := Min(qty, opp[0].quantity);
      if q == opp[0].quantity {
        GreedyConserves(t, qty - q, opp[1..]);
        TradedQtyCons(TradeOf(t, opp[0], q), Greedy(t, qty - q, opp[1..]).trades);
      } else {
        assert Consume(opp, q)[1..] == opp[1..];
        TradedQtyCons(TradeOf(t, opp[0], q), []);
      }
    }
  }

  /** Matching keeps the opposite side well formed and brings nothing better to its head. */
  lemma {:induction false} GreedyOk(t: Order, qty: nat, opp: seq<Order>)
    requires SideOk(t.side.Opposite(), opp)
    ensures var m := Greedy(t, qty, opp);
            && SideOk(t.side.Opposite(), m.opp)
            && Ids(m.opp) <= Ids(opp)
            && (Positive(opp) ==> Positive(m.opp))
            && (m.opp != [] ==> opp != [] && !Better(t.side.Opposite(), m.opp[0].price, opp[0].price))
    decreases |opp|
  {
    if qty == 0 || opp == [] || !Reaches(t, opp[0]) {
    } else {
      var q := Min(qty, opp[0].quantity);
      if q == opp[0].quantity {
        GreedyOk(t, qty - q, opp[1..]);
      } else {
        ConsumeOk(t.side.Opposite(), opp, q);
      }
    }
  }

  /** Trade i of a match is with order i of the queue it walked. */
  ghost predicate FillsPrefix(t: Order, trades: seq<Trade>, opp: seq<Order>, rest: seq<Order>)
    decreases |opp|
  {
    if trades == [] then rest == opp
    else
      && opp != [] && Reaches(t, opp[0])
      && trades[0] == TradeOf(t, opp[0], trades[0].quantity)
      && (if trades[0].quantity == opp[0].quantity then FillsPrefix(t, trades[1..], opp[1..], rest)
          else |trades| == 1 && trades[0].quantity < opp[0].quantity &&
               rest == [opp[0].(quantity := opp[0].quantity - trades[0].quantity)] + opp[1..])
  }

  /** Fills are a prefix of the opposite queue: trade i is with order i, every
      filled order but the last is filled whole, the last may keep a remainder,
      and everything behind it is untouched. */
  lemma {:induction false} GreedyPrefix(t: Order, qty: nat, opp: seq<Order>)
    ensures FillsPrefix(t, Greedy(t, qty, opp).trades, opp, Greedy(t, qty, opp).opp)
    decreases |opp|
  {
    if qty == 0 || opp == [] || !Reaches(t, opp[0]) {
    } else {
      var q := Min(qty, opp[0].quantity);
      if q == opp[0].quantity {
        GreedyPrefix(t, qty - q, opp[1..]);
        var n := Greedy(t, qty - q, opp[1..]);
        assert ([TradeOf(t, opp[0], q)] + n.trades)[1..] == n.trades;
      }
    }
  }

  /** The limits of the two orders of a fill bracket its price. */
  ghost predicate PriceWithin(t: Order, o: Order, tr: Trade) {
    if t.side.Bid? then
      && tr.buyer == t.id && tr.seller == o.id
      && o.price <= tr.price && (t.kind.Limit? ==> tr.price <= t.price)
    else
      && tr.seller == t.id && tr.buyer == o.id
      && tr.price <= o.price && (t.kind.Limit? ==> t.price <= tr.price)
  }

  /** Every trade involves the taker and the i-th resting order, within both limits. */
  lemma {:induction false} GreedyPrices(t: Order, qty: nat, opp: seq<Order>, i: nat)
    requires i < |Greedy(t, qty, opp).trades|
    ensures i < |opp| && PriceWithin(t, opp[i], Greedy(t, qty, opp).trades[i])
    decreases |opp|
  {
    var q := Min(qty, opp[0].quantity);
    if i > 0 {
      GreedyPrices(t, qty - q, opp[1..], i - 1);
    }
  }

  /** Trade i is struck at the price of whoever sells, or at the resting price if
      the taker is a market order, and stamped with the later of the two times. */
  lemma {:induction false} GreedySeller(t: Order, qty: nat, opp: seq<Order>, i: nat)
    requires i < |Greedy(t, qty, opp).trades|
    ensures var tr := Greedy(t, qty, opp).trades[i];
            && i < |opp| && tr.timestamp == Max(t.timestamp, opp[i].timestamp)
            && tr.price == if t.side.Bid? || t.kind.Market? then opp[i].price else t.price
    decreases |opp|
  {
    var q := Min(qty, opp[0].quantity);
    if i > 0 {
      GreedySeller(t, qty - q, opp[1..], i - 1);
    }
  }

  // ----- the engine's rest-then-cross loop on the flat book -----------------

  function TopQty(f: Flat): nat
    requires IsCrossed(f)
  {
    Min(f.bids[0].quantity, f.asks[0].quantity)
  }

  function TopTrade(f: Flat): Trade
    requires IsCrossed(f)
  {
    Trade(f.bids[0].id, f.asks[0].id, f.asks[0].price, TopQty(f),
          Max(f.bids[0].timestamp, f.asks[0].timestamp))
  }

  function TopCross(f: Flat): Flat
    requires IsCrossed(f)
  {
    Flat(Consume(f.bids, TopQty(f)), Consume(f.asks, TopQty(f)))
  }

  lemma TopCrossOk(f: Flat)
    requires BookOk(f) && IsCrossed(f)
    ensures BookOk(TopCross(f))
    ensures AllIds(TopCross(f)) <= AllIds(f)
  {
    ConsumeOk(Bid, f.bids, TopQty(f));
    ConsumeOk(Ask, f.asks, TopQty(f));
  }

  datatype Crossing = Crossing(book: Flat, trades: seq<Trade>, left: nat)

  /** Execute the top cross while the book is crossed and `id` still has quantity. */
  function CrossLoop(f: Flat, id: nat, left: nat): Crossing
    decreases |f.bids| + |f.asks|
  {
    if left == 0 || !IsCrossed(f) then Crossing(f, [], left)
    else
      var t := TopTrade(f);
      var left' := if t.buyer == id || t.seller == id then left - Min(left, t.quantity) else left;
      var r := CrossLoop(TopCross(f), id, left');
      Crossing(r.book, [t] + r.trades, r.left)
  }

  /** What greedy matching of a limit order does to the whole book: take from the
      opposite queue, then rest what is left. */
  function GreedyLimit(f: Flat, o: Order): Crossing {
    var m := Greedy(o, o.quantity, f.Of(o.side.Opposite()));
    var own := f.Of(o.side);
    var own' := if m.left == 0 then own else Insert(o.side, own, o.(quantity := m.left));
    Crossing(Flat.Make(o.side, own', m.opp), m.trades, m.left)
  }

  /** One turn of the loop with the taker at the head of its own queue. */
  lemma TopCrossAtHead(o: Order, own: seq<Order>, opp: seq<Order>)
    requires o.kind.Limit? && opp != [] && Reaches(o, opp[0])
    ensures var f := Flat.Make(o.side, [o] + own, opp); var q := Min(o.quantity, opp[0].quantity);
            && IsCrossed(f) && TopTrade(f) == TradeOf(o, opp[0], q)
            && TopCross(f) == Flat.Make(o.side,
                 if q == o.quantity then own else [o.(quantity := o.quantity - q)] + own, Consume(opp, q))
  {
    assert ([o] + own)[1..] == own;
  }

  /** With the taker at the head of its own queue, the loop walks the opposite
      queue exactly as Greedy does. */
  lemma {:induction false} CrossLoopAtHead(o: Order, own: seq<Order>, opp: seq<Order>)
    requires o.kind.Limit? && o.quantity > 0
    ensures var m := Greedy(o, o.quantity, opp);
            CrossLoop(Flat.Make(o.side, [o] + own, opp), o.id, o.quantity)
            == Crossing(Flat.Make(o.side, if m.left == 0 then own else [o.(quantity := m.left)] + own, m.opp),
                        m.trades, m.left)
    decreases |opp|
  {
    var f := Flat.Make(o.side, [o] + own, opp);
    if opp == [] || !Reaches(o, opp[0]) {
      assert !IsCrossed(f);
      assert o.(quantity := o.quantity) == o;
    } else {
      TopCrossAtHead(o, own, opp);
      var q := Min(o.quantity, opp[0].quantity);
      if q < o.quantity {
        var o' := o.(quantity := o.quantity - q);
        CrossLoopAtHead(o', own, opp[1..]);
        GreedySame(o, o', o'.quantity, opp[1..]);
      }
    }
  }

  /** Matching looks at the quantity it is given and, for a market order, at no
      price: those fields of the taker do not matter. */
  lemma {:induction false} GreedySame(t: Order, t': Order, qty: nat, opp: seq<Order>)
    requires t' == t.(quantity := t'.quantity, price := t'.price)
    requires t.kind.Market? || t'.price == t.price
    ensures Greedy(t', qty, opp) == Greedy(t, qty, opp)
    decreases |opp|
  {
    if qty == 0 || opp == [] || !Reaches(t, opp[0]) {
    } else {
      var q := Min(qty, opp[0].quantity);
      if q == opp[0].quantity {
        GreedySame(t, t', qty - q, opp[1..]);
      }
    }
  }

  lemma InsertAtHead(side: Side, own: seq<Order>, o: Order)
    requires own == [] || Better(side, o.price, own[0].price)
    ensures Insert(side, own, o) == [o] + own
  {
  }

  /** Resting first and crossing afterwards is greedy price-time matching. */
  lemma CrossIsGreedy(f: Flat, o: Order)
    requires !IsCrossed(f) && o.kind.Limit? && o.quantity > 0
    ensures CrossLoop(Rest(f, o), o.id, o.quantity) == GreedyLimit(f, o)
  {
    var own, opp := f.Of(o.side), f.Of(o.side.Opposite());
    if opp != [] && Reaches(o, opp[0]) {
      var m := Greedy(o, o.quantity, opp);
      InsertAtHead(o.side, own, o);
      InsertAtHead(o.side, own, o.(quantity := m.left));
      CrossLoopAtHead(o, own, opp);
    } else {
      assert !IsCrossed(Rest(f, o));
      assert o.(quantity := o.quantity) == o;
    }
  }

  lemma GreedyUncrossed(f: Flat, o: Order)
    requires BookOk(f) && !IsCrossed(f) && o.kind.Limit?
    ensures !IsCrossed(GreedyLimit(f, o).book)
  {
    var own, opp := f.Of(o.side), f.Of(o.side.Opposite());
    GreedyFills(o, o.quantity, opp);
    GreedyOk(o, o.quantity, opp);
  }

  /** A limit order leaves an uncrossed book uncrossed exactly when it carries a
      quantity or its price does not reach the opposite best. */
  lemma UncrossedAfterLimit(f: Flat, o: Order)
    requires BookOk(f) && !IsCrossed(f) && o.kind.Limit?
    ensures var opp := f.Of(o.side.Opposite());
            !IsCrossed(CrossLoop(Rest(f, o), o.id, o.quantity).book)
            <==> (o.quantity > 0 || opp == [] || !Reaches(o, opp[0]))
  {
    var own, opp := f.Of(o.side), f.Of(o.side.Opposite());
    if o.quantity > 0 {
      CrossIsGreedy(f, o);
      GreedyUncrossed(f, o);
    }
  }

  /** A limit accepted by greedy matching keeps the book well formed. */
  lemma GreedyLimitOk(f: Flat, o: Order)
    requires BookOk(f) && o.kind.Limit? && o.id !in AllIds(f)
    ensures var r := GreedyLimit(f, o);
            && BookOk(r.book)
            && AllIds(r.book) <= AllIds(f) + {o.id}
            && (o.id in AllIds(r.book) <==> r.left > 0)
            && (BookPositive(f) ==> BookPositive(r.book))
  {
    var own, opp := f.Of(o.side), f.Of(o.side.Opposite());
    var m := Greedy(o, o.quantity, opp);
    GreedyOk(o, o.quantity, opp);
    InsertOk(o.side, own, o.(quantity := m.left));
    InsertSum(o.side, own, o.(quantity := m.left));
  }
}
