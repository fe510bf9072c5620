/** The order book object (src/order_book.cpp): two level vectors and an id
    index, edited in place.  Each method is proved against the flat book. */
module OrderBooks {
  import opened Orders
  import opened FlatBook
  import opened Levels
  import opened Digests

  /** std::lower_bound over a side: the first level not better than `price`. */
  method LowerBound(side: Side, ls: seq<Level>, price: int) returns (i: nat)
    requires LevelsOk(side, ls)
    ensures i <= |ls|
    ensures forall k :: 0 <= k < i ==> Better(side, ls[k].price, price)
    ensures forall k :: i <= k < |ls| ==> !Better(side, ls[k].price, price)
  {
    var hi := |ls|;
    i := 0;
    while i < hi
      invariant i <= hi <= |ls|
      invariant forall k :: 0 <= k < i ==> Better(side, ls[k].price, price)
      invariant forall k :: hi <= k < |ls| ==> !Better(side, ls[k].price, price)
    {
      var mid := (i + hi) / 2;
      forall k, m | 0 <= k < m < |ls| ensures Better(side, ls[k].price, ls[m].price) {
        LevelsOrdered(side, ls, k, m);
      }
      if Better(side, ls[mid].price, price) {
        i := mid + 1;
      } else {
        hi := mid;
      }
    }
  }

  /** Join the level at the order's price, or open one where lower_bound points. */
  method AddTo(side: Side, ls: seq<Level>, o: Order) returns (r: seq<Level>)
    requires LevelsOk(side, ls)
    ensures LevelsOk(side, r)
    ensures Flatten(r) == Insert(side, Flatten(ls), o)
  {
    var i := LowerBound(side, ls, o.price);
    if i < |ls| && ls[i].price == o.price {
      r := ls[i := Joined(ls[i], o)];
      assert ls == ls[..i] + [ls[i]] + ls[i+1..];
      assert r == ls[..i] + [Joined(ls[i], o)] + ls[i+1..];
      AddToLevel(side, ls[..i], ls[i], ls[i+1..], o);
    } else {
      r := ls[..i] + [Level(o.price, o.quantity, [o])] + ls[i..];
      assert ls == ls[..i] + ls[i..];
      AddLevel(side, ls[..i], ls[i..], o);
    }
  }

  /** The level and the slot holding a resting id, found by lower_bound on the
      indexed price and a scan of that level's queue. */
  method FindSlot(side: Side, ls: seq<Level>, price: int, id: nat) returns (i: nat, k: nat)
    requires LevelsOk(side, ls) && SideOk(side, Flatten(ls)) && id in Ids(Flatten(ls))
    requires id in LocMap(side, Flatten(ls)) && LocMap(side, Flatten(ls))[id].1 == price
    ensures i < |ls| && k < |ls[i].orders| && ls[i].orders[k].id == id
  {
    ghost var j, m := Locate(side, ls, id);
    i := LowerBound(side, ls, price);
    assert i == j by {
      if i < j {
        LevelsOrdered(side, ls, i, j);
      }
    }
    k := 0;
    while ls[i].orders[k].id != id
      invariant k <= m
      decreases m - k
    {
      k := k + 1;
    }
  }

  /** erase_from: take the order out of its level, and the level out when empty. */
  method EraseFrom(side: Side, ls: seq<Level>, price: int, id: nat) returns (r: seq<Level>)
    requires LevelsOk(side, ls) && SideOk(side, Flatten(ls)) && id in Ids(Flatten(ls))
    requires id in LocMap(side, Flatten(ls)) && LocMap(side, Flatten(ls))[id].1 == price
    ensures LevelsOk(side, r)
    ensures Flatten(r) == Keep(Flatten(ls), {id})
  {
    var i, k := FindSlot(side, ls, price, id);
    var l := ls[i];
    var o := l.orders[k];
    assert l.orders == l.orders[..k] + [o] + l.orders[k+1..];
    assert ls == ls[..i] + [l] + ls[i+1..];
    CancelInLevel(side, ls[..i], l, ls[i+1..], l.orders[..k], o, l.orders[k+1..]);
    r := Replaced(ls[..i], l.price, l.orders[..k] + l.orders[k+1..], l.total - o.quantity, ls[i+1..]);
  }

  method SumQueue(s: seq<Order>) returns (total: nat)
    ensures total == SumQty(s)
  {
    total := 0;
    var i := 0;
    while i < |s|
      invariant i <= |s|
      invariant total + SumQty(s[i..]) == SumQty(s)
    {
      assert s[i..][1..] == s[i+1..];
      total := total + s[i].quantity;
      i := i + 1;
    }
  }

  /** Take n units off the front of one queue; also the ids that left it. */
  method DrainQueue(q: seq<Order>, price: int, n: nat) returns (r: seq<Order>, gone: set<nat>)
    requires AllAt(q, price) && n <= SumQty(q)
    ensures r == ReduceAt(q, price, n)
    ensures Ids(q) == gone + Ids(r)
    ensures forall side :: SideOk(side, q) ==> gone !! Ids(r)
  {
    r, gone := q, {};
    var left: nat := n;
    while left > 0
      invariant AllAt(r, price) && left <= SumQty(r)
      invariant ReduceAt(r, price, left) == ReduceAt(q, price, n)
      invariant Ids(q) == gone + Ids(r)
      invariant forall side :: SideOk(side, q) ==> SideOk(side, r) && gone !! Ids(r)
      decreases |r| + left
    {
      var front := r[0];
      var take := Min(left, front.quantity);
      if take == front.quantity {
        gone := gone + {front.id};
        r := r[1..];
      } else {
        ghost var was := r;
        r := [front.(quantity := front.quantity - take)] + r[1..];
        assert r[1..] == was[1..];
      }
      left := left - take;
    }
  }

  method DigestSide(mix: (nat, int) -> nat, h0: nat, tag: int, ls: seq<Level>) returns (h: nat)
    ensures h == MixSide(mix, h0, tag, LevelDepths(ls))
  {
    h := mix(mix(h0, tag), |ls|);
    var i := 0;
    while i < |ls|
      invariant i <= |ls|
      invariant MixDepths(mix, h, LevelDepths(ls[i..])) == MixSide(mix, h0, tag, LevelDepths(ls))
    {
      assert ls[i..][1..] == ls[i+1..];
      assert LevelDepths(ls[i..])[1..] == LevelDepths(ls[i+1..]);
      h := mix(mix(mix(h, ls[i].price), ls[i].total), |ls[i].orders|);
      i := i + 1;
    }
  }

  method FlattenLevels(ls: seq<Level>) returns (out: seq<Order>)
    ensures out == Flatten(ls)
  {
    out := [];
    var i := 0;
    while i < |ls|
      invariant i <= |ls|
      invariant out + Flatten(ls[i..]) == Flatten(ls)
    {
      assert ls[i..][1..] == ls[i+1..];
      assert out + (ls[i].orders + Flatten(ls[i+1..])) == out + ls[i].orders + Flatten(ls[i+1..]);
      out := out + ls[i].orders;
      i := i + 1;
    }
    assert out + [] == out;
  }

  predicate Consistent(l: Level) {
    l.orders != [] && l.total == SumQty(l.orders)
  }

  method AllConsistent(ls: seq<Level>) returns (ok: bool)
    ensures ok <==> forall i :: 0 <= i < |ls| ==> Consistent(ls[i])
  {
    var i := 0;
    while i < |ls|
      invariant i <= |ls|
      invariant forall k :: 0 <= k < i ==> Consistent(ls[k])
    {
      var sum := SumQueue(ls[i].orders);
      if sum != ls[i].total || ls[i].orders == [] {
        assert !Consistent(ls[i]);
        return false;
      }
      i := i + 1;
    }
    return true;
  }

  class OrderBook {
    var bids: seq<Level>
    var asks: seq<Level>
    var orderLoc: map<nat, (Side, int)>

    ghost function Book(): Flat
      reads this
    {
      Flat(Flatten(bids), Flatten(asks))
    }

    /** Levels strictly sorted and non-empty, totals exact, ids unique, and the
        index exactly the resting ids with their true side and price. */
    ghost predicate Valid()
      reads this
    {
      && LevelsOk(Bid, bids) && LevelsOk(Ask, asks)
      && BookOk(Book())
      && orderLoc == BookLoc(Book())
    }

    constructor ()
      ensures Valid() && Book() == Flat([], [])
    {
      bids, asks, orderLoc := [], [], map[];
    }

    function LevelsOf(side: Side): seq<Level>
      reads this
    {
      if side.Bid? then bids else asks
    }

    method AddOrder(o: Order)
      requires Valid() && (o.kind.Limit? ==> o.id !in AllIds(Book()))
      modifies this
      ensures Valid()
      ensures Book() == if o.kind.Limit? then Rest(old(Book()), o) else old(Book())
    {
      if !o.kind.Limit? {
        return;
      }
      RestOk(Book(), o);
      LocRest(Book(), o);
      var ls := AddTo(o.side, LevelsOf(o.side), o);
      if o.side.Bid? {
        bids := ls;
      } else {
        asks := ls;
      }
      orderLoc := orderLoc[o.id := (o.side, o.price)];
    }

    /** A cancel succeeds exactly for resting ids and removes that order alone. */
    method CancelOrder(id: nat) returns (removed: bool)
      requires Valid()
      modifies this
      ensures Valid()
      ensures removed <==> id in AllIds(old(Book()))
      ensures Book() == Drop(old(Book()), {id})
    {
      BookLocKeys(Book());
      removed := id in orderLoc;
      if !removed {
        KeepNone(Flatten(bids), {id});
        KeepNone(Flatten(asks), {id});
        return;
      }
      DropOk(Book(), {id});
      LocDrop(Book(), {id});
      var (side, price) := orderLoc[id];
      LocKeys(Bid, Flatten(bids));
      LocKeys(Ask, Flatten(asks));
      KeepNone(Book().Of(side.Opposite()), {id});
      var ls := EraseFrom(side, LevelsOf(side), price, id);
      if side.Bid? {
        bids := ls;
      } else {
        asks := ls;
      }
      orderLoc := orderLoc - {id};
    }

    method IsCrossedNow() returns (r: bool)
      requires Valid()
      ensures r == IsCrossed(Book())
    {
      r := bids != [] && asks != [] && bids[0].price >= asks[0].price;
      if bids != [] {
        FlattenHead(Bid, bids);
      }
      if asks != [] {
        FlattenHead(Ask, asks);
      }
    }

    /** Best price of a side, if it has one. */
    method BestPrice(side: Side) returns (r: Option<int>)
      requires Valid()
      ensures r == if Book().Of(side) == [] then None else Some(Book().Of(side)[0].price)
    {
      var ls := LevelsOf(side);
      if ls == [] {
        return None;
      }
      FlattenHead(side, ls);
      return Some(ls[0].price);
    }

    /** The first order of a side gives up q units: queue, cached total, level
        vector and index move together. */
    method FillFront(side: Side, q: nat)
      requires Valid() && LevelsOf(side) != [] && q <= LevelsOf(side)[0].orders[0].quantity
      modifies this
      ensures Valid()
      ensures old(Book()).Of(side) != [] && q <= old(Book()).Of(side)[0].quantity
      ensures Book() == Filled(old(Book()), side, q)
      ensures LevelsOf(side.Opposite()) == old(LevelsOf(side.Opposite()))
    {
      var ls := LevelsOf(side);
      TakeFrontOk(side, ls, q);
      LocFilled(Book(), side, q);
      var front := ls[0].orders[0];
      if side.Bid? {
        bids := TakeFront(ls, q);
      } else {
        asks := TakeFront(ls, q);
      }
      if q == front.quantity {
        orderLoc := orderLoc - {front.id};
      }
    }

    method ExecuteTopCross() returns (trade: Option<Trade>)
      requires Valid()
      modifies this
      ensures Valid()
      ensures trade.Some? <==> IsCrossed(old(Book()))
      ensures trade.Some? ==> trade.value == TopTrade(old(Book())) && Book() == TopCross(old(Book()))
      ensures trade.None? ==> Book() == old(Book())
    {
      var crossed := IsCrossedNow();
      if !crossed {
        return None;
      }
      FlattenHead(Bid, bids);
      FlattenHead(Ask, asks);
      var bid, ask := bids[0].orders[0], asks[0].orders[0];
      var q := Min(bid.quantity, ask.quantity);
      trade := Some(Trade(bid.id, ask.id, ask.price, q, Max(bid.timestamp, ask.timestamp)));
      FillFront(Bid, q);
      FillFront(Ask, q);
    }

    /** A market order walks the opposite side exactly as Greedy does; what it
        cannot fill is handed back. */
    method MatchMarket(id: nat, side: Side, quantity: nat, timestamp: nat)
      returns (left: nat, trades: seq<Trade>)
      requires Valid()
      modifies this
      ensures Valid()
      ensures var t := Order(id, 0, quantity, side, Market, timestamp);
              var m := Greedy(t, quantity, old(Book()).Of(side.Opposite()));
              && Book() == Flat.Make(side, old(Book()).Of(side), m.opp)
              && trades == m.trades && left == m.left
    {
      ghost var t := Order(id, 0, quantity, side, Market, timestamp);
      ghost var m := Greedy(t, quantity, Book().Of(side.Opposite()));
      assert [] + m.trades == m.trades;
      left, trades := quantity, [];
      var opp := side.Opposite();
      while left > 0 && LevelsOf(opp) != []
        invariant Valid() && LevelsOf(side) == old(LevelsOf(side))
        invariant Walked(t, left, trades, Book().Of(opp), m)
        decreases |Book().Of(opp)| + left
      {
        FlattenHead(opp, LevelsOf(opp));
        WalkStep(t, left, trades, Book().Of(opp), m);
        var o := LevelsOf(opp)[0].orders[0];
        var take := Min(left, o.quantity);
        var ts := Max(timestamp, o.timestamp);
        var trade := if side.Bid? then Trade(id, o.id, o.price, take, ts) else Trade(o.id, id, o.price, take, ts);
        FillFront(opp, take);
        trades := trades + [trade];
        left := left - take;
      }
      assert trades + [] == trades;
    }

    /** Sets a resting quantity in place, keeping queue position; zero cancels. */
    method ReplaceRemainingQuantity(id: nat, quantity: nat) returns (found: bool)
      requires Valid()
      modifies this
      ensures Valid()
      ensures found <==> id in AllIds(old(Book()))
      ensures Book() == if quantity == 0 then Drop(old(Book()), {id})
                        else Flat(SetQty(old(Book()).bids, id, quantity), SetQty(old(Book()).asks, id, quantity))
    {
      if quantity == 0 {
        found := CancelOrder(id);
        return;
      }
      BookLocKeys(Book());
      SetQtyAbsent(Flatten(bids), id, quantity);
      SetQtyAbsent(Flatten(asks), id, quantity);
      found := id in orderLoc;
      if !found {
        return;
      }
      var (side, price) := orderLoc[id];
      LocKeys(Bid, Flatten(bids));
      LocKeys(Ask, Flatten(asks));
      SetQtyOk(side, Book().Of(side), id, quantity);
      var ls := SetIn(side, LevelsOf(side), price, id, quantity);
      if side.Bid? {
        bids := ls;
      } else {
        asks := ls;
      }
    }

    /** Removes traded units at a price, first in first out. */
    method ReduceLevel(side: Side, price: int, traded: nat, allowMissing: bool) returns (ok: bool)
      requires Valid()
      modifies this
      ensures Valid()
      ensures var s := old(Book()).Of(side);
              && (ok <==> traded <= QtyAt(s, price) || (allowMissing && CountAt(s, price) == 0))
              && Book() == Flat.Make(side, if traded <= QtyAt(s, price) then ReduceAt(s, price, traded) else s,
                                     old(Book()).Of(side.Opposite()))
    {
      if traded == 0 {
        return true;
      }
      var ls := LevelsOf(side);
      var i := LowerBound(side, ls, price);
      QtyAtLevel(side, ls, i, price);
      CountAtLevel(side, ls, i, price);
      if i == |ls| || ls[i].price != price {
        return allowMissing;
      }
      var l := ls[i];
      assert ls == ls[..i] + [l] + ls[i+1..];
      LevelsAround(side, ls[..i], l, ls[i+1..]);
      var total := SumQueue(l.orders);
      if total < traded {
        return false;
      }
      var q, gone := DrainQueue(l.orders, price, traded);
      ReduceInLevel(side, ls[..i], l, ls[i+1..], traded);
      ReducedLoc(side, ls[..i], l, ls[i+1..], traded, gone, Book());
      if side.Bid? {
        bids := Replaced(ls[..i], price, q, l.total - traded, ls[i+1..]);
      } else {
        asks := Replaced(ls[..i], price, q, l.total - traded, ls[i+1..]);
      }
      orderLoc := orderLoc - gone;
      ok := true;
    }

    method Digest() returns (h: nat)
      requires Valid()
      ensures h == DigestOf(Book())
    {
      DepthsOfLevels(Bid, bids);
      DepthsOfLevels(Ask, asks);
      h := DigestSide(Mix, FNV_OFFSET, 1, bids);
      h := DigestSide(Mix, h, 2, asks);
    }

    method AllOrders() returns (out: seq<Order>)
      ensures out == Book().bids + Book().asks
    {
      var b := FlattenLevels(bids);
      var a := FlattenLevels(asks);
      out := b + a;
    }

    /** Whether every level is non-empty and its cached total exact. */
    method LevelsConsistent() returns (ok: bool)
      ensures ok <==> forall i :: 0 <= i < |bids + asks| ==> Consistent((bids + asks)[i])
    {
      ok := AllConsistent(bids);
      if !ok {
        var k :| 0 <= k < |bids| && !Consistent(bids[k]);
        assert (bids + asks)[k] == bids[k];
        return;
      }
      ok := AllConsistent(asks);
      if !ok {
        var k :| 0 <= k < |asks| && !Consistent(asks[k]);
        assert (bids + asks)[|bids| + k] == asks[k];
      }
    }
  }

  lemma {:induction false} SetQtyAbsent(s: seq<Order>, id: nat, q: nat)
    ensures id !in Ids(s) ==> SetQty(s, id, q) == s
  {
    if s != [] {
      SetQtyAbsent(s[1..], id, q);
    }
  }

  /** touch: overwrite one order's quantity and correct the cached total. */
  method SetIn(side: Side, ls: seq<Level>, price: int, id: nat, q: nat) returns (r: seq<Level>)
    requires LevelsOk(side, ls) && SideOk(side, Flatten(ls)) && id in Ids(Flatten(ls))
    requires id in LocMap(side, Flatten(ls)) && LocMap(side, Flatten(ls))[id].1 == price
    ensures LevelsOk(side, r)
    ensures Flatten(r) == SetQty(Flatten(ls), id, q)
  {
    var i, k := FindSlot(side, ls, price, id);
    var l := ls[i];
    var o := l.orders[k];
    var a, b := l.orders[..k], l.orders[k+1..];
    assert l.orders == a + [o] + b;
    assert ls == ls[..i] + [l] + ls[i+1..];
    SetQtyInLevel(side, ls[..i], l, ls[i+1..], a, o, b, q);
    r := ls[..i] + [Level(l.price, l.total - o.quantity + q, a + [o.(quantity := q)] + b)] + ls[i+1..];
  }

  lemma {:induction false} CountAtLevel(side: Side, ls: seq<Level>, i: nat, price: int)
    requires LevelsOk(side, ls) && i <= |ls|
    requires forall k :: 0 <= k < i ==> Better(side, ls[k].price, price)
    requires forall k :: i <= k < |ls| ==> !Better(side, ls[k].price, price)
    ensures CountAt(Flatten(ls), price) == 0 <==> !(i < |ls| && ls[i].price == price)
  {
    if i > 0 {
      CountAtLevel(side, ls[1..], i - 1, price);
      CountAtOther(ls[0].orders, Flatten(ls[1..]), ls[0].price, price);
    } else if ls != [] {
      if ls[0].price == price {
        QueueSums(ls[0].orders, Flatten(ls[1..]), price);
      } else {
        NoneAtBetter(side, ls, price);
        NoneAtSums(Flatten(ls), price);
      }
    }
  }

  lemma {:induction false} CountAtOther(q: seq<Order>, s: seq<Order>, level: int, price: int)
    requires AllAt(q, level) && level != price
    ensures CountAt(q + s, price) == CountAt(s, price)
  {
    if q == [] {
      assert q + s == s;
    } else {
      assert (q + s)[1..] == q[1..] + s;
      CountAtOther(q[1..], s, level, price);
    }
  }

  /** Draining one level keeps the book well formed, and erasing the drained ids
      keeps the index exact. */
  lemma ReducedLoc(side: Side, pre: seq<Level>, l: Level, post: seq<Level>, n: nat, gone: set<nat>, f: Flat)
    requires BookOk(f) && f.Of(side) == Flatten(pre + [l] + post)
    requires LevelsOk(side, pre + [l] + post) && n <= l.total
    requires Ids(l.orders) == gone + Ids(ReduceAt(l.orders, l.price, n))
    requires forall side :: SideOk(side, l.orders) ==> gone !! Ids(ReduceAt(l.orders, l.price, n))
    ensures var g := Flat.Make(side, ReduceAt(f.Of(side), l.price, n), f.Of(side.Opposite()));
            BookOk(g) && BookLoc(g) == BookLoc(f) - gone
  {
    var s := f.Of(side);
    ReduceAtOk(side, s, l.price, n);
    LocReduce(side, s, l.price, n);
    GoneIds(side, pre, l, post, n, gone);
    LocOneSide(f, side, ReduceAt(s, l.price, n), gone);
  }

  lemma GoneIds(side: Side, pre: seq<Level>, l: Level, post: seq<Level>, n: nat, gone: set<nat>)
    requires SideOk(side, Flatten(pre + [l] + post))
    requires LevelsOk(side, pre + [l] + post) && n <= l.total
    requires Ids(l.orders) == gone + Ids(ReduceAt(l.orders, l.price, n))
    requires forall side :: SideOk(side, l.orders) ==> gone !! Ids(ReduceAt(l.orders, l.price, n))
    ensures var s := Flatten(pre + [l] + post); gone == Ids(s) - Ids(ReduceAt(s, l.price, n))
  {
    var x, q, y := Flatten(pre), l.orders, Flatten(post);
    FlattenAround(pre, l, post);
    LevelsAround(side, pre, l, post);
    ReduceMiddle(side, pre, q, y, l.price, n);
    MiddleIds(side, x, q, y);
    Append(x + q, y);
    Append(x, q);
    Append(x + ReduceAt(q, l.price, n), y);
    Append(x, ReduceAt(q, l.price, n));
  }

  /** The three parts of a duplicate-free list share no id. */
  lemma MiddleIds(side: Side, x: seq<Order>, q: seq<Order>, y: seq<Order>)
    requires SideOk(side, x + q + y)
    ensures SideOk(side, q) && Ids(x) !! Ids(q) && Ids(q) !! Ids(y)
  {
    SideOkSplit(side, x + q, y);
    SideOkSplit(side, x, q);
    Append(x, q);
  }

  lemma {:induction false} SideOkSplit(side: Side, a: seq<Order>, b: seq<Order>)
    requires SideOk(side, a + b)
    ensures SideOk(side, a) && SideOk(side, b) && Ids(a) !! Ids(b)
  {
    if a == [] {
      assert a + b == b;
    } else {
      assert (a + b)[1..] == a[1..] + b;
      SideOkSplit(side, a[1..], b);
      Append(a[1..], b);
    }
  }

  /** What has been printed plus what is still to match is the whole match. */
  ghost predicate Walked(t: Order, left: nat, done: seq<Trade>, opp: seq<Order>, m: Matching) {
    var g := Greedy(t, left, opp);
    done + g.trades == m.trades && g.opp == m.opp && g.left == m.left
  }

  lemma WalkStep(t: Order, left: nat, done: seq<Trade>, opp: seq<Order>, m: Matching)
    requires Walked(t, left, done, opp, m) && left > 0 && opp != [] && t.kind.Market?
    ensures var q := Min(left, opp[0].quantity);
            && Walked(t, left - q, done + [TradeOf(t, opp[0], q)], Consume(opp, q), m)
            && |Consume(opp, q)| + (left - q) < |opp| + left
  {
    GreedyStep(t, left, opp);
    var q := Min(left, opp[0].quantity);
    var g := Greedy(t, left - q, Consume(opp, q));
    assert done + ([TradeOf(t, opp[0], q)] + g.trades) == done + [TradeOf(t, opp[0], q)] + g.trades;
  }
}
