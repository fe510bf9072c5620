/** The engine's own representation of one side (include/order_book/order_book.hpp):
    a vector of price levels, each with a FIFO queue and a cached total, best
    price first.  `Flatten` is the flat list it stands for. */
module Levels {
  import opened Orders
  import opened FlatBook

  datatype Level = Level(price: int, total: nat, orders: seq<Order>)

  function Flatten(ls: seq<Level>): seq<Order> {
    if ls == [] then [] else ls[0].orders + Flatten(ls[1..])
  }

  ghost predicate AllAt(s: seq<Order>, price: int) {
    s == [] || (s[0].price == price && AllAt(s[1..], price))
  }

  /** What levels_consistent checks, plus that every order sits at its own price. */
  ghost predicate LevelOk(l: Level) {
    l.orders != [] && l.total == SumQty(l.orders) && AllAt(l.orders, l.price)
  }

  /** Levels strictly best-first, none empty, every cached total exact. */
  ghost predicate LevelsOk(side: Side, ls: seq<Level>) {
    ls == [] ||
    (&& LevelOk(ls[0])
     && (|ls| > 1 ==> Better(side, ls[0].price, ls[1].price))
     && LevelsOk(side, ls[1..]))
  }

  lemma {:induction false} FlattenAppend(a: seq<Level>, b: seq<Level>)
    ensures Flatten(a + b) == Flatten(a) + Flatten(b)
  {
    if a == [] {
      assert a + b == b;
    } else {
      assert (a + b)[1..] == a[1..] + b;
      FlattenAppend(a[1..], b);
    }
  }

  lemma FlattenAround(pre: seq<Level>, l: Level, post: seq<Level>)
    ensures Flatten(pre + [l] + post) == Flatten(pre) + l.orders + Flatten(post)
  {
    FlattenAppend(pre + [l], post);
    FlattenAppend(pre, [l]);
    assert [l][1..] == [];
    assert Flatten([l]) == l.orders;
  }

  /** Two runs of levels join exactly when the seam is in order. */
  lemma {:induction false} LevelsJoin(side: Side, a: seq<Level>, b: seq<Level>)
    ensures LevelsOk(side, a + b) <==>
              (LevelsOk(side, a) && LevelsOk(side, b) &&
               (a != [] && b != [] ==> Better(side, a[|a|-1].price, b[0].price)))
  {
    if a == [] {
      assert a + b == b;
    } else {
      assert (a + b)[1..] == a[1..] + b;
      LevelsJoin(side, a[1..], b);
    }
  }

  /** Replacing, adding or removing one level: only the seams matter. */
  lemma LevelsAround(side: Side, pre: seq<Level>, l: Level, post: seq<Level>)
    ensures LevelsOk(side, pre + [l] + post) <==>
              (&& LevelsOk(side, pre) && LevelOk(l) && LevelsOk(side, post)
               && (pre != [] ==> Better(side, pre[|pre|-1].price, l.price))
               && (post != [] ==> Better(side, l.price, post[0].price)))
  {
    LevelsJoin(side, pre + [l], post);
    LevelsJoin(side, pre, [l]);
    assert LevelsOk(side, [l]) <==> LevelOk(l);
    assert (pre + [l])[|pre + [l]|-1] == l;
  }

  lemma {:induction false} LevelsOrdered(side: Side, ls: seq<Level>, i: nat, j: nat)
    requires LevelsOk(side, ls) && i < j < |ls|
    ensures Better(side, ls[i].price, ls[j].price)
  {
    if i > 0 {
      LevelsOrdered(side, ls[1..], i - 1, j - 1);
    } else if j > 1 {
      LevelsOrdered(side, ls[1..], 0, j - 1);
    }
  }

  lemma FlattenHead(side: Side, ls: seq<Level>)
    requires LevelsOk(side, ls) && ls != []
    ensures Flatten(ls) != [] && Flatten(ls)[0] == ls[0].orders[0]
    ensures Flatten(ls)[0].price == ls[0].price
  {
  }

  lemma {:induction false} NoneWorseAppend(side: Side, a: seq<Order>, b: seq<Order>, price: int)
    requires NoneWorse(side, a, price) && NoneWorse(side, b, price)
    ensures NoneWorse(side, a + b, price)
  {
    if a == [] {
      assert a + b == b;
    } else {
      assert (a + b)[1..] == a[1..] + b;
      NoneWorseAppend(side, a[1..], b, price);
    }
  }

  lemma {:induction false} AllAtNoneWorse(side: Side, s: seq<Order>, level: int, price: int)
    requires AllAt(s, level) && !Better(side, price, level)
    ensures NoneWorse(side, s, price)
  {
    if s != [] {
      AllAtNoneWorse(side, s[1..], level, price);
    }
  }

  lemma {:induction false} FlattenNoneWorse(side: Side, ls: seq<Level>, price: int)
    requires LevelsOk(side, ls) && (ls != [] ==> Better(side, ls[|ls|-1].price, price))
    ensures NoneWorse(side, Flatten(ls), price)
  {
    if ls != [] {
      if |ls| > 1 {
        LevelsOrdered(side, ls, 0, |ls| - 1);
      }
      FlattenNoneWorse(side, ls[1..], price);
      AllAtNoneWorse(side, ls[0].orders, ls[0].price, price);
      NoneWorseAppend(side, ls[0].orders, Flatten(ls[1..]), price);
    }
  }

  lemma {:induction false} AllAtAppend(a: seq<Order>, b: seq<Order>, price: int)
    ensures AllAt(a + b, price) <==> AllAt(a, price) && AllAt(b, price)
  {
    if a == [] {
      assert a + b == b;
    } else {
      assert (a + b)[1..] == a[1..] + b;
      AllAtAppend(a[1..], b, price);
    }
  }

  // ----- the edits addOrder makes -------------------------------------------

  function Joined(l: Level, o: Order): Level {
    Level(l.price, l.total + o.quantity, l.orders + [o])
  }

  /** Appending to the level at the order's price is the flat insertion. */
  lemma AddToLevel(side: Side, pre: seq<Level>, l: Level, post: seq<Level>, o: Order)
    requires LevelsOk(side, pre + [l] + post) && o.price == l.price
    ensures LevelsOk(side, pre + [Joined(l, o)] + post)
    ensures Flatten(pre + [Joined(l, o)] + post) == Insert(side, Flatten(pre + [l] + post), o)
  {
    LevelsAround(side, pre, l, post);
    LevelsAround(side, pre, Joined(l, o), post);
    Append(l.orders, [o]);
    AllAtAppend(l.orders, [o], l.price);
    FlattenAround(pre, l, post);
    FlattenAround(pre, Joined(l, o), post);
    FlattenNoneWorse(side, pre, o.price);
    AllAtNoneWorse(side, l.orders, l.price, o.price);
    NoneWorseAppend(side, Flatten(pre), l.orders, o.price);
    if post != [] {
      FlattenHead(side, post);
    }
    InsertAt(side, Flatten(pre) + l.orders, Flatten(post), o);
    assert Flatten(pre) + (l.orders + [o]) == Flatten(pre) + l.orders + [o];
  }

  /** Opening a new level between better and worse ones is the flat insertion. */
  lemma AddLevel(side: Side, pre: seq<Level>, post: seq<Level>, o: Order)
    requires LevelsOk(side, pre + post)
    requires pre != [] ==> Better(side, pre[|pre|-1].price, o.price)
    requires post != [] ==> Better(side, o.price, post[0].price)
    ensures LevelsOk(side, pre + [Level(o.price, o.quantity, [o])] + post)
    ensures Flatten(pre + [Level(o.price, o.quantity, [o])] + post) == Insert(side, Flatten(pre + post), o)
  {
    var l := Level(o.price, o.quantity, [o]);
    LevelsJoin(side, pre, post);
    assert LevelOk(l) by {
      assert [o][1..] == [];
      assert SumQty([o]) == o.quantity + SumQty([]);
    }
    LevelsAround(side, pre, l, post);
    FlattenAround(pre, l, post);
    FlattenAppend(pre, post);
    FlattenNoneWorse(side, pre, o.price);
    if post != [] {
      FlattenHead(side, post);
    }
    InsertAt(side, Flatten(pre), Flatten(post), o);
  }

  // ----- replacing one level's queue ----------------------------------------

  /** The side after level `l` has been given the queue `q`; an empty level is erased. */
  function Replaced(pre: seq<Level>, price: int, q: seq<Order>, total: nat, post: seq<Level>): seq<Level> {
    if q == [] then pre + post else pre + [Level(price, total, q)] + post
  }

  lemma ReplaceQueue(side: Side, pre: seq<Level>, l: Level, post: seq<Level>, q: seq<Order>, total: nat)
    requires LevelsOk(side, pre + [l] + post) && AllAt(q, l.price) && total == SumQty(q)
    ensures LevelsOk(side, Replaced(pre, l.price, q, total, post))
    ensures Flatten(Replaced(pre, l.price, q, total, post)) == Flatten(pre) + q + Flatten(post)
  {
    LevelsAround(side, pre, l, post);
    if q == [] {
      LevelsJoin(side, pre, post);
      FlattenAppend(pre, post);
      assert Flatten(pre) + q == Flatten(pre);
    } else {
      LevelsAround(side, pre, Level(l.price, total, q), post);
      FlattenAround(pre, Level(l.price, total, q), post);
    }
  }

  /** Every order of a duplicate-free list has an id found nowhere else in it. */
  lemma {:induction false} IdOnce(side: Side, a: seq<Order>, o: Order, b: seq<Order>)
    requires SideOk(side, a + [o] + b)
    ensures o.id !in Ids(a) && o.id !in Ids(b)
  {
    var s := a + [o] + b;
    if a == [] {
      assert s[0] == o && s[1..] == b;
    } else {
      assert s[1..] == a[1..] + [o] + b;
      IdOnce(side, a[1..], o, b);
      Append(a[1..] + [o], b);
      Append(a[1..], [o]);
      assert o.id in Ids([o]);
    }
  }

  /** A queue split around one of its orders. */
  lemma QueueAround(a: seq<Order>, o: Order, b: seq<Order>, price: int)
    ensures SumQty(a + [o] + b) == SumQty(a) + o.quantity + SumQty(b)
    ensures AllAt(a + [o] + b, price) <==> AllAt(a, price) && o.price == price && AllAt(b, price)
  {
    Append(a + [o], b);
    Append(a, [o]);
    AllAtAppend(a + [o], b, price);
    AllAtAppend(a, [o], price);
    assert [o][1..] == [];
  }

  /** Cancelling an order in the middle of a duplicate-free list. */
  lemma KeepMiddle(side: Side, x: seq<Order>, a: seq<Order>, o: Order, b: seq<Order>, y: seq<Order>)
    requires SideOk(side, x + (a + [o] + b) + y)
    ensures Keep(x + (a + [o] + b) + y, {o.id}) == x + (a + b) + y
  {
    assert x + (a + [o] + b) + y == (x + a) + [o] + (b + y);
    IdOnce(side, x + a, o, b + y);
    KeepOne(x + a, o, b + y);
    assert x + (a + b) + y == (x + a) + (b + y);
  }

  /** What a level holds before and after its order o leaves. */
  lemma LevelWithout(side: Side, pre: seq<Level>, l: Level, post: seq<Level>,
                     a: seq<Order>, o: Order, b: seq<Order>)
    requires LevelsOk(side, pre + [l] + post) && l.orders == a + [o] + b
    ensures AllAt(a, l.price) && AllAt(b, l.price) && o.price == l.price
    ensures l.total == SumQty(a) + o.quantity + SumQty(b)
  {
    LevelsAround(side, pre, l, post);
    QueueAround(a, o, b, l.price);
  }

  /** Erasing one order from a level's deque is the flat cancellation. */
  lemma CancelInLevel(side: Side, pre: seq<Level>, l: Level, post: seq<Level>,
                      a: seq<Order>, o: Order, b: seq<Order>)
    requires LevelsOk(side, pre + [l] + post) && l.orders == a + [o] + b
    requires SideOk(side, Flatten(pre + [l] + post))
    ensures o.quantity <= l.total
    ensures LevelsOk(side, Replaced(pre, l.price, a + b, l.total - o.quantity, post))
    ensures Flatten(Replaced(pre, l.price, a + b, l.total - o.quantity, post))
            == Keep(Flatten(pre + [l] + post), {o.id})
  {
    hide SideOk, LevelsOk, Keep, Flatten;
    LevelWithout(side, pre, l, post, a, o, b);
    Append(a, b);
    AllAtAppend(a, b, l.price);
    ReplaceQueue(side, pre, l, post, a + b, l.total - o.quantity);
    FlattenAround(pre, l, post);
    KeepMiddle(side, Flatten(pre), a, o, b, Flatten(post));
  }

  /** The list with the order `id` holding q units in place. */
  function SetQty(s: seq<Order>, id: nat, q: nat): seq<Order> {
    if s == [] then []
    else if s[0].id == id then [s[0].(quantity := q)] + s[1..]
    else [s[0]] + SetQty(s[1..], id, q)
  }

  lemma {:induction false} SetQtyAt(a: seq<Order>, o: Order, b: seq<Order>, q: nat)
    requires o.id !in Ids(a)
    ensures SetQty(a + [o] + b, o.id, q) == a + [o.(quantity := q)] + b
  {
    var s := a + [o] + b;
    if a == [] {
      assert s[0] == o && s[1..] == b;
      assert a + [o.(quantity := q)] + b == [o.(quantity := q)] + b;
    } else {
      assert s[1..] == a[1..] + [o] + b;
      SetQtyAt(a[1..], o, b, q);
      assert a + [o.(quantity := q)] + b == [a[0]] + (a[1..] + [o.(quantity := q)] + b);
    }
  }

  lemma {:induction false} SetQtyOk(side: Side, s: seq<Order>, id: nat, q: nat)
    requires SideOk(side, s)
    ensures SideOk(side, SetQty(s, id, q)) && Ids(SetQty(s, id, q)) == Ids(s)
    ensures LocMap(side, SetQty(s, id, q)) == LocMap(side, s)
  {
    if s != [] {
      var r := SetQty(s, id, q);
      if s[0].id == id {
        assert r[1..] == s[1..];
      } else {
        SetQtyOk(side, s[1..], id, q);
        assert r[1..] == SetQty(s[1..], id, q);
      }
    }
  }

  /** Every order keeps its place, and every one but the named its quantity. */
  lemma {:induction false} SetQtyIs(side: Side, s: seq<Order>, id: nat, q: nat, i: nat)
    requires SideOk(side, s) && i < |s|
    ensures |SetQty(s, id, q)| == |s|
    ensures SetQty(s, id, q)[i] == if s[i].id == id then s[i].(quantity := q) else s[i]
    decreases s
  {
    IdAt(s, i);
    if s[0].id != id {
      if i > 0 {
        SetQtyIs(side, s[1..], id, q, i - 1);
      } else if |s| > 1 {
        SetQtyIs(side, s[1..], id, q, 0);
      }
    } else if i > 0 {
      IdAt(s[1..], i - 1);
    }
  }

  lemma SetQtyMiddle(side: Side, x: seq<Order>, a: seq<Order>, o: Order, b: seq<Order>, y: seq<Order>, q: nat)
    requires SideOk(side, x + (a + [o] + b) + y)
    ensures SetQty(x + (a + [o] + b) + y, o.id, q) == x + (a + [o.(quantity := q)] + b) + y
  {
    var o' := o.(quantity := q);
    assert x + (a + [o] + b) + y == (x + a) + [o] + (b + y);
    IdOnce(side, x + a, o, b + y);
    SetQtyAt(x + a, o, b + y, q);
    assert x + (a + [o'] + b) + y == (x + a) + [o'] + (b + y);
  }

  /** Setting one order's quantity in its level is the flat update. */
  lemma SetQtyInLevel(side: Side, pre: seq<Level>, l: Level, post: seq<Level>,
                      a: seq<Order>, o: Order, b: seq<Order>, q: nat)
    requires LevelsOk(side, pre + [l] + post) && l.orders == a + [o] + b
    requires SideOk(side, Flatten(pre + [l] + post))
    ensures o.quantity <= l.total
    ensures var l' := Level(l.price, l.total - o.quantity + q, a + [o.(quantity := q)] + b);
            && LevelsOk(side, pre + [l'] + post)
            && Flatten(pre + [l'] + post) == SetQty(Flatten(pre + [l] + post), o.id, q)
  {
    hide SideOk, LevelsOk, SetQty, Flatten;
    LevelWithout(side, pre, l, post, a, o, b);
    QueueAround(a, o.(quantity := q), b, l.price);
    ReplaceQueue(side, pre, l, post, a + [o.(quantity := q)] + b, l.total - o.quantity + q);
    FlattenAround(pre, l, post);
    SetQtyMiddle(side, Flatten(pre), a, o, b, Flatten(post), q);
  }

  // ----- filling the top of a side ------------------------------------------

  /** The side after its first order gave up q units (the tail of
      execute_top_cross and of match_market). */
  function TakeFront(ls: seq<Level>, q: nat): seq<Level>
    requires ls != [] && ls[0].orders != [] && q <= ls[0].orders[0].quantity && q <= ls[0].total
  {
    Replaced([], ls[0].price, Consume(ls[0].orders, q), ls[0].total - q, ls[1..])
  }

  lemma TakeFrontOk(side: Side, ls: seq<Level>, q: nat)
    requires LevelsOk(side, ls) && ls != [] && q <= ls[0].orders[0].quantity
    ensures Flatten(ls) != [] && Flatten(ls)[0] == ls[0].orders[0] && q <= ls[0].total
    ensures LevelsOk(side, TakeFront(ls, q))
    ensures Flatten(TakeFront(ls, q)) == Consume(Flatten(ls), q)
  {
    var l, post := ls[0], ls[1..];
    var c := Consume(l.orders, q);
    assert ls == [] + [l] + post;
    assert AllAt(c, l.price) && SumQty(c) == l.total - q by {
      assert q < l.orders[0].quantity ==> c[1..] == l.orders[1..];
    }
    ReplaceQueue(side, [], l, post, c, l.total - q);
    ConsumeAppend(l.orders, Flatten(post), q);
    assert [] + c == c;
  }

  lemma ConsumeAppend(a: seq<Order>, b: seq<Order>, q: nat)
    requires a != [] && q <= a[0].quantity
    ensures Consume(a + b, q) == Consume(a, q) + b
  {
    assert (a + b)[1..] == a[1..] + b;
  }

  // ----- FIFO reduction of one level ----------------------------------------

  /** Take n units, first in first out, from the orders resting at `price`. */
  function ReduceAt(s: seq<Order>, price: int, n: nat): seq<Order> {
    if n == 0 || s == [] then s
    else if s[0].price != price then [s[0]] + ReduceAt(s[1..], price, n)
    else if s[0].quantity <= n then ReduceAt(s[1..], price, n - s[0].quantity)
    else [s[0].(quantity := s[0].quantity - n)] + s[1..]
  }

  function QtyAt(s: seq<Order>, price: int): nat {
    if s == [] then 0
    else (if s[0].price == price then s[0].quantity else 0) + QtyAt(s[1..], price)
  }

  lemma {:induction false} ReduceAtOk(side: Side, s: seq<Order>, price: int, n: nat)
    requires SideOk(side, s)
    ensures SideOk(side, ReduceAt(s, price, n))
    ensures Ids(ReduceAt(s, price, n)) <= Ids(s)
    ensures ReduceAt(s, price, n) != [] ==>
              s != [] && !Better(side, ReduceAt(s, price, n)[0].price, s[0].price)
  {
    if n == 0 || s == [] {
    } else if s[0].price != price {
      ReduceAtOk(side, s[1..], price, n);
      assert ReduceAt(s, price, n)[1..] == ReduceAt(s[1..], price, n);
    } else if s[0].quantity <= n {
      ReduceAtOk(side, s[1..], price, n - s[0].quantity);
    } else {
      assert ReduceAt(s, price, n)[1..] == s[1..];
    }
  }

  /** The orders resting at a price, in time order. */
  function AtPrice(s: seq<Order>, price: int): seq<Order> {
    if s == [] then [] else if s[0].price == price then [s[0]] + AtPrice(s[1..], price) else AtPrice(s[1..], price)
  }

  /** r is q with its oldest orders gone and its new front perhaps reduced. */
  ghost predicate FrontReduced(q: seq<Order>, r: seq<Order>) {
    && |r| <= |q|
    && (r != [] ==> var k := |q| - |r|;
          && r[1..] == q[k + 1..] && r[0] == q[k].(quantity := r[0].quantity) && r[0].quantity <= q[k].quantity)
  }

  lemma FrontReducedMore(o: Order, q: seq<Order>, r: seq<Order>)
    requires FrontReduced(q, r)
    ensures FrontReduced([o] + q, r)
  {
    if r != [] {
      var k := |q| - |r|;
      assert ([o] + q)[k + 2..] == q[k + 1..];
    }
  }

  /** A level holding at least n units gives up exactly n of them, oldest orders
      first; the other levels are not touched. */
  lemma {:induction false} ReduceAtExact(s: seq<Order>, price: int, n: nat)
    requires n <= QtyAt(s, price)
    ensures var r := ReduceAt(s, price, n);
            && QtyAt(r, price) == QtyAt(s, price) - n && FrontReduced(AtPrice(s, price), AtPrice(r, price))
            && (forall p :: p != price ==> AtPrice(r, p) == AtPrice(s, p))
  {
    var r := ReduceAt(s, price, n);
    if n == 0 || s == [] {
    } else if s[0].price != price {
      ReduceAtExact(s[1..], price, n);
      assert r[1..] == ReduceAt(s[1..], price, n);
    } else if s[0].quantity <= n {
      ReduceAtExact(s[1..], price, n - s[0].quantity);
      FrontReducedMore(s[0], AtPrice(s[1..], price), AtPrice(r, price));
    } else {
      assert r[1..] == s[1..];
    }
  }

  /** The queue at the level's price absorbs the whole reduction. */
  lemma {:induction false} ReduceAtQueue(q: seq<Order>, post: seq<Order>, price: int, n: nat)
    requires AllAt(q, price) && n <= SumQty(q)
    ensures ReduceAt(q + post, price, n) == ReduceAt(q, price, n) + post
    ensures AllAt(ReduceAt(q, price, n), price)
    ensures SumQty(ReduceAt(q, price, n)) == SumQty(q) - n
  {
    if n == 0 || q == [] {
      assert q == [] ==> q + post == post;
    } else if q[0].quantity <= n {
      assert (q + post)[1..] == q[1..] + post;
      ReduceAtQueue(q[1..], post, price, n - q[0].quantity);
    } else {
      ReduceFront(q, post, price, n);
    }
  }

  lemma ReduceFront(q: seq<Order>, post: seq<Order>, price: int, n: nat)
    requires q != [] && AllAt(q, price) && 0 < n < q[0].quantity
    ensures ReduceAt(q + post, price, n) == ReduceAt(q, price, n) + post
    ensures AllAt(ReduceAt(q, price, n), price) && SumQty(ReduceAt(q, price, n)) == SumQty(q) - n
  {
    HeadReduced(q, price, n);
    HeadReduced(q + post, price, n);
    hide ReduceAt, AllAt, SumQty;
    var front := q[0].(quantity := q[0].quantity - n);
    assert (q + post)[1..] == q[1..] + post;
    assert [front] + (q[1..] + post) == [front] + q[1..] + post;
    AllAtCons(q, front, price);
  }

  lemma HeadReduced(q: seq<Order>, price: int, n: nat)
    requires q != [] && q[0].price == price && 0 < n < q[0].quantity
    ensures ReduceAt(q, price, n) == [q[0].(quantity := q[0].quantity - n)] + q[1..]
  {
  }

  lemma AllAtCons(q: seq<Order>, front: Order, price: int)
    requires q != [] && AllAt(q, price) && front.price == price
    ensures AllAt([front] + q[1..], price)
    ensures SumQty([front] + q[1..]) == SumQty(q) - q[0].quantity + front.quantity
  {
    assert ([front] + q[1..])[1..] == q[1..];
  }

  lemma {:induction false} ReduceAtSkips(side: Side, pre: seq<Level>, s: seq<Order>, price: int, n: nat)
    requires LevelsOk(side, pre) && (pre != [] ==> Better(side, pre[|pre|-1].price, price))
    ensures ReduceAt(Flatten(pre) + s, price, n) == Flatten(pre) + ReduceAt(s, price, n)
  {
    if pre == [] {
      assert Flatten(pre) + s == s;
    } else {
      if |pre| > 1 {
        LevelsOrdered(side, pre, 0, |pre| - 1);
      }
      ReduceAtSkips(side, pre[1..], s, price, n);
      ReduceAtOther(pre[0].orders, Flatten(pre[1..]) + s, pre[0].price, price, n);
      assert Flatten(pre) + s == pre[0].orders + (Flatten(pre[1..]) + s);
    }
  }

  lemma {:induction false} ReduceAtOther(q: seq<Order>, s: seq<Order>, level: int, price: int, n: nat)
    requires AllAt(q, level) && level != price
    ensures ReduceAt(q + s, price, n) == q + ReduceAt(s, price, n)
  {
    if q == [] {
      assert q + s == s;
    } else if n > 0 {
      assert (q + s)[1..] == q[1..] + s;
      ReduceAtOther(q[1..], s, level, price, n);
      assert q + ReduceAt(s, price, n) == [q[0]] + (q[1..] + ReduceAt(s, price, n));
    }
  }

  lemma ReduceMiddle(side: Side, pre: seq<Level>, q: seq<Order>, y: seq<Order>, price: int, n: nat)
    requires LevelsOk(side, pre) && (pre != [] ==> Better(side, pre[|pre|-1].price, price))
    requires AllAt(q, price) && n <= SumQty(q)
    ensures ReduceAt(Flatten(pre) + q + y, price, n) == Flatten(pre) + ReduceAt(q, price, n) + y
  {
    hide LevelsOk, ReduceAt, Flatten;
    ReduceAtQueue(q, y, price, n);
    ReduceAtSkips(side, pre, q + y, price, n);
    assert Flatten(pre) + q + y == Flatten(pre) + (q + y);
  }

  /** Draining one level first in first out is the flat reduction. */
  lemma ReduceInLevel(side: Side, pre: seq<Level>, l: Level, post: seq<Level>, n: nat)
    requires LevelsOk(side, pre + [l] + post) && n <= l.total
    ensures var r := Replaced(pre, l.price, ReduceAt(l.orders, l.price, n), l.total - n, post);
            && LevelsOk(side, r)
            && Flatten(r) == ReduceAt(Flatten(pre + [l] + post), l.price, n)
  {
    LevelsAround(side, pre, l, post);
    ReduceAtQueue(l.orders, [], l.price, n);
    ReplaceQueue(side, pre, l, post, ReduceAt(l.orders, l.price, n), l.total - n);
    FlattenAround(pre, l, post);
    ReduceMiddle(side, pre, l.orders, Flatten(post), l.price, n);
  }

  /** The flat quantity at a price is the cached total of its level. */
  lemma QtyAtLevel(side: Side, ls: seq<Level>, i: nat, price: int)
    requires LevelsOk(side, ls) && i <= |ls|
    requires forall k :: 0 <= k < i ==> Better(side, ls[k].price, price)
    requires forall k :: i <= k < |ls| ==> !Better(side, ls[k].price, price)
    ensures QtyAt(Flatten(ls), price) == if i < |ls| && ls[i].price == price then ls[i].total else 0
  {
    if i > 0 {
      QtyAtLevel(side, ls[1..], i - 1, price);
      QtyAtOther(ls[0].orders, Flatten(ls[1..]), ls[0].price, price);
    } else if ls != [] {
      if |ls| > 1 {
        QtyAtLevel(side, ls[1..], 0, price);
      }
      if ls[0].price == price {
        QtyAtQueue(ls[0].orders, Flatten(ls[1..]), price);
      } else {
        QtyAtOther(ls[0].orders, Flatten(ls[1..]), ls[0].price, price);
      }
    }
  }

  lemma {:induction false} QtyAtOther(q: seq<Order>, s: seq<Order>, level: int, price: int)
    requires AllAt(q, level) && level != price
    ensures QtyAt(q + s, price) == QtyAt(s, price)
  {
    if q == [] {
      assert q + s == s;
    } else {
      assert (q + s)[1..] == q[1..] + s;
      QtyAtOther(q[1..], s, level, price);
    }
  }

  lemma {:induction false} QtyAtQueue(q: seq<Order>, s: seq<Order>, price: int)
    requires AllAt(q, price)
    ensures QtyAt(q + s, price) == SumQty(q) + QtyAt(s, price)
  {
    if q == [] {
      assert q + s == s;
    } else {
      assert (q + s)[1..] == q[1..] + s;
      QtyAtQueue(q[1..], s, price);
    }
  }

  // ----- the id index -------------------------------------------------------

  /** The entries of order_loc_ for one side. */
  function LocMap(side: Side, s: seq<Order>): map<nat, (Side, int)> {
    if s == [] then map[] else LocMap(side, s[1..])[s[0].id := (side, s[0].price)]
  }

  function BookLoc(f: Flat): map<nat, (Side, int)> {
    LocMap(Bid, f.bids) + LocMap(Ask, f.asks)
  }

  lemma {:induction false} LocKeys(side: Side, s: seq<Order>)
    ensures LocMap(side, s).Keys == Ids(s)
    ensures forall id :: id in LocMap(side, s) ==> LocMap(side, s)[id].0 == side
  {
    if s != [] {
      LocKeys(side, s[1..]);
    }
  }

  lemma {:induction false} LocInsert(side: Side, s: seq<Order>, o: Order)
    requires o.id !in Ids(s)
    ensures LocMap(side, Insert(side, s, o)) == LocMap(side, s)[o.id := (side, o.price)]
  {
    var r := Insert(side, s, o);
    if s == [] || Better(side, o.price, s[0].price) {
      assert r[1..] == s;
    } else {
      LocInsert(side, s[1..], o);
      assert r[1..] == Insert(side, s[1..], o);
    }
  }

  lemma {:induction false} LocKeep(side: Side, s: seq<Order>, dead: set<nat>)
    requires SideOk(side, s)
    ensures LocMap(side, Keep(s, dead)) == LocMap(side, s) - dead
  {
    if s != [] {
      LocKeep(side, s[1..], dead);
      LocKeys(side, s[1..]);
      if s[0].id !in dead {
        assert ([s[0]] + Keep(s[1..], dead))[1..] == Keep(s[1..], dead);
      }
    }
  }

  lemma LocConsume(side: Side, s: seq<Order>, q: nat)
    requires SideOk(side, s) && s != [] && q <= s[0].quantity
    ensures LocMap(side, Consume(s, q)) ==
            if q == s[0].quantity then LocMap(side, s) - {s[0].id} else LocMap(side, s)
  {
    LocKeys(side, s[1..]);
    if q < s[0].quantity {
      assert Consume(s, q)[1..] == s[1..];
    }
  }

  lemma {:induction false} LocReduce(side: Side, s: seq<Order>, price: int, n: nat)
    requires SideOk(side, s)
    ensures LocMap(side, ReduceAt(s, price, n)) == LocMap(side, s) - (Ids(s) - Ids(ReduceAt(s, price, n)))
  {
    ReduceAtOk(side, s, price, n);
    LocKeys(side, s);
    var r := ReduceAt(s, price, n);
    if n == 0 || s == [] {
    } else if s[0].price != price {
      LocReduce(side, s[1..], price, n);
      assert r[1..] == ReduceAt(s[1..], price, n);
    } else if s[0].quantity <= n {
      ReduceAtOk(side, s[1..], price, n - s[0].quantity);
      LocReduce(side, s[1..], price, n - s[0].quantity);
      LocKeys(side, s[1..]);
    } else {
      assert r[1..] == s[1..];
    }
  }

  lemma BookLocKeys(f: Flat)
    ensures BookLoc(f).Keys == AllIds(f)
  {
    LocKeys(Bid, f.bids);
    LocKeys(Ask, f.asks);
  }

  /** The index tracks resting, cancelling and filling exactly. */
  lemma LocRest(f: Flat, o: Order)
    requires o.id !in AllIds(f)
    ensures BookLoc(Rest(f, o)) == BookLoc(f)[o.id := (o.side, o.price)]
  {
    LocInsert(o.side, f.Of(o.side), o);
    LocKeys(Ask, f.asks);
  }

  lemma LocDrop(f: Flat, dead: set<nat>)
    requires BookOk(f)
    ensures BookLoc(Drop(f, dead)) == BookLoc(f) - dead
  {
    LocKeep(Bid, f.bids, dead);
    LocKeep(Ask, f.asks, dead);
  }

  /** Erasing ids of one side only from the index. */
  lemma LocOneSide(f: Flat, side: Side, s: seq<Order>, gone: set<nat>)
    requires Ids(f.bids) !! Ids(f.asks) && gone <= Ids(f.Of(side))
    requires LocMap(side, s) == LocMap(side, f.Of(side)) - gone
    ensures BookLoc(Flat.Make(side, s, f.Of(side.Opposite()))) == BookLoc(f) - gone
  {
    LocKeys(Bid, f.bids);
    LocKeys(Ask, f.asks);
  }

  lemma LocFilled(f: Flat, side: Side, q: nat)
    requires BookOk(f) && f.Of(side) != [] && q <= f.Of(side)[0].quantity
    ensures BookOk(Filled(f, side, q))
    ensures BookLoc(Filled(f, side, q)) ==
            if q == f.Of(side)[0].quantity then BookLoc(f) - {f.Of(side)[0].id} else BookLoc(f)
  {
    ConsumeOk(side, f.Of(side), q);
    LocConsume(side, f.Of(side), q);
    LocOneSide(f, side, Consume(f.Of(side), q),
               if q == f.Of(side)[0].quantity then {f.Of(side)[0].id} else {});
  }

  /** The index entry of an id leads to the level and the slot that hold it. */
  lemma {:induction false} Locate(side: Side, ls: seq<Level>, id: nat) returns (i: nat, k: nat)
    requires LevelsOk(side, ls) && SideOk(side, Flatten(ls)) && id in Ids(Flatten(ls))
    ensures i < |ls| && k < |ls[i].orders| && ls[i].orders[k].id == id
    ensures id in LocMap(side, Flatten(ls)) && LocMap(side, Flatten(ls))[id] == (side, ls[i].price)
  {
    LocKeys(side, Flatten(ls));
    i, k := LocateIn(side, ls, ls[0].orders, id);
  }

  /** Search with the first `tail` orders of the first level still unseen. */
  lemma {:induction false} LocateIn(side: Side, ls: seq<Level>, tail: seq<Order>, id: nat) returns (i: nat, k: nat)
    requires LevelsOk(side, ls) && ls != []
    requires |tail| <= |ls[0].orders| && tail == ls[0].orders[|ls[0].orders| - |tail|..]
    requires AllAt(tail, ls[0].price)
    requires SideOk(side, tail + Flatten(ls[1..])) && id in Ids(tail + Flatten(ls[1..]))
    ensures i < |ls| && k < |ls[i].orders| && ls[i].orders[k].id == id
    ensures id in LocMap(side, tail + Flatten(ls[1..]))
    ensures LocMap(side, tail + Flatten(ls[1..]))[id] == (side, ls[i].price)
    decreases |ls|, |tail|
  {
    var s := tail + Flatten(ls[1..]);
    LocKeys(side, s);
    if tail == [] {
      assert s == Flatten(ls[1..]);
      i, k := LocateIn(side, ls[1..], ls[1].orders, id);
      i := i + 1;
    } else {
      assert s[1..] == tail[1..] + Flatten(ls[1..]);
      if tail[0].id == id {
        i, k := 0, |ls[0].orders| - |tail|;
      } else {
        i, k := LocateIn(side, ls, tail[1..], id);
      }
    }
  }
}
