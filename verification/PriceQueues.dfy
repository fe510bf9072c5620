/** How the independent verifier (tools/wal_verify.cpp) lays out a book: maps of
    queues keyed by price, an id-to-location map, and a crossing loop that does
    not watch the incoming order.  All of it is related to the flat book. */
module PriceQueues {
  import opened Orders
  import opened FlatBook
  import opened Levels
  import opened Digests
  import opened ThreadSpec
  import opened Ownership
  import opened Invariant

  datatype VOrder = VOrder(id: nat, session: nat, clientId: nat, quantity: nat)

  type Names = map<nat, nat>
  type Queues = map<int, seq<VOrder>>

  // ----- a flat side as price-keyed queues ----------------------------------

  function Entry(owners: Names, clients: Names, o: Order): VOrder {
    VOrder(o.id, if o.id in owners then owners[o.id] else 0, if o.id in clients then clients[o.id] else 0, o.quantity)
  }

  function QueueAt(m: Queues, price: int): seq<VOrder> {
    if price in m then m[price] else []
  }

  /** The queues a flat side calls for: each price keeps arrival order. */
  function ToQueues(owners: Names, clients: Names, s: seq<Order>): Queues {
    if s == [] then map[]
    else Pushed(ToQueues(owners, clients, s[1..]), s[0].price, Entry(owners, clients, s[0]))
  }

  function Pushed(m: Queues, p: int, e: VOrder): Queues {
    m[p := [e] + QueueAt(m, p)]
  }

  function Appended(m: Queues, p: int, e: VOrder): Queues {
    m[p := QueueAt(m, p) + [e]]
  }

  lemma PushedAppended(m: Queues, p: int, e: VOrder, q: int, f: VOrder)
    ensures Appended(Pushed(m, p, e), q, f) == Pushed(Appended(m, q, f), p, e)
  {
    if p == q {
      assert [e] + QueueAt(m, p) + [f] == [e] + (QueueAt(m, p) + [f]);
    }
  }

  lemma PushedErased(m: Queues, p: int, e: VOrder, q: int, id: nat)
    requires e.id != id
    ensures Erased(Pushed(m, p, e), q, id) == Pushed(Erased(m, q, id), p, e)
  {
    if p == q {
      var l := [e] + QueueAt(m, p);
      assert l[1..] == QueueAt(m, p);
    }
  }

  lemma {:induction false} QueuesNonEmpty(owners: Names, clients: Names, s: seq<Order>)
    ensures forall p :: p in ToQueues(owners, clients, s) ==> ToQueues(owners, clients, s)[p] != []
  {
    if s != [] {
      QueuesNonEmpty(owners, clients, s[1..]);
    }
  }

  /** The best key of the map is the price of the first order. */
  lemma {:induction false} BestKey(owners: Names, clients: Names, side: Side, s: seq<Order>)
    requires SideOk(side, s) && s != []
    ensures s[0].price in ToQueues(owners, clients, s)
    ensures forall p :: p in ToQueues(owners, clients, s) ==> !Better(side, p, s[0].price)
  {
    if |s| > 1 {
      BestKey(owners, clients, side, s[1..]);
    }
  }

  /** Entries depend only on the names of the listed orders. */
  lemma {:induction false} QueuesFrame(o: Names, c: Names, o': Names, c': Names, s: seq<Order>)
    requires forall id :: id in Ids(s) ==>
               id in o && id in o' && o[id] == o'[id] && id in c && id in c' && c[id] == c'[id]
    ensures ToQueues(o, c, s) == ToQueues(o', c', s)
  {
    if s != [] {
      QueuesFrame(o, c, o', c', s[1..]);
    }
  }

  lemma {:induction false} QueuesInsert(owners: Names, clients: Names, side: Side, s: seq<Order>, o: Order)
    requires SideOk(side, s)
    ensures ToQueues(owners, clients, Insert(side, s, o)) ==
            Appended(ToQueues(owners, clients, s), o.price, Entry(owners, clients, o))
  {
    hide Entry;
    var m := ToQueues(owners, clients, s);
    var e := Entry(owners, clients, o);
    var r := Insert(side, s, o);
    if s == [] || Better(side, o.price, s[0].price) {
      assert r[1..] == s;
      if s != [] {
        BestKey(owners, clients, side, s);
      }
      assert QueueAt(m, o.price) == [];
      assert [e] + [] == [] + [e];
    } else {
      QueuesInsert(owners, clients, side, s[1..], o);
      assert r[1..] == Insert(side, s[1..], o);
      PushedAppended(ToQueues(owners, clients, s[1..]), s[0].price, Entry(owners, clients, s[0]), o.price, e);
    }
  }

  /** The map after the first queue gave up its head or part of it. */
  function PopBest(m: Queues, p: int, q: nat): Queues
    requires p in m && m[p] != [] && q <= m[p][0].quantity
  {
    if q < m[p][0].quantity then m[p := [m[p][0].(quantity := m[p][0].quantity - q)] + m[p][1..]]
    else if |m[p]| == 1 then m - {p}
    else m[p := m[p][1..]]
  }

  lemma QueuesConsume(owners: Names, clients: Names, s: seq<Order>, q: nat)
    requires s != [] && q <= s[0].quantity
    ensures var m := ToQueues(owners, clients, s); var p := s[0].price;
            && p in m && m[p] != [] && m[p][0] == Entry(owners, clients, s[0])
            && ToQueues(owners, clients, Consume(s, q)) == PopBest(m, p, q)
  {
    var m, t, p := ToQueues(owners, clients, s), ToQueues(owners, clients, s[1..]), s[0].price;
    var e := Entry(owners, clients, s[0]);
    QueuesNonEmpty(owners, clients, s[1..]);
    assert m[p][1..] == QueueAt(t, p);
    if q < s[0].quantity {
      assert Consume(s, q)[1..] == s[1..];
    } else if p in t {
      assert PopBest(m, p, q) == t;
    } else {
      assert PopBest(m, p, q) == t;
    }
  }

  function RemoveV(q: seq<VOrder>, id: nat): seq<VOrder> {
    if q == [] then [] else if q[0].id == id then q[1..] else [q[0]] + RemoveV(q[1..], id)
  }

  /** The map after one id left the queue at p; an empty queue leaves the map. */
  function Erased(m: Queues, p: int, id: nat): Queues {
    var q := RemoveV(QueueAt(m, p), id);
    if q == [] then m - {p} else m[p := q]
  }

  function PriceOf(s: seq<Order>, id: nat): int {
    if s == [] then 0 else if s[0].id == id then s[0].price else PriceOf(s[1..], id)
  }

  lemma {:induction false} QueuesErase(owners: Names, clients: Names, s: seq<Order>, id: nat)
    requires Distinct(s) && id in Ids(s)
    ensures ToQueues(owners, clients, Keep(s, {id})) == Erased(ToQueues(owners, clients, s), PriceOf(s, id), id)
  {
    var t := ToQueues(owners, clients, s[1..]);
    var p, e := PriceOf(s, id), Entry(owners, clients, s[0]);
    if s[0].id == id {
      QueuesNonEmpty(owners, clients, s[1..]);
      KeepNone(s[1..], {id});
      PoppedPushed(t, p, e);
    } else {
      QueuesErase(owners, clients, s[1..], id);
      assert ([s[0]] + Keep(s[1..], {id}))[1..] == Keep(s[1..], {id});
      PushedErased(t, s[0].price, e, p, id);
    }
  }

  lemma PoppedPushed(m: Queues, p: int, e: VOrder)
    requires forall p :: p in m ==> m[p] != []
    ensures Erased(Pushed(m, p, e), p, e.id) == m
  {
    assert ([e] + QueueAt(m, p))[1..] == QueueAt(m, p);
  }

  // ----- where an id is queued ----------------------------------------------

  predicate HasV(q: seq<VOrder>, id: nat) {
    q != [] && (q[0].id == id || HasV(q[1..], id))
  }

  lemma HasCons(e: VOrder, q: seq<VOrder>, id: nat)
    ensures HasV([e] + q, id) <==> e.id == id || HasV(q, id)
  {
    assert ([e] + q)[1..] == q;
  }

  /** A resting id is queued at its price, and nowhere if it does not rest. */
  lemma {:induction false} QueuedAt(owners: Names, clients: Names, s: seq<Order>, id: nat, p: int)
    requires Distinct(s)
    ensures HasV(QueueAt(ToQueues(owners, clients, s), p), id) <==> id in Ids(s) && p == PriceOf(s, id)
  {
    if s != [] {
      QueuedAt(owners, clients, s[1..], id, p);
      HasCons(Entry(owners, clients, s[0]), QueueAt(ToQueues(owners, clients, s[1..]), p), id);
    }
  }

  lemma {:induction false} PriceKeep(s: seq<Order>, dead: set<nat>, id: nat)
    requires id !in dead
    ensures PriceOf(Keep(s, dead), id) == PriceOf(s, id)
  {
    if s != [] {
      PriceKeep(s[1..], dead, id);
      if s[0].id !in dead {
        assert ([s[0]] + Keep(s[1..], dead))[1..] == Keep(s[1..], dead);
      }
    }
  }

  lemma {:induction false} PriceInsert(side: Side, s: seq<Order>, o: Order, id: nat)
    requires o.id !in Ids(s)
    ensures PriceOf(Insert(side, s, o), id) == if id == o.id then o.price else PriceOf(s, id)
  {
    var r := Insert(side, s, o);
    if s == [] || Better(side, o.price, s[0].price) {
      assert r[1..] == s;
    } else {
      PriceInsert(side, s[1..], o, id);
      assert r[1..] == Insert(side, s[1..], o);
    }
  }

  type Locations = map<nat, (int, bool)>

  /** loc_ knows every resting order of one side; it may hold more. */
  ghost predicate Located(loc: Locations, s: seq<Order>, isBid: bool) {
    forall id :: id in Ids(s) ==> id in loc && loc[id] == (PriceOf(s, id), isBid)
  }

  lemma LocatedInsert(loc: Locations, s: seq<Order>, isBid: bool, side: Side, o: Order)
    requires Located(loc, s, isBid) && o.id !in Ids(s)
    ensures Located(loc[o.id := (o.price, isBid)], Insert(side, s, o), isBid)
  {
    InsertIds(side, s, o);
    forall id | id in Ids(Insert(side, s, o))
      ensures PriceOf(Insert(side, s, o), id) == if id == o.id then o.price else PriceOf(s, id)
    {
      PriceInsert(side, s, o, id);
    }
  }

  lemma LocatedKeep(loc: Locations, s: seq<Order>, isBid: bool, side: Side, dead: set<nat>)
    requires Located(loc, s, isBid) && SideOk(side, s)
    ensures Located(loc - dead, Keep(s, dead), isBid) && Located(loc, Keep(s, dead), isBid)
  {
    KeepOk(side, s, dead);
    forall id | id in Ids(Keep(s, dead))
      ensures PriceOf(Keep(s, dead), id) == PriceOf(s, id)
    {
      PriceKeep(s, dead, id);
    }
  }

  lemma LocatedConsume(loc: Locations, s: seq<Order>, isBid: bool, side: Side, q: nat)
    requires Located(loc, s, isBid) && SideOk(side, s) && s != [] && q <= s[0].quantity
    ensures Located(loc, Consume(s, q), isBid)
    ensures q == s[0].quantity ==> Located(loc - {s[0].id}, Consume(s, q), isBid)
  {
    ConsumeOk(side, s, q);
    if q < s[0].quantity {
      assert Consume(s, q)[1..] == s[1..];
    }
  }

  lemma LocatedOther(loc: Locations, s: seq<Order>, isBid: bool, gone: set<nat>)
    requires Located(loc, s, isBid) && Ids(s) !! gone
    ensures Located(loc - gone, s, isBid)
  {
  }

  // ----- crossing until uncrossed -------------------------------------------

  /** The verifier's cross(): execute the top cross for as long as there is one. */
  function CrossAll(f: Flat): Crossing
    decreases |f.bids| + |f.asks|
  {
    if !IsCrossed(f) then Crossing(f, [], 0)
    else
      var r := CrossAll(TopCross(f));
      Crossing(r.book, [TopTrade(f)] + r.trades, 0)
  }

  lemma {:induction false} CrossLoopThenAll(f: Flat, id: nat, left: nat)
    ensures var c := CrossLoop(f, id, left);
            CrossAll(f) == Crossing(CrossAll(c.book).book, c.trades + CrossAll(c.book).trades, 0)
    decreases |f.bids| + |f.asks|
  {
    if left == 0 || !IsCrossed(f) {
      assert [] + CrossAll(f).trades == CrossAll(f).trades;
    } else {
      var t := TopTrade(f);
      var left' := if t.buyer == id || t.seller == id then left - Min(left, t.quantity) else left;
      CrossLoopThenAll(TopCross(f), id, left');
      var c := CrossLoop(TopCross(f), id, left');
      assert [t] + c.trades + CrossAll(c.book).trades == [t] + (c.trades + CrossAll(c.book).trades);
    }
  }

  /** Crossing without watching the incoming order ends in the same book. */
  lemma CrossAllIsGreedy(f: Flat, o: Order)
    requires BookOk(f) && !IsCrossed(f) && o.kind.Limit? && o.quantity > 0
    ensures CrossAll(Rest(f, o)) == Crossing(GreedyLimit(f, o).book, GreedyLimit(f, o).trades, 0)
  {
    hide CrossLoop, GreedyLimit, Rest, BookOk;
    CrossIsGreedy(f, o);
    CrossLoopThenAll(Rest(f, o), o.id, o.quantity);
    GreedyUncrossed(f, o);
    var c := GreedyLimit(f, o);
    assert c.trades + [] == c.trades;
  }
}
