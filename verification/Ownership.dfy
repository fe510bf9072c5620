/** The ownership maps describe exactly the resting orders, in every state the
    matching thread can reach. */
module Ownership {
  import opened Orders
  import opened FlatBook
  import opened ThreadSpec

  ghost predicate Distinct(s: seq<Order>) {
    s == [] || (s[0].id !in Ids(s[1..]) && Distinct(s[1..]))
  }

  ghost predicate DistinctBook(f: Flat) {
    Distinct(f.bids) && Distinct(f.asks) && Ids(f.bids) !! Ids(f.asks)
  }

  lemma {:induction false} SideOkDistinct(side: Side, s: seq<Order>)
    requires SideOk(side, s)
    ensures Distinct(s)
  {
    if s != [] {
      SideOkDistinct(side, s[1..]);
    }
  }

  lemma BookOkDistinct(f: Flat)
    requires BookOk(f)
    ensures DistinctBook(f)
  {
    SideOkDistinct(Bid, f.bids);
    SideOkDistinct(Ask, f.asks);
  }

  // ----- agreement of the maps with a book ----------------------------------

  /** Each listed order has its quantity in remaining_of_ and its side in side_of_. */
  ghost predicate Lists(rem: map<nat, nat>, sides: map<nat, Side>, s: seq<Order>) {
    s == [] ||
    (&& s[0].id in rem && rem[s[0].id] == s[0].quantity
     && s[0].id in sides && sides[s[0].id] == s[0].side
     && Lists(rem, sides, s[1..]))
  }

  ghost function OwnedBy(owner: map<nat, nat>, session: nat): set<nat> {
    set id | id in owner && owner[id] == session
  }

  /** session_orders_ lists, per session, exactly the orders owner_of_ gives it. */
  ghost predicate SessionsOk(idx: Index) {
    && (forall k :: k in idx.sessionOrders ==> idx.sessionOrders[k] == OwnedBy(idx.owner, k))
    && (forall id :: id in idx.owner ==> idx.owner[id] in idx.sessionOrders)
  }

  ghost predicate KeyedAt(cfg: Config, idx: Index, k: nat, id: nat) {
    id in idx.owner && id in idx.clientOf && cfg.key(idx.owner[id], idx.clientOf[id]) == k
  }

  /** Every entry of by_client_id_ points at a resting order with that key. */
  ghost predicate KeysSound(cfg: Config, idx: Index) {
    forall k :: k in idx.byClient ==> KeyedAt(cfg, idx, k, idx.byClient[k])
  }

  /** The four per-order maps hold exactly the orders of f, with their data. */
  ghost predicate ExactPair(idx: Index, a: seq<Order>, b: seq<Order>) {
    && idx.owner.Keys == Ids(a) + Ids(b) && idx.clientOf.Keys == Ids(a) + Ids(b)
    && idx.remaining.Keys == Ids(a) + Ids(b) && idx.sideOf.Keys == Ids(a) + Ids(b)
    && Lists(idx.remaining, idx.sideOf, a) && Lists(idx.remaining, idx.sideOf, b)
  }

  ghost predicate Exact(idx: Index, f: Flat) {
    ExactPair(idx, f.bids, f.asks)
  }

  /** Which list is the bids does not matter to the maps. */
  lemma ExactMake(idx: Index, side: Side, own: seq<Order>, opp: seq<Order>)
    ensures Exact(idx, Flat.Make(side, own, opp)) <==> ExactPair(idx, own, opp)
  {
    hide Lists;
    assert Ids(own) + Ids(opp) == Ids(opp) + Ids(own);
  }

  /** The six maps describe exactly the orders of f. */
  ghost predicate Good(cfg: Config, idx: Index, f: Flat) {
    Exact(idx, f) && SessionsOk(idx) && KeysSound(cfg, idx)
  }

  lemma {:induction false} ListedSides(rem: map<nat, nat>, sides: map<nat, Side>, side: Side, s: seq<Order>, id: nat)
    requires Lists(rem, sides, s) && SideOk(side, s) && id in Ids(s)
    ensures id in sides && sides[id] == side
  {
    if s[0].id != id {
      ListedSides(rem, sides, side, s[1..], id);
    }
  }

  lemma {:induction false} ListsFrame(rem: map<nat, nat>, sides: map<nat, Side>, rem': map<nat, nat>,
                                      sides': map<nat, Side>, x: set<nat>, s: seq<Order>)
    requires Lists(rem, sides, s) && Ids(s) !! x
    requires forall id :: id in rem && id !in x ==> id in rem' && rem'[id] == rem[id]
    requires forall id :: id in sides && id !in x ==> id in sides' && sides'[id] == sides[id]
    ensures Lists(rem', sides', s)
  {
    if s != [] {
      ListsFrame(rem, sides, rem', sides', x, s[1..]);
    }
  }

  // ----- forgetting ---------------------------------------------------------

  lemma ForgetSessions(cfg: Config, idx: Index, id: nat)
    requires SessionsOk(idx)
    ensures Forget(cfg, idx, id).sessionOrders == ForgetAll(cfg, idx, {id}).sessionOrders
  {
    var a, b := Forget(cfg, idx, id), ForgetAll(cfg, idx, {id});
    forall k | k in idx.sessionOrders
      ensures a.sessionOrders[k] == b.sessionOrders[k]
    {
      assert id in idx.sessionOrders[k] <==> id in OwnedBy(idx.owner, k);
    }
  }

  /** Forgetting one order is forgetting a one-element set. */
  lemma ForgetIsForgetAll(cfg: Config, idx: Index, id: nat)
    requires SessionsOk(idx) && idx.owner.Keys == idx.clientOf.Keys
    ensures Forget(cfg, idx, id) == ForgetAll(cfg, idx, {id})
  {
    ForgetSessions(cfg, idx, id);
    if id in idx.owner {
      assert KeysOf(cfg, idx, {id}) == {cfg.key(idx.owner[id], idx.clientOf[id])};
    } else {
      assert KeysOf(cfg, idx, {id}) == {};
      assert idx.byClient - {} == idx.byClient;
    }
  }

  lemma ForgetAllSessions(cfg: Config, idx: Index, ids: set<nat>)
    requires SessionsOk(idx)
    ensures SessionsOk(ForgetAll(cfg, idx, ids))
  {
    var r := ForgetAll(cfg, idx, ids);
    forall k | k in r.sessionOrders
      ensures r.sessionOrders[k] == OwnedBy(r.owner, k)
    {
    }
  }

  lemma ForgetAllKeys(cfg: Config, idx: Index, ids: set<nat>)
    requires KeysSound(cfg, idx)
    ensures KeysSound(cfg, ForgetAll(cfg, idx, ids))
  {
    var r := ForgetAll(cfg, idx, ids);
    forall k | k in r.byClient
      ensures KeyedAt(cfg, r, k, r.byClient[k])
    {
      var id := idx.byClient[k];
      assert KeyedAt(cfg, idx, k, id);
      assert id in ids ==> k in KeysOf(cfg, idx, ids);
    }
  }

  /** Forgetting the orders that left the book leaves the maps exact. */
  lemma ForgetAllGood(cfg: Config, idx: Index, f: Flat, ids: set<nat>, g: Flat)
    requires Good(cfg, idx, f) && AllIds(g) == AllIds(f) - ids
    requires Lists(idx.remaining, idx.sideOf, g.bids) && Lists(idx.remaining, idx.sideOf, g.asks)
    ensures Good(cfg, ForgetAll(cfg, idx, ids), g)
  {
    var r := ForgetAll(cfg, idx, ids);
    ForgetAllSessions(cfg, idx, ids);
    ForgetAllKeys(cfg, idx, ids);
    ListsFrame(idx.remaining, idx.sideOf, r.remaining, r.sideOf, ids, g.bids);
    ListsFrame(idx.remaining, idx.sideOf, r.remaining, r.sideOf, ids, g.asks);
  }

  // ----- filling ------------------------------------------------------------

  lemma FilledIds(f: Flat, side: Side, q: nat)
    requires DistinctBook(f) && f.Of(side) != [] && q <= f.Of(side)[0].quantity
    ensures DistinctBook(Filled(f, side, q))
    ensures AllIds(Filled(f, side, q)) ==
            if q == f.Of(side)[0].quantity then AllIds(f) - {f.Of(side)[0].id} else AllIds(f)
  {
    var s := f.Of(side);
    if q < s[0].quantity {
      assert Consume(s, q)[1..] == s[1..];
    }
  }

  /** Setting the head's remaining quantity matches the partly filled book. */
  lemma PartFill(cfg: Config, idx: Index, f: Flat, side: Side, q: nat)
    requires Good(cfg, idx, f) && DistinctBook(f)
    requires f.Of(side) != [] && q < f.Of(side)[0].quantity
    ensures var o := f.Of(side)[0];
            Good(cfg, idx.(remaining := idx.remaining[o.id := o.quantity - q]), Filled(f, side, q))
  {
    var s, opp := f.Of(side), f.Of(side.Opposite());
    var r := idx.remaining[s[0].id := s[0].quantity - q];
    FilledIds(f, side, q);
    assert Consume(s, q)[1..] == s[1..];
    ListsFrame(idx.remaining, idx.sideOf, r, idx.sideOf, {s[0].id}, s[1..]);
    ListsFrame(idx.remaining, idx.sideOf, r, idx.sideOf, {s[0].id}, opp);
    KeysKept(cfg, idx, r);
    hide KeysSound, SessionsOk, DistinctBook;
  }

  lemma KeysKept(cfg: Config, idx: Index, r: map<nat, nat>)
    requires SessionsOk(idx) && KeysSound(cfg, idx)
    ensures SessionsOk(idx.(remaining := r)) && KeysSound(cfg, idx.(remaining := r))
  {
    var idx' := idx.(remaining := r);
    forall k | k in idx'.byClient
      ensures KeyedAt(cfg, idx', k, idx'.byClient[k])
    {
      assert KeyedAt(cfg, idx, k, idx.byClient[k]);
    }
  }

  /** Forgetting the exhausted head matches the book it left. */
  lemma FullFill(cfg: Config, idx: Index, f: Flat, side: Side, rem: nat)
    requires Good(cfg, idx, f) && DistinctBook(f) && f.Of(side) != []
    ensures var o := f.Of(side)[0];
            Good(cfg, Forget(cfg, idx.(remaining := idx.remaining[o.id := rem]), o.id),
                 Filled(f, side, o.quantity))
  {
    hide SessionsOk, KeysSound, ForgetAll;
    var o := f.Of(side)[0];
    var idx' := idx.(remaining := idx.remaining[o.id := rem]);
    FilledIds(f, side, o.quantity);
    ForgetIsForgetAll(cfg, idx, o.id);
    ForgetAllGood(cfg, idx, f, {o.id}, Filled(f, side, o.quantity));
    assert idx'.remaining - {o.id} == idx.remaining - {o.id};
    assert Forget(cfg, idx', o.id) == Forget(cfg, idx, o.id);
  }

  /** Routing a fill to the order at the head of a side keeps the maps exact for
      the filled book, and reports the quantity that order still holds. */
  lemma RouteHead(cfg: Config, idx: Index, f: Flat, side: Side, t: Trade)
    requires Good(cfg, idx, f) && DistinctBook(f)
    requires f.Of(side) != [] && t.quantity <= f.Of(side)[0].quantity
    ensures var o := f.Of(side)[0];
            && o.id in idx.owner && o.id in idx.clientOf
            && Good(cfg, RouteFill(cfg, idx, o.id, t).idx, Filled(f, side, t.quantity))
            && RouteFill(cfg, idx, o.id, t).events ==
               [Fill(idx.owner[o.id], idx.clientOf[o.id], o.id, t.price, t.quantity, o.quantity - t.quantity)]
  {
    var o := f.Of(side)[0];
    assert o.id in AllIds(f) && idx.remaining[o.id] == o.quantity;
    var idx' := idx.(remaining := idx.remaining[o.id := o.quantity - t.quantity]);
    if t.quantity == o.quantity {
      assert RouteFill(cfg, idx, o.id, t).idx == Forget(cfg, idx', o.id);
      FullFill(cfg, idx, f, side, 0);
    } else {
      assert RouteFill(cfg, idx, o.id, t).idx == idx';
      PartFill(cfg, idx, f, side, t.quantity);
    }
  }

  /** The fill record of order o in trade t. */
  ghost function FillOf(idx: Index, o: Order, t: Trade): Event
    requires o.id in idx.owner && o.id in idx.clientOf && t.quantity <= o.quantity
  {
    Fill(idx.owner[o.id], idx.clientOf[o.id], o.id, t.price, t.quantity, o.quantity - t.quantity)
  }

  ghost function BothFilled(f: Flat, q: nat): Flat
    requires f.bids != [] && f.asks != [] && q <= f.bids[0].quantity && q <= f.asks[0].quantity
  {
    Flat(Consume(f.bids, q), Consume(f.asks, q))
  }

  /** A trade between the two heads: maps stay exact, and it yields two fill
      records, buyer then seller, each reporting what that order still holds. */
  lemma RouteHeads(cfg: Config, idx: Index, f: Flat, t: Trade)
    requires Good(cfg, idx, f) && DistinctBook(f) && f.bids != [] && f.asks != []
    requires t.quantity <= f.bids[0].quantity && t.quantity <= f.asks[0].quantity
    requires t.buyer == f.bids[0].id && t.seller == f.asks[0].id
    ensures Good(cfg, RouteTrade(cfg, idx, t).idx, BothFilled(f, t.quantity))
    ensures DistinctBook(BothFilled(f, t.quantity))
    ensures t.buyer in idx.owner && t.buyer in idx.clientOf && t.seller in idx.owner && t.seller in idx.clientOf
    ensures RouteTrade(cfg, idx, t).events == [FillOf(idx, f.bids[0], t), FillOf(idx, f.asks[0], t)]
  {
    hide Good, DistinctBook;
    RouteHead(cfg, idx, f, Bid, t);
    FilledIds(f, Bid, t.quantity);
    var g := Filled(f, Bid, t.quantity);
    var b := RouteFill(cfg, idx, t.buyer, t);
    RouteHead(cfg, b.idx, g, Ask, t);
    FilledIds(g, Ask, t.quantity);
    assert t.seller in AllIds(f) && t.buyer != t.seller;
  }

  /** The book once the taker of a match has been dealt with: still at the head of
      its own queue if anything is left of it. */
  ghost function AfterTaker(t: Order, own: seq<Order>, m: Matching): Flat {
    Flat.Make(t.side, if m.left == 0 then own else [t.(quantity := m.left)] + own, m.opp)
  }

  ghost function WithTaker(t: Order, own: seq<Order>, opp: seq<Order>): Flat {
    Flat.Make(t.side, [t] + own, opp)
  }

  /** One trade of a greedy match. */
  lemma RouteTaker(cfg: Config, idx: Index, t: Order, own: seq<Order>, opp: seq<Order>)
    requires Good(cfg, idx, WithTaker(t, own, opp)) && DistinctBook(WithTaker(t, own, opp))
    requires opp != []
    ensures var q := Min(t.quantity, opp[0].quantity);
            var f := Flat.Make(t.side, if q == t.quantity then own else [t.(quantity := t.quantity - q)] + own,
                               Consume(opp, q));
            Good(cfg, RouteTrade(cfg, idx, TradeOf(t, opp[0], q)).idx, f) && DistinctBook(f)
  {
    hide Good, DistinctBook;
    var f := WithTaker(t, own, opp);
    var q := Min(t.quantity, opp[0].quantity);
    assert ([t] + own)[1..] == own;
    RouteHeads(cfg, idx, f, TradeOf(t, opp[0], q));
  }

  /** Publishing the trades of a greedy match leaves the maps exact for the
      matched book. */
  lemma {:induction false} PublishGreedy(cfg: Config, idx: Index, t: Order, own: seq<Order>, opp: seq<Order>)
    requires Good(cfg, idx, WithTaker(t, own, opp)) && DistinctBook(WithTaker(t, own, opp)) && t.quantity > 0
    ensures var m := Greedy(t, t.quantity, opp);
            && Good(cfg, PublishTrades(cfg, idx, m.trades).idx, AfterTaker(t, own, m))
            && DistinctBook(AfterTaker(t, own, m))
    decreases |opp|
  {
    hide Good, DistinctBook, RouteTrade;
    if opp == [] || !Reaches(t, opp[0]) {
      assert t.(quantity := t.quantity) == t;
    } else {
      var q := Min(t.quantity, opp[0].quantity);
      var tr := TradeOf(t, opp[0], q);
      RouteTaker(cfg, idx, t, own, opp);
      GreedyStep(t, t.quantity, opp);
      var g := Greedy(t, t.quantity - q, Consume(opp, q));
      assert ([tr] + g.trades)[1..] == g.trades;
      if q < t.quantity {
        var t' := t.(quantity := t.quantity - q);
        GreedySame(t, t', t'.quantity, opp[1..]);
        PublishGreedy(cfg, RouteTrade(cfg, idx, tr).idx, t', own, opp[1..]);
      }
    }
  }

  // ----- registering --------------------------------------------------------

  lemma {:induction false} ListsInsert(rem: map<nat, nat>, sides: map<nat, Side>, side: Side, s: seq<Order>, o: Order)
    requires Lists(rem, sides, s) && o.id in rem && rem[o.id] == o.quantity && o.id in sides && sides[o.id] == o.side
    ensures Lists(rem, sides, Insert(side, s, o))
  {
    var r := Insert(side, s, o);
    if s == [] || Better(side, o.price, s[0].price) {
      assert r[1..] == s;
    } else {
      ListsInsert(rem, sides, side, s[1..], o);
      assert r[1..] == Insert(side, s[1..], o);
    }
  }

  lemma RegisterSessions(cfg: Config, idx: Index, id: nat, c: Command)
    requires SessionsOk(idx) && id !in idx.owner
    ensures SessionsOk(Register(cfg, idx, id, c))
  {
    var r := Register(cfg, idx, id, c);
    forall k | k in r.sessionOrders
      ensures r.sessionOrders[k] == OwnedBy(r.owner, k)
    {
      assert Held(idx, k) == OwnedBy(idx.owner, k);
    }
  }

  lemma RegisterKeys(cfg: Config, idx: Index, id: nat, c: Command)
    requires KeysSound(cfg, idx) && id !in idx.owner
    ensures KeysSound(cfg, Register(cfg, idx, id, c))
  {
    var r := Register(cfg, idx, id, c);
    forall k | k in r.byClient
      ensures KeyedAt(cfg, r, k, r.byClient[k])
    {
      assert k in idx.byClient ==> KeyedAt(cfg, idx, k, idx.byClient[k]);
    }
  }

  lemma RegisterExact(cfg: Config, idx: Index, o: Order, own: seq<Order>, opp: seq<Order>, c: Command)
    requires ExactPair(idx, own, opp)
    requires o.id !in Ids(own) && o.id !in Ids(opp) && c.side == o.side && c.quantity == o.quantity
    ensures ExactPair(Register(cfg, idx, o.id, c), [o] + own, opp)
  {
    var r := Register(cfg, idx, o.id, c);
    ListsFrame(idx.remaining, idx.sideOf, r.remaining, r.sideOf, {o.id}, own);
    ListsFrame(idx.remaining, idx.sideOf, r.remaining, r.sideOf, {o.id}, opp);
    assert ([o] + own)[1..] == own;
  }

  lemma TakerDistinct(o: Order, own: seq<Order>, opp: seq<Order>)
    requires DistinctBook(Flat.Make(o.side, own, opp)) && o.id !in Ids(own) && o.id !in Ids(opp)
    ensures DistinctBook(WithTaker(o, own, opp))
  {
    assert ([o] + own)[1..] == own;
  }

  /** A fresh order at the head of its queue, registered. */
  lemma RegisterGood(cfg: Config, idx: Index, o: Order, own: seq<Order>, opp: seq<Order>, c: Command)
    requires Good(cfg, idx, Flat.Make(o.side, own, opp))
    requires o.id !in Ids(own) && o.id !in Ids(opp) && c.side == o.side && c.quantity == o.quantity
    ensures Good(cfg, Register(cfg, idx, o.id, c), WithTaker(o, own, opp))
  {
    hide SessionsOk, KeysSound, Exact, Lists, Register;
    ExactMake(idx, o.side, own, opp);
    RegisterSessions(cfg, idx, o.id, c);
    RegisterKeys(cfg, idx, o.id, c);
    RegisterExact(cfg, idx, o, own, opp, c);
    ExactMake(Register(cfg, idx, o.id, c), o.side, [o] + own, opp);
  }

  /** The maps do not care where in its queue an order stands. */
  lemma GoodInsert(cfg: Config, idx: Index, o: Order, own: seq<Order>, opp: seq<Order>)
    requires Good(cfg, idx, WithTaker(o, own, opp)) && o.id !in Ids(own)
    ensures Good(cfg, idx, Flat.Make(o.side, Insert(o.side, own, o), opp))
  {
    assert ([o] + own)[1..] == own;
    ListsInsert(idx.remaining, idx.sideOf, o.side, own, o);
    InsertIds(o.side, own, o);
  }

  lemma {:induction false} InsertIds(side: Side, s: seq<Order>, o: Order)
    ensures Ids(Insert(side, s, o)) == Ids(s) + {o.id}
  {
    var r := Insert(side, s, o);
    if s == [] || Better(side, o.price, s[0].price) {
      assert r[1..] == s;
    } else {
      InsertIds(side, s[1..], o);
      assert r[1..] == Insert(side, s[1..], o);
    }
  }

  lemma ForgetTakerExact(cfg: Config, idx: Index, t: Order, own: seq<Order>, opp: seq<Order>, head: seq<Order>)
    requires ExactPair(idx, head + own, opp) && (head == [] || head == [t])
    requires t.id !in Ids(own) && t.id !in Ids(opp)
    ensures ExactPair(ForgetAll(cfg, idx, {t.id}), own, opp)
  {
    var r := ForgetAll(cfg, idx, {t.id});
    if head == [] {
      assert head + own == own;
    } else {
      assert (head + own)[1..] == own;
    }
    ListsFrame(idx.remaining, idx.sideOf, r.remaining, r.sideOf, {t.id}, own);
    ListsFrame(idx.remaining, idx.sideOf, r.remaining, r.sideOf, {t.id}, opp);
  }

  /** A market order leaves the maps even when part of it went unfilled. */
  lemma ForgetTaker(cfg: Config, idx: Index, t: Order, own: seq<Order>, m: Matching)
    requires Good(cfg, idx, AfterTaker(t, own, m)) && t.id !in Ids(own) && t.id !in Ids(m.opp)
    ensures Good(cfg, Forget(cfg, idx, t.id), Flat.Make(t.side, own, m.opp))
  {
    hide SessionsOk, KeysSound, Forget, ForgetAll, Exact;
    var t' := t.(quantity := m.left);
    var head := if m.left == 0 then [] else [t'];
    assert [] + own == own;
    ExactMake(idx, t.side, head + own, m.opp);
    ForgetIsForgetAll(cfg, idx, t.id);
    ForgetAllSessions(cfg, idx, {t.id});
    ForgetAllKeys(cfg, idx, {t.id});
    ForgetTakerExact(cfg, idx, t', own, m.opp, head);
    ExactMake(ForgetAll(cfg, idx, {t.id}), t.side, own, m.opp);
    assert Good(cfg, ForgetAll(cfg, idx, {t.id}), Flat.Make(t.side, own, m.opp));
  }
}
