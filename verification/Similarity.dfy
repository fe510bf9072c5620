/** Logical timestamps never influence what the matching thread does: states
    that differ only in timestamps, clock and empty session entries stay so
    under every command, and produce the same events. */
module Similarity {
  import opened Orders
  import opened FlatBook
  import opened ThreadSpec
  import opened Ownership
  import opened Invariant

  ghost predicate SameOrder(a: Order, b: Order) {
    a.(timestamp := 0) == b.(timestamp := 0)
  }

  ghost predicate SameOrders(a: seq<Order>, b: seq<Order>)
    decreases |a|
  {
    if a == [] then b == [] else b != [] && SameOrder(a[0], b[0]) && SameOrders(a[1..], b[1..])
  }

  ghost predicate SameTrades(a: seq<Trade>, b: seq<Trade>)
    decreases |a|
  {
    if a == [] then b == []
    else b != [] && a[0].(timestamp := 0) == b[0].(timestamp := 0) && SameTrades(a[1..], b[1..])
  }

  ghost predicate SameBook(f: Flat, g: Flat) {
    SameOrders(f.bids, g.bids) && SameOrders(f.asks, g.asks)
  }

  /** The index without session_orders_, which owner_of_ determines. */
  ghost function Core(idx: Index): Index {
    idx.(sessionOrders := map[])
  }

  /** Equal but for timestamps, the clock and empty session entries. */
  ghost predicate Similar(a: State, b: State) {
    SameBook(a.book, b.book) && a.lastTrade == b.lastTrade && a.nextId == b.nextId && Core(a.idx) == Core(b.idx)
  }

  lemma {:induction false} SameIds(a: seq<Order>, b: seq<Order>)
    requires SameOrders(a, b)
    ensures Ids(a) == Ids(b) && |a| == |b|
    decreases |a|
  {
    if a != [] {
      SameIds(a[1..], b[1..]);
    }
  }

  lemma {:induction false} SameReflexive(s: seq<Order>)
    ensures SameOrders(s, s)
  {
    if s != [] {
      SameReflexive(s[1..]);
    }
  }

  lemma ConsOrders(x: Order, y: Order, a: seq<Order>, b: seq<Order>)
    requires SameOrder(x, y) && SameOrders(a, b)
    ensures SameOrders([x] + a, [y] + b)
  {
    assert ([x] + a)[1..] == a && ([y] + b)[1..] == b;
  }

  lemma {:induction false} InsertSimilar(side: Side, a: seq<Order>, b: seq<Order>, x: Order, y: Order)
    requires SameOrders(a, b) && SameOrder(x, y)
    ensures SameOrders(Insert(side, a, x), Insert(side, b, y))
    decreases |a|
  {
    if a == [] || Better(side, x.price, a[0].price) {
      ConsOrders(x, y, a, b);
    } else {
      InsertSimilar(side, a[1..], b[1..], x, y);
      ConsOrders(a[0], b[0], Insert(side, a[1..], x), Insert(side, b[1..], y));
    }
  }

  lemma {:induction false} KeepSimilar(a: seq<Order>, b: seq<Order>, dead: set<nat>)
    requires SameOrders(a, b)
    ensures SameOrders(Keep(a, dead), Keep(b, dead))
    decreases |a|
  {
    if a != [] {
      KeepSimilar(a[1..], b[1..], dead);
      ConsOrders(a[0], b[0], Keep(a[1..], dead), Keep(b[1..], dead));
    }
  }

  ghost predicate SameMatching(m: Matching, n: Matching) {
    SameTrades(m.trades, n.trades) && SameOrders(m.opp, n.opp) && m.left == n.left
  }

  lemma ConsTrades(x: Trade, y: Trade, a: seq<Trade>, b: seq<Trade>)
    requires x.(timestamp := 0) == y.(timestamp := 0) && SameTrades(a, b)
    ensures SameTrades([x] + a, [y] + b)
  {
    assert ([x] + a)[1..] == a && ([y] + b)[1..] == b;
  }

  lemma {:induction false} GreedySimilar(t: Order, u: Order, qty: nat, a: seq<Order>, b: seq<Order>)
    requires SameOrder(t, u) && SameOrders(a, b)
    ensures SameMatching(Greedy(t, qty, a), Greedy(u, qty, b))
    decreases |a|
  {
    if qty == 0 || a == [] || !Reaches(t, a[0]) {
    } else {
      var q := Min(qty, a[0].quantity);
      if q == a[0].quantity {
        GreedySimilar(t, u, qty - q, a[1..], b[1..]);
        ConsTrades(TradeOf(t, a[0], q), TradeOf(u, b[0], q),
                   Greedy(t, qty - q, a[1..]).trades, Greedy(u, qty - q, b[1..]).trades);
      } else {
        ConsTrades(TradeOf(t, a[0], q), TradeOf(u, b[0], q), [], []);
        ConsOrders(a[0].(quantity := a[0].quantity - q), b[0].(quantity := b[0].quantity - q), a[1..], b[1..]);
      }
    }
  }

  lemma ExecuteSimilar(f: Flat, g: Flat, o: Order, p: Order)
    requires SameBook(f, g) && SameOrder(o, p)
    ensures SameBook(Execute(f, o).book, Execute(g, p).book)
    ensures SameTrades(Execute(f, o).trades, Execute(g, p).trades)
  {
    hide SameOrders, SameTrades, Greedy, Insert;
    var own, opp := f.Of(o.side), f.Of(o.side.Opposite());
    var own', opp' := g.Of(o.side), g.Of(o.side.Opposite());
    GreedySimilar(o, p, o.quantity, opp, opp');
    var m, n := Greedy(o, o.quantity, opp), Greedy(p, p.quantity, opp');
    InsertSimilar(o.side, own, own', o.(quantity := m.left), p.(quantity := n.left));
  }

  lemma RouteSimilar(cfg: Config, i: Index, j: Index, id: nat, t: Trade, u: Trade)
    requires Core(i) == Core(j) && t.(timestamp := 0) == u.(timestamp := 0)
    ensures Core(RouteFill(cfg, i, id, t).idx) == Core(RouteFill(cfg, j, id, u).idx)
    ensures RouteFill(cfg, i, id, t).events == RouteFill(cfg, j, id, u).events
  {
    hide Forget;
    if id in i.owner {
      var before := if id in i.remaining then i.remaining[id] else 0;
      var rem := if before > t.quantity then before - t.quantity else 0;
      ForgetSimilar(cfg, i.(remaining := i.remaining[id := rem]), j.(remaining := j.remaining[id := rem]), id);
    }
  }

  lemma ForgetSimilar(cfg: Config, i: Index, j: Index, id: nat)
    requires Core(i) == Core(j)
    ensures Core(Forget(cfg, i, id)) == Core(Forget(cfg, j, id))
  {
    var a, b := Forget(cfg, i, id), Forget(cfg, j, id);
    assert i.owner == j.owner && i.clientOf == j.clientOf && i.byClient == j.byClient;
    assert a.byClient == b.byClient;
  }

  lemma {:induction false} PublishSimilar(cfg: Config, i: Index, j: Index, a: seq<Trade>, b: seq<Trade>)
    requires Core(i) == Core(j) && SameTrades(a, b)
    ensures Core(PublishTrades(cfg, i, a).idx) == Core(PublishTrades(cfg, j, b).idx)
    ensures PublishTrades(cfg, i, a).events == PublishTrades(cfg, j, b).events
    ensures LastPrice(0, a) == LastPrice(0, b) && (a == [] <==> b == [])
    decreases |a|
  {
    hide RouteFill, Core;
    if a != [] {
      RouteSimilar(cfg, i, j, a[0].buyer, a[0], b[0]);
      RouteSimilar(cfg, RouteFill(cfg, i, a[0].buyer, a[0]).idx, RouteFill(cfg, j, b[0].buyer, b[0]).idx,
                   a[0].seller, a[0], b[0]);
      PublishSimilar(cfg, RouteTrade(cfg, i, a[0]).idx, RouteTrade(cfg, j, b[0]).idx, a[1..], b[1..]);
      LastOfTail(a);
      LastOfTail(b);
    }
  }

  lemma LastOfTail(a: seq<Trade>)
    requires a != []
    ensures LastPrice(0, a) == if |a| == 1 then a[0].price else LastPrice(0, a[1..])
  {
  }

  lemma RiskSimilar(cfg: Config, a: State, b: State, c: Command)
    requires Similar(a, b)
    ensures CheckRisk(cfg, a, c) == CheckRisk(cfg, b, c)
  {
  }

  lemma NewSimilar(cfg: Config, a: State, b: State, c: Command)
    requires Similar(a, b)
    ensures Similar(ApplyNew(cfg, a, c).state, ApplyNew(cfg, b, c).state)
    ensures ApplyNew(cfg, a, c).events == ApplyNew(cfg, b, c).events
  {
    hide CheckRisk, SameOrders, SameTrades, Execute, PublishTrades;
    RiskSimilar(cfg, a, b, c);
    if CheckRisk(cfg, a, c) == NoReason {
      var o, p := OrderFor(a, c), OrderFor(b, c);
      ExecuteSimilar(a.book, b.book, o, p);
      var i, j := Register(cfg, a.idx, o.id, c), Register(cfg, b.idx, p.id, c);
      PublishSimilar(cfg, i, j, Execute(a.book, o).trades, Execute(b.book, p).trades);
    }
  }

  lemma DropSimilar(f: Flat, g: Flat, dead: set<nat>)
    requires SameBook(f, g)
    ensures SameBook(Drop(f, dead), Drop(g, dead)) && AllIds(f) == AllIds(g)
  {
    KeepSimilar(f.bids, g.bids, dead);
    KeepSimilar(f.asks, g.asks, dead);
    SameIds(f.bids, g.bids);
    SameIds(f.asks, g.asks);
  }

  lemma RemovedSimilar(cfg: Config, a: State, b: State, id: nat)
    requires Similar(a, b)
    ensures Similar(Removed(cfg, a, id), Removed(cfg, b, id))
  {
    hide SameBook;
    DropSimilar(a.book, b.book, {id});
  }

  lemma HeldSimilar(cfg: Config, a: State, b: State, session: nat)
    requires Similar(a, b) && Inv(cfg, a) && Inv(cfg, b)
    ensures Held(a.idx, session) == Held(b.idx, session)
  {
    hide SameBook, BookInv, Lists;
    assert Held(a.idx, session) == OwnedBy(a.idx.owner, session);
    assert Held(b.idx, session) == OwnedBy(b.idx.owner, session);
  }

  lemma CancelAllSimilar(cfg: Config, a: State, b: State, c: Command)
    requires Similar(a, b) && Inv(cfg, a) && Inv(cfg, b)
    ensures Similar(ApplyCancelAll(cfg, a, c).state, ApplyCancelAll(cfg, b, c).state)
  {
    hide Inv, SameBook;
    HeldSimilar(cfg, a, b, c.session);
    var ids := Held(a.idx, c.session);
    DropSimilar(a.book, b.book, ids);
    assert KeysOf(cfg, a.idx, ids) == KeysOf(cfg, b.idx, ids);
  }

  /** Similarity is a bisimulation: every command preserves it and answers alike. */
  lemma ApplySimilar(cfg: Config, a: State, b: State, c: Command)
    requires Similar(a, b) && Inv(cfg, a) && Inv(cfg, b)
    ensures Similar(Apply(cfg, a, c).state, Apply(cfg, b, c).state)
    ensures Apply(cfg, a, c).events == Apply(cfg, b, c).events
  {
    DropSimilar(a.book, b.book, {});
    hide Inv, SameBook, ApplyNew, Removed, AllIds, ApplyCancelAll;
    var id := FindOrder(cfg, a.idx, c.session, c.clientId);
    assert id == FindOrder(cfg, b.idx, c.session, c.clientId);
    match c.what
    case NewOrder => NewSimilar(cfg, a, b, c);
    case CancelOrder => RemovedSimilar(cfg, a, b, id);
    case ModifyOrder =>
      RemovedSimilar(cfg, a, b, id);
      var side := if id in a.idx.sideOf then a.idx.sideOf[id] else Bid;
      NewSimilar(cfg, Removed(cfg, a, id), Removed(cfg, b, id), Replacement(c, side));
    case CancelAll => CancelAllSimilar(cfg, a, b, c); CancelAllEvents(cfg, a, b, c);
    case SessionOpened =>
    case Subscribe =>
  }

  lemma CancelAllEvents(cfg: Config, a: State, b: State, c: Command)
    ensures ApplyCancelAll(cfg, a, c).events == ApplyCancelAll(cfg, b, c).events
  {
  }

  /** Whole runs from similar states stay similar. */
  lemma {:induction false} RunSimilar(cfg: Config, a: State, b: State, cs: seq<Command>)
    requires Similar(a, b) && Inv(cfg, a) && Inv(cfg, b)
    ensures Similar(Run(cfg, a, cs), Run(cfg, b, cs))
    decreases cs
  {
    hide Inv, Similar, Apply;
    if cs != [] {
      ApplySimilar(cfg, a, b, cs[0]);
      ApplyKeepsInv(cfg, a, cs[0]);
      ApplyKeepsInv(cfg, b, cs[0]);
      RunSimilar(cfg, Apply(cfg, a, cs[0]).state, Apply(cfg, b, cs[0]).state, cs[1..]);
    }
  }
}
