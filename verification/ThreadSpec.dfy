/** What the matching thread does to its state for each command
    (include/ome/matching_thread.hpp), on the flat book and the six ownership
    maps.  Replay and live traffic share this one function. */
module ThreadSpec {
  import opened Orders
  import opened FlatBook

  datatype CommandType = SessionOpened | NewOrder | CancelOrder | ModifyOrder | Subscribe | CancelAll

  datatype Command = Command(what: CommandType, session: nat, clientId: nat, price: int, quantity: nat,
                             side: Side, market: bool)

  /** Only state-mutating commands are written to the log. */
  predicate IsLoggable(t: CommandType) {
    t.NewOrder? || t.CancelOrder? || t.ModifyOrder? || t.CancelAll?
  }

  /** Risk limits, and the packing of (session, client id) into one index key. */
  datatype Config = Config(maxQty: nat, tick: int, bandBp: int, key: (nat, nat) -> nat)

  /** owner_of_, client_id_of_, remaining_of_, side_of_, session_orders_, by_client_id_. */
  datatype Index = Index(owner: map<nat, nat>, clientOf: map<nat, nat>, remaining: map<nat, nat>,
                         sideOf: map<nat, Side>, sessionOrders: map<nat, set<nat>>, byClient: map<nat, nat>)

  datatype State = State(book: Flat, lastTrade: int, nextId: nat, clock: nat, idx: Index)

  datatype Event =
    | Ack(session: nat, clientId: nat, orderId: nat, closes: bool)
    | Reject(session: nat, clientId: nat, reason: RejectReason)
    | Fill(session: nat, clientId: nat, orderId: nat, price: int, quantity: nat, remaining: nat)
    | SessionRetired(session: nat)

  datatype Step = Step(state: State, events: seq<Event>, trades: seq<Trade>)

  /** A small configuration for worked examples: keys that never collide below
      client id 100, no tick, no price band. */
  const Demo := Config(10, 1, 0, (session, clientId) => 100 * session + clientId)

  const EmptyIndex := Index(map[], map[], map[], map[], map[], map[])
  const Init := State(Flat([], []), 0, 1, 0, EmptyIndex)

  // ----- risk gate ----------------------------------------------------------

  /** Integer division by two, truncating toward zero as C++ does. */
  function Half(x: int): int {
    if x >= 0 then x / 2 else -((-x) / 2)
  }

  /** Last trade if there has been one, else the mid of a two-sided book. */
  function Reference(s: State): Option<int> {
    if s.lastTrade > 0 then Some(s.lastTrade)
    else if s.book.bids != [] && s.book.asks != [] then Some(Half(s.book.bids[0].price + s.book.asks[0].price))
    else None
  }

  predicate OutsideBand(cfg: Config, price: int, reference: int) {
    var distance := if price > reference then price - reference else reference - price;
    distance * 10000 > reference * cfg.bandBp
  }

  function CheckRisk(cfg: Config, s: State, c: Command): RejectReason {
    if c.quantity == 0 then InvalidQty
    else if c.quantity > cfg.maxQty then RiskMaxOrderSize
    else if c.market then NoReason
    else if c.price <= 0 then InvalidPrice
    else if cfg.tick > 1 && c.price % cfg.tick != 0 then InvalidPrice
    else if cfg.bandBp > 0 then
      var r := Reference(s);
      if r.Some? && OutsideBand(cfg, c.price, r.value) then RiskPriceBand else NoReason
    else NoReason
  }

  // ----- ownership maps -----------------------------------------------------

  function FindOrder(cfg: Config, idx: Index, session: nat, clientId: nat): nat {
    var k := cfg.key(session, clientId);
    if k in idx.byClient then idx.byClient[k] else 0
  }

  function Held(idx: Index, session: nat): set<nat> {
    if session in idx.sessionOrders then idx.sessionOrders[session] else {}
  }

  function Register(cfg: Config, idx: Index, id: nat, c: Command): Index {
    Index(idx.owner[id := c.session], idx.clientOf[id := c.clientId], idx.remaining[id := c.quantity],
          idx.sideOf[id := c.side], idx.sessionOrders[c.session := Held(idx, c.session) + {id}],
          idx.byClient[cfg.key(c.session, c.clientId) := id])
  }

  function Forget(cfg: Config, idx: Index, id: nat): Index {
    var byClient := if id in idx.owner && id in idx.clientOf
                    then idx.byClient - {cfg.key(idx.owner[id], idx.clientOf[id])} else idx.byClient;
    var sessions := if id in idx.owner && idx.owner[id] in idx.sessionOrders
                    then idx.sessionOrders[idx.owner[id] := idx.sessionOrders[idx.owner[id]] - {id}]
                    else idx.sessionOrders;
    Index(idx.owner - {id}, idx.clientOf - {id}, idx.remaining - {id}, idx.sideOf - {id}, sessions, byClient)
  }

  datatype Published = Published(idx: Index, events: seq<Event>)

  /** Account one side of a trade to its order and tell its session. */
  function RouteFill(cfg: Config, idx: Index, id: nat, t: Trade): Published {
    if id !in idx.owner then Published(idx, [])
    else
      var before := if id in idx.remaining then idx.remaining[id] else 0;
      var rem := if before > t.quantity then before - t.quantity else 0;
      var clientId := if id in idx.clientOf then idx.clientOf[id] else 0;
      var idx' := idx.(remaining := idx.remaining[id := rem]);
      Published(if rem == 0 then Forget(cfg, idx', id) else idx',
                [Fill(idx.owner[id], clientId, id, t.price, t.quantity, rem)])
  }

  /** Buyer first, then seller. */
  function RouteTrade(cfg: Config, idx: Index, t: Trade): Published {
    var b := RouteFill(cfg, idx, t.buyer, t);
    var s := RouteFill(cfg, b.idx, t.seller, t);
    Published(s.idx, b.events + s.events)
  }

  function PublishTrades(cfg: Config, idx: Index, trades: seq<Trade>): Published
    decreases trades
  {
    if trades == [] then Published(idx, [])
    else
      var first := RouteTrade(cfg, idx, trades[0]);
      var rest := PublishTrades(cfg, first.idx, trades[1..]);
      Published(rest.idx, first.events + rest.events)
  }

  function LastPrice(before: int, trades: seq<Trade>): int {
    if trades == [] then before else trades[|trades| - 1].price
  }

  // ----- the commands -------------------------------------------------------

  function OrderFor(s: State, c: Command): Order {
    Order(s.nextId, c.price, c.quantity, c.side, if c.market then Market else Limit, s.clock + 1)
  }

  /** The book and the trades once the order has been matched. */
  function Execute(f: Flat, o: Order): Crossing {
    if o.kind.Market? then
      var m := Greedy(o, o.quantity, f.Of(o.side.Opposite()));
      Crossing(Flat.Make(o.side, f.Of(o.side), m.opp), m.trades, m.left)
    else GreedyLimit(f, o)
  }

  function ApplyNew(cfg: Config, s: State, c: Command): Step {
    var risk := CheckRisk(cfg, s, c);
    if risk != NoReason then Step(s, [Reject(c.session, c.clientId, risk)], [])
    else
      var o := OrderFor(s, c);
      var x := Execute(s.book, o);
      var p := PublishTrades(cfg, Register(cfg, s.idx, o.id, c), x.trades);
      var idx := if c.market then Forget(cfg, p.idx, o.id) else p.idx;
      Step(State(x.book, LastPrice(s.lastTrade, x.trades), s.nextId + 1, s.clock + 1, idx),
           [Ack(c.session, c.clientId, o.id, false)] + p.events, x.trades)
  }

  function Removed(cfg: Config, s: State, id: nat): State {
    s.(book := Drop(s.book, {id}), idx := Forget(cfg, s.idx, id))
  }

  function ApplyCancel(cfg: Config, s: State, c: Command): Step {
    var id := FindOrder(cfg, s.idx, c.session, c.clientId);
    if id == 0 || id !in AllIds(s.book) then Step(s, [Reject(c.session, c.clientId, UnknownOrder)], [])
    else Step(Removed(cfg, s, id), [Ack(c.session, c.clientId, id, true)], [])
  }

  /** The command a modify turns into: same fields, the old order's side, a limit. */
  function Replacement(c: Command, side: Side): Command {
    c.(what := NewOrder, market := false, side := side)
  }

  /** Cancel and replace as one unit; the order keeps its side and loses its place. */
  function ApplyModify(cfg: Config, s: State, c: Command): Step {
    var id := FindOrder(cfg, s.idx, c.session, c.clientId);
    if id == 0 || id !in AllIds(s.book) then Step(s, [Reject(c.session, c.clientId, UnknownOrder)], [])
    else
      var side := if id in s.idx.sideOf then s.idx.sideOf[id] else Bid;
      ApplyNew(cfg, Removed(cfg, s, id), Replacement(c, side))
  }

  /** The index keys of a set of orders. */
  function KeysOf(cfg: Config, idx: Index, ids: set<nat>): set<nat> {
    set id | id in ids && id in idx.owner && id in idx.clientOf :: cfg.key(idx.owner[id], idx.clientOf[id])
  }

  /** Forgetting a whole set of orders, in closed form. */
  function ForgetAll(cfg: Config, idx: Index, ids: set<nat>): Index {
    Index(idx.owner - ids, idx.clientOf - ids, idx.remaining - ids, idx.sideOf - ids,
          map k | k in idx.sessionOrders :: idx.sessionOrders[k] - ids,
          idx.byClient - KeysOf(cfg, idx, ids))
  }

  function ApplyCancelAll(cfg: Config, s: State, c: Command): Step {
    var ids := Held(s.idx, c.session);
    var idx := ForgetAll(cfg, s.idx, ids);
    Step(s.(book := Drop(s.book, ids), idx := idx.(sessionOrders := idx.sessionOrders - {c.session})),
         [SessionRetired(c.session)], [])
  }

  function Apply(cfg: Config, s: State, c: Command): Step {
    match c.what
    case SessionOpened => Step(s, [], [])
    case Subscribe => Step(s, [Ack(c.session, 0, 0, false)], [])
    case NewOrder => ApplyNew(cfg, s, c)
    case CancelOrder => ApplyCancel(cfg, s, c)
    case ModifyOrder => ApplyModify(cfg, s, c)
    case CancelAll => ApplyCancelAll(cfg, s, c)
  }

  /** The fold of a command stream. */
  function Run(cfg: Config, s: State, cs: seq<Command>): State
    decreases cs
  {
    if cs == [] then s else Run(cfg, Apply(cfg, s, cs[0]).state, cs[1..])
  }

  lemma {:induction false} RunAppend(cfg: Config, s: State, a: seq<Command>, b: seq<Command>)
    ensures Run(cfg, s, a + b) == Run(cfg, Run(cfg, s, a), b)
    decreases a
  {
    if a == [] {
      assert a + b == b;
    } else {
      assert (a + b)[1..] == a[1..] + b;
      RunAppend(cfg, Apply(cfg, s, a[0]).state, a[1..], b);
    }
  }
}
