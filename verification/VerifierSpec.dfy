/** What the independent verifier (tools/wal_verify.cpp) makes of each command,
    and when that is what the matching thread makes of it. */
module VerifierSpec {
  import opened Orders
  import opened FlatBook
  import opened ThreadSpec
  import opened Ownership
  import opened Invariant
  import opened Digests
  import opened PriceQueues

  /** The verifier's state.  `known` is its location map, which may outlive the
      order; timestamps are carried only so that books can be compared. */
  datatype View = View(book: Flat, lastTrade: int, nextId: nat, clock: nat,
                       owners: Names, clients: Names, known: map<nat, Side>)

  const Blank := View(Flat([], []), 0, 1, 0, map[], map[], map[])

  function AsState(v: View): State {
    State(v.book, v.lastTrade, v.nextId, v.clock, EmptyIndex)
  }

  // ----- lookup by client id ------------------------------------------------

  ghost predicate IsLeast(s: set<nat>, x: nat) {
    x in s && forall y :: y in s ==> x <= y
  }

  lemma {:induction false} LeastExists(s: set<nat>)
    requires s != {}
    ensures exists x :: IsLeast(s, x)
    decreases |s|
  {
    var y :| y in s;
    if s == {y} {
      assert IsLeast(s, y);
    } else {
      LeastExists(s - {y});
      var x: nat :| IsLeast(s - {y}, x);
      var m := if x < y then x else y;
      forall z | z in s
        ensures m <= z
      {
        assert z == y || z in s - {y};
      }
      assert IsLeast(s, m);
    }
  }

  /** Every id the maps still tie to this client id, resting or not. */
  function Matches(v: View, session: nat, clientId: nat): set<nat> {
    set id | id in v.known && id in v.owners && v.owners[id] == session && id in v.clients && v.clients[id] == clientId
  }

  /** The first such id in id order, 0 if there is none. */
  ghost function Lookup(v: View, session: nat, clientId: nat): (r: nat)
    ensures var ids := Matches(v, session, clientId); if ids == {} then r == 0 else IsLeast(ids, r)
  {
    var ids := Matches(v, session, clientId);
    if ids == {} then 0
    else
      LeastExists(ids);
      var x: nat :| IsLeast(ids, x);
      x
  }

  // ----- the commands -------------------------------------------------------

  function VNew(cfg: Config, v: View, c: Command): View {
    if CheckRisk(cfg, AsState(v), c) != NoReason then v
    else
      var o := OrderFor(AsState(v), c);
      var w := v.(nextId := v.nextId + 1, clock := v.clock + 1);
      if c.market then
        var x := Execute(v.book, o);
        w.(book := x.book, lastTrade := LastPrice(v.lastTrade, x.trades))
      else
        var f := Rest(v.book, o);
        var x := CrossAll(f);
        w.(book := x.book, lastTrade := LastPrice(v.lastTrade, x.trades),
           owners := v.owners[o.id := c.session], clients := v.clients[o.id := c.clientId],
           known := v.known[o.id := c.side] - (AllIds(f) - AllIds(x.book)))
  }

  function VDrop(v: View, ids: set<nat>): View {
    v.(book := Drop(v.book, ids), known := v.known - ids)
  }

  function VCancel(v: View, id: nat): View {
    if id in AllIds(v.book) then VDrop(v, {id}) else v
  }

  /** Resting orders whose entry carries this session. */
  function RestingOf(v: View, session: nat): set<nat> {
    set id | id in AllIds(v.book) && id in v.owners && v.owners[id] == session
  }

  ghost function VApply(cfg: Config, v: View, c: Command): View {
    match c.what
    case NewOrder => VNew(cfg, v, c)
    case CancelOrder =>
      var id := Lookup(v, c.session, c.clientId);
      if id == 0 then v else VCancel(v, id)
    case ModifyOrder =>
      var id := Lookup(v, c.session, c.clientId);
      if id == 0 || id !in v.known then v else VNew(cfg, VCancel(v, id), Replacement(c, v.known[id]))
    case CancelAll => VDrop(v, RestingOf(v, c.session))
    case SessionOpened => v
    case Subscribe => v
  }

  ghost function VRun(cfg: Config, v: View, cs: seq<Command>): View
    decreases cs
  {
    if cs == [] then v else VRun(cfg, VApply(cfg, v, cs[0]), cs[1..])
  }

  // ----- what the verifier keeps --------------------------------------------

  ghost predicate SidesKnown(known: map<nat, Side>, f: Flat) {
    && (forall id :: id in Ids(f.bids) ==> id in known && known[id] == Bid)
    && (forall id :: id in Ids(f.asks) ==> id in known && known[id] == Ask)
  }

  ghost predicate NamesBelow(known: map<nat, Side>, owners: Names, n: nat) {
    forall id :: id in known || id in owners ==> 0 < id < n
  }

  ghost predicate VOk(v: View) {
    && BookInv(v.book, v.nextId) && SidesKnown(v.known, v.book)
    && AllIds(v.book) <= v.owners.Keys && AllIds(v.book) <= v.clients.Keys
    && NamesBelow(v.known, v.owners, v.nextId)
  }

  lemma BlankOk()
    ensures VOk(Blank)
  {
  }

  /** The crossing loop of a resting limit order is the engine's execution. */
  lemma CrossIsExecute(v: View, o: Order)
    requires BookInv(v.book, v.nextId) && o.kind.Limit? && o.quantity > 0
    ensures CrossAll(Rest(v.book, o)).book == Execute(v.book, o).book
    ensures CrossAll(Rest(v.book, o)).trades == Execute(v.book, o).trades
  {
    CrossAllIsGreedy(v.book, o);
  }

  lemma RestSides(f: Flat, o: Order)
    ensures Ids(Rest(f, o).Of(o.side)) == Ids(f.Of(o.side)) + {o.id}
    ensures Rest(f, o).Of(o.side.Opposite()) == f.Of(o.side.Opposite())
  {
    InsertIds(o.side, f.Of(o.side), o);
  }

  /** Crossing only ever takes ids away, each from its own side. */
  lemma {:induction false} CrossAllIds(f: Flat)
    requires BookOk(f)
    ensures var g := CrossAll(f).book; BookOk(g) && Ids(g.bids) <= Ids(f.bids) && Ids(g.asks) <= Ids(f.asks)
    decreases |f.bids| + |f.asks|
  {
    if IsCrossed(f) {
      TopCrossOk(f);
      ConsumeOk(Bid, f.bids, TopQty(f));
      ConsumeOk(Ask, f.asks, TopQty(f));
      CrossAllIds(TopCross(f));
    }
  }

  lemma MarketIds(f: Flat, o: Order)
    requires BookOk(f) && o.kind.Market?
    ensures var g := Execute(f, o).book; Ids(g.bids) <= Ids(f.bids) && Ids(g.asks) <= Ids(f.asks)
  {
    GreedyOk(o, o.quantity, f.Of(o.side.Opposite()));
  }

  lemma MarketSides(f: Flat, o: Order, known: map<nat, Side>)
    requires BookOk(f) && o.kind.Market? && SidesKnown(known, f)
    ensures SidesKnown(known, Execute(f, o).book) && AllIds(Execute(f, o).book) <= AllIds(f)
  {
    hide Execute, BookOk;
    MarketIds(f, o);
  }

  lemma CrossSides(f: Flat, o: Order, known: map<nat, Side>)
    requires BookOk(f) && o.kind.Limit? && o.id !in AllIds(f) && SidesKnown(known, f)
    ensures var g := Rest(f, o); var h := CrossAll(g).book;
            && SidesKnown(known[o.id := o.side] - (AllIds(g) - AllIds(h)), h)
            && AllIds(h) <= AllIds(f) + {o.id}
  {
    hide CrossAll, BookOk, Rest;
    RestOk(f, o);
    RestSides(f, o);
    CrossAllIds(Rest(f, o));
  }

  lemma VMarketOk(cfg: Config, v: View, c: Command)
    requires VOk(v) && CheckRisk(cfg, AsState(v), c) == NoReason && c.market
    ensures VOk(VNew(cfg, v, c))
  {
    hide BookOk, BookPositive, Execute, SidesKnown, CheckRisk, IsCrossed;
    var o := OrderFor(AsState(v), c);
    ExecuteMarketOk(v.book, o);
    MarketSides(v.book, o, v.known);
  }

  /** Naming one more order covers what rests afterwards. */
  lemma NamesCover(v: View, id: nat, c: Command, rests: set<nat>, gone: set<nat>)
    requires VOk(v) && id == v.nextId && rests <= AllIds(v.book) + {id}
    ensures rests <= v.owners[id := c.session].Keys && rests <= v.clients[id := c.clientId].Keys
    ensures NamesBelow(v.known[id := c.side] - gone, v.owners[id := c.session], id + 1)
  {
    hide BookOk, BookPositive, IsCrossed, SidesKnown;
  }

  lemma VLimitOk(cfg: Config, v: View, c: Command)
    requires VOk(v) && CheckRisk(cfg, AsState(v), c) == NoReason && !c.market
    ensures VOk(VNew(cfg, v, c))
  {
    assert c.quantity > 0;
    var o := OrderFor(AsState(v), c);
    assert BookOk(v.book) && o.id !in AllIds(v.book);
    ExecuteLimitOk(v.book, o);
    hide Execute, Rest, CrossAll, SidesKnown, CheckRisk, AllIds, BookInv;
    CrossIsExecute(v, o);
    CrossSides(v.book, o, v.known);
    var g := Rest(v.book, o);
    NamesCover(v, o.id, c, AllIds(CrossAll(g).book), AllIds(g) - AllIds(CrossAll(g).book));
  }

  lemma VNewOk(cfg: Config, v: View, c: Command)
    requires VOk(v)
    ensures VOk(VNew(cfg, v, c))
  {
    hide VOk, CheckRisk;
    if CheckRisk(cfg, AsState(v), c) == NoReason {
      if c.market {
        VMarketOk(cfg, v, c);
      } else {
        VLimitOk(cfg, v, c);
      }
    }
  }

  lemma VDropOk(v: View, ids: set<nat>)
    requires VOk(v)
    ensures VOk(VDrop(v, ids))
  {
    DropOk(v.book, ids);
    KeepOk(Bid, v.book.bids, ids);
    KeepOk(Ask, v.book.asks, ids);
  }

  lemma VApplyOk(cfg: Config, v: View, c: Command)
    requires VOk(v)
    ensures VOk(VApply(cfg, v, c))
  {
    hide VOk, VNew, VDrop;
    match c.what
    case NewOrder => VNewOk(cfg, v, c);
    case CancelOrder => VDropOk(v, {Lookup(v, c.session, c.clientId)});
    case ModifyOrder =>
      var id := Lookup(v, c.session, c.clientId);
      VDropOk(v, {id});
      if id in v.known {
        VNewOk(cfg, VCancel(v, id), Replacement(c, v.known[id]));
      }
    case CancelAll => VDropOk(v, RestingOf(v, c.session));
    case SessionOpened =>
    case Subscribe =>
  }

  // ----- agreement with the matching thread ---------------------------------

  /** Same book, same last trade, same next id; the verifier's name maps say of
      every resting order what the ownership maps say. */
  ghost predicate Agree(s: State, v: View) {
    && v.book == s.book && v.lastTrade == s.lastTrade && v.nextId == s.nextId && v.clock == s.clock
    && SubMap(s.idx.owner, v.owners) && SubMap(s.idx.clientOf, v.clients)
  }

  ghost predicate SubMap(a: Names, b: Names) {
    forall id :: id in a ==> id in b && b[id] == a[id]
  }

  lemma ForgetShrinks(cfg: Config, idx: Index, id: nat)
    ensures SubMap(Forget(cfg, idx, id).owner, idx.owner) && SubMap(Forget(cfg, idx, id).clientOf, idx.clientOf)
  {
  }

  lemma RouteShrinks(cfg: Config, idx: Index, id: nat, t: Trade)
    ensures var r := RouteFill(cfg, idx, id, t).idx; SubMap(r.owner, idx.owner) && SubMap(r.clientOf, idx.clientOf)
  {
    hide Forget;
    if id in idx.owner {
      var before := if id in idx.remaining then idx.remaining[id] else 0;
      var rem := if before > t.quantity then before - t.quantity else 0;
      ForgetShrinks(cfg, idx.(remaining := idx.remaining[id := rem]), id);
    }
  }

  /** Publishing trades renames nobody. */
  lemma {:induction false} PublishShrinks(cfg: Config, idx: Index, trades: seq<Trade>)
    ensures var r := PublishTrades(cfg, idx, trades).idx; SubMap(r.owner, idx.owner) && SubMap(r.clientOf, idx.clientOf)
    decreases trades
  {
    if trades != [] {
      var t := trades[0];
      var a := RouteFill(cfg, idx, t.buyer, t).idx;
      var b := RouteFill(cfg, a, t.seller, t).idx;
      hide RouteFill;
      RouteShrinks(cfg, idx, t.buyer, t);
      RouteShrinks(cfg, a, t.seller, t);
      PublishShrinks(cfg, b, trades[1..]);
    }
  }

  lemma NewNames(cfg: Config, s: State, c: Command)
    requires CheckRisk(cfg, s, c) == NoReason
    ensures var r := ApplyNew(cfg, s, c).state.idx;
            && SubMap(r.owner, s.idx.owner[s.nextId := c.session])
            && SubMap(r.clientOf, s.idx.clientOf[s.nextId := c.clientId])
            && (c.market ==> s.nextId !in r.owner && s.nextId !in r.clientOf)
  {
    hide PublishTrades, CheckRisk, Execute;
    var o := OrderFor(s, c);
    var idx := Register(cfg, s.idx, o.id, c);
    PublishShrinks(cfg, idx, Execute(s.book, o).trades);
    ForgetShrinks(cfg, PublishTrades(cfg, idx, Execute(s.book, o).trades).idx, o.id);
  }

  lemma SameRisk(cfg: Config, s: State, v: View, c: Command)
    requires Agree(s, v)
    ensures CheckRisk(cfg, AsState(v), c) == CheckRisk(cfg, s, c) && OrderFor(AsState(v), c) == OrderFor(s, c)
  {
  }

  lemma NewAgrees(cfg: Config, s: State, v: View, c: Command)
    requires BookInv(s.book, s.nextId) && Agree(s, v)
    ensures Agree(ApplyNew(cfg, s, c).state, VNew(cfg, v, c))
  {
    assert CheckRisk(cfg, s, c) == NoReason ==> c.quantity > 0;
    hide CheckRisk, Execute, CrossAll, Rest, BookInv, PublishTrades, Register, Forget;
    SameRisk(cfg, s, v, c);
    if CheckRisk(cfg, s, c) == NoReason {
      NewNames(cfg, s, c);
      if !c.market {
        CrossIsExecute(v, OrderFor(s, c));
      }
    }
  }

  lemma CancelAllAgrees(cfg: Config, s: State, v: View, c: Command)
    requires Inv(cfg, s) && Agree(s, v)
    ensures Agree(ApplyCancelAll(cfg, s, c).state, VDrop(v, RestingOf(v, c.session)))
  {
    hide BookInv, Lists, Drop, KeysSound;
    assert Held(s.idx, c.session) == RestingOf(v, c.session);
  }

  /** Forgetting an order takes names away only. */
  lemma RemovedAgrees(cfg: Config, s: State, v: View, id: nat)
    requires Agree(s, v) && id in AllIds(s.book)
    ensures Agree(Removed(cfg, s, id), VCancel(v, id))
  {
    hide Forget, Drop;
    ForgetShrinks(cfg, s.idx, id);
  }

  lemma SameSide(cfg: Config, s: State, v: View, id: nat)
    requires Inv(cfg, s) && VOk(v) && Agree(s, v) && id in AllIds(s.book)
    ensures id in v.known && id in s.idx.sideOf && v.known[id] == s.idx.sideOf[id]
  {
    hide KeysSound, SessionsOk, BookPositive;
    if id in Ids(s.book.bids) {
      ListedSides(s.idx.remaining, s.idx.sideOf, Bid, s.book.bids, id);
    } else {
      ListedSides(s.idx.remaining, s.idx.sideOf, Ask, s.book.asks, id);
    }
  }

  predicate LooksUp(c: Command) {
    c.what.CancelOrder? || c.what.ModifyOrder?
  }

  lemma FoundRests(cfg: Config, s: State, session: nat, clientId: nat)
    requires Inv(cfg, s)
    ensures var id := FindOrder(cfg, s.idx, session, clientId); id == 0 || id in AllIds(s.book)
  {
    hide BookInv, Lists;
    var k := cfg.key(session, clientId);
    if k in s.idx.byClient {
      assert KeyedAt(cfg, s.idx, k, s.idx.byClient[k]);
    }
  }

  /** One command, when the two lookups name the same order. */
  lemma ApplyAgrees(cfg: Config, s: State, v: View, c: Command)
    requires Inv(cfg, s) && VOk(v) && Agree(s, v)
    requires LooksUp(c) ==> Lookup(v, c.session, c.clientId) == FindOrder(cfg, s.idx, c.session, c.clientId)
    ensures Agree(Apply(cfg, s, c).state, VApply(cfg, v, c))
  {
    assert BookInv(s.book, s.nextId);
    hide Inv, VOk, ApplyNew, VNew, Removed, VDrop, VCancel, ApplyCancelAll, RestingOf, Agree, FindOrder;
    match c.what
    case NewOrder => NewAgrees(cfg, s, v, c);
    case CancelOrder =>
      var id := FindOrder(cfg, s.idx, c.session, c.clientId);
      FoundRests(cfg, s, c.session, c.clientId);
      if id != 0 {
        RemovedAgrees(cfg, s, v, id);
      }
    case ModifyOrder =>
      var id := FindOrder(cfg, s.idx, c.session, c.clientId);
      FoundRests(cfg, s, c.session, c.clientId);
      if id != 0 {
        SameSide(cfg, s, v, id);
        RemovedAgrees(cfg, s, v, id);
        RemovedKeepsInv(cfg, s, id);
        RemovedBook(cfg, s, id);
        NewAgrees(cfg, Removed(cfg, s, id), VCancel(v, id), Replacement(c, v.known[id]));
      }
    case CancelAll => CancelAllAgrees(cfg, s, v, c);
    case SessionOpened =>
    case Subscribe =>
  }

  lemma RemovedBook(cfg: Config, s: State, id: nat)
    requires Inv(cfg, Removed(cfg, s, id))
    ensures BookInv(Removed(cfg, s, id).book, Removed(cfg, s, id).nextId)
  {
  }

  // ----- when the lookups agree ---------------------------------------------

  /** A resting match is the one the index finds. */
  lemma RestingMatch(cfg: Config, s: State, v: View, session: nat, clientId: nat, x: nat)
    requires Inv(cfg, s) && Complete(cfg, s.idx) && Agree(s, v)
    requires x in Matches(v, session, clientId) && x in AllIds(v.book)
    ensures FindOrder(cfg, s.idx, session, clientId) == x
  {
    hide BookInv, Lists;
    assert x in s.idx.owner && Findable(cfg, s.idx, x);
  }

  /** What the index finds is a match, provided no other pair shares the key. */
  lemma FoundMatches(cfg: Config, s: State, v: View, session: nat, clientId: nat)
    requires Inv(cfg, s) && VOk(v) && Agree(s, v) && NoAlias(cfg, s.idx, session, clientId)
    ensures var id := FindOrder(cfg, s.idx, session, clientId);
            id == 0 || (id in AllIds(s.book) && id in Matches(v, session, clientId))
  {
    var id := FindOrder(cfg, s.idx, session, clientId);
    FoundRests(cfg, s, session, clientId);
    if id != 0 {
      assert KeyedAt(cfg, s.idx, cfg.key(session, clientId), id);
      assert id in v.known;
    }
  }

  /** With nothing stale under this client id, the two lookups agree. */
  lemma LookupAgrees(cfg: Config, s: State, v: View, session: nat, clientId: nat)
    requires Inv(cfg, s) && Complete(cfg, s.idx) && VOk(v) && Agree(s, v)
    requires NoAlias(cfg, s.idx, session, clientId) && Matches(v, session, clientId) <= AllIds(v.book)
    ensures Lookup(v, session, clientId) == FindOrder(cfg, s.idx, session, clientId)
  {
    hide Inv, VOk, Complete, FindOrder, NoAlias, Matches;
    FoundMatches(cfg, s, v, session, clientId);
    if Matches(v, session, clientId) != {} {
      RestingMatch(cfg, s, v, session, clientId, Lookup(v, session, clientId));
    } else {
      assert FindOrder(cfg, s.idx, session, clientId) == 0;
    }
  }

  // ----- exactly when one command leaves them equal -------------------------

  ghost predicate SameOutcome(s: State, v: View) {
    v.book == s.book && v.lastTrade == s.lastTrade && v.nextId == s.nextId
  }

  /** Both lookups name the same order; or the index finds none, what the
      verifier finds does not rest, and it can do nothing with it. */
  ghost predicate Harmless(cfg: Config, s: State, v: View, c: Command) {
    LooksUp(c) ==>
      var id, found := FindOrder(cfg, s.idx, c.session, c.clientId), Lookup(v, c.session, c.clientId);
      found == id ||
      (id == 0 && found !in AllIds(v.book) &&
       (c.what.CancelOrder? || CheckRisk(cfg, s, Replacement(c, Bid)) != NoReason))
  }

  lemma FilledReaches(t: Order, qty: nat, opp: seq<Order>)
    requires qty > 0 && Greedy(t, qty, opp).left == 0
    ensures opp != [] && Reaches(t, opp[0])
  {
  }

  /** What a limit order leaves of its own side, and of a side it filled against. */
  lemma LimitSides(f: Flat, o: Order)
    requires BookOk(f) && o.kind.Limit? && o.quantity > 0 && o.id !in AllIds(f)
    ensures var g := Execute(f, o).book; var own, opp := f.Of(o.side), f.Of(o.side.Opposite());
            && Ids(own) <= Ids(g.Of(o.side)) <= Ids(own) + {o.id} && Ids(g.Of(o.side.Opposite())) <= Ids(opp)
            && (o.id !in Ids(g.Of(o.side)) ==> opp != [] && Reaches(o, opp[0]))
  {
    var own, opp := f.Of(o.side), f.Of(o.side.Opposite());
    var m := Greedy(o, o.quantity, opp);
    GreedyOk(o, o.quantity, opp);
    InsertIds(o.side, own, o.(quantity := m.left));
    if m.left == 0 {
      FilledReaches(o, o.quantity, opp);
    }
  }

  /** Replacing one order as the engine does, and another or none as the verifier
      does, never ends in the same book. */
  lemma ReplacementsDiffer(f: Flat, id: nat, dead: set<nat>, a: Order, b: Order)
    requires BookOk(f) && !IsCrossed(f) && id in Ids(f.Of(a.side)) && id !in dead
    requires dead !! Ids(f.Of(b.side.Opposite()))
    requires a.kind.Limit? && b.kind.Limit? && a.price == b.price && a.quantity > 0 && b.quantity > 0
    requires a.id == b.id && a.id !in AllIds(f)
    ensures Execute(Drop(f, {id}), a).book != Execute(Drop(f, dead), b).book
  {
    DropOk(f, {id});
    DropOk(f, dead);
    KeepOk(a.side, f.Of(a.side), {id});
    KeepOk(b.side, f.Of(b.side), dead);
    KeepNone(f.Of(a.side.Opposite()), {id});
    KeepNone(f.Of(b.side.Opposite()), dead);
    hide BookOk, Execute, SideOk;
    LimitSides(Drop(f, {id}), a);
    LimitSides(Drop(f, dead), b);
    var g, h := Execute(Drop(f, {id}), a).book, Execute(Drop(f, dead), b).book;
    assert id !in Ids(g.Of(a.side));
    if a.side != b.side {
      assert b.side == a.side.Opposite();
      NotBothReach(f, a, b);
    }
  }

  /** An uncrossed book has no price that reaches both sides. */
  lemma NotBothReach(f: Flat, a: Order, b: Order)
    requires !IsCrossed(f) && a.kind.Limit? && b.kind.Limit? && a.price == b.price && b.side == a.side.Opposite()
    ensures f.bids == [] || f.asks == [] || !Reaches(a, f.Of(a.side.Opposite())[0]) || !Reaches(b, f.Of(a.side)[0])
  {
  }

  /** What a limit replacement does to book and id counter. */
  lemma VNewOutcome(cfg: Config, v: View, c: Command)
    requires BookInv(v.book, v.nextId) && !c.market
    ensures var ok := CheckRisk(cfg, AsState(v), c) == NoReason; var w := VNew(cfg, v, c);
            && w.nextId == (if ok then v.nextId + 1 else v.nextId)
            && w.book == (if ok then Execute(v.book, OrderFor(AsState(v), c)).book else v.book)
            && (ok ==> c.quantity > 0) && (!ok ==> w == v)
  {
    if CheckRisk(cfg, AsState(v), c) == NoReason {
      assert c.quantity > 0;
      hide CheckRisk, Rest, CrossAll, Execute, BookInv;
      CrossIsExecute(v, OrderFor(AsState(v), c));
    }
  }

  lemma NewOutcome(cfg: Config, s: State, c: Command)
    requires !c.market
    ensures var ok := CheckRisk(cfg, s, c) == NoReason; var t := ApplyNew(cfg, s, c).state;
            && t.nextId == (if ok then s.nextId + 1 else s.nextId)
            && t.book == (if ok then Execute(s.book, OrderFor(s, c)).book else s.book)
            && (ok ==> c.quantity > 0)
  {
    hide Execute, Register, PublishTrades;
  }

  /** The engine replaces `id`; the verifier replaces something else. */
  lemma ModifyDiffers(cfg: Config, s: State, v: View, c: Command, id: nat, found: nat)
    requires Inv(cfg, s) && VOk(v) && Agree(s, v) && id in AllIds(s.book) && found in v.known && found != id
    requires id in s.idx.sideOf
    ensures !SameOutcome(ApplyNew(cfg, Removed(cfg, s, id), Replacement(c, s.idx.sideOf[id])).state,
                         VNew(cfg, VCancel(v, found), Replacement(c, v.known[found])))
  {
    var r := Removed(cfg, s, id);
    var w := VCancel(v, found);
    var dead := if found in AllIds(v.book) then {found} else {};
    var e, d := Replacement(c, s.idx.sideOf[id]), Replacement(c, v.known[found]);
    SameSide(cfg, s, v, id);
    SidesSplit(v, id);
    SidesSplit(v, found);
    DropOk(s.book, {id});
    DropOk(s.book, dead);
    VDropOk(v, dead);
    DropNone(s.book);
    assert w.book == Drop(s.book, dead) && w.nextId == s.nextId && BookInv(w.book, w.nextId);
    NewOutcome(cfg, r, e);
    VNewOutcome(cfg, w, d);
    assert BookInv(s.book, s.nextId) && s.nextId !in AllIds(s.book);
    assert id !in AllIds(r.book) && id in AllIds(w.book);
    hide CheckRisk, Execute, ApplyNew, VNew, Inv, VOk, Drop;
    if CheckRisk(cfg, r, e) == NoReason && CheckRisk(cfg, AsState(w), d) == NoReason {
      ReplacementsDiffer(s.book, id, dead, OrderFor(r, e), OrderFor(AsState(w), d));
    }
  }

  lemma DropNone(f: Flat)
    ensures Drop(f, {}) == f
  {
    KeepNone(f.bids, {});
    KeepNone(f.asks, {});
  }

  /** A resting id is on the side its location says, and on no other. */
  lemma SidesSplit(v: View, id: nat)
    requires VOk(v) && id in v.known
    ensures id in AllIds(v.book) ==> id in Ids(v.book.Of(v.known[id]))
    ensures id !in Ids(v.book.Of(v.known[id].Opposite()))
  {
    hide BookInv;
  }

  lemma RemovalsDiffer(f: Flat, a: nat, b: nat)
    requires BookOk(f) && a in AllIds(f) && a != b
    ensures Drop(f, {a}) != f && Drop(f, {a}) != Drop(f, {b})
  {
    DropOk(f, {a});
    DropOk(f, {b});
  }

  lemma CancelExactly(cfg: Config, s: State, v: View, c: Command)
    requires Inv(cfg, s) && VOk(v) && Agree(s, v) && c.what.CancelOrder?
    ensures SameOutcome(Apply(cfg, s, c).state, VApply(cfg, v, c)) <==> Harmless(cfg, s, v, c)
    ensures Harmless(cfg, s, v, c) ==> Agree(Apply(cfg, s, c).state, VApply(cfg, v, c))
  {
    var id, found := FindOrder(cfg, s.idx, c.session, c.clientId), Lookup(v, c.session, c.clientId);
    FoundRests(cfg, s, c.session, c.clientId);
    BookFacts(cfg, s, v);
    hide Inv, VOk, FindOrder, Drop, BookOk, Forget, SubMap, AllIds;
    if found == id {
      ApplyAgrees(cfg, s, v, c);
    } else if id != 0 {
      RemovalsDiffer(s.book, id, found);
    } else if found in AllIds(v.book) {
      RemovalsDiffer(s.book, found, id);
    }
  }

  lemma BookFacts(cfg: Config, s: State, v: View)
    requires Inv(cfg, s) && Agree(s, v)
    ensures BookOk(s.book) && v.book == s.book && 0 !in AllIds(s.book)
  {
  }

  lemma RiskIgnoresSide(cfg: Config, s: State, v: View, c: Command, a: Side, b: Side)
    requires Agree(s, v)
    ensures CheckRisk(cfg, AsState(v), Replacement(c, a)) == CheckRisk(cfg, s, Replacement(c, b))
  {
  }

  lemma ModifyExactly(cfg: Config, s: State, v: View, c: Command)
    requires Inv(cfg, s) && VOk(v) && Agree(s, v) && c.what.ModifyOrder?
    ensures SameOutcome(Apply(cfg, s, c).state, VApply(cfg, v, c)) <==> Harmless(cfg, s, v, c)
    ensures Harmless(cfg, s, v, c) ==> Agree(Apply(cfg, s, c).state, VApply(cfg, v, c))
  {
    var id, found := FindOrder(cfg, s.idx, c.session, c.clientId), Lookup(v, c.session, c.clientId);
    FoundRests(cfg, s, c.session, c.clientId);
    if found == id {
      ApplyAgrees(cfg, s, v, c);
    } else if id == 0 {
      NothingToModify(cfg, s, v, c, found);
    } else {
      SameSide(cfg, s, v, id);
      OneModifies(cfg, s, v, c, id);
      if found != 0 {
        ModifyDiffers(cfg, s, v, c, id, found);
      }
    }
  }

  /** The index finds nothing; the verifier replaces what it finds. */
  lemma NothingToModify(cfg: Config, s: State, v: View, c: Command, found: nat)
    requires Inv(cfg, s) && VOk(v) && Agree(s, v) && found in v.known
    ensures var w := VNew(cfg, VCancel(v, found), Replacement(c, v.known[found]));
            && (SameOutcome(s, w) <==>
                  found !in AllIds(v.book) && CheckRisk(cfg, s, Replacement(c, Bid)) != NoReason)
            && (SameOutcome(s, w) ==> w == v)
  {
    VDropOk(v, {found});
    DropOk(v.book, {found});
    VNewOutcome(cfg, VCancel(v, found), Replacement(c, v.known[found]));
    RiskIgnoresSide(cfg, s, v, c, v.known[found], Bid);
    hide CheckRisk, VNew, Inv, VOk, Drop, Execute;
  }

  /** An engine that modifies never ends where it began. */
  lemma OneModifies(cfg: Config, s: State, v: View, c: Command, id: nat)
    requires Inv(cfg, s) && Agree(s, v) && id in AllIds(s.book) && id in s.idx.sideOf
    ensures !SameOutcome(ApplyNew(cfg, Removed(cfg, s, id), Replacement(c, s.idx.sideOf[id])).state, v)
  {
    DropOk(s.book, {id});
    NewOutcome(cfg, Removed(cfg, s, id), Replacement(c, s.idx.sideOf[id]));
    hide ApplyNew, CheckRisk, Execute, Drop;
  }

  /** For every command: verifier and engine end with the same book, last trade
      and next id exactly when the lookup was harmless, and then they agree. */
  lemma ApplyAgreesExactly(cfg: Config, s: State, v: View, c: Command)
    requires Inv(cfg, s) && VOk(v) && Agree(s, v)
    ensures SameOutcome(Apply(cfg, s, c).state, VApply(cfg, v, c)) <==> Harmless(cfg, s, v, c)
    ensures Harmless(cfg, s, v, c) ==> Agree(Apply(cfg, s, c).state, VApply(cfg, v, c))
  {
    if c.what.CancelOrder? {
      CancelExactly(cfg, s, v, c);
    } else if c.what.ModifyOrder? {
      ModifyExactly(cfg, s, v, c);
    } else {
      hide Inv, VOk, Apply, VApply;
      ApplyAgrees(cfg, s, v, c);
    }
  }

  /** The same condition in terms of the ids the verifier failed to forget: none
      precedes the order, or there is no order and nothing can come of them. */
  lemma HarmlessExactly(cfg: Config, s: State, v: View, c: Command)
    requires Inv(cfg, s) && Complete(cfg, s.idx) && VOk(v) && Agree(s, v)
    requires LooksUp(c) && NoAlias(cfg, s.idx, c.session, c.clientId)
    ensures var id := FindOrder(cfg, s.idx, c.session, c.clientId); var found := Matches(v, c.session, c.clientId);
            Harmless(cfg, s, v, c) <==>
              if id != 0 then forall x :: x in found && x !in AllIds(v.book) ==> id < x
              else c.what.CancelOrder? || found == {} || CheckRisk(cfg, s, Replacement(c, Bid)) != NoReason
  {
    var id, found := FindOrder(cfg, s.idx, c.session, c.clientId), Lookup(v, c.session, c.clientId);
    FoundMatches(cfg, s, v, c.session, c.clientId);
    assert 0 !in v.known && 0 !in AllIds(v.book);
    assert 0 !in Matches(v, c.session, c.clientId);
    hide Inv, VOk, Complete, FindOrder, NoAlias, Matches, CheckRisk;
    forall x | x in Matches(v, c.session, c.clientId) && x in AllIds(v.book)
      ensures x == id
    {
      RestingMatch(cfg, s, v, c.session, c.clientId, x);
    }
  }

  // ----- whole streams ------------------------------------------------------

  /** Every lookup of the stream is harmless when it is made. */
  ghost predicate CleanRun(cfg: Config, s: State, v: View, cs: seq<Command>)
    decreases cs
  {
    cs == [] ||
    (Harmless(cfg, s, v, cs[0]) && CleanRun(cfg, Apply(cfg, s, cs[0]).state, VApply(cfg, v, cs[0]), cs[1..]))
  }

  /** Two independent implementations of one clean stream end in the same book,
      hence in the same digest. */
  lemma {:induction false} RunsAgree(cfg: Config, s: State, v: View, cs: seq<Command>)
    requires Inv(cfg, s) && VOk(v) && Agree(s, v) && CleanRun(cfg, s, v, cs)
    ensures VOk(VRun(cfg, v, cs)) && Agree(Run(cfg, s, cs), VRun(cfg, v, cs))
    decreases cs
  {
    if cs != [] {
      hide Inv, VOk, Agree, Apply, VApply, Harmless;
      ApplyAgreesExactly(cfg, s, v, cs[0]);
      ApplyKeepsInv(cfg, s, cs[0]);
      VApplyOk(cfg, v, cs[0]);
      RunsAgree(cfg, Apply(cfg, s, cs[0]).state, VApply(cfg, v, cs[0]), cs[1..]);
    }
  }

  /** They agree after every command of a stream exactly when it is clean. */
  ghost predicate AlwaysSame(cfg: Config, s: State, v: View, cs: seq<Command>)
    decreases cs
  {
    SameOutcome(s, v) &&
    (cs == [] || AlwaysSame(cfg, Apply(cfg, s, cs[0]).state, VApply(cfg, v, cs[0]), cs[1..]))
  }

  lemma {:induction false} CleanExactly(cfg: Config, s: State, v: View, cs: seq<Command>)
    requires Inv(cfg, s) && VOk(v) && Agree(s, v)
    ensures AlwaysSame(cfg, s, v, cs) <==> CleanRun(cfg, s, v, cs)
    decreases cs
  {
    if cs != [] {
      var t, w := Apply(cfg, s, cs[0]).state, VApply(cfg, v, cs[0]);
      hide Inv, VOk, Apply, VApply, Harmless;
      ApplyAgreesExactly(cfg, s, v, cs[0]);
      if Harmless(cfg, s, v, cs[0]) {
        ApplyKeepsInv(cfg, s, cs[0]);
        VApplyOk(cfg, v, cs[0]);
        CleanExactly(cfg, t, w, cs[1..]);
      } else {
        assert !AlwaysSame(cfg, t, w, cs[1..]);
      }
    }
  }

  /** A stream of commands with fresh, unaliased client ids and no market order. */
  ghost predicate PlainRun(cfg: Config, s: State, cs: seq<Command>)
    decreases cs
  {
    cs == [] ||
    (&& Fresh(cfg, s, cs[0]) && (cs[0].what.NewOrder? ==> !cs[0].market)
     && (LooksUp(cs[0]) ==> NoAlias(cfg, s.idx, cs[0].session, cs[0].clientId))
     && PlainRun(cfg, Apply(cfg, s, cs[0]).state, cs[1..]))
  }

  ghost predicate NothingStale(v: View) {
    v.known.Keys <= AllIds(v.book)
  }

  lemma NewLeavesNothingStale(cfg: Config, v: View, c: Command)
    requires VOk(v) && NothingStale(v) && !c.market
    ensures NothingStale(VNew(cfg, v, c))
  {
    hide CrossAll, CheckRisk;
    if CheckRisk(cfg, AsState(v), c) == NoReason {
      RestOk(v.book, OrderFor(AsState(v), c));
    }
  }

  /** Only market orders leave stale locations behind. */
  lemma StaysNothingStale(cfg: Config, v: View, c: Command)
    requires VOk(v) && NothingStale(v) && (c.what.NewOrder? ==> !c.market)
    ensures NothingStale(VApply(cfg, v, c))
  {
    var id := Lookup(v, c.session, c.clientId);
    var ids := if c.what.CancelAll? then RestingOf(v, c.session) else {id};
    DropOk(v.book, ids);
    VDropOk(v, ids);
    hide VOk, VNew;
    match c.what
    case NewOrder => NewLeavesNothingStale(cfg, v, c);
    case ModifyOrder =>
      if id in v.known {
        NewLeavesNothingStale(cfg, VCancel(v, id), Replacement(c, v.known[id]));
      }
    case CancelOrder =>
    case CancelAll =>
    case SessionOpened =>
    case Subscribe =>
  }

  lemma {:induction false} PlainIsClean(cfg: Config, s: State, v: View, cs: seq<Command>)
    requires Inv(cfg, s) && Complete(cfg, s.idx) && VOk(v) && Agree(s, v) && NothingStale(v) && PlainRun(cfg, s, cs)
    ensures CleanRun(cfg, s, v, cs)
    decreases cs
  {
    if cs != [] {
      var c := cs[0];
      assert Matches(v, c.session, c.clientId) <= AllIds(v.book);
      if LooksUp(c) {
        LookupAgrees(cfg, s, v, c.session, c.clientId);
      }
      assert Harmless(cfg, s, v, c);
      hide Inv, Complete, VOk, Agree, Apply, VApply, NoAlias, Matches, NothingStale, Harmless;
      ApplyAgreesExactly(cfg, s, v, c);
      ApplyKeepsInv(cfg, s, c);
      ApplyComplete(cfg, s, c);
      VApplyOk(cfg, v, c);
      StaysNothingStale(cfg, v, c);
      PlainIsClean(cfg, Apply(cfg, s, c).state, VApply(cfg, v, c), cs[1..]);
    }
  }

  /** From an empty book, the digests of the two implementations agree on every
      clean stream, and every plain stream is clean. */
  lemma DigestsAgree(cfg: Config, cs: seq<Command>)
    requires CleanRun(cfg, Init, Blank, cs) || PlainRun(cfg, Init, cs)
    ensures DigestOf(VRun(cfg, Blank, cs).book) == DigestOf(Run(cfg, Init, cs).book)
  {
    hide DigestOf;
    InitInv(cfg);
    BlankOk();
    if PlainRun(cfg, Init, cs) {
      PlainIsClean(cfg, Init, Blank, cs);
    }
    RunsAgree(cfg, Init, Blank, cs);
  }
}
