/** What every command keeps: a well-formed, positive, uncrossed book and
    ownership maps that describe exactly its orders. */
module Invariant {
  import opened Orders
  import opened FlatBook
  import opened ThreadSpec
  import opened Ownership

  ghost predicate BookInv(f: Flat, nextId: nat) {
    && BookOk(f) && BookPositive(f) && !IsCrossed(f)
    && nextId > 0 && (forall id :: id in AllIds(f) ==> 0 < id < nextId)
  }

  ghost predicate Inv(cfg: Config, s: State) {
    BookInv(s.book, s.nextId) && Good(cfg, s.idx, s.book)
  }

  lemma InitInv(cfg: Config)
    ensures Inv(cfg, Init)
  {
  }

  // ----- the book part ------------------------------------------------------

  lemma ExecuteMarketOk(f: Flat, o: Order)
    requires BookInv(f, o.id) && o.kind.Market?
    ensures BookInv(Execute(f, o).book, o.id + 1)
  {
    GreedyOk(o, o.quantity, f.Of(o.side.Opposite()));
    assert AllIds(Execute(f, o).book) <= AllIds(f);
  }

  lemma ExecuteLimitOk(f: Flat, o: Order)
    requires BookInv(f, o.id) && o.kind.Limit?
    ensures BookInv(Execute(f, o).book, o.id + 1)
  {
    hide BookOk, BookPositive, GreedyLimit;
    GreedyLimitOk(f, o);
    GreedyUncrossed(f, o);
  }

  // ----- the ownership part -------------------------------------------------

  /** Matching, publishing and forgetting leave the maps exact for the new book. */
  lemma ExecuteGood(cfg: Config, idx: Index, f: Flat, o: Order, c: Command)
    requires Good(cfg, idx, f) && BookOk(f) && o.id !in AllIds(f)
    requires o.quantity > 0 && c.side == o.side && c.quantity == o.quantity && c.market == o.kind.Market?
    ensures var p := PublishTrades(cfg, Register(cfg, idx, o.id, c), Execute(f, o).trades);
            Good(cfg, if c.market then Forget(cfg, p.idx, o.id) else p.idx, Execute(f, o).book)
  {
    hide Good, BookOk, DistinctBook, Register, Forget, Greedy;
    var own, opp := f.Of(o.side), f.Of(o.side.Opposite());
    assert f == Flat.Make(o.side, own, opp);
    var m := Greedy(o, o.quantity, opp);
    BookOkDistinct(f);
    RegisterGood(cfg, idx, o, own, opp, c);
    TakerDistinct(o, own, opp);
    PublishGreedy(cfg, Register(cfg, idx, o.id, c), o, own, opp);
    var p := PublishTrades(cfg, Register(cfg, idx, o.id, c), m.trades);
    if c.market {
      MatchedIds(f, o);
      ForgetTaker(cfg, p.idx, o, own, m);
    } else if m.left > 0 {
      GoodInsert(cfg, p.idx, o.(quantity := m.left), own, m.opp);
    }
  }

  lemma MatchedIds(f: Flat, o: Order)
    requires BookOk(f)
    ensures var opp := f.Of(o.side.Opposite()); Ids(Greedy(o, o.quantity, opp).opp) <= Ids(opp)
  {
    GreedyOk(o, o.quantity, f.Of(o.side.Opposite()));
  }

  lemma NewKeepsInv(cfg: Config, s: State, c: Command)
    requires Inv(cfg, s)
    ensures Inv(cfg, ApplyNew(cfg, s, c).state)
  {
    if CheckRisk(cfg, s, c) == NoReason {
      hide Good, Execute, Register, PublishTrades, Forget, BookOk;
      var o := OrderFor(s, c);
      if c.market {
        ExecuteMarketOk(s.book, o);
      } else {
        ExecuteLimitOk(s.book, o);
      }
      ExecuteGood(cfg, s.idx, s.book, o, c);
    }
  }

  // ----- removals -----------------------------------------------------------

  lemma {:induction false} ListsKeep(rem: map<nat, nat>, sides: map<nat, Side>, s: seq<Order>, dead: set<nat>)
    requires Lists(rem, sides, s)
    ensures Lists(rem, sides, Keep(s, dead))
  {
    if s != [] {
      ListsKeep(rem, sides, s[1..], dead);
      if s[0].id !in dead {
        assert ([s[0]] + Keep(s[1..], dead))[1..] == Keep(s[1..], dead);
      }
    }
  }

  /** Dropping a set of orders and forgetting it keeps everything in step. */
  lemma DropKeepsInv(cfg: Config, s: State, ids: set<nat>)
    requires Inv(cfg, s)
    ensures Inv(cfg, s.(book := Drop(s.book, ids), idx := ForgetAll(cfg, s.idx, ids)))
  {
    DropOk(s.book, ids);
    ListsKeep(s.idx.remaining, s.idx.sideOf, s.book.bids, ids);
    ListsKeep(s.idx.remaining, s.idx.sideOf, s.book.asks, ids);
    hide BookOk, BookPositive, Lists, ForgetAll, SessionsOk, KeysSound;
    ForgetAllGood(cfg, s.idx, s.book, ids, Drop(s.book, ids));
  }

  lemma RemovedKeepsInv(cfg: Config, s: State, id: nat)
    requires Inv(cfg, s)
    ensures Inv(cfg, Removed(cfg, s, id))
    ensures AllIds(Removed(cfg, s, id).book) == AllIds(s.book) - {id}
  {
    DropOk(s.book, {id});
    hide BookInv, Forget, ForgetAll, SessionsOk, KeysSound, Lists;
    ForgetIsForgetAll(cfg, s.idx, id);
    DropKeepsInv(cfg, s, {id});
  }

  /** A session that owns nothing can be dropped from session_orders_. */
  lemma DropSession(cfg: Config, idx: Index, f: Flat, session: nat)
    requires Good(cfg, idx, f) && forall id :: id in idx.owner ==> idx.owner[id] != session
    ensures Good(cfg, idx.(sessionOrders := idx.sessionOrders - {session}), f)
  {
    hide Lists;
    var b := idx.(sessionOrders := idx.sessionOrders - {session});
    forall k | k in b.byClient
      ensures KeyedAt(cfg, b, k, b.byClient[k])
    {
      assert KeyedAt(cfg, idx, k, idx.byClient[k]);
    }
  }

  lemma CancelAllKeepsInv(cfg: Config, s: State, c: Command)
    requires Inv(cfg, s)
    ensures Inv(cfg, ApplyCancelAll(cfg, s, c).state)
  {
    var ids := Held(s.idx, c.session);
    assert ids == OwnedBy(s.idx.owner, c.session);
    DropKeepsInv(cfg, s, ids);
    hide BookInv, Good, KeysOf;
    DropSession(cfg, ForgetAll(cfg, s.idx, ids), Drop(s.book, ids), c.session);
  }

  /** Every command keeps the invariant. */
  lemma ApplyKeepsInv(cfg: Config, s: State, c: Command)
    requires Inv(cfg, s)
    ensures Inv(cfg, Apply(cfg, s, c).state)
  {
    hide Inv, ApplyNew, ApplyCancelAll, Removed;
    match c.what
    case NewOrder => NewKeepsInv(cfg, s, c);
    case CancelOrder => RemovedKeepsInv(cfg, s, FindOrder(cfg, s.idx, c.session, c.clientId));
    case ModifyOrder =>
      var id := FindOrder(cfg, s.idx, c.session, c.clientId);
      var side := if id in s.idx.sideOf then s.idx.sideOf[id] else Bid;
      RemovedKeepsInv(cfg, s, id);
      NewKeepsInv(cfg, Removed(cfg, s, id), Replacement(c, side));
    case CancelAll => CancelAllKeepsInv(cfg, s, c);
    case SessionOpened =>
    case Subscribe =>
  }

  /** In every reachable state the book is sound and the maps are exact. */
  lemma {:induction false} RunKeepsInv(cfg: Config, s: State, cs: seq<Command>)
    requires Inv(cfg, s)
    ensures Inv(cfg, Run(cfg, s, cs))
    decreases cs
  {
    if cs != [] {
      ApplyKeepsInv(cfg, s, cs[0]);
      RunKeepsInv(cfg, Apply(cfg, s, cs[0]).state, cs[1..]);
    }
  }

  // ----- finding an order by client id --------------------------------------

  /** Every resting order can be found under its key. */
  ghost predicate Complete(cfg: Config, idx: Index) {
    forall id :: id in idx.owner ==> Findable(cfg, idx, id)
  }

  ghost predicate Findable(cfg: Config, idx: Index, id: nat)
    requires id in idx.owner
  {
    id in idx.clientOf &&
    var k := cfg.key(idx.owner[id], idx.clientOf[id]);
    k in idx.byClient && idx.byClient[k] == id
  }

  /** What a scan of the session's own orders would answer. */
  ghost predicate IsScan(idx: Index, session: nat, clientId: nat, id: nat) {
    if id == 0 then
      forall x :: x in idx.owner && x in idx.clientOf ==> idx.owner[x] != session || idx.clientOf[x] != clientId
    else id in idx.owner && id in idx.clientOf && idx.owner[id] == session && idx.clientOf[id] == clientId
  }

  /** No resting order of another (session, client id) pair shares the key. */
  ghost predicate NoAlias(cfg: Config, idx: Index, session: nat, clientId: nat) {
    forall x :: x in idx.owner && x in idx.clientOf &&
                cfg.key(idx.owner[x], idx.clientOf[x]) == cfg.key(session, clientId) ==>
                  idx.owner[x] == session && idx.clientOf[x] == clientId
  }

  /** The O(1) lookup answers what a full scan would exactly when no other
      resting order shares the key. */
  lemma FindOrderIsScan(cfg: Config, s: State, session: nat, clientId: nat)
    requires Inv(cfg, s) && Complete(cfg, s.idx)
    ensures IsScan(s.idx, session, clientId, FindOrder(cfg, s.idx, session, clientId))
            <==> NoAlias(cfg, s.idx, session, clientId)
  {
    hide BookOk, BookPositive, Lists;
    var k := cfg.key(session, clientId);
    var id := FindOrder(cfg, s.idx, session, clientId);
    if k in s.idx.byClient {
      assert KeyedAt(cfg, s.idx, k, id);
      assert id in AllIds(s.book);
      forall x | x in s.idx.owner && cfg.key(s.idx.owner[x], s.idx.clientOf[x]) == k
        ensures x == id
      {
        assert Findable(cfg, s.idx, x);
      }
    } else {
      forall x | x in s.idx.owner
        ensures cfg.key(s.idx.owner[x], s.idx.clientOf[x]) != k
      {
        assert Findable(cfg, s.idx, x);
      }
    }
  }

  lemma ForgetComplete(cfg: Config, idx: Index, id: nat)
    requires Complete(cfg, idx)
    ensures Complete(cfg, Forget(cfg, idx, id))
  {
    var r := Forget(cfg, idx, id);
    forall x | x in r.owner
      ensures Findable(cfg, r, x)
    {
      assert Findable(cfg, idx, x);
      assert id in idx.owner ==> Findable(cfg, idx, id);
    }
  }

  lemma RouteFillComplete(cfg: Config, idx: Index, id: nat, t: Trade)
    requires Complete(cfg, idx)
    ensures Complete(cfg, RouteFill(cfg, idx, id, t).idx)
  {
    if id in idx.owner {
      var before := if id in idx.remaining then idx.remaining[id] else 0;
      var rem := if before > t.quantity then before - t.quantity else 0;
      var idx' := idx.(remaining := idx.remaining[id := rem]);
      forall x | x in idx'.owner
        ensures Findable(cfg, idx', x)
      {
        assert Findable(cfg, idx, x);
      }
      ForgetComplete(cfg, idx', id);
    }
  }

  lemma {:induction false} PublishComplete(cfg: Config, idx: Index, trades: seq<Trade>)
    requires Complete(cfg, idx)
    ensures Complete(cfg, PublishTrades(cfg, idx, trades).idx)
    decreases trades
  {
    hide Complete, RouteFill;
    if trades != [] {
      RouteFillComplete(cfg, idx, trades[0].buyer, trades[0]);
      RouteFillComplete(cfg, RouteFill(cfg, idx, trades[0].buyer, trades[0]).idx, trades[0].seller, trades[0]);
      PublishComplete(cfg, RouteTrade(cfg, idx, trades[0]).idx, trades[1..]);
    }
  }

  lemma RegisterComplete(cfg: Config, idx: Index, id: nat, c: Command)
    requires Complete(cfg, idx) && KeysSound(cfg, idx) && id !in idx.owner
    requires cfg.key(c.session, c.clientId) !in idx.byClient
    ensures Complete(cfg, Register(cfg, idx, id, c))
  {
    var r := Register(cfg, idx, id, c);
    forall x | x in r.owner
      ensures Findable(cfg, r, x)
    {
      if x != id {
        assert Findable(cfg, idx, x);
      }
    }
  }

  lemma NewComplete(cfg: Config, s: State, c: Command)
    requires Inv(cfg, s) && Complete(cfg, s.idx) && cfg.key(c.session, c.clientId) !in s.idx.byClient
    ensures Complete(cfg, ApplyNew(cfg, s, c).state.idx)
  {
    if CheckRisk(cfg, s, c) == NoReason {
      assert s.nextId !in AllIds(s.book) && s.idx.owner.Keys == AllIds(s.book);
      hide Complete, Register, PublishTrades, Forget, Execute, BookOk, Lists;
      var o := OrderFor(s, c);
      RegisterComplete(cfg, s.idx, o.id, c);
      PublishComplete(cfg, Register(cfg, s.idx, o.id, c), Execute(s.book, o).trades);
      ForgetComplete(cfg, PublishTrades(cfg, Register(cfg, s.idx, o.id, c), Execute(s.book, o).trades).idx, o.id);
    }
  }

  lemma ForgetAllComplete(cfg: Config, idx: Index, ids: set<nat>)
    requires Complete(cfg, idx)
    ensures Complete(cfg, ForgetAll(cfg, idx, ids))
  {
    var r := ForgetAll(cfg, idx, ids);
    forall x | x in r.owner
      ensures Findable(cfg, r, x)
    {
      assert Findable(cfg, idx, x);
      var k := cfg.key(idx.owner[x], idx.clientOf[x]);
      forall id | id in ids && id in idx.owner
        ensures id in idx.clientOf && cfg.key(idx.owner[id], idx.clientOf[id]) != k
      {
        assert Findable(cfg, idx, id);
      }
      assert k !in KeysOf(cfg, idx, ids);
    }
  }

  /** A new order whose key no resting order uses; other commands always qualify. */
  ghost predicate Fresh(cfg: Config, s: State, c: Command) {
    c.what.NewOrder? ==> cfg.key(c.session, c.clientId) !in s.idx.byClient
  }

  ghost predicate FreshRun(cfg: Config, s: State, cs: seq<Command>)
    decreases cs
  {
    cs == [] || (Fresh(cfg, s, cs[0]) && FreshRun(cfg, Apply(cfg, s, cs[0]).state, cs[1..]))
  }

  lemma ModifyComplete(cfg: Config, s: State, c: Command)
    requires Inv(cfg, s) && Complete(cfg, s.idx)
    ensures Complete(cfg, ApplyModify(cfg, s, c).state.idx)
  {
    var id := FindOrder(cfg, s.idx, c.session, c.clientId);
    if id != 0 && id in AllIds(s.book) {
      var side := if id in s.idx.sideOf then s.idx.sideOf[id] else Bid;
      assert KeyedAt(cfg, s.idx, cfg.key(c.session, c.clientId), id);
      assert cfg.key(c.session, c.clientId) !in Removed(cfg, s, id).idx.byClient;
      RemovedKeepsInv(cfg, s, id);
      ForgetComplete(cfg, s.idx, id);
      NewComplete(cfg, Removed(cfg, s, id), Replacement(c, side));
    }
  }

  /** Commands with fresh keys keep every resting order findable. */
  lemma ApplyComplete(cfg: Config, s: State, c: Command)
    requires Inv(cfg, s) && Complete(cfg, s.idx) && Fresh(cfg, s, c)
    ensures Complete(cfg, Apply(cfg, s, c).state.idx)
  {
    match c.what
    case NewOrder => NewComplete(cfg, s, c);
    case CancelOrder => ForgetComplete(cfg, s.idx, FindOrder(cfg, s.idx, c.session, c.clientId));
    case ModifyOrder => ModifyComplete(cfg, s, c);
    case CancelAll =>
      var ids := Held(s.idx, c.session);
      var a := ForgetAll(cfg, s.idx, ids);
      ForgetAllComplete(cfg, s.idx, ids);
      var b := a.(sessionOrders := a.sessionOrders - {c.session});
      forall x | x in b.owner
        ensures Findable(cfg, b, x)
      {
        assert Findable(cfg, a, x);
      }
    case SessionOpened =>
    case Subscribe =>
  }

  /** Along every fresh run the index stays complete, so find_order is a scan. */
  lemma {:induction false} RunComplete(cfg: Config, s: State, cs: seq<Command>)
    requires Inv(cfg, s) && Complete(cfg, s.idx) && FreshRun(cfg, s, cs)
    ensures Inv(cfg, Run(cfg, s, cs)) && Complete(cfg, Run(cfg, s, cs).idx)
    decreases cs
  {
    hide Inv, Complete, Apply;
    if cs != [] {
      ApplyKeepsInv(cfg, s, cs[0]);
      ApplyComplete(cfg, s, cs[0]);
      RunComplete(cfg, Apply(cfg, s, cs[0]).state, cs[1..]);
    }
  }

  /** Cancel-all removes exactly the orders of that session. */
  lemma CancelAllExact(cfg: Config, s: State, c: Command)
    requires Inv(cfg, s) && c.what.CancelAll?
    ensures var s' := Apply(cfg, s, c).state;
            && AllIds(s'.book) == AllIds(s.book) - OwnedBy(s.idx.owner, c.session)
            && (forall id :: id in AllIds(s'.book) ==> id in s'.idx.owner && s'.idx.owner[id] != c.session)
  {
    var ids := Held(s.idx, c.session);
    assert ids == OwnedBy(s.idx.owner, c.session);
    DropOk(s.book, ids);
    CancelAllKeepsInv(cfg, s, c);
  }
}
