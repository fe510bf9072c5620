/** The matching thread object (include/ome/matching_thread.hpp): the engine, the
    ownership maps, the counters and what it tells the sessions.  Each method is
    proved against ThreadSpec. */
module MatchingThreads {
  import opened Orders
  import opened FlatBook
  import opened OrderBooks
  import opened Engines
  import opened ThreadSpec
  import opened Ownership
  import opened Invariant
  import opened Similarity
  import opened Snapshots
  import opened Restoring

  // ----- what reaches the sessions ------------------------------------------

  /** Events accepted by egress queues, sessions whose queue overflowed, and the
      number of pushes tried so far. */
  datatype Outbox = Outbox(sent: seq<Event>, overflowed: set<nat>, pushes: nat)

  /** The network side as the matching thread meets it: which sessions have a
      queue, and which of its pushes will find that queue full. */
  datatype Outside = Outside(egress: set<nat>, replaying: bool, full: nat -> bool)

  function Emitted(x: Outside, out: Outbox, e: Event): Outbox {
    if x.replaying || e.session !in x.egress then out
    else if x.full(out.pushes) then Outbox(out.sent, out.overflowed + {e.session}, out.pushes + 1)
    else Outbox(out.sent + [e], out.overflowed, out.pushes + 1)
  }

  function EmitAll(x: Outside, out: Outbox, es: seq<Event>): Outbox
    decreases es
  {
    if es == [] then out else EmitAll(x, Emitted(x, out, es[0]), es[1..])
  }

  lemma {:induction false} EmitAppend(x: Outside, out: Outbox, a: seq<Event>, b: seq<Event>)
    ensures EmitAll(x, out, a + b) == EmitAll(x, EmitAll(x, out, a), b)
    decreases a
  {
    hide Emitted;
    if a == [] {
      assert a + b == b;
    } else {
      assert (a + b)[1..] == a[1..] + b;
      EmitAppend(x, Emitted(x, out, a[0]), a[1..], b);
    }
  }

  lemma EmitOne(x: Outside, out: Outbox, e: Event)
    ensures EmitAll(x, out, [e]) == Emitted(x, out, e)
  {
    hide Emitted;
    assert [e][1..] == [];
  }

  // ----- what is delivered --------------------------------------------------

  /** The events that have somewhere to go: those of connected sessions. */
  function Due(egress: set<nat>, es: seq<Event>): seq<Event> {
    if es == [] then [] else (if es[0].session in egress then [es[0]] else []) + Due(egress, es[1..])
  }

  /** Of a list of pushes numbered from k, those whose queue has room. */
  function Accepted(full: nat -> bool, k: nat, es: seq<Event>): seq<Event>
    decreases es
  {
    if es == [] then [] else (if full(k) then [] else [es[0]]) + Accepted(full, k + 1, es[1..])
  }

  /** The sessions of those whose queue has none. */
  function Refused(full: nat -> bool, k: nat, es: seq<Event>): set<nat>
    decreases es
  {
    if es == [] then {} else (if full(k) then {es[0].session} else {}) + Refused(full, k + 1, es[1..])
  }

  /** Live, every event of a connected session is pushed, in order and once.  What
      finds room is sent; a session that misses one is marked, and no other. */
  lemma {:induction false} EmitDelivers(x: Outside, out: Outbox, es: seq<Event>)
    requires !x.replaying
    ensures EmitAll(x, out, es) == Delivered(x.full, out, Due(x.egress, es))
    decreases es
  {
    hide Emitted, Delivered;
    if es == [] {
      DeliverNone(x.full, out);
    } else {
      EmitDelivers(x, Emitted(x, out, es[0]), es[1..]);
      DeliverOne(x, out, es[0], Due(x.egress, es[1..]));
    }
  }

  /** The outbox after a list of pushes. */
  function Delivered(full: nat -> bool, out: Outbox, due: seq<Event>): Outbox {
    Outbox(out.sent + Accepted(full, out.pushes, due), out.overflowed + Refused(full, out.pushes, due),
           out.pushes + |due|)
  }

  lemma DeliverNone(full: nat -> bool, out: Outbox)
    ensures Delivered(full, out, []) == out
  {
    assert out.sent + [] == out.sent && out.overflowed + {} == out.overflowed;
  }

  lemma DeliverOne(x: Outside, out: Outbox, e: Event, due: seq<Event>)
    requires !x.replaying
    ensures Delivered(x.full, Emitted(x, out, e), due) ==
            Delivered(x.full, out, (if e.session in x.egress then [e] else []) + due)
  {
    if e.session in x.egress {
      assert ([e] + due)[1..] == due;
      var rest, lost := Accepted(x.full, out.pushes + 1, due), Refused(x.full, out.pushes + 1, due);
      hide Accepted, Refused;
      PushOne(x.full, out.pushes, e, due);
      assert out.sent + ([e] + rest) == out.sent + [e] + rest && out.sent + ([] + rest) == out.sent + rest;
      assert out.overflowed + ({e.session} + lost) == out.overflowed + {e.session} + lost;
      assert out.overflowed + ({} + lost) == out.overflowed + lost;
    } else {
      assert [] + due == due;
    }
  }

  lemma PushOne(full: nat -> bool, k: nat, e: Event, due: seq<Event>)
    ensures Accepted(full, k, [e] + due) == (if full(k) then [] else [e]) + Accepted(full, k + 1, due)
    ensures Refused(full, k, [e] + due) == (if full(k) then {e.session} else {}) + Refused(full, k + 1, due)
  {
    assert ([e] + due)[1..] == due;
  }

  /** None of n pushes from number k on finds a full queue. */
  ghost predicate Room(full: nat -> bool, k: nat, n: nat) {
    forall i: nat :: k <= i < k + n ==> !full(i)
  }

  lemma {:induction false} AllAccepted(full: nat -> bool, k: nat, es: seq<Event>)
    requires Room(full, k, |es|)
    ensures Accepted(full, k, es) == es && Refused(full, k, es) == {}
    decreases es
  {
    if es != [] {
      assert !full(k);
      AllAccepted(full, k + 1, es[1..]);
    }
  }

  /** a arises from b by leaving events out. */
  ghost predicate Subsequence(a: seq<Event>, b: seq<Event>)
    decreases b
  {
    a == [] || (b != [] && ((a[0] == b[0] && Subsequence(a[1..], b[1..])) || Subsequence(a, b[1..])))
  }

  function SessionsOf(es: seq<Event>): set<nat> {
    set e | e in es :: e.session
  }

  /** In general only events of marked sessions are missing. */
  lemma {:induction false} AcceptedSome(full: nat -> bool, k: nat, es: seq<Event>)
    ensures Subsequence(Accepted(full, k, es), es) && Refused(full, k, es) <= SessionsOf(es)
    ensures forall e :: e in es && e !in Accepted(full, k, es) ==> e.session in Refused(full, k, es)
    decreases es
  {
    if es != [] {
      AcceptedSome(full, k + 1, es[1..]);
      var rest := Accepted(full, k + 1, es[1..]);
      assert SessionsOf(es[1..]) <= SessionsOf(es) && es[0] in es;
      if full(k) {
        assert [] + rest == rest;
      } else {
        assert ([es[0]] + rest)[1..] == rest;
      }
    }
  }

  /** With room everywhere, sessions receive exactly their events, in order. */
  lemma EmitWithRoom(x: Outside, out: Outbox, es: seq<Event>)
    requires !x.replaying && Room(x.full, out.pushes, |Due(x.egress, es)|)
    ensures EmitAll(x, out, es).sent == out.sent + Due(x.egress, es)
    ensures EmitAll(x, out, es).overflowed == out.overflowed
  {
    EmitDelivers(x, out, es);
    AllAccepted(x.full, out.pushes, Due(x.egress, es));
  }

  // ----- market data --------------------------------------------------------

  /** The depth a subscriber gets: what it asked for, at most ten, and ten for 0. */
  function DepthFor(asked: nat): (r: nat)
    ensures 1 <= r <= 10 && (1 <= asked <= 10 ==> r == asked) && (asked == 0 || asked > 10 ==> r == 10)
  {
    if 1 <= asked <= 10 then asked else 10
  }

  /** The command was answered with nothing but a refusal. */
  predicate Refusal(es: seq<Event>) {
    es != [] && es[0].Reject?
  }

  /** A book update goes out after every command that was not refused, except the
      opening of a session. */
  predicate Publishes(cfg: Config, s: State, c: Command) {
    !c.what.SessionOpened? && !Refusal(Apply(cfg, s, c).events)
  }

  lemma CancelAllAnswers(cfg: Config, s: State, c: Command)
    ensures !Refusal(ApplyCancelAll(cfg, s, c).events)
  {
  }

  /** The loggable part of a command stream. */
  function Loggable(cs: seq<Command>): seq<Command> {
    if cs == [] then []
    else if IsLoggable(cs[0].what) then [cs[0]] + Loggable(cs[1..])
    else Loggable(cs[1..])
  }

  /** Commands that are not logged do not change the state: replaying only the
      log reaches what the live stream reached. */
  lemma {:induction false} LiveEqualsReplay(cfg: Config, s: State, cs: seq<Command>)
    ensures Run(cfg, s, Loggable(cs)) == Run(cfg, s, cs)
    decreases cs
  {
    if cs != [] {
      LiveEqualsReplay(cfg, Apply(cfg, s, cs[0]).state, cs[1..]);
      if IsLoggable(cs[0].what) {
        hide Apply;
        assert ([cs[0]] + Loggable(cs[1..]))[1..] == Loggable(cs[1..]);
      } else {
        assert Apply(cfg, s, cs[0]).state == s;
      }
    }
  }

  // ----- cancel-all one order at a time -------------------------------------

  /** Forgetting one more order extends the forgotten set. */
  lemma ForgetNext(cfg: Config, idx: Index, done: set<nat>, id: nat)
    requires SessionsOk(idx) && idx.owner.Keys == idx.clientOf.Keys
    ensures Forget(cfg, ForgetAll(cfg, idx, done), id) == ForgetAll(cfg, idx, done + {id})
  {
    ForgetAllSessions(cfg, idx, done);
    ForgetIsForgetAll(cfg, ForgetAll(cfg, idx, done), id);
    ForgetTwice(cfg, idx, done, {id});
  }

  lemma ForgetKeysTwice(cfg: Config, idx: Index, a: set<nat>, b: set<nat>)
    ensures KeysOf(cfg, idx, a + b) == KeysOf(cfg, idx, a) + KeysOf(cfg, ForgetAll(cfg, idx, a), b)
  {
    var f := ForgetAll(cfg, idx, a);
    forall id | id in b && id in f.owner && id in f.clientOf
      ensures cfg.key(f.owner[id], f.clientOf[id]) in KeysOf(cfg, idx, a + b)
    {
      assert id in a + b && id in idx.owner && id in idx.clientOf;
    }
  }

  lemma ForgetSessionsTwice(cfg: Config, idx: Index, a: set<nat>, b: set<nat>)
    ensures ForgetAll(cfg, ForgetAll(cfg, idx, a), b).sessionOrders == ForgetAll(cfg, idx, a + b).sessionOrders
  {
    hide KeysOf;
    var l, r := ForgetAll(cfg, ForgetAll(cfg, idx, a), b), ForgetAll(cfg, idx, a + b);
    forall k | k in idx.sessionOrders
      ensures l.sessionOrders[k] == r.sessionOrders[k]
    {
    }
  }

  lemma ForgetTwice(cfg: Config, idx: Index, a: set<nat>, b: set<nat>)
    ensures ForgetAll(cfg, ForgetAll(cfg, idx, a), b) == ForgetAll(cfg, idx, a + b)
  {
    ForgetKeysTwice(cfg, idx, a, b);
    ForgetSessionsTwice(cfg, idx, a, b);
    hide KeysOf;
    var l, r := ForgetAll(cfg, ForgetAll(cfg, idx, a), b), ForgetAll(cfg, idx, a + b);
    assert l.byClient == r.byClient;
    assert l.owner == r.owner && l.clientOf == r.clientOf && l.remaining == r.remaining && l.sideOf == r.sideOf;
  }

  lemma DropNext(f: Flat, done: set<nat>, id: nat)
    ensures Drop(Drop(f, done), {id}) == Drop(f, done + {id})
  {
    KeepTwice(f.bids, done, {id});
    KeepTwice(f.asks, done, {id});
  }

  lemma DropNothing(f: Flat)
    ensures Drop(f, {}) == f
  {
    KeepNone(f.bids, {});
    KeepNone(f.asks, {});
  }

  lemma ForgetNothing(cfg: Config, idx: Index)
    ensures ForgetAll(cfg, idx, {}) == idx
  {
    var f := ForgetAll(cfg, idx, {});
    assert KeysOf(cfg, idx, {}) == {};
    assert f.byClient == idx.byClient;
    forall k | k in idx.sessionOrders
      ensures f.sessionOrders[k] == idx.sessionOrders[k]
    {
    }
    assert f.sessionOrders == idx.sessionOrders;
  }

  class MatchingThread {
    const cfg: Config
    const engine: MatchingEngine
    const full: nat -> bool

    // owner_of_, client_id_of_, remaining_of_, side_of_, session_orders_, by_client_id_
    var idx: Index
    var lastTrade: int
    var nextId: nat
    var clock: nat

    var replaying: bool
    var egress: set<nat>
    var subscribers: map<nat, nat>
    var out: Outbox
    var bookSeq: nat

    ghost function Now(): State
      reads this, engine, engine.book
    {
      State(engine.book.Book(), lastTrade, nextId, clock, idx)
    }

    ghost function Net(): Outside
      reads this
    {
      Outside(egress, replaying, full)
    }

    ghost predicate Valid()
      reads this, engine, engine.book
    {
      engine.Valid() && engine.tradeLog == [] && Inv(cfg, Now())
    }

    constructor (cfg: Config, full: nat -> bool)
      ensures Valid() && Now() == Init && fresh(engine) && fresh(engine.book) && this.cfg == cfg
      ensures egress == {} && !replaying && out == Outbox([], {}, 0)
    {
      this.cfg := cfg;
      this.full := full;
      engine := new MatchingEngine();
      idx, lastTrade, nextId, clock := EmptyIndex, 0, 1, 0;
      replaying, egress, subscribers, out, bookSeq := false, {}, map[], Outbox([], {}, 0), 0;
      new;
      InitInv(cfg);
    }

    method Emit(e: Event)
      modifies this`out
      ensures out == Emitted(Net(), old(out), e)
    {
      if replaying || e.session !in egress {
        return;
      }
      if full(out.pushes) {
        out := Outbox(out.sent, out.overflowed + {e.session}, out.pushes + 1);
      } else {
        out := Outbox(out.sent + [e], out.overflowed, out.pushes + 1);
      }
    }

    /** Builds a market-data snapshot for the subscribers; the book is only read. */
    method PublishBook()
      modifies this`bookSeq
      ensures bookSeq == if !replaying && subscribers != map[] then old(bookSeq) + 1 else old(bookSeq)
    {
      if replaying || subscribers == map[] {
        return;
      }
      bookSeq := bookSeq + 1;
    }

    method FindOrderId(session: nat, clientId: nat) returns (id: nat)
      ensures id == FindOrder(cfg, idx, session, clientId)
    {
      var k := cfg.key(session, clientId);
      id := if k in idx.byClient then idx.byClient[k] else 0;
    }

    method ForgetOrder(id: nat)
      modifies this`idx
      ensures idx == Forget(cfg, old(idx), id)
    {
      if id in idx.owner {
        var session := idx.owner[id];
        if id in idx.clientOf {
          idx := idx.(byClient := idx.byClient - {cfg.key(session, idx.clientOf[id])});
        }
        if session in idx.sessionOrders {
          idx := idx.(sessionOrders := idx.sessionOrders[session := idx.sessionOrders[session] - {id}]);
        }
        idx := idx.(owner := idx.owner - {id});
      } else {
        assert idx.owner - {id} == idx.owner;
      }
      idx := idx.(clientOf := idx.clientOf - {id}, remaining := idx.remaining - {id}, sideOf := idx.sideOf - {id});
    }

    method RouteFillTo(id: nat, t: Trade)
      modifies this`idx, this`out
      ensures idx == RouteFill(cfg, old(idx), id, t).idx
      ensures out == EmitAll(Net(), old(out), RouteFill(cfg, old(idx), id, t).events)
    {
      if id !in idx.owner {
        return;
      }
      var session := idx.owner[id];
      var before := if id in idx.remaining then idx.remaining[id] else 0;
      var rem := if before > t.quantity then before - t.quantity else 0;
      var clientId := if id in idx.clientOf then idx.clientOf[id] else 0;
      idx := idx.(remaining := idx.remaining[id := rem]);
      EmitOne(Net(), out, Fill(session, clientId, id, t.price, t.quantity, rem));
      Emit(Fill(session, clientId, id, t.price, t.quantity, rem));
      if rem == 0 {
        ForgetOrder(id);
      }
    }

    /** Turns the trades of one command into fills and drains the trade log. */
    method PublishTradeLog()
      modifies this`idx, this`out, this`lastTrade, engine
      ensures engine.tradeLog == []
      ensures var p := PublishTrades(cfg, old(idx), old(engine.tradeLog));
              idx == p.idx && out == EmitAll(Net(), old(out), p.events)
      ensures lastTrade == LastPrice(old(lastTrade), old(engine.tradeLog))
    {
      hide RouteFill, EmitAll;
      var log := engine.tradeLog;
      ghost var p := PublishTrades(cfg, idx, log);
      ghost var sent: seq<Event> := [];
      var i := 0;
      assert log[0..] == log;
      EmitNone(Net(), out);
      while i < |log|
        invariant i <= |log|
        invariant Routed(cfg, idx, sent, log[i..], p)
        invariant out == EmitAll(Net(), old(out), sent)
        invariant lastTrade == LastPrice(old(lastTrade), log[..i])
      {
        var t := log[i];
        assert log[i..][1..] == log[i+1..];
        RoutedStep(cfg, idx, sent, log[i..], p);
        ghost var b := RouteFill(cfg, idx, t.buyer, t);
        ghost var s := RouteFill(cfg, b.idx, t.seller, t);
        EmitAppend(Net(), old(out), sent, b.events);
        EmitAppend(Net(), old(out), sent + b.events, s.events);
        lastTrade := t.price;
        RouteFillTo(t.buyer, t);
        RouteFillTo(t.seller, t);
        sent := sent + b.events + s.events;
        i := i + 1;
      }
      RoutedEnd(cfg, idx, sent, p);
      assert log[..i] == log && log[i..] == [];
      engine.ClearTradeLog();
    }

    method CheckRiskNow(c: Command) returns (r: RejectReason)
      requires engine.Valid()
      ensures r == CheckRisk(cfg, Now(), c)
    {
      if c.quantity == 0 {
        return InvalidQty;
      }
      if c.quantity > cfg.maxQty {
        return RiskMaxOrderSize;
      }
      if c.market {
        return NoReason;
      }
      if c.price <= 0 || (cfg.tick > 1 && c.price % cfg.tick != 0) {
        return InvalidPrice;
      }
      if cfg.bandBp > 0 {
        var reference := ReferencePrice();
        if reference.Some? && OutsideBand(cfg, c.price, reference.value) {
          return RiskPriceBand;
        }
      }
      return NoReason;
    }

    method ReferencePrice() returns (r: Option<int>)
      requires engine.Valid()
      ensures r == Reference(Now())
    {
      if lastTrade > 0 {
        return Some(lastTrade);
      }
      var bid := engine.book.BestPrice(Bid);
      var ask := engine.book.BestPrice(Ask);
      if bid.None? || ask.None? {
        return None;
      }
      return Some(Half(bid.value + ask.value));
    }

    /** Writes the six map entries of a new order. */
    method RegisterOrder(id: nat, c: Command)
      modifies this`idx
      ensures idx == Register(cfg, old(idx), id, c)
    {
      idx := idx.(owner := idx.owner[id := c.session], clientOf := idx.clientOf[id := c.clientId]);
      idx := idx.(remaining := idx.remaining[id := c.quantity], sideOf := idx.sideOf[id := c.side]);
      var held := if c.session in idx.sessionOrders then idx.sessionOrders[c.session] else {};
      idx := idx.(sessionOrders := idx.sessionOrders[c.session := held + {id}]);
      idx := idx.(byClient := idx.byClient[cfg.key(c.session, c.clientId) := id]);
    }

    /** Matches a registered order, acknowledges it, then reports its fills. */
    method Settle(o: Order, c: Command)
      requires engine.Valid() && engine.tradeLog == [] && o.id !in AllIds(engine.book.Book())
      requires var f := engine.book.Book();
               Process(f, o).book == Execute(f, o).book && Process(f, o).trades == Execute(f, o).trades
      modifies this`idx, this`lastTrade, this`out, engine, engine.book
      ensures engine.Valid() && engine.tradeLog == []
      ensures var x := Execute(old(engine.book.Book()), o);
              var p := PublishTrades(cfg, old(idx), x.trades);
              && engine.book.Book() == x.book && idx == p.idx && lastTrade == LastPrice(old(lastTrade), x.trades)
              && out == EmitAll(Net(), old(out), [Ack(c.session, c.clientId, o.id, false)] + p.events)
    {
      hide EmitAll, Emitted, Process, Execute, PublishTrades;
      var r := engine.ProcessOrder(o);
      ghost var x := Execute(old(engine.book.Book()), o);
      assert engine.tradeLog == x.trades;
      ghost var p := PublishTrades(cfg, idx, x.trades);
      var ack := Ack(c.session, c.clientId, o.id, false);
      EmitOne(Net(), out, ack);
      EmitAppend(Net(), out, [ack], p.events);
      Emit(ack);
      PublishTradeLog();
    }

    /** Risk gate, registration, matching, acknowledgement, fills. */
    method ApplyNewOrder(c: Command)
      requires Valid()
      modifies this`idx, this`lastTrade, this`nextId, this`clock, this`out, this`bookSeq, engine, engine.book
      ensures Valid()
      ensures var a := ApplyNew(cfg, old(Now()), c);
              && Now() == a.state && out == EmitAll(Net(), old(out), a.events)
              && bookSeq == old(bookSeq) + if !replaying && subscribers != map[] && !Refusal(a.events) then 1 else 0
    {
      hide EmitAll, Emitted, Process, Execute, Register, Forget, PublishTrades, CheckRisk, Inv;
      hide OrderBook.Valid, OrderBook.Book;
      var risk := CheckRiskNow(c);
      NewKeepsInv(cfg, Now(), c);
      if risk != NoReason {
        EmitOne(Net(), out, Reject(c.session, c.clientId, risk));
        Emit(Reject(c.session, c.clientId, risk));
        return;
      }
      NewOrderReady(cfg, Now(), c);
      var o := Order(nextId, c.price, c.quantity, c.side, if c.market then Market else Limit, clock + 1);
      nextId, clock := nextId + 1, clock + 1;
      // recorded before the match, whose fills must already be routable
      RegisterOrder(o.id, c);
      Settle(o, c);
      PublishBook();
      if c.market {
        ForgetOrder(o.id);
      }
    }

    /** Removes a resting order from the engine and the maps; refuses unknown ids. */
    method RemoveOrder(id: nat) returns (ok: bool)
      requires Valid()
      modifies this`idx, engine, engine.book
      ensures Valid()
      ensures ok <==> id in AllIds(old(engine.book.Book()))
      ensures Now() == if ok then Removed(cfg, old(Now()), id) else old(Now())
    {
      hide Inv, Forget, Drop;
      RemovedKeepsInv(cfg, Now(), id);
      DropAbsent(engine.book.Book(), id);
      var r := engine.ProcessOrder(Order(id, 0, 0, Bid, Cancel, 0));
      ok := r.accepted;
      if ok {
        ForgetOrder(id);
      }
    }

    method ApplyCancelOrder(c: Command)
      requires Valid()
      modifies this`idx, this`out, this`bookSeq, engine, engine.book
      ensures Valid()
      ensures var a := ApplyCancel(cfg, old(Now()), c);
              && Now() == a.state && out == EmitAll(Net(), old(out), a.events)
              && bookSeq == old(bookSeq) + if !replaying && subscribers != map[] && !Refusal(a.events) then 1 else 0
    {
      hide EmitAll, Emitted, Inv, Removed;
      var id := FindOrderId(c.session, c.clientId);
      EmitOne(Net(), out, Reject(c.session, c.clientId, UnknownOrder));
      EmitOne(Net(), out, Ack(c.session, c.clientId, id, true));
      if id == 0 {
        Emit(Reject(c.session, c.clientId, UnknownOrder));
        return;
      }
      var ok := RemoveOrder(id);
      if !ok {
        Emit(Reject(c.session, c.clientId, UnknownOrder));
        return;
      }
      Emit(Ack(c.session, c.clientId, id, true));
      PublishBook();
    }

    /** Cancel and replace without letting another command in between. */
    method ApplyModifyOrder(c: Command)
      requires Valid()
      modifies this`idx, this`lastTrade, this`nextId, this`clock, this`out, this`bookSeq, engine, engine.book
      ensures Valid()
      ensures var a := ApplyModify(cfg, old(Now()), c);
              && Now() == a.state && out == EmitAll(Net(), old(out), a.events)
              && bookSeq == old(bookSeq) + if !replaying && subscribers != map[] && !Refusal(a.events) then 1 else 0
    {
      hide EmitAll, Emitted, Inv, Removed, ApplyNew;
      var id := FindOrderId(c.session, c.clientId);
      EmitOne(Net(), out, Reject(c.session, c.clientId, UnknownOrder));
      if id == 0 {
        Emit(Reject(c.session, c.clientId, UnknownOrder));
        return;
      }
      var side := if id in idx.sideOf then idx.sideOf[id] else Bid;
      var ok := RemoveOrder(id);
      if !ok {
        Emit(Reject(c.session, c.clientId, UnknownOrder));
        return;
      }
      ApplyNewOrder(Command(NewOrder, c.session, c.clientId, c.price, c.quantity, side, false));
    }

    /** Cancels every order of a session, in whatever order the set yields them. */
    method CancelEach(ids: set<nat>)
      requires Valid()
      modifies this`idx, engine, engine.book
      ensures Valid()
      ensures Now() == old(Now()).(book := Drop(old(Now()).book, ids), idx := ForgetAll(cfg, old(idx), ids))
    {
      hide Forget, ForgetAll, Drop, BookInv, Lists, KeysSound;
      var todo := ids;
      ghost var done: set<nat> := {};
      DropNothing(engine.book.Book());
      ForgetNothing(cfg, idx);
      while todo != {}
        invariant ids == done + todo
        invariant engine.Valid() && engine.tradeLog == []
        invariant idx == ForgetAll(cfg, old(idx), done) && engine.book.Book() == Drop(old(engine.book.Book()), done)
      {
        var id :| id in todo;
        DropNext(old(engine.book.Book()), done, id);
        ForgetNext(cfg, old(idx), done, id);
        var r := engine.ProcessOrder(Order(id, 0, 0, Bid, Cancel, 0));
        ForgetOrder(id);
        done, todo := done + {id}, todo - {id};
      }
      assert done == ids;
      DropKeepsInv(cfg, old(Now()), ids);
    }

    method ApplyCancelAllOf(c: Command)
      requires Valid()
      modifies this`idx, this`out, this`bookSeq, this`egress, this`subscribers, engine, engine.book
      ensures Valid() && Now() == ApplyCancelAll(cfg, old(Now()), c).state
      ensures c.session !in egress && egress == old(egress) - {c.session}
      ensures subscribers == old(subscribers) - {c.session}
      ensures bookSeq == old(bookSeq) + if !replaying && subscribers != map[] then 1 else 0
      ensures c.session !in old(egress) ==> out == old(out)
      ensures c.session in old(egress) ==>
                && out.overflowed == old(out).overflowed && out.pushes == old(out).pushes + 1
                && out.sent == old(out).sent + if full(old(out).pushes) then [] else [SessionRetired(c.session)]
    {
      hide Inv, Drop, ForgetAll, OrderBook.Valid, OrderBook.Book;
      CancelAllKeepsInv(cfg, Now(), c);
      var ids := if c.session in idx.sessionOrders then idx.sessionOrders[c.session] else {};
      CancelEach(ids);
      engine.ClearTradeLog();
      // the tombstone: the last event this queue will ever receive
      if c.session in egress {
        if full(out.pushes) {
          out := out.(pushes := out.pushes + 1);
        } else {
          out := out.(sent := out.sent + [SessionRetired(c.session)], pushes := out.pushes + 1);
        }
      }
      idx := idx.(sessionOrders := idx.sessionOrders - {c.session});
      egress := egress - {c.session};
      subscribers := subscribers - {c.session};
      PublishBook();
    }

    /** The dispatch on the command's type. */
    method Dispatch(c: Command)
      requires Valid()
      modifies this, engine, engine.book
      ensures Valid() && replaying == old(replaying) && Now() == Apply(cfg, old(Now()), c).state
      ensures !c.what.CancelAll? ==> out == EmitAll(old(Net()), old(out), Apply(cfg, old(Now()), c).events)
      ensures c.what.CancelAll? && c.session !in old(egress) ==> out == old(out)
      ensures c.what.CancelAll? && c.session in old(egress) ==>
                && out.overflowed == old(out).overflowed && out.pushes == old(out).pushes + 1
                && out.sent == old(out).sent + if full(old(out).pushes) then [] else [SessionRetired(c.session)]
      ensures egress == if c.what.SessionOpened? then old(egress) + {c.session}
                        else if c.what.CancelAll? then old(egress) - {c.session} else old(egress)
      ensures subscribers == if c.what.Subscribe? then old(subscribers)[c.session := DepthFor(c.quantity)]
                             else if c.what.CancelAll? then old(subscribers) - {c.session} else old(subscribers)
      ensures bookSeq == old(bookSeq) +
                         if !replaying && subscribers != map[] && Publishes(cfg, old(Now()), c) then 1 else 0
    {
      hide Inv, ApplyNew, ApplyCancel, ApplyModify, ApplyCancelAll, EmitAll, OrderBook.Valid, OrderBook.Book;
      match c.what
      case SessionOpened =>
        EmitNone(Net(), out);
        egress := egress + {c.session};
      case Subscribe =>
        EmitOne(Net(), out, Ack(c.session, 0, 0, false));
        subscribers := subscribers[c.session := if c.quantity == 0 || c.quantity > 10 then 10 else c.quantity];
        Emit(Ack(c.session, 0, 0, false));
        PublishBook();
      case NewOrder => ApplyNewOrder(c);
      case CancelOrder => ApplyCancelOrder(c);
      case ModifyOrder => ApplyModifyOrder(c);
      case CancelAll =>
        CancelAllAnswers(cfg, Now(), c);
        ApplyCancelAllOf(c);
    }

    /** One command, live or replayed: the state moves exactly as Apply says,
        whatever the queues do and whoever is connected.  Live, the events of every
        command but cancel-all are pushed in order; cancel-all pushes the tombstone,
        and a full queue loses it without a mark. */
    method ApplyCommand(c: Command)
      requires Valid()
      modifies this, engine, engine.book
      ensures Valid() && replaying == old(replaying) && Now() == Apply(cfg, old(Now()), c).state
      ensures replaying && old(egress) == {} && !c.what.SessionOpened? ==> out == old(out)
      ensures !c.what.CancelAll? ==> out == EmitAll(old(Net()), old(out), Apply(cfg, old(Now()), c).events)
      ensures var due := Due(old(egress), Apply(cfg, old(Now()), c).events);
              !c.what.CancelAll? && !replaying && Room(full, old(out).pushes, |due|) ==>
                out.sent == old(out).sent + due && out.overflowed == old(out).overflowed
      ensures c.what.CancelAll? && c.session !in old(egress) ==> out == old(out)
      ensures c.what.CancelAll? && c.session in old(egress) ==>
                && out.overflowed == old(out).overflowed && out.pushes == old(out).pushes + 1
                && out.sent == old(out).sent + if full(old(out).pushes) then [] else [SessionRetired(c.session)]
      ensures egress == if c.what.SessionOpened? then old(egress) + {c.session}
                        else if c.what.CancelAll? then old(egress) - {c.session} else old(egress)
      ensures subscribers == if c.what.Subscribe? then old(subscribers)[c.session := DepthFor(c.quantity)]
                             else if c.what.CancelAll? then old(subscribers) - {c.session} else old(subscribers)
      ensures bookSeq == old(bookSeq) +
                         if !replaying && subscribers != map[] && Publishes(cfg, old(Now()), c) then 1 else 0
    {
      hide Inv, Apply, EmitAll, Due, Room, Publishes;
      ghost var es := Apply(cfg, Now(), c).events;
      if !replaying && Room(full, out.pushes, |Due(egress, es)|) {
        EmitWithRoom(Net(), out, es);
      }
      SilentReplay(Net(), out, es);
      Dispatch(c);
    }

    /** A live run over any mix of commands reaches the state of replaying only
        the logged ones. */
    method RunLive(cs: seq<Command>)
      requires Valid()
      modifies this, engine, engine.book
      ensures Valid() && Now() == Run(cfg, old(Now()), Loggable(cs))
    {
      hide Inv, Apply;
      LiveEqualsReplay(cfg, Now(), cs);
      var i := 0;
      assert cs[0..] == cs;
      while i < |cs|
        invariant Valid() && i <= |cs|
        invariant Run(cfg, Now(), cs[i..]) == Run(cfg, old(Now()), cs)
      {
        assert cs[i..][1..] == cs[i+1..];
        ApplyCommand(cs[i]);
        i := i + 1;
      }
      assert cs[i..] == [];
    }

    /** recover: replays a log before start, telling nobody. */
    method Recover(cs: seq<Command>)
      requires Valid() && egress == {} && Loggable(cs) == cs
      modifies this, engine, engine.book
      ensures Valid() && Now() == Run(cfg, old(Now()), cs) && out == old(out) && !replaying
    {
      hide Inv, Apply;
      replaying := true;
      var i := 0;
      assert cs[0..] == cs;
      while i < |cs|
        invariant Valid() && i <= |cs| && replaying && egress == {} && out == old(out)
        invariant Loggable(cs[i..]) == cs[i..]
        invariant Run(cfg, Now(), cs[i..]) == Run(cfg, old(Now()), cs)
      {
        assert cs[i..][1..] == cs[i+1..];
        LoggableTail(cs[i..]);
        ApplyCommand(cs[i]);
        i := i + 1;
      }
      assert cs[i..] == [];
      replaying := false;
      engine.ClearTradeLog();
    }

    /** Reads the book in book order and attaches owner and client id. */
    method ExportSnapshot(lastSeq: nat) returns (d: SnapshotData)
      requires Valid()
      ensures d == Export(Now(), lastSeq)
    {
      hide Inv;
      var os := engine.book.AllOrders();
      var out: seq<SnapshotOrder> := [];
      var i := 0;
      assert os[0..] == os;
      while i < |os|
        invariant i <= |os|
        invariant out + SnapAll(idx, os[i..]) == SnapAll(idx, os)
      {
        assert os[i..][1..] == os[i+1..];
        assert out + ([SnapOf(idx, os[i])] + SnapAll(idx, os[i+1..]))
            == out + [SnapOf(idx, os[i])] + SnapAll(idx, os[i+1..]);
        out := out + [SnapOf(idx, os[i])];
        i := i + 1;
      }
      assert out + [] == out;
      SnapAllAppend(idx, engine.book.Book().bids, engine.book.Book().asks);
      d := SnapshotData(lastSeq, lastTrade, nextId, out);
    }

    /** Rebuilds a fresh thread from a snapshot, one addOrder per order. */
    method RestoreSnapshot(d: SnapshotData)
      requires Valid() && Now() == Init && DistinctSnap(d.orders)
      modifies this`idx, this`lastTrade, this`nextId, this`clock, engine, engine.book
      ensures engine.Valid() && Now() == Restore(cfg, d)
      ensures Inv(cfg, Restore(cfg, d)) ==> Valid()
    {
      hide Inv, Register, Rest, OrderBook.Valid, OrderBook.Book;
      lastTrade, nextId := d.lastTrade, d.nextId;
      var i := 0;
      assert d.orders[0..] == d.orders;
      while i < |d.orders|
        invariant i <= |d.orders| && engine.Valid() && engine.tradeLog == []
        invariant DistinctSnap(d.orders[i..]) && SnapIds(d.orders[i..]) !! AllIds(engine.book.Book())
        invariant AddAll(cfg, Now(), d.orders[i..]) == Restore(cfg, d)
      {
        var so := d.orders[i];
        assert d.orders[i..][1..] == d.orders[i+1..];
        BookOkOf(engine.book);
        RestOk(engine.book.Book(), OrderOf(so));
        engine.book.AddOrder(OrderOf(so));
        RegisterOrder(so.id, EntryOf(so));
        if so.timestamp > clock {
          clock := so.timestamp;
        }
        i := i + 1;
      }
      assert d.orders[i..] == [];
    }
  }

  lemma BookOkOf(b: OrderBook)
    requires b.Valid()
    ensures BookOk(b.Book())
  {
  }

  /** A restart from a snapshot: a new thread restored from what the old one
      exports, then fed the commands logged since, stands where the old thread
      would had it gone on. */
  method Restart(t: MatchingThread, lastSeq: nat, tail: seq<Command>) returns (r: MatchingThread)
    requires t.Valid() && Exportable(t.cfg, t.Now()) && Loggable(tail) == tail
    ensures r.Valid() && r.cfg == t.cfg && r.out.sent == [] && Similar(r.Now(), Run(t.cfg, t.Now(), tail))
  {
    hide Inv, Run, Restore, Export, Similar, Exportable, Loggable, DistinctSnap;
    ghost var s := t.Now();
    BookOkOf(t.engine.book);
    ExportDistinct(s, lastSeq);
    RestoreExactly(t.cfg, s, lastSeq);
    RunSimilar(t.cfg, Restore(t.cfg, Export(s, lastSeq)), s, tail);
    var d := t.ExportSnapshot(lastSeq);
    r := new MatchingThread(t.cfg, t.full);
    r.RestoreSnapshot(d);
    r.Recover(tail);
  }

  lemma {:induction false} SnapAllAppend(idx: Index, a: seq<Order>, b: seq<Order>)
    ensures SnapAll(idx, a + b) == SnapAll(idx, a) + SnapAll(idx, b)
  {
    hide SnapOf;
    if a == [] {
      assert a + b == b;
    } else {
      assert (a + b)[1..] == a[1..] + b;
      SnapAllAppend(idx, a[1..], b);
    }
  }

  lemma LoggableTail(cs: seq<Command>)
    requires cs != [] && Loggable(cs) == cs
    ensures IsLoggable(cs[0].what) && Loggable(cs[1..]) == cs[1..]
  {
    LoggableLength(cs[1..]);
    if IsLoggable(cs[0].what) {
      assert ([cs[0]] + Loggable(cs[1..]))[1..] == Loggable(cs[1..]);
    }
  }

  lemma {:induction false} LoggableLength(cs: seq<Command>)
    ensures |Loggable(cs)| <= |cs|
  {
    if cs != [] {
      LoggableLength(cs[1..]);
    }
  }

  /** Nothing is emitted while replaying. */
  lemma {:induction false} SilentReplay(x: Outside, out: Outbox, es: seq<Event>)
    ensures x.replaying ==> EmitAll(x, out, es) == out
    decreases es
  {
    if es != [] {
      SilentReplay(x, Emitted(x, out, es[0]), es[1..]);
    }
  }

  lemma DropAbsent(f: Flat, id: nat)
    ensures id !in AllIds(f) ==> Drop(f, {id}) == f
  {
    if id !in AllIds(f) {
      KeepNone(f.bids, {id});
      KeepNone(f.asks, {id});
    }
  }

  /** On the thread's books processOrder does what Execute says, and the next id is free. */
  lemma NewOrderReady(cfg: Config, s: State, c: Command)
    requires Inv(cfg, s) && CheckRisk(cfg, s, c) == NoReason
    ensures var o := OrderFor(s, c);
            && o.id !in AllIds(s.book)
            && Process(s.book, o).book == Execute(s.book, o).book
            && Process(s.book, o).trades == Execute(s.book, o).trades
  {
    hide BookOk, Good;
    var o := OrderFor(s, c);
    if !c.market {
      ProcessLimitIsGreedy(s.book, o);
    }
  }

  lemma EmitNone(x: Outside, out: Outbox)
    ensures EmitAll(x, out, []) == out
  {
  }

  /** Routing what is left of the log completes the publication p. */
  ghost predicate Routed(cfg: Config, idx: Index, sent: seq<Event>, left: seq<Trade>, p: Published) {
    var r := PublishTrades(cfg, idx, left);
    r.idx == p.idx && sent + r.events == p.events
  }

  lemma RoutedStep(cfg: Config, idx: Index, sent: seq<Event>, left: seq<Trade>, p: Published)
    requires Routed(cfg, idx, sent, left, p) && left != []
    ensures var b := RouteFill(cfg, idx, left[0].buyer, left[0]);
            var s := RouteFill(cfg, b.idx, left[0].seller, left[0]);
            Routed(cfg, s.idx, sent + b.events + s.events, left[1..], p)
  {
    hide RouteFill;
    var b := RouteFill(cfg, idx, left[0].buyer, left[0]);
    var s := RouteFill(cfg, b.idx, left[0].seller, left[0]);
    var r := PublishTrades(cfg, s.idx, left[1..]);
    assert sent + (b.events + s.events + r.events) == sent + b.events + s.events + r.events;
  }

  lemma RoutedEnd(cfg: Config, idx: Index, sent: seq<Event>, p: Published)
    ensures Routed(cfg, idx, sent, [], p) ==> p == Published(idx, sent)
  {
    assert sent + [] == sent;
  }
}
