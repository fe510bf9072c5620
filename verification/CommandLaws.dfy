/** What each command means to the client who sends it, stated on the command's own
    fields (include/ome/matching_thread.hpp). */
module CommandLaws {
  import opened Orders
  import opened FlatBook
  import opened ThreadSpec
  import opened Ownership
  import opened Invariant

  // ----- the risk gate ------------------------------------------------------

  /** The last trade's price once there has been a trade; before that, the middle
      of a two-sided book rounded toward zero; otherwise there is none. */
  lemma ReferenceIs(s: State)
    ensures s.lastTrade > 0 ==> Reference(s) == Some(s.lastTrade)
    ensures s.lastTrade <= 0 && (s.book.bids == [] || s.book.asks == []) ==> Reference(s) == None
    ensures s.lastTrade <= 0 && s.book.bids != [] && s.book.asks != [] ==>
              var sum := s.book.bids[0].price + s.book.asks[0].price;
              && Reference(s).Some? && -1 <= sum - 2 * Reference(s).value <= 1
              && (sum >= 0 ==> 2 * Reference(s).value <= sum) && (sum <= 0 ==> sum <= 2 * Reference(s).value)
  {
  }

  /** The price is on the grid. */
  predicate OnTick(cfg: Config, price: int) {
    cfg.tick <= 1 || price % cfg.tick == 0
  }

  /** The price is no further from the reference, above or below, than the band
      allows, in hundredths of a percent of the reference. */
  predicate InBand(cfg: Config, s: State, price: int) {
    var r := Reference(s);
    cfg.bandBp <= 0 || r.None? || -r.value * cfg.bandBp <= (price - r.value) * 10000 <= r.value * cfg.bandBp
  }

  lemma BandIs(cfg: Config, price: int, r: int)
    ensures !OutsideBand(cfg, price, r) <==> -r * cfg.bandBp <= (price - r) * 10000 <= r * cfg.bandBp
  {
    assert -r * cfg.bandBp == -(r * cfg.bandBp);
  }

  /** What passes, and what each refusal means. */
  lemma RiskGate(cfg: Config, s: State, c: Command)
    ensures CheckRisk(cfg, s, c) == NoReason <==>
              && 0 < c.quantity <= cfg.maxQty
              && (c.market || (c.price > 0 && OnTick(cfg, c.price) && InBand(cfg, s, c.price)))
    ensures var sized := 0 < c.quantity <= cfg.maxQty;
            match CheckRisk(cfg, s, c)
            case NoReason => sized
            case InvalidQty => c.quantity == 0
            case RiskMaxOrderSize => c.quantity > cfg.maxQty && c.quantity > 0
            case InvalidPrice => sized && !c.market && (c.price <= 0 || !OnTick(cfg, c.price))
            case RiskPriceBand =>
              sized && !c.market && c.price > 0 && OnTick(cfg, c.price) && !InBand(cfg, s, c.price)
            case UnknownOrder => false
  {
    hide Reference, OutsideBand;
    var r := Reference(s);
    if r.Some? {
      BandIs(cfg, c.price, r.value);
    }
  }

  // ----- new orders ---------------------------------------------------------

  /** A refused order changes nothing and is told why. */
  lemma NewRefused(cfg: Config, s: State, c: Command)
    requires c.what.NewOrder? && CheckRisk(cfg, s, c) != NoReason
    ensures Apply(cfg, s, c) == Step(s, [Reject(c.session, c.clientId, CheckRisk(cfg, s, c))], [])
  {
  }

  /** An accepted limit order that reaches nothing rests whole, at its own price
      and side, and its owner is told the exchange id. */
  lemma NewRests(cfg: Config, s: State, c: Command)
    requires c.what.NewOrder? && !c.market && CheckRisk(cfg, s, c) == NoReason
    requires var opp := s.book.Of(c.side.Opposite());
             opp == [] || (if c.side.Bid? then c.price < opp[0].price else opp[0].price < c.price)
    ensures var r := Apply(cfg, s, c);
            && r.trades == [] && r.events == [Ack(c.session, c.clientId, s.nextId, false)]
            && r.state.book == Rest(s.book, Order(s.nextId, c.price, c.quantity, c.side, Limit, s.clock + 1))
            && r.state.nextId == s.nextId + 1 && r.state.lastTrade == s.lastTrade
            && s.nextId in r.state.idx.owner && r.state.idx.owner[s.nextId] == c.session
            && s.nextId in r.state.idx.clientOf && r.state.idx.clientOf[s.nextId] == c.clientId
  {
    hide CheckRisk;
    var o := OrderFor(s, c);
    assert Execute(s.book, o).trades == [];
    assert o.(quantity := o.quantity) == o;
    assert c.quantity > 0 by { QuantityOf(cfg, s, c); }
  }

  lemma QuantityOf(cfg: Config, s: State, c: Command)
    requires CheckRisk(cfg, s, c) == NoReason
    ensures c.quantity > 0
  {
  }

  // ----- cancels and modifies -----------------------------------------------

  /** The order a client means: the one its key names, if it rests. */
  predicate Known(cfg: Config, s: State, c: Command) {
    var id := FindOrder(cfg, s.idx, c.session, c.clientId);
    id != 0 && id in AllIds(s.book)
  }

  /** A cancel of a known order takes that order out of the book and is answered
      with its exchange id, which closes it; any other is refused. */
  lemma CancelAnswers(cfg: Config, s: State, c: Command)
    requires Inv(cfg, s) && c.what.CancelOrder?
    ensures var r := Apply(cfg, s, c); var id := FindOrder(cfg, s.idx, c.session, c.clientId);
            && r.trades == []
            && (Known(cfg, s, c) ==>
                  && r.events == [Ack(c.session, c.clientId, id, true)]
                  && AllIds(r.state.book) == AllIds(s.book) - {id})
            && (!Known(cfg, s, c) ==> r.state == s && r.events == [Reject(c.session, c.clientId, UnknownOrder)])
  {
    hide Inv, Drop, Forget;
    var id := FindOrder(cfg, s.idx, c.session, c.clientId);
    RemovedKeepsInv(cfg, s, id);
  }

  /** A modify of a known order is its cancel followed by a new limit order with
      the modify's price and quantity on the old order's side, of which the client
      sees the second answer only; any other is refused. */
  lemma ModifyIsCancelThenNew(cfg: Config, s: State, c: Command, side: Side)
    requires Inv(cfg, s) && c.what.ModifyOrder?
    requires Known(cfg, s, c) ==> FindOrder(cfg, s.idx, c.session, c.clientId) in Ids(s.book.Of(side))
    ensures var cancelled := Apply(cfg, s, c.(what := CancelOrder));
            var entered := Command(NewOrder, c.session, c.clientId, c.price, c.quantity, side, false);
            && (Known(cfg, s, c) ==> Apply(cfg, s, c) == Apply(cfg, cancelled.state, entered))
            && (!Known(cfg, s, c) ==>
                  Apply(cfg, s, c) == Step(s, [Reject(c.session, c.clientId, UnknownOrder)], []))
  {
    if Known(cfg, s, c) {
      var id := FindOrder(cfg, s.idx, c.session, c.clientId);
      ListedSides(s.idx.remaining, s.idx.sideOf, side, s.book.Of(side), id);
    }
    hide Inv, Drop, Forget, ApplyNew;
  }

  /** A subscription changes no book and no map and is acknowledged as such; opening
      a session changes neither and is not answered. */
  lemma Unlogged(cfg: Config, s: State, c: Command)
    ensures c.what.Subscribe? ==> Apply(cfg, s, c) == Step(s, [Ack(c.session, 0, 0, false)], [])
    ensures c.what.SessionOpened? ==> Apply(cfg, s, c) == Step(s, [], [])
  {
  }

  // ----- what must be logged ------------------------------------------------

  const Enter := Command(NewOrder, 1, 5, 100, 1, Bid, false)

  lemma EnterRests()
    ensures var s := Apply(Demo, Init, Enter).state;
            && Inv(Demo, s) && AllIds(s.book) == {1} && FindOrder(Demo, s.idx, 1, 5) == 1
            && Held(s.idx, 1) == {1}
  {
    InitInv(Demo);
    ApplyKeepsInv(Demo, Init, Enter);
    assert CheckRisk(Demo, Init, Enter) == NoReason;
    assert Execute(Init.book, OrderFor(Init, Enter)).trades == [];
    var s := Apply(Demo, Init, Enter).state;
    assert s.book.bids == [Order(1, 100, 1, Bid, Limit, 1)] && s.book.asks == [];
    assert s.book.bids[1..] == [];
  }

  /** Some command of the kind changes some reachable state. */
  ghost predicate Mutates(t: CommandType) {
    exists cfg: Config, s: State, c: Command :: Inv(cfg, s) && c.what == t && Apply(cfg, s, c).state != s
  }

  /** A kind of command is logged exactly if it can change the state. */
  lemma LoggedExactly(t: CommandType)
    ensures IsLoggable(t) <==> Mutates(t)
  {
    hide Inv;
    EnterRests();
    InitInv(Demo);
    var s := Apply(Demo, Init, Enter).state;
    var c := Enter.(what := t);
    if t.NewOrder? {
      assert Apply(Demo, Init, c).state != Init;
    } else if IsLoggable(t) {
      EntersAndGoes(s, c);
      assert Apply(Demo, s, c).state != s;
    }
  }

  lemma EntersAndGoes(s: State, c: Command)
    requires Inv(Demo, s) && AllIds(s.book) == {1} && FindOrder(Demo, s.idx, 1, 5) == 1 && Held(s.idx, 1) == {1}
    requires c == Enter.(what := c.what) && (c.what.CancelOrder? || c.what.ModifyOrder? || c.what.CancelAll?)
    ensures Apply(Demo, s, c).state != s
  {
    if c.what.CancelAll? {
      CancelAllKeepsInv(Demo, s, c);
      DropOk(s.book, {1});
    } else {
      RemovedKeepsInv(Demo, s, 1);
      hide Inv, Drop, Forget, PublishTrades, Execute, Register;
    }
  }
}
