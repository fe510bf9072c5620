/** The independent verifier's book (tools/wal_verify.cpp): price-keyed maps of
    queues, no cached totals, its own crossing loop and its own scans.  Its
    methods refine VerifierSpec, hence the matching thread on clean streams. */
module SimpleBooks {
  import opened Orders
  import opened FlatBook
  import opened Levels
  import opened Digests
  import opened ThreadSpec
  import opened Ownership
  import opened Invariant
  import opened PriceQueues
  import opened VerifierSpec

  // ----- map primitives -----------------------------------------------------

  lemma SomeKey(m: Queues)
    requires m != map[]
    ensures exists p :: p in m
  {
    assert (forall p :: p !in m) ==> m == map[];
  }

  lemma RemoveKey(m: Queues, p: int)
    requires p in m
    ensures |m| == |m - {p}| + 1
  {
    assert (m - {p}).Keys == m.Keys - {p};
    assert |m.Keys| == |m| && |(m - {p}).Keys| == |m - {p}|;
  }

  /** begin() of a price map ordered best first. */
  method BestOf(m: Queues, side: Side) returns (p: int)
    requires m != map[]
    ensures p in m && forall q :: q in m ==> !Better(side, q, p)
  {
    SomeKey(m);
    p :| p in m;
    var todo := m - {p};
    while todo != map[]
      invariant p in m && todo.Keys <= m.Keys
      invariant forall q :: q in m && q !in todo ==> !Better(side, q, p)
      decreases |todo|
    {
      SomeKey(todo);
      var q :| q in todo;
      RemoveKey(todo, q);
      todo := todo - {q};
      if Better(side, q, p) {
        p := q;
      }
    }
  }

  lemma BestIsHead(owners: Names, clients: Names, side: Side, s: seq<Order>, p: int)
    requires SideOk(side, s) && s != []
    requires p in ToQueues(owners, clients, s) &&
             forall q :: q in ToQueues(owners, clients, s) ==> !Better(side, q, p)
    ensures p == s[0].price
  {
    BestKey(owners, clients, side, s);
  }

  lemma EmptyQueues(owners: Names, clients: Names, s: seq<Order>)
    ensures ToQueues(owners, clients, s) == map[] <==> s == []
  {
    if s != [] {
      assert s[0].price in ToQueues(owners, clients, s);
    }
  }

  /** Takes q units from the front order of the queue at p; an exhausted order
      is popped and an empty queue erased. */
  method TakeFrom(m: Queues, p: int, q: nat) returns (r: Queues, popped: bool)
    requires p in m && m[p] != [] && q <= m[p][0].quantity
    ensures r == PopBest(m, p, q) && (popped <==> q == m[p][0].quantity)
  {
    var front := m[p][0].(quantity := m[p][0].quantity - q);
    r := m[p := [front] + m[p][1..]];
    popped := front.quantity == 0;
    if popped {
      var rest := r[p][1..];
      assert rest == m[p][1..];
      r := if rest == [] then r - {p} else r[p := rest];
    }
  }

  /** erase_from: takes the first entry with that id out of the queue at px. */
  method EraseFrom(m: Queues, px: int, id: nat) returns (r: Queues, found: bool)
    requires forall p :: p in m ==> m[p] != []
    ensures found <==> HasV(QueueAt(m, px), id)
    ensures r == if found then Erased(m, px, id) else m
  {
    if px !in m {
      return m, false;
    }
    var q := m[px];
    var i := 0;
    assert q[0..] == q && q[..0] + RemoveV(q, id) == RemoveV(q, id);
    while i < |q|
      invariant i <= |q|
      invariant HasV(q[i..], id) <==> HasV(q, id)
      invariant q[..i] + RemoveV(q[i..], id) == RemoveV(q, id)
    {
      assert q[i..][1..] == q[i+1..];
      if q[i].id == id {
        var left := q[..i] + q[i+1..];
        r := if left == [] then m - {px} else m[px := left];
        return r, true;
      }
      assert q[..i] + ([q[i]] + RemoveV(q[i+1..], id)) == q[..i+1] + RemoveV(q[i+1..], id);
      i := i + 1;
    }
    return m, false;
  }

  method Smallest(s: set<nat>) returns (m: nat)
    requires s != {}
    ensures IsLeast(s, m)
  {
    var todo := s;
    m :| m in todo;
    todo := todo - {m};
    while todo != {}
      invariant m in s && todo <= s
      invariant forall y :: y in s && y !in todo ==> m <= y
      decreases |todo|
    {
      var y :| y in todo;
      todo := todo - {y};
      if y < m {
        m := y;
      }
    }
  }

  // ----- the loops on views -------------------------------------------------

  /** One turn of cross(). */
  function Crossed1(v: View): View
    requires IsCrossed(v.book)
  {
    var g := TopCross(v.book);
    v.(book := g, lastTrade := v.book.asks[0].price, known := v.known - (AllIds(v.book) - AllIds(g)))
  }

  function VCross(v: View): View
    decreases |v.book.bids| + |v.book.asks|
  {
    if !IsCrossed(v.book) then v else VCross(Crossed1(v))
  }

  lemma LastPriceCons(before: int, t: Trade, ts: seq<Trade>)
    ensures LastPrice(before, [t] + ts) == LastPrice(t.price, ts)
  {
  }

  /** The loop's effect in closed form. */
  lemma {:induction false} VCrossIs(v: View)
    requires BookOk(v.book)
    ensures var x := CrossAll(v.book);
            VCross(v) == v.(book := x.book, lastTrade := LastPrice(v.lastTrade, x.trades),
                            known := v.known - (AllIds(v.book) - AllIds(x.book)))
    decreases |v.book.bids| + |v.book.asks|
  {
    if IsCrossed(v.book) {
      var w := Crossed1(v);
      TopCrossOk(v.book);
      VCrossIs(w);
      CrossAllIds(TopCross(v.book));
      hide BookOk, TopCross;
      LastPriceCons(v.lastTrade, TopTrade(v.book), CrossAll(w.book).trades);
      var a, b, c := AllIds(v.book), AllIds(w.book), AllIds(CrossAll(w.book).book);
      assert c <= b <= a;
      assert v.known - (a - b) - (b - c) == v.known - (a - c);
    }
  }

  /** One turn of the market loop against `side`. */
  function Swept1(v: View, side: Side, q: nat): View
    requires v.book.Of(side) != [] && q <= v.book.Of(side)[0].quantity
  {
    v.(book := Filled(v.book, side, q), lastTrade := v.book.Of(side)[0].price)
  }

  function VSweep(v: View, side: Side, left: nat): View
    decreases |v.book.Of(side)|, left
  {
    if left == 0 || v.book.Of(side) == [] then v
    else
      var q := Min(left, v.book.Of(side)[0].quantity);
      VSweep(Swept1(v, side, q), side, left - q)
  }

  lemma {:induction false} VSweepIs(v: View, o: Order, left: nat)
    requires o.kind.Market?
    ensures var side := o.side.Opposite(); var m := Greedy(o, left, v.book.Of(side));
            VSweep(v, side, left) == v.(book := Flat.Make(o.side, v.book.Of(o.side), m.opp),
                                        lastTrade := LastPrice(v.lastTrade, m.trades))
    decreases |v.book.Of(o.side.Opposite())|, left
  {
    var side := o.side.Opposite();
    var opp := v.book.Of(side);
    if left > 0 && opp != [] {
      var q := Min(left, opp[0].quantity);
      GreedyStep(o, left, opp);
      VSweepIs(Swept1(v, side, q), o, left - q);
      LastPriceCons(v.lastTrade, TradeOf(o, opp[0], q), Greedy(o, left - q, Consume(opp, q)).trades);
    }
  }

  // ----- the digest of a side -----------------------------------------------

  function SumV(q: seq<VOrder>): nat {
    if q == [] then 0 else q[0].quantity + SumV(q[1..])
  }

  method TotalOf(q: seq<VOrder>) returns (total: nat)
    ensures total == SumV(q)
  {
    total := 0;
    var i := 0;
    while i < |q|
      invariant i <= |q| && total + SumV(q[i..]) == SumV(q)
    {
      assert q[i..][1..] == q[i+1..];
      total := total + q[i].quantity;
      i := i + 1;
    }
  }

  /** The queue at a price shows that price's total and count. */
  lemma {:induction false} QueueDepth(owners: Names, clients: Names, s: seq<Order>, p: int)
    ensures var q := QueueAt(ToQueues(owners, clients, s), p); SumV(q) == QtyAt(s, p) && |q| == CountAt(s, p)
  {
    if s != [] {
      QueueDepth(owners, clients, s[1..], p);
      if s[0].price == p {
        var t := QueueAt(ToQueues(owners, clients, s[1..]), p);
        assert ([Entry(owners, clients, s[0])] + t)[1..] == t;
      }
    }
  }

  lemma PushedWithout(m: Queues, q: int, e: VOrder, p: int)
    ensures Pushed(m, q, e) - {p} == if q == p then m - {p} else Pushed(m - {p}, q, e)
  {
  }

  lemma {:induction false} QueuesWithout(owners: Names, clients: Names, s: seq<Order>, p: int)
    ensures ToQueues(owners, clients, Without(s, p)) == ToQueues(owners, clients, s) - {p}
  {
    hide Pushed, Entry;
    if s != [] {
      QueuesWithout(owners, clients, s[1..], p);
      PushedWithout(ToQueues(owners, clients, s[1..]), s[0].price, Entry(owners, clients, s[0]), p);
      if s[0].price != p {
        assert ([s[0]] + Without(s[1..], p))[1..] == Without(s[1..], p);
      }
    }
  }

  lemma {:induction false} WithoutOk(side: Side, s: seq<Order>, p: int)
    requires SideOk(side, s)
    ensures SideOk(side, Without(s, p)) && Ids(Without(s, p)) <= Ids(s)
    ensures s != [] && Without(s, p) != [] ==> !Better(side, Without(s, p)[0].price, s[0].price)
  {
    if s != [] {
      WithoutOk(side, s[1..], p);
      if s[0].price != p {
        assert ([s[0]] + Without(s[1..], p))[1..] == Without(s[1..], p);
      }
    }
  }

  /** One entry of the map per level. */
  lemma {:induction false} QueueCount(owners: Names, clients: Names, side: Side, s: seq<Order>)
    requires SideOk(side, s)
    ensures |ToQueues(owners, clients, s)| == |Depths(s)|
    decreases |s|
  {
    if s != [] {
      var p := s[0].price;
      WithoutOk(side, s, p);
      QueueCount(owners, clients, side, Without(s, p));
      QueuesWithout(owners, clients, s, p);
      var m := ToQueues(owners, clients, s);
      assert p in m && |m| == |m - {p}| + 1 by {
        RemoveKey(m, p);
      }
    }
  }

  lemma DepthsHead(owners: Names, clients: Names, side: Side, s: seq<Order>)
    requires SideOk(side, s) && s != []
    ensures var p := s[0].price; var q := QueueAt(ToQueues(owners, clients, s), p);
            && Depths(s) != [] && Depths(s)[0] == Depth(p, SumV(q), |q|) && Depths(s)[1..] == Depths(Without(s, p))
            && SideOk(side, Without(s, p))
            && ToQueues(owners, clients, Without(s, p)) == ToQueues(owners, clients, s) - {p}
  {
    QueueDepth(owners, clients, s, s[0].price);
    QueuesWithout(owners, clients, s, s[0].price);
    WithoutOk(side, s, s[0].price);
  }

  /** mix_side: the levels best first, whatever the map's internal order. */
  method DigestQueues(mix: (nat, int) -> nat, h0: nat, tag: int, m: Queues, side: Side,
                      ghost owners: Names, ghost clients: Names, ghost s: seq<Order>) returns (h: nat)
    requires SideOk(side, s) && m == ToQueues(owners, clients, s)
    ensures h == MixSide(mix, h0, tag, Depths(s))
  {
    assert Depths([]) == [];
    hide SideOk, ToQueues, Depths;
    QueueCount(owners, clients, side, s);
    h := mix(mix(h0, tag), |m|);
    var todo := m;
    ghost var rest := s;
    while todo != map[]
      invariant SideOk(side, rest) && todo == ToQueues(owners, clients, rest)
      invariant MixDepths(mix, h, Depths(rest)) == MixSide(mix, h0, tag, Depths(s))
      decreases |todo|
    {
      EmptyQueues(owners, clients, rest);
      var p := BestOf(todo, side);
      BestIsHead(owners, clients, side, rest, p);
      DepthsHead(owners, clients, side, rest);
      var total := TotalOf(todo[p]);
      h := mix(mix(mix(h, p), total), |todo[p]|);
      RemoveKey(todo, p);
      todo := todo - {p};
      rest := Without(rest, p);
    }
    EmptyQueues(owners, clients, rest);
  }

  // ----- collecting a session's orders --------------------------------------

  ghost predicate Carries(q: seq<VOrder>, session: nat, id: nat) {
    q != [] && ((q[0].session == session && q[0].id == id) || Carries(q[1..], session, id))
  }

  lemma CarriesCons(e: VOrder, q: seq<VOrder>, session: nat, id: nat)
    ensures Carries([e] + q, session, id) <==> (e.session == session && e.id == id) || Carries(q, session, id)
  {
    assert ([e] + q)[1..] == q;
  }

  /** The queues carry exactly the resting orders of the session. */
  lemma {:induction false} CarriedAt(owners: Names, clients: Names, s: seq<Order>, session: nat, id: nat, p: int)
    requires Distinct(s) && Ids(s) <= owners.Keys
    ensures Carries(QueueAt(ToQueues(owners, clients, s), p), session, id)
            <==> id in Ids(s) && p == PriceOf(s, id) && owners[id] == session
  {
    if s != [] {
      CarriedAt(owners, clients, s[1..], session, id, p);
      CarriesCons(Entry(owners, clients, s[0]), QueueAt(ToQueues(owners, clients, s[1..]), p), session, id);
    }
  }

  method CollectQueue(q: seq<VOrder>, session: nat) returns (ids: set<nat>)
    ensures forall id :: id in ids <==> Carries(q, session, id)
  {
    ids := {};
    var i := 0;
    while i < |q|
      invariant i <= |q|
      invariant forall id :: id in ids || Carries(q[i..], session, id) <==> Carries(q, session, id)
    {
      assert q[i..][1..] == q[i+1..];
      if q[i].session == session {
        ids := ids + {q[i].id};
      }
      i := i + 1;
    }
  }

  ghost predicate OnSide(m: Queues, session: nat, id: nat) {
    exists p :: p in m && Carries(m[p], session, id)
  }

  /** The ids a whole side carries for a session. */
  method Collect(m: Queues, session: nat) returns (ids: set<nat>)
    ensures forall id :: id in ids <==> OnSide(m, session, id)
  {
    ids := {};
    var todo := m;
    while todo != map[]
      invariant todo.Keys <= m.Keys
      invariant forall p :: p in todo ==> todo[p] == m[p]
      invariant forall id :: id in ids <==> exists p :: p in m && p !in todo && Carries(m[p], session, id)
      decreases |todo|
    {
      SomeKey(todo);
      var p :| p in todo;
      var q := CollectQueue(todo[p], session);
      RemoveKey(todo, p);
      ghost var before, was := todo, ids;
      todo := todo - {p};
      ids := ids + q;
      forall id
        ensures id in ids <==> exists x :: x in m && x !in todo && Carries(m[x], session, id)
      {
        assert id in q <==> Carries(m[p], session, id);
      }
    }
  }

  // ----- what the containers must hold for a view ---------------------------

  function SidesOf(loc: Locations): map<nat, Side> {
    map id | id in loc :: if loc[id].1 then Bid else Ask
  }

  ghost predicate Layout(v: View, bids: Queues, asks: Queues, loc: Locations) {
    && bids == ToQueues(v.owners, v.clients, v.book.bids) && asks == ToQueues(v.owners, v.clients, v.book.asks)
    && Located(loc, v.book.bids, true) && Located(loc, v.book.asks, false) && v.known == SidesOf(loc)
  }

  /** The view after resting one more order. */
  function VAdded(v: View, o: Order, session: nat, clientId: nat): View {
    v.(book := Rest(v.book, o), owners := v.owners[o.id := session], clients := v.clients[o.id := clientId],
       known := v.known[o.id := o.side])
  }

  lemma NamesFrame(v: View, id: nat, session: nat, clientId: nat)
    requires AllIds(v.book) <= v.owners.Keys && AllIds(v.book) <= v.clients.Keys && id !in AllIds(v.book)
    ensures var o, c := v.owners[id := session], v.clients[id := clientId];
            && ToQueues(o, c, v.book.bids) == ToQueues(v.owners, v.clients, v.book.bids)
            && ToQueues(o, c, v.book.asks) == ToQueues(v.owners, v.clients, v.book.asks)
  {
    var o, c := v.owners[id := session], v.clients[id := clientId];
    QueuesFrame(v.owners, v.clients, o, c, v.book.bids);
    QueuesFrame(v.owners, v.clients, o, c, v.book.asks);
  }

  lemma AddedLocated(loc: Locations, f: Flat, o: Order)
    requires Located(loc, f.bids, true) && Located(loc, f.asks, false) && o.id !in AllIds(f)
    ensures var l := loc[o.id := (o.price, o.side.Bid?)]; var g := Rest(f, o);
            Located(l, g.bids, true) && Located(l, g.asks, false)
  {
    LocatedInsert(loc, f.Of(o.side), o.side.Bid?, o.side, o);
    assert Located(loc[o.id := (o.price, o.side.Bid?)], f.Of(o.side.Opposite()), o.side.Opposite().Bid?);
  }

  lemma AddedLayout(v: View, bids: Queues, asks: Queues, loc: Locations, o: Order, session: nat, clientId: nat)
    requires Layout(v, bids, asks, loc) && BookOk(v.book) && o.id !in AllIds(v.book)
    requires AllIds(v.book) <= v.owners.Keys && AllIds(v.book) <= v.clients.Keys
    ensures var e := VOrder(o.id, session, clientId, o.quantity);
            Layout(VAdded(v, o, session, clientId),
                   if o.side.Bid? then Appended(bids, o.price, e) else bids,
                   if o.side.Bid? then asks else Appended(asks, o.price, e),
                   loc[o.id := (o.price, o.side.Bid?)])
  {
    hide ToQueues, Located, Appended;
    NamesFrame(v, o.id, session, clientId);
    AddedLocated(loc, v.book, o);
    QueuesInsert(v.owners[o.id := session], v.clients[o.id := clientId], o.side, v.book.Of(o.side), o);
    assert SidesOf(loc[o.id := (o.price, o.side.Bid?)]) == SidesOf(loc)[o.id := o.side];
  }

  lemma UnknownId(v: View, bids: Queues, asks: Queues, loc: Locations, id: nat)
    requires Layout(v, bids, asks, loc) && id !in loc
    ensures id !in AllIds(v.book)
  {
  }

  /** Where the location of an id points, the id is queued exactly if it rests. */
  lemma PointsAt(v: View, bids: Queues, asks: Queues, loc: Locations, id: nat)
    requires Layout(v, bids, asks, loc) && BookOk(v.book) && id in loc
    ensures var m := if loc[id].1 then bids else asks;
            (forall p :: p in m ==> m[p] != []) && (HasV(QueueAt(m, loc[id].0), id) <==> id in AllIds(v.book))
  {
    BookOkDistinct(v.book);
    var s := if loc[id].1 then v.book.bids else v.book.asks;
    QueuesNonEmpty(v.owners, v.clients, s);
    QueuedAt(v.owners, v.clients, s, id, loc[id].0);
  }

  lemma CancelLocated(loc: Locations, f: Flat, id: nat)
    requires Located(loc, f.bids, true) && Located(loc, f.asks, false) && BookOk(f)
    ensures Located(loc - {id}, Drop(f, {id}).bids, true) && Located(loc - {id}, Drop(f, {id}).asks, false)
  {
    LocatedKeep(loc, f.bids, true, Bid, {id});
    LocatedKeep(loc, f.asks, false, Ask, {id});
  }

  lemma CancelledLayout(v: View, bids: Queues, asks: Queues, loc: Locations, id: nat)
    requires Layout(v, bids, asks, loc) && BookOk(v.book) && id in AllIds(v.book) && id in loc
    ensures Layout(VDrop(v, {id}), if loc[id].1 then Erased(bids, loc[id].0, id) else bids,
                   if loc[id].1 then asks else Erased(asks, loc[id].0, id), loc - {id})
  {
    BookOkDistinct(v.book);
    assert loc[id] == if id in Ids(v.book.bids) then (PriceOf(v.book.bids, id), true)
                      else (PriceOf(v.book.asks, id), false);
    hide ToQueues, Located, BookOk, Erased;
    CancelLocated(loc, v.book, id);
    var own, opp := if loc[id].1 then v.book.bids else v.book.asks, if loc[id].1 then v.book.asks else v.book.bids;
    KeepNone(opp, {id});
    QueuesErase(v.owners, v.clients, own, id);
    assert SidesOf(loc - {id}) == SidesOf(loc) - {id};
  }

  /** The ids one turn of the crossing loop exhausts. */
  function Exhausted(f: Flat): set<nat>
    requires IsCrossed(f)
  {
    (if f.bids[0].quantity == TopQty(f) then {f.bids[0].id} else {}) +
    (if f.asks[0].quantity == TopQty(f) then {f.asks[0].id} else {})
  }

  lemma ExhaustedIs(f: Flat)
    requires BookOk(f) && IsCrossed(f)
    ensures AllIds(f) - AllIds(TopCross(f)) == Exhausted(f)
  {
    ConsumeOk(Bid, f.bids, TopQty(f));
    ConsumeOk(Ask, f.asks, TopQty(f));
  }

  lemma CrossLocated(loc: Locations, f: Flat)
    requires Located(loc, f.bids, true) && Located(loc, f.asks, false) && BookOk(f) && IsCrossed(f)
    ensures var g := TopCross(f); var l := loc - Exhausted(f); Located(l, g.bids, true) && Located(l, g.asks, false)
  {
    var q := TopQty(f);
    LocatedConsume(loc, f.bids, true, Bid, q);
    LocatedConsume(loc, f.asks, false, Ask, q);
    ConsumeOk(Bid, f.bids, q);
    ConsumeOk(Ask, f.asks, q);
    hide SideOk;
    var b := if f.bids[0].quantity == q then {f.bids[0].id} else {};
    var a := if f.asks[0].quantity == q then {f.asks[0].id} else {};
    LocatedOther(loc - b, Consume(f.bids, q), true, a);
    LocatedOther(loc - a, Consume(f.asks, q), false, b);
    assert loc - b - a == loc - Exhausted(f) == loc - a - b;
  }

  lemma CrossedLayout(v: View, bids: Queues, asks: Queues, loc: Locations, pb: int, pa: int)
    requires Layout(v, bids, asks, loc) && BookOk(v.book) && IsCrossed(v.book)
    requires pb == v.book.bids[0].price && pa == v.book.asks[0].price
    ensures var q := TopQty(v.book);
            && pb in bids && bids[pb] != [] && bids[pb][0].quantity == v.book.bids[0].quantity
            && pa in asks && asks[pa] != [] && asks[pa][0].quantity == v.book.asks[0].quantity
            && bids[pb][0].id == v.book.bids[0].id && asks[pa][0].id == v.book.asks[0].id
            && Layout(Crossed1(v), PopBest(bids, pb, q), PopBest(asks, pa, q), loc - Exhausted(v.book))
  {
    hide ToQueues, Located, BookOk, PopBest;
    var q := TopQty(v.book);
    QueuesConsume(v.owners, v.clients, v.book.bids, q);
    QueuesConsume(v.owners, v.clients, v.book.asks, q);
    CrossLocated(loc, v.book);
    ExhaustedIs(v.book);
    assert SidesOf(loc - Exhausted(v.book)) == SidesOf(loc) - Exhausted(v.book);
  }

  /** Taking from one side leaves every location as it was. */
  lemma SweptLayout(v: View, bids: Queues, asks: Queues, loc: Locations, side: Side, p: int, q: nat)
    requires Layout(v, bids, asks, loc) && BookOk(v.book)
    requires v.book.Of(side) != [] && p == v.book.Of(side)[0].price && q <= v.book.Of(side)[0].quantity
    ensures var m := if side.Bid? then bids else asks;
            && p in m && m[p] != [] && m[p][0].quantity == v.book.Of(side)[0].quantity
            && m[p][0].id == v.book.Of(side)[0].id
            && Layout(Swept1(v, side, q), if side.Bid? then PopBest(bids, p, q) else bids,
                      if side.Bid? then asks else PopBest(asks, p, q), loc)
  {
    QueuesConsume(v.owners, v.clients, v.book.Of(side), q);
    LocatedConsume(loc, v.book.Of(side), side.Bid?, side, q);
    hide ToQueues, Located, PopBest;
  }

  // ----- the book -----------------------------------------------------------

  class SimpleBook {
    var bids: Queues
    var asks: Queues
    var loc: Locations
    var owners: Names
    var clients: Names
    var lastTrade: int

    /** This object is in the state described by v. */
    ghost predicate Shows(v: View)
      reads this
    {
      owners == v.owners && clients == v.clients && lastTrade == v.lastTrade && Layout(v, bids, asks, loc)
    }

    constructor ()
      ensures Shows(Blank)
    {
      bids, asks, loc, owners, clients, lastTrade := map[], map[], map[], map[], map[], 0;
    }

    /** set_last_trade. */
    method SetLastTrade(p: int, ghost v: View)
      requires Shows(v)
      modifies this`lastTrade
      ensures forall n :: Shows(v.(lastTrade := p, nextId := n))
    {
      lastTrade := p;
    }

    /** Neither the counter nor the clock is the book's own. */
    lemma SameClock(v: View, clock: nat)
      requires Shows(v)
      ensures Shows(v.(clock := clock))
    {
    }

    /** set_owner, set_client_id and add. */
    method Add(price: int, side: Side, e: VOrder, ghost o: Order, ghost v: View)
      requires Shows(v) && BookOk(v.book) && e.id !in AllIds(v.book)
      requires AllIds(v.book) <= v.owners.Keys && AllIds(v.book) <= v.clients.Keys
      requires o == Order(e.id, price, e.quantity, side, Limit, o.timestamp)
      modifies this
      ensures Shows(VAdded(v, o, e.session, e.clientId))
    {
      hide Layout, BookOk;
      AddedLayout(v, bids, asks, loc, o, e.session, e.clientId);
      owners, clients := owners[e.id := e.session], clients[e.id := e.clientId];
      if side.Bid? {
        bids := bids[price := QueueAt(bids, price) + [e]];
      } else {
        asks := asks[price := QueueAt(asks, price) + [e]];
      }
      loc := loc[e.id := (price, side.Bid?)];
    }

    /** Succeeds exactly for resting orders; a stale location changes nothing. */
    method Cancel(id: nat, ghost v: View) returns (removed: bool)
      requires Shows(v) && BookOk(v.book)
      modifies this
      ensures Shows(VCancel(v, id)) && (removed <==> id in AllIds(v.book))
    {
      hide Layout, BookOk, VDrop;
      if id !in loc {
        UnknownId(v, bids, asks, loc, id);
        return false;
      }
      var (px, isBid) := loc[id];
      PointsAt(v, bids, asks, loc, id);
      if id in AllIds(v.book) {
        CancelledLayout(v, bids, asks, loc, id);
        DropFrame(v, {id});
      }
      if isBid {
        bids, removed := EraseFrom(bids, px, id);
      } else {
        asks, removed := EraseFrom(asks, px, id);
      }
      if removed {
        loc := loc - {id};
      }
    }

    /** One turn of cross(): the two front orders trade at the ask's price. */
    method CrossTop(pb: int, pa: int, ghost v: View)
      requires Shows(v) && BookOk(v.book) && IsCrossed(v.book)
      requires pb == v.book.bids[0].price && pa == v.book.asks[0].price
      modifies this
      ensures Shows(Crossed1(v))
    {
      hide Layout, BookOk, PopBest;
      CrossedLayout(v, bids, asks, loc, pb, pa);
      var b, a := bids[pb][0], asks[pa][0];
      var qty := Min(b.quantity, a.quantity);
      lastTrade := pa;
      var bidDone, askDone;
      bids, bidDone := TakeFrom(bids, pb, qty);
      if bidDone {
        loc := loc - {b.id};
      }
      asks, askDone := TakeFrom(asks, pa, qty);
      if askDone {
        loc := loc - {a.id};
      }
      assert loc == old(loc) - Exhausted(v.book);
    }

    method Cross(ghost v: View)
      requires Shows(v) && BookOk(v.book)
      modifies this
      ensures Shows(VCross(v))
    {
      hide Layout, BookOk, Crossed1, ToQueues;
      ghost var w := v;
      while bids != map[] && asks != map[]
        invariant Shows(w) && BookOk(w.book) && VCross(w) == VCross(v)
        decreases |w.book.bids| + |w.book.asks|
      {
        var pb := BestOf(bids, Bid);
        var pa := BestOf(asks, Ask);
        Heads(w, bids, asks, loc, pb, pa);
        if pb < pa {
          break;
        }
        CrossTop(pb, pa, w);
        Crossed1Ok(w);
        w := Crossed1(w);
      }
      Emptied(w, bids, asks, loc);
    }

    /** One turn of the market loop; the attempted cancel of an exhausted order
        finds nothing queued and leaves its location behind. */
    method TakeTop(side: Side, p: int, q: nat, ghost v: View)
      requires Shows(v) && BookOk(v.book) && v.book.Of(side) != []
      requires p == v.book.Of(side)[0].price && q <= v.book.Of(side)[0].quantity
      modifies this
      ensures Shows(Swept1(v, side, q))
    {
      hide Layout, BookOk, PopBest, Swept1;
      SweptLayout(v, bids, asks, loc, side, p, q);
      SweptOk(v, side, q);
      var id := if side.Bid? then bids[p][0].id else asks[p][0].id;
      lastTrade := p;
      var done;
      if side.Bid? {
        bids, done := TakeFrom(bids, p, q);
      } else {
        asks, done := TakeFrom(asks, p, q);
      }
      if done {
        var removed := Cancel(id, Swept1(v, side, q));
      }
    }

    method Sweep(side: Side, quantity: nat, ghost v: View)
      requires Shows(v) && BookOk(v.book)
      modifies this
      ensures Shows(VSweep(v, side, quantity))
    {
      hide Layout, BookOk, Swept1, SideOk;
      ghost var w := v;
      var remaining := quantity;
      while remaining > 0
        invariant Shows(w) && BookOk(w.book) && VSweep(w, side, remaining) == VSweep(v, side, quantity)
        decreases |w.book.Of(side)|, remaining
      {
        Emptied(w, bids, asks, loc);
        if (if side.Bid? then bids else asks) == map[] {
          break;
        }
        var p := BestOf(if side.Bid? then bids else asks, side);
        Front(w, bids, asks, loc, side, p);
        var front := (if side.Bid? then bids else asks)[p][0];
        var q := Min(remaining, front.quantity);
        TakeTop(side, p, q, w);
        SweptOk(w, side, q);
        SweptShorter(w, side, remaining);
        w := Swept1(w, side, q);
        remaining := remaining - q;
      }
    }

    /** find_by_client: the first known order of the session, in id order. */
    method FindByClient(session: nat, clientId: nat, ghost v: View) returns (found: nat)
      requires Shows(v)
      ensures found == Lookup(v, session, clientId)
    {
      assert v.known.Keys == loc.Keys;
      hide Layout;
      var todo := owners.Keys;
      while todo != {}
        invariant todo <= owners.Keys
        invariant forall x, y :: x in owners && x !in todo && y in todo ==> x < y
        invariant forall x :: x in Matches(v, session, clientId) ==> x in todo
        decreases |todo|
      {
        var id := Smallest(todo);
        todo := todo - {id};
        if owners[id] == session && id in clients && clients[id] == clientId && id in loc {
          assert IsLeast(Matches(v, session, clientId), id);
          return id;
        }
      }
      assert Matches(v, session, clientId) == {};
      found := 0;
    }

    /** passes_risk, written a second time on purpose. */
    method PassesRisk(cfg: Config, c: Command, ghost v: View) returns (ok: bool)
      requires Shows(v) && BookOk(v.book)
      ensures ok <==> CheckRisk(cfg, AsState(v), c) == NoReason
    {
      hide Layout, BookOk;
      if c.quantity == 0 || c.quantity > cfg.maxQty {
        return false;
      }
      if c.market {
        return true;
      }
      if c.price <= 0 {
        return false;
      }
      if cfg.tick > 1 && c.price % cfg.tick != 0 {
        return false;
      }
      if cfg.bandBp > 0 {
        var reference := lastTrade;
        if lastTrade <= 0 {
          Emptied(v, bids, asks, loc);
          if bids == map[] || asks == map[] {
            return true;
          }
          var bb := BestOf(bids, Bid);
          var ba := BestOf(asks, Ask);
          Heads(v, bids, asks, loc, bb, ba);
          reference := Half(bb + ba);
        }
        var distance := if c.price > reference then c.price - reference else reference - c.price;
        if distance * 10000 > reference * cfg.bandBp {
          return false;
        }
      }
      return true;
    }

    /** Gather the session's orders from both sides, then cancel them one by one. */
    method CancelSession(session: nat, ghost v: View)
      requires Shows(v) && VOk(v)
      modifies this
      ensures Shows(VDrop(v, RestingOf(v, session)))
    {
      hide Layout, VOk, VDrop, RestingOf, AllIds, BookOk, VCancel, OnSide;
      var b := Collect(bids, session);
      var a := Collect(asks, session);
      Collected(v, bids, asks, loc, session, b, a);
      DroppedNone(v);
      var ids := b + a;
      ghost var done := {};
      while ids != {}
        invariant done + ids == RestingOf(v, session) && ids <= AllIds(v.book)
        invariant Shows(VDrop(v, done)) && BookOk(VDrop(v, done).book)
        decreases |ids|
      {
        var id :| id in ids;
        var removed := Cancel(id, VDrop(v, done));
        DroppedOne(v, done, id);
        ids := ids - {id};
        done := done + {id};
      }
    }

    method ApplyNew(cfg: Config, c: Command, nextId: nat, ghost v: View) returns (next: nat)
      requires Shows(v) && VOk(v) && nextId == v.nextId
      modifies this
      ensures Shows(VNew(cfg, v, c)) && next == VNew(cfg, v, c).nextId
    {
      FreshId(v);
      hide Layout, VOk, CheckRisk;
      var ok := PassesRisk(cfg, c, v);
      if !ok {
        return nextId;
      }
      next := nextId + 1;
      if c.market {
        MarketNew(cfg, v, c);
        Sweep(c.side.Opposite(), c.quantity, v);
        SameLayout(VSweep(v, c.side.Opposite(), c.quantity), VNew(cfg, v, c), bids, asks, loc);
      } else {
        LimitNew(cfg, v, c);
        ghost var o := OrderFor(AsState(v), c);
        Add(c.price, c.side, VOrder(nextId, c.session, c.clientId, c.quantity), o, v);
        Cross(VAdded(v, o, c.session, c.clientId));
        SameLayout(VCross(VAdded(v, o, c.session, c.clientId)), VNew(cfg, v, c), bids, asks, loc);
      }
    }

    method Apply(cfg: Config, c: Command, nextId: nat, ghost v: View) returns (next: nat)
      requires Shows(v) && VOk(v) && nextId == v.nextId
      modifies this
      ensures Shows(VApply(cfg, v, c)) && next == VApply(cfg, v, c).nextId
    {
      FreshId(v);
      hide Layout, VOk, BookOk, VNew, VDrop, RestingOf;
      next := nextId;
      match c.what {
        case NewOrder => next := ApplyNew(cfg, c, nextId, v);
        case CancelOrder =>
          var id := FindByClient(c.session, c.clientId, v);
          if id != 0 {
            var removed := Cancel(id, v);
            DropFrame(v, {id});
          }
        case ModifyOrder =>
          var id := FindByClient(c.session, c.clientId, v);
          if id == 0 || id !in loc {
            KnownIsLoc(v, bids, asks, loc);
            return;
          }
          KnownIsLoc(v, bids, asks, loc);
          var side := if loc[id].1 then Bid else Ask;
          var removed := Cancel(id, v);
          VDropOk(v, {id});
          DropFrame(v, {id});
          next := ApplyNew(cfg, Replacement(c, side), nextId, VCancel(v, id));
        case CancelAll =>
          CancelSession(c.session, v);
          DropFrame(v, RestingOf(v, c.session));
        case SessionOpened =>
        case Subscribe =>
      }
    }

    method Digest(ghost v: View) returns (h: nat)
      requires Shows(v) && BookOk(v.book)
      ensures h == DigestOf(v.book)
    {
      hide Mix, ToQueues, SideOk, Located, SidesOf, MixSide, Depths;
      h := DigestQueues(Mix, FNV_OFFSET, 1, bids, Bid, v.owners, v.clients, v.book.bids);
      h := DigestQueues(Mix, h, 2, asks, Ask, v.owners, v.clients, v.book.asks);
    }
  }

  /** The verifier's main loop over a decoded log: the digest it prints is the
      engine's on every clean stream. */
  method Verify(cfg: Config, cs: seq<Command>) returns (h: nat)
    ensures h == DigestOf(VRun(cfg, Blank, cs).book)
    ensures CleanRun(cfg, Init, Blank, cs) || PlainRun(cfg, Init, cs) ==> h == DigestOf(Run(cfg, Init, cs).book)
  {
    hide VOk, VApply, DigestOf, SimpleBook.Shows, CleanRun, PlainRun;
    BlankOk();
    var book := new SimpleBook();
    var next := 1;
    var i := 0;
    ghost var v := Blank;
    while i < |cs|
      invariant i <= |cs| && book.Shows(v) && VOk(v) && next == v.nextId
      invariant VRun(cfg, v, cs[i..]) == VRun(cfg, Blank, cs)
    {
      assert cs[i..][1..] == cs[i+1..];
      next := book.Apply(cfg, cs[i], next, v);
      VApplyOk(cfg, v, cs[i]);
      v := VApply(cfg, v, cs[i]);
      i := i + 1;
    }
    FreshId(v);
    h := book.Digest(v);
    if CleanRun(cfg, Init, Blank, cs) || PlainRun(cfg, Init, cs) {
      DigestsAgree(cfg, cs);
    }
  }

  lemma FreshId(v: View)
    requires VOk(v)
    ensures BookOk(v.book) && v.nextId !in AllIds(v.book)
    ensures AllIds(v.book) <= v.owners.Keys && AllIds(v.book) <= v.clients.Keys
  {
  }

  lemma DropFrame(v: View, ids: set<nat>)
    ensures var w := VDrop(v, ids);
            w.owners == v.owners && w.clients == v.clients && w.lastTrade == v.lastTrade && w.nextId == v.nextId
  {
  }

  lemma Heads(v: View, bids: Queues, asks: Queues, loc: Locations, pb: int, pa: int)
    requires Layout(v, bids, asks, loc) && BookOk(v.book)
    requires pb in bids && forall q :: q in bids ==> !Better(Bid, q, pb)
    requires pa in asks && forall q :: q in asks ==> !Better(Ask, q, pa)
    ensures v.book.bids != [] && v.book.asks != [] && pb == v.book.bids[0].price && pa == v.book.asks[0].price
  {
    BestIsHead(v.owners, v.clients, Bid, v.book.bids, pb);
    BestIsHead(v.owners, v.clients, Ask, v.book.asks, pa);
  }

  lemma Crossed1Ok(v: View)
    requires BookOk(v.book) && IsCrossed(v.book)
    ensures BookOk(Crossed1(v).book) && VCross(Crossed1(v)) == VCross(v)
    ensures |Crossed1(v).book.bids| + |Crossed1(v).book.asks| < |v.book.bids| + |v.book.asks|
  {
    TopCrossOk(v.book);
  }

  lemma Emptied(v: View, bids: Queues, asks: Queues, loc: Locations)
    requires Layout(v, bids, asks, loc)
    ensures bids == map[] <==> v.book.bids == []
    ensures asks == map[] <==> v.book.asks == []
  {
    EmptyQueues(v.owners, v.clients, v.book.bids);
    EmptyQueues(v.owners, v.clients, v.book.asks);
  }

  lemma SweptOk(v: View, side: Side, q: nat)
    requires BookOk(v.book) && v.book.Of(side) != [] && q <= v.book.Of(side)[0].quantity
    ensures var w := Swept1(v, side, q);
            && BookOk(w.book) && w.owners == v.owners && w.clients == v.clients
            && w.lastTrade == v.book.Of(side)[0].price
            && (q == v.book.Of(side)[0].quantity ==> v.book.Of(side)[0].id !in AllIds(w.book))
  {
    ConsumeOk(side, v.book.Of(side), q);
  }

  lemma SweptShorter(v: View, side: Side, left: nat)
    requires v.book.Of(side) != [] && left > 0
    ensures var q := Min(left, v.book.Of(side)[0].quantity); var w := Swept1(v, side, q);
            && VSweep(v, side, left) == VSweep(w, side, left - q)
            && (|w.book.Of(side)| < |v.book.Of(side)| || (|w.book.Of(side)| == |v.book.Of(side)| && left - q < left))
  {
  }

  lemma Front(v: View, bids: Queues, asks: Queues, loc: Locations, side: Side, p: int)
    requires Layout(v, bids, asks, loc) && BookOk(v.book)
    requires var m := if side.Bid? then bids else asks; p in m && forall q :: q in m ==> !Better(side, q, p)
    ensures var m := if side.Bid? then bids else asks; var s := v.book.Of(side);
            && s != [] && p == s[0].price && m[p] != [] && m[p][0].quantity == s[0].quantity
  {
    BestIsHead(v.owners, v.clients, side, v.book.Of(side), p);
    QueuesConsume(v.owners, v.clients, v.book.Of(side), 0);
  }

  /** The side scans together find the session's resting orders. */
  lemma Collected(v: View, bids: Queues, asks: Queues, loc: Locations, session: nat, b: set<nat>, a: set<nat>)
    requires Layout(v, bids, asks, loc) && VOk(v)
    requires forall id :: id in b <==> OnSide(bids, session, id)
    requires forall id :: id in a <==> OnSide(asks, session, id)
    ensures b + a == RestingOf(v, session) && b + a <= AllIds(v.book)
  {
    BookOkDistinct(v.book);
    forall id
      ensures id in b <==> id in Ids(v.book.bids) && v.owners[id] == session
      ensures id in a <==> id in Ids(v.book.asks) && v.owners[id] == session
    {
      CarriedBy(v.owners, v.clients, v.book.bids, session, id);
      CarriedBy(v.owners, v.clients, v.book.asks, session, id);
    }
  }

  lemma CarriedBy(owners: Names, clients: Names, s: seq<Order>, session: nat, id: nat)
    requires Distinct(s) && Ids(s) <= owners.Keys
    ensures OnSide(ToQueues(owners, clients, s), session, id) <==> id in Ids(s) && owners[id] == session
  {
    hide ToQueues, Distinct;
    var m := ToQueues(owners, clients, s);
    if OnSide(m, session, id) {
      var p :| p in m && Carries(m[p], session, id);
      CarriedAt(owners, clients, s, session, id, p);
    } else {
      CarriedAt(owners, clients, s, session, id, PriceOf(s, id));
    }
  }

  lemma DroppedNone(v: View)
    requires VOk(v)
    ensures VDrop(v, {}) == v && BookOk(v.book)
  {
    KeepNone(v.book.bids, {});
    KeepNone(v.book.asks, {});
  }

  /** Cancelling after a set was dropped drops one more. */
  lemma DroppedOne(v: View, done: set<nat>, id: nat)
    requires VOk(v) && id in AllIds(v.book)
    ensures VCancel(VDrop(v, done), id) == VDrop(v, done + {id}) && BookOk(VDrop(v, done + {id}).book)
  {
    DropOk(v.book, done);
    DropOk(v.book, done + {id});
    KeepTwice(v.book.bids, done, {id});
    KeepTwice(v.book.asks, done, {id});
    if id in done {
      assert done + {id} == done;
    }
  }

  /** Numbers the containers do not hold do not matter to them. */
  lemma SameLayout(v: View, w: View, bids: Queues, asks: Queues, loc: Locations)
    requires Layout(v, bids, asks, loc) && w == v.(nextId := w.nextId, clock := w.clock)
    ensures Layout(w, bids, asks, loc)
  {
  }

  lemma MarketNew(cfg: Config, v: View, c: Command)
    requires CheckRisk(cfg, AsState(v), c) == NoReason && c.market
    ensures VNew(cfg, v, c) == VSweep(v, c.side.Opposite(), c.quantity).(nextId := v.nextId + 1, clock := v.clock + 1)
  {
    VSweepIs(v, OrderFor(AsState(v), c), c.quantity);
  }

  lemma LimitNew(cfg: Config, v: View, c: Command)
    requires CheckRisk(cfg, AsState(v), c) == NoReason && !c.market && VOk(v)
    ensures var o := OrderFor(AsState(v), c);
            && BookOk(Rest(v.book, o))
            && VNew(cfg, v, c) ==
               VCross(VAdded(v, o, c.session, c.clientId)).(nextId := v.nextId + 1, clock := v.clock + 1)
  {
    hide CheckRisk, Rest, CrossAll;
    var o := OrderFor(AsState(v), c);
    FreshId(v);
    RestOk(v.book, o);
    VCrossIs(VAdded(v, o, c.session, c.clientId));
  }

  lemma KnownIsLoc(v: View, bids: Queues, asks: Queues, loc: Locations)
    requires Layout(v, bids, asks, loc)
    ensures v.known == SidesOf(loc)
  {
  }
}
