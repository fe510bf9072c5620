/** export_snapshot and restore (include/ome/matching_thread.hpp): a snapshot
    plus the log tail rebuilds what full replay would. */
module Restoring {
  import opened Orders
  import opened FlatBook
  import opened ThreadSpec
  import opened Ownership
  import opened Invariant
  import opened Similarity
  import opened Snapshots

  // ----- export -------------------------------------------------------------

  function SnapOf(idx: Index, o: Order): SnapshotOrder {
    SnapshotOrder(o.id, if o.id in idx.owner then idx.owner[o.id] else 0,
                  if o.id in idx.clientOf then idx.clientOf[o.id] else 0,
                  o.price, o.quantity, o.side, o.timestamp)
  }

  function SnapAll(idx: Index, s: seq<Order>): (r: seq<SnapshotOrder>)
    ensures |r| == |s|
  {
    if s == [] then [] else [SnapOf(idx, s[0])] + SnapAll(idx, s[1..])
  }

  /** Every resting order in book order: bids best-first, then asks best-first. */
  function Export(s: State, lastSeq: nat): SnapshotData {
    SnapshotData(lastSeq, s.lastTrade, s.nextId, SnapAll(s.idx, s.book.bids) + SnapAll(s.idx, s.book.asks))
  }

  // ----- restore ------------------------------------------------------------

  function OrderOf(so: SnapshotOrder): Order {
    Order(so.id, so.price, so.quantity, so.side, Limit, so.timestamp)
  }

  /** The map entries restore writes for one order are those a new order gets. */
  function EntryOf(so: SnapshotOrder): Command {
    Command(NewOrder, so.session, so.clientId, so.price, so.quantity, so.side, false)
  }

  function AddBack(cfg: Config, s: State, so: SnapshotOrder): State {
    s.(book := Rest(s.book, OrderOf(so)), idx := Register(cfg, s.idx, so.id, EntryOf(so)),
       clock := Max(s.clock, so.timestamp))
  }

  function AddAll(cfg: Config, s: State, os: seq<SnapshotOrder>): State
    decreases os
  {
    if os == [] then s else AddAll(cfg, AddBack(cfg, s, os[0]), os[1..])
  }

  function Restore(cfg: Config, d: SnapshotData): State {
    AddAll(cfg, Init.(lastTrade := d.lastTrade, nextId := d.nextId), d.orders)
  }

  lemma {:induction false} AddAllAppend(cfg: Config, s: State, a: seq<SnapshotOrder>, b: seq<SnapshotOrder>)
    ensures AddAll(cfg, s, a + b) == AddAll(cfg, AddAll(cfg, s, a), b)
    decreases a
  {
    if a == [] {
      assert a + b == b;
    } else {
      assert (a + b)[1..] == a[1..] + b;
      AddAllAppend(cfg, AddBack(cfg, s, a[0]), a[1..], b);
    }
  }

  // ----- the key index a restore builds -------------------------------------

  function KeyOfOrder(cfg: Config, idx: Index, id: nat): nat {
    cfg.key(if id in idx.owner then idx.owner[id] else 0, if id in idx.clientOf then idx.clientOf[id] else 0)
  }

  /** Each key of the list names the last order that carries it. */
  function KeyMap(cfg: Config, idx: Index, m: map<nat, nat>, s: seq<Order>): map<nat, nat>
    decreases s
  {
    if s == [] then m else KeyMap(cfg, idx, m[KeyOfOrder(cfg, idx, s[0].id) := s[0].id], s[1..])
  }

  /** Every resting order's key is in the index, and the index never names an
      order that another order with the same key follows in book order. */
  ghost predicate Exportable(cfg: Config, s: State) {
    var all := s.book.bids + s.book.asks;
    && (forall i :: 0 <= i < |all| ==> KeyOfOrder(cfg, s.idx, all[i].id) in s.idx.byClient)
    && (forall i, j :: 0 <= i < j < |all| && KeyOfOrder(cfg, s.idx, all[i].id) == KeyOfOrder(cfg, s.idx, all[j].id) ==>
          KeyOfOrder(cfg, s.idx, all[i].id) in s.idx.byClient &&
          s.idx.byClient[KeyOfOrder(cfg, s.idx, all[i].id)] != all[i].id)
  }

  /** The index is the one re-adding the orders in book order would build. */
  ghost predicate Rebuilt(cfg: Config, s: State) {
    s.idx.byClient == KeyMap(cfg, s.idx, map[], s.book.bids + s.book.asks)
  }

  lemma {:induction false} KeyMapAppend(cfg: Config, idx: Index, m: map<nat, nat>, a: seq<Order>, b: seq<Order>)
    ensures KeyMap(cfg, idx, m, a + b) == KeyMap(cfg, idx, KeyMap(cfg, idx, m, a), b)
    decreases a
  {
    if a == [] {
      assert a + b == b;
    } else {
      assert (a + b)[1..] == a[1..] + b;
      KeyMapAppend(cfg, idx, m[KeyOfOrder(cfg, idx, a[0].id) := a[0].id], a[1..], b);
    }
  }

  /** No order of the list carries the key. */
  ghost predicate NoCarrier(cfg: Config, idx: Index, k: nat, s: seq<Order>) {
    s == [] || (KeyOfOrder(cfg, idx, s[0].id) != k && NoCarrier(cfg, idx, k, s[1..]))
  }

  lemma {:induction false} Untouched(cfg: Config, idx: Index, m: map<nat, nat>, k: nat, s: seq<Order>)
    requires NoCarrier(cfg, idx, k, s)
    ensures k in KeyMap(cfg, idx, m, s) <==> k in m
    ensures k in m ==> KeyMap(cfg, idx, m, s)[k] == m[k]
    decreases s
  {
    if s != [] {
      Untouched(cfg, idx, m[KeyOfOrder(cfg, idx, s[0].id) := s[0].id], k, s[1..]);
    }
  }

  /** The key map names the last carrier of a key. */
  lemma LastCarrier(cfg: Config, idx: Index, s: seq<Order>, i: nat)
    requires i < |s| && NoCarrier(cfg, idx, KeyOfOrder(cfg, idx, s[i].id), s[i + 1..])
    ensures var k, m := KeyOfOrder(cfg, idx, s[i].id), KeyMap(cfg, idx, map[], s); k in m && m[k] == s[i].id
  {
    var k := KeyOfOrder(cfg, idx, s[i].id);
    assert s == s[..i + 1] + s[i + 1..] && s[..i + 1] == s[..i] + [s[i]];
    KeyMapAppend(cfg, idx, map[], s[..i + 1], s[i + 1..]);
    KeyMapAppend(cfg, idx, map[], s[..i], [s[i]]);
    var m := KeyMap(cfg, idx, map[], s[..i]);
    assert [s[i]][1..] == [];
    assert KeyMap(cfg, idx, m, [s[i]]) == KeyMap(cfg, idx, m[k := s[i].id], []);
    Untouched(cfg, idx, m[k := s[i].id], k, s[i + 1..]);
  }

  /** A carried key has a last carrier. */
  lemma {:induction false} HasLast(cfg: Config, idx: Index, k: nat, s: seq<Order>, i: nat) returns (l: nat)
    requires i < |s| && KeyOfOrder(cfg, idx, s[i].id) == k
    ensures i <= l < |s| && KeyOfOrder(cfg, idx, s[l].id) == k && NoCarrier(cfg, idx, k, s[l + 1..])
    decreases |s| - i
  {
    l := i;
    if !NoCarrier(cfg, idx, k, s[i + 1..]) {
      var d := SomeCarrier(cfg, idx, k, s[i + 1..]);
      l := HasLast(cfg, idx, k, s, i + 1 + d);
    }
  }

  lemma {:induction false} SomeCarrier(cfg: Config, idx: Index, k: nat, s: seq<Order>) returns (d: nat)
    requires !NoCarrier(cfg, idx, k, s)
    ensures d < |s| && KeyOfOrder(cfg, idx, s[d].id) == k
    decreases s
  {
    d := 0;
    if KeyOfOrder(cfg, idx, s[0].id) != k {
      d := SomeCarrier(cfg, idx, k, s[1..]);
      d := d + 1;
    }
  }

  lemma {:induction false} PositionOf(s: seq<Order>, id: nat) returns (i: nat)
    requires id in Ids(s)
    ensures i < |s| && s[i].id == id
  {
    i := 0;
    if s[0].id != id {
      i := PositionOf(s[1..], id);
      i := i + 1;
    }
  }

  lemma {:induction false} DistinctAt(s: seq<Order>, i: nat, j: nat)
    requires Distinct(s) && i < j < |s|
    ensures s[i].id != s[j].id
  {
    if i == 0 {
      IdAt(s[1..], j - 1);
    } else {
      DistinctAt(s[1..], i - 1, j - 1);
    }
  }

  lemma {:induction false} DistinctAppend(a: seq<Order>, b: seq<Order>)
    requires Distinct(a) && Distinct(b) && Ids(a) !! Ids(b)
    ensures Distinct(a + b)
  {
    if a == [] {
      assert a + b == b;
    } else {
      assert (a + b)[1..] == a[1..] + b;
      Append(a[1..], b);
      DistinctAppend(a[1..], b);
    }
  }

  /** The list of all orders: distinct ids, exactly the resting ones. */
  lemma AllListed(cfg: Config, s: State)
    requires Inv(cfg, s)
    ensures var all := s.book.bids + s.book.asks; Distinct(all) && Ids(all) == AllIds(s.book)
    ensures s.idx.owner.Keys == AllIds(s.book) && s.idx.clientOf.Keys == AllIds(s.book)
  {
    BookOkDistinct(s.book);
    Append(s.book.bids, s.book.asks);
    DistinctAppend(s.book.bids, s.book.asks);
  }

  lemma KeySource(cfg: Config, s: State, k: nat) returns (i: nat)
    requires Inv(cfg, s) && k in s.idx.byClient
    ensures var all := s.book.bids + s.book.asks;
            i < |all| && all[i].id == s.idx.byClient[k] && KeyOfOrder(cfg, s.idx, all[i].id) == k
  {
    AllListed(cfg, s);
    hide BookInv, Lists, SessionsOk, Distinct;
    assert KeyedAt(cfg, s.idx, k, s.idx.byClient[k]);
    i := PositionOf(s.book.bids + s.book.asks, s.idx.byClient[k]);
  }

  lemma ExportableRebuilt(cfg: Config, s: State)
    requires Inv(cfg, s) && Exportable(cfg, s)
    ensures Rebuilt(cfg, s)
  {
    var all := s.book.bids + s.book.asks;
    var m := KeyMap(cfg, s.idx, map[], all);
    hide Inv, KeyOfOrder, KeyMap;
    forall k | k in m
      ensures k in s.idx.byClient && s.idx.byClient[k] == m[k]
    {
      if NoCarrier(cfg, s.idx, k, all) {
        Untouched(cfg, s.idx, map[], k, all);
      } else {
        var d := SomeCarrier(cfg, s.idx, k, all);
        var l := HasLast(cfg, s.idx, k, all, d);
        LastCarrier(cfg, s.idx, all, l);
        var p := KeySource(cfg, s, k);
        LastIsLast(cfg, s.idx, k, all, l, p);
      }
    }
    forall k | k in s.idx.byClient
      ensures k in m
    {
      var p := KeySource(cfg, s, k);
      var l := HasLast(cfg, s.idx, k, all, p);
      LastCarrier(cfg, s.idx, all, l);
    }
  }

  lemma LastIsLast(cfg: Config, idx: Index, k: nat, s: seq<Order>, l: nat, p: nat)
    requires l < |s| && p < |s| && NoCarrier(cfg, idx, k, s[l + 1..]) && KeyOfOrder(cfg, idx, s[p].id) == k
    ensures p <= l
  {
    if p > l {
      NotCarrier(cfg, idx, k, s[l + 1..], p - l - 1);
    }
  }

  lemma {:induction false} NotCarrier(cfg: Config, idx: Index, k: nat, s: seq<Order>, i: nat)
    requires NoCarrier(cfg, idx, k, s) && i < |s|
    ensures KeyOfOrder(cfg, idx, s[i].id) != k
    decreases s
  {
    if i > 0 {
      NotCarrier(cfg, idx, k, s[1..], i - 1);
    }
  }

  lemma RebuiltExportable(cfg: Config, s: State)
    requires Inv(cfg, s) && Rebuilt(cfg, s)
    ensures Exportable(cfg, s)
  {
    AllListed(cfg, s);
    var all := s.book.bids + s.book.asks;
    hide Inv, KeyOfOrder, KeyMap;
    forall i | 0 <= i < |all|
      ensures KeyOfOrder(cfg, s.idx, all[i].id) in s.idx.byClient
    {
      var l := HasLast(cfg, s.idx, KeyOfOrder(cfg, s.idx, all[i].id), all, i);
      LastCarrier(cfg, s.idx, all, l);
    }
    forall i, j | 0 <= i < j < |all| && KeyOfOrder(cfg, s.idx, all[i].id) == KeyOfOrder(cfg, s.idx, all[j].id)
      ensures s.idx.byClient[KeyOfOrder(cfg, s.idx, all[i].id)] != all[i].id
    {
      var l := HasLast(cfg, s.idx, KeyOfOrder(cfg, s.idx, all[i].id), all, j);
      LastCarrier(cfg, s.idx, all, l);
      DistinctAt(all, i, l);
    }
  }

  // ----- rebuilding one side ------------------------------------------------

  /** The entries of r agree with those of s. */
  ghost predicate Agrees(r: Index, s: Index) {
    forall id :: id in r.owner ==>
      && id in s.owner && r.owner[id] == s.owner[id]
      && id in r.clientOf && id in s.clientOf && r.clientOf[id] == s.clientOf[id]
  }

  /** A partly restored state: sound for the orders added so far. */
  ghost predicate Partial(cfg: Config, r: State, s: State) {
    Good(cfg, r.idx, r.book) && DistinctBook(r.book) && Agrees(r.idx, s.idx)
  }

  lemma {:induction false} TailNoneWorse(side: Side, done: seq<Order>, o: Order, rest: seq<Order>)
    requires SideOk(side, done + [o] + rest)
    ensures NoneWorse(side, done, o.price) && o.id !in Ids(done) && o.side == side && o.kind.Limit?
  {
    var s := done + [o] + rest;
    if done == [] {
      assert s[0] == o;
    } else {
      assert s[1..] == done[1..] + [o] + rest;
      TailNoneWorse(side, done[1..], o, rest);
      HeadIsBest(side, s, |done|);
      assert s[|done|] == o;
      IdAt(s[1..], |done| - 1);
    }
  }

  /** Adding an order back in book order puts it at the end of its side. */
  lemma AddBackBook(cfg: Config, r: State, s: State, side: Side, done: seq<Order>, o: Order,
                    rest: seq<Order>, other: seq<Order>)
    requires SideOk(side, done + [o] + rest) && r.book == Flat.Make(side, done, other)
    ensures OrderOf(SnapOf(s.idx, o)) == o
    ensures AddBack(cfg, r, SnapOf(s.idx, o)).book == Flat.Make(side, done + [o], other)
  {
    TailNoneWorse(side, done, o, rest);
    InsertAt(side, done, [], o);
    assert done + [] == done && done + [o] + [] == done + [o];
  }

  lemma AddBackAgrees(cfg: Config, r: Index, s: Index, id: nat, c: Command)
    requires Agrees(r, s) && id in s.owner && id in s.clientOf
    requires c.session == s.owner[id] && c.clientId == s.clientOf[id]
    ensures Agrees(Register(cfg, r, id, c), s)
    ensures Register(cfg, r, id, c).byClient == r.byClient[KeyOfOrder(cfg, s, id) := id]
  {
  }

  lemma AddBackPartial(cfg: Config, r: State, s: State, side: Side, done: seq<Order>, o: Order,
                       rest: seq<Order>, other: seq<Order>)
    requires Partial(cfg, r, s) && r.book == Flat.Make(side, done, other)
    requires SideOk(side, done + [o] + rest) && o.id !in Ids(other)
    requires o.id in s.idx.owner && o.id in s.idx.clientOf
    ensures var r' := AddBack(cfg, r, SnapOf(s.idx, o));
            Partial(cfg, r', s) && r'.idx.byClient == r.idx.byClient[KeyOfOrder(cfg, s.idx, o.id) := o.id]
  {
    TailNoneWorse(side, done, o, rest);
    AddBackBook(cfg, r, s, side, done, o, rest, other);
    var c := EntryOf(SnapOf(s.idx, o));
    AddBackAgrees(cfg, r.idx, s.idx, o.id, c);
    hide Agrees, Register, SideOk, KeyOfOrder;
    RegisterGood(cfg, r.idx, o, done, other, c);
    GoodInsert(cfg, Register(cfg, r.idx, o.id, c), o, done, other);
    TakerDistinct(o, done, other);
    InsertDistinct(side, done, o, other);
  }

  lemma InsertDistinct(side: Side, done: seq<Order>, o: Order, other: seq<Order>)
    requires DistinctBook(Flat.Make(side, [o] + done, other))
    ensures DistinctBook(Flat.Make(side, Insert(side, done, o), other))
  {
    assert ([o] + done)[1..] == done;
    InsertIds(side, done, o);
    DistinctInsert(side, done, o);
  }

  lemma {:induction false} DistinctInsert(side: Side, s: seq<Order>, o: Order)
    requires Distinct(s) && o.id !in Ids(s)
    ensures Distinct(Insert(side, s, o))
  {
    var r := Insert(side, s, o);
    if s == [] || Better(side, o.price, s[0].price) {
      assert r[1..] == s;
    } else {
      DistinctInsert(side, s[1..], o);
      InsertIds(side, s[1..], o);
      assert r[1..] == Insert(side, s[1..], o);
    }
  }

  /** Replaying one side of a snapshot through addOrder rebuilds that side. */
  lemma {:induction false} RestoreSide(cfg: Config, r: State, s: State, side: Side, done: seq<Order>,
                                       todo: seq<Order>, other: seq<Order>)
    requires Partial(cfg, r, s) && r.book == Flat.Make(side, done, other)
    requires SideOk(side, done + todo) && Ids(todo) !! Ids(other)
    requires Ids(todo) <= s.idx.owner.Keys && Ids(todo) <= s.idx.clientOf.Keys
    ensures var r' := AddAll(cfg, r, SnapAll(s.idx, todo));
            && Partial(cfg, r', s) && r'.book == Flat.Make(side, done + todo, other)
            && r'.lastTrade == r.lastTrade && r'.nextId == r.nextId
            && r'.idx.byClient == KeyMap(cfg, s.idx, r.idx.byClient, todo)
    decreases |todo|
  {
    hide Partial, SideOk, AddBack, KeyOfOrder;
    if todo == [] {
      assert done + todo == done;
    } else {
      var o := todo[0];
      assert done + todo == done + [o] + todo[1..];
      AddBackPartial(cfg, r, s, side, done, o, todo[1..], other);
      AddBackBook(cfg, r, s, side, done, o, todo[1..], other);
      AddBackRest(cfg, r, SnapOf(s.idx, o));
      RestoreSide(cfg, AddBack(cfg, r, SnapOf(s.idx, o)), s, side, done + [o], todo[1..], other);
      assert SnapAll(s.idx, todo)[1..] == SnapAll(s.idx, todo[1..]);
    }
  }

  lemma AddBackRest(cfg: Config, r: State, so: SnapshotOrder)
    ensures AddBack(cfg, r, so).lastTrade == r.lastTrade && AddBack(cfg, r, so).nextId == r.nextId
  {
  }

  /** A restored state holds the same orders, owners and client ids. */
  lemma RestoreRebuilds(cfg: Config, s: State, n: nat)
    requires Inv(cfg, s)
    ensures var r := Restore(cfg, Export(s, n));
            && r.book == s.book && r.lastTrade == s.lastTrade && r.nextId == s.nextId && Partial(cfg, r, s)
            && r.idx.byClient == KeyMap(cfg, s.idx, KeyMap(cfg, s.idx, map[], s.book.bids), s.book.asks)
  {
    hide Lists, SessionsOk, KeysSound, AddBack, KeyMap;
    var r0 := Init.(lastTrade := s.lastTrade, nextId := s.nextId);
    var bids, asks := s.book.bids, s.book.asks;
    EmptyPartial(cfg, r0, s);
    assert [] + bids == bids && [] + asks == asks;
    hide Partial;
    RestoreSide(cfg, r0, s, Bid, [], bids, []);
    var r1 := AddAll(cfg, r0, SnapAll(s.idx, bids));
    RestoreSide(cfg, r1, s, Ask, [], asks, bids);
    AddAllAppend(cfg, r0, SnapAll(s.idx, bids), SnapAll(s.idx, asks));
  }

  lemma EmptyPartial(cfg: Config, r: State, s: State)
    requires r.book == Flat([], []) && r.idx == EmptyIndex
    ensures Partial(cfg, r, s)
  {
  }

  // ----- the restored index is the exported one -----------------------------

  lemma {:induction false} ListsUnique(r: map<nat, nat>, x: map<nat, Side>, r': map<nat, nat>, x': map<nat, Side>,
                                       s: seq<Order>, id: nat)
    requires Lists(r, x, s) && Lists(r', x', s) && id in Ids(s)
    ensures id in r && id in r' && r[id] == r'[id] && id in x && id in x' && x[id] == x'[id]
  {
    if s[0].id != id {
      ListsUnique(r, x, r', x', s[1..], id);
    }
  }

  /** The book fixes the quantities and the sides. */
  lemma ExactUnique(i: Index, j: Index, f: Flat)
    requires Exact(i, f) && Exact(j, f)
    ensures i.remaining == j.remaining && i.sideOf == j.sideOf
  {
    forall id | id in AllIds(f)
      ensures i.remaining[id] == j.remaining[id] && i.sideOf[id] == j.sideOf[id]
    {
      if id in Ids(f.bids) {
        ListsUnique(i.remaining, i.sideOf, j.remaining, j.sideOf, f.bids, id);
      } else {
        ListsUnique(i.remaining, i.sideOf, j.remaining, j.sideOf, f.asks, id);
      }
    }
  }

  lemma AgreesEqual(i: Index, j: Index, f: Flat)
    requires Agrees(i, j) && Exact(i, f) && Exact(j, f)
    ensures i.owner == j.owner && i.clientOf == j.clientOf
  {
    hide Lists;
    assert forall id :: id in AllIds(f) ==> id in i.owner;
  }

  /** The restored index agrees with the exported one exactly when that one is
      what re-adding the orders builds. */
  lemma RestoreRebuilt(cfg: Config, s: State, n: nat)
    requires Inv(cfg, s)
    ensures var r := Restore(cfg, Export(s, n)); Inv(cfg, r) && (Similar(r, s) <==> Rebuilt(cfg, s))
  {
    RestoreRebuilds(cfg, s, n);
    KeyMapAppend(cfg, s.idx, map[], s.book.bids, s.book.asks);
    hide Export, Restore, BookInv, KeysSound, SessionsOk, Agrees, ExactPair, KeyMap;
    var r := Restore(cfg, Export(s, n));
    ExactUnique(r.idx, s.idx, s.book);
    AgreesEqual(r.idx, s.idx, s.book);
    SameReflexive(s.book.bids);
    SameReflexive(s.book.asks);
  }

  /** Restoring an exported snapshot gives a sound state, and the exported state
      back (but for the clock and empty session entries) exactly when the index
      names, for every key a resting order carries, its last carrier in the book. */
  lemma RestoreExactly(cfg: Config, s: State, n: nat)
    requires Inv(cfg, s)
    ensures var r := Restore(cfg, Export(s, n)); Inv(cfg, r) && (Similar(r, s) <==> Exportable(cfg, s))
  {
    hide Inv, Restore, Export, Similar, Exportable, Rebuilt;
    RestoreRebuilt(cfg, s, n);
    if Exportable(cfg, s) {
      ExportableRebuilt(cfg, s);
    }
    if Rebuilt(cfg, s) {
      RebuiltExportable(cfg, s);
    }
  }

  /** An index that finds every resting order under its own key is exportable. */
  lemma CompleteExportable(cfg: Config, s: State)
    requires Inv(cfg, s) && Complete(cfg, s.idx)
    ensures Exportable(cfg, s)
  {
    var all := s.book.bids + s.book.asks;
    AllListed(cfg, s);
    forall i | 0 <= i < |all|
      ensures var k := KeyOfOrder(cfg, s.idx, all[i].id); k in s.idx.byClient && s.idx.byClient[k] == all[i].id
    {
      IdAt(all, i);
      assert Findable(cfg, s.idx, all[i].id);
    }
    hide Inv, Complete, KeyOfOrder, Distinct;
    forall i, j | 0 <= i < j < |all|
      ensures KeyOfOrder(cfg, s.idx, all[i].id) != KeyOfOrder(cfg, s.idx, all[j].id)
    {
      DistinctAt(all, i, j);
    }
  }

  // ----- snapshot plus tail -------------------------------------------------

  /** For every stream and every split point with an exportable state, exporting
      after the first part, restoring, and replaying the second part reaches the
      state of full replay. */
  lemma SnapshotPlusTail(cfg: Config, a: seq<Command>, b: seq<Command>, n: nat)
    requires Exportable(cfg, Run(cfg, Init, a))
    ensures Similar(Run(cfg, Restore(cfg, Export(Run(cfg, Init, a), n)), b), Run(cfg, Init, a + b))
  {
    hide Run, Restore, Export, Similar, Inv, Exportable;
    InitInv(cfg);
    RunKeepsInv(cfg, Init, a);
    var s := Run(cfg, Init, a);
    RestoreExactly(cfg, s, n);
    RunSimilar(cfg, Restore(cfg, Export(s, n)), s, b);
    RunAppend(cfg, Init, a, b);
  }

  lemma InitComplete(cfg: Config)
    ensures Complete(cfg, Init.idx)
  {
  }

  /** Streams that reuse no live client id are exportable at every point. */
  lemma FreshExportable(cfg: Config, cs: seq<Command>)
    requires FreshRun(cfg, Init, cs)
    ensures Exportable(cfg, Run(cfg, Init, cs))
  {
    hide Run, Inv, Complete, Exportable, FreshRun;
    InitInv(cfg);
    InitComplete(cfg);
    RunComplete(cfg, Init, cs);
    CompleteExportable(cfg, Run(cfg, Init, cs));
  }

  // ----- exporting similar states -------------------------------------------

  lemma ExportableSimilar(cfg: Config, a: State, b: State)
    requires Similar(a, b)
    ensures Exportable(cfg, a) <==> Exportable(cfg, b)
  {
    SameAppend(a.book.bids, a.book.asks, b.book.bids, b.book.asks);
    var x, y := a.book.bids + a.book.asks, b.book.bids + b.book.asks;
    assert |x| == |y| by {
      SameIds(x, y);
    }
    forall i | 0 <= i < |x|
      ensures x[i].id == y[i].id
    {
      SameAt(x, y, i);
    }
    hide SameOrders;
    assert forall id :: KeyOfOrder(cfg, a.idx, id) == KeyOfOrder(cfg, b.idx, id);
    hide KeyOfOrder;
  }

  lemma {:induction false} SameAt(a: seq<Order>, b: seq<Order>, i: nat)
    requires SameOrders(a, b) && i < |a|
    ensures i < |b| && a[i].id == b[i].id
    decreases |a|
  {
    if i > 0 {
      SameAt(a[1..], b[1..], i - 1);
    }
  }

  lemma {:induction false} SameAppend(a: seq<Order>, b: seq<Order>, c: seq<Order>, d: seq<Order>)
    requires SameOrders(a, c) && SameOrders(b, d)
    ensures SameOrders(a + b, c + d)
    decreases |a|
  {
    if a == [] {
      assert a + b == b && c + d == d;
    } else {
      assert (a + b)[1..] == a[1..] + b && (c + d)[1..] == c[1..] + d;
      SameAppend(a[1..], b, c[1..], d);
    }
  }

  // ----- ids in a snapshot --------------------------------------------------

  ghost function SnapIds(os: seq<SnapshotOrder>): set<nat> {
    if os == [] then {} else {os[0].id} + SnapIds(os[1..])
  }

  /** No exchange id twice: what addOrder needs of the snapshot it is fed. */
  ghost predicate DistinctSnap(os: seq<SnapshotOrder>) {
    os == [] || (os[0].id !in SnapIds(os[1..]) && DistinctSnap(os[1..]))
  }

  lemma {:induction false} SnapDistinct(idx: Index, side: Side, s: seq<Order>, tail: seq<SnapshotOrder>)
    requires SideOk(side, s) && DistinctSnap(tail) && Ids(s) !! SnapIds(tail)
    ensures DistinctSnap(SnapAll(idx, s) + tail) && SnapIds(SnapAll(idx, s) + tail) == Ids(s) + SnapIds(tail)
  {
    if s == [] {
      assert SnapAll(idx, s) + tail == tail;
    } else {
      SnapDistinct(idx, side, s[1..], tail);
      assert (SnapAll(idx, s) + tail)[1..] == SnapAll(idx, s[1..]) + tail;
    }
  }

  /** Exported snapshots always qualify. */
  lemma ExportDistinct(s: State, n: nat)
    requires BookOk(s.book)
    ensures DistinctSnap(Export(s, n).orders)
  {
    SnapDistinct(s.idx, Ask, s.book.asks, []);
    var asks := SnapAll(s.idx, s.book.asks);
    assert asks + [] == asks;
    SnapDistinct(s.idx, Bid, s.book.bids, asks);
  }
}
