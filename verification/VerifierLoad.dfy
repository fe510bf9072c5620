/** The independent verifier started from a snapshot (main in
    tools/wal_verify.cpp): loading, the replay of what the snapshot does not
    cover, and why its digest is the engine's. */
module VerifierLoads {
  import opened Orders
  import opened FlatBook
  import opened Levels
  import opened Digests
  import opened ThreadSpec
  import opened Ownership
  import opened Invariant
  import opened Similarity
  import opened Snapshots
  import opened Restoring
  import opened PriceQueues
  import opened VerifierSpec
  import opened SimpleBooks

  // ----- what loading yields ------------------------------------------------

  function LoadOne(v: View, so: SnapshotOrder): View {
    VAdded(v, OrderOf(so), so.session, so.clientId).(clock := Max(v.clock, so.timestamp))
  }

  function LoadAll(v: View, os: seq<SnapshotOrder>): View
    decreases os
  {
    if os == [] then v else LoadAll(LoadOne(v, os[0]), os[1..])
  }

  function Loaded(d: SnapshotData): View {
    LoadAll(Blank.(lastTrade := d.lastTrade, nextId := d.nextId), d.orders)
  }

  /** The verifier holds exactly what the engine's maps hold. */
  ghost predicate Mirrors(s: State, v: View) {
    && v.book == s.book && v.lastTrade == s.lastTrade && v.nextId == s.nextId && v.clock == s.clock
    && v.owners == s.idx.owner && v.clients == s.idx.clientOf && v.known == s.idx.sideOf
  }

  lemma {:induction false} LoadMirrors(cfg: Config, s: State, v: View, os: seq<SnapshotOrder>)
    requires Mirrors(s, v)
    ensures Mirrors(AddAll(cfg, s, os), LoadAll(v, os))
    decreases os
  {
    hide Rest;
    if os != [] {
      assert Mirrors(AddBack(cfg, s, os[0]), LoadOne(v, os[0]));
      hide Mirrors, AddBack, LoadOne;
      LoadMirrors(cfg, AddBack(cfg, s, os[0]), LoadOne(v, os[0]), os[1..]);
    }
  }

  lemma MirrorsOk(cfg: Config, s: State, v: View)
    requires Inv(cfg, s) && Mirrors(s, v)
    ensures VOk(v) && Agree(s, v) && NothingStale(v)
  {
    hide KeysSound, SessionsOk;
    forall id | id in AllIds(s.book)
      ensures id in Ids(s.book.bids) ==> id in v.known && v.known[id] == Bid
      ensures id in Ids(s.book.asks) ==> id in v.known && v.known[id] == Ask
    {
      if id in Ids(s.book.bids) {
        ListedSides(s.idx.remaining, s.idx.sideOf, Bid, s.book.bids, id);
      }
      if id in Ids(s.book.asks) {
        ListedSides(s.idx.remaining, s.idx.sideOf, Ask, s.book.asks, id);
      }
    }
    hide Lists, BookOk;
  }

  /** The loaded verifier agrees with the restored engine, whatever the engine
      wrote the snapshot from. */
  lemma LoadedAgrees(cfg: Config, s: State, n: nat)
    requires Inv(cfg, s)
    ensures var d := Export(s, n); var r := Restore(cfg, d);
            Inv(cfg, r) && VOk(Loaded(d)) && Agree(r, Loaded(d)) && NothingStale(Loaded(d))
  {
    hide Inv, VOk, Agree, NothingStale, Export;
    var d := Export(s, n);
    RestoreExactly(cfg, s, n);
    var blank := Blank.(lastTrade := d.lastTrade, nextId := d.nextId);
    LoadMirrors(cfg, Init.(lastTrade := d.lastTrade, nextId := d.nextId), blank, d.orders);
    MirrorsOk(cfg, Restore(cfg, d), Loaded(d));
  }

  // ----- the digest sees no timestamps --------------------------------------

  lemma {:induction false} SameAtPrice(a: seq<Order>, b: seq<Order>, p: int)
    requires SameOrders(a, b)
    ensures QtyAt(a, p) == QtyAt(b, p) && CountAt(a, p) == CountAt(b, p)
    ensures SameOrders(Without(a, p), Without(b, p))
    decreases |a|
  {
    if a != [] {
      SameAtPrice(a[1..], b[1..], p);
      ConsOrders(a[0], b[0], Without(a[1..], p), Without(b[1..], p));
    }
  }

  lemma {:induction false} SameDepths(a: seq<Order>, b: seq<Order>)
    requires SameOrders(a, b)
    ensures Depths(a) == Depths(b)
    decreases |a|
  {
    if a != [] {
      var p := a[0].price;
      SameAtPrice(a, b, p);
      SameDepths(Without(a, p), Without(b, p));
    }
  }

  lemma SimilarDigest(s: State, t: State)
    requires Similar(s, t)
    ensures DigestOf(s.book) == DigestOf(t.book)
  {
    SameDepths(s.book.bids, t.book.bids);
    SameDepths(s.book.asks, t.book.asks);
    hide Mix, Depths, MixSide;
  }

  // ----- snapshot plus tail -------------------------------------------------

  /** From a snapshot of any exportable state, the verifier's digest after a clean
      tail is that of an engine that was never interrupted. */
  lemma SnapshotDigestsAgree(cfg: Config, s: State, n: nat, tail: seq<Command>)
    requires Inv(cfg, s)
    requires CleanRun(cfg, Restore(cfg, Export(s, n)), Loaded(Export(s, n)), tail)
    ensures var v := VRun(cfg, Loaded(Export(s, n)), tail);
            && DigestOf(v.book) == DigestOf(Run(cfg, Restore(cfg, Export(s, n)), tail).book)
            && (Exportable(cfg, s) ==> DigestOf(v.book) == DigestOf(Run(cfg, s, tail).book))
  {
    hide Inv, Export, Restore, Loaded, CleanRun, VOk, NothingStale, Run, VRun, DigestOf, Exportable, Similar;
    var d := Export(s, n);
    var r := Restore(cfg, d);
    LoadedAgrees(cfg, s, n);
    RunsAgree(cfg, r, Loaded(d), tail);
    if Exportable(cfg, s) {
      RestoreExactly(cfg, s, n);
      RunSimilar(cfg, r, s, tail);
      SimilarDigest(Run(cfg, r, tail), Run(cfg, s, tail));
    }
  }

  /** The commands of a log that starts at `firstSeq` and that a snapshot up to
      `lastSeq` does not cover. */
  function Uncovered(lastSeq: nat, firstSeq: nat, cs: seq<Command>): (r: seq<Command>)
    decreases cs
  {
    if cs == [] then []
    else if firstSeq > lastSeq then [cs[0]] + Uncovered(lastSeq, firstSeq + 1, cs[1..])
    else Uncovered(lastSeq, firstSeq + 1, cs[1..])
  }

  /** They are the tail behind the snapshot's last command. */
  lemma {:induction false} UncoveredIs(lastSeq: nat, firstSeq: nat, cs: seq<Command>)
    ensures Uncovered(lastSeq, firstSeq, cs) ==
            if lastSeq < firstSeq then cs
            else if lastSeq - firstSeq + 1 <= |cs| then cs[lastSeq - firstSeq + 1..] else []
    decreases cs
  {
    if cs != [] {
      UncoveredIs(lastSeq, firstSeq + 1, cs[1..]);
      assert [cs[0]] + cs[1..] == cs;
    }
  }

  /** For a history of which the snapshot covers the front and the log holds the
      back, with or without overlap, that is exactly what is missing. */
  lemma UncoveredOf(history: seq<Command>, lastSeq: nat, firstSeq: nat)
    requires 0 < firstSeq <= lastSeq + 1 && lastSeq <= |history|
    ensures Uncovered(lastSeq, firstSeq, history[firstSeq - 1..]) == history[lastSeq..]
  {
    UncoveredIs(lastSeq, firstSeq, history[firstSeq - 1..]);
  }

  /** The orders still to load are new to the book and to each other. */
  ghost predicate Loading(v: View, os: seq<SnapshotOrder>) {
    && BookOk(v.book) && AllIds(v.book) <= v.owners.Keys && AllIds(v.book) <= v.clients.Keys
    && DistinctSnap(os) && SnapIds(os) !! AllIds(v.book)
  }

  lemma LoadStep(v: View, os: seq<SnapshotOrder>)
    requires Loading(v, os) && os != []
    ensures os[0].id !in AllIds(v.book) && Loading(LoadOne(v, os[0]), os[1..])
  {
    RestOk(v.book, OrderOf(os[0]));
    hide BookOk, Rest;
  }

  /** Loads every order of a snapshot, then its counters. */
  method Load(d: SnapshotData) returns (book: SimpleBook, next: nat)
    requires DistinctSnap(d.orders)
    ensures fresh(book) && book.Shows(Loaded(d)) && next == Loaded(d).nextId
  {
    hide DistinctSnap, SnapIds, VAdded, Loading, SimpleBook.Shows;
    book := new SimpleBook();
    ghost var v := Blank.(lastTrade := d.lastTrade, nextId := d.nextId);
    book.SetLastTrade(d.lastTrade, Blank);
    LoadStart(v, d.orders);
    LoadedNext(d.orders, v);
    var i := 0;
    assert d.orders[0..] == d.orders;
    while i < |d.orders|
      invariant i <= |d.orders| && fresh(book) && book.Shows(v) && Loading(v, d.orders[i..])
      invariant LoadAll(v, d.orders[i..]) == Loaded(d)
    {
      var so := d.orders[i];
      assert d.orders[i..][1..] == d.orders[i+1..];
      LoadStep(v, d.orders[i..]);
      LoadingFacts(v, d.orders[i..]);
      book.Add(so.price, so.side, VOrder(so.id, so.session, so.clientId, so.quantity), OrderOf(so), v);
      book.SameClock(VAdded(v, OrderOf(so), so.session, so.clientId), Max(v.clock, so.timestamp));
      v := LoadOne(v, so);
      i := i + 1;
    }
    next := d.nextId;
  }

  lemma LoadStart(v: View, os: seq<SnapshotOrder>)
    requires v == Blank.(lastTrade := v.lastTrade, nextId := v.nextId) && DistinctSnap(os)
    ensures Loading(v, os)
  {
  }

  lemma LoadingFacts(v: View, os: seq<SnapshotOrder>)
    requires Loading(v, os)
    ensures BookOk(v.book) && AllIds(v.book) <= v.owners.Keys && AllIds(v.book) <= v.clients.Keys
  {
  }

  /** The whole tool on a snapshot the engine exported from `s` and a log that
      starts at `firstSeq`: the digest it prints is the engine's whenever the
      uncovered part of the log is clean. */
  method VerifyFrom(cfg: Config, d: SnapshotData, firstSeq: nat, cs: seq<Command>, ghost s: State) returns (h: nat)
    requires Inv(cfg, s) && d == Export(s, d.lastSeq)
    ensures var tail := Uncovered(d.lastSeq, firstSeq, cs);
            && h == DigestOf(VRun(cfg, Loaded(d), tail).book)
            && (Exportable(cfg, s) && CleanRun(cfg, Restore(cfg, d), Loaded(d), tail) ==>
                  h == DigestOf(Run(cfg, s, tail).book))
  {
    hide Inv, Export, Restore, Loaded, CleanRun, VOk, NothingStale, Run, VApply, DigestOf, Exportable;
    hide SimpleBook.Shows;
    InvBookOk(cfg, s);
    ExportDistinct(s, d.lastSeq);
    LoadedAgrees(cfg, s, d.lastSeq);
    var book, next := Load(d);
    ghost var tail := Uncovered(d.lastSeq, firstSeq, cs);
    ghost var v := Loaded(d);
    var i, at := 0, firstSeq;
    assert cs[0..] == cs;
    while i < |cs|
      invariant i <= |cs| && at == firstSeq + i && book.Shows(v) && VOk(v) && next == v.nextId
      invariant fresh(book)
      invariant VRun(cfg, v, Uncovered(d.lastSeq, at, cs[i..])) == VRun(cfg, Loaded(d), tail)
    {
      assert cs[i..][1..] == cs[i+1..];
      if at > d.lastSeq {
        var rest := Uncovered(d.lastSeq, at + 1, cs[i+1..]);
        assert ([cs[i]] + rest)[1..] == rest;
        next := book.Apply(cfg, cs[i], next, v);
        VApplyOk(cfg, v, cs[i]);
        v := VApply(cfg, v, cs[i]);
      }
      i, at := i + 1, at + 1;
    }
    FreshId(v);
    h := book.Digest(v);
    if Exportable(cfg, s) && CleanRun(cfg, Restore(cfg, d), Loaded(d), tail) {
      SnapshotDigestsAgree(cfg, s, d.lastSeq, tail);
    }
  }

  lemma InvBookOk(cfg: Config, s: State)
    requires Inv(cfg, s)
    ensures BookOk(s.book)
  {
  }

  lemma {:induction false} LoadedNext(os: seq<SnapshotOrder>, v: View)
    ensures LoadAll(v, os).nextId == v.nextId
    decreases os
  {
    if os != [] {
      LoadedNext(os[1..], LoadOne(v, os[0]));
    }
  }
}
