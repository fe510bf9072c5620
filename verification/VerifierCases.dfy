/** Streams of fresh client ids on which the independent verifier
    (tools/wal_verify.cpp) and the engine part ways. */
module VerifierCases {
  import opened Orders
  import opened FlatBook
  import opened ThreadSpec
  import opened Ownership
  import opened Invariant
  import opened PriceQueues
  import opened VerifierSpec

  const Offer := Command(NewOrder, 1, 5, 100, 1, Ask, false)
  const Take := Command(NewOrder, 2, 6, 0, 1, Bid, true)
  const Pull := Command(CancelOrder, 1, 5, 0, 0, Bid, false)
  const Change := Command(ModifyOrder, 1, 5, 100, 1, Bid, false)

  function Offered(s: State): State {
    State(Flat([], [Order(s.nextId, 100, 1, Ask, Limit, s.clock + 1)]), s.lastTrade, s.nextId + 1, s.clock + 1,
          Register(Demo, s.idx, s.nextId, Offer))
  }

  lemma OfferRests(s: State)
    requires s.book == Flat([], [])
    ensures Apply(Demo, s, Offer).state == Offered(s)
  {
    assert Execute(s.book, OrderFor(s, Offer)).trades == [];
  }

  lemma TakeEmpties(s: State)
    requires s.book == Flat([], [Order(1, 100, 1, Ask, Limit, 1)])
    ensures Apply(Demo, s, Take).state.book == Flat([], []) && Apply(Demo, s, Take).state.nextId == s.nextId + 1
  {
    assert Greedy(OrderFor(s, Take), 0, []).trades == [];
  }

  /** With an empty book the index is empty too. */
  lemma EmptyBookIndex(cfg: Config, s: State)
    requires Inv(cfg, s) && s.book == Flat([], [])
    ensures s.idx.byClient == map[] && s.idx.owner == map[]
  {
    assert forall k :: k in s.idx.byClient ==> KeyedAt(cfg, s.idx, k, s.idx.byClient[k]);
  }

  /** The verifier's names after an offer that was taken. */
  lemma NamesAfterTake()
    ensures var v := VApply(Demo, VApply(Demo, Blank, Offer), Take);
            v.known == map[1 := Ask] && v.owners == map[1 := 1] && v.clients == map[1 := 5]
  {
    hide CrossAll;
    var o := Order(1, 100, 1, Ask, Limit, 1);
    assert Rest(Blank.book, o) == Flat([], [o]);
    assert CrossAll(Flat([], [o])).book == Flat([], [o]) by {
      UncrossedStays(Flat([], [o]));
    }
  }

  lemma UncrossedStays(f: Flat)
    requires !IsCrossed(f)
    ensures CrossAll(f).book == f
  {
  }

  /** Everything both sides know once an offer was made and taken. */
  ghost predicate Taken(s: State, v: View) {
    && Inv(Demo, s) && VOk(v) && Agree(s, v) && s.book == Flat([], []) && s.nextId == 3
    && s.idx.byClient == map[] && s.idx.owner == map[]
    && v.known == map[1 := Ask] && v.owners == map[1 := 1] && v.clients == map[1 := 5]
  }

  lemma AfterTake()
    ensures var s1 := Apply(Demo, Init, Offer).state; var s := Apply(Demo, s1, Take).state;
            var v := VApply(Demo, VApply(Demo, Blank, Offer), Take);
            Taken(s, v) && Fresh(Demo, Init, Offer) && Fresh(Demo, s1, Take)
  {
    hide Inv, VOk, Agree, Apply, VApply, Fresh;
    var s1 := Apply(Demo, Init, Offer).state;
    var s := Apply(Demo, s1, Take).state;
    var v1 := VApply(Demo, Blank, Offer);
    OfferRests(Init);
    TakeEmpties(s1);
    FreshTake(s1);
    FreshOffer(Init);
    InitInv(Demo);
    BlankOk();
    StepTogether(Init, Blank, Offer);
    StepTogether(s1, v1, Take);
    EmptyBookIndex(Demo, s);
    NamesAfterTake();
  }

  lemma FreshTake(s: State)
    requires s == Offered(Init)
    ensures Fresh(Demo, s, Take)
  {
  }

  lemma FreshOffer(s: State)
    requires s.idx.byClient == map[]
    ensures Fresh(Demo, s, Offer)
  {
  }

  lemma FreshLookup(s: State, c: Command)
    requires LooksUp(c)
    ensures Fresh(Demo, s, c)
  {
  }

  lemma StepTogether(s: State, v: View, c: Command)
    requires Inv(Demo, s) && VOk(v) && Agree(s, v) && !LooksUp(c)
    ensures var t, w := Apply(Demo, s, c).state, VApply(Demo, v, c); Inv(Demo, t) && VOk(w) && Agree(t, w)
  {
    ApplyAgrees(Demo, s, v, c);
    ApplyKeepsInv(Demo, s, c);
    VApplyOk(Demo, v, c);
  }

  /** Both runs, one command at a time. */
  lemma Peel(s: State, v: View, c: Command, cs: seq<Command>)
    ensures var t, w := Apply(Demo, s, c).state, VApply(Demo, v, c); var all := [c] + cs;
            && Run(Demo, s, all) == Run(Demo, t, cs) && VRun(Demo, v, all) == VRun(Demo, w, cs)
            && (FreshRun(Demo, s, all) <==> Fresh(Demo, s, c) && FreshRun(Demo, t, cs))
  {
    hide Apply, VApply, Fresh;
    assert ([c] + cs)[1..] == cs;
  }

  lemma Ends(s: State, v: View)
    ensures Run(Demo, s, []) == s && VRun(Demo, v, []) == v && FreshRun(Demo, s, [])
  {
  }

  /** Offer, have it taken by a market order, modify it: the engine knows no such
      order, the verifier brings it back. */
  lemma ModifyDisagrees()
    ensures var cs := [Offer] + ([Take] + ([Change] + []));
            && FreshRun(Demo, Init, cs) && Run(Demo, Init, cs).book == Flat([], [])
            && VRun(Demo, Blank, cs).book != Run(Demo, Init, cs).book
  {
    hide Apply, VApply, Run, VRun, FreshRun, Fresh, Inv, VOk, Agree;
    var s1, v1 := Apply(Demo, Init, Offer).state, VApply(Demo, Blank, Offer);
    var s, v := Apply(Demo, s1, Take).state, VApply(Demo, v1, Take);
    var t, w := Apply(Demo, s, Change).state, VApply(Demo, v, Change);
    AfterTake();
    ChangeRevives(s, v);
    FreshLookup(s, Change);
    Peel(Init, Blank, Offer, [Take] + ([Change] + []));
    Peel(s1, v1, Take, [Change] + []);
    Peel(s, v, Change, []);
    Ends(t, w);
  }

  lemma ChangeRevives(s: State, v: View)
    requires Taken(s, v)
    ensures Apply(Demo, s, Change).state == s && VApply(Demo, v, Change).book != s.book
  {
    assert Matches(v, 1, 5) == {1};
    var c := Replacement(Change, Ask);
    VNewOutcome(Demo, v, c);
    assert Execute(v.book, OrderFor(AsState(v), c)).book.asks != [];
    hide VNew, Execute;
  }

  /** Offer, have it taken by a market order, offer again under the same client
      id, cancel: the engine cancels the second offer, the verifier finds the
      first, which is gone, and keeps the second. */
  lemma CancelDisagrees()
    ensures var cs := [Offer] + ([Take] + ([Offer] + ([Pull] + [])));
            FreshRun(Demo, Init, cs) && VRun(Demo, Blank, cs).book != Run(Demo, Init, cs).book
  {
    hide Apply, VApply, Run, VRun, FreshRun, Fresh, Inv, VOk, Agree, Matches;
    var s1, v1 := Apply(Demo, Init, Offer).state, VApply(Demo, Blank, Offer);
    var s2, v2 := Apply(Demo, s1, Take).state, VApply(Demo, v1, Take);
    var s, v := Apply(Demo, s2, Offer).state, VApply(Demo, v2, Offer);
    var t, w := Apply(Demo, s, Pull).state, VApply(Demo, v, Pull);
    AfterTake();
    OfferRests(s2);
    StepTogether(s2, v2, Offer);
    FreshOffer(s2);
    FreshLookup(s, Pull);
    SameEnds(s2, v2);
    NamesAfterOffer(v2);
    PullMisses(s2, s, v);
    Peel(Init, Blank, Offer, [Take] + ([Offer] + ([Pull] + [])));
    Peel(s1, v1, Take, [Offer] + ([Pull] + []));
    Peel(s2, v2, Offer, [Pull] + []);
    Peel(s, v, Pull, []);
    Ends(t, w);
  }

  lemma SameEnds(s: State, v: View)
    requires Agree(s, v)
    ensures s.book == v.book && s.nextId == v.nextId
  {
  }

  lemma NamesAfterOffer(v: View)
    requires VOk(v) && v.book == Flat([], []) && v.nextId == 3
    requires v.known == map[1 := Ask] && v.owners == map[1 := 1] && v.clients == map[1 := 5]
    ensures 1 in Matches(VApply(Demo, v, Offer), 1, 5)
  {
    RestOk(v.book, OrderFor(AsState(v), Offer));
    hide CrossAll, Rest;
  }

  lemma PullMisses(s2: State, s: State, v: View)
    requires s == Offered(s2) && s2.idx.owner == map[] && s2.nextId == 3 && Agree(s, v) && 1 in Matches(v, 1, 5)
    requires Inv(Demo, s) && VOk(v)
    ensures VApply(Demo, v, Pull).book != Apply(Demo, s, Pull).state.book
  {
    assert FindOrder(Demo, s.idx, 1, 5) == 3 && Lookup(v, 1, 5) <= 1;
    assert v.book.asks[0].id == 3 && v.book.asks[1..] == [] && v.book.bids == [];
    assert AllIds(v.book) == {3};
    DropOk(s.book, {3});
    hide Drop;
  }
}
