/** The matching thread under its real index key, with two sessions that share
    one: a cancel that removes the other session's order, and a state that a
    snapshot does not restore. */
module KeyCases {
  import opened Orders
  import opened FlatBook
  import opened ThreadSpec
  import opened Invariant
  import opened Similarity
  import opened Restoring
  import ClientKeys

  const Real := Config(10, 1, 0, ClientKeys.KeyOf)

  const Theirs := Command(NewOrder, 2, 0x37733D0000000001, 100, 1, Ask, false)
  const Mine := Command(CancelOrder, 1, 1, 0, 0, Bid, false)

  lemma TheirsRests()
    ensures var s := Apply(Real, Init, Theirs).state;
            s.book == Flat([], [Order(1, 100, 1, Ask, Limit, 1)]) && s.idx == Register(Real, EmptyIndex, 1, Theirs)
  {
    hide ClientKeys.KeyOf;
    assert Execute(Init.book, OrderFor(Init, Theirs)).trades == [];
  }

  /** Session 1 has no order, yet its cancel is acknowledged and takes session 2's
      order out of the book; a scan of session 1's orders would have found none. */
  lemma WrongOrderCancelled()
    ensures var s := Apply(Real, Init, Theirs).state; var r := Apply(Real, s, Mine);
            && s.idx.owner == map[1 := 2] && AllIds(s.book) == {1}
            && r.state.book == Flat([], []) && r.events == [Ack(1, 1, 1, true)]
            && IsScan(s.idx, 1, 1, 0) && !IsScan(s.idx, 1, 1, FindOrder(Real, s.idx, 1, 1))
  {
    hide ClientKeys.KeyOf;
    TheirsRests();
    ClientKeys.CollisionAcrossSessions();
    var s := Apply(Real, Init, Theirs).state;
    assert s.book.asks[1..] == [];
    assert s.idx.byClient == map[Real.key(2, 0x37733D0000000001) := 1];
    assert FindOrder(Real, s.idx, 1, 1) == 1;
  }

  // ----- a state that does not survive --------------------------------------

  const Older := Command(NewOrder, 2, 0x37733D0000000001, 99, 1, Bid, false)
  const Newer := Command(NewOrder, 1, 1, 100, 1, Bid, false)

  lemma OlderRests()
    ensures var s := Apply(Real, Init, Older).state;
            && s.book == Flat([Order(1, 99, 1, Bid, Limit, 1)], []) && s.nextId == 2 && s.clock == 1
            && s.idx == Register(Real, EmptyIndex, 1, Older)
  {
    hide ClientKeys.KeyOf;
    assert Execute(Init.book, OrderFor(Init, Older)).trades == [];
  }

  lemma NewerRests(s: State)
    requires s.book == Flat([Order(1, 99, 1, Bid, Limit, 1)], []) && s.nextId == 2 && s.clock == 1
    requires s.idx == Register(Real, EmptyIndex, 1, Older)
    ensures var t := Apply(Real, s, Newer).state;
            && t.book == Flat([Order(2, 100, 1, Bid, Limit, 2), Order(1, 99, 1, Bid, Limit, 1)], [])
            && t.idx == Register(Real, s.idx, 2, Newer)
  {
    hide ClientKeys.KeyOf;
    assert Execute(s.book, OrderFor(s, Newer)).trades == [];
  }

  /** Two live orders of two sessions share an index key: the index names the newer
      one, a restored index the one that comes last in the book. */
  lemma RestoreDiffers(n: nat)
    ensures var s := Run(Real, Init, [Older, Newer]);
            Inv(Real, s) && !Similar(Restore(Real, Export(s, n)), s)
  {
    hide Apply, Similar, Restore, Export, Inv, ClientKeys.KeyOf;
    var s1 := Apply(Real, Init, Older).state;
    var s := Apply(Real, s1, Newer).state;
    assert [Older, Newer][1..] == [Newer] && [Newer][1..] == [];
    assert Run(Real, s, []) == s && Run(Real, s1, [Newer]) == s;
    OlderRests();
    NewerRests(s1);
    InitInv(Real);
    ApplyKeepsInv(Real, Init, Older);
    ApplyKeepsInv(Real, s1, Newer);
    RestoreExactly(Real, s, n);
    TwoCarriers(s);
  }

  lemma TwoCarriers(s: State)
    requires s.book == Flat([Order(2, 100, 1, Bid, Limit, 2), Order(1, 99, 1, Bid, Limit, 1)], [])
    requires s.idx == Register(Real, Register(Real, EmptyIndex, 1, Older), 2, Newer)
    ensures !Exportable(Real, s)
  {
    hide ClientKeys.KeyOf;
    ClientKeys.CollisionAcrossSessions();
    var all := s.book.bids + s.book.asks;
    var k := Real.key(1, 1);
    assert all[0].id == 2 && all[1].id == 1;
    assert KeyOfOrder(Real, s.idx, all[0].id) == k && KeyOfOrder(Real, s.idx, all[1].id) == k;
    assert s.idx.byClient[k] == 2;
  }
}
