/** Session ids start over with every process (next_session_id_ in
    include/ome/tcp_server.hpp), while a restored index keeps the owners it was
    exported with (restore in include/ome/matching_thread.hpp).  A new connection
    inherits the orders of whoever had its number before. */
module SessionReuse {
  import opened Orders
  import opened FlatBook
  import opened ThreadSpec
  import opened Ownership
  import opened Invariant
  import opened Similarity
  import opened Snapshots
  import opened Restoring

  lemma SameOwners(cfg: Config, s: State, n: nat)
    requires Inv(cfg, s)
    ensures var r := Restore(cfg, Export(s, n));
            Inv(cfg, r) && r.book == s.book && r.idx.owner == s.idx.owner && r.idx.clientOf == s.idx.clientOf
  {
    hide Restore, Export, Lists, SessionsOk, KeysSound, BookInv;
    RestoreRebuilds(cfg, s, n);
    RestoreExactly(cfg, s, n);
  }

  /** When the new connection goes, the cancel-all sent for it takes exactly the
      orders its predecessor had entered out of the book. */
  lemma PredecessorCancelled(cfg: Config, s: State, n: nat, c: Command)
    requires Inv(cfg, s) && c.what.CancelAll?
    ensures AllIds(Apply(cfg, Restore(cfg, Export(s, n)), c).state.book) ==
            AllIds(s.book) - OwnedBy(s.idx.owner, c.session)
  {
    hide Inv, Restore, Export, Apply;
    SameOwners(cfg, s, n);
    CancelAllExact(cfg, Restore(cfg, Export(s, n)), c);
  }

  /** While it lasts, it is sent the fills of those orders, under client ids it
      never chose. */
  lemma PredecessorFills(cfg: Config, s: State, n: nat, id: nat, t: Trade)
    requires Inv(cfg, s) && id in AllIds(s.book)
    ensures id in s.idx.owner && id in s.idx.clientOf
    ensures var es := RouteFill(cfg, Restore(cfg, Export(s, n)).idx, id, t).events;
            |es| == 1 && es[0].Fill? && es[0].session == s.idx.owner[id] && es[0].clientId == s.idx.clientOf[id]
  {
    assert id in s.idx.owner && id in s.idx.clientOf;
    hide Inv, Restore, Export;
    SameOwners(cfg, s, n);
  }

  /** And whatever it sends is answered as its predecessor's would have been: it
      can cancel and modify those orders. */
  lemma PredecessorAnswered(cfg: Config, s: State, n: nat, c: Command)
    requires Inv(cfg, s) && Exportable(cfg, s)
    ensures Apply(cfg, Restore(cfg, Export(s, n)), c).events == Apply(cfg, s, c).events
  {
    hide Inv, Restore, Export, Apply, Similar, Exportable;
    RestoreExactly(cfg, s, n);
    ApplySimilar(cfg, Restore(cfg, Export(s, n)), s, c);
  }
}
