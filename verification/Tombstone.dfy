/** When a session's queues may be freed (include/ome/egress.hpp, kill_session,
    close_connection and drain_egress in src/net/tcp_server.cpp, apply_cancel_all
    in include/ome/matching_thread.hpp): one session, every interleaving of the
    two threads, with every queue push allowed to fail. */
module Tombstones {

  datatype Command = Open | Order | Subscribe | CancelAll

  datatype Event = Report | SessionRetired

  /** What the command being served still has to do for this session: answer an
      order command, answer a subscription, or nothing but report fills and publish
      the book. */
  datatype Task = Trading | Subscribing | Reporting

  /** Where the matching thread is.  A cancel-all goes through the last five in
      order. */
  datatype Phase = Ready | Serving(task: Task)
                 | Burying | ForgettingEgress | ForgettingMarket | ForgettingSubscriber | PublishingLast

  /** `inbound`: this session's share of the command queue.  `present`, `dead`,
      `retiring`, `draining` and `erased` are the network thread's: the connection
      was accepted, its session marked dead, its destruction deferred, its egress
      queue being drained, and the connection destroyed with both queues.
      `egressKnown`, `marketKnown` and `subscribed` are the matching thread's three
      maps, `resting` the quantity its book holds for the session, or has traded
      for it and not yet reported.  The rest is history: whether session-open was
      accepted and cancel-all refused, or accepted and then dropped because the log
      could not be written; whether the tombstone's push was attempted and the
      tombstone read; and whether the matching thread used a queue after it was
      freed or after the tombstone. */
  datatype World = World(inbound: seq<Command>, egress: seq<Event>, overflowed: bool,
                         present: bool, dead: bool, retiring: bool, draining: bool, erased: bool,
                         phase: Phase, egressKnown: bool, marketKnown: bool, subscribed: bool, resting: nat,
                         announced: bool, refused: bool, skipped: bool, buried: bool, seen: bool,
                         usedFreed: bool, usedBuried: bool)

  /** Before the connection is accepted.  Session ids start over with the process,
      so recovery may have left orders under this one. */
  function Fresh(left: nat): World {
    World([], [], false, false, false, false, false, false, Ready, false, false, false, left,
          false, false, false, false, false, false, false)
  }

  const Capacity := 4096

  /** `ok` says whether the push made by the step finds room, `logged` whether the
      command taken could be written to the log. */
  datatype Action =
    // network thread
    | Accept(ok: bool)          // new connection; submits session-open
    | Submit(c: Command)        // an order or a subscription the inbound queue accepts
    | Close(ok: bool)           // close_connection, for whatever reason
    | BeginDrain | Pop | EndDrain
    // matching thread
    | Take(logged: bool)        // the next command of this session
    | Other                     // one of another session
    | Answer(ok: bool, now: nat)  // the session's own command: its ack or reject, and what then rests or traded
    | Fill(ok: bool, q: nat)    // a fill of one of the session's orders
    | Lose(q: nat)              // a cancel of one under a colliding key
    | Publish                   // a book update
    | Finish
    | Bury(ok: bool) | ForgetEgress | ForgetMarket | ForgetSubscriber | PublishLast

  /** A command of the session's own waits for its answer. */
  predicate Owed(p: Phase) {
    p.Serving? && !p.task.Reporting?
  }

  predicate HasRoom(w: World, ok: bool) {
    ok ==> |w.egress| < Capacity
  }

  predicate Enabled(w: World, a: Action) {
    match a
    case Accept(_) => !w.present
    case Submit(c) => w.present && !w.dead && (c.Order? || c.Subscribe?)
    case Close(_) => w.present && !w.erased && !w.draining
    case BeginDrain => w.present && !w.erased && !w.draining
    case Pop => w.draining && w.egress != []
    case EndDrain => w.draining
    case Take(_) => w.phase.Ready? && w.inbound != []
    case Other => w.phase.Ready?
    case Answer(ok, now) => Owed(w.phase) && HasRoom(w, ok) && (w.phase.task.Subscribing? ==> now == w.resting)
    case Fill(ok, q) => w.phase == Serving(Reporting) && 0 < q <= w.resting && HasRoom(w, ok)
    case Lose(q) => w.phase == Serving(Reporting) && q <= w.resting
    case Publish => w.phase == Serving(Reporting)
    case Finish => w.phase == Serving(Reporting)
    case Bury(ok) => w.phase.Burying? && HasRoom(w, ok)
    case ForgetEgress => w.phase.ForgettingEgress?
    case ForgetMarket => w.phase.ForgettingMarket?
    case ForgetSubscriber => w.phase.ForgettingSubscriber?
    case PublishLast => w.phase.PublishingLast?
  }

  /** The matching thread dereferences one of the session's queues. */
  function Used(w: World): World {
    w.(usedFreed := w.usedFreed || w.erased, usedBuried := w.usedBuried || w.buried)
  }

  /** emit: a full queue latches the overflow flag. */
  function Emitted(w: World, ok: bool): World {
    if !w.egressKnown then w
    else if ok then Used(w).(egress := w.egress + [Report])
    else Used(w).(overflowed := true)
  }

  /** publish_book: only a subscriber whose market-data queue is known. */
  function Published(w: World): World {
    if w.subscribed && w.marketKnown then Used(w) else w
  }

  /** kill_session: the first time only, submit cancel-all. */
  function Killed(w: World, ok: bool): World {
    if w.dead then w
    else if ok then w.(dead := true, inbound := w.inbound + [CancelAll], retiring := true)
    else w.(dead := true, refused := true)
  }

  /** The next command, taken off the queue.  An order command that cannot be
      logged is dropped; cancel-all first cancels. */
  function Taken(w: World, c: Command, logged: bool): World {
    match c
    case Open => w.(egressKnown := true, marketKnown := true)
    case Order => if logged then w.(phase := Serving(Trading)) else w
    case Subscribe => w.(phase := Serving(Subscribing), subscribed := true)
    case CancelAll => if logged then w.(phase := Burying, resting := 0) else w.(skipped := true)
  }

  function Next(w: World, a: Action): World
    requires Enabled(w, a)
  {
    match a
    case Accept(ok) => w.(present := true, announced := ok, inbound := if ok then w.inbound + [Open] else w.inbound)
    case Submit(c) => w.(inbound := w.inbound + [c])
    case Close(ok) => var v := Killed(w, ok); if v.retiring then v else v.(erased := true)
    case BeginDrain => w.(draining := !w.overflowed)
    case Pop =>
      var v := w.(egress := w.egress[1..]);
      if w.egress[0].SessionRetired? then v.(retiring := false, seen := true) else v
    case EndDrain => w.(draining := false)
    case Take(logged) => Taken(w.(inbound := w.inbound[1..]), w.inbound[0], logged)
    case Other => w.(phase := Serving(Reporting))
    case Answer(ok, now) => Emitted(w, ok).(phase := Serving(Reporting), resting := now)
    case Fill(ok, q) => Emitted(w, ok).(resting := w.resting - q)
    case Lose(q) => w.(resting := w.resting - q)
    case Publish => Published(w)
    case Finish => w.(phase := Ready)
    case Bury(ok) =>
      var v := w.(phase := ForgettingEgress, buried := true);
      if !w.egressKnown then v
      else v.(egress := if ok then w.egress + [SessionRetired] else w.egress, usedFreed := w.usedFreed || w.erased)
    case ForgetEgress => w.(phase := ForgettingMarket, egressKnown := false)
    case ForgetMarket => w.(phase := ForgettingSubscriber, marketKnown := false)
    case ForgetSubscriber => w.(phase := PublishingLast, subscribed := false)
    case PublishLast => Published(w).(phase := Ready)
  }

  // ----- what the queues can hold -------------------------------------------

  /** Orders and subscriptions only. */
  ghost predicate Plain(q: seq<Command>) {
    q == [] || ((q[0].Order? || q[0].Subscribe?) && Plain(q[1..]))
  }

  /** Orders and subscriptions, and then the cancel-all. */
  ghost predicate LastCancel(q: seq<Command>) {
    q != [] && (q == [CancelAll] || ((q[0].Order? || q[0].Subscribe?) && LastCancel(q[1..])))
  }

  ghost predicate Reports(q: seq<Event>) {
    q == [] || (q[0].Report? && Reports(q[1..]))
  }

  /** Reports and then the tombstone. */
  ghost predicate LastRetired(q: seq<Event>) {
    q != [] && (q == [SessionRetired] || (q[0].Report? && LastRetired(q[1..])))
  }

  lemma {:induction false} PlainAppend(q: seq<Command>, c: Command)
    requires Plain(q) && (c.Order? || c.Subscribe?)
    ensures Plain(q + [c]) && LastCancel(q + [CancelAll])
  {
    if q == [] {
      assert q + [c] == [c] && [c][1..] == [] && q + [CancelAll] == [CancelAll];
    } else {
      PlainAppend(q[1..], c);
      assert (q + [c])[1..] == q[1..] + [c] && (q + [CancelAll])[1..] == q[1..] + [CancelAll];
    }
  }

  lemma {:induction false} ReportsAppend(q: seq<Event>)
    requires Reports(q)
    ensures Reports(q + [Report]) && LastRetired(q + [SessionRetired])
  {
    if q == [] {
      assert q + [Report] == [Report] && [Report][1..] == [] && q + [SessionRetired] == [SessionRetired];
    } else {
      ReportsAppend(q[1..]);
      assert (q + [Report])[1..] == q[1..] + [Report] && (q + [SessionRetired])[1..] == q[1..] + [SessionRetired];
    }
  }

  lemma {:induction false} ReportsExactly(q: seq<Event>)
    requires Reports(q) || LastRetired(q)
    ensures Reports(q) <==> SessionRetired !in q
  {
    if q != [] {
      assert q == [q[0]] + q[1..];
      if q[1..] != [] {
        ReportsExactly(q[1..]);
      }
    }
  }

  /** Session-open waits in front. */
  predicate OpenAhead(q: seq<Command>) {
    q != [] && q[0].Open?
  }

  /** The commands behind session-open. */
  function Behind(q: seq<Command>): seq<Command> {
    if OpenAhead(q) then q[1..] else q
  }

  // ----- the invariant ------------------------------------------------------

  predicate Active(p: Phase) {
    p.Ready? || p.Serving?
  }

  /** What is queued, and how far the matching thread is. */
  ghost predicate Queued(w: World) {
    && (OpenAhead(w.inbound) ==> w.announced)
    && (if w.buried then w.inbound == [] && !w.phase.Burying?
        else if w.phase.Burying? then w.inbound == []
        else if w.skipped then w.inbound == [] && Active(w.phase)
        else && Active(w.phase)
             && (if w.dead && !w.refused then LastCancel(Behind(w.inbound)) else Plain(Behind(w.inbound))))
    && (w.buried || w.phase.Burying? || w.skipped ==> w.dead && !w.refused)
    && (w.skipped ==> !w.buried && !w.phase.Burying?)
    && (Owed(w.phase) || w.subscribed ==> !OpenAhead(w.inbound))
  }

  /** Which queues the matching thread can still reach. */
  ghost predicate Registered(w: World) {
    && (w.egressKnown <==> w.announced && !OpenAhead(w.inbound) && (w.buried ==> w.phase.ForgettingEgress?))
    && (w.marketKnown <==> w.announced && !OpenAhead(w.inbound) &&
                           (w.buried ==> w.phase.ForgettingEgress? || w.phase.ForgettingMarket?))
  }

  /** The network thread's fields. */
  ghost predicate Held(w: World) {
    && (!w.present ==> w == Fresh(w.resting).(phase := w.phase) && Active(w.phase) && !Owed(w.phase))
    && (w.retiring <==> w.dead && !w.refused && !w.seen)
    && (w.erased ==> w.dead && !w.retiring && !w.draining) && (w.draining ==> w.present)
    && (w.refused ==> w.dead && w.erased) && (w.seen ==> w.buried && w.dead)
  }

  ghost predicate Egress(w: World) {
    && (Reports(w.egress) || (w.buried && !w.seen && LastRetired(w.egress)))
    && (w.seen ==> w.egress == []) && (!w.announced ==> w.egress == [] && !w.seen)
  }

  ghost predicate Inv(w: World) {
    && Queued(w) && Registered(w) && Held(w) && Egress(w)
    && !w.usedBuried && (w.usedFreed ==> w.announced && w.refused)
  }

  lemma BehindAppend(q: seq<Command>, c: Command)
    requires !c.Open?
    ensures Behind(q + [c]) == Behind(q) + [c] && (OpenAhead(q + [c]) <==> OpenAhead(q))
  {
    if q != [] {
      assert (q + [c])[1..] == q[1..] + [c];
    } else {
      assert q + [c] == [c];
    }
  }

  lemma AcceptKeepsInv(w: World, ok: bool)
    requires Inv(w) && Enabled(w, Accept(ok))
    ensures Inv(Next(w, Accept(ok)))
  {
    assert [] + [Open] == [Open] && [Open][1..] == [];
  }

  lemma EgressFrame(v: World, w: World)
    requires Egress(v) && w.egress == v.egress && w.seen == v.seen && w.announced == v.announced && w.buried == v.buried
    ensures Egress(w)
  {
  }

  lemma SubmitKeepsInv(w: World, c: Command)
    requires Inv(w) && Enabled(w, Submit(c))
    ensures Inv(Next(w, Submit(c)))
  {
    hide Plain, LastCancel, Egress, Behind, OpenAhead;
    BehindAppend(w.inbound, c);
    PlainAppend(Behind(w.inbound), c);
    assert Egress(Next(w, Submit(c))) by { EgressFrame(w, Next(w, Submit(c))); }
  }

  lemma CloseKeepsInv(w: World, ok: bool)
    requires Inv(w) && Enabled(w, Close(ok))
    ensures Inv(Next(w, Close(ok)))
  {
    hide Plain, LastCancel, Egress, Behind, OpenAhead;
    if !w.dead {
      BehindAppend(w.inbound, CancelAll);
      PlainAppend(Behind(w.inbound), Order);
    }
    assert Egress(Next(w, Close(ok))) by { EgressFrame(w, Next(w, Close(ok))); }
  }

  lemma DrainKeepsInv(w: World, a: Action)
    requires Inv(w) && Enabled(w, a) && (a.BeginDrain? || a.Pop? || a.EndDrain?)
    ensures Inv(Next(w, a))
  {
    hide Plain, LastCancel, Behind, OpenAhead;
  }

  lemma HeadGone(q: seq<Command>)
    requires q != [] && (Plain(Behind(q)) || LastCancel(Behind(q)))
    ensures !OpenAhead(q[1..]) && (q[0].Open? ==> Behind(q) == q[1..])
    ensures Plain(Behind(q)) ==> Plain(Behind(q[1..])) && !q[0].CancelAll?
  {
    var rest := q[1..];
    assert (Plain(rest) || LastCancel(rest)) && rest != [] ==> !rest[0].Open?;
    assert !OpenAhead(rest);
  }

  lemma CancelHead(q: seq<Command>)
    requires q != [] && LastCancel(Behind(q))
    ensures if q[0].CancelAll? then q[1..] == [] else LastCancel(Behind(q[1..]))
  {
    HeadGone(q);
  }

  lemma TakeKeepsInv(w: World, logged: bool)
    requires Inv(w) && Enabled(w, Take(logged))
    ensures Inv(Next(w, Take(logged)))
  {
    hide Egress;
    var q, c := w.inbound, w.inbound[0];
    HeadGone(q);
    if w.dead && !w.refused {
      CancelHead(q);
    }
    hide Plain, LastCancel, Behind;
    EgressFrame(w, Next(w, Take(logged)));
    if c.CancelAll? {
      assert Queued(Next(w, Take(logged)));
    } else if c.Open? {
      assert Queued(Next(w, Take(logged)));
    } else {
      assert Queued(Next(w, Take(logged)));
    }
  }

  lemma EmitKeepsInv(w: World, a: Action)
    requires Inv(w) && Enabled(w, a) && (a.Answer? || a.Fill?)
    ensures Inv(Next(w, a))
  {
    hide Plain, LastCancel, Reports, LastRetired, Behind, OpenAhead;
    if Reports(w.egress) {
      ReportsAppend(w.egress);
    }
  }

  lemma ServeKeepsInv(w: World, a: Action)
    requires Inv(w) && Enabled(w, a) && (a.Other? || a.Lose? || a.Publish? || a.Finish?)
    ensures Inv(Next(w, a))
  {
    hide Plain, LastCancel, Egress, Behind, OpenAhead;
    EgressFrame(w, Next(w, a));
  }

  lemma BuryKeepsInv(w: World, a: Action)
    requires Inv(w) && Enabled(w, a) && !Active(w.phase)
    requires a.Bury? || a.ForgetEgress? || a.ForgetMarket? || a.ForgetSubscriber? || a.PublishLast?
    ensures Inv(Next(w, a))
  {
    hide Plain, LastCancel, Reports, LastRetired, Behind;
    if Reports(w.egress) {
      ReportsAppend(w.egress);
    }
  }

  lemma StepKeepsInv(w: World, a: Action)
    requires Inv(w) && Enabled(w, a)
    ensures Inv(Next(w, a))
  {
    hide Inv, Next;
    match a {
      case Accept(ok) => AcceptKeepsInv(w, ok);
      case Submit(c) => SubmitKeepsInv(w, c);
      case Close(ok) => CloseKeepsInv(w, ok);
      case BeginDrain => DrainKeepsInv(w, a);
      case Pop => DrainKeepsInv(w, a);
      case EndDrain => DrainKeepsInv(w, a);
      case Take(logged) => TakeKeepsInv(w, logged);
      case Other => ServeKeepsInv(w, a);
      case Answer(_, _) => EmitKeepsInv(w, a);
      case Fill(_, _) => EmitKeepsInv(w, a);
      case Lose(_) => ServeKeepsInv(w, a);
      case Publish => ServeKeepsInv(w, a);
      case Finish => ServeKeepsInv(w, a);
      case _ => BuryKeepsInv(w, a);
    }
  }

  // ----- runs ---------------------------------------------------------------

  ghost predicate Possible(w: World, run: seq<Action>)
    decreases run
  {
    run == [] || (Enabled(w, run[0]) && Possible(Next(w, run[0]), run[1..]))
  }

  function After(w: World, run: seq<Action>): World
    requires Possible(w, run)
    decreases run
  {
    if run == [] then w else After(Next(w, run[0]), run[1..])
  }

  lemma {:induction false} RunKeepsInv(w: World, run: seq<Action>)
    requires Inv(w) && Possible(w, run)
    ensures Inv(After(w, run))
    decreases run
  {
    hide Inv, Next, Enabled;
    if run != [] {
      StepKeepsInv(w, run[0]);
      RunKeepsInv(Next(w, run[0]), run[1..]);
    }
  }

  lemma FreshInv(left: nat)
    ensures Inv(Fresh(left))
  {
  }

  /** Whatever the two threads did: the matching thread never uses either queue
      after it published the tombstone, and a connection whose cancel-all was
      accepted is destroyed only after the tombstone was read. */
  lemma TombstoneFirst(left: nat, run: seq<Action>)
    requires Possible(Fresh(left), run)
    ensures var w := After(Fresh(left), run);
            && !w.usedBuried && (w.erased && !w.refused ==> w.seen && w.buried && w.announced)
            && (w.usedFreed ==> w.announced && w.refused)
  {
    RunKeepsInv(Fresh(left), run);
  }

  // ----- freed while still in use -------------------------------------------

  /** Some future has the matching thread use a freed queue. */
  ghost predicate MayUseFreed(w: World) {
    exists run: seq<Action> :: Possible(w, run) && After(w, run).usedFreed
  }

  /** The same world, with the past uses struck from the record. */
  function Forgiven(w: World): World {
    w.(usedFreed := false)
  }

  /** The matching thread still has business with the session: it has something in
      the book, it is subscribed, or a command of its own is queued or unanswered. */
  predicate Concerned(w: World) {
    w.resting > 0 || w.subscribed || Behind(w.inbound) != [] || Owed(w.phase)
  }

  lemma UseLater(w: World, a: Action)
    requires Enabled(w, a) && MayUseFreed(Next(w, a))
    ensures MayUseFreed(w)
  {
    hide Next, Enabled;
    var run: seq<Action> :| Possible(Next(w, a), run) && After(Next(w, a), run).usedFreed;
    assert ([a] + run)[1..] == run;
    assert Possible(w, [a] + run) && After(w, [a] + run).usedFreed;
  }

  lemma UsedNow(w: World)
    requires w.usedFreed
    ensures MayUseFreed(w)
  {
    assert Possible(w, []) && After(w, []).usedFreed;
  }

  lemma HeldOf(w: World)
    requires Inv(w)
    ensures Held(w) && Queued(w) && Registered(w) && Egress(w)
  {
  }

  /** Session-open was accepted and cancel-all refused: what is known is freed. */
  ghost predicate Orphaned(w: World) {
    Inv(w) && w.announced && w.refused
  }

  lemma OrphanedFacts(w: World)
    requires Orphaned(w)
    ensures w.erased && Active(w.phase) && (OpenAhead(w.inbound) || (w.egressKnown && w.marketKnown))
    ensures Owed(w.phase) || w.subscribed ==> w.egressKnown && w.marketKnown
    ensures Behind(w.inbound) != [] ==> Behind(w.inbound)[0].Order? || Behind(w.inbound)[0].Subscribe?
  {
    hide Egress, LastCancel;
  }

  lemma OrphanedStep(w: World, a: Action)
    requires Orphaned(w) && Enabled(w, a) && (a.Take? || a.Finish?)
    ensures Orphaned(Next(w, a))
  {
    StepKeepsInv(w, a);
    hide Inv;
  }

  lemma AnswerUses(w: World)
    requires Orphaned(w) && Owed(w.phase)
    ensures MayUseFreed(w)
  {
    OrphanedFacts(w);
    hide Orphaned, MayUseFreed, Possible, After;
    var a := Answer(false, w.resting);
    UsedNow(Next(w, a));
    UseLater(w, a);
  }

  lemma ReportUses(w: World)
    requires Orphaned(w) && w.phase == Serving(Reporting)
    requires (w.resting > 0 && w.egressKnown) || w.subscribed
    ensures MayUseFreed(w)
  {
    OrphanedFacts(w);
    hide Orphaned, MayUseFreed, Possible, After;
    var a := if w.subscribed then Publish else Fill(false, w.resting);
    UsedNow(Next(w, a));
    UseLater(w, a);
  }

  lemma QueueUses(w: World)
    requires Orphaned(w) && w.phase.Ready? && w.inbound != [] && !OpenAhead(w.inbound)
    ensures MayUseFreed(w)
  {
    OrphanedFacts(w);
    OrphanedStep(w, Take(true));
    AnswerUses(Next(w, Take(true)));
    UseLater(w, Take(true));
  }

  lemma OtherUses(w: World)
    requires Orphaned(w) && w.phase.Ready? && !OpenAhead(w.inbound) && (w.resting > 0 || w.subscribed)
    ensures MayUseFreed(w)
  {
    OrphanedFacts(w);
    StepKeepsInv(w, Other);
    ReportUses(Next(w, Other));
    UseLater(w, Other);
  }

  lemma ReadyUses(w: World)
    requires Orphaned(w) && w.phase.Ready? && !OpenAhead(w.inbound) && Concerned(w)
    ensures MayUseFreed(w)
  {
    hide Orphaned, MayUseFreed;
    if w.inbound != [] {
      QueueUses(w);
    } else {
      OtherUses(w);
    }
  }

  lemma OpenedUses(w: World)
    requires Orphaned(w) && w.phase.Ready? && Concerned(w)
    ensures MayUseFreed(w)
  {
    hide MayUseFreed;
    if OpenAhead(w.inbound) {
      HeldOf(w);
      HeadGone'(w.inbound);
      OrphanedStep(w, Take(true));
      hide Orphaned;
      ReadyUses(Next(w, Take(true)));
      UseLater(w, Take(true));
    } else {
      ReadyUses(w);
    }
  }

  lemma HeadGone'(q: seq<Command>)
    requires OpenAhead(q) && Plain(Behind(q))
    ensures !OpenAhead(q[1..]) && Behind(q[1..]) == Behind(q)
  {
    HeadGone(q);
  }

  lemma ConcernedUses(w: World)
    requires Orphaned(w) && Concerned(w)
    ensures MayUseFreed(w)
  {
    OrphanedFacts(w);
    if Owed(w.phase) {
      AnswerUses(w);
    } else if w.phase.Serving? {
      OrphanedStep(w, Finish);
      hide Orphaned, MayUseFreed;
      OpenedUses(Next(w, Finish));
      UseLater(w, Finish);
    } else {
      hide Orphaned, MayUseFreed;
      OpenedUses(w);
    }
  }

  /** A world that has no more business with the destroyed connection, or never
      knew it. */
  ghost predicate Settled(w: World) {
    Inv(w) && w.erased && !w.usedFreed && (w.announced && w.refused ==> !Concerned(w))
  }

  lemma SettledTake(w: World, logged: bool)
    requires Orphaned(w) && w.phase.Ready? && w.inbound != [] && !Concerned(w)
    ensures OpenAhead(w.inbound) && Next(w, Take(logged)).usedFreed == w.usedFreed
    ensures !Concerned(Next(w, Take(logged)))
  {
  }

  lemma SettledServe(w: World, a: Action)
    requires Orphaned(w) && !Concerned(w) && Enabled(w, a) && !a.Take?
    ensures !Concerned(Next(w, a)) && Next(w, a).usedFreed == w.usedFreed
  {
    OrphanedFacts(w);
    HeldOf(w);
    hide Inv, Queued, Registered, Egress, Behind, HasRoom;
  }

  lemma SettledStep(w: World, a: Action)
    requires Settled(w) && Enabled(w, a)
    ensures Settled(Next(w, a))
  {
    ErasedStep(w, a);
    if w.announced && w.refused {
      hide Inv, Next, Enabled, Concerned;
      match a {
        case Take(logged) => TakeEnabled(w, logged); SettledTake(w, logged);
        case _ => SettledServe(w, a);
      }
    }
  }

  lemma TakeEnabled(w: World, logged: bool)
    requires Enabled(w, Take(logged))
    ensures w.phase.Ready? && w.inbound != []
  {
  }

  /** Nothing about the two submissions changes once the connection is gone. */
  lemma ErasedStep(w: World, a: Action)
    requires Inv(w) && w.erased && Enabled(w, a)
    ensures var v := Next(w, a); Inv(v) && v.erased && v.announced == w.announced && v.refused == w.refused
    ensures !(w.announced && w.refused) ==> !Next(w, a).usedFreed
  {
    StepKeepsInv(w, a);
    HeldOf(w);
    assert Next(w, a).usedFreed ==> Next(w, a).announced && Next(w, a).refused;
    hide Inv, Queued, Registered, Egress;
  }

  lemma {:induction false} SettledStays(w: World, run: seq<Action>)
    requires Settled(w) && Possible(w, run)
    ensures !After(w, run).usedFreed
    decreases run
  {
    hide Inv, Next, Enabled, Concerned;
    if run != [] {
      SettledStep(w, run[0]);
      SettledStays(Next(w, run[0]), run[1..]);
    }
  }

  /** From now on, a destroyed connection's queues may be used exactly when
      session-open was accepted, cancel-all refused, and the session still has
      something resting, subscribed, queued or unanswered. */
  lemma FreedExactly(left: nat, run: seq<Action>)
    requires Possible(Fresh(left), run) && After(Fresh(left), run).erased
    ensures var w := After(Fresh(left), run);
            MayUseFreed(Forgiven(w)) <==> w.announced && w.refused && Concerned(w)
  {
    hide Next, Enabled;
    FreshInv(left);
    RunKeepsInv(Fresh(left), run);
    var w := Forgiven(After(Fresh(left), run));
    ForgivenInv(After(Fresh(left), run));
    hide Inv, Concerned;
    if w.announced && w.refused && Concerned(w) {
      ConcernedUses(w);
    } else if MayUseFreed(w) {
      var more: seq<Action> :| Possible(w, more) && After(w, more).usedFreed;
      SettledStays(w, more);
    }
  }

  lemma ForgivenInv(w: World)
    requires Inv(w)
    ensures Inv(Forgiven(w)) && (Concerned(Forgiven(w)) <==> Concerned(w))
  {
    hide Plain, LastCancel, Reports, LastRetired, Behind, OpenAhead;
  }

  // ----- never freed --------------------------------------------------------

  /** Cancel-all was accepted, and the connection waits for its tombstone. */
  predicate Waiting(w: World) {
    w.dead && !w.refused && !w.seen
  }

  /** The tombstone cannot arrive: the matching thread never learnt of the queue,
      or dropped the cancel-all it could not log, or published the tombstone and it
      is not there, or the queue overflowed, which stops draining for good. */
  predicate Lost(w: World) {
    !w.announced || w.skipped || (w.buried && SessionRetired !in w.egress) || (w.overflowed && !w.draining)
  }

  /** Some future destroys the connection. */
  ghost predicate MayErase(w: World) {
    exists run: seq<Action> :: Possible(w, run) && After(w, run).erased
  }

  lemma EraseLater(w: World, a: Action)
    requires Enabled(w, a) && MayErase(Next(w, a))
    ensures MayErase(w)
  {
    hide Next, Enabled;
    var run: seq<Action> :| Possible(Next(w, a), run) && After(Next(w, a), run).erased;
    assert ([a] + run)[1..] == run;
    assert Possible(w, [a] + run) && After(w, [a] + run).erased;
  }

  /** No step of the network thread brings a lost tombstone back. */
  lemma LostNetwork(w: World, a: Action)
    requires Held(w) && Egress(w) && (w.skipped ==> !w.buried) && Waiting(w) && Lost(w) && Enabled(w, a)
    requires a.Accept? || a.Submit? || a.Close? || a.BeginDrain? || a.Pop? || a.EndDrain?
    ensures Waiting(Next(w, a)) && Lost(Next(w, a))
  {
    hide LastRetired;
    if a.Pop? {
      assert w.egress == [w.egress[0]] + w.egress[1..];
    }
  }

  /** Neither the network thread's fields nor the history before the tombstone. */
  predicate SameOutside(v: World, w: World) {
    && v.dead == w.dead && v.refused == w.refused && v.seen == w.seen && v.announced == w.announced
    && v.draining == w.draining && v.buried == w.buried
  }

  lemma TakenFrame(w: World, c: Command, logged: bool)
    ensures var v := Taken(w, c, logged);
            SameOutside(v, w) && v.egress == w.egress && v.overflowed == w.overflowed && (w.skipped ==> v.skipped)
  {
  }

  lemma EmittedFrame(w: World, ok: bool)
    ensures SameOutside(Emitted(w, ok), w) && (w.overflowed ==> Emitted(w, ok).overflowed)
    ensures Emitted(w, ok).skipped == w.skipped
    ensures !w.egressKnown ==> Emitted(w, ok) == w
  {
  }

  lemma PublishedFrame(w: World)
    ensures SameOutside(Published(w), w) && Published(w).egress == w.egress
    ensures Published(w).overflowed == w.overflowed && Published(w).skipped == w.skipped
  {
  }

  /** What every step of the matching thread leaves alone. */
  lemma MatchingFrame(w: World, a: Action)
    requires Queued(w) && Registered(w) && Enabled(w, a)
    requires !(a.Accept? || a.Submit? || a.Close? || a.BeginDrain? || a.Pop? || a.EndDrain?)
    ensures var v := Next(w, a);
            && v.dead == w.dead && v.refused == w.refused && v.seen == w.seen && v.announced == w.announced
            && v.draining == w.draining && (w.overflowed ==> v.overflowed) && (w.skipped ==> v.skipped)
            && (w.buried ==> v.buried && v.egress == w.egress)
  {
    hide Plain, LastCancel, Behind, HasRoom, Taken, Emitted, Published;
    match a {
      case Take(logged) => TakenFrame(w.(inbound := w.inbound[1..]), w.inbound[0], logged);
      case Answer(ok, _) => EmittedFrame(w, ok);
      case Fill(ok, _) => EmittedFrame(w, ok);
      case Publish => PublishedFrame(w);
      case PublishLast => PublishedFrame(w);
      case _ =>
    }
  }

  /** Nor does one of the matching thread. */
  lemma LostMatching(w: World, a: Action)
    requires Queued(w) && Registered(w) && Waiting(w) && Lost(w) && Enabled(w, a)
    requires !(a.Accept? || a.Submit? || a.Close? || a.BeginDrain? || a.Pop? || a.EndDrain?)
    ensures Waiting(Next(w, a)) && Lost(Next(w, a))
  {
    hide Queued, Registered, Next, Enabled;
    MatchingFrame(w, a);
  }

  lemma LostStep(w: World, a: Action)
    requires Inv(w) && Waiting(w) && Lost(w) && Enabled(w, a)
    ensures var v := Next(w, a); Inv(v) && Waiting(v) && Lost(v)
  {
    HeldOf(w);
    assert w.skipped ==> !w.buried;
    hide Inv, Held, Queued, Registered, Egress, Lost, Waiting, Next, Enabled;
    StepKeepsInv(w, a);
    if a.Accept? || a.Submit? || a.Close? || a.BeginDrain? || a.Pop? || a.EndDrain? {
      LostNetwork(w, a);
    } else {
      LostMatching(w, a);
    }
  }

  lemma {:induction false} LostStays(w: World, run: seq<Action>)
    requires Inv(w) && Waiting(w) && Lost(w) && Possible(w, run)
    ensures !After(w, run).erased
    decreases run
  {
    if run == [] {
      HeldOf(w);
    } else {
      hide Inv, Next, Enabled, Lost;
      LostStep(w, run[0]);
      LostStays(Next(w, run[0]), run[1..]);
    }
  }

  /** How far a waiting connection is from its end when both threads hurry. */
  function Distance(w: World): nat {
    10 * |w.inbound| + |w.egress| + (if w.draining then 0 else 2) +
    (match w.phase case Serving(task) => (if task.Reporting? then 2 else 6) case Burying => 6 case _ => 0)
  }

  /** What hurrying means: drain while there is anything to drain, otherwise let
      the matching thread go on. */
  function Hurry(w: World): Action {
    if !w.draining then BeginDrain
    else if w.egress != [] then Pop
    else match w.phase
         case Serving(task) => if task.Reporting? then Finish else Answer(true, w.resting)
         case Burying => Bury(true)
         case _ => Take(true)
  }

  lemma HurryDrain(w: World)
    requires Inv(w) && Waiting(w) && !Lost(w) && !(w.draining && w.egress == [])
    ensures Enabled(w, Hurry(w))
    ensures var v := Next(w, Hurry(w)); v.seen || (Waiting(v) && !Lost(v) && Distance(v) < Distance(w))
  {
    HeldOf(w);
    hide Plain, Reports, LastRetired, LastCancel, Inv, Queued, Registered;
    assert w.egress != [] ==> w.egress == [w.egress[0]] + w.egress[1..];
  }

  lemma HurryMatch(w: World)
    requires Inv(w) && Waiting(w) && !Lost(w) && w.draining && w.egress == []
    ensures Enabled(w, Hurry(w))
    ensures var v := Next(w, Hurry(w)); Waiting(v) && !Lost(v) && Distance(v) < Distance(w)
  {
    HeldOf(w);
    hide Plain, Reports, LastRetired, Inv;
    assert !w.buried;
    if !w.phase.Burying? {
      assert LastCancel(Behind(w.inbound)) && w.inbound != [];
      hide LastCancel, Behind;
    }
  }

  lemma HurryStep(w: World)
    requires Inv(w) && Waiting(w) && !Lost(w)
    ensures Enabled(w, Hurry(w))
    ensures var v := Next(w, Hurry(w));
            Inv(v) && (v.seen || (Waiting(v) && !Lost(v) && Distance(v) < Distance(w)))
  {
    hide Inv, Next, Enabled, Lost, Distance, Hurry, Waiting;
    if w.draining && w.egress == [] {
      HurryMatch(w);
    } else {
      HurryDrain(w);
    }
    StepKeepsInv(w, Hurry(w));
  }

  lemma SeenErases(w: World)
    requires Inv(w) && w.seen
    ensures MayErase(w)
  {
    HeldOf(w);
    hide Inv, Queued, Registered, Egress;
    if w.erased {
      assert Possible(w, []) && After(w, []).erased;
    } else {
      var v := if w.draining then Next(w, EndDrain) else w;
      var u := Next(v, Close(true));
      assert Possible(u, []) && After(u, []).erased;
      EraseLater(v, Close(true));
      if w.draining {
        EraseLater(w, EndDrain);
      }
    }
  }

  lemma {:induction false} HurryErases(w: World)
    requires Inv(w) && Waiting(w) && !Lost(w)
    ensures MayErase(w)
    decreases Distance(w)
  {
    hide Inv, Next, Enabled, Lost, Distance, Hurry, MayErase;
    HurryStep(w);
    var v := Next(w, Hurry(w));
    if v.seen {
      SeenErases(v);
    } else {
      HurryErases(v);
    }
    EraseLater(w, Hurry(w));
  }

  /** A connection waiting for its tombstone can still be destroyed exactly when
      session-open was accepted, cancel-all was not dropped unlogged, a tombstone
      already published is in the queue, and the queue either never overflowed or is
      being drained. */
  lemma LostExactly(left: nat, run: seq<Action>)
    requires Possible(Fresh(left), run) && Waiting(After(Fresh(left), run))
    ensures var w := After(Fresh(left), run); MayErase(w) <==> !Lost(w)
  {
    hide Inv, Next, Enabled, Lost;
    var w := After(Fresh(left), run);
    FreshInv(left);
    RunKeepsInv(Fresh(left), run);
    if Lost(w) {
      if MayErase(w) {
        var more: seq<Action> :| Possible(w, more) && After(w, more).erased;
        LostStays(w, more);
      }
    } else {
      HurryErases(w);
    }
  }

  // ----- worked runs --------------------------------------------------------

  lemma {:induction false} RunAppend(w: World, a: seq<Action>, b: seq<Action>)
    requires Possible(w, a) && Possible(After(w, a), b)
    ensures Possible(w, a + b) && After(w, a + b) == After(After(w, a), b)
    decreases a
  {
    hide Next, Enabled;
    if a == [] {
      assert a + b == b;
    } else {
      assert (a + b)[1..] == a[1..] + b;
      RunAppend(Next(w, a[0]), a[1..], b);
    }
  }

  lemma RunOne(w: World, a: Action)
    requires Enabled(w, a)
    ensures Possible(w, [a]) && After(w, [a]) == Next(w, a)
  {
    hide Next, Enabled;
    assert [a][1..] == [];
  }

  lemma RunTwo(w: World, a: Action, b: Action)
    requires Enabled(w, a) && Enabled(Next(w, a), b)
    ensures Possible(w, [a, b]) && After(w, [a, b]) == Next(Next(w, a), b)
  {
    hide Next, Enabled;
    RunOne(w, a);
    RunOne(Next(w, a), b);
    RunAppend(w, [a], [b]);
    assert [a] + [b] == [a, b];
  }

  /** An accepted session whose first order, for q units, rests. */
  function Entering(q: nat): seq<Action> {
    [Accept(true), Take(true)] + [Submit(Order), Take(true)] + [Answer(true, q), Finish]
  }

  lemma Opened()
    ensures Possible(Fresh(0), [Accept(true), Take(true)])
    ensures After(Fresh(0), [Accept(true), Take(true)]) ==
            Fresh(0).(present := true, announced := true, egressKnown := true, marketKnown := true)
  {
    assert [] + [Open] == [Open] && [Open][1..] == [];
    RunTwo(Fresh(0), Accept(true), Take(true));
  }

  /** A session that entered nothing is safe from its refused cancel-all. */
  lemma SilentSession()
    ensures var run := [Accept(true), Take(true)] + [Close(false)];
            && Possible(Fresh(0), run) && After(Fresh(0), run).erased && After(Fresh(0), run).refused
            && !MayUseFreed(Forgiven(After(Fresh(0), run)))
  {
    Opened();
    hide Possible, After, MayUseFreed;
    var w := After(Fresh(0), [Accept(true), Take(true)]);
    RunOne(w, Close(false));
    RunAppend(Fresh(0), [Accept(true), Take(true)], [Close(false)]);
    FreedExactly(0, [Accept(true), Take(true)] + [Close(false)]);
  }

  /** The world once the order rests, its acknowledgement unread. */
  function Entered(q: nat): World {
    Fresh(0).(present := true, announced := true, egressKnown := true, marketKnown := true, resting := q,
              egress := [Report])
  }

  lemma Enters(q: nat)
    ensures Possible(Fresh(0), Entering(q)) && After(Fresh(0), Entering(q)) == Entered(q)
  {
    Opened();
    hide Possible, After;
    var w := After(Fresh(0), [Accept(true), Take(true)]);
    assert [] + [Order] == [Order] && [Order][1..] == [] && [] + [Report] == [Report];
    RunTwo(w, Submit(Order), Take(true));
    var v := After(w, [Submit(Order), Take(true)]);
    RunTwo(v, Answer(true, q), Finish);
    RunAppend(Fresh(0), [Accept(true), Take(true)], [Submit(Order), Take(true)]);
    RunAppend(Fresh(0), [Accept(true), Take(true)] + [Submit(Order), Take(true)], [Answer(true, q), Finish]);
  }

  /** The refused cancel-all does lead there: a fill of the order that still rests
      goes to freed queues. */
  lemma RefusedCancelAll(ok: bool)
    ensures var run := Entering(1) + [Close(false), Other] + [Fill(ok, 1)];
            Possible(Fresh(0), run) && After(Fresh(0), run).usedFreed
  {
    Enters(1);
    hide Possible, After, Entering;
    var w := Entered(1);
    RunTwo(w, Close(false), Other);
    var v := After(w, [Close(false), Other]);
    RunOne(v, Fill(ok, 1));
    RunAppend(Fresh(0), Entering(1), [Close(false), Other]);
    RunAppend(Fresh(0), Entering(1) + [Close(false), Other], [Fill(ok, 1)]);
  }

  /** n commands of other sessions, each of which trades one unit with the order. */
  function Nibbles(n: nat): seq<Action> {
    if n == 0 then [] else [Other, Fill(true, 1)] + [Finish] + Nibbles(n - 1)
  }

  /** The world after n of them, none of the events read. */
  function Nibbled(w: World, n: nat): World
    requires n <= w.resting
  {
    w.(resting := w.resting - n, egress := w.egress + seq(n, _ => Report))
  }

  lemma UsedAlive(w: World)
    requires !w.erased && !w.buried
    ensures Used(w) == w
  {
  }

  lemma FillOnce(w: World)
    requires w.phase == Serving(Reporting) && w.egressKnown && !w.erased && !w.buried
    requires |w.egress| < Capacity && w.resting > 0
    ensures Enabled(w, Fill(true, 1))
    ensures Next(w, Fill(true, 1)) == w.(resting := w.resting - 1, egress := w.egress + [Report])
  {
    UsedAlive(w);
    hide Used;
  }

  lemma NibbleOnce(w: World)
    requires w.phase.Ready? && w.egressKnown && !w.erased && !w.buried && |w.egress| < Capacity && w.resting > 0
    ensures Possible(w, [Other, Fill(true, 1)] + [Finish])
    ensures After(w, [Other, Fill(true, 1)] + [Finish]) == w.(resting := w.resting - 1, egress := w.egress + [Report])
  {
    hide Possible, After;
    var v := w.(phase := Serving(Reporting));
    FillOnce(v);
    assert Enabled(w, Other) && Next(w, Other) == v;
    hide Emitted, HasRoom;
    RunTwo(w, Other, Fill(true, 1));
    RunOne(v.(resting := w.resting - 1, egress := w.egress + [Report]), Finish);
    RunAppend(w, [Other, Fill(true, 1)], [Finish]);
  }

  lemma {:induction false} Backlog(w: World, n: nat)
    requires w.phase.Ready? && w.egressKnown && !w.erased && !w.buried
    requires |w.egress| + n <= Capacity && n <= w.resting
    ensures Possible(w, Nibbles(n)) && After(w, Nibbles(n)) == Nibbled(w, n)
    decreases n
  {
    hide Next, Enabled;
    if n == 0 {
      assert w.egress + seq(0, _ => Report) == w.egress;
    } else {
      NibbleOnce(w);
      hide Possible, After;
      var v := w.(resting := w.resting - 1, egress := w.egress + [Report]);
      Backlog(v, n - 1);
      RunAppend(w, [Other, Fill(true, 1)] + [Finish], Nibbles(n - 1));
      assert v.egress + seq(n - 1, _ => Report) == w.egress + seq(n, _ => Report);
    }
  }

  /** A client that enters one order and does not read until its queue is full. */
  function Filling(): seq<Action> {
    Entering(Capacity) + Nibbles(Capacity - 1)
  }

  lemma Filled()
    ensures Possible(Fresh(0), Filling())
    ensures var w := After(Fresh(0), Filling());
            && w.phase.Ready? && w.present && !w.erased && w.announced && w.egressKnown && w.marketKnown
            && w.inbound == [] && !w.dead && !w.draining && !w.buried && !w.refused && !w.seen && !w.overflowed
            && !w.skipped && |w.egress| == Capacity && w.resting == 1
  {
    hide Possible, After, Nibbles, Entering;
    Enters(Capacity);
    Backlog(Entered(Capacity), Capacity - 1);
    RunAppend(Fresh(0), Entering(Capacity), Nibbles(Capacity - 1));
  }

  /** The next fill overflows the queue and the session is closed for it.  Its
      cancel-all is accepted, but an overflowed queue is never drained again, so
      the connection is never destroyed. */
  lemma OverflowNeverFreed()
    ensures var run := Filling() + [Other, Fill(false, 1)] + [Close(true)];
            Possible(Fresh(0), run) && Waiting(After(Fresh(0), run)) && !MayErase(After(Fresh(0), run))
  {
    hide Possible, After, MayErase, Filling;
    Filled();
    var w := After(Fresh(0), Filling());
    RunTwo(w, Other, Fill(false, 1));
    var v := After(w, [Other, Fill(false, 1)]);
    RunOne(v, Close(true));
    RunAppend(Fresh(0), Filling(), [Other, Fill(false, 1)]);
    RunAppend(Fresh(0), Filling() + [Other, Fill(false, 1)], [Close(true)]);
    LostExactly(0, Filling() + [Other, Fill(false, 1)] + [Close(true)]);
  }

  /** The client disconnects instead: the tombstone finds the queue full and is
      dropped, and the connection is never destroyed either. */
  lemma DroppedNeverFreed()
    ensures var run := Filling() + [Close(true)] + [Take(true), Bury(false)];
            Possible(Fresh(0), run) && Waiting(After(Fresh(0), run)) && !MayErase(After(Fresh(0), run))
  {
    hide Possible, After, MayErase, Filling;
    Filled();
    NoTombstone();
    var w := After(Fresh(0), Filling());
    RunOne(w, Close(true));
    var v := Next(w, Close(true));
    assert [] + [CancelAll] == [CancelAll] && [CancelAll][1..] == [];
    RunTwo(v, Take(true), Bury(false));
    RunAppend(Fresh(0), Filling(), [Close(true)]);
    RunAppend(Fresh(0), Filling() + [Close(true)], [Take(true), Bury(false)]);
    LostExactly(0, Filling() + [Close(true)] + [Take(true), Bury(false)]);
  }

  lemma NoTombstone()
    ensures Possible(Fresh(0), Filling()) && SessionRetired !in After(Fresh(0), Filling()).egress
  {
    Filled();
    hide Possible, After, Filling;
    FreshInv(0);
    RunKeepsInv(Fresh(0), Filling());
    ReportsExactly(After(Fresh(0), Filling()).egress);
  }
}
