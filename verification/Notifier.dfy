/** How the network thread learns of new events (include/ome/notifier.hpp and the
    loop in src/net/tcp_server.cpp): the pending flag, the pipe and the scan of
    the egress queues, in every interleaving. */
module Notifiers {

  /** Matching thread: `dirty` means it pushed events it has not announced. */
  datatype Matcher = Running(dirty: bool) | Writing

  /** Network thread: scanning queue i, blocked in poll, polled (and whether the
      pipe was readable), emptying the pipe, the pipe emptied, delivering. */
  datatype Network = Scanning(i: nat) | Blocked | Polled(ready: bool) | Reading | Emptied | Delivering

  /** `egress` counts the waiting events of each connection. */
  datatype World = World(egress: seq<nat>, pending: bool, pipe: nat, matcher: Matcher, net: Network)

  datatype Action =
    | PushEvent(k: nat) | Exchange | WriteByte
    | ScanOne | EndScan | PollReturns | GoOn | ReadPipe | ClearFlag | PopEvent(k: nat) | EndDelivery

  const PIPE_CHUNK := 64

  predicate Enabled(w: World, a: Action) {
    match a
    case PushEvent(k) => w.matcher.Running? && k < |w.egress|
    case Exchange => w.matcher.Running?
    case WriteByte => w.matcher.Writing?
    case ScanOne => w.net.Scanning? && w.net.i < |w.egress|
    case EndScan => w.net.Scanning? && w.net.i == |w.egress|
    case PollReturns => w.net.Blocked?
    case GoOn => w.net.Polled?
    case ReadPipe => w.net.Reading?
    case ClearFlag => w.net.Emptied?
    case PopEvent(k) => w.net.Delivering? && k < |w.egress| && w.egress[k] > 0
    case EndDelivery => w.net.Delivering?
  }

  /** `clearLast` is the order the code uses in drain(). */
  function Next(clearLast: bool, w: World, a: Action): World
    requires Enabled(w, a)
  {
    match a
    case PushEvent(k) => w.(egress := w.egress[k := w.egress[k] + 1], matcher := Running(true))
    case Exchange => w.(pending := true, matcher := if w.pending then Running(false) else Writing)
    case WriteByte => w.(pipe := w.pipe + 1, matcher := Running(false))
    case ScanOne => w.(net := if w.egress[w.net.i] > 0 then Polled(w.pipe > 0) else Scanning(w.net.i + 1))
    case EndScan => w.(net := Blocked)
    case PollReturns => w.(net := Polled(w.pipe > 0))
    case GoOn =>
      if !w.net.ready then w.(net := Delivering)
      else if clearLast then w.(net := Reading)
      else w.(pending := false, net := Reading)
    case ReadPipe =>
      if w.pipe > 0 then w.(pipe := if w.pipe < PIPE_CHUNK then 0 else w.pipe - PIPE_CHUNK)
      else w.(net := if clearLast then Emptied else Delivering)
    case ClearFlag => w.(pending := false, net := Delivering)
    case PopEvent(k) => w.(egress := w.egress[k := w.egress[k] - 1])
    case EndDelivery => w.(net := Scanning(0))
  }

  predicate Draining(n: Network) {
    n.Reading? || n.Emptied? || (n.Polled? && n.ready)
  }

  /** One of the first n connections has something waiting. */
  ghost predicate SomeWaiting(egress: seq<nat>, n: nat)
    requires n <= |egress|
  {
    exists k :: 0 <= k < n && egress[k] > 0
  }

  /** The connections the network thread has looked at since it last delivered. */
  function Passed(w: World): nat {
    if w.net.Scanning? then w.net.i else if w.net.Blocked? then |w.egress| else 0
  }

  ghost predicate Inv(w: World) {
    && w.pipe <= 1
    && (!w.pending ==> w.pipe == 0 && w.matcher.Running?)
    && (w.pipe == 1 ==> w.matcher.Running?)
    && (w.pending && !Draining(w.net) ==> w.pipe == 1 || w.matcher.Writing?)
    && (Draining(w.net) ==> w.pending && w.matcher.Running?)
    && (w.net.Emptied? ==> w.pipe == 0)
    && Passed(w) <= |w.egress|
    && (SomeWaiting(w.egress, Passed(w)) ==> w.pending || w.matcher == Running(true))
  }

  lemma PushKeepsInv(w: World, k: nat)
    requires Inv(w) && Enabled(w, PushEvent(k))
    ensures Inv(Next(true, w, PushEvent(k)))
  {
  }

  lemma PopKeepsInv(w: World, k: nat)
    requires Inv(w) && Enabled(w, PopEvent(k))
    ensures Inv(Next(true, w, PopEvent(k)))
  {
  }

  lemma ScanKeepsInv(w: World)
    requires Inv(w) && Enabled(w, ScanOne)
    ensures Inv(Next(true, w, ScanOne))
  {
    var i := w.net.i;
    if w.egress[i] == 0 && SomeWaiting(w.egress, i + 1) {
      var k :| 0 <= k < i + 1 && w.egress[k] > 0;
      assert SomeWaiting(w.egress, i);
    }
  }

  lemma StepKeepsInv(w: World, a: Action)
    requires Inv(w) && Enabled(w, a)
    ensures Inv(Next(true, w, a))
  {
    match a
    case PushEvent(k) => PushKeepsInv(w, k);
    case PopEvent(k) => PopKeepsInv(w, k);
    case ScanOne => ScanKeepsInv(w);
    case _ =>
  }

  // ----- runs ---------------------------------------------------------------

  ghost predicate Possible(clearLast: bool, w: World, run: seq<Action>)
    decreases run
  {
    run == [] || (Enabled(w, run[0]) && Possible(clearLast, Next(clearLast, w, run[0]), run[1..]))
  }

  function After(clearLast: bool, w: World, run: seq<Action>): World
    requires Possible(clearLast, w, run)
    decreases run
  {
    if run == [] then w else After(clearLast, Next(clearLast, w, run[0]), run[1..])
  }

  lemma {:induction false} RunKeepsInv(w: World, run: seq<Action>)
    requires Inv(w) && Possible(true, w, run)
    ensures Inv(After(true, w, run))
    decreases run
  {
    if run != [] {
      hide Inv;
      StepKeepsInv(w, run[0]);
      RunKeepsInv(Next(true, w, run[0]), run[1..]);
    }
  }

  /** Any number of idle connections, nothing announced. */
  function Quiet(connections: nat): World {
    World(seq(connections, _ => 0), false, 0, Running(false), Scanning(0))
  }

  lemma QuietInv(connections: nat)
    ensures Inv(Quiet(connections))
  {
  }

  /** Blocked with events waiting, the announcement complete, nothing to read. */
  ghost predicate Missed(w: World) {
    w.net.Blocked? && SomeWaiting(w.egress, |w.egress|) && w.matcher == Running(false) && w.pipe == 0
  }

  /** The flag is up, no byte is in the pipe or on its way, and nobody is about
      to lower the flag. */
  predicate Dead(w: World) {
    w.pending && w.pipe == 0 && w.matcher.Running? && !Draining(w.net)
  }

  /** In every interleaving, with any number of connections: no missed wake-up,
      the channel is never dead, and at most one byte is ever in the pipe. */
  lemma NoMissedEvent(connections: nat, run: seq<Action>)
    requires Possible(true, Quiet(connections), run)
    ensures var w := After(true, Quiet(connections), run); !Missed(w) && !Dead(w) && w.pipe <= 1
  {
    QuietInv(connections);
    RunKeepsInv(Quiet(connections), run);
  }

  // ----- clearing the flag before reading -----------------------------------

  /** A dead channel stays dead whatever either thread does, in either order. */
  lemma {:induction false} DeadForever(clearLast: bool, w: World, run: seq<Action>)
    requires Dead(w) && Possible(clearLast, w, run)
    ensures Dead(After(clearLast, w, run))
    decreases run
  {
    if run != [] {
      DeadForever(clearLast, Next(clearLast, w, run[0]), run[1..]);
    }
  }

  lemma SwallowedByte()
    ensures var w := World([1], false, 1, Running(false), Reading);
            var run := [Exchange, WriteByte, ReadPipe, ReadPipe];
            Possible(false, w, run) && After(false, w, run) == World([1], true, 0, Running(false), Delivering)
  {
    var w5 := World([1], false, 1, Running(false), Reading);
    var w7 := World([1], true, 2, Running(false), Reading);
    var w9 := World([1], true, 0, Running(false), Delivering);
    assert Possible(false, w9, []) && After(false, w9, []) == w9;
    Twice(false, w7, ReadPipe, ReadPipe, []);
    Twice(false, w5, Exchange, WriteByte, [ReadPipe, ReadPipe]);
    hide Possible, After;
    assert [ReadPipe, ReadPipe] + [] == [ReadPipe, ReadPipe];
    assert [Exchange, WriteByte] + [ReadPipe, ReadPipe] == [Exchange, WriteByte, ReadPipe, ReadPipe];
  }

  /** The reversed order kills the channel: a notification between the clear and
      the read is swallowed by the read. */
  lemma ClearFirstDies()
    ensures var run := [PushEvent(0), Exchange] +
                       ([WriteByte, ScanOne] + ([GoOn, Exchange] + [WriteByte, ReadPipe, ReadPipe]));
            Possible(false, Quiet(1), run) && Dead(After(false, Quiet(1), run))
  {
    var w2 := World([1], true, 0, Writing, Scanning(0));
    var w4 := World([1], true, 1, Running(false), Polled(true));
    var w5 := World([1], false, 1, Running(false), Reading);
    var w6 := World([1], true, 1, Writing, Reading);
    SwallowedByte();
    var tail := [WriteByte, ReadPipe, ReadPipe];
    assert [Exchange, WriteByte, ReadPipe, ReadPipe][1..] == tail;
    assert Possible(false, w6, tail) && After(false, w6, tail) == World([1], true, 0, Running(false), Delivering);
    assert Next(false, Next(false, w4, GoOn), Exchange) == w6;
    assert Next(false, Next(false, w2, WriteByte), ScanOne) == w4;
    assert Next(false, Quiet(1), PushEvent(0)) == World([1], false, 0, Running(true), Scanning(0));
    Twice(false, w4, GoOn, Exchange, tail);
    Twice(false, w2, WriteByte, ScanOne, [GoOn, Exchange] + tail);
    hide Possible, After;
    Twice(false, Quiet(1), PushEvent(0), Exchange, [WriteByte, ScanOne] + ([GoOn, Exchange] + tail));
  }

  /** Two steps and then the rest. */
  lemma Twice(clearLast: bool, w: World, a: Action, b: Action, rest: seq<Action>)
    requires Enabled(w, a) && Enabled(Next(clearLast, w, a), b)
    ensures var v := Next(clearLast, Next(clearLast, w, a), b); var run := [a, b] + rest;
            && (Possible(clearLast, v, rest) ==>
                  Possible(clearLast, w, run) && After(clearLast, w, run) == After(clearLast, v, rest))
  {
    var run := [a, b] + rest;
    assert run[1..] == [b] + rest && run[1..][1..] == rest;
    var u := Next(clearLast, w, a);
    assert Possible(clearLast, Next(clearLast, u, b), rest) ==> Possible(clearLast, u, run[1..]);
  }
}
