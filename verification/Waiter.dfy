/** How the matching thread sleeps (include/ome/waiter.hpp): the handshake of the
    parked flag, the inbound queue and the wake pipe, in every interleaving. */
module Waiters {

  /** Network thread: a push is published before signal() reads the flag. */
  datatype Producer = Ready | Pushed | Alerting

  /** Matching thread: draining, spinning, committed to park but not yet
      rechecked, rechecked but not yet committed, blocked, awake, emptying the pipe. */
  datatype Consumer = Working | Spinning | Announced | Undecided | Blocked | Woken | Emptying

  datatype World = World(queue: nat, parked: bool, pipe: nat, prod: Producer, cons: Consumer)

  datatype Action = Push | ReadFlag | WriteByte | Pop | QueueEmpty | SpinHit | GiveUp | Recheck
                  | Park | Wake | Unpark | ReadPipe

  const PIPE_CHUNK := 256

  const Quiet := World(0, false, 0, Ready, Working)

  /** `announce` is the order the code uses: publish the flag, then look at the
      queue once more.  Without it the flag is published after the last look. */
  predicate Enabled(announce: bool, w: World, a: Action) {
    match a
    case Push => w.prod.Ready?
    case ReadFlag => w.prod.Pushed?
    case WriteByte => w.prod.Alerting?
    case Pop => w.cons.Working? && w.queue > 0
    case QueueEmpty => w.cons.Working? && w.queue == 0
    case SpinHit => w.cons.Spinning? && w.queue > 0
    case GiveUp => w.cons.Spinning? && (announce || w.queue == 0)
    case Recheck => w.cons.Announced?
    case Park => w.cons.Undecided?
    case Wake => w.cons.Blocked?     // a readable pipe, or the timeout
    case Unpark => w.cons.Woken?
    case ReadPipe => w.cons.Emptying?
  }

  /** `room` is the pipe's capacity; a write to a full pipe is dropped. */
  function Next(announce: bool, room: nat, w: World, a: Action): World
    requires Enabled(announce, w, a)
  {
    match a
    case Push => w.(queue := w.queue + 1, prod := Pushed)
    case ReadFlag => w.(prod := if w.parked then Alerting else Ready)
    case WriteByte => w.(pipe := if w.pipe < room then w.pipe + 1 else w.pipe, prod := Ready)
    case Pop => w.(queue := w.queue - 1)
    case QueueEmpty => w.(cons := Spinning)
    case SpinHit => w.(cons := Working)
    case GiveUp => if announce then w.(parked := true, cons := Announced) else w.(cons := Undecided)
    case Recheck => if w.queue > 0 then w.(parked := false, cons := Working) else w.(cons := Blocked)
    case Park => w.(parked := true, cons := Blocked)
    case Wake => w.(cons := Woken)
    case Unpark => w.(parked := false, cons := Emptying)
    case ReadPipe =>
      if w.pipe < PIPE_CHUNK then w.(pipe := 0, cons := Working) else w.(pipe := w.pipe - PIPE_CHUNK)
  }

  /** Asleep with work waiting, the signal finished, and nothing to wake it. */
  predicate Missed(w: World) {
    w.cons.Blocked? && w.queue > 0 && w.prod.Ready? && w.pipe == 0
  }

  ghost predicate Inv(w: World) {
    && (w.parked <==> w.cons.Announced? || w.cons.Blocked? || w.cons.Woken?)
    && !w.cons.Undecided?
    && (w.cons.Blocked? && w.queue > 0 ==> w.pipe > 0 || !w.prod.Ready?)
  }

  lemma StepKeepsInv(room: nat, w: World, a: Action)
    requires room > 0 && Inv(w) && Enabled(true, w, a)
    ensures Inv(Next(true, room, w, a))
  {
  }

  ghost predicate Possible(announce: bool, room: nat, w: World, run: seq<Action>)
    decreases run
  {
    run == [] || (Enabled(announce, w, run[0]) && Possible(announce, room, Next(announce, room, w, run[0]), run[1..]))
  }

  function After(announce: bool, room: nat, w: World, run: seq<Action>): World
    requires Possible(announce, room, w, run)
    decreases run
  {
    if run == [] then w else After(announce, room, Next(announce, room, w, run[0]), run[1..])
  }

  lemma {:induction false} RunKeepsInv(room: nat, w: World, run: seq<Action>)
    requires room > 0 && Inv(w) && Possible(true, room, w, run)
    ensures Inv(After(true, room, w, run))
    decreases run
  {
    if run != [] {
      StepKeepsInv(room, w, run[0]);
      RunKeepsInv(room, Next(true, room, w, run[0]), run[1..]);
    }
  }

  /** What the producer still has to do before a sleeper is woken. */
  function Rescue(w: World): seq<Action> {
    if w.pipe > 0 then [] else if w.prod.Pushed? then [ReadFlag, WriteByte] else [WriteByte]
  }

  /** No reachable state is a missed wake-up, after any number of earlier sleeps,
      spurious wakes and drains; and whenever the thread sleeps on a non-empty
      queue, the push under way leads to a readable pipe by itself. */
  lemma NoMissedWakeup(room: nat, run: seq<Action>)
    requires room > 0 && Possible(true, room, Quiet, run)
    ensures var w := After(true, room, Quiet, run);
            && !Missed(w)
            && (w.cons.Blocked? && w.queue > 0 ==>
                  Possible(true, room, w, Rescue(w)) && After(true, room, w, Rescue(w)).pipe > 0)
  {
    RunKeepsInv(room, Quiet, run);
    var w := After(true, room, Quiet, run);
    if w.cons.Blocked? && w.queue > 0 {
      RescueWorks(room, w);
    }
  }

  lemma RescueWorks(room: nat, w: World)
    requires room > 0 && Inv(w) && w.cons.Blocked? && w.queue > 0
    ensures Possible(true, room, w, Rescue(w)) && After(true, room, w, Rescue(w)).pipe > 0
  {
    assert [ReadFlag, WriteByte][1..] == [WriteByte] && [WriteByte][1..] == [];
    var v := if w.prod.Pushed? then Next(true, room, w, ReadFlag) else w;
    if w.pipe == 0 {
      assert v.prod.Alerting?;
      var u := Next(true, room, v, WriteByte);
      assert Possible(true, room, u, []) && After(true, room, u, []) == u;
      assert Possible(true, room, v, [WriteByte]) && After(true, room, v, [WriteByte]) == u;
    }
  }

  /** The reversed order does miss one: look, push and signal, then park. */
  lemma ReversedOrderMisses(room: nat)
    ensures var run := [QueueEmpty, GiveUp, Push, ReadFlag, Park];
            Possible(false, room, Quiet, run) && Missed(After(false, room, Quiet, run))
  {
    var w1 := Next(false, room, Quiet, QueueEmpty);
    var w2 := Next(false, room, w1, GiveUp);
    var w3 := Next(false, room, w2, Push);
    var w4 := Next(false, room, w3, ReadFlag);
    var w5 := Next(false, room, w4, Park);
    var run := [QueueEmpty, GiveUp, Push, ReadFlag, Park];
    assert run[1..] == [GiveUp, Push, ReadFlag, Park] && run[2..] == [Push, ReadFlag, Park];
    assert run[3..] == [ReadFlag, Park] && run[4..] == [Park] && run[5..] == [];
    assert Possible(false, room, w5, run[5..]) && After(false, room, w5, run[5..]) == w5;
    assert Possible(false, room, w4, run[4..]) && After(false, room, w4, run[4..]) == w5;
    assert Possible(false, room, w3, run[3..]) && After(false, room, w3, run[3..]) == w5;
    assert Possible(false, room, w2, run[2..]) && After(false, room, w2, run[2..]) == w5;
    assert Possible(false, room, w1, run[1..]) && After(false, room, w1, run[1..]) == w5;
  }
}
