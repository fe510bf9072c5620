/** The single-producer single-consumer ring (include/spsc_queue.h): first the
    ring as an object, then every interleaving of the producer's and consumer's
    loads and stores, where a load of the other side's index may be stale. */
module Spsc {
  import opened Orders

  // ----- ring positions -----------------------------------------------------

  /** The index after i on a ring of m slots. */
  function Wrap(i: nat, m: nat): (r: nat)
    requires i < m
    ensures r == (i + 1) % m && r < m
  {
    if i + 1 == m then 0 else i + 1
  }

  /** The slot of the k-th element ever pushed. */
  function Slot(k: nat, m: nat): (r: nat)
    requires m > 0
    ensures r < m
    decreases k
  {
    if k == 0 then 0 else Wrap(Slot(k - 1, m), m)
  }

  lemma NextSlot(k: nat, m: nat)
    requires m > 0
    ensures Slot(k + 1, m) == Wrap(Slot(k, m), m)
  {
  }

  lemma {:induction false} SlotAhead(k: nat, d: nat, m: nat)
    requires m > 0 && d <= m
    ensures Slot(k + d, m) == if Slot(k, m) + d < m then Slot(k, m) + d else Slot(k, m) + d - m
    decreases d
  {
    if d > 0 {
      SlotAhead(k, d - 1, m);
    }
  }

  /** Positions less than a lap apart use different slots, a lap apart the same. */
  lemma SlotsDiffer(i: nat, j: nat, m: nat)
    requires m > 0 && i <= j <= i + m
    ensures Slot(i, m) == Slot(j, m) <==> i == j || j == i + m
  {
    SlotAhead(i, j - i, m);
  }

  /** "next == tail" says full and "head == tail" says empty, on any lap. */
  lemma IndexTests(head: nat, tail: nat, n: nat)
    requires tail <= head <= tail + n
    ensures Wrap(Slot(head, n + 1), n + 1) == Slot(tail, n + 1) <==> head == tail + n
    ensures Slot(head, n + 1) == Slot(tail, n + 1) <==> head == tail
  {
    SlotsDiffer(tail, head, n + 1);
    SlotsDiffer(tail, head + 1, n + 1);
  }

  // ----- what the slots hold ------------------------------------------------

  /** Slots of the unread elements hold them, oldest first. */
  ghost predicate Stored<T>(slots: seq<T>, from: nat, elems: seq<T>)
    decreases elems
  {
    elems == [] || (|slots| > 0 && slots[Slot(from, |slots|)] == elems[0] && Stored(slots, from + 1, elems[1..]))
  }

  /** Filling a free slot disturbs nothing unread. */
  lemma {:induction false} StoredFrame<T>(slots: seq<T>, from: nat, elems: seq<T>, to: nat, x: T)
    requires Stored(slots, from, elems) && 0 < |slots| && from + |elems| <= to < from + |slots|
    ensures Stored(slots[Slot(to, |slots|) := x], from, elems)
    decreases elems
  {
    if elems != [] {
      SlotsDiffer(from, to, |slots|);
      StoredFrame(slots, from + 1, elems[1..], to, x);
    }
  }

  lemma {:induction false} StoredAppend<T>(slots: seq<T>, from: nat, elems: seq<T>, x: T)
    requires Stored(slots, from, elems) && 0 < |slots| && slots[Slot(from + |elems|, |slots|)] == x
    ensures Stored(slots, from, elems + [x])
    decreases elems
  {
    if elems == [] {
      assert elems + [x] == [x] && [x][1..] == [];
    } else {
      assert (elems + [x])[1..] == elems[1..] + [x];
      StoredAppend(slots, from + 1, elems[1..], x);
    }
  }

  // ----- the ring as an object ----------------------------------------------

  class SpscQueue<T(0)> {
    const capacity: nat
    const buffer: array<T>
    var head: nat
    var tail: nat
    /** Everything ever pushed and how much of it was popped. */
    ghost var pushed: seq<T>
    ghost var popped: nat

    ghost predicate Valid()
      reads this, buffer
    {
      && capacity > 0 && buffer.Length == capacity + 1
      && popped <= |pushed| <= popped + capacity
      && head == Slot(|pushed|, capacity + 1) && tail == Slot(popped, capacity + 1)
      && Stored(buffer[..], popped, pushed[popped..])
    }

    /** The buffered elements, oldest first. */
    ghost function Contents(): seq<T>
      requires Valid()
      reads this, buffer
    {
      pushed[popped..]
    }

    constructor (n: nat)
      requires n > 0
      ensures Valid() && fresh(buffer) && capacity == n && Contents() == []
    {
      capacity := n;
      buffer := new T[n + 1];
      head, tail, pushed, popped := 0, 0, [], 0;
    }

    /** Refuses exactly when full; otherwise the element joins the back. */
    method Push(x: T) returns (ok: bool)
      requires Valid()
      modifies this`head, this`pushed, buffer
      ensures Valid()
      ensures ok <==> |old(Contents())| < capacity
      ensures Contents() == if ok then old(Contents()) + [x] else old(Contents())
    {
      hide Slot, Stored;
      NextSlot(|pushed|, capacity + 1);
      var next := Wrap(head, capacity + 1);
      IndexTests(|pushed|, popped, capacity);
      if next == tail {
        return false;
      }
      ghost var was, elems := buffer[..], pushed[popped..];
      StoredFrame(was, popped, elems, |pushed|, x);
      buffer[head] := x;
      assert buffer[..] == was[head := x];
      StoredAppend(buffer[..], popped, elems, x);
      assert (pushed + [x])[popped..] == elems + [x];
      pushed := pushed + [x];
      head := next;
      ok := true;
    }

    method Empty() returns (b: bool)
      requires Valid()
      ensures b <==> Contents() == []
    {
      IndexTests(|pushed|, popped, capacity);
      b := tail == head;
    }

    /** Yields the oldest element, or nothing from an empty ring. */
    method Pop() returns (r: Option<T>)
      requires Valid()
      modifies this`tail, this`popped
      ensures Valid()
      ensures r == if old(Contents()) == [] then None else Some(old(Contents())[0])
      ensures Contents() == if old(Contents()) == [] then [] else old(Contents())[1..]
    {
      IndexTests(|pushed|, popped, capacity);
      if tail == head {
        return None;
      }
      r := Some(buffer[tail]);
      assert pushed[popped..][1..] == pushed[popped + 1..];
      tail := Wrap(tail, capacity + 1);
      popped := popped + 1;
    }
  }

  // ----- every interleaving -------------------------------------------------

  datatype Producer<T> = Ready | Checked(x: T) | Filled(x: T)

  datatype Consumer<T> = Waiting | Seen | Took(x: T)

  /** The shared ring, both threads' program counters, and the newest index of
      the other side each thread has seen, counted in elements. */
  datatype Ring<T> = Ring(slots: seq<T>, head: nat, tail: nat, prod: Producer<T>, cons: Consumer<T>,
                          pushed: seq<T>, popped: seq<T>, tailSeen: nat, headSeen: nat)

  datatype Action<T> =
    | PushCheck(x: T, view: nat)  // load both indices; the tail read as it was after `view` pops
    | PushFill                    // write the slot
    | PushPublish                 // store head
    | PopCheck(view: nat)         // load both indices; the head read as it was after `view` pushes
    | PopTake                     // read the slot
    | PopPublish                  // store tail

  predicate Enabled<T>(r: Ring<T>, a: Action<T>) {
    match a
    case PushCheck(_, view) => r.prod.Ready? && r.tailSeen <= view <= |r.popped|
    case PushFill => r.prod.Checked? && r.head < |r.slots|
    case PushPublish => r.prod.Filled? && r.head < |r.slots|
    case PopCheck(view) => r.cons.Waiting? && r.headSeen <= view <= |r.pushed|
    case PopTake => r.cons.Seen? && r.tail < |r.slots|
    case PopPublish => r.cons.Took? && r.tail < |r.slots|
  }

  function Next<T>(r: Ring<T>, a: Action<T>): Ring<T>
    requires |r.slots| > 0 && r.head < |r.slots| && Enabled(r, a)
  {
    var m := |r.slots|;
    match a
    case PushCheck(x, view) =>
      if Wrap(r.head, m) == Slot(view, m) then r.(tailSeen := view) else r.(tailSeen := view, prod := Checked(x))
    case PushFill => r.(slots := r.slots[r.head := r.prod.x], prod := Filled(r.prod.x))
    case PushPublish => r.(head := Wrap(r.head, m), pushed := r.pushed + [r.prod.x], prod := Ready)
    case PopCheck(view) =>
      if r.tail == Slot(view, m) then r.(headSeen := view) else r.(headSeen := view, cons := Seen)
    case PopTake => r.(cons := Took(r.slots[r.tail]))
    case PopPublish => r.(tail := Wrap(r.tail, m), popped := r.popped + [r.cons.x], cons := Waiting)
  }

  /** Unread elements: pushed and not yet popped. */
  function Unread<T>(r: Ring<T>): seq<T>
    requires |r.popped| <= |r.pushed|
  {
    r.pushed[|r.popped|..]
  }

  ghost predicate Inv<T>(r: Ring<T>, n: nat) {
    && n > 0 && |r.slots| == n + 1
    && r.tailSeen <= |r.popped| <= r.headSeen <= |r.pushed| <= r.tailSeen + n
    && r.head == Slot(|r.pushed|, n + 1) && r.tail == Slot(|r.popped|, n + 1)
    && r.popped == r.pushed[..|r.popped|] && Stored(r.slots, |r.popped|, Unread(r))
    && (!r.prod.Ready? ==> |r.pushed| < r.tailSeen + n)
    && (r.prod.Filled? ==> r.slots[r.head] == r.prod.x)
    && (!r.cons.Waiting? ==> |r.popped| < r.headSeen)
    && (r.cons.Took? ==> r.cons.x == r.pushed[|r.popped|])
  }

  ghost predicate Initial<T>(r: Ring<T>, n: nat) {
    && n > 0 && |r.slots| == n + 1 && r.head == 0 && r.tail == 0 && r.prod.Ready? && r.cons.Waiting?
    && r.pushed == [] && r.popped == [] && r.tailSeen == 0 && r.headSeen == 0
  }

  lemma PushKeepsInv<T>(r: Ring<T>, n: nat, a: Action<T>)
    requires Inv(r, n) && Enabled(r, a) && (a.PushCheck? || a.PushFill? || a.PushPublish?)
    ensures Inv(Next(r, a), n)
  {
    match a
    case PushCheck(x, view) => IndexTests(|r.pushed|, view, n);
    case PushFill => StoredFrame(r.slots, |r.popped|, Unread(r), |r.pushed|, r.prod.x);
    case PushPublish =>
      StoredAppend(r.slots, |r.popped|, Unread(r), r.prod.x);
      assert (r.pushed + [r.prod.x])[|r.popped|..] == Unread(r) + [r.prod.x];
  }

  lemma PopKeepsInv<T>(r: Ring<T>, n: nat, a: Action<T>)
    requires Inv(r, n) && Enabled(r, a) && (a.PopCheck? || a.PopTake? || a.PopPublish?)
    ensures Inv(Next(r, a), n)
  {
    match a
    case PopCheck(view) => IndexTests(view, |r.popped|, n);
    case PopTake => assert Unread(r)[0] == r.pushed[|r.popped|];
    case PopPublish =>
      assert Unread(r)[1..] == r.pushed[|r.popped| + 1..];
      assert r.pushed[..|r.popped| + 1] == r.pushed[..|r.popped|] + [r.pushed[|r.popped|]];
  }

  /** The run is possible from r. */
  ghost predicate Possible<T>(r: Ring<T>, run: seq<Action<T>>)
    decreases run
  {
    run == [] || (|r.slots| > 0 && r.head < |r.slots| && Enabled(r, run[0]) && Possible(Next(r, run[0]), run[1..]))
  }

  function After<T>(r: Ring<T>, run: seq<Action<T>>): Ring<T>
    requires Possible(r, run)
    decreases run
  {
    if run == [] then r else After(Next(r, run[0]), run[1..])
  }

  lemma {:induction false} RunKeepsInv<T>(r: Ring<T>, n: nat, run: seq<Action<T>>)
    requires Inv(r, n) && Possible(r, run)
    ensures Inv(After(r, run), n)
    decreases run
  {
    if run != [] {
      hide Inv, Next, Enabled;
      var a := run[0];
      if a.PushCheck? || a.PushFill? || a.PushPublish? {
        PushKeepsInv(r, n, a);
      } else {
        PopKeepsInv(r, n, a);
      }
      RunKeepsInv(Next(r, a), n, run[1..]);
    }
  }

  /** None of the elements from..to lives in this slot. */
  ghost predicate HoldsNone(slot: nat, from: nat, to: nat, m: nat)
    requires m > 0
  {
    forall k :: from <= k < to ==> Slot(k, m) != slot
  }

  /** In every interleaving: what was popped is a prefix of what was pushed, in
      order; at most n elements are buffered; a slot about to be written holds no
      unread element and is not the one the consumer is reading. */
  lemma Linearized<T>(r: Ring<T>, n: nat, run: seq<Action<T>>)
    requires Initial(r, n) && Possible(r, run)
    ensures var s := After(r, run);
            && s.popped <= s.pushed && |s.pushed| - |s.popped| <= n
            && (s.prod.Checked? ==> HoldsNone(s.head, |s.popped|, |s.pushed|, n + 1))
            && (s.prod.Checked? && !s.cons.Waiting? ==> s.head != s.tail)
  {
    RunKeepsInv(r, n, run);
    var s := After(r, run);
    var m := n + 1;
    if s.prod.Checked? {
      forall k | |s.popped| <= k < |s.pushed|
        ensures Slot(k, m) != s.head
      {
        SlotsDiffer(k, |s.pushed|, m);
      }
    }
  }

  /** A refused push was full, and an empty answer was empty, at the moment the
      other side's index was read. */
  lemma Refusals<T>(r: Ring<T>, n: nat, a: Action<T>)
    requires Inv(r, n) && Enabled(r, a)
    ensures a.PushCheck? ==> (Next(r, a).prod.Ready? <==> |r.pushed| - a.view == n)
    ensures a.PopCheck? ==> (Next(r, a).cons.Waiting? <==> a.view == |r.popped|)
  {
    match a
    case PushCheck(x, view) => IndexTests(|r.pushed|, view, n);
    case PopCheck(view) => IndexTests(view, |r.popped|, n);
    case _ =>
  }
}
