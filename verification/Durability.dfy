/** The durability protocol: append-before-apply, the rename to .prev, log
    truncation behind the previous snapshot, and recovery, as atomic steps with a
    crash allowed between any two, and inside an append at any byte
    (include/ome/matching_thread.hpp, wal.hpp, snapshot.hpp, src/gateway_main.cpp). */
module Durability {
  import opened Orders
  import opened Crc
  import opened Codec
  import opened ThreadSpec
  import opened Invariant
  import opened Similarity
  import opened Snapshots
  import opened Restoring
  import opened WriteAheadLog
  import opened TornTails

  /** A snapshot path: absent, intact, or failing its checksum behind a header
      that still reads. */
  datatype File = Missing | Holds(d: SnapshotData) | Damaged(lastSeq: nat)

  /** The bytes of the log, and the two snapshots. */
  datatype Disk = Disk(file: seq<byte>, snap: File, prev: File)

  /** Where the matching thread stands between two of its disk operations. */
  datatype Phase = Idle | Logged(c: Command) | Renamed | Written

  datatype Memory = Memory(state: State, lastSeq: nat, lastSnap: nat, nextSnap: nat, phase: Phase)

  datatype Process = Down | Up(m: Memory)

  /** `history` lists every command whose append completed. */
  datatype System = System(disk: Disk, proc: Process, history: seq<Command>)

  datatype Action =
    | Append(c: Command)          // the record is on disk, the command not yet applied
    | ApplyLogged
    | Tear(lost: Command, k: nat) // the process dies with k bytes of a record written
    | StartSnapshot               // the current snapshot becomes .prev
    | FailSnapshot
    | WriteSnapshot
    | FinishSnapshot              // truncate behind the previous snapshot, move the baseline
    | Crash
    | Restart
    | Damage                      // the newest snapshot's body stops matching its checksum

  const Start := System(Disk([], Missing, Missing), Down, [])

  // ----- recovery -----------------------------------------------------------

  /** The newest snapshot, else the one kept behind it, else none. */
  function Chosen(disk: Disk): Option<SnapshotData> {
    if disk.snap.Holds? then Some(disk.snap.d) else if disk.prev.Holds? then Some(disk.prev.d) else None
  }

  function Covers(disk: Disk): nat {
    if Chosen(disk).Some? then Chosen(disk).value.lastSeq else 0
  }

  /** The records the snapshot does not cover. */
  function Pending(disk: Disk): seq<Command> {
    var rd := ReadWal(disk.file);
    if Chosen(disk).Some? then rd.commands[Dropped(rd.firstSeq, |rd.commands|, Covers(disk))..] else rd.commands
  }

  /** The loop that picks the records to replay, counting from the log's own
      first number. */
  method SelectPending(rd: ReadResult, have: bool, lastSeq: nat, ghost disk: Disk) returns (pending: seq<Command>)
    requires rd == ReadWal(disk.file) && have == Chosen(disk).Some? && (have ==> lastSeq == Covers(disk))
    ensures pending == Pending(disk)
  {
    hide ReadWal;
    pending := [];
    var number := rd.firstSeq;
    ghost var from := if have then Dropped(rd.firstSeq, |rd.commands|, lastSeq) else 0;
    for i := 0 to |rd.commands|
      invariant number == rd.firstSeq + i
      invariant pending == if i <= from then [] else rd.commands[from..i]
    {
      if !have || number > lastSeq {
        pending := pending + [rd.commands[i]];
      }
      number := number + 1;
    }
  }

  function Recovered(cfg: Config, disk: Disk): State {
    Run(cfg, if Chosen(disk).Some? then Restore(cfg, Chosen(disk).value) else Init, Pending(disk))
  }

  /** What a failed read leaves in the snapshot structure. */
  function HeaderSeq(disk: Disk): nat {
    if Chosen(disk).Some? then Covers(disk)
    else if disk.prev.Damaged? then disk.prev.lastSeq
    else if disk.snap.Damaged? then disk.snap.lastSeq else 0
  }

  /** The number the reopened log continues from. */
  function Resume(disk: Disk): nat {
    Max(ReadWal(disk.file).lastSeq, HeaderSeq(disk))
  }

  /** The process right after a restart; a restored snapshot is the baseline. */
  function Booted(cfg: Config, every: nat, disk: Disk): Memory {
    Memory(Recovered(cfg, disk), Resume(disk), Covers(disk),
           if Chosen(disk).Some? then Covers(disk) + every else 0, Idle)
  }

  // ----- the steps ----------------------------------------------------------

  /** The log rewritten from what is readable above `keepAfter`. */
  function Truncated(file: seq<byte>, keepAfter: nat): seq<byte> {
    var rd := ReadWal(file);
    var d := Dropped(rd.firstSeq, |rd.commands|, keepAfter);
    Log(rd.firstSeq + d, rd.commands[d..])
  }

  /** rename(snap, prev); a missing source leaves .prev alone. */
  function MovedAside(disk: Disk): Disk {
    if disk.snap.Missing? then disk else disk.(prev := disk.snap, snap := Missing)
  }

  /** The first k bytes of a record. */
  function Part(n: nat, c: Command, k: nat): seq<byte> {
    if k <= |Record(n, c)| then Record(n, c)[..k] else Record(n, c)
  }

  predicate CanAppend(sys: System, c: Command) {
    sys.proc.Up? && sys.proc.m.phase.Idle? && InRange(c) && sys.proc.m.lastSeq + 1 < U64_RANGE
  }

  predicate Enabled(every: nat, sys: System, a: Action) {
    match a
    case Restart => sys.proc.Down? && !ReadWal(sys.disk.file).gap
    case Damage => sys.disk.snap.Holds?
    case Crash => sys.proc.Up?
    case Append(c) => CanAppend(sys, c)
    case Tear(c, k) => CanAppend(sys, c) && k < RECORD
    case ApplyLogged => sys.proc.Up? && sys.proc.m.phase.Logged?
    case StartSnapshot =>
      every > 0 && sys.proc.Up? && sys.proc.m.phase.Idle? && sys.proc.m.lastSeq >= sys.proc.m.nextSnap
    case FailSnapshot => sys.proc.Up? && sys.proc.m.phase.Renamed?
    case WriteSnapshot => sys.proc.Up? && sys.proc.m.phase.Renamed?
    case FinishSnapshot => sys.proc.Up? && sys.proc.m.phase.Written?
  }

  function Next(cfg: Config, every: nat, sys: System, a: Action): System
    requires Enabled(every, sys, a)
  {
    var disk := sys.disk;
    match a
    case Crash => sys.(proc := Down)
    case Tear(c, k) => sys.(proc := Down, disk := disk.(file := disk.file + Part(sys.proc.m.lastSeq + 1, c, k)))
    case Damage => sys.(disk := disk.(snap := Damaged(disk.snap.d.lastSeq)))
    case Restart => sys.(proc := Up(Booted(cfg, every, disk)))
    case Append(c) =>
      var m := sys.proc.m;
      System(disk.(file := disk.file + Record(m.lastSeq + 1, c)),
             Up(m.(lastSeq := m.lastSeq + 1, phase := Logged(c))), sys.history + [c])
    case ApplyLogged =>
      var m := sys.proc.m;
      sys.(proc := Up(m.(state := Apply(cfg, m.state, m.phase.c).state, phase := Idle)))
    case StartSnapshot => sys.(disk := MovedAside(disk), proc := Up(sys.proc.m.(phase := Renamed)))
    case FailSnapshot => sys.(proc := Up(sys.proc.m.(phase := Idle)))
    case WriteSnapshot =>
      var m := sys.proc.m;
      sys.(disk := disk.(snap := Holds(Export(m.state, m.lastSeq))), proc := Up(m.(phase := Written)))
    case FinishSnapshot =>
      var m := sys.proc.m;
      sys.(disk := if m.lastSnap > 0 then disk.(file := Truncated(disk.file, m.lastSnap)) else disk,
           proc := Up(m.(lastSnap := m.lastSeq, nextSnap := m.lastSeq + every, phase := Idle)))
  }

  // ----- what the file holds ------------------------------------------------

  /** Records base+1, base+2, ... and then fewer bytes than a record, which are
      none. */
  ghost predicate Image(file: seq<byte>, base: nat, cs: seq<Command>, tail: seq<byte>) {
    && AllInRange(cs) && base + 1 + |cs| <= U64_RANGE
    && file == Log(base + 1, cs) + tail && NextRecord(tail).None? && |tail| < RECORD
  }

  lemma ImageReads(file: seq<byte>, base: nat, cs: seq<Command>, tail: seq<byte>)
    requires Image(file, base, cs, tail)
    ensures ReadWal(file) ==
            ReadResult(cs, if cs == [] then 0 else base + 1, if cs == [] then 0 else base + |cs|, |tail|, false)
  {
    hide Log, NextRecord, ReadWal;
    ReadThrough(base + 1, cs, tail);
  }

  /** The bytes the reader could make nothing of. */
  function Torn(file: seq<byte>): seq<byte> {
    var t := ReadWal(file).truncated;
    if t <= |file| then file[|file| - t..] else file
  }

  lemma ImageTorn(file: seq<byte>, base: nat, cs: seq<Command>, tail: seq<byte>)
    requires Image(file, base, cs, tail)
    ensures Torn(file) == tail
  {
    hide Log, NextRecord, ReadWal;
    ImageReads(file, base, cs, tail);
  }

  /** What is read when up to two records' worth of bytes follows a log: nothing
      more, one record more, or a gap. */
  lemma ReadBehind(base: nat, cs: seq<Command>, buf: seq<byte>)
    requires AllInRange(cs) && base + 1 + |cs| <= U64_RANGE && |buf| < 2 * RECORD
    ensures var rd := ReadWal(Log(base + 1, cs) + buf); var e := NextRecord(buf);
            && (e.None? ==> rd == ReadResult(cs, if cs == [] then 0 else base + 1,
                                             if cs == [] then 0 else base + |cs|, |buf|, false))
            && (e.Some? && cs != [] && e.value.seqno != base + |cs| + 1 ==> rd.gap)
            && (e.Some? && (cs == [] || e.value.seqno == base + |cs| + 1) ==>
                  rd == ReadResult(cs + [e.value.command], if cs == [] then e.value.seqno else base + 1,
                                   e.value.seqno, |buf| - RECORD, false))
  {
    hide Log, NextRecord;
    ScanThrough(base + 1, cs, buf, NothingRead);
    assert [] + cs == cs;
    var e := NextRecord(buf);
    if e.Some? {
      AcceptedIs(buf);
      ShortRefused(e.value.rest);
    }
  }

  // ----- when recovery replays everything -----------------------------------

  /** Every record read is the logged command of that number. */
  ghost predicate Numbered(rd: ReadResult, history: seq<Command>) {
    if rd.commands == [] then rd.lastSeq == 0
    else && rd.firstSeq > 0 && rd.lastSeq == rd.firstSeq + |rd.commands| - 1 <= |history|
         && rd.commands == history[rd.firstSeq - 1..rd.lastSeq]
  }

  /** The log reads without a gap as logged commands, the snapshot's prefix and
      the replayed tail make up the whole history, and numbering goes on there. */
  ghost predicate Covered(disk: Disk, history: seq<Command>) {
    && !ReadWal(disk.file).gap && Numbered(ReadWal(disk.file), history)
    && Covers(disk) <= |history| && history[..Covers(disk)] + Pending(disk) == history
    && Resume(disk) == |history|
  }

  /** An intact snapshot stands for the prefix it was taken after. */
  ghost predicate FileOk(cfg: Config, f: File, history: seq<Command>) {
    && (f.Holds? ==> StandsFor(cfg, f.d, history))
    && (f.Damaged? ==> f.lastSeq <= |history|)
  }

  ghost predicate StandsFor(cfg: Config, d: SnapshotData, history: seq<Command>) {
    && d.lastSeq <= |history| && Inv(cfg, Restore(cfg, d))
    && Similar(Restore(cfg, d), Run(cfg, Init, history[..d.lastSeq]))
  }

  lemma FilesBelow(cfg: Config, disk: Disk, history: seq<Command>)
    requires FileOk(cfg, disk.snap, history) && FileOk(cfg, disk.prev, history)
    ensures Covers(disk) <= |history| && HeaderSeq(disk) <= |history|
  {
    hide Restore, Run, Similar, Inv;
  }

  lemma PendingIs(disk: Disk, rd: ReadResult)
    requires rd == ReadWal(disk.file) && (rd.commands != [] ==> rd.firstSeq > 0)
    ensures var k := Covers(disk);
            Pending(disk) == if k < rd.firstSeq || rd.commands == [] then rd.commands
                             else if k - rd.firstSeq + 1 <= |rd.commands| then rd.commands[k - rd.firstSeq + 1..]
                             else []
  {
    hide ReadWal;
  }

  /** Nothing of the log is replayed. */
  lemma NothingPending(disk: Disk, h: seq<Command>)
    requires !ReadWal(disk.file).gap && Numbered(ReadWal(disk.file), h) && Pending(disk) == []
    requires Covers(disk) <= |h| && HeaderSeq(disk) <= |h| && ReadWal(disk.file).lastSeq <= |h|
    ensures Covered(disk, h) <==> Covers(disk) == |h|
  {
    hide ReadWal, Pending, Numbered;
    assert h[..Covers(disk)] + [] == h[..Covers(disk)];
  }

  lemma PendingTail(disk: Disk, h: seq<Command>, rd: ReadResult)
    requires rd == ReadWal(disk.file) && Numbered(rd, h) && rd.commands != []
    requires rd.firstSeq <= Covers(disk) + 1 && Covers(disk) <= rd.lastSeq
    ensures rd.lastSeq <= |h| && Pending(disk) == h[Covers(disk)..rd.lastSeq]
  {
    hide ReadWal;
    PendingIs(disk, rd);
    hide Pending;
    PendingSlice(h, rd, Covers(disk));
  }

  lemma Joined(h: seq<Command>, k: nat, e: nat)
    requires k <= e <= |h|
    ensures h[..k] + h[k..e] == h[..e]
    ensures h[..e] == h <==> e == |h|
  {
    assert e < |h| ==> |h[..e]| < |h|;
  }

  /** The log continues the snapshot. */
  lemma TailPending(disk: Disk, h: seq<Command>, rd: ReadResult)
    requires rd == ReadWal(disk.file) && !rd.gap && Numbered(rd, h) && rd.commands != []
    requires rd.firstSeq <= Covers(disk) + 1 && Covers(disk) <= rd.lastSeq && HeaderSeq(disk) <= |h|
    ensures Covered(disk, h) <==> rd.lastSeq == |h|
  {
    hide ReadWal, Pending, Numbered, Covers, HeaderSeq;
    PendingTail(disk, h, rd);
    Joined(h, Covers(disk), rd.lastSeq);
  }

  /** Recovery replays the whole history exactly when the chosen snapshot is up
      to date, or it reaches back to the log's start and the log to its end. */
  lemma CoveredExactly(disk: Disk, history: seq<Command>, rd: ReadResult)
    requires rd == ReadWal(disk.file) && !rd.gap && Numbered(rd, history)
    requires Covers(disk) <= |history| && HeaderSeq(disk) <= |history|
    ensures Covered(disk, history) <==>
              Covers(disk) == |history| ||
              (rd.commands != [] && rd.firstSeq <= Covers(disk) + 1 && rd.lastSeq == |history|)
  {
    var k := Covers(disk);
    PendingIs(disk, rd);
    if rd.commands == [] || k > rd.lastSeq {
      hide ReadWal, Pending, Covered;
      NothingPending(disk, history);
    } else if rd.firstSeq <= k + 1 {
      hide ReadWal, Pending, Covered;
      TailPending(disk, history, rd);
    } else {
      hide ReadWal, Pending;
      assert |history[..k] + Pending(disk)| == k + |rd.commands| < |history|;
    }
  }

  lemma PendingSlice(h: seq<Command>, rd: ReadResult, k: nat)
    requires Numbered(rd, h) && rd.commands != [] && rd.firstSeq <= k + 1 && k <= rd.lastSeq
    ensures var d := k + 1 - rd.firstSeq; d <= |rd.commands| && rd.commands[d..] == h[k..rd.lastSeq]
  {
  }

  // ----- recovery is full replay --------------------------------------------

  lemma {:induction false} SameOrdersTrans(a: seq<Order>, b: seq<Order>, c: seq<Order>)
    requires SameOrders(a, b) && SameOrders(b, c)
    ensures SameOrders(a, c)
    decreases |a|
  {
    if a != [] {
      SameOrdersTrans(a[1..], b[1..], c[1..]);
    }
  }

  lemma SimilarTrans(a: State, b: State, c: State)
    requires Similar(a, b) && Similar(b, c)
    ensures Similar(a, c)
  {
    SameOrdersTrans(a.book.bids, b.book.bids, c.book.bids);
    SameOrdersTrans(a.book.asks, b.book.asks, c.book.asks);
  }

  lemma ReplayIs(cfg: Config, history: seq<Command>)
    ensures Inv(cfg, Run(cfg, Init, history))
  {
    InitInv(cfg);
    RunKeepsInv(cfg, Init, history);
  }

  lemma SimilarInit()
    ensures Similar(Init, Init)
  {
  }

  /** A covered disk rebuilds the fold of all commands ever logged. */
  lemma CoveredRecovers(cfg: Config, disk: Disk, history: seq<Command>)
    requires FileOk(cfg, disk.snap, history) && FileOk(cfg, disk.prev, history) && Covered(disk, history)
    ensures Inv(cfg, Recovered(cfg, disk)) && Similar(Recovered(cfg, disk), Run(cfg, Init, history))
  {
    hide Run, Restore, Similar, Inv, ReadWal, Pending, Numbered, Resume;
    var k := Covers(disk);
    var from := if Chosen(disk).Some? then Restore(cfg, Chosen(disk).value) else Init;
    var done := Run(cfg, Init, history[..k]);
    RunAppend(cfg, Init, history[..k], Pending(disk));
    ReplayIs(cfg, history[..k]);
    if Chosen(disk).None? {
      assert history[..0] == [];
      RunNothing(cfg);
      SimilarInit();
    }
    assert Similar(from, done) && Inv(cfg, from) && Inv(cfg, done);
    RunSimilar(cfg, from, done, Pending(disk));
    RunKeepsInv(cfg, from, Pending(disk));
  }

  lemma RunNothing(cfg: Config)
    ensures Run(cfg, Init, []) == Init && Inv(cfg, Init)
  {
    InitInv(cfg);
  }
}
