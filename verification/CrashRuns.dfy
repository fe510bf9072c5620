/** Every run of the durability protocol: what careful steps keep, that any
    restart then rebuilds the whole history, and exactly when each care is needed. */
module CrashRuns {
  import opened Orders
  import opened Crc
  import opened Codec
  import opened ThreadSpec
  import opened Invariant
  import opened Similarity
  import opened Restoring
  import opened WriteAheadLog
  import opened TornTails
  import opened Durability

  // ----- what careful steps keep --------------------------------------------

  predicate AtLeast(f: File, n: nat) {
    f.Holds? && f.d.lastSeq >= n
  }

  /** A snapshot reaches back to where the log starts, even if the newest is lost. */
  ghost predicate Anchored(disk: Disk, base: nat) {
    && (base > 0 ==> AtLeast(disk.prev, base))
    && (disk.snap.Holds? ==> disk.snap.d.lastSeq >= base)
  }

  /** What the next truncation would drop is covered by a snapshot other than the
      one being replaced. */
  ghost predicate BaselineSafe(disk: Disk, m: Memory) {
    m.lastSnap > 0 ==>
      match m.phase
      case Renamed => AtLeast(disk.prev, m.lastSnap)
      case Written => AtLeast(disk.prev, m.lastSnap)
      case _ => disk.snap.Damaged? || AtLeast(if disk.snap.Holds? then disk.snap else disk.prev, m.lastSnap)
  }

  ghost predicate PhaseSafe(disk: Disk, m: Memory) {
    && (m.phase.Renamed? ==> disk.snap.Missing?)
    && (m.phase.Written? ==> !disk.snap.Missing? && (disk.snap.Holds? ==> disk.snap.d.lastSeq == m.lastSeq))
  }

  /** The commands the running process has applied. */
  ghost function Applied(m: Memory, history: seq<Command>): seq<Command> {
    if m.phase.Logged? && history != [] then history[..|history| - 1] else history
  }

  /** The process is the fold of the history, up to the record just logged. */
  ghost predicate InStep(cfg: Config, m: Memory, history: seq<Command>) {
    && m.lastSeq == |history| && m.lastSnap <= m.lastSeq
    && (m.phase.Logged? ==> history != [] && m.phase.c == history[|history| - 1])
    && Inv(cfg, m.state) && Similar(m.state, Run(cfg, Init, Applied(m, history)))
  }

  ghost predicate ProcSafe(cfg: Config, sys: System) {
    sys.proc.Up? ==> && InStep(cfg, sys.proc.m, sys.history)
                     && BaselineSafe(sys.disk, sys.proc.m) && PhaseSafe(sys.disk, sys.proc.m)
  }

  ghost predicate FilesOk(cfg: Config, sys: System) {
    FileOk(cfg, sys.disk.snap, sys.history) && FileOk(cfg, sys.disk.prev, sys.history)
  }

  /** The log file is the history from some point on, then possibly a torn tail. */
  ghost predicate Stored(sys: System, base: nat, tail: seq<byte>) {
    base <= |sys.history| < U64_RANGE && Image(sys.disk.file, base, sys.history[base..], tail)
  }

  ghost predicate SafeWith(cfg: Config, sys: System, base: nat, tail: seq<byte>) {
    Stored(sys, base, tail) && Anchored(sys.disk, base) && FilesOk(cfg, sys) && ProcSafe(cfg, sys)
  }

  ghost predicate Safe(cfg: Config, sys: System) {
    exists base, tail :: SafeWith(cfg, sys, base, tail)
  }

  lemma StartSafe(cfg: Config)
    ensures SafeWith(cfg, Start, 0, [])
  {
    hide NextRecord;
    ShortRefused([]);
    assert Log(1, []) + [] == [];
  }

  // ----- a safe disk loses nothing ------------------------------------------

  lemma StoredReads(sys: System, base: nat, tail: seq<byte>)
    requires Stored(sys, base, tail)
    ensures var rd := ReadWal(sys.disk.file); var n := |sys.history|;
            && rd == ReadResult(sys.history[base..], if base == n then 0 else base + 1, if base == n then 0 else n,
                                |tail|, false)
            && Numbered(rd, sys.history) && Torn(sys.disk.file) == tail
  {
    hide Image, ReadWal, Torn;
    ImageReads(sys.disk.file, base, sys.history[base..], tail);
    ImageTorn(sys.disk.file, base, sys.history[base..], tail);
  }

  lemma AnchorCovers(disk: Disk, base: nat)
    requires Anchored(disk, base)
    ensures base <= Covers(disk)
  {
  }

  /** A crash right now loses nothing. */
  lemma SafeCovered(cfg: Config, sys: System, base: nat, tail: seq<byte>)
    requires SafeWith(cfg, sys, base, tail)
    ensures Covered(sys.disk, sys.history)
  {
    hide Stored, Anchored, FileOk, ProcSafe, ReadWal, Covered, Numbered, Torn;
    StoredReads(sys, base, tail);
    AnchorCovers(sys.disk, base);
    FilesBelow(cfg, sys.disk, sys.history);
    CoveredExactly(sys.disk, sys.history, ReadWal(sys.disk.file));
    StoredBounds(sys, base, tail);
  }

  lemma StoredBounds(sys: System, base: nat, tail: seq<byte>)
    requires Stored(sys, base, tail)
    ensures base <= |sys.history| && |sys.history[base..]| == |sys.history| - base
  {
    hide Image;
  }

  // ----- the file under each operation --------------------------------------

  lemma AppendImage(file: seq<byte>, base: nat, h: seq<Command>, c: Command)
    requires base <= |h| && Image(file, base, h[base..], []) && InRange(c) && |h| + 1 < U64_RANGE
    ensures Image(file + Record(|h| + 1, c), base, (h + [c])[base..], [])
  {
    hide Record, Log, NextRecord;
    var cs := h[base..];
    LogAppend(base + 1, cs, [c]);
    LogOne(|h| + 1, c);
    InRangeSplit(cs, [c]);
    assert (h + [c])[base..] == cs + [c];
    assert Log(base + 1, cs) + [] == Log(base + 1, cs);
    var f := file + Record(|h| + 1, c);
    assert f + [] == f;
  }

  lemma TearImage(file: seq<byte>, base: nat, h: seq<Command>, c: Command, k: nat)
    requires base <= |h| && Image(file, base, h[base..], []) && InRange(c) && |h| + 1 < U64_RANGE && k < RECORD
    ensures Image(file + Part(|h| + 1, c, k), base, h[base..], Part(|h| + 1, c, k))
  {
    hide Record, Log, NextRecord;
    TornRecord(|h| + 1, c, k);
    assert Log(base + 1, h[base..]) + [] == Log(base + 1, h[base..]);
  }

  lemma TruncateImage(file: seq<byte>, base: nat, h: seq<Command>, tail: seq<byte>, keep: nat)
    requires base <= |h| < U64_RANGE && Image(file, base, h[base..], tail) && keep <= |h|
    ensures var b := Max(base, keep); Image(Truncated(file, keep), b, h[b..], [])
  {
    hide Record, Log, NextRecord, ReadWal;
    ImageReads(file, base, h[base..], tail);
    var rd := ReadWal(file);
    TruncatedLog(h, base, rd.firstSeq, keep);
    var b := Max(base, keep);
    assert h[base..] == h[base..b] + h[b..];
    InRangeSplit(h[base..b], h[b..]);
    ShortRefused([]);
    assert Truncated(file, keep) + [] == Truncated(file, keep);
  }

  // ----- the steps ----------------------------------------------------------

  /** No append, finished or not, behind a torn tail; a damaged snapshot is not
      renamed over its predecessor. */
  predicate Tidy(sys: System, a: Action) {
    && (a.Append? || a.Tear? ==> ReadWal(sys.disk.file).truncated == 0)
    && (a.StartSnapshot? ==> !sys.disk.snap.Damaged?)
  }

  /** And what is written can be restored. */
  ghost predicate Careful(cfg: Config, sys: System, a: Action) {
    Tidy(sys, a) && (a.WriteSnapshot? && sys.proc.Up? ==> Exportable(cfg, sys.proc.m.state))
  }

  lemma FileOkAppend(cfg: Config, f: File, history: seq<Command>, c: Command)
    requires FileOk(cfg, f, history)
    ensures FileOk(cfg, f, history + [c])
  {
    hide Restore, Run, Similar, Inv;
    if f.Holds? {
      assert (history + [c])[..f.d.lastSeq] == history[..f.d.lastSeq];
    }
  }

  lemma AppendSafe(cfg: Config, every: nat, sys: System, c: Command, base: nat)
    requires SafeWith(cfg, sys, base, []) && Enabled(every, sys, Append(c))
    ensures SafeWith(cfg, Next(cfg, every, sys, Append(c)), base, [])
  {
    hide FileOk, Image, Run, Similar, Inv, Record;
    var h := sys.history;
    AppendImage(sys.disk.file, base, h, c);
    FileOkAppend(cfg, sys.disk.snap, h, c);
    FileOkAppend(cfg, sys.disk.prev, h, c);
    assert (h + [c])[..|h|] == h;
  }

  lemma ApplySafe(cfg: Config, every: nat, sys: System, base: nat, tail: seq<byte>)
    requires SafeWith(cfg, sys, base, tail) && Enabled(every, sys, ApplyLogged)
    ensures SafeWith(cfg, Next(cfg, every, sys, ApplyLogged), base, tail)
  {
    hide Image, FileOk, Anchored, Similar, Inv, Apply, Run;
    var m, h := sys.proc.m, sys.history;
    var done := h[..|h| - 1];
    assert done + [m.phase.c] == h;
    ReplayIs(cfg, done);
    ApplySimilar(cfg, m.state, Run(cfg, Init, done), m.phase.c);
    ApplyKeepsInv(cfg, m.state, m.phase.c);
    RunOne(cfg, done, m.phase.c);
  }

  lemma RunOne(cfg: Config, cs: seq<Command>, c: Command)
    ensures Run(cfg, Init, cs + [c]) == Apply(cfg, Run(cfg, Init, cs), c).state
  {
    hide Apply;
    RunAppend(cfg, Init, cs, [c]);
    assert [c][1..] == [];
    var s := Run(cfg, Init, cs);
    assert Run(cfg, Apply(cfg, s, c).state, []) == Apply(cfg, s, c).state;
  }

  lemma WriteSafe(cfg: Config, every: nat, sys: System, base: nat, tail: seq<byte>)
    requires SafeWith(cfg, sys, base, tail) && Enabled(every, sys, WriteSnapshot)
    requires Exportable(cfg, sys.proc.m.state)
    ensures SafeWith(cfg, Next(cfg, every, sys, WriteSnapshot), base, tail)
  {
    hide Image, Similar, Inv, Run, Restore, Exportable;
    var m, h := sys.proc.m, sys.history;
    var d := Export(m.state, m.lastSeq);
    RestoreExactly(cfg, m.state, m.lastSeq);
    SimilarTrans(Restore(cfg, d), m.state, Run(cfg, Init, h));
    assert h[..|h|] == h;
  }

  lemma FinishSafe(cfg: Config, every: nat, sys: System, base: nat, tail: seq<byte>)
    requires SafeWith(cfg, sys, base, tail) && Enabled(every, sys, FinishSnapshot)
    ensures var m := sys.proc.m; var next := Next(cfg, every, sys, FinishSnapshot);
            if m.lastSnap > 0 then SafeWith(cfg, next, Max(base, m.lastSnap), []) else SafeWith(cfg, next, base, tail)
  {
    hide Image, FileOk, Run, Similar, Inv, Truncated;
    TruncateImage(sys.disk.file, base, sys.history, tail, sys.proc.m.lastSnap);
  }

  lemma StartSnapshotSafe(cfg: Config, every: nat, sys: System, base: nat, tail: seq<byte>)
    requires SafeWith(cfg, sys, base, tail) && Enabled(every, sys, StartSnapshot) && !sys.disk.snap.Damaged?
    ensures SafeWith(cfg, Next(cfg, every, sys, StartSnapshot), base, tail)
  {
    hide Image, StandsFor, Run, Similar, Inv, Restore;
  }

  lemma BootedInStep(cfg: Config, every: nat, disk: Disk, h: seq<Command>)
    requires FileOk(cfg, disk.snap, h) && FileOk(cfg, disk.prev, h) && Covered(disk, h)
    ensures InStep(cfg, Booted(cfg, every, disk), h)
  {
    hide FileOk, Recovered, ReadWal, Numbered, Similar, Inv, Run, Pending;
    CoveredRecovers(cfg, disk, h);
  }

  lemma BootedBaseline(cfg: Config, every: nat, disk: Disk)
    ensures BaselineSafe(disk, Booted(cfg, every, disk)) && PhaseSafe(disk, Booted(cfg, every, disk))
  {
    hide Recovered, Resume;
  }

  lemma RestartSafe(cfg: Config, every: nat, sys: System, base: nat, tail: seq<byte>)
    requires SafeWith(cfg, sys, base, tail) && Enabled(every, sys, Restart)
    ensures SafeWith(cfg, Next(cfg, every, sys, Restart), base, tail)
  {
    hide Image, FileOk, Anchored, Booted, Covered, InStep, BaselineSafe, PhaseSafe, ReadWal;
    SafeCovered(cfg, sys, base, tail);
    BootedInStep(cfg, every, sys.disk, sys.history);
    BootedBaseline(cfg, every, sys.disk);
  }

  lemma TearSafe(cfg: Config, every: nat, sys: System, c: Command, k: nat, base: nat)
    requires SafeWith(cfg, sys, base, []) && Enabled(every, sys, Tear(c, k))
    ensures SafeWith(cfg, Next(cfg, every, sys, Tear(c, k)), base, Part(|sys.history| + 1, c, k))
  {
    hide Image, FileOk, Run, Similar, Inv, Part;
    TearImage(sys.disk.file, base, sys.history, c, k);
  }

  lemma OtherSafe(cfg: Config, every: nat, sys: System, a: Action, base: nat, tail: seq<byte>)
    requires SafeWith(cfg, sys, base, tail) && Enabled(every, sys, a) && (a.Crash? || a.Damage? || a.FailSnapshot?)
    ensures SafeWith(cfg, Next(cfg, every, sys, a), base, tail)
  {
    hide Image, Run, Similar, Inv, Restore;
  }

  /** Every careful step, wherever a crash falls, keeps the system safe. */
  lemma StepSafe(cfg: Config, every: nat, sys: System, a: Action)
    requires Safe(cfg, sys) && Enabled(every, sys, a) && Careful(cfg, sys, a)
    ensures Safe(cfg, Next(cfg, every, sys, a))
  {
    var base, tail :| SafeWith(cfg, sys, base, tail);
    NoTail(cfg, sys, base, tail);
    hide SafeWith, Next, ReadWal;
    match a
    case Append(c) => AppendSafe(cfg, every, sys, c, base);
    case Tear(c, k) => TearSafe(cfg, every, sys, c, k, base);
    case ApplyLogged => ApplySafe(cfg, every, sys, base, tail);
    case StartSnapshot => StartSnapshotSafe(cfg, every, sys, base, tail);
    case WriteSnapshot => WriteSafe(cfg, every, sys, base, tail);
    case FinishSnapshot => FinishSafe(cfg, every, sys, base, tail);
    case Restart => RestartSafe(cfg, every, sys, base, tail);
    case Crash => OtherSafe(cfg, every, sys, a, base, tail);
    case Damage => OtherSafe(cfg, every, sys, a, base, tail);
    case FailSnapshot => OtherSafe(cfg, every, sys, a, base, tail);
  }

  lemma NoTail(cfg: Config, sys: System, base: nat, tail: seq<byte>)
    requires SafeWith(cfg, sys, base, tail)
    ensures ReadWal(sys.disk.file).truncated == |tail|
  {
    hide Image, ReadWal, FileOk, ProcSafe;
    StoredReads(sys, base, tail);
  }

  // ----- whole runs ---------------------------------------------------------

  /** The state after a run, if every action of it was enabled. */
  function Exec(cfg: Config, every: nat, sys: System, run: seq<Action>): Option<System>
    decreases run
  {
    if run == [] then Some(sys)
    else if !Enabled(every, sys, run[0]) then None
    else Exec(cfg, every, Next(cfg, every, sys, run[0]), run[1..])
  }

  ghost predicate CarefulRun(cfg: Config, every: nat, sys: System, run: seq<Action>)
    decreases run
  {
    run == [] || (Enabled(every, sys, run[0]) && Careful(cfg, sys, run[0]) &&
                  CarefulRun(cfg, every, Next(cfg, every, sys, run[0]), run[1..]))
  }

  lemma {:induction false} RunSafe(cfg: Config, every: nat, sys: System, run: seq<Action>)
    requires Safe(cfg, sys) && CarefulRun(cfg, every, sys, run)
    ensures Exec(cfg, every, sys, run).Some? && Safe(cfg, Exec(cfg, every, sys, run).value)
    decreases run
  {
    hide Safe, Next, Careful, Enabled;
    if run != [] {
      StepSafe(cfg, every, sys, run[0]);
      RunSafe(cfg, every, Next(cfg, every, sys, run[0]), run[1..]);
    }
  }

  /** A restart accepts the log, rebuilds the fold of every command ever logged,
      and numbers on from there; a running process is that fold up to the record
      just logged. */
  ghost predicate Recoverable(cfg: Config, sys: System) {
    && !ReadWal(sys.disk.file).gap
    && Similar(Recovered(cfg, sys.disk), Run(cfg, Init, sys.history)) && Resume(sys.disk) == |sys.history|
    && (sys.proc.Up? ==> Similar(sys.proc.m.state, Run(cfg, Init, Applied(sys.proc.m, sys.history))))
  }

  lemma SafeRecoverable(cfg: Config, sys: System)
    requires Safe(cfg, sys)
    ensures Recoverable(cfg, sys)
  {
    hide Image, FileOk, Anchored, Recovered, Pending, Similar, Run, Inv, ReadWal, Numbered;
    var base, tail :| SafeWith(cfg, sys, base, tail);
    SafeCovered(cfg, sys, base, tail);
    CoveredRecovers(cfg, sys.disk, sys.history);
  }

  /** After any careful run, with crashes at any point and any byte, failed
      snapshots and a damaged newest snapshot anywhere in it, nothing is lost. */
  lemma RunRecovers(cfg: Config, every: nat, run: seq<Action>)
    requires CarefulRun(cfg, every, Start, run)
    ensures Exec(cfg, every, Start, run).Some? && Recoverable(cfg, Exec(cfg, every, Start, run).value)
  {
    StartSafe(cfg);
    hide Exec, CarefulRun, Recoverable, SafeWith;
    assert Safe(cfg, Start);
    RunSafe(cfg, every, Start, run);
    SafeRecoverable(cfg, Exec(cfg, every, Start, run).value);
  }

  // ----- fresh histories need no third care ---------------------------------

  ghost predicate TidyRun(cfg: Config, every: nat, sys: System, run: seq<Action>)
    decreases run
  {
    run == [] || (Enabled(every, sys, run[0]) && Tidy(sys, run[0]) &&
                  TidyRun(cfg, every, Next(cfg, every, sys, run[0]), run[1..]))
  }

  lemma {:induction false} HistoryGrows(cfg: Config, every: nat, sys: System, run: seq<Action>)
    requires Exec(cfg, every, sys, run).Some?
    ensures sys.history <= Exec(cfg, every, sys, run).value.history
    decreases run
  {
    if run != [] {
      var next := Next(cfg, every, sys, run[0]);
      assert sys.history <= next.history;
      hide Next, Enabled;
      HistoryGrows(cfg, every, next, run[1..]);
    }
  }

  lemma {:induction false} FreshPrefix(cfg: Config, s: State, a: seq<Command>, b: seq<Command>)
    requires FreshRun(cfg, s, b) && a <= b
    ensures FreshRun(cfg, s, a)
    decreases a
  {
    hide Fresh, Apply;
    if a != [] {
      FreshPrefix(cfg, Apply(cfg, s, a[0]).state, a[1..], b[1..]);
    }
  }

  lemma FreshWrites(cfg: Config, every: nat, sys: System)
    requires Safe(cfg, sys) && Enabled(every, sys, WriteSnapshot) && FreshRun(cfg, Init, sys.history)
    ensures Exportable(cfg, sys.proc.m.state)
  {
    hide Image, FileOk, Anchored, Similar, Run, Inv, Exportable, FreshRun;
    var base, tail :| SafeWith(cfg, sys, base, tail);
    FreshExportable(cfg, sys.history);
    ExportableSimilar(cfg, sys.proc.m.state, Run(cfg, Init, sys.history));
  }

  lemma {:induction false} FreshIsCareful(cfg: Config, every: nat, sys: System, run: seq<Action>)
    requires Safe(cfg, sys) && TidyRun(cfg, every, sys, run) && Exec(cfg, every, sys, run).Some?
    requires FreshRun(cfg, Init, Exec(cfg, every, sys, run).value.history)
    ensures CarefulRun(cfg, every, sys, run)
    decreases run
  {
    if run != [] {
      hide Safe, Next, Enabled, Tidy, FreshRun, Exportable;
      HistoryGrows(cfg, every, sys, run);
      FreshPrefix(cfg, Init, sys.history, Exec(cfg, every, sys, run).value.history);
      if run[0].WriteSnapshot? {
        FreshWrites(cfg, every, sys);
      }
      StepSafe(cfg, every, sys, run[0]);
      FreshIsCareful(cfg, every, Next(cfg, every, sys, run[0]), run[1..]);
    }
  }

  /** If no live client id was ever reused, keeping torn tails and damaged
      snapshots from being built upon is all it takes. */
  lemma FreshRunRecovers(cfg: Config, every: nat, run: seq<Action>)
    requires TidyRun(cfg, every, Start, run) && Exec(cfg, every, Start, run).Some?
    requires FreshRun(cfg, Init, Exec(cfg, every, Start, run).value.history)
    ensures Recoverable(cfg, Exec(cfg, every, Start, run).value)
  {
    StartSafe(cfg);
    hide Exec, CarefulRun, Recoverable, SafeWith, TidyRun, FreshRun;
    assert Safe(cfg, Start);
    FreshIsCareful(cfg, every, Start, run);
    RunRecovers(cfg, every, run);
  }

  // ----- why each care is needed --------------------------------------------

  /** The numbers of what is read after one more record joined the log. */
  lemma JoinedNumbered(h: seq<Command>, base: nat, c: Command, x: Command, n: nat, rd: ReadResult)
    requires base <= |h| && rd.commands == h[base..] + [x] && rd.lastSeq == n
    requires rd.firstSeq == if base == |h| then n else base + 1
    requires base < |h| ==> n == |h| + 1
    ensures Numbered(rd, h + [c]) && n == |h| + 1 <==> n == |h| + 1 && x == c
  {
    var g := h + [c];
    assert |rd.commands| == |h| - base + 1;
    if n == |h| + 1 {
      assert rd.commands[|h| - base] == x && g[|h|] == c;
      assert base < |h| ==> g[base..|h| + 1] == h[base..] + [c];
      assert base == |h| ==> g[|h|..|h| + 1] == [c] && h[base..] + [x] == [x];
    }
  }

  /** A disk whose log reads one record further is covered exactly when that
      record is the one appended. */
  lemma OneMoreExactly(disk: Disk, base: nat, h: seq<Command>, c: Command, x: Command, n: nat, rd: ReadResult)
    requires rd == ReadWal(disk.file) && !rd.gap && base <= |h| && base <= Covers(disk)
    requires rd.commands == h[base..] + [x] && rd.lastSeq == n
    requires rd.firstSeq == if base == |h| then n else base + 1
    requires base < |h| ==> n == |h| + 1
    requires Covers(disk) <= |h| && HeaderSeq(disk) <= |h|
    ensures Covered(disk, h + [c]) <==> n == |h| + 1 && x == c
  {
    hide ReadWal, Pending, Covers, HeaderSeq;
    JoinedNumbered(h, base, c, x, n, rd);
    if n == |h| + 1 && x == c {
      CoveredExactly(disk, h + [c], rd);
    }
  }

  /** Appending keeps recovery complete exactly when the reader finds the record
      behind whatever tail is there; with no tail it always does. */
  lemma AppendDiskExactly(disk: Disk, base: nat, h: seq<Command>, tail: seq<byte>, c: Command)
    requires base <= |h| && |h| + 1 < U64_RANGE && Image(disk.file, base, h[base..], tail) && Anchored(disk, base)
    requires Covers(disk) <= |h| && HeaderSeq(disk) <= |h| && InRange(c)
    ensures var r := Record(|h| + 1, c);
            Covered(disk.(file := disk.file + r), h + [c]) <==> r <= tail + r
  {
    hide Image, Record, Log, NextRecord, ReadWal, Pending, Numbered, Anchored;
    var n, cs, r := |h| + 1, h[base..], Record(|h| + 1, c);
    var next := disk.(file := disk.file + r);
    var rd, e := ReadWal(next.file), NextRecord(tail + r);
    AppendedReads(disk.file, base, cs, tail, n, c);
    RereadExactly(tail, n, c);
    SameSnapshots(disk, next);
    AnchorCovers(disk, base);
    hide Covers, HeaderSeq;
    if e.Some? && !rd.gap {
      OneMoreExactly(next, base, h, c, e.value.command, e.value.seqno, rd);
    }
    if e.Some? && rd.gap {
      RereadGap(disk.file, base, cs, tail, n, c);
    }
  }

  lemma SameSnapshots(a: Disk, b: Disk)
    requires b == a.(file := b.file)
    ensures Covers(b) == Covers(a) && HeaderSeq(b) == HeaderSeq(a)
  {
  }

  /** A gap means the record read carries another number. */
  lemma RereadGap(file: seq<byte>, base: nat, cs: seq<Command>, tail: seq<byte>, n: nat, c: Command)
    requires Image(file, base, cs, tail) && InRange(c) && n < U64_RANGE && n == base + |cs| + 1
    requires ReadWal(file + Record(n, c)).gap && NextRecord(tail + Record(n, c)).Some?
    ensures NextRecord(tail + Record(n, c)).value.seqno != n
  {
    hide Log, NextRecord, ReadWal, Record;
    RecordRoundTrip(n, c, []);
    var buf := tail + Record(n, c);
    assert file + Record(n, c) == Log(base + 1, cs) + buf;
    ReadBehind(base, cs, buf);
  }

  lemma AppendedReads(file: seq<byte>, base: nat, cs: seq<Command>, tail: seq<byte>, n: nat, c: Command)
    requires Image(file, base, cs, tail) && InRange(c) && n < U64_RANGE
    ensures var buf := tail + Record(n, c); var rd := ReadWal(file + Record(n, c)); var e := NextRecord(buf);
            && (e.None? ==> rd.commands == cs && rd.lastSeq == (if cs == [] then 0 else base + |cs|))
            && (e.Some? && !rd.gap ==>
                  && rd.commands == cs + [e.value.command] && rd.lastSeq == e.value.seqno
                  && rd.firstSeq == (if cs == [] then e.value.seqno else base + 1)
                  && (cs != [] ==> e.value.seqno == base + |cs| + 1))
  {
    hide Log, NextRecord, ReadWal, Record;
    RecordRoundTrip(n, c, []);
    var buf := tail + Record(n, c);
    assert file + Record(n, c) == Log(base + 1, cs) + buf;
    ReadBehind(base, cs, buf);
  }

  lemma SafeFacts(cfg: Config, sys: System, base: nat, tail: seq<byte>)
    requires SafeWith(cfg, sys, base, tail)
    ensures Covers(sys.disk) <= |sys.history| && HeaderSeq(sys.disk) <= |sys.history|
    ensures sys.proc.Up? ==> sys.proc.m.lastSeq == |sys.history|
  {
    hide Image, FileOk, Anchored, Similar, Inv, Run;
    FilesBelow(cfg, sys.disk, sys.history);
  }

  /** Appending keeps recovery complete exactly when the record is what the reader
      meets behind the torn tail; with no torn tail it always is. */
  lemma AppendCoveredExactly(cfg: Config, every: nat, sys: System, c: Command)
    requires Safe(cfg, sys) && Enabled(every, sys, Append(c))
    ensures var next := Next(cfg, every, sys, Append(c)); var r := Record(|sys.history| + 1, c);
            Covered(next.disk, next.history) <==> r <= Torn(sys.disk.file) + r
  {
    hide Image, FileOk, Anchored, Covered, Similar, Inv, Run, Record, ReadWal, Torn;
    var base, tail :| SafeWith(cfg, sys, base, tail);
    SafeFacts(cfg, sys, base, tail);
    StoredReads(sys, base, tail);
    hide Covers, HeaderSeq;
    AppendDiskExactly(sys.disk, base, sys.history, tail, c);
  }

  /** The entry is the logged command of its number. */
  ghost predicate Known(e: Entry, history: seq<Command>) {
    0 < e.seqno <= |history| && history[e.seqno - 1] == e.command
  }

  lemma TearDiskExactly(disk: Disk, base: nat, h: seq<Command>, tail: seq<byte>, more: seq<byte>)
    requires base <= |h| < U64_RANGE && Image(disk.file, base, h[base..], tail) && Anchored(disk, base)
    requires Covers(disk) <= |h| && HeaderSeq(disk) <= |h| && |more| < RECORD
    ensures var e := NextRecord(tail + more);
            Covered(disk.(file := disk.file + more), h) <==> e.None? || (base == |h| && Known(e.value, h))
  {
    hide NextRecord, ReadWal, Log, Pending, Covered, Anchored, Image, Numbered, Known;
    var next := disk.(file := disk.file + more);
    var rd, e := ReadWal(next.file), NextRecord(tail + more);
    TornReads(disk.file, base, h, tail, more);
    SameSnapshots(disk, next);
    AnchorCovers(disk, base);
    hide Covers, HeaderSeq;
    GapUncovered(next, h);
    if !rd.gap && Numbered(rd, h) {
      CoveredExactly(next, h, rd);
    }
  }

  /** What is read of a log with more torn bytes at its end. */
  lemma TornReads(file: seq<byte>, base: nat, h: seq<Command>, tail: seq<byte>, more: seq<byte>)
    requires base <= |h| < U64_RANGE && Image(file, base, h[base..], tail) && |more| < RECORD
    ensures var e, rd := NextRecord(tail + more), ReadWal(file + more);
            && (e.None? ==> !rd.gap && Numbered(rd, h) && (base < |h| ==> rd.commands != [] && rd.firstSeq == base + 1
                                                                          && rd.lastSeq == |h|))
            && (e.Some? && base < |h| ==> rd.gap || !Numbered(rd, h))
            && (e.Some? && base == |h| ==> !rd.gap && (Numbered(rd, h) <==> Known(e.value, h)))
  {
    hide NextRecord, ReadWal, Log;
    var cs, buf := h[base..], tail + more;
    var e, rd := NextRecord(buf), ReadWal(file + more);
    assert file + more == Log(base + 1, cs) + buf;
    ReadBehind(base, cs, buf);
    if e.Some? && base == |h| {
      OneRecord(rd, h, e.value);
    }
  }

  lemma GapUncovered(disk: Disk, h: seq<Command>)
    ensures ReadWal(disk.file).gap || !Numbered(ReadWal(disk.file), h) ==> !Covered(disk, h)
  {
    hide ReadWal, Numbered, Pending;
  }

  lemma OneRecord(rd: ReadResult, h: seq<Command>, e: Entry)
    requires rd.commands == [e.command] && rd.firstSeq == rd.lastSeq == e.seqno
    ensures Numbered(rd, h) <==> Known(e, h)
  {
    if 0 < e.seqno <= |h| {
      assert h[e.seqno - 1..e.seqno] == [h[e.seqno - 1]];
      assert [e.command][0] == e.command;
    }
  }

  /** A crash inside an append keeps recovery complete exactly when the bytes it
      leaves, behind any earlier torn tail, do not read as a record; or read as one
      the history already has, behind an otherwise empty log. */
  lemma TearCoveredExactly(cfg: Config, every: nat, sys: System, c: Command, k: nat)
    requires Safe(cfg, sys) && Enabled(every, sys, Tear(c, k))
    ensures var next := Next(cfg, every, sys, Tear(c, k));
            var e := NextRecord(Torn(sys.disk.file) + Part(|sys.history| + 1, c, k));
            Covered(next.disk, next.history) <==>
              e.None? || (ReadWal(sys.disk.file).commands == [] && Known(e.value, sys.history))
  {
    hide Image, FileOk, Anchored, Covered, Similar, Inv, Run, Record, ReadWal, Torn, NextRecord, Known;
    var base, tail :| SafeWith(cfg, sys, base, tail);
    SafeFacts(cfg, sys, base, tail);
    StoredReads(sys, base, tail);
    PartShort(|sys.history| + 1, c, k);
    hide Covers, HeaderSeq, Part;
    TearDiskExactly(sys.disk, base, sys.history, tail, Part(|sys.history| + 1, c, k));
  }

  lemma PartShort(n: nat, c: Command, k: nat)
    requires InRange(c) && n < U64_RANGE && k < RECORD
    ensures |Part(n, c, k)| == k
  {
    hide Record;
    RecordRoundTrip(n, c, []);
  }

  lemma RenameDiskExactly(disk: Disk, h: seq<Command>, base: nat, tail: seq<byte>, rd: ReadResult)
    requires Anchored(disk, base) && base <= |h| && rd == ReadWal(disk.file) && !rd.gap && Numbered(rd, h)
    requires rd.commands == h[base..] && (base < |h| ==> rd.firstSeq == base + 1 && rd.lastSeq == |h|)
    requires Covers(MovedAside(disk)) <= |h| && HeaderSeq(MovedAside(disk)) <= |h|
    ensures Covered(MovedAside(disk), h) <==> !disk.snap.Damaged? || base == 0
  {
    hide ReadWal, Pending, Covered;
    CoveredExactly(MovedAside(disk), h, rd);
  }

  /** Setting the newest snapshot aside keeps recovery complete exactly when it
      is intact, absent, or the log still reaches back to the first command. */
  lemma RenameCoveredExactly(cfg: Config, every: nat, sys: System)
    requires Safe(cfg, sys) && Enabled(every, sys, StartSnapshot)
    ensures var next := Next(cfg, every, sys, StartSnapshot);
            Covered(next.disk, next.history) <==>
              !sys.disk.snap.Damaged? || sys.history == [] || ReadWal(sys.disk.file).firstSeq == 1
  {
    hide Image, Anchored, Covered, Similar, Inv, Run, ReadWal, Torn, InStep, BaselineSafe, PhaseSafe, StandsFor;
    var base, tail :| SafeWith(cfg, sys, base, tail);
    StoredReads(sys, base, tail);
    FilesBelow(cfg, MovedAside(sys.disk), sys.history);
    hide FileOk, MovedAside, Covers, HeaderSeq, Numbered;
    RenameDiskExactly(sys.disk, sys.history, base, tail, ReadWal(sys.disk.file));
  }

  /** The snapshot just written restores the running state exactly when the index
      names the last carrier of every key. */
  lemma WriteStandsExactly(cfg: Config, every: nat, sys: System)
    requires Safe(cfg, sys) && Enabled(every, sys, WriteSnapshot)
    ensures var next := Next(cfg, every, sys, WriteSnapshot);
            StandsFor(cfg, next.disk.snap.d, next.history) <==> Exportable(cfg, sys.proc.m.state)
  {
    hide SafeWith, Exportable, StandsFor;
    var base, tail :| SafeWith(cfg, sys, base, tail);
    WriterInStep(cfg, sys, base, tail);
    StandsExactly(cfg, sys.proc.m.state, sys.history);
  }

  lemma WriterInStep(cfg: Config, sys: System, base: nat, tail: seq<byte>)
    requires SafeWith(cfg, sys, base, tail) && sys.proc.Up? && sys.proc.m.phase.Renamed?
    ensures var m := sys.proc.m;
            m.lastSeq == |sys.history| && Inv(cfg, m.state) && Similar(m.state, Run(cfg, Init, sys.history))
  {
    hide Image, Anchored, FileOk, Similar, Inv, Run;
  }

  lemma StandsExactly(cfg: Config, s: State, h: seq<Command>)
    requires Inv(cfg, s) && Similar(s, Run(cfg, Init, h))
    ensures StandsFor(cfg, Export(s, |h|), h) <==> Exportable(cfg, s)
  {
    hide Similar, Restore, Exportable, Inv, Run;
    RestoreExactly(cfg, s, |h|);
    assert h[..|h|] == h;
    var r, t := Restore(cfg, Export(s, |h|)), Run(cfg, Init, h);
    if Similar(r, s) {
      SimilarTrans(r, s, t);
    }
    if Similar(r, t) {
      SimilarSym(s, t);
      SimilarTrans(r, t, s);
    }
  }

  lemma {:induction false} SameOrdersSym(a: seq<Order>, b: seq<Order>)
    requires SameOrders(a, b)
    ensures SameOrders(b, a)
    decreases |a|
  {
    if a != [] {
      SameOrdersSym(a[1..], b[1..]);
    }
  }

  lemma SimilarSym(a: State, b: State)
    requires Similar(a, b)
    ensures Similar(b, a)
  {
    SameOrdersSym(a.book.bids, b.book.bids);
    SameOrdersSym(a.book.asks, b.book.asks);
  }

  // ----- which snapshot is restored -----------------------------------------

  /** The snapshot kept behind is no newer than the newest. */
  predicate Ordered(disk: Disk) {
    disk.snap.Holds? && disk.prev.Holds? ==> disk.prev.d.lastSeq <= disk.snap.d.lastSeq
  }

  lemma StepOrdered(cfg: Config, every: nat, sys: System, a: Action)
    requires Safe(cfg, sys) && Ordered(sys.disk) && Enabled(every, sys, a)
    ensures Ordered(Next(cfg, every, sys, a).disk)
  {
    hide Image, Run, Similar, Inv, Restore, Anchored, BaselineSafe, PhaseSafe, Record, Truncated, Part, Booted, Apply;
    var base, tail :| SafeWith(cfg, sys, base, tail);
    assert FileOk(cfg, sys.disk.prev, sys.history);
  }

  lemma {:induction false} RunOrdered(cfg: Config, every: nat, sys: System, run: seq<Action>)
    requires Safe(cfg, sys) && Ordered(sys.disk) && CarefulRun(cfg, every, sys, run)
    ensures Exec(cfg, every, sys, run).Some? && Ordered(Exec(cfg, every, sys, run).value.disk)
    decreases run
  {
    hide Safe, Next, Careful, Enabled, Ordered;
    if run != [] {
      StepOrdered(cfg, every, sys, run[0]);
      StepSafe(cfg, every, sys, run[0]);
      RunOrdered(cfg, every, Next(cfg, every, sys, run[0]), run[1..]);
    }
  }

  /** After any careful run, recovery starts from the intact snapshot that covers
      the most, and so replays the least. */
  lemma NewestRestored(cfg: Config, every: nat, run: seq<Action>)
    requires CarefulRun(cfg, every, Start, run)
    ensures Exec(cfg, every, Start, run).Some?
    ensures var disk := Exec(cfg, every, Start, run).value.disk;
            && (disk.snap.Holds? ==> disk.snap.d.lastSeq <= Covers(disk))
            && (disk.prev.Holds? ==> disk.prev.d.lastSeq <= Covers(disk))
  {
    StartSafe(cfg);
    hide Exec, CarefulRun, SafeWith;
    assert Safe(cfg, Start);
    RunOrdered(cfg, every, Start, run);
  }

  // ----- how often snapshots are taken --------------------------------------

  /** The next snapshot is due `every` commands after the last one; before the
      first it is due at once. */
  predicate Paced(every: nat, sys: System) {
    sys.proc.Up? ==> var m := sys.proc.m; m.nextSnap == m.lastSnap + every || (m.lastSnap == 0 && m.nextSnap == 0)
  }

  lemma StepPaced(cfg: Config, every: nat, sys: System, a: Action)
    requires Paced(every, sys) && Enabled(every, sys, a)
    ensures Paced(every, Next(cfg, every, sys, a))
  {
    hide Recovered, Resume, Truncated, Export, Apply, Part, Record;
  }

  lemma {:induction false} RunPaced(cfg: Config, every: nat, sys: System, run: seq<Action>)
    requires Paced(every, sys) && Exec(cfg, every, sys, run).Some?
    ensures Paced(every, Exec(cfg, every, sys, run).value)
    decreases run
  {
    hide Next, Enabled, Paced;
    if run != [] {
      StepPaced(cfg, every, sys, run[0]);
      RunPaced(cfg, every, Next(cfg, every, sys, run[0]), run[1..]);
    }
  }

  /** In every run, also across restarts, a snapshot is started only when at least
      `every` commands were logged since the last one; and as soon as they were. */
  lemma SnapshotsSpaced(cfg: Config, every: nat, run: seq<Action>)
    requires every > 0 && Exec(cfg, every, Start, run).Some?
    ensures var sys := Exec(cfg, every, Start, run).value;
            sys.proc.Up? && sys.proc.m.phase.Idle? && sys.proc.m.lastSnap > 0 ==>
              (Enabled(every, sys, StartSnapshot) <==> sys.proc.m.lastSeq >= sys.proc.m.lastSnap + every)
  {
    RunPaced(cfg, every, Start, run);
  }
}
