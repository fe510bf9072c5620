/** Runs of the durability protocol that lose or invent a command. */
module CrashCases {
  import opened Orders
  import opened Crc
  import opened Codec
  import opened ThreadSpec
  import opened WriteAheadLog
  import opened TornTails
  import opened Durability
  import opened CrashRuns

  // ----- running several steps ----------------------------------------------

  lemma {:induction false} ExecAppend(cfg: Config, every: nat, sys: System, a: seq<Action>, b: seq<Action>)
    requires Exec(cfg, every, sys, a).Some?
    ensures Exec(cfg, every, sys, a + b) == Exec(cfg, every, Exec(cfg, every, sys, a).value, b)
    decreases a
  {
    hide Next, Enabled;
    if a == [] {
      assert a + b == b;
    } else {
      assert (a + b)[1..] == a[1..] + b;
      ExecAppend(cfg, every, Next(cfg, every, sys, a[0]), a[1..], b);
    }
  }

  lemma Exec1(cfg: Config, every: nat, sys: System, a: Action)
    requires Enabled(every, sys, a)
    ensures Exec(cfg, every, sys, [a]) == Some(Next(cfg, every, sys, a))
  {
    hide Next, Enabled;
    assert [a][1..] == [];
    var next := Next(cfg, every, sys, a);
    assert Exec(cfg, every, next, []) == Some(next);
  }

  lemma Exec2(cfg: Config, every: nat, sys: System, a: Action, b: Action)
    requires Enabled(every, sys, a) && Enabled(every, Next(cfg, every, sys, a), b)
    ensures Exec(cfg, every, sys, [a, b]) == Some(Next(cfg, every, Next(cfg, every, sys, a), b))
  {
    hide Next, Enabled;
    assert [a, b][1..] == [b];
    Exec1(cfg, every, Next(cfg, every, sys, a), b);
  }

  lemma Exec3(cfg: Config, every: nat, sys: System, a: Action, b: Action, c: Action)
    requires Enabled(every, sys, a) && Enabled(every, Next(cfg, every, sys, a), b)
    requires Enabled(every, Next(cfg, every, Next(cfg, every, sys, a), b), c)
    ensures Exec(cfg, every, sys, [a, b, c]) == Some(Next(cfg, every, Next(cfg, every, Next(cfg, every, sys, a), b), c))
  {
    hide Next, Enabled;
    assert [a, b, c][1..] == [b, c];
    Exec2(cfg, every, Next(cfg, every, sys, a), b, c);
  }

  ghost predicate Ready(sys: System) {
    sys.proc.Up? && sys.proc.m.phase.Idle?
  }

  /** Logging and applying one command. */
  lemma Take(cfg: Config, every: nat, sys: System, c: Command)
    requires Ready(sys) && Enabled(every, sys, Append(c))
    ensures var r := Exec(cfg, every, sys, [Append(c), ApplyLogged]);
            && r.Some? && Ready(r.value) && r.value.history == sys.history + [c]
            && r.value.disk == sys.disk.(file := sys.disk.file + Record(sys.proc.m.lastSeq + 1, c))
            && r.value.proc.m == sys.proc.m.(lastSeq := sys.proc.m.lastSeq + 1, state := r.value.proc.m.state)
  {
    hide Apply, Record, Exec;
    Exec2(cfg, every, sys, Append(c), ApplyLogged);
  }

  // ----- behind a torn tail -------------------------------------------------

  /** The first start, a torn append, the next start. */
  function TornStart(lost: Command, k: nat): seq<Action> {
    [Restart, Tear(lost, k), Restart]
  }

  lemma AfterTorn(cfg: Config, every: nat, lost: Command, k: nat)
    requires InRange(lost) && k < RECORD
    ensures var r := Exec(cfg, every, Start, TornStart(lost, k));
            && r.Some? && Ready(r.value) && r.value.history == [] && r.value.proc.m.lastSeq == 0
            && r.value.disk == Disk(Part(1, lost, k), Missing, Missing)
            && SafeWith(cfg, r.value, 0, Part(1, lost, k)) && Torn(r.value.disk.file) == Part(1, lost, k)
  {
    hide SafeWith, Exec, Recovered, ReadWal, Part, Torn, Record;
    StartSafe(cfg);
    NothingReads();
    var s1 := Next(cfg, every, Start, Restart);
    RestartSafe(cfg, every, Start, 0, []);
    var s2 := Next(cfg, every, s1, Tear(lost, k));
    assert [] + Part(1, lost, k) == Part(1, lost, k);
    TearSafe(cfg, every, s1, lost, k, 0);
    TornReads1(cfg, s2, Part(1, lost, k));
    RestartSafe(cfg, every, s2, 0, Part(1, lost, k));
    Exec3(cfg, every, Start, Restart, Tear(lost, k), Restart);
  }

  lemma NothingReads()
    ensures ReadWal([]) == NothingRead
  {
    hide NextRecord;
    ShortRefused([]);
  }

  lemma TornReads1(cfg: Config, sys: System, tail: seq<byte>)
    requires SafeWith(cfg, sys, 0, tail) && sys.history == []
    ensures !ReadWal(sys.disk.file).gap && ReadWal(sys.disk.file).lastSeq == 0 && Torn(sys.disk.file) == tail
  {
    hide ReadWal, Torn, Image, FileOk, Anchored, ProcSafe;
    StoredReads(sys, 0, tail);
  }

  /** One command logged and applied behind a torn record, then a crash. */
  function TornRun(lost: Command, k: nat, c: Command): seq<Action> {
    TornStart(lost, k) + [Append(c), ApplyLogged] + [Crash]
  }

  lemma TornRunEnds(cfg: Config, every: nat, lost: Command, k: nat, c: Command)
    requires InRange(lost) && InRange(c) && k < RECORD
    ensures var r := Exec(cfg, every, Start, TornRun(lost, k, c));
            && r.Some? && r.value.history == [c]
            && r.value.disk == Disk(Part(1, lost, k) + Record(1, c), Missing, Missing)
            && (Covered(r.value.disk, [c]) <==> Record(1, c) <= Part(1, lost, k) + Record(1, c))
  {
    hide SafeWith, Exec, Record, Part, Torn, Covered, Apply, TornStart;
    AfterTorn(cfg, every, lost, k);
    var s3 := Exec(cfg, every, Start, TornStart(lost, k)).value;
    assert Safe(cfg, s3);
    AppendCoveredExactly(cfg, every, s3, c);
    Take(cfg, every, s3, c);
    var s5 := Exec(cfg, every, s3, [Append(c), ApplyLogged]).value;
    Exec1(cfg, every, s5, Crash);
    ExecAppend(cfg, every, Start, TornStart(lost, k), [Append(c), ApplyLogged]);
    ExecAppend(cfg, every, Start, TornStart(lost, k) + [Append(c), ApplyLogged], [Crash]);
    assert [] + [c] == [c];
  }

  /** A torn write, a restart, one more command, a crash: recovery is complete
      exactly when the record appended is what the reader meets, so never after a
      cut in the length field, and after a cut in the last four bytes only if the
      lost command itself was sent again and ends as records start. */
  lemma LostBehindTornTail(cfg: Config, every: nat, lost: Command, k: nat, c: Command)
    requires InRange(lost) && InRange(c) && 1 <= k < RECORD
    ensures var r := Exec(cfg, every, Start, TornRun(lost, k, c));
            && r.Some? && r.value.history == [c]
            && (Covered(r.value.disk, [c]) <==> Record(1, c) <= Part(1, lost, k) + Record(1, c))
            && (k <= 3 ==> !Covered(r.value.disk, [c]))
            && (RECORD - 4 <= k && lost != c ==> !Covered(r.value.disk, [c]))
  {
    hide Exec, Record, Covered, TornRun;
    TornRunEnds(cfg, every, lost, k, c);
    RereadCut(1, lost, k, c);
  }

  lemma RevenantRead(cfg: Config, every: nat, c: Command)
    requires InRange(c)
    ensures var r := Exec(cfg, every, Start, TornRun(Revenant, RECORD - 4, c));
            r.Some? && r.value.history == [c] && Pending(r.value.disk) == [Revenant]
  {
    RevenantEnds(1);
    hide Exec, Record, Covered, TornRun, ReadWal, NextRecord;
    TornRunEnds(cfg, every, Revenant, RECORD - 4, c);
    RecordStarts(1, c);
    LateCut(1, Revenant, RECORD - 4, Record(1, c));
    var buf := Part(1, Revenant, RECORD - 4) + Record(1, c);
    ReadFirst(buf);
  }

  /** With a record that ends as records start, recovery replays the command that
      was never logged in place of the one that was. */
  lemma RevenantReplayed(cfg: Config, every: nat, c: Command)
    requires InRange(c)
    ensures var r := Exec(cfg, every, Start, TornRun(Revenant, RECORD - 4, c));
            && r.Some? && r.value.history == [c] && Pending(r.value.disk) == [Revenant]
            && (c != Revenant ==> !Covered(r.value.disk, [c]))
  {
    hide Exec, Record, Covered, TornRun, Pending, Part;
    RevenantEnds(1);
    RevenantRead(cfg, every, c);
    LostBehindTornTail(cfg, every, Revenant, RECORD - 4, c);
  }

  lemma ReadFirst(buf: seq<byte>)
    requires NextRecord(buf).Some? && |buf| < 2 * RECORD
    ensures ReadWal(buf).commands == [NextRecord(buf).value.command]
  {
    hide NextRecord, ReadWal;
    ReadBehind(0, [], buf);
    assert Log(1, []) + buf == buf;
    var x := NextRecord(buf).value.command;
    assert [] + [x] == [x];
  }

  // ----- behind a damaged snapshot ------------------------------------------

  /** One whole snapshot. */
  lemma Save(cfg: Config, sys: System)
    requires Ready(sys) && sys.proc.m.lastSeq >= sys.proc.m.nextSnap
    ensures var r := Exec(cfg, 1, sys, [StartSnapshot, WriteSnapshot, FinishSnapshot]); var m := sys.proc.m;
            && r.Some? && Ready(r.value) && r.value.history == sys.history && r.value.disk.snap.Holds?
            && r.value.disk.file == (if m.lastSnap > 0 then Truncated(sys.disk.file, m.lastSnap) else sys.disk.file)
            && r.value.proc.m == m.(lastSnap := m.lastSeq, nextSnap := m.lastSeq + 1)
  {
    hide Truncated, Exec, Restoring.Export;
    Exec3(cfg, 1, sys, StartSnapshot, WriteSnapshot, FinishSnapshot);
  }

  function OneThenSave(c: Command): seq<Action> {
    [Append(c), ApplyLogged] + [StartSnapshot, WriteSnapshot, FinishSnapshot]
  }

  /** The log holds the history above `base`, and the counters fit. */
  ghost predicate Trim(sys: System, base: nat, lastSnap: nat) {
    && Ready(sys) && Stored(sys, base, []) && sys.proc.m.lastSeq == |sys.history|
    && sys.proc.m.lastSnap == lastSnap <= |sys.history| && sys.proc.m.nextSnap <= |sys.history| + 1
  }

  lemma TakeTrim(cfg: Config, sys: System, c: Command, base: nat, last: nat)
    requires Trim(sys, base, last) && InRange(c) && |sys.history| + 1 < U64_RANGE
    ensures var r := Exec(cfg, 1, sys, [Append(c), ApplyLogged]);
            && r.Some? && Trim(r.value, base, last) && r.value.history == sys.history + [c]
            && r.value.disk.snap == sys.disk.snap && r.value.disk.prev == sys.disk.prev
            && r.value.proc.m.nextSnap == sys.proc.m.nextSnap
  {
    hide Image, Exec, Record;
    Take(cfg, 1, sys, c);
    AppendImage(sys.disk.file, base, sys.history, c);
  }

  lemma TakeAndSave(cfg: Config, sys: System, c: Command, base: nat, last: nat)
    requires Trim(sys, base, last) && InRange(c) && |sys.history| + 1 < U64_RANGE
    ensures var r := Exec(cfg, 1, sys, OneThenSave(c));
            && r.Some? && r.value.history == sys.history + [c] && r.value.disk.snap.Holds?
            && Trim(r.value, if last > 0 then Max(base, last) else base, |sys.history| + 1)
            && r.value.proc.m.nextSnap == |sys.history| + 2
  {
    hide Image, Exec, Truncated;
    TakeTrim(cfg, sys, c, base, last);
    var s := Exec(cfg, 1, sys, [Append(c), ApplyLogged]).value;
    Save(cfg, s);
    if last > 0 {
      TruncateImage(s.disk.file, base, s.history, [], last);
    }
    ExecAppend(cfg, 1, sys, [Append(c), ApplyLogged], [StartSnapshot, WriteSnapshot, FinishSnapshot]);
  }

  lemma FirstStart(cfg: Config)
    ensures Enabled(1, Start, Restart) && Trim(Next(cfg, 1, Start, Restart), 0, 0)
    ensures Next(cfg, 1, Start, Restart).history == []
  {
    StartSafe(cfg);
    NothingReads();
    hide Recovered, ReadWal, Image;
  }

  lemma TwoSaves(cfg: Config, a: Command, b: Command)
    requires InRange(a) && InRange(b)
    ensures var sys := Exec(cfg, 1, Start, [Restart] + OneThenSave(a) + OneThenSave(b));
            && sys.Some? && Trim(sys.value, 1, 2) && sys.value.history == [a, b] && sys.value.disk.snap.Holds?
            && sys.value.proc.m.nextSnap == 3
  {
    hide Exec, OneThenSave, Trim, Next, Enabled;
    FirstStart(cfg);
    var s1 := Next(cfg, 1, Start, Restart);
    Exec1(cfg, 1, Start, Restart);
    TakeAndSave(cfg, s1, a, 0, 0);
    var s2 := Exec(cfg, 1, s1, OneThenSave(a)).value;
    assert [] + [a] == [a] && [a] + [b] == [a, b];
    TakeAndSave(cfg, s2, b, 0, 1);
    ExecAppend(cfg, 1, Start, [Restart], OneThenSave(a));
    ExecAppend(cfg, 1, Start, [Restart] + OneThenSave(a), OneThenSave(b));
  }

  lemma DamagedRename(cfg: Config, sys: System)
    requires Trim(sys, 1, 2) && |sys.history| == 3 && sys.proc.m.nextSnap == 3 && sys.disk.snap.Damaged?
    ensures Enabled(1, sys, StartSnapshot)
    ensures var r := Exec(cfg, 1, sys, [StartSnapshot, Crash]);
            && r.Some? && r.value.history == sys.history && Chosen(r.value.disk).None?
            && Pending(r.value.disk) == sys.history[1..]
  {
    hide Exec, Image, ReadWal;
    Exec2(cfg, 1, sys, StartSnapshot, Crash);
    ImageReads(sys.disk.file, 1, sys.history[1..], []);
  }

  lemma DamageTrim(cfg: Config, sys: System)
    requires Trim(sys, 1, 2) && sys.disk.snap.Holds?
    ensures Enabled(1, sys, Damage) && Trim(Next(cfg, 1, sys, Damage), 1, 2)
    ensures var next := Next(cfg, 1, sys, Damage);
            next.history == sys.history && next.disk.snap.Damaged? && next.proc == sys.proc
  {
    hide Image;
  }

  /** Two snapshots, then the newest is damaged and a third is started: the
      damaged file replaces its intact predecessor, and a crash before the write
      completes leaves a log that no longer holds the first command. */
  lemma LostBehindDamage(cfg: Config, a: Command, b: Command, c: Command)
    requires InRange(a) && InRange(b) && InRange(c)
    ensures var run := [Restart] + OneThenSave(a) + OneThenSave(b) + [Damage] + [Append(c), ApplyLogged] +
                       [StartSnapshot, Crash];
            var sys := Exec(cfg, 1, Start, run);
            && sys.Some? && sys.value.history == [a, b, c] && Chosen(sys.value.disk).None?
            && Pending(sys.value.disk) == [b, c]
  {
    hide Exec, OneThenSave, Trim, Next, Enabled, Pending, Chosen;
    var r := [Restart] + OneThenSave(a) + OneThenSave(b);
    TwoSaves(cfg, a, b);
    var s3 := Exec(cfg, 1, Start, r).value;
    DamageTrim(cfg, s3);
    var s4 := Next(cfg, 1, s3, Damage);
    Exec1(cfg, 1, s3, Damage);
    TrimUp(s3, 1, 2);
    TakeTrim(cfg, s4, c, 1, 2);
    var s5 := Exec(cfg, 1, s4, [Append(c), ApplyLogged]).value;
    assert [a, b] + [c] == [a, b, c] && [a, b, c][1..] == [b, c];
    TrimUp(s4, 1, 2);
    TrimUp(s5, 1, 2);
    DamagedRename(cfg, s5);
    ExecAppend(cfg, 1, Start, r, [Damage]);
    ExecAppend(cfg, 1, Start, r + [Damage], [Append(c), ApplyLogged]);
    ExecAppend(cfg, 1, Start, r + [Damage] + [Append(c), ApplyLogged], [StartSnapshot, Crash]);
  }

  lemma TrimUp(sys: System, base: nat, last: nat)
    requires Trim(sys, base, last)
    ensures sys.proc.Up?
  {
    hide Stored;
  }
}
