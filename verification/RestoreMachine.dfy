/**
 The restore as the program runs it: a live instance whose file system, durable journal and
 in-memory journal change step by step. `moments` records every state at which the process
 could crash or fail.
 */
module RestoreMachine {
  import opened Common
  import opened FileTree
  import opened RestoreProtocol
  import opened RestoreRerun
  import opened RestoreLife

  datatype RestoreError = RollbackPathExists | MissingRollbackPath | CommitOutcomeUncertain | NoJournal

  datatype Outcome = RolledBackFiles | CompletedCleanup

  class Instance {
    var fs: Tree
    var server: Served
    var durable: Option<Journal>
    var journal: Journal
    ghost var moments: seq<Moment>

    constructor (fs: Tree, server: Served, journal: Journal)
      ensures this.fs == fs && this.server == server && this.journal == journal
      ensures durable == None && moments == []
    {
      this.fs, this.server, this.journal, this.durable := fs, server, journal, None;
      this.moments := [];
    }

    ghost function Now(): Moment
      reads this
      requires durable.Some?
    {
      Moment(Disk(fs, durable.value, server), journal)
    }

    /** Moments are only ever added. */
    ghost predicate Grown(before: seq<Moment>)
      reads this
    {
      |before| <= |moments| && moments[..|before|] == before
    }

    /** `_write_restore_journal`: the process may die before the new journal is in place, or after. */
    method Persist()
      modifies this`durable, this`moments
      ensures durable == Some(journal)
      ensures moments == old(moments) + (if old(durable).Some? then [old(Now())] else []) + [Now()]
    {
      if durable.Some? { moments := moments + [Now()]; }
      durable := Some(journal);
      moments := moments + [Now()];
    }

    /** `_remove_path`: nodes below `p` disappear one after another. */
    method RemovePath(p: Path)
      modifies this`fs, this`moments
      ensures fs == Remove(old(fs), p)
      ensures Grown(old(moments)) && (durable.None? ==> moments == old(moments))
      ensures forall i :: |old(moments)| <= i < |moments| ==>
                && durable.Some?
                && moments[i] == Moment(Disk(moments[i].disk.fs, durable.value, server), journal)
                && PartlyRemoved(old(fs), moments[i].disk.fs, p)
    {
      ghost var before := fs;
      while exists q :: q in fs && p <= q
        invariant forall q :: At(fs, q) == At(before, q) || (p <= q && At(fs, q) == None)
        invariant Grown(old(moments)) && (durable.None? ==> moments == old(moments))
        invariant forall i :: |old(moments)| <= i < |moments| ==>
                    && durable.Some?
                    && moments[i] == Moment(Disk(moments[i].disk.fs, durable.value, server), journal)
                    && PartlyRemoved(before, moments[i].disk.fs, p)
        decreases |fs.Keys|
      {
        var q :| q in fs && p <= q;
        ghost var was := fs;
        fs := map x | x in fs && x != q :: fs[x];
        assert fs.Keys == was.Keys - {q};
        assert forall x :: At(fs, x) == if x == q then None else At(was, x);
        if durable.Some? { moments := moments + [Now()]; }
      }
      forall q ensures At(fs, q) == At(Remove(before, p), q) {
        assert !(q in fs && p <= q);
      }
      TreesEqual(fs, Remove(before, p));
    }

    /** Removes every path that is there: `_cleanup_restore_swaps`, and the staging leftovers. */
    method CleanUp(paths: seq<Path>)
      modifies this`fs, this`moments
      ensures fs == RemoveAll(old(fs), paths)
      ensures Grown(old(moments)) && (durable.None? ==> moments == old(moments))
      ensures forall i :: |old(moments)| <= i < |moments| ==>
                && durable.Some?
                && moments[i] == Moment(Disk(moments[i].disk.fs, durable.value, server), journal)
                && PartlyStripped(old(fs), moments[i].disk.fs, paths)
    {
      ghost var before := fs;
      var n := 0;
      while n < |paths|
        invariant 0 <= n <= |paths|
        invariant fs == RemoveAll(before, paths[..n])
        invariant Grown(old(moments)) && (durable.None? ==> moments == old(moments))
        invariant forall i :: |old(moments)| <= i < |moments| ==>
                    && durable.Some?
                    && moments[i] == Moment(Disk(moments[i].disk.fs, durable.value, server), journal)
                    && PartlyStripped(before, moments[i].disk.fs, paths)
      {
        ghost var m1, fs1 := moments, fs;
        if Exists(fs, paths[n]) {
          RemovePath(paths[n]);
        }
        RemoveOneMore(before, paths, n);
        forall i | |m1| <= i < |moments| ensures PartlyStripped(before, moments[i].disk.fs, paths) {
          StripOneMore(before, fs1, moments[i].disk.fs, paths, n);
        }
        assert forall i :: 0 <= i < |m1| ==> moments[i] == m1[i] by { assert moments[..|m1|] == m1; }
        n := n + 1;
      }
      assert paths[..n] == paths;
    }

    /** The first half of one iteration of `_rollback_swaps`: a target that was filled is emptied. */
    method ClearTarget(i: nat)
      requires durable.Some? && i < |journal.swaps|
      modifies this`fs, this`durable, this`journal, this`moments
      ensures fs == ClearedTree(old(fs), old(journal.swaps)[i])
      ensures journal == old(journal).(swaps := old(journal.swaps)[i := ClearedEntry(old(fs), old(journal.swaps)[i])])
      ensures durable == (if Clears(old(fs), old(journal.swaps)[i]) then Some(journal) else old(durable))
      ensures Grown(old(moments))
      ensures forall k :: |old(moments)| <= k < |moments| ==>
                && ClearVisits(old(fs), old(durable).value.swaps, old(journal.swaps), i,
                               moments[k].disk.fs, moments[k].disk.journal.swaps)
                && Written(moments[k].disk, server, old(durable).value, old(journal))
    {
      var entry := journal.swaps[i];
      if entry.newMoved || StagedWasMoved(fs, entry) {
        RemovePath(entry.root.target);
        journal := journal.(swaps := journal.swaps[i := entry.(newMoved := false)]);
        Persist();
      }
    }

    /** The second half: the original goes back to its place, if there is one. */
    method MoveBack(i: nat) returns (ok: bool)
      requires durable.Some? && i < |journal.swaps|
      requires Apart(journal.swaps[i].root.target, journal.swaps[i].root.rollback)
      modifies this`fs, this`durable, this`journal, this`moments
      ensures var e := old(journal.swaps)[i];
              var found := Exists(old(fs), e.root.rollback);
              && (ok <==> found || !e.oldMoved)
              && (found ==>
                    && fs == Rename(old(fs), e.root.rollback, e.root.target)
                    && journal == WithEntry(old(journal), i, e.(oldMoved := false)) && durable == Some(journal)
                    && moments == old(moments) + Writing(fs, server, old(durable).value, journal))
              && (!found ==> fs == old(fs) && journal == old(journal) && durable == old(durable) && moments == old(moments))
    {
      var entry := journal.swaps[i];
      if entry.oldMoved || Exists(fs, entry.root.rollback) {
        if !Exists(fs, entry.root.rollback) {
          return false;
        }
        fs := Rename(fs, entry.root.rollback, entry.root.target);
        journal := journal.(swaps := journal.swaps[i := entry.(oldMoved := false)]);
        Persist();
      }
      return true;
    }

    /** One iteration of `_rollback_swaps`. */
    method UndoEntry(i: nat) returns (ok: bool)
      requires durable.Some? && i < |journal.swaps| && Movable(journal.swaps)
      modifies this`fs, this`durable, this`journal, this`moments
      ensures var s := EntryUndo(old(fs), old(durable).value.swaps, old(journal.swaps), i);
              && fs == s.fs && journal == old(journal).(swaps := s.memory)
              && durable.Some? && durable.value.swaps == s.durable && ok == !s.missing
      ensures durable == Some(journal) || (durable == old(durable) && journal == old(journal))
      ensures Grown(old(moments))
      ensures forall k :: |old(moments)| <= k < |moments| ==>
                && EntryVisits(old(fs), old(durable).value.swaps, old(journal.swaps), i,
                               moments[k].disk.fs, moments[k].disk.journal.swaps)
                && Written(moments[k].disk, server, old(durable).value, old(journal))
    {
      ghost var swaps0 := journal.swaps;
      ClearTarget(i);
      assert swaps0[i := swaps0[i]] == swaps0;
      ghost var e := journal.swaps[i];
      ok := MoveBack(i);
      assert swaps0[i := e][i := e.(oldMoved := false)] == swaps0[i := e.(oldMoved := false)];
    }

    /** `_rollback_swaps`, the loop over the reversed list. */
    method RollbackSwaps() returns (r: Result<(), RestoreError>)
      requires durable.Some? && Movable(journal.swaps)
      modifies this`fs, this`durable, this`journal, this`moments
      ensures var u := Rollback(old(fs), old(journal.swaps), |old(journal.swaps)|);
              && fs == u.fs && journal == old(journal).(swaps := u.swaps)
              && r == (if u.Undone? then Ok(()) else Err(MissingRollbackPath))
      ensures durable.Some? && (durable == old(durable) || durable == Some(journal))
      ensures old(durable) == Some(old(journal)) ==> durable == Some(journal)
      ensures r.Ok? ==> RollbackVisits(old(fs), old(durable).value.swaps, old(journal.swaps), |old(journal.swaps)|,
                                       fs, durable.value.swaps)
      ensures Grown(old(moments))
      ensures forall k :: |old(moments)| <= k < |moments| ==>
                && RollbackVisits(old(fs), old(durable).value.swaps, old(journal.swaps), |old(journal.swaps)|,
                                  moments[k].disk.fs, moments[k].disk.journal.swaps)
                && Written(moments[k].disk, server, old(durable).value, old(journal))
    {
      ghost var start := Start(fs, durable.value, journal, server, moments);
      var n := |journal.swaps|;
      assert moments[..|start.moments|] == start.moments;
      while n > 0
        invariant 0 <= n <= |journal.swaps| && RollingBack(start, n)
      {
        var ok := UndoNext(start, n);
        if !ok {
          return Err(MissingRollbackPath);
        }
        n := n - 1;
      }
      return Ok(());
    }

    /** The rollback that began at `start` has still to undo the first `n` entries. */
    ghost predicate RollingBack(start: Start, n: nat)
      reads this
    {
      && n <= |journal.swaps| && Movable(journal.swaps) && Movable(start.memory.swaps)
      && Unfinished(start, n) && RolledSoFar(start)
      && Rollback(start.fs, start.memory.swaps, |start.memory.swaps|) == Rollback(fs, journal.swaps, n)
    }

    ghost predicate Unfinished(start: Start, n: nat)
      reads this
      requires n <= |journal.swaps| && Movable(journal.swaps) && Movable(start.memory.swaps)
    {
      durable.Some? && Continues(start, fs, durable.value.swaps, journal.swaps, n)
    }

    /** What holds of the journals and of the moments so far. */
    ghost predicate RolledSoFar(start: Start)
      reads this
      requires Movable(start.memory.swaps)
    {
      && server == start.server && journal == start.memory.(swaps := journal.swaps)
      && durable.Some? && (durable.value == start.durable || durable == Some(journal))
      && (start.durable == start.memory ==> durable == Some(journal))
      && Grown(start.moments)
      && forall k :: |start.moments| <= k < |moments| ==> VisitedFrom(start, moments[k].disk)
    }

    /** Undoes entry `n - 1`. */
    method UndoNext(ghost start: Start, n: nat) returns (ok: bool)
      requires n > 0 && RollingBack(start, n)
      modifies this`fs, this`durable, this`journal, this`moments
      ensures ok ==> RollingBack(start, n - 1)
      ensures RolledSoFar(start)
      ensures !ok ==> Rollback(start.fs, start.memory.swaps, |start.memory.swaps|) == MissingRollback(fs, journal.swaps, n - 1)
    {
      ghost var fs1, durable1, memory1, m1 := fs, durable.value, journal, moments;
      ok := UndoEntry(n - 1);
      UndoContinues(start, fs1, durable1.swaps, memory1.swaps, n);
      NewlyVisited(start, fs1, durable1, memory1, n, m1, moments);
    }

    /** `_switch_path`: the entry at `i` has been journalled, nothing of it has been moved. */
    method SwitchPath(i: nat) returns (r: Result<(), RestoreError>)
      requires durable == Some(journal) && i < |journal.swaps|
      requires var e := journal.swaps[i]; WellPlaced(e.root) && e.root.staged.Some? && e == Begin(fs, e.root)
      modifies this`fs, this`durable, this`journal, this`moments
      ensures r.Err? <==> Exists(old(fs), old(journal.swaps)[i].root.rollback)
      ensures r.Err? ==> fs == old(fs) && durable == old(durable) && journal == old(journal) && moments == old(moments)
      ensures r.Ok? ==>
                && fs == Switched(old(fs), old(journal.swaps)[i].root)
                && journal == WithEntry(old(journal), i, Recorded(old(journal.swaps)[i]))
                && durable == Some(journal)
                && moments == old(moments) + SwitchMoments(old(fs), old(journal), i, server)
    {
      var entry := journal.swaps[i];
      ghost var base := journal;
      assert WithEntry(base, i, entry) == base by { assert base.swaps[i := entry] == base.swaps; }
      if Exists(fs, entry.root.rollback) {
        return Err(RollbackPathExists);
      }
      if entry.hadOriginal {
        fs := Rename(fs, entry.root.target, entry.root.rollback);
        Record(i, entry.(oldMoved := true));
      }
      ghost var moved := entry.(oldMoved := entry.hadOriginal);
      assert journal == WithEntry(base, i, moved);
      fs := Rename(fs, entry.root.staged.value, entry.root.target);
      Record(i, journal.swaps[i].(newMoved := true));
      assert WithEntry(WithEntry(base, i, moved), i, Recorded(entry)) == WithEntry(base, i, Recorded(entry)) by {
        assert base.swaps[i := moved][i := Recorded(entry)] == base.swaps[i := Recorded(entry)];
      }
      return Ok(());
    }

    /** Sets one entry of the in-memory journal and writes the journal. */
    method Record(i: nat, e: Entry)
      requires durable.Some? && i < |journal.swaps|
      modifies this`durable, this`journal, this`moments
      ensures journal == WithEntry(old(journal), i, e) && durable == Some(journal)
      ensures moments == old(moments) + [Moment(Disk(fs, old(durable).value, server), journal),
                                         Moment(Disk(fs, journal, server), journal)]
    {
      journal := journal.(swaps := journal.swaps[i := e]);
      Persist();
    }

    /** The same for a SQLite sidecar, which has nothing staged. */
    method SetAside(i: nat)
      requires durable == Some(journal) && i < |journal.swaps|
      requires var e := journal.swaps[i];
               WellPlaced(e.root) && e.root.staged.None? && e == Begin(fs, e.root) && e.hadOriginal
      modifies this`fs, this`durable, this`journal, this`moments
      ensures fs == Switched(old(fs), old(journal.swaps)[i].root)
      ensures journal == WithEntry(old(journal), i, Recorded(old(journal.swaps)[i]))
      ensures durable == Some(journal)
      ensures moments == old(moments) + SwitchMoments(old(fs), old(journal), i, server)
    {
      var entry := journal.swaps[i];
      assert WithEntry(journal, i, entry) == journal by { assert journal.swaps[i := entry] == journal.swaps; }
      fs := Rename(fs, entry.root.target, entry.root.rollback);
      Record(i, entry.(oldMoved := true));
    }

    /** Roots `0..k` of the plan are switched, and both journals say so. */
    ghost predicate Rests(plan: Plan, k: nat)
      reads this
      requires Sound(plan)
    {
      && k <= |plan.roots| && durable == Some(journal) && server == OldRows
      && OfPlan(plan, journal) && BeforeCommit(journal)
      && Rested(plan.origin, plan.roots, StagingSet(plan), k, fs, journal.swaps)
    }

    /** Every moment added since `before` is one from which the restore can be recovered. */
    ghost predicate Covered(plan: Plan, before: seq<Moment>)
      reads this
      requires Sound(plan)
    {
      Grown(before) && forall i :: |before| <= i < |moments| ==> ApplyMoment(plan, moments[i])
    }

    /** One iteration of the loop over components, or one file of `_switch_sqlite_database`. */
    method ApplyRoot(root: Root, phase: Phase, ghost plan: Plan, ghost k: nat) returns (r: Result<(), RestoreError>)
      requires Sound(plan) && k < |plan.roots| && plan.roots[k] == root && Rests(plan, k) && phase != Complete
      modifies this`fs, this`durable, this`journal, this`moments
      ensures r.Ok? && Rests(plan, k + 1)
      ensures Covered(plan, old(moments))
    {
      if root.staged.None? && !Exists(fs, root.target) {
        SkipRoot(plan, k, fs, journal.swaps);
        return Ok(());
      }
      ghost var before, was := Progress(fs, journal.swaps), journal;
      PlacedApart(root, StagingSet(plan));
      ReadyAt(plan.origin, plan.roots, StagingSet(plan), k);
      Announce(root, phase);
      Announced(plan, k, before, was, journal);
      ghost var m1 := moments;
      r := SwitchAnnounced(plan, k, before);
      CoverageGrows(old(moments), m1, moments, plan);
    }

    /** The moves of root `k`, whose entry is the last of the journal. */
    method SwitchAnnounced(ghost plan: Plan, ghost k: nat, ghost before: Progress) returns (r: Result<(), RestoreError>)
      requires Sound(plan) && k < |plan.roots| && WellPlaced(plan.roots[k]) && SwitchReady(before.fs, plan.roots[k])
      requires Rested(plan.origin, plan.roots, StagingSet(plan), k, before.fs, before.swaps)
      requires Listed(before.fs, plan.roots[k]) && fs == before.fs && server == OldRows
      requires durable == Some(journal) && BeforeCommit(journal) && OfPlan(plan, journal)
      requires journal.swaps == before.swaps + [Begin(before.fs, plan.roots[k])]
      modifies this`fs, this`durable, this`journal, this`moments
      ensures r.Ok? && Rests(plan, k + 1) && Covered(plan, old(moments))
    {
      ghost var base, m1 := journal, moments;
      r := SwitchEntry(|journal.swaps| - 1);
      SwitchCovered(plan, k, before, base, m1, moments);
    }

    /** Appends the entry for `root` and writes the journal; nothing has been moved yet. */
    method Announce(root: Root, phase: Phase)
      requires durable == Some(journal)
      modifies this`durable, this`journal, this`moments
      ensures journal == old(journal).(swaps := old(journal.swaps) + [Begin(fs, root)], phase := phase)
      ensures durable == Some(journal)
      ensures moments == old(moments) + Writing(fs, server, old(journal), journal)
    {
      journal := journal.(swaps := journal.swaps + [Entry(root, Exists(fs, root.target), false, false)], phase := phase);
      Persist();
    }

    method SwitchEntry(i: nat) returns (r: Result<(), RestoreError>)
      requires durable == Some(journal) && i < |journal.swaps|
      requires var e := journal.swaps[i]; WellPlaced(e.root) && e == Begin(fs, e.root) && Listed(fs, e.root)
      modifies this`fs, this`durable, this`journal, this`moments
      ensures !Exists(old(fs), old(journal.swaps)[i].root.rollback) ==>
                && r.Ok?
                && fs == Switched(old(fs), old(journal.swaps)[i].root)
                && journal == WithEntry(old(journal), i, Recorded(old(journal.swaps)[i]))
                && durable == Some(journal)
                && moments == old(moments) + SwitchMoments(old(fs), old(journal), i, server)
    {
      if journal.swaps[i].root.staged.Some? {
        r := SwitchPath(i);
      } else {
        SetAside(i);
        r := Ok(());
      }
    }

    /** The file part of `apply_restore`: every root in turn. */
    method ApplyFiles(roots: seq<Root>, phases: seq<Phase>, ghost plan: Plan)
      requires Sound(plan) && plan.roots == roots && |phases| == |roots| && Complete !in phases && Rests(plan, 0)
      modifies this`fs, this`durable, this`journal, this`moments
      ensures Rests(plan, |roots|) && Covered(plan, old(moments))
    {
      var k := 0;
      while k < |roots|
        invariant 0 <= k <= |roots| && Rests(plan, k) && Covered(plan, old(moments))
      {
        ghost var m1 := moments;
        assert phases[k] in phases;
        var r := ApplyRoot(roots[k], phases[k], plan, k);
        CoverageGrows(old(moments), m1, moments, plan);
        k := k + 1;
      }
    }

    /** `_mark_database_commit_started`, the commit of the import, and the record of it. */
    method CommitServerDatabase(ghost plan: Plan)
      requires Sound(plan) && plan.backend == Server && plan.database && Rests(plan, |plan.roots|)
      modifies this`server, this`durable, this`journal, this`moments
      ensures server == NewRows
      ensures journal == old(journal).(commitStarted := true, committed := true, phase := Committed)
      ensures durable == Some(journal) && AllSwitched(plan, fs, journal)
      ensures Covered(plan, old(moments))
      ensures |old(moments)| < |moments|
              && moments[|old(moments)|] == Moment(Disk(fs, old(journal), OldRows),
                                                   old(journal).(commitStarted := true, phase := CommitStarted))
    {
      assert plan.roots[..|plan.roots|] == plan.roots;
      journal := journal.(commitStarted := true, phase := CommitStarted);
      Persist();
      server := NewRows;
      moments := moments + [Now()];
      journal := journal.(committed := true, phase := Committed);
      Persist();
    }

    /** The end of `_switch_sqlite_database`, and the journal write that follows it. */
    method RecordSqliteSwitch(ghost plan: Plan)
      requires Sound(plan) && plan.backend == Sqlite && Rests(plan, |plan.roots|)
      modifies this`durable, this`journal, this`moments
      ensures Rests(plan, |plan.roots|) && Covered(plan, old(moments))
      ensures journal == old(journal).(committed := true, phase := SqliteSwitched)
    {
      ghost var was := journal;
      journal := journal.(committed := true, phase := SqliteSwitched);
      assert Holds(plan, |plan.roots|, fs, was) && Holds(plan, |plan.roots|, fs, journal);
      Persist();
      Persist();
    }

    /** `complete` is made durable; only then do the rollback copies go. */
    method MakeComplete(ghost plan: Plan)
      requires Sound(plan) && durable == Some(journal) && AllSwitched(plan, fs, journal) && journal.phase != Complete
      requires if plan.backend == Server && plan.database
               then server == NewRows && journal.commitStarted
               else server == OldRows && BeforeCommit(journal)
      modifies this`fs, this`durable, this`journal, this`moments
      ensures fs == NewTree(plan) && durable == None
      ensures Covered(plan, old(moments))
    {
      WriteComplete(plan);
      ghost var m1 := moments;
      DropRollbacks(plan);
      CoverageGrows(old(moments), m1, moments, plan);
      durable := None;
      CleanUp(journal.staging);
    }

    /** The journal write that makes `complete` durable. */
    method WriteComplete(ghost plan: Plan)
      requires Sound(plan) && durable == Some(journal) && AllSwitched(plan, fs, journal) && journal.phase != Complete
      requires if plan.backend == Server && plan.database
               then server == NewRows && journal.commitStarted
               else server == OldRows && BeforeCommit(journal)
      modifies this`durable, this`journal, this`moments
      ensures journal == old(journal).(phase := Complete) && durable == Some(journal) && AllSwitched(plan, fs, journal)
      ensures moments == old(moments) + Writing(fs, server, old(journal), journal) && Covered(plan, old(moments))
    {
      ghost var was := journal;
      journal := journal.(phase := Complete);
      CompleteWritten(plan, fs, server, was);
      Persist();
    }

    /** `_cleanup_restore_swaps`, after `complete` is durable. */
    method DropRollbacks(ghost plan: Plan)
      requires Sound(plan) && durable == Some(journal) && AllSwitched(plan, fs, journal) && journal.phase == Complete
      requires server == if plan.backend == Server && plan.database then NewRows else OldRows
      modifies this`fs, this`moments
      ensures fs == RemoveAll(old(fs), Rollbacks(journal.swaps)) && Covered(plan, old(moments))
    {
      ghost var m1 := moments;
      CleanUp(Rollbacks(journal.swaps));
      forall i | |m1| <= i < |moments| ensures Completing(plan, moments[i]) {
        StrippedLeftovers(plan, moments[i].disk.fs);
      }
    }

    /** `apply_restore` from its first journal write on, when no step fails. */
    method ApplyRestore(roots: seq<Root>, phases: seq<Phase>, database: bool, ghost plan: Plan)
      requires Sound(plan) && plan.roots == roots && plan.database == database
      requires |phases| == |roots| && Complete !in phases
      requires fs == plan.origin && server == OldRows && durable == None
      requires journal == Journal(ApplyingFiles, plan.backend, [], false, false, plan.staging)
      modifies this
      ensures fs == NewTree(plan) && durable == None
      ensures server == (if plan.backend == Server && database then NewRows else OldRows)
      ensures Covered(plan, old(moments))
    {
      assert roots[..0] == [];
      assert Holds(plan, 0, fs, journal);
      Persist();
      ghost var m1 := moments;
      ApplyFiles(roots, phases, plan);
      CoverageGrows(old(moments), m1, moments, plan);
      ghost var m2 := moments;
      assert roots[..|roots|] == roots;
      if database {
        if journal.backend == Sqlite {
          RecordSqliteSwitch(plan);
        } else {
          CommitServerDatabase(plan);
        }
      }
      CoverageGrows(old(moments), m2, moments, plan);
      ghost var m3 := moments;
      MakeComplete(plan);
      CoverageGrows(old(moments), m3, moments, plan);
    }

    /**
     The `except` block of `apply_restore`, entered with whatever the failed step left. `Ok`
     means that the old files are back and the markers are gone. `Err` means that nothing on disk
     was touched, the journal included, and a later recovery goes by the journal that is there.
     */
    method HandleFailure(ghost plan: Plan) returns (r: Result<Outcome, RestoreError>)
      requires Sound(plan) && durable.Some? && ApplyMoment(plan, Now())
      modifies this`fs, this`durable, this`journal, this`moments
      ensures HandlerRollsBack(old(journal)) ==>
                r == Ok(RolledBackFiles) && fs == OldTree(plan) && server == OldRows && durable == None
      ensures !HandlerRollsBack(old(journal)) ==>
                && r.Err? && fs == old(fs) && durable == old(durable) && moments == old(moments)
                && ApplyMoment(plan, Now()) && Movable(durable.value.swaps)
                && Recover(fs, durable.value) ==
                     (if durable.value.phase == Complete then FinishedNew(NewTree(plan))
                      else if plan.backend == Server && durable.value.commitStarted then Refused
                      else RestoredOld(OldTree(plan)))
      ensures Grown(old(moments))
      ensures forall k :: |old(moments)| <= k < |moments| ==>
                HandlerVisits(old(Now()), moments[k].disk)
    {
      if journal.phase == Complete || (journal.backend == Server && journal.commitStarted) {
        JournalMovable(plan, Now());
        RecoveryDecides(plan, Now());
        if journal.phase != Complete {
          journal := journal.(phase := RecoveryRequired);
        }
        return Err(CommitOutcomeUncertain);
      }
      HandleByRollback(plan);
      return Ok(RolledBackFiles);
    }

    method HandleByRollback(ghost plan: Plan)
      requires Sound(plan) && durable.Some? && ApplyMoment(plan, Now()) && HandlerRollsBack(journal)
      modifies this`fs, this`durable, this`journal, this`moments
      ensures fs == OldTree(plan) && server == OldRows && durable == None && Grown(old(moments))
      ensures forall k :: |old(moments)| <= k < |moments| ==> HandlerVisits(old(Now()), moments[k].disk)
    {
      ghost var m := Now();
      JournalMovable(plan, m);
      FailThenHandle(plan, m);
      PlanStaging(plan, m);
      RollBackAndRecord(m);
      durable := None;
      CleanUp(journal.staging);
    }

    method RollBackAndRecord(ghost m: Moment)
      requires durable.Some? && m == Now() && Movable(journal.swaps)
      requires HandlerRollsBack(journal) && durable.value.phase != Complete
      requires durable.value.staging == journal.staging && durable.value.backend == journal.backend
      requires Rollback(fs, journal.swaps, |journal.swaps|).Undone?
      modifies this`fs, this`durable, this`journal, this`moments
      ensures fs == Rollback(old(fs), old(journal.swaps), |old(journal.swaps)|).fs
      ensures journal.staging == old(journal.staging)
      ensures Grown(old(moments))
      ensures forall k :: |old(moments)| <= k < |moments| ==> HandlerVisits(m, moments[k].disk)
    {
      ghost var m0 := moments;
      var undone := RollbackSwaps();
      forall k | |m0| <= k < |moments| ensures HandlerVisits(m, moments[k].disk) {
        assert Written(moments[k].disk, server, m.disk.journal, m.memory);
      }
      ghost var m1 := moments;
      assert HandlerVisits(m, Disk(fs, durable.value, server));
      journal := journal.(phase := RolledBack);
      Persist();
      assert forall k :: 0 <= k < |m1| ==> moments[k] == m1[k];
    }

    /**
     `recover_restore`, on an instance on which an earlier process has died. Where it raises, what it
     leaves on disk keeps every original, and the next recovery raises again and changes nothing.
     */
    method RecoverRestore() returns (r: Result<Outcome, RestoreError>)
      requires durable.Some? ==> Movable(durable.value.swaps)
      modifies this`fs, this`durable, this`journal, this`moments
      ensures old(durable).None? ==> r == Err(NoJournal) && fs == old(fs) && durable == None
      ensures old(durable).Some? ==>
                match Recover(old(fs), old(durable).value)
                case Refused => r == Err(CommitOutcomeUncertain) && fs == old(fs) && durable == old(durable)
                case Stuck(fs', _) =>
                  && r == Err(MissingRollbackPath) && fs == fs'
                  && durable == Some(old(durable).value.(swaps := Raised(Disk(old(fs), old(durable).value, server)).journal.swaps))
                case RestoredOld(fs') => r == Ok(RolledBackFiles) && fs == fs' && durable == None
                case FinishedNew(fs') => r == Ok(CompletedCleanup) && fs == fs' && durable == None
      ensures old(durable).Some? ==>
                var j := old(durable).value;
                && (r == Err(CommitOutcomeUncertain) <==>
                      !j.phase.Complete? && j.backend.Server? && (j.committed || j.commitStarted))
                && (r == Ok(CompletedCleanup) <==> j.phase.Complete?)
      ensures r == Err(MissingRollbackPath) && old(durable).Some? ==>
                forall origin :: Alive(origin, Disk(old(fs), old(durable).value, server)) ==>
                  && durable.Some? && Alive(origin, Disk(fs, durable.value, server))
                  && Movable(durable.value.swaps) && Recover(fs, durable.value).Stuck?
                  && Raised(Disk(fs, durable.value, server)) == Disk(fs, durable.value, server)
      ensures Grown(old(moments))
      ensures forall k :: |old(moments)| <= k < |moments| ==>
                && old(durable).Some?
                && RecoveryVisits(Disk(old(fs), old(durable).value, server), moments[k].disk)
    {
      if durable.None? {
        return Err(NoJournal);
      }
      journal := durable.value;
      if Refuses(journal) {
        return Err(CommitOutcomeUncertain);
      }
      if journal.phase != Complete {
        var undone := RollBackLoaded();
        if undone.Err? {
          RaisedDisks(Disk(old(fs), old(durable).value, server));
          return Err(undone.error);
        }
        r := Ok(RolledBackFiles);
      } else {
        r := Ok(CompletedCleanup);
      }
      ghost var d, m1, fs1 := Disk(old(fs), old(durable).value, server), moments, fs;
      DiscardLeftovers();
      forall k | |m1| <= k < |moments| ensures RecoveryVisits(d, moments[k].disk) {
        assert PartlyStripped(fs1, moments[k].disk.fs, Rollbacks(journal.swaps) + journal.staging);
      }
      assert forall k :: 0 <= k < |m1| ==> moments[k] == m1[k] by { assert moments[..|m1|] == m1; }
      durable := None;
    }

    method RollBackLoaded() returns (r: Result<(), RestoreError>)
      requires durable == Some(journal) && Movable(journal.swaps) && journal.phase != Complete && !Refuses(journal)
      modifies this`fs, this`durable, this`journal, this`moments
      ensures var u := Rollback(old(fs), old(journal.swaps), |old(journal.swaps)|);
              && fs == u.fs && journal == old(journal).(swaps := u.swaps) && durable == Some(journal)
              && r == (if u.Undone? then Ok(()) else Err(MissingRollbackPath))
              && (u.Undone? ==> Rollbacks(u.swaps) == Rollbacks(old(journal.swaps)))
      ensures Grown(old(moments))
      ensures forall k :: |old(moments)| <= k < |moments| ==>
                RecoveryVisits(Disk(old(fs), old(journal), server), moments[k].disk)
    {
      ghost var d := Disk(fs, journal, server);
      RollbackKeepsRoots(fs, journal.swaps, |journal.swaps|);
      r := RollbackSwaps();
      forall k | |old(moments)| <= k < |moments| ensures RecoveryVisits(d, moments[k].disk) {
        assert Written(moments[k].disk, server, d.journal, d.journal);
      }
    }

    /** Rollback copies and the staging area go; the journal is still there. */
    method DiscardLeftovers()
      requires durable == Some(journal)
      modifies this`fs, this`moments
      ensures fs == RemoveAll(RemoveAll(old(fs), Rollbacks(journal.swaps)), journal.staging)
      ensures Grown(old(moments))
      ensures forall i :: |old(moments)| <= i < |moments| ==>
                && moments[i].disk == Disk(moments[i].disk.fs, journal, server)
                && PartlyStripped(old(fs), moments[i].disk.fs, Rollbacks(journal.swaps) + journal.staging)
    {
      RemoveInTwo(fs, Rollbacks(journal.swaps), journal.staging);
      CleanUp(Rollbacks(journal.swaps) + journal.staging);
    }
  }

  lemma RaisedDisks(d: Disk)
    requires Movable(d.journal.swaps) && Recover(d.fs, d.journal).Stuck?
    ensures forall origin :: Alive(origin, d) ==>
              && Alive(origin, Raised(d)) && Movable(Raised(d).journal.swaps)
              && Recover(Raised(d).fs, Raised(d).journal).Stuck? && Raised(Raised(d)) == Raised(d)
  {
    forall origin | Alive(origin, d)
      ensures Alive(origin, Raised(d)) && Movable(Raised(d).journal.swaps)
      ensures Recover(Raised(d).fs, Raised(d).journal).Stuck? && Raised(Raised(d)) == Raised(d)
    {
      RaisedDiskIsStable(origin, d);
    }
  }

  lemma {:induction false} RemoveInTwo(fs: Tree, a: seq<Path>, b: seq<Path>)
    ensures RemoveAll(fs, a + b) == RemoveAll(RemoveAll(fs, a), b)
    decreases |a|
  {
    if |a| == 0 {
      assert a + b == b;
    } else {
      assert (a + b)[1..] == a[1..] + b;
      RemoveInTwo(Remove(fs, a[0]), a[1..], b);
    }
  }

  lemma PlanStaging(plan: Plan, m: Moment)
    requires Sound(plan) && ApplyMoment(plan, m) && HandlerRollsBack(m.memory)
    ensures m.memory.staging == plan.staging && m.disk.journal.phase != Complete
    ensures m.disk.journal.staging == m.memory.staging && m.disk.journal.backend == m.memory.backend
  {
  }

  /** The two moments around the write of `complete`. */
  lemma CompleteWritten(plan: Plan, fs: Tree, server: Served, was: Journal)
    requires Sound(plan) && AllSwitched(plan, fs, was) && was.phase != Complete
    requires if plan.backend == Server && plan.database
             then server == NewRows && was.commitStarted
             else server == OldRows && BeforeCommit(was)
    ensures AllSwitched(plan, fs, was.(phase := Complete))
    ensures forall m :: m in Writing(fs, server, was, was.(phase := Complete)) ==> ApplyMoment(plan, m)
  {
  }

  lemma CoverageGrows(m0: seq<Moment>, m1: seq<Moment>, m2: seq<Moment>, plan: Plan)
    requires Sound(plan)
    requires |m0| <= |m1| && m1[..|m0|] == m0 && |m1| <= |m2| && m2[..|m1|] == m1
    requires forall i :: |m0| <= i < |m1| ==> ApplyMoment(plan, m1[i])
    requires forall i :: |m1| <= i < |m2| ==> ApplyMoment(plan, m2[i])
    ensures m2[..|m0|] == m0
    ensures forall i :: |m0| <= i < |m2| ==> ApplyMoment(plan, m2[i])
  {
    assert m2[..|m0|] == m2[..|m1|][..|m0|];
    forall i | |m0| <= i < |m2| ensures ApplyMoment(plan, m2[i]) {
      if i < |m1| { assert m2[i] == m2[..|m1|][i] == m1[i]; }
    }
  }

  lemma StrippedLeftovers(plan: Plan, fs: Tree)
    requires Sound(plan) && PartlyStripped(Done(plan).fs, fs, Rollbacks(Done(plan).swaps))
    ensures Agree(fs, Done(plan).fs, Leftovers(plan))
  {
    var paths := Rollbacks(Done(plan).swaps);
    forall q | Outside(q, Leftovers(plan)) ensures At(fs, q) == At(Done(plan).fs, q) {
      forall i | 0 <= i < |paths| ensures !(paths[i] <= q) {
        assert paths[i] in Leftovers(plan);
      }
    }
  }

  lemma RemoveOneMore(fs: Tree, paths: seq<Path>, n: nat)
    requires n < |paths|
    ensures Remove(RemoveAll(fs, paths[..n]), paths[n]) == RemoveAll(fs, paths[..n + 1])
    ensures var was := RemoveAll(fs, paths[..n]);
            !Exists(was, paths[n]) ==> RemoveAll(fs, paths[..n + 1]) == was
  {
    var was := RemoveAll(fs, paths[..n]);
    var now := RemoveAll(fs, paths[..n + 1]);
    forall q ensures At(Remove(was, paths[n]), q) == At(now, q) {
      if i :| 0 <= i < n && paths[..n][i] <= q {
        assert paths[..n + 1][i] <= q;
      } else if paths[n] <= q {
        assert paths[..n + 1][n] <= q;
      } else {
        var first := paths[..n + 1];
        forall i | 0 <= i < |first| ensures !(first[i] <= q) {
          if i < n { assert !(paths[..n][i] <= q); }
        }
      }
    }
    TreesEqual(Remove(was, paths[n]), now);
    if !Exists(was, paths[n]) {
      forall q ensures At(Remove(was, paths[n]), q) == At(was, q) {
        if paths[n] <= q { NothingBelow(was, paths[n], q); }
      }
      TreesEqual(Remove(was, paths[n]), was);
    }
  }

  lemma StripOneMore(before: Tree, was: Tree, now: Tree, paths: seq<Path>, n: nat)
    requires n < |paths| && was == RemoveAll(before, paths[..n]) && PartlyRemoved(was, now, paths[n])
    ensures PartlyStripped(before, now, paths)
  {
    forall q | At(now, q) != At(before, q)
      ensures At(now, q) == None && exists i :: 0 <= i < |paths| && paths[i] <= q
    {
      if i :| 0 <= i < n && paths[..n][i] <= q {
        assert paths[i] <= q;
      } else {
        assert At(was, q) == At(before, q);
        assert paths[n] <= q;
      }
    }
  }

  lemma SkipRoot(plan: Plan, k: nat, fs: Tree, swaps: seq<Entry>)
    requires Sound(plan) && k < |plan.roots|
    requires Rested(plan.origin, plan.roots, StagingSet(plan), k, fs, swaps)
    requires !Listed(fs, plan.roots[k])
    ensures Rested(plan.origin, plan.roots, StagingSet(plan), k + 1, fs, swaps)
  {
    assert plan.roots[..k + 1][..k] == plan.roots[..k];
  }

  /** Writing the new entry, before anything is moved. */
  lemma Announced(plan: Plan, k: nat, before: Progress, was: Journal, base: Journal)
    requires Sound(plan) && k < |plan.roots| && WellPlaced(plan.roots[k])
    requires Rested(plan.origin, plan.roots, StagingSet(plan), k, before.fs, before.swaps)
    requires Listed(before.fs, plan.roots[k])
    requires OfPlan(plan, was) && BeforeCommit(was) && was.swaps == before.swaps
    requires BeforeCommit(base) && OfPlan(plan, base)
    requires base.swaps == before.swaps + [Begin(before.fs, plan.roots[k])]
    ensures forall m :: m in Writing(before.fs, OldRows, was, base) ==> ApplyMoment(plan, m)
  {
    assert Last(base.swaps) == Begin(before.fs, plan.roots[k]);
    assert Interrupted(plan.origin, plan.roots, StagingSet(plan), k, before.fs, base.swaps);
    assert Holds(plan, k, before.fs, base) && Holds(plan, k, before.fs, was);
  }

  lemma SwitchCovered(plan: Plan, k: nat, before: Progress, base: Journal, m1: seq<Moment>, m2: seq<Moment>)
    requires Sound(plan) && k < |plan.roots| && WellPlaced(plan.roots[k])
    requires Rested(plan.origin, plan.roots, StagingSet(plan), k, before.fs, before.swaps)
    requires Listed(before.fs, plan.roots[k])
    requires BeforeCommit(base) && OfPlan(plan, base)
    requires base.swaps == before.swaps + [Begin(before.fs, plan.roots[k])]
    requires m2 == m1 + SwitchMoments(before.fs, base, |before.swaps|, OldRows)
    ensures forall i :: |m1| <= i < |m2| ==> ApplyMoment(plan, m2[i])
    ensures Rested(plan.origin, plan.roots, StagingSet(plan), k + 1, Switched(before.fs, plan.roots[k]),
                   WithEntry(base, |before.swaps|, Recorded(base.swaps[|before.swaps|])).swaps)
  {
    var n := |before.swaps|;
    forall i | |m1| <= i < |m2| ensures ApplyMoment(plan, m2[i]) {
      var j := i - |m1|;
      SwitchMomentsAreVisits(before.fs, base, n, OldRows, j);
      VisitIsMoment(plan, k, before, base, m2[i]);
    }
    RootRecorded(plan, k, before, base.swaps);
  }

  lemma RootRecorded(plan: Plan, k: nat, before: Progress, swaps: seq<Entry>)
    requires Sound(plan) && k < |plan.roots| && WellPlaced(plan.roots[k])
    requires Rested(plan.origin, plan.roots, StagingSet(plan), k, before.fs, before.swaps)
    requires Listed(before.fs, plan.roots[k]) && swaps == before.swaps + [Begin(before.fs, plan.roots[k])]
    ensures Rested(plan.origin, plan.roots, StagingSet(plan), k + 1, Switched(before.fs, plan.roots[k]),
                   swaps[|before.swaps| := Recorded(swaps[|before.swaps|])])
  {
    var n := |before.swaps|;
    assert plan.roots[..k + 1][..k] == plan.roots[..k];
    assert swaps[n := Recorded(swaps[n])] == before.swaps + [Recorded(swaps[n])];
  }

  lemma VisitIsMoment(plan: Plan, k: nat, before: Progress, base: Journal, m: Moment)
    requires Sound(plan) && k < |plan.roots|
    requires Rested(plan.origin, plan.roots, StagingSet(plan), k, before.fs, before.swaps)
    requires Listed(before.fs, plan.roots[k])
    requires BeforeCommit(base) && OfPlan(plan, base)
    requires base.swaps == before.swaps + [Begin(before.fs, plan.roots[k])]
    requires SwitchVisits(before.fs, base, |before.swaps|, OldRows, m)
    ensures ApplyMoment(plan, m)
  {
    var n := |before.swaps|;
    var ed := m.disk.journal.swaps[n];
    var em := m.memory.swaps[n];
    assert base.swaps[n := ed] == before.swaps + [ed];
    assert base.swaps[n := em] == before.swaps + [em];
    assert Last(m.disk.journal.swaps) == ed && Last(m.memory.swaps) == em;
    assert Interrupted(plan.origin, plan.roots, StagingSet(plan), k, m.disk.fs, m.disk.journal.swaps);
    assert Interrupted(plan.origin, plan.roots, StagingSet(plan), k, m.disk.fs, m.memory.swaps);
    assert Holds(plan, k, m.disk.fs, m.disk.journal) && Holds(plan, k, m.disk.fs, m.memory);
  }

  function WithEntry(j: Journal, i: nat, e: Entry): Journal
    requires i < |j.swaps|
  {
    j.(swaps := j.swaps[i := e])
  }

  /** Around one journal write: `was` on disk and `now` in memory, then `now` on disk. */
  ghost function Writing(fs: Tree, server: Served, was: Journal, now: Journal): seq<Moment> {
    [Moment(Disk(fs, was, server), now), Moment(Disk(fs, now, server), now)]
  }

  /** The moments of one switch, in order. */
  ghost function SwitchMoments(before: Tree, base: Journal, i: nat, server: Served): seq<Moment>
    requires i < |base.swaps| && WellPlaced(base.swaps[i].root)
  {
    var e := base.swaps[i];
    var moved := e.(oldMoved := e.hadOriginal);
    (if e.hadOriginal then
       Writing(OldMoved(before, e.root), server, WithEntry(base, i, e), WithEntry(base, i, moved))
     else [])
    + (if e.root.staged.Some? then
         Writing(Switched(before, e.root), server, WithEntry(base, i, moved), WithEntry(base, i, Recorded(e)))
       else [])
  }

  lemma SwitchMomentsAreVisits(before: Tree, base: Journal, i: nat, server: Served, k: nat)
    requires i < |base.swaps| && WellPlaced(base.swaps[i].root) && base.swaps[i] == Begin(before, base.swaps[i].root)
    requires k < |SwitchMoments(before, base, i, server)|
    ensures SwitchVisits(before, base, i, server, SwitchMoments(before, base, i, server)[k])
  {
    var e := base.swaps[i];
    var moved := e.(oldMoved := e.hadOriginal);
    var moments := SwitchMoments(before, base, i, server);
    if e.hadOriginal && k < 2 {
      IsVisit(before, base, i, server, OldMoved(before, e.root), e, moved);
      IsVisit(before, base, i, server, OldMoved(before, e.root), moved, moved);
    } else {
      IsVisit(before, base, i, server, Switched(before, e.root), moved, Recorded(e));
      IsVisit(before, base, i, server, Switched(before, e.root), Recorded(e), Recorded(e));
    }
  }

  /** A moment inside one switch: both journals are `base` with some version of entry `i`. */
  ghost predicate SwitchVisits(before: Tree, base: Journal, i: nat, server: Served, m: Moment) {
    && i < |base.swaps| && i < |m.disk.journal.swaps| && i < |m.memory.swaps|
    && WellPlaced(base.swaps[i].root)
    && m.disk.server == server
    && m.disk.journal == base.(swaps := base.swaps[i := m.disk.journal.swaps[i]])
    && m.memory == base.(swaps := base.swaps[i := m.memory.swaps[i]])
    && Midway(before, base.swaps[i].root, m.disk.fs, m.disk.journal.swaps[i])
    && Midway(before, base.swaps[i].root, m.disk.fs, m.memory.swaps[i])
    && Lags(m.disk.journal.swaps, m.memory.swaps)
  }

  lemma IsVisit(before: Tree, base: Journal, i: nat, server: Served, fs: Tree, durable: Entry, memory: Entry)
    requires i < |base.swaps| && WellPlaced(base.swaps[i].root)
    requires Midway(before, base.swaps[i].root, fs, durable) && Midway(before, base.swaps[i].root, fs, memory)
    requires (durable.newMoved ==> memory.newMoved) && (durable.oldMoved ==> memory.oldMoved)
    ensures SwitchVisits(before, base, i, server,
              Moment(Disk(fs, base.(swaps := base.swaps[i := durable]), server), base.(swaps := base.swaps[i := memory])))
  {
  }

  datatype UndoState = UndoState(fs: Tree, durable: seq<Entry>, memory: seq<Entry>, missing: bool)

  /** One entry of the rollback, with the durable journal it leaves. */
  ghost function EntryUndo(fs: Tree, durable: seq<Entry>, swaps: seq<Entry>, i: nat): UndoState
    requires i < |swaps| && Movable(swaps)
  {
    var e := swaps[i];
    var cleared := ClearedTree(fs, e);
    var e1 := ClearedEntry(fs, e);
    var durable1 := AfterClearing(fs, durable, swaps, i);
    if e1.oldMoved || Exists(cleared, e.root.rollback) then
      if !Exists(cleared, e.root.rollback) then
        UndoState(cleared, durable1, swaps[i := e1], true)
      else
        var swaps2 := swaps[i := e1.(oldMoved := false)];
        UndoState(Rename(cleared, e.root.rollback, e.root.target), swaps2, swaps2, false)
    else
      UndoState(cleared, durable1, swaps[i := e1], false)
  }

  ghost predicate ClearVisits(fs: Tree, durable: seq<Entry>, swaps: seq<Entry>, i: nat,
                              fs': Tree, durable': seq<Entry>)
    requires i < |swaps|
  {
    || (Clears(fs, swaps[i]) && PartlyRemoved(fs, fs', swaps[i].root.target) && durable' == durable)
    || (fs' == ClearedTree(fs, swaps[i]) && durable' == AfterClearing(fs, durable, swaps, i))
  }

  ghost predicate EntryVisits(fs: Tree, durable: seq<Entry>, swaps: seq<Entry>, i: nat,
                              fs': Tree, durable': seq<Entry>)
    requires i < |swaps| && Movable(swaps)
  {
    var e := swaps[i];
    var durable1 := AfterClearing(fs, durable, swaps, i);
    var s := EntryUndo(fs, durable, swaps, i);
    || ClearVisits(fs, durable, swaps, i, fs', durable')
    || (fs' == s.fs && Exists(ClearedTree(fs, e), e.root.rollback) && (durable' == durable1 || durable' == s.durable))
  }

  /** A disk written during the rollback holds the old durable journal or a version of the one in memory. */
  ghost predicate Written(d: Disk, server: Served, durable: Journal, memory: Journal) {
    d.server == server && (d.journal == durable || d.journal == memory.(swaps := d.journal.swaps))
  }

  /** Where a rollback began. */
  datatype Start = Start(fs: Tree, durable: Journal, memory: Journal, server: Served, moments: seq<Moment>)

  /** What can still be visited from here is what the rollback as a whole can visit. */
  ghost predicate Continues(start: Start, fs: Tree, durable: seq<Entry>, swaps: seq<Entry>, n: nat)
    requires n <= |swaps| && Movable(swaps) && Movable(start.memory.swaps)
  {
    forall t, d :: RollbackVisits(fs, durable, swaps, n, t, d) ==>
                   RollbackVisits(start.fs, start.durable.swaps, start.memory.swaps, |start.memory.swaps|, t, d)
  }

  lemma UndoContinues(start: Start, fs: Tree, durable: seq<Entry>, swaps: seq<Entry>, n: nat)
    requires 0 < n <= |swaps| && Movable(swaps) && Movable(start.memory.swaps)
    requires Continues(start, fs, durable, swaps, n)
    ensures var s := EntryUndo(fs, durable, swaps, n - 1);
            && Movable(s.memory) && |s.memory| == |swaps|
            && (s.missing ==> Rollback(fs, swaps, n) == MissingRollback(s.fs, s.memory, n - 1))
            && (!s.missing ==>
                  && Rollback(fs, swaps, n) == Rollback(s.fs, s.memory, n - 1)
                  && Continues(start, s.fs, s.durable, s.memory, n - 1))
  {
    UndoStep(fs, durable, swaps, n);
  }

  /** The moments that undoing entry `n - 1` adds to those before it. */
  lemma NewlyVisited(start: Start, fs: Tree, durable: Journal, memory: Journal, n: nat, m1: seq<Moment>, m2: seq<Moment>)
    requires 0 < n <= |memory.swaps| && Movable(memory.swaps) && Movable(start.memory.swaps)
    requires Continues(start, fs, durable.swaps, memory.swaps, n)
    requires memory == start.memory.(swaps := memory.swaps) && (durable == start.durable || durable == memory)
    requires |start.moments| <= |m1| <= |m2| && m1[..|start.moments|] == start.moments && m2[..|m1|] == m1
    requires forall k :: |start.moments| <= k < |m1| ==> VisitedFrom(start, m1[k].disk)
    requires forall k :: |m1| <= k < |m2| ==>
               && EntryVisits(fs, durable.swaps, memory.swaps, n - 1, m2[k].disk.fs, m2[k].disk.journal.swaps)
               && Written(m2[k].disk, start.server, durable, memory)
    ensures m2[..|start.moments|] == start.moments
    ensures forall k :: |start.moments| <= k < |m2| ==> VisitedFrom(start, m2[k].disk)
  {
    forall k | |m1| <= k < |m2| ensures VisitedFrom(start, m2[k].disk) {
      VisitStep(fs, durable.swaps, memory.swaps, n, m2[k].disk.fs, m2[k].disk.journal.swaps);
    }
    VisitedOnwards(start, m1, m2);
  }

  lemma VisitedOnwards(start: Start, m1: seq<Moment>, m2: seq<Moment>)
    requires Movable(start.memory.swaps)
    requires |start.moments| <= |m1| <= |m2| && m1[..|start.moments|] == start.moments && m2[..|m1|] == m1
    requires forall k :: |start.moments| <= k < |m1| ==> VisitedFrom(start, m1[k].disk)
    requires forall k :: |m1| <= k < |m2| ==> VisitedFrom(start, m2[k].disk)
    ensures m2[..|start.moments|] == start.moments
    ensures forall k :: |start.moments| <= k < |m2| ==> VisitedFrom(start, m2[k].disk)
  {
    assert m2[..|start.moments|] == m2[..|m1|][..|start.moments|];
    forall k | |start.moments| <= k < |m2| ensures VisitedFrom(start, m2[k].disk) {
      if k < |m1| { assert m2[k] == m2[..|m1|][k] == m1[k]; }
    }
  }

  /** A disk on which the rollback can be interrupted. */
  ghost predicate VisitedFrom(start: Start, d: Disk)
    requires Movable(start.memory.swaps)
  {
    && RollbackVisits(start.fs, start.durable.swaps, start.memory.swaps, |start.memory.swaps|, d.fs, d.journal.swaps)
    && Written(d, start.server, start.durable, start.memory)
  }

  lemma UndoStep(fs: Tree, durable: seq<Entry>, swaps: seq<Entry>, n: nat)
    requires 0 < n <= |swaps| && Movable(swaps)
    ensures var s := EntryUndo(fs, durable, swaps, n - 1);
            && Movable(s.memory) && |s.memory| == |swaps|
            && (s.missing ==> Rollback(fs, swaps, n) == MissingRollback(s.fs, s.memory, n - 1))
            && (!s.missing ==>
                  && Rollback(fs, swaps, n) == Rollback(s.fs, s.memory, n - 1)
                  && forall t, d :: RollbackVisits(s.fs, s.durable, s.memory, n - 1, t, d) ==>
                                    RollbackVisits(fs, durable, swaps, n, t, d))
  {
  }

  lemma VisitStep(fs: Tree, durable: seq<Entry>, swaps: seq<Entry>, n: nat, fs': Tree, durable': seq<Entry>)
    requires 0 < n <= |swaps| && Movable(swaps)
    requires EntryVisits(fs, durable, swaps, n - 1, fs', durable')
    ensures RollbackVisits(fs, durable, swaps, n, fs', durable')
  {
    var s := EntryUndo(fs, durable, swaps, n - 1);
    if fs' == s.fs && durable' == s.durable && !s.missing {
      assert RollbackVisits(s.fs, s.durable, s.memory, n - 1, fs', durable');
    }
  }
}
