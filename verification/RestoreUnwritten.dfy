/**
 Journal writes that did not happen, on the small instance of `RestoreNesting`: what the failure handler
 leaves alone, what a later recovery makes of it, and a recovery that dies before its own write.
 */
module RestoreUnwritten {
  import opened Common
  import opened FileTree
  import opened RestoreProtocol
  import opened RestoreRerun
  import opened RestoreLife
  import opened RestoreNesting

  /** The data directory alone is restored, and the database if `database` is set. */
  function OneRootPlan(n: Names, backend: Backend, database: bool): Plan {
    Plan(n.Before(), [n.DataRoot()], [[n.stage], [n.stageDb]], backend, database)
  }

  /** The journal of the switched data root. */
  function SwitchedJournal(n: Names, phase: Phase, backend: Backend, announced: bool): Journal {
    Journal(phase, backend, [Recorded(Entry(n.DataRoot(), true, false, false))], announced, announced, [[n.stage], [n.stageDb]])
  }

  lemma SamePlaces(n: Names, backend: Backend, database: bool)
    ensures StagingSet(OneRootPlan(n, backend, database)) == StagingSet(n.ThePlan())
  {
  }

  /** A plan of one root that is ready to be switched. */
  lemma ReadyIsSound(plan: Plan, a: Root)
    requires plan.roots == [a] && Placed(a, StagingSet(plan)) && WellPlaced(a)
    requires a.staged.Some? && SwitchReady(plan.origin, a) && Exists(plan.origin, a.target)
    ensures Sound(plan) && Movable(Done(plan).swaps)
    ensures Done(plan) == Progress(Switched(plan.origin, a), [Recorded(Entry(a, true, false, false))])
  {
    OneRoot(plan.origin, a, StagingSet(plan));
    DoneMovable(plan);
  }

  lemma OneRootSound(n: Names, backend: Backend, database: bool)
    requires n.Different()
    ensures var plan := OneRootPlan(n, backend, database);
            && Sound(plan) && WellPlaced(n.DataRoot())
            && Done(plan) == Progress(Switched(n.Before(), n.DataRoot()), [Recorded(Entry(n.DataRoot(), true, false, false))])
            && Movable(Done(plan).swaps)
  {
    SmallPlanFits(n, n.DataRoot(), n.DatabaseRoot());
    SamePlaces(n, backend, database);
    ReadyIsSound(OneRootPlan(n, backend, database), n.DataRoot());
  }

  lemma OldTreeKeeps(plan: Plan, q: Path)
    requires Outside(q, StagingSet(plan))
    ensures At(OldTree(plan), q) == At(plan.origin, q)
  {
    forall i | 0 <= i < |plan.staging| ensures !(plan.staging[i] <= q) {
      assert plan.staging[i] in StagingSet(plan);
    }
  }

  /** The old tree has the old database file; the switched one has not. */
  lemma OldAndNewDiffer(n: Names, backend: Backend, database: bool)
    requires n.Different()
    ensures var plan := OneRootPlan(n, backend, database);
            && Sound(plan)
            && At(OldTree(plan), [n.data, n.db]) == Some(Regular("old"))
            && At(Done(plan).fs, [n.data, n.db]) == None
  {
    OneRootSound(n, backend, database);
    SmallSteps(n);
    NothingInside(n, [n.data, n.db]);
    SmallPlanPlaced(n);
    SamePlaces(n, backend, database);
    var plan := OneRootPlan(n, backend, database);
    ClearBelow(n.DatabaseRoot().target, [n.data, n.db], StagingSet(plan));
    OldTreeKeeps(plan, [n.data, n.db]);
    OldDatabase(n);
  }

  /**
   `database-commit-started` could not be written: memory announces the commit, the durable journal
   does not, and the transaction is rolled back. The handler leaves the files alone, and recovery gives
   the old database file back instead of refusing.
   */
  lemma CommitMarkNotWritten(n: Names) returns (plan: Plan, m: Moment)
    requires n.Different()
    ensures Sound(plan) && ApplyMoment(plan, m) && m.disk.server == OldRows
    ensures !HandlerRollsBack(m.memory) && Refuses(m.memory) && Movable(m.disk.journal.swaps)
    ensures Recover(m.disk.fs, m.disk.journal).RestoredOld?
    ensures At(Recover(m.disk.fs, m.disk.journal).fs, [n.data, n.db]) == Some(Regular("old"))
  {
    plan := OneRootPlan(n, Server, true);
    OneRootSound(n, Server, true);
    OldAndNewDiffer(n, Server, true);
    var j := SwitchedJournal(n, ApplyingFiles, Server, false);
    m := Moment(Disk(Done(plan).fs, j, OldRows), j.(commitStarted := true, phase := CommitStarted));
    UnwrittenCommitMark(plan, j);
  }

  /** `complete` could not be written on SQLite: recovery gives the old file back and finishes nothing. */
  lemma CompleteNotWritten(n: Names) returns (plan: Plan, m: Moment)
    requires n.Different()
    ensures Sound(plan) && ApplyMoment(plan, m)
    ensures m.memory.phase == Complete && !HandlerRollsBack(m.memory) && Movable(m.disk.journal.swaps)
    ensures Recover(m.disk.fs, m.disk.journal).RestoredOld?
    ensures At(Recover(m.disk.fs, m.disk.journal).fs, [n.data, n.db]) == Some(Regular("old"))
  {
    plan := OneRootPlan(n, Sqlite, false);
    OneRootSound(n, Sqlite, false);
    OldAndNewDiffer(n, Sqlite, false);
    var j := SwitchedJournal(n, ApplyingFiles, Sqlite, false);
    m := Moment(Disk(Done(plan).fs, j, OldRows), j.(phase := Complete));
    UnwrittenComplete(plan, j, OldRows);
  }

  /** The same after a server commit: recovery refuses, and the new files stay. */
  lemma CompleteNotWrittenOnServer(n: Names) returns (plan: Plan, m: Moment)
    requires n.Different()
    ensures Sound(plan) && ApplyMoment(plan, m) && m.disk.server == NewRows
    ensures m.memory.phase == Complete && !HandlerRollsBack(m.memory) && Movable(m.disk.journal.swaps)
    ensures Recover(m.disk.fs, m.disk.journal) == Refused
    ensures At(m.disk.fs, [n.data, n.db]) == None
  {
    plan := OneRootPlan(n, Server, true);
    OneRootSound(n, Server, true);
    OldAndNewDiffer(n, Server, true);
    var j := SwitchedJournal(n, Committed, Server, true);
    m := Moment(Disk(Done(plan).fs, j, NewRows), j.(phase := Complete));
    UnwrittenComplete(plan, j, NewRows);
  }

  lemma OneRootSeparate(n: Names, backend: Backend, database: bool)
    requires n.Different()
    ensures WellPlaced(n.DataRoot()) && Separate(OneRootPlan(n, backend, database).roots)
  {
    OneRootSound(n, backend, database);
  }

  lemma SwitchedHasCopy(fs: Tree, root: Root)
    requires WellPlaced(root) && Exists(fs, root.target)
    ensures Exists(Switched(fs, root), root.rollback)
  {
    RenameEnds(fs, root.target, root.rollback);
    if root.staged.Some? {
      RenameKeeps(OldMoved(fs, root), root.staged.value, root.target, root.rollback);
      SameExists(Switched(fs, root), OldMoved(fs, root), root.rollback);
    }
  }

  /**
   The process dies before `complete` is durable, and dies again in the recovery, between the rename that
   brings the original back and the write that says so. The next recovery raises, with the original in place.
   */
  lemma ResetNotWritten(n: Names) returns (plan: Plan, m: Moment, d: Disk)
    requires n.Different()
    ensures Sound(plan) && ApplyMoment(plan, m) && Movable(m.disk.journal.swaps) && RecoveryVisits(m.disk, d)
    ensures Movable(d.journal.swaps) && Recover(d.fs, d.journal).Stuck?
    ensures At(Recover(d.fs, d.journal).fs, [n.data, n.db]) == Some(Regular("old"))
  {
    plan := OneRootPlan(n, Sqlite, false);
    OneRootSound(n, Sqlite, false);
    OneRootSeparate(n, Sqlite, false);
    SmallSteps(n);
    var j := SwitchedJournal(n, ApplyingFiles, Sqlite, false);
    m := Moment(Disk(Done(plan).fs, j, OldRows), j.(phase := Complete));
    UnwrittenComplete(plan, j, OldRows);
    ApplyMomentIsAlive(plan, m);
    SwitchedHasCopy(n.Before(), n.DataRoot());
    d := CrashAfterMovingBack(m.disk);
    RecoveryKeepsAlive(plan.origin, m.disk, d);
    RecoveryAtTheEnd(plan.origin, d);
    OldDatabase(n);
    assert RootsOf(d.journal.swaps)[0] == RootsOf(j.swaps)[0] == n.DataRoot();
    assert n.DataRoot().target <= [n.data, n.db];
  }
}
