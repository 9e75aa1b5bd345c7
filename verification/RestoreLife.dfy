/**
 A restore from its first journal write to the end: every moment at which it can crash or
 fail, the failure handler, the server-database commit, and chains of interrupted recoveries.
 */
module RestoreLife {
  import opened Common
  import opened FileTree
  import opened RestoreProtocol
  import opened RestoreRerun

  /** Which rows the live server database holds. */
  datatype Served = OldRows | NewRows

  /** Everything that survives a crash. */
  datatype Disk = Disk(fs: Tree, journal: Journal, server: Served)

  /** What survives, and the journal that the running process holds in memory. */
  datatype Moment = Moment(disk: Disk, memory: Journal)

  datatype Plan = Plan(
    origin: Tree,
    roots: seq<Root>,
    staging: seq<Path>,
    backend: Backend,
    database: bool)

  ghost function StagingSet(plan: Plan): set<Path> {
    SetOf(plan.staging)
  }

  ghost predicate Sound(plan: Plan) {
    && Ready(plan.origin, plan.roots, StagingSet(plan))
    && (forall i :: 0 <= i < |plan.roots| ==> !Exists(plan.origin, plan.roots[i].rollback))
  }

  ghost function Done(plan: Plan): Progress
    requires Sound(plan)
  {
    ApplyAll(plan.origin, plan.roots, StagingSet(plan))
  }

  /** The file system as it was before staging. */
  ghost function OldTree(plan: Plan): Tree {
    RemoveAll(plan.origin, plan.staging)
  }

  /** The file system with every root switched and every leftover removed. */
  ghost function NewTree(plan: Plan): Tree
    requires Sound(plan)
  {
    RemoveAll(RemoveAll(Done(plan).fs, Rollbacks(Done(plan).swaps)), plan.staging)
  }

  ghost function Leftovers(plan: Plan): set<Path>
    requires Sound(plan)
  {
    SetOf(plan.staging) + SetOf(Rollbacks(Done(plan).swaps))
  }

  // ---------------------------------------------------------------- moments of an apply

  ghost predicate OfPlan(plan: Plan, j: Journal) {
    j.staging == plan.staging && j.backend == plan.backend
  }

  /** A server commit has not even been announced. */
  predicate BeforeCommit(j: Journal) {
    j.phase != Complete && (j.backend == Server ==> !j.commitStarted && !j.committed)
  }

  ghost predicate Holds(plan: Plan, k: nat, fs: Tree, j: Journal)
    requires Sound(plan)
  {
    && OfPlan(plan, j) && k <= |plan.roots|
    && SwitchingState(plan.origin, plan.roots, StagingSet(plan), k, fs, j.swaps)
  }

  ghost predicate Switching(plan: Plan, m: Moment)
    requires Sound(plan)
  {
    && m.disk.server == OldRows
    && BeforeCommit(m.disk.journal) && BeforeCommit(m.memory)
    && Lags(m.disk.journal.swaps, m.memory.swaps)
    && (exists k :: Holds(plan, k, m.disk.fs, m.disk.journal))
    && (exists k :: Holds(plan, k, m.disk.fs, m.memory))
  }

  ghost predicate AllSwitched(plan: Plan, fs: Tree, j: Journal)
    requires Sound(plan)
  {
    OfPlan(plan, j) && fs == Done(plan).fs && j.swaps == Done(plan).swaps
  }

  ghost predicate Committing(plan: Plan, m: Moment)
    requires Sound(plan)
  {
    && plan.backend == Server && plan.database
    && AllSwitched(plan, m.disk.fs, m.disk.journal) && AllSwitched(plan, m.disk.fs, m.memory)
    && m.disk.journal.phase != Complete && m.memory.phase != Complete
    && m.memory.commitStarted
    && (m.disk.journal.committed ==> m.disk.journal.commitStarted)
    && (m.disk.server == NewRows ==> m.disk.journal.commitStarted)
  }

  /** The durable journal says `complete`, or the process is about to make it say so. */
  ghost predicate Completing(plan: Plan, m: Moment)
    requires Sound(plan)
  {
    var committed := plan.backend == Server && plan.database;
    var d := m.disk;
    && m.memory.phase == Complete
    && OfPlan(plan, m.memory) && m.memory.swaps == Done(plan).swaps
    && OfPlan(plan, d.journal) && d.journal.swaps == Done(plan).swaps
    && d.server == (if committed then NewRows else OldRows)
    && (d.journal.phase == Complete ==> Agree(d.fs, Done(plan).fs, Leftovers(plan)))
    && (d.journal.phase != Complete ==>
          && d.fs == Done(plan).fs
          && (if committed then d.journal.commitStarted else BeforeCommit(d.journal)))
  }

  ghost predicate ApplyMoment(plan: Plan, m: Moment)
    requires Sound(plan)
  {
    Switching(plan, m) || Committing(plan, m) || Completing(plan, m)
  }

  // ---------------------------------------------------------------- crash, then recover once

  lemma JournalMovable(plan: Plan, m: Moment)
    requires Sound(plan) && ApplyMoment(plan, m)
    ensures Movable(m.disk.journal.swaps)
    ensures !Completing(plan, m) ==> Movable(m.memory.swaps)
  {
    var staging := StagingSet(plan);
    assert plan.roots[..|plan.roots|] == plan.roots;
    SwitchingMovable(plan.origin, plan.roots, staging, |plan.roots|, Done(plan).fs, Done(plan).swaps);
    if Switching(plan, m) {
      var k :| Holds(plan, k, m.disk.fs, m.disk.journal);
      SwitchingMovable(plan.origin, plan.roots, staging, k, m.disk.fs, m.disk.journal.swaps);
      var k' :| Holds(plan, k', m.disk.fs, m.memory);
      SwitchingMovable(plan.origin, plan.roots, staging, k', m.disk.fs, m.memory.swaps);
    }
  }

  /**
   Whenever an apply is cut short, one uninterrupted recovery ends in exactly one of three
   ways: the old file system under the old rows, the new file system under the new rows, or a
   refusal that leaves everything alone because a server commit may have happened.
   */
  lemma CrashThenRecover(plan: Plan, m: Moment)
    requires Sound(plan) && ApplyMoment(plan, m) && Movable(m.disk.journal.swaps)
    ensures var d := m.disk;
            match Recover(d.fs, d.journal)
            case RestoredOld(fs) => fs == OldTree(plan) && d.server == OldRows && d.journal.phase != Complete
            case FinishedNew(fs) =>
              && fs == NewTree(plan) && d.journal.phase == Complete
              && (plan.backend == Server && plan.database ==> d.server == NewRows)
            case Refused => plan.backend == Server && d.journal.commitStarted && d.journal.phase != Complete
            case Stuck(_, _) => false
  {
    var d := m.disk;
    assert plan.roots[..|plan.roots|] == plan.roots;
    if d.journal.phase == Complete {
      CleanupFinishes(plan, d.fs, d.journal);
    } else if !Refuses(d.journal) {
      var k: nat;
      if Switching(plan, m) {
        k :| Holds(plan, k, d.fs, d.journal);
      } else {
        k := |plan.roots|;
      }
      RecoveryRestoresTheOldTree(plan.origin, plan.roots, k, d.fs, d.journal);
    }
  }

  /** However far the cleanup after `complete` got, finishing it gives the same tree. */
  lemma CleanupFinishes(plan: Plan, fs: Tree, j: Journal)
    requires Sound(plan) && j.phase == Complete && OfPlan(plan, j)
    requires j.swaps == Done(plan).swaps && Movable(j.swaps)
    requires Agree(fs, Done(plan).fs, Leftovers(plan))
    ensures Recover(fs, j) == FinishedNew(NewTree(plan))
  {
    var rollbacks := Rollbacks(j.swaps);
    var final := RemoveAll(RemoveAll(fs, rollbacks), plan.staging);
    forall q ensures At(final, q) == At(NewTree(plan), q) {
      if (!exists i :: 0 <= i < |plan.staging| && plan.staging[i] <= q)
         && (!exists i :: 0 <= i < |rollbacks| && rollbacks[i] <= q)
      {
        assert Outside(q, Leftovers(plan));
      }
    }
    TreesEqual(final, NewTree(plan));
  }

  // ---------------------------------------------------------------- failure, then the handler

  /** The branch of the failure handler that puts the old files back. */
  predicate HandlerRollsBack(memory: Journal) {
    memory.phase != Complete && !(memory.backend == Server && memory.commitStarted)
  }

  /**
   A failure at any moment: the handler either gives back the old file system, and then the
   server still has the old rows, or leaves the files alone.
   */
  lemma FailThenHandle(plan: Plan, m: Moment)
    requires Sound(plan) && ApplyMoment(plan, m)
    requires HandlerRollsBack(m.memory) && Movable(m.memory.swaps)
    ensures var u := Rollback(m.disk.fs, m.memory.swaps, |m.memory.swaps|);
            && u.Undone?
            && RemoveAll(u.fs, plan.staging) == OldTree(plan)
            && m.disk.server == OldRows
  {
    assert Switching(plan, m);
    var k :| Holds(plan, k, m.disk.fs, m.memory);
    RollbackFromAnySwitchingState(plan.origin, plan.roots, StagingSet(plan), k, m.disk.fs, m.memory.swaps);
    var u := Rollback(m.disk.fs, m.memory.swaps, |m.memory.swaps|);
    CleanTree(plan.origin, u.fs, [], plan.staging);
  }

  /**
   What a later recovery does is decided by the durable journal alone: it refuses exactly if a server
   commit was durably announced and `complete` was not, finishes exactly if `complete` was, and gives
   back the old files, under the old rows, in every other case.
   */
  lemma RecoveryDecides(plan: Plan, m: Moment)
    requires Sound(plan) && ApplyMoment(plan, m) && Movable(m.disk.journal.swaps)
    ensures var j := m.disk.journal;
            Recover(m.disk.fs, j) ==
              if j.phase == Complete then FinishedNew(NewTree(plan))
              else if plan.backend == Server && j.commitStarted then Refused
              else RestoredOld(OldTree(plan))
    ensures Recover(m.disk.fs, m.disk.journal).RestoredOld? ==> m.disk.server == OldRows
  {
    CrashThenRecover(plan, m);
  }

  /**
   The write of `database-commit-started` fails: only the journal in memory announces the commit. The
   handler does not touch the files, and recovery, which cannot know, gives back the old ones.
   */
  lemma UnwrittenCommitMark(plan: Plan, j: Journal)
    requires Sound(plan) && plan.backend == Server && plan.database
    requires AllSwitched(plan, Done(plan).fs, j) && BeforeCommit(j) && Movable(j.swaps)
    ensures var m := Moment(Disk(Done(plan).fs, j, OldRows), j.(commitStarted := true, phase := CommitStarted));
            && ApplyMoment(plan, m) && !HandlerRollsBack(m.memory) && Refuses(m.memory)
            && Recover(m.disk.fs, m.disk.journal) == RestoredOld(OldTree(plan))
  {
    var m := Moment(Disk(Done(plan).fs, j, OldRows), j.(commitStarted := true, phase := CommitStarted));
    assert Committing(plan, m);
    RecoveryDecides(plan, m);
  }

  /**
   The write of `complete` fails: the restore is finished in memory only. Recovery does not finish the
   cleanup; it refuses after a server commit, and otherwise gives back the old files.
   */
  lemma UnwrittenComplete(plan: Plan, j: Journal, server: Served)
    requires Sound(plan) && AllSwitched(plan, Done(plan).fs, j) && j.phase != Complete && Movable(j.swaps)
    requires if plan.backend == Server && plan.database
             then server == NewRows && j.commitStarted
             else server == OldRows && BeforeCommit(j)
    ensures var m := Moment(Disk(Done(plan).fs, j, server), j.(phase := Complete));
            && ApplyMoment(plan, m) && !HandlerRollsBack(m.memory)
            && Recover(m.disk.fs, m.disk.journal)
               == if plan.backend == Server && plan.database then Refused else RestoredOld(OldTree(plan))
  {
    var m := Moment(Disk(Done(plan).fs, j, server), j.(phase := Complete));
    assert Completing(plan, m);
    RecoveryDecides(plan, m);
  }

  /** A disk on which the failure handler, entered at `m`, can be interrupted. */
  ghost predicate HandlerVisits(m: Moment, d: Disk) {
    && d.server == m.disk.server && d.journal.phase != Complete && HandlerRollsBack(m.memory)
    && d.journal.staging == m.memory.staging && d.journal.backend == m.memory.backend
    && Movable(m.memory.swaps)
    && var u := Rollback(m.disk.fs, m.memory.swaps, |m.memory.swaps|);
       || RollbackVisits(m.disk.fs, m.disk.journal.swaps, m.memory.swaps, |m.memory.swaps|, d.fs, d.journal.swaps)
       || (u.Undone? && d.fs == u.fs && d.journal.swaps == u.swaps)
  }

  /**
   What is on disk after the rollback of the handler has failed midway, at whichever of its effects,
   and the journal in memory has been written with `recovery-required`.
   */
  ghost predicate HandlerGivesUp(m: Moment, d: Disk) {
    && d.server == m.disk.server && HandlerRollsBack(m.memory) && Movable(m.memory.swaps)
    && d.journal == m.memory.(swaps := d.journal.swaps, phase := RecoveryRequired)
    && RollbackVisits(m.disk.fs, m.memory.swaps, m.memory.swaps, |m.memory.swaps|, d.fs, d.journal.swaps)
  }

  // ---------------------------------------------------------------- what switching leaves where

  lemma SwitchElsewhere(before: Tree, root: Root, p: Path)
    requires WellPlaced(root) && ApartFrom(p, root)
    ensures SameBelow(OldMoved(before, root), before, p)
    ensures SameBelow(Switched(before, root), before, p)
  {
    RenameKeeps(before, root.target, root.rollback, p);
    if root.staged.Some? {
      RenameKeeps(OldMoved(before, root), root.staged.value, root.target, p);
    }
  }

  lemma OldMovedCopies(before: Tree, root: Root)
    requires WellPlaced(root) && Exists(before, root.target)
    ensures Copied(OldMoved(before, root), root.rollback, before, root.target)
    ensures !Exists(OldMoved(before, root), root.target)
  {
    RenameEnds(before, root.target, root.rollback);
    forall x ensures At(OldMoved(before, root), root.rollback + x) == At(before, root.target + x) {
      assert (root.rollback + x)[|root.rollback|..] == x;
    }
  }

  /** Each intermediate state of one switch keeps the original of that root. */
  lemma MidwayOk(origin: Tree, before: Tree, root: Root, fs: Tree, e: Entry)
    requires WellPlaced(root) && Listed(before, root) && SwitchReady(before, root)
    requires SameBelow(before, origin, root.target)
    requires Midway(before, root, fs, e) || (fs == Switched(before, root) && e == Recorded(Begin(before, root)))
    ensures EntryOk(origin, fs, e)
  {
    SameExists(before, origin, root.target);
    var moved := OldMoved(before, root);
    if e.hadOriginal {
      OldMovedCopies(before, root);
      CopiedFrom(origin, before, moved, root);
      if root.staged.Some? {
        RenameKeeps(moved, root.staged.value, root.target, root.rollback);
        RenameEnds(moved, root.staged.value, root.target);
        CopiedAlong(origin, moved, Switched(before, root), root);
      }
    } else {
      RenameElsewhere(before, root.staged.value, root.target, root.rollback);
      RenameEnds(before, root.staged.value, root.target);
    }
  }

  lemma CopiedFrom(origin: Tree, before: Tree, moved: Tree, root: Root)
    requires Copied(moved, root.rollback, before, root.target)
    requires SameBelow(before, origin, root.target)
    ensures Copied(moved, root.rollback, origin, root.target)
  {
    forall x ensures At(moved, root.rollback + x) == At(origin, root.target + x) {
      assert At(before, root.target + x) == At(origin, root.target + x);
    }
  }

  lemma CopiedAlong(origin: Tree, a: Tree, b: Tree, root: Root)
    requires Copied(a, root.rollback, origin, root.target)
    requires SameBelow(b, a, root.rollback)
    ensures Copied(b, root.rollback, origin, root.target)
  {
    forall x ensures At(b, root.rollback + x) == At(origin, root.target + x) {
      assert At(b, root.rollback + x) == At(a, root.rollback + x);
    }
  }

  lemma {:induction false} UntouchedPlace(origin: Tree, roots: seq<Root>, staging: set<Path>, p: Path)
    requires forall i :: 0 <= i < |roots| ==> Placed(roots[i], staging) && ApartFrom(p, roots[i])
    ensures SameBelow(ApplyAll(origin, roots, staging).fs, origin, p)
    decreases |roots|
  {
    if |roots| > 0 {
      var n := |roots| - 1;
      UntouchedPlace(origin, roots[..n], staging, p);
      PlacedApart(roots[n], staging);
      var before := ApplyAll(origin, roots[..n], staging);
      if Listed(before.fs, roots[n]) {
        SwitchElsewhere(before.fs, roots[n], p);
      }
    }
  }

  lemma SeparatePrefix(roots: seq<Root>, n: nat)
    requires Separate(roots) && n <= |roots|
    ensures Separate(roots[..n])
  {
    forall i, j | 0 <= i < n && 0 <= j < n && i != j ensures RootsApart(roots[..n][i], roots[..n][j]) {
      assert RootsApart(roots[i], roots[j]);
    }
  }

  /** One more entry, for a root apart from all the others, switched as far as `Midway` or all the way. */
  lemma OneMoreEntry(origin: Tree, before: Progress, roots: seq<Root>, n: nat, fs: Tree, e: Entry)
    requires n < |roots| && Separate(roots)
    requires forall i :: 0 <= i < |before.swaps| ==> before.swaps[i].root in roots[..n]
    requires JournalOk(origin, before.fs, before.swaps) && Separate(RootsOf(before.swaps))
    requires e.root == roots[n] && EntryOk(origin, fs, e)
    requires forall p :: ApartFrom(p, roots[n]) ==> SameBelow(fs, before.fs, p)
    ensures JournalOk(origin, fs, before.swaps + [e]) && Separate(RootsOf(before.swaps + [e]))
  {
    var all := before.swaps + [e];
    var m := |before.swaps|;
    forall i | 0 <= i < m ensures RootsApart(all[i].root, e.root) && RootsApart(e.root, all[i].root) {
      assert before.swaps[i].root in roots[..n];
      var k :| 0 <= k < n && roots[k] == before.swaps[i].root;
      assert RootsApart(roots[k], roots[n]) && RootsApart(roots[n], roots[k]);
    }
    forall i | 0 <= i < |all| ensures EntryOk(origin, fs, all[i]) {
      if i < m { EntryFrame(origin, before.fs, fs, all[i]); }
    }
    assert RootsOf(all)[..m] == RootsOf(before.swaps);
    forall i, j | 0 <= i < |all| && 0 <= j < |all| && i != j
      ensures RootsApart(RootsOf(all)[i], RootsOf(all)[j])
    {
      if i < m && j < m {
        assert RootsApart(RootsOf(before.swaps)[i], RootsOf(before.swaps)[j]);
      }
    }
    forall i | 0 <= i < |all| ensures WellPlaced(RootsOf(all)[i]) {
      if i < m { assert WellPlaced(RootsOf(before.swaps)[i]); }
    }
  }

  lemma SwitchExtends(origin: Tree, before: Progress, roots: seq<Root>, n: nat, fs: Tree, e: Entry)
    requires n < |roots| && Separate(roots)
    requires forall i :: 0 <= i < |before.swaps| ==> before.swaps[i].root in roots[..n]
    requires JournalOk(origin, before.fs, before.swaps) && Separate(RootsOf(before.swaps))
    requires SameBelow(before.fs, origin, roots[n].target)
    requires Listed(before.fs, roots[n]) && SwitchReady(before.fs, roots[n])
    requires || Midway(before.fs, roots[n], fs, e)
             || (fs == Switched(before.fs, roots[n]) && e == Recorded(Begin(before.fs, roots[n])))
    ensures JournalOk(origin, fs, before.swaps + [e]) && Separate(RootsOf(before.swaps + [e]))
  {
    MidwayOk(origin, before.fs, roots[n], fs, e);
    forall p | ApartFrom(p, roots[n]) ensures SameBelow(fs, before.fs, p) {
      SwitchElsewhere(before.fs, roots[n], p);
    }
    OneMoreEntry(origin, before, roots, n, fs, e);
  }

  lemma {:induction false} SwitchedRootsOk(origin: Tree, roots: seq<Root>, staging: set<Path>)
    requires Ready(origin, roots, staging) && Separate(roots)
    ensures var p := ApplyAll(origin, roots, staging);
            JournalOk(origin, p.fs, p.swaps) && Separate(RootsOf(p.swaps))
    decreases |roots|
  {
    if |roots| > 0 {
      var n := |roots| - 1;
      SeparatePrefix(roots, n);
      WithoutLast(origin, roots, staging);
      SwitchedRootsOk(origin, roots[..n], staging);
      if Listed(ApplyAll(origin, roots[..n], staging).fs, roots[n]) {
        SwitchedRootOk(origin, roots, staging);
      }
    }
  }

  lemma SwitchedRootOk(origin: Tree, roots: seq<Root>, staging: set<Path>)
    requires Ready(origin, roots, staging) && Separate(roots) && |roots| > 0
    requires var before := ApplyAll(origin, roots[..|roots| - 1], staging);
             && Listed(before.fs, roots[|roots| - 1])
             && JournalOk(origin, before.fs, before.swaps) && Separate(RootsOf(before.swaps))
    ensures var p := ApplyAll(origin, roots, staging);
            JournalOk(origin, p.fs, p.swaps) && Separate(RootsOf(p.swaps))
  {
    var n := |roots| - 1;
    var before := ApplyAll(origin, roots[..n], staging);
    RootStillOriginal(origin, roots, staging, n);
    SwitchExtends(origin, before, roots, n, Switched(before.fs, roots[n]), Recorded(Begin(before.fs, roots[n])));
  }

  lemma RootStillOriginal(origin: Tree, roots: seq<Root>, staging: set<Path>, n: nat)
    requires n < |roots| && Separate(roots)
    requires forall i :: 0 <= i < |roots| ==> Placed(roots[i], staging)
    ensures SameBelow(ApplyAll(origin, roots[..n], staging).fs, origin, roots[n].target)
  {
    forall i | 0 <= i < n ensures ApartFrom(roots[n].target, roots[..n][i]) {
      assert RootsApart(roots[n], roots[i]);
    }
    UntouchedPlace(origin, roots[..n], staging, roots[n].target);
  }

  /** Every moment of the switching phase keeps every original, if no place lies inside another. */
  lemma SwitchingStateOk(origin: Tree, roots: seq<Root>, staging: set<Path>, k: nat, fs: Tree, swaps: seq<Entry>)
    requires Ready(origin, roots, staging) && Separate(roots) && k <= |roots|
    requires SwitchingState(origin, roots, staging, k, fs, swaps)
    ensures JournalOk(origin, fs, swaps) && Separate(RootsOf(swaps))
  {
    if Rested(origin, roots, staging, k, fs, swaps) {
      PrefixOk(origin, roots, staging, k);
    } else {
      InterruptedOk(origin, roots, staging, k, fs, swaps);
    }
  }

  lemma InterruptedOk(origin: Tree, roots: seq<Root>, staging: set<Path>, k: nat, fs: Tree, swaps: seq<Entry>)
    requires Ready(origin, roots, staging) && Separate(roots) && k <= |roots|
    requires Interrupted(origin, roots, staging, k, fs, swaps)
    ensures JournalOk(origin, fs, swaps) && Separate(RootsOf(swaps))
  {
    PrefixOk(origin, roots, staging, k);
    ReadyAt(origin, roots, staging, k);
    RootStillOriginal(origin, roots, staging, k);
    var before := ApplyAll(origin, roots[..k], staging);
    SwitchExtends(origin, before, roots, k, fs, Last(swaps));
  }

  lemma PrefixOk(origin: Tree, roots: seq<Root>, staging: set<Path>, k: nat)
    requires Ready(origin, roots, staging) && Separate(roots) && k <= |roots|
    ensures var p := ApplyAll(origin, roots[..k], staging);
            JournalOk(origin, p.fs, p.swaps) && Separate(RootsOf(p.swaps))
  {
    ReadyPrefix(origin, roots, staging, k);
    SeparatePrefix(roots, k);
    SwitchedRootsOk(origin, roots[..k], staging);
  }

  // ---------------------------------------------------------------- chains of interrupted recoveries

  /** Removal has reached part of what lies below `paths`, and nothing else has changed. */
  ghost predicate PartlyStripped(fs: Tree, fs': Tree, paths: seq<Path>) {
    forall q :: At(fs', q) == At(fs, q) || (At(fs', q) == None && exists i :: 0 <= i < |paths| && paths[i] <= q)
  }

  /** `d'` can be on disk, with its journal, when a `recover_restore` started on `d` is interrupted. */
  ghost predicate RecoveryVisits(d: Disk, d': Disk)
    requires Movable(d.journal.swaps)
  {
    var j := d.journal;
    && d'.server == d.server
    && d'.journal == j.(swaps := d'.journal.swaps)
    && if Refuses(j) then d' == d
       else if j.phase == Complete then
         d'.journal == j && PartlyStripped(d.fs, d'.fs, Rollbacks(j.swaps) + j.staging)
       else
         || RollbackVisits(d.fs, j.swaps, j.swaps, |j.swaps|, d'.fs, d'.journal.swaps)
         || (var u := Rollback(d.fs, j.swaps, |j.swaps|);
             && u.Undone? && d'.journal.swaps == u.swaps
             && PartlyStripped(u.fs, d'.fs, Rollbacks(u.swaps) + j.staging))
  }

  ghost predicate ClearOfStaging(j: Journal) {
    forall i :: 0 <= i < |j.swaps| ==>
      && ClearOf(j.swaps[i].root.target, SetOf(j.staging))
      && ClearOf(j.swaps[i].root.rollback, SetOf(j.staging))
  }

  /** What every disk in a chain satisfies while `complete` is not durable. */
  ghost predicate Alive(origin: Tree, d: Disk) {
    && d.journal.phase != Complete
    && Separate(RootsOf(d.journal.swaps))
    && JournalOk(origin, d.fs, d.journal.swaps)
    && ClearOfStaging(d.journal)
  }

  ghost predicate Chain(origin: Tree, disks: seq<Disk>) {
    forall i :: 0 <= i < |disks| - 1 ==> Movable(disks[i].journal.swaps) && RecoveryVisits(disks[i], disks[i + 1])
  }

  lemma {:induction false} VisitsKeepRoots(
    fs: Tree, durable: seq<Entry>, swaps: seq<Entry>, n: nat, fs': Tree, durable': seq<Entry>)
    requires n <= |swaps| && Movable(swaps) && RootsOf(durable) == RootsOf(swaps)
    requires RollbackVisits(fs, durable, swaps, n, fs', durable')
    ensures RootsOf(durable') == RootsOf(swaps)
    decreases n
  {
    if n > 0 {
      var e := swaps[n - 1];
      var e1 := ClearedEntry(fs, e);
      var swaps1 := swaps[n - 1 := e1];
      assert RootsOf(swaps1) == RootsOf(swaps);
      var cleared := ClearedTree(fs, e);
      var durable1 := AfterClearing(fs, durable, swaps, n - 1);
      if durable' != durable && durable' != durable1 {
        if e1.oldMoved || Exists(cleared, e.root.rollback) {
          var swaps2 := swaps[n - 1 := e1.(oldMoved := false)];
          assert RootsOf(swaps2) == RootsOf(swaps);
          VisitsKeepRoots(Rename(cleared, e.root.rollback, e.root.target), swaps2, swaps2, n - 1, fs', durable');
        } else {
          VisitsKeepRoots(cleared, durable1, swaps1, n - 1, fs', durable');
        }
      }
    }
  }

  lemma RootsKeepClear(j: Journal, swaps': seq<Entry>)
    requires ClearOfStaging(j) && RootsOf(swaps') == RootsOf(j.swaps)
    ensures ClearOfStaging(j.(swaps := swaps'))
  {
    forall i | 0 <= i < |swaps'| ensures swaps'[i].root == j.swaps[i].root {
      assert RootsOf(swaps')[i] == RootsOf(j.swaps)[i];
    }
  }

  lemma StrippedPoint(origin: Tree, fs: Tree, j: Journal, fs': Tree, q: Path)
    requires SettledFrom(origin, fs, j.swaps, 0)
    requires PartlyStripped(fs, fs', Rollbacks(j.swaps) + j.staging)
    requires Outside(q, SetOf(j.staging))
    ensures At(fs', q) == At(fs, q)
  {
    var paths := Rollbacks(j.swaps) + j.staging;
    forall i | |j.swaps| <= i < |paths| ensures !(paths[i] <= q) {
      assert paths[i] == j.staging[i - |j.swaps|];
      assert paths[i] in SetOf(j.staging);
    }
    forall i | 0 <= i < |j.swaps| && paths[i] <= q ensures At(fs, q) == None {
      assert paths[i] == j.swaps[i].root.rollback;
      NothingBelow(fs, paths[i], q);
    }
  }

  /** Removing leftovers does not touch what a finished rollback has settled. */
  lemma StrippingKeepsSettled(origin: Tree, fs: Tree, j: Journal, fs': Tree)
    requires SettledFrom(origin, fs, j.swaps, 0) && ClearOfStaging(j)
    requires PartlyStripped(fs, fs', Rollbacks(j.swaps) + j.staging)
    ensures SettledFrom(origin, fs', j.swaps, 0)
  {
    forall m, q | 0 <= m < |j.swaps| &&
                  (j.swaps[m].root.target <= q || j.swaps[m].root.rollback <= q)
      ensures At(fs', q) == At(fs, q)
    {
      var root := j.swaps[m].root;
      ClearBelow(if root.target <= q then root.target else root.rollback, q, SetOf(j.staging));
      StrippedPoint(origin, fs, j, fs', q);
    }
    forall m | 0 <= m < |j.swaps| ensures Settled(origin, fs', j.swaps[m]) {
      SettledFrame(origin, fs, fs', j.swaps[m]);
    }
  }

  lemma SettledIsOk(origin: Tree, fs: Tree, swaps: seq<Entry>)
    requires SettledFrom(origin, fs, swaps, 0)
    ensures JournalOk(origin, fs, swaps)
  {
    forall i | 0 <= i < |swaps| ensures EntryOk(origin, fs, swaps[i]) {
      assert Settled(origin, fs, swaps[i]);
      SameExists(fs, origin, swaps[i].root.target);
    }
  }

  lemma RecoveryKeepsAlive(origin: Tree, d: Disk, d': Disk)
    requires Alive(origin, d) && Movable(d.journal.swaps) && RecoveryVisits(d, d')
    ensures Alive(origin, d')
  {
    var j := d.journal;
    if !Refuses(j) {
      assert Consistent(origin, d.fs, j.swaps, j.swaps);
      if RollbackVisits(d.fs, j.swaps, j.swaps, |j.swaps|, d'.fs, d'.journal.swaps) {
        RollbackKeepsOriginals(origin, d.fs, j.swaps, j.swaps, |j.swaps|, d'.fs, d'.journal.swaps);
        VisitsKeepRoots(d.fs, j.swaps, j.swaps, |j.swaps|, d'.fs, d'.journal.swaps);
      } else {
        RollbackOutcome(origin, d.fs, j.swaps, |j.swaps|);
        var u := Rollback(d.fs, j.swaps, |j.swaps|);
        RootsKeepClear(j, u.swaps);
        StrippingKeepsSettled(origin, u.fs, j.(swaps := u.swaps), d'.fs);
        SettledIsOk(origin, d'.fs, u.swaps);
      }
      RootsKeepClear(j, d'.journal.swaps);
    }
  }

  /**
   Any number of crashes, in the apply and then in one recovery after another: as long as
   `complete` is not durable, every original is whole at its target or at its rollback place.
   */
  lemma {:induction false} RepeatedCrashesKeepOriginals(origin: Tree, disks: seq<Disk>, n: nat)
    requires |disks| > 0 && Alive(origin, disks[0]) && Chain(origin, disks) && n < |disks|
    ensures Alive(origin, disks[n])
    ensures forall i :: 0 <= i < |disks[n].journal.swaps| && disks[n].journal.swaps[i].hadOriginal ==>
              var e := disks[n].journal.swaps[i];
              AtTarget(origin, disks[n].fs, e) <==> !AtRollback(origin, disks[n].fs, e)
    decreases n
  {
    if n > 0 {
      RepeatedCrashesKeepOriginals(origin, disks, n - 1);
      assert RecoveryVisits(disks[n - 1], disks[n - 1 + 1]);
      RecoveryKeepsAlive(origin, disks[n - 1], disks[n]);
    }
    forall i | 0 <= i < |disks[n].journal.swaps| && disks[n].journal.swaps[i].hadOriginal
      ensures var e := disks[n].journal.swaps[i];
              AtTarget(origin, disks[n].fs, e) <==> !AtRollback(origin, disks[n].fs, e)
    {
      assert WellPlaced(RootsOf(disks[n].journal.swaps)[i]);
      ExactlyOnePlace(origin, disks[n].fs, disks[n].journal.swaps[i]);
    }
  }

  /**
   One uninterrupted recovery at the end of any chain: it settles every root, or it raises for
   a missing rollback path, and then that target already holds its original and every later
   recovery raises at the same entry without changing anything. It raises exactly if some entry is
   recorded as moved away while nothing is at its rollback place.
   */
  lemma RecoveryAtTheEnd(origin: Tree, d: Disk)
    requires Alive(origin, d) && Movable(d.journal.swaps)
    ensures var j := d.journal;
            match Recover(d.fs, j)
            case Refused => Refuses(j)
            case FinishedNew(_) => false
            case RestoredOld(fs) =>
              forall i :: 0 <= i < |j.swaps| ==>
                SameBelow(fs, origin, j.swaps[i].root.target) && !Exists(fs, j.swaps[i].root.rollback)
            case Stuck(fs, i) =>
              var u := Rollback(d.fs, j.swaps, |j.swaps|);
              && i < |j.swaps| && SameBelow(fs, origin, j.swaps[i].root.target)
              && Movable(u.swaps) && Recover(fs, j.(swaps := u.swaps)) == Stuck(fs, i)
    ensures !Refuses(d.journal) ==>
              (Recover(d.fs, d.journal).Stuck? <==>
               exists i :: 0 <= i < |d.journal.swaps| && Missing(d.fs, d.journal.swaps[i]))
  {
    var j := d.journal;
    MissingIff(d.fs, j.swaps, |j.swaps|);
    if !Refuses(j) {
      var u := Rollback(d.fs, j.swaps, |j.swaps|);
      RollbackOutcome(origin, d.fs, j.swaps, |j.swaps|);
      RootsKeepClear(j, u.swaps);
      forall i | 0 <= i < |j.swaps| ensures u.swaps[i].root == j.swaps[i].root {
        assert RootsOf(u.swaps)[i] == RootsOf(j.swaps)[i];
      }
      match u
      case Undone(fs, swaps) =>
        var final := RemoveAll(RemoveAll(fs, Rollbacks(swaps)), j.staging);
        StrippedAll(fs, Rollbacks(swaps), j.staging);
        StrippingKeepsSettled(origin, fs, j.(swaps := swaps), final);
        forall i | 0 <= i < |j.swaps|
          ensures SameBelow(final, origin, j.swaps[i].root.target) && !Exists(final, j.swaps[i].root.rollback)
        {
          assert Settled(origin, final, swaps[i]);
        }
      case MissingRollback(fs, swaps, i) =>
        StuckRunIsStable(origin, fs, swaps, i, |swaps|);
    }
  }

  /** What is on disk after a recovery that raised: the rollback stopped there, and nothing else was written. */
  ghost function Raised(d: Disk): Disk
    requires Movable(d.journal.swaps)
  {
    var u := Rollback(d.fs, d.journal.swaps, |d.journal.swaps|);
    Disk(u.fs, d.journal.(swaps := u.swaps), d.server)
  }

  /**
   The disk after a recovery that raised keeps every original, and every later recovery raises at the
   same entry and leaves this disk as it is.
   */
  lemma RaisedDiskIsStable(origin: Tree, d: Disk)
    requires Alive(origin, d) && Movable(d.journal.swaps) && Recover(d.fs, d.journal).Stuck?
    ensures Alive(origin, Raised(d)) && Movable(Raised(d).journal.swaps)
    ensures Recover(Raised(d).fs, Raised(d).journal) == Recover(d.fs, d.journal) && Raised(Raised(d)) == Raised(d)
    ensures forall i :: 0 <= i < |Raised(d).journal.swaps| && Raised(d).journal.swaps[i].hadOriginal ==>
              (AtTarget(origin, Raised(d).fs, Raised(d).journal.swaps[i])
               <==> !AtRollback(origin, Raised(d).fs, Raised(d).journal.swaps[i]))
  {
    var j := d.journal;
    var u := Rollback(d.fs, j.swaps, |j.swaps|);
    RollbackOutcome(origin, d.fs, j.swaps, |j.swaps|);
    RootsKeepClear(j, u.swaps);
    forall i | 0 <= i < |j.swaps| ensures u.swaps[i].root == j.swaps[i].root {
      assert RootsOf(u.swaps)[i] == RootsOf(j.swaps)[i];
    }
    StuckRunIsStable(origin, u.fs, u.swaps, u.index, |u.swaps|);
    forall i | 0 <= i < |u.swaps| && u.swaps[i].hadOriginal
      ensures AtTarget(origin, u.fs, u.swaps[i]) <==> !AtRollback(origin, u.fs, u.swaps[i])
    {
      assert RootsOf(u.swaps)[i] == u.swaps[i].root;
      ExactlyOnePlace(origin, u.fs, u.swaps[i]);
    }
  }

  /**
   The raising end is reached: the process dies in a recovery, after the last original has been renamed
   back and before the journal says so.
   */
  lemma CrashAfterMovingBack(d: Disk) returns (d': Disk)
    requires Movable(d.journal.swaps) && Separate(RootsOf(d.journal.swaps))
    requires !Refuses(d.journal) && d.journal.phase != Complete && |d.journal.swaps| > 0
    requires Last(d.journal.swaps).oldMoved && Exists(d.fs, Last(d.journal.swaps).root.rollback)
    ensures RecoveryVisits(d, d') && Movable(d'.journal.swaps) && RootsOf(d'.journal.swaps) == RootsOf(d.journal.swaps)
    ensures Recover(d'.fs, d'.journal).Stuck? && Recover(d'.fs, d'.journal).index == |d.journal.swaps| - 1
  {
    var swaps, i := d.journal.swaps, |d.journal.swaps| - 1;
    var e := swaps[i];
    assert RootsOf(swaps)[i] == e.root;
    ClearingKeepsRollback(d.fs, e);
    var cleared := ClearedTree(d.fs, e);
    var back, swaps' := Rename(cleared, e.root.rollback, e.root.target), AfterClearing(d.fs, swaps, swaps, i);
    d' := d.(fs := back, journal := d.journal.(swaps := swaps'));
    RenameEnds(cleared, e.root.rollback, e.root.target);
    assert RootsOf(swaps') == RootsOf(swaps);
    MissingIff(back, swaps', |swaps'|);
  }

  lemma StrippedAll(fs: Tree, rollbacks: seq<Path>, staging: seq<Path>)
    ensures PartlyStripped(fs, RemoveAll(RemoveAll(fs, rollbacks), staging), rollbacks + staging)
  {
    var paths := rollbacks + staging;
    forall q | At(RemoveAll(RemoveAll(fs, rollbacks), staging), q) != At(fs, q)
      ensures At(RemoveAll(RemoveAll(fs, rollbacks), staging), q) == None
      ensures exists i :: 0 <= i < |paths| && paths[i] <= q
    {
      if i :| 0 <= i < |staging| && staging[i] <= q {
        assert paths[|rollbacks| + i] == staging[i];
      } else {
        var i :| 0 <= i < |rollbacks| && rollbacks[i] <= q;
        assert paths[i] == rollbacks[i];
      }
    }
  }

  /** A journal that fits the disk while roots are being switched. */
  lemma HoldsIsAlive(plan: Plan, k: nat, d: Disk)
    requires Sound(plan) && Separate(plan.roots) && Holds(plan, k, d.fs, d.journal) && d.journal.phase != Complete
    ensures Alive(plan.origin, d)
  {
    var staging := StagingSet(plan);
    var j := d.journal;
    SwitchingStateOk(plan.origin, plan.roots, staging, k, d.fs, j.swaps);
    SwitchingMovable(plan.origin, plan.roots, staging, k, d.fs, j.swaps);
    forall i | 0 <= i < |j.swaps|
      ensures ClearOf(j.swaps[i].root.target, staging) && ClearOf(j.swaps[i].root.rollback, staging)
    {
      var n :| 0 <= n < |plan.roots| && plan.roots[n] == j.swaps[i].root;
      assert Placed(plan.roots[n], staging);
    }
  }

  lemma DiskHolds(plan: Plan, m: Moment) returns (k: nat)
    requires Sound(plan) && ApplyMoment(plan, m) && m.disk.journal.phase != Complete
    ensures Holds(plan, k, m.disk.fs, m.disk.journal)
  {
    if Switching(plan, m) {
      k :| Holds(plan, k, m.disk.fs, m.disk.journal);
    } else {
      k := |plan.roots|;
      assert plan.roots[..k] == plan.roots;
    }
  }

  /** A crashed or failing apply whose `complete` is not durable starts such a chain. */
  lemma ApplyMomentIsAlive(plan: Plan, m: Moment)
    requires Sound(plan) && Separate(plan.roots) && ApplyMoment(plan, m)
    requires m.disk.journal.phase != Complete
    ensures Alive(plan.origin, m.disk)
  {
    var k := DiskHolds(plan, m);
    HoldsIsAlive(plan, k, m.disk);
  }

  /** Once new rows are served, no chain of recoveries changes a file before `complete` is durable. */
  lemma {:induction false} NewRowsFreezeTheFiles(plan: Plan, m: Moment, disks: seq<Disk>, n: nat)
    requires Sound(plan) && ApplyMoment(plan, m) && m.disk.server == NewRows
    requires m.disk.journal.phase != Complete
    requires |disks| > 0 && disks[0] == m.disk && Chain(plan.origin, disks) && n < |disks|
    ensures disks[n] == m.disk && Refuses(m.disk.journal) && !HandlerRollsBack(m.memory)
    decreases n
  {
    if n > 0 {
      NewRowsFreezeTheFiles(plan, m, disks, n - 1);
      assert RecoveryVisits(disks[n - 1], disks[n - 1 + 1]);
    }
  }

  // ---------------------------------------------------------------- what the new tree contains

  ghost predicate Touches(root: Root, q: Path) {
    root.target <= q || root.rollback <= q
  }

  lemma SwitchPoint(before: Tree, root: Root, staging: set<Path>, q: Path)
    requires Placed(root, staging) && WellPlaced(root) && Outside(q, staging) && !Touches(root, q)
    ensures At(Switched(before, root), q) == At(before, q)
  {
    if root.staged.Some? {
      var s :| s in staging && s <= root.staged.value;
      assert !(s <= q);
      assert !(root.staged.value <= q);
    }
  }

  lemma {:induction false} LaterSwitchesKeep(origin: Tree, roots: seq<Root>, staging: set<Path>, m: nat, q: Path)
    requires forall i :: 0 <= i < |roots| ==> Placed(roots[i], staging)
    requires m <= |roots| && Outside(q, staging)
    requires forall i :: m <= i < |roots| ==> !Touches(roots[i], q)
    ensures At(ApplyAll(origin, roots, staging).fs, q) == At(ApplyAll(origin, roots[..m], staging).fs, q)
    decreases |roots|
  {
    if m == |roots| {
      assert roots[..m] == roots;
    } else {
      var n := |roots| - 1;
      assert roots[..n][..m] == roots[..m];
      LaterSwitchesKeep(origin, roots[..n], staging, m, q);
      PlacedApart(roots[n], staging);
      SwitchPoint(ApplyAll(origin, roots[..n], staging).fs, roots[n], staging, q);
    }
  }

  ghost predicate StagedApart(roots: seq<Root>) {
    forall i, j :: 0 <= i < |roots| && 0 <= j < |roots| && i != j && roots[i].staged.Some? && roots[j].staged.Some? ==>
      Apart(roots[i].staged.value, roots[j].staged.value)
  }

  lemma StagedTreeWaits(origin: Tree, roots: seq<Root>, staging: set<Path>, m: nat)
    requires forall i :: 0 <= i < |roots| ==> Placed(roots[i], staging)
    requires m < |roots| && roots[m].staged.Some? && StagedApart(roots)
    ensures SameBelow(ApplyAll(origin, roots[..m], staging).fs, origin, roots[m].staged.value)
  {
    var staged := roots[m].staged.value;
    var s :| s in staging && s <= staged;
    forall i | 0 <= i < m ensures ApartFrom(staged, roots[..m][i]) {
      StagedApartFromRoot(roots[i], staging, s, staged);
      if roots[i].staged.Some? { assert Apart(staged, roots[i].staged.value); }
    }
    UntouchedPlace(origin, roots[..m], staging, staged);
  }

  lemma StagedApartFromRoot(root: Root, staging: set<Path>, s: Path, staged: Path)
    requires Placed(root, staging) && s in staging && s <= staged
    ensures Apart(staged, root.target) && Apart(staged, root.rollback)
  {
    assert Apart(root.target, s) && Apart(root.rollback, s);
    if root.target <= staged { Comparable(root.target, s, staged); }
    if root.rollback <= staged { Comparable(root.rollback, s, staged); }
  }

  /**
   In the finished tree, what is at a target is what was staged for it, except where a later
   root is switched inside that target.
   */
  lemma NewTreeHoldsWhatWasStaged(plan: Plan, m: nat, x: Path)
    requires Sound(plan) && m < |plan.roots| && plan.roots[m].staged.Some? && StagedApart(plan.roots)
    requires var q := plan.roots[m].target + x;
             && (forall i :: m < i < |plan.roots| ==> !Touches(plan.roots[i], q))
             && (forall i :: 0 <= i < |plan.roots| ==> !(plan.roots[i].rollback <= q))
    ensures At(NewTree(plan), plan.roots[m].target + x) == At(plan.origin, plan.roots[m].staged.value + x)
  {
    var root := plan.roots[m];
    var staging := StagingSet(plan);
    var q := root.target + x;
    ClearBelow(root.target, q, staging);
    LaterSwitchesKeep(plan.origin, plan.roots, staging, m + 1, q);
    var before := ApplyAll(plan.origin, plan.roots[..m], staging);
    assert plan.roots[..m + 1][..m] == plan.roots[..m];
    PlacedApart(root, staging);
    SwitchedTarget(before.fs, root, x);
    StagedTreeWaits(plan.origin, plan.roots, staging, m);
    assert root.staged.value <= root.staged.value + x;
    assert At(Done(plan).fs, q) == At(plan.origin, root.staged.value + x);
    KeptByCleanup(plan, q);
  }

  lemma SwitchedTarget(before: Tree, root: Root, x: Path)
    requires WellPlaced(root) && root.staged.Some?
    ensures At(Switched(before, root), root.target + x) == At(before, root.staged.value + x)
  {
    var moved := OldMoved(before, root);
    assert (root.target + x)[|root.target|..] == x;
    RenameElsewhereOrSame(before, root);
    assert root.staged.value <= root.staged.value + x;
    assert At(moved, root.staged.value + x) == At(before, root.staged.value + x);
  }

  lemma RenameElsewhereOrSame(before: Tree, root: Root)
    requires WellPlaced(root) && root.staged.Some?
    ensures SameBelow(OldMoved(before, root), before, root.staged.value)
  {
    RenameKeeps(before, root.target, root.rollback, root.staged.value);
  }

  lemma KeptByCleanup(plan: Plan, q: Path)
    requires Sound(plan) && Outside(q, StagingSet(plan))
    requires forall i :: 0 <= i < |plan.roots| ==> !(plan.roots[i].rollback <= q)
    ensures At(NewTree(plan), q) == At(Done(plan).fs, q)
  {
    var rollbacks := Rollbacks(Done(plan).swaps);
    forall i | 0 <= i < |rollbacks| ensures !(rollbacks[i] <= q) {
      assert Done(plan).swaps[i].root in plan.roots;
    }
    forall i | 0 <= i < |plan.staging| ensures !(plan.staging[i] <= q) {
      assert plan.staging[i] in StagingSet(plan);
    }
  }

  /** Outside the targets and the leftovers, the finished tree is the original one. */
  lemma NewTreeKeepsTheRest(plan: Plan, q: Path)
    requires Sound(plan) && Outside(q, StagingSet(plan))
    requires forall i :: 0 <= i < |plan.roots| ==> !Touches(plan.roots[i], q)
    ensures At(NewTree(plan), q) == At(plan.origin, q)
  {
    LaterSwitchesKeep(plan.origin, plan.roots, StagingSet(plan), 0, q);
    KeptByCleanup(plan, q);
  }
}
