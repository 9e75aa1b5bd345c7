/**
 Why repeated recovery is promised only for places that do not lie inside each other. A SQLite
 file inside the data root is journalled without an original when both are restored, because
 the data root has already been exchanged by then.
 */
module RestoreNesting {
  import opened Common
  import opened FileTree
  import opened RestoreProtocol
  import opened RestoreRerun
  import opened RestoreLife

  lemma RenameElsewhereStaysEmpty(fs: Tree, src: Path, dst: Path, p: Path)
    requires Apart(src, dst) && Apart(p, dst) && !Exists(fs, p)
    ensures !Exists(Rename(fs, src, dst), p)
  {
    var r := Rename(fs, src, dst);
    forall q | p <= q ensures q !in r {
      if dst <= q { Comparable(p, dst, q); }
      NothingBelow(fs, p, q);
      assert At(r, q) == None;
    }
  }

  ghost predicate Avoids(p: Path, roots: seq<Root>) {
    forall i :: 0 <= i < |roots| ==> Apart(p, roots[i].target) && Apart(p, roots[i].rollback)
  }

  /** The rollback touches nothing outside targets and rollback places; so it leaves staged trees alone. */
  lemma {:induction false} RollbackKeepsPlace(fs: Tree, swaps: seq<Entry>, n: nat, p: Path)
    requires n <= |swaps| && Movable(swaps) && Avoids(p, RootsOf(swaps))
    ensures SameBelow(Rollback(fs, swaps, n).fs, fs, p)
    decreases n
  {
    if n > 0 {
      var e := swaps[n - 1];
      var cleared := ClearedTree(fs, e);
      var e1 := ClearedEntry(fs, e);
      EntryKeepsPlace(fs, swaps, n - 1, p);
      if e1.oldMoved || Exists(cleared, e.root.rollback) {
        if Exists(cleared, e.root.rollback) {
          RollbackKeepsPlace(Rename(cleared, e.root.rollback, e.root.target), swaps[n - 1 := e1.(oldMoved := false)], n - 1, p);
        }
      } else {
        RollbackKeepsPlace(cleared, swaps[n - 1 := e1], n - 1, p);
      }
    }
  }

  lemma EntryKeepsPlace(fs: Tree, swaps: seq<Entry>, i: nat, p: Path)
    requires i < |swaps| && Movable(swaps) && Avoids(p, RootsOf(swaps))
    ensures var e := swaps[i];
            && SameBelow(ClearedTree(fs, e), fs, p)
            && SameBelow(Rename(ClearedTree(fs, e), e.root.rollback, e.root.target), fs, p)
            && Avoids(p, RootsOf(swaps[i := ClearedEntry(fs, e)]))
            && Avoids(p, RootsOf(swaps[i := ClearedEntry(fs, e).(oldMoved := false)]))
  {
    var e := swaps[i];
    assert RootsOf(swaps)[i] == e.root;
    RemoveKeeps(fs, e.root.target, p);
    RenameKeeps(ClearedTree(fs, e), e.root.rollback, e.root.target, p);
    assert RootsOf(swaps[i := ClearedEntry(fs, e)]) == RootsOf(swaps);
    assert RootsOf(swaps[i := ClearedEntry(fs, e).(oldMoved := false)]) == RootsOf(swaps);
  }

  lemma SwitchNeverFills(before: Tree, root: Root, p: Path)
    requires WellPlaced(root) && Apart(p, root.target) && Apart(p, root.rollback) && !Exists(before, p)
    ensures !Exists(Switched(before, root), p)
  {
    RenameElsewhereStaysEmpty(before, root.target, root.rollback, p);
    if root.staged.Some? {
      RenameElsewhereStaysEmpty(OldMoved(before, root), root.staged.value, root.target, p);
    }
  }

  /** Whatever a listed root had staged has been moved away. */
  lemma {:induction false} StagedIsGone(origin: Tree, roots: seq<Root>, staging: set<Path>, i: nat, p: Path)
    requires forall k :: 0 <= k < |roots| ==> Placed(roots[k], staging)
    requires exists s :: s in staging && s <= p
    requires var done := ApplyAll(origin, roots, staging); i < |done.swaps| && done.swaps[i].root.staged == Some(p)
    ensures !Exists(ApplyAll(origin, roots, staging).fs, p)
    decreases |roots|
  {
    var n := |roots| - 1;
    var root := roots[n];
    var before := ApplyAll(origin, roots[..n], staging);
    if !Listed(before.fs, root) {
      StagedIsGone(origin, roots[..n], staging, i, p);
    } else {
      PlacedApart(root, staging);
      if i < |before.swaps| {
        StagedIsGone(origin, roots[..n], staging, i, p);
        var s :| s in staging && s <= p;
        StagedApartFromRoot(root, staging, s, p);
        SwitchNeverFills(before.fs, root, p);
      } else {
        RenameEnds(OldMoved(before.fs, root), p, root.target);
      }
    }
  }

  lemma {:induction false} FinishedRollbackResetsFlags(fs: Tree, swaps: seq<Entry>, n: nat)
    requires n <= |swaps| && Movable(swaps)
    requires forall i :: n <= i < |swaps| ==> !swaps[i].newMoved && !swaps[i].oldMoved
    ensures var u := Rollback(fs, swaps, n);
            && RootsOf(u.swaps) == RootsOf(swaps)
            && (forall i :: 0 <= i < |swaps| ==> u.swaps[i].hadOriginal == swaps[i].hadOriginal)
            && (u.Undone? ==> forall i :: 0 <= i < |u.swaps| ==> !u.swaps[i].newMoved && !u.swaps[i].oldMoved)
    decreases n
  {
    if n > 0 {
      var e := swaps[n - 1];
      var cleared := ClearedTree(fs, e);
      var e1 := ClearedEntry(fs, e);
      assert RootsOf(swaps[n - 1 := e1]) == RootsOf(swaps);
      if e1.oldMoved || Exists(cleared, e.root.rollback) {
        if Exists(cleared, e.root.rollback) {
          var next := swaps[n - 1 := e1.(oldMoved := false)];
          assert RootsOf(next) == RootsOf(swaps);
          FinishedRollbackResetsFlags(Rename(cleared, e.root.rollback, e.root.target), next, n - 1);
        }
      } else {
        FinishedRollbackResetsFlags(cleared, swaps[n - 1 := e1], n - 1);
      }
    }
  }

  // ---------------------------------------------------------------- a second run

  /** A journal of the plan, durable or in memory, of any state of the switching phase. */
  ghost predicate JournalOf(plan: Plan, k: nat, fs: Tree, swaps: seq<Entry>)
    requires Sound(plan)
  {
    k <= |plan.roots| && SwitchingState(plan.origin, plan.roots, StagingSet(plan), k, fs, swaps) && Movable(swaps)
  }

  /** Such a journal after one recovery or the handler has rolled it back. */
  ghost function RolledBack(plan: Plan, k: nat, fs: Tree, swaps: seq<Entry>): Undo
    requires Sound(plan) && JournalOf(plan, k, fs, swaps)
  {
    Rollback(fs, swaps, |swaps|)
  }

  /**
   Root `i` was journalled as having no original although its target was there before the restore, and
   its staged tree has been moved.
   */
  ghost predicate Overlooked(plan: Plan, fs: Tree, e: Entry) {
    !e.hadOriginal && e.root.staged.Some? && !Exists(fs, e.root.staged.value) && Exists(plan.origin, e.root.target)
  }

  /**
   From every state of the switching phase the rollback is complete and right, whatever the nesting.
   Running recovery once more on its record keeps the tree exactly when no root was overlooked, and
   removes what lies at the target of a root that was.
   */
  lemma SecondRunAfterRollback(plan: Plan, k: nat, fs: Tree, swaps: seq<Entry>)
    requires Sound(plan) && JournalOf(plan, k, fs, swaps)
    ensures var u := RolledBack(plan, k, fs, swaps);
            && u.Undone? && Movable(u.swaps)
            && Agree(u.fs, plan.origin, StagingSet(plan))
            && (Rollback(u.fs, u.swaps, |u.swaps|).fs == u.fs
                <==> forall i :: 0 <= i < |swaps| ==> !Overlooked(plan, fs, swaps[i]))
            && (forall i :: 0 <= i < |swaps| && Overlooked(plan, fs, swaps[i]) ==>
                  && Exists(u.fs, swaps[i].root.target)
                  && !Exists(Rollback(u.fs, u.swaps, |u.swaps|).fs, swaps[i].root.target))
  {
    RollbackFromAnySwitchingState(plan.origin, plan.roots, StagingSet(plan), k, fs, swaps);
    FinishedRollbackResetsFlags(fs, swaps, |swaps|);
    var u := RolledBack(plan, k, fs, swaps);
    forall i | 0 <= i < |u.swaps|
      ensures u.swaps[i].root == swaps[i].root
      ensures !Exists(u.fs, u.swaps[i].root.rollback)
      ensures Exposed(u.fs, u.swaps[i]) <==> Overlooked(plan, fs, swaps[i])
    {
      assert RootsOf(u.swaps)[i] == RootsOf(swaps)[i];
      EntryAfterRollback(plan, k, fs, swaps, i);
    }
    assert Reset(u.fs, u.swaps);
    SecondRunHarmlessIff(u.fs, u.swaps);
    forall i | 0 <= i < |swaps| && Overlooked(plan, fs, swaps[i])
      ensures Exists(u.fs, swaps[i].root.target)
      ensures !Exists(Rollback(u.fs, u.swaps, |u.swaps|).fs, swaps[i].root.target)
    {
      assert u.swaps[i].root == swaps[i].root && Exposed(u.fs, u.swaps[i]);
      ExposedTargetIsLost(u.fs, u.swaps, |u.swaps|, i);
    }
  }

  /** The first rollback has the original of an overlooked root in place, and the second removes it. */
  lemma OverlookedIsLost(plan: Plan, k: nat, fs: Tree, swaps: seq<Entry>, i: nat)
    requires Sound(plan) && JournalOf(plan, k, fs, swaps) && i < |swaps| && Overlooked(plan, fs, swaps[i])
    ensures var u := RolledBack(plan, k, fs, swaps);
            && u.Undone? && Movable(u.swaps)
            && At(u.fs, swaps[i].root.target) == At(plan.origin, swaps[i].root.target)
            && At(Rollback(u.fs, u.swaps, |u.swaps|).fs, swaps[i].root.target) == None
  {
    SecondRunAfterRollback(plan, k, fs, swaps);
    var u, root := RolledBack(plan, k, fs, swaps), swaps[i].root;
    SwitchingMovable(plan.origin, plan.roots, StagingSet(plan), k, fs, swaps);
    var m :| 0 <= m < |plan.roots| && plan.roots[m] == root;
    assert Placed(plan.roots[m], StagingSet(plan));
    ClearBelow(root.target, root.target, StagingSet(plan));
    NothingBelow(Rollback(u.fs, u.swaps, |u.swaps|).fs, root.target, root.target);
  }

  lemma EntryAfterRollback(plan: Plan, k: nat, fs: Tree, swaps: seq<Entry>, i: nat)
    requires Sound(plan) && JournalOf(plan, k, fs, swaps) && i < |swaps|
    requires Agree(RolledBack(plan, k, fs, swaps).fs, plan.origin, StagingSet(plan))
    ensures var root := swaps[i].root;
            var back := RolledBack(plan, k, fs, swaps).fs;
            && !Exists(back, root.rollback)
            && (Exists(back, root.target) <==> Exists(plan.origin, root.target))
            && (root.staged.Some? ==> (Exists(back, root.staged.value) <==> Exists(fs, root.staged.value)))
  {
    var staging := StagingSet(plan);
    var root := swaps[i].root;
    var back := RolledBack(plan, k, fs, swaps).fs;
    SwitchingMovable(plan.origin, plan.roots, staging, k, fs, swaps);
    var m :| 0 <= m < |plan.roots| && plan.roots[m] == root;
    assert Placed(plan.roots[m], staging);
    AgreeExists(back, plan.origin, staging, root.target);
    AgreeExists(back, plan.origin, staging, root.rollback);
    if root.staged.Some? {
      var p := root.staged.value;
      var s :| s in staging && s <= p;
      forall x | 0 <= x < |swaps| ensures Apart(p, swaps[x].root.target) && Apart(p, swaps[x].root.rollback) {
        assert swaps[x].root in plan.roots;
        StagedApartFromRoot(swaps[x].root, staging, s, p);
      }
      RollbackKeepsPlace(fs, swaps, |swaps|, p);
      SameExists(back, fs, p);
    }
  }

  /** Where all journalled roots have been switched, every staged tree has been moved. */
  lemma OverlookedWhenSwitched(plan: Plan, k: nat, fs: Tree, swaps: seq<Entry>, i: nat)
    requires Sound(plan) && k <= |plan.roots| && i < |swaps|
    requires Rested(plan.origin, plan.roots, StagingSet(plan), k, fs, swaps)
    ensures Overlooked(plan, fs, swaps[i])
       <==> !swaps[i].hadOriginal && swaps[i].root.staged.Some? && Exists(plan.origin, swaps[i].root.target)
  {
    if swaps[i].root.staged.Some? {
      var p := swaps[i].root.staged.value;
      var m :| 0 <= m < |plan.roots[..k]| && plan.roots[..k][m] == swaps[i].root;
      assert Placed(plan.roots[m], StagingSet(plan));
      StagedIsGone(plan.origin, plan.roots[..k], StagingSet(plan), i, p);
    }
  }

  // ---------------------------------------------------------------- a case in point

  /** Names for a small instance: a data directory with a database file in it. */
  datatype Names = Names(data: string, db: string, oldData: string, oldDb: string, stage: string, stageDb: string) {
    predicate Different() {
      && data != oldData && data != stage && data != stageDb && oldData != stage && oldData != stageDb
      && stage != stageDb && db != oldDb
    }

    function DataRoot(): Root {
      Root([data], [oldData], Some([stage]))
    }

    function DatabaseRoot(): Root {
      Root([data, db], [data, oldDb], Some([stageDb]))
    }

    /** The backup holds the data directory without the database file. */
    function Before(): Tree {
      map[[data] := Directory, [data, db] := Regular("old"), [stage] := Directory, [stageDb] := Regular("new")]
    }

    function ThePlan(): Plan {
      Plan(Before(), [DataRoot(), DatabaseRoot()], [[stage], [stageDb]], Sqlite, true)
    }
  }

  lemma DifferentHeads(p: Path, q: Path)
    requires |p| > 0 && |q| > 0 && p[0] != q[0]
    ensures Apart(p, q)
  {
  }

  lemma SmallPlanPlaced(n: Names)
    requires n.Different()
    ensures Placed(n.DataRoot(), StagingSet(n.ThePlan())) && Placed(n.DatabaseRoot(), StagingSet(n.ThePlan()))
    ensures WellPlaced(n.DataRoot()) && WellPlaced(n.DatabaseRoot())
  {
    var staging := StagingSet(n.ThePlan());
    assert staging == {[n.stage], [n.stageDb]} by {
      assert n.ThePlan().staging[0] == [n.stage] && n.ThePlan().staging[1] == [n.stageDb];
    }
    DifferentHeads([n.data], [n.oldData]);
    forall s | s in staging
      ensures Apart([n.data], s) && Apart([n.oldData], s) && Apart([n.data, n.db], s) && Apart([n.data, n.oldDb], s)
    {
      DifferentHeads([n.data], s);
      DifferentHeads([n.oldData], s);
      DifferentHeads([n.data, n.db], s);
      DifferentHeads([n.data, n.oldDb], s);
    }
    assert Apart([n.data, n.db], [n.data, n.oldDb]) by {
      assert [n.data, n.db][1] != [n.data, n.oldDb][1];
    }
    PlacedApart(n.DataRoot(), staging);
    PlacedApart(n.DatabaseRoot(), staging);
  }

  lemma SmallSteps(n: Names)
    requires n.Different() && WellPlaced(n.DataRoot())
    ensures var fs := n.Before();
            var one := Switched(fs, n.DataRoot());
            && Exists(fs, [n.data]) && Exists(fs, [n.stage]) && Exists(fs, [n.data, n.db])
            && !Exists(fs, [n.oldData]) && !Exists(fs, [n.data, n.oldDb])
            && Exists(one, [n.stageDb]) && !Exists(one, [n.data, n.oldDb]) && !Exists(one, [n.data, n.db])
  {
    var fs := n.Before();
    assert [n.data] in fs && [n.stage] in fs && [n.data, n.db] in fs && [n.stageDb] in fs;
    assert forall q :: q in fs ==> q[0] != n.oldData && (|q| > 1 ==> q == [n.data, n.db]);
    forall q | [n.data, n.oldDb] <= q ensures q !in fs {
      assert q[1] == n.oldDb && [n.data, n.db][1] == n.db;
    }
    SecondLevelEmpty(n);
    var moved := OldMoved(fs, n.DataRoot());
    var one := Switched(fs, n.DataRoot());
    assert At(one, [n.stageDb]) == At(moved, [n.stageDb]) == At(fs, [n.stageDb]);
    SomethingBelow(one, [n.stageDb], [n.stageDb]);
  }

  /** The new data directory is empty. */
  lemma NothingInside(n: Names, q: Path)
    requires n.Different() && WellPlaced(n.DataRoot()) && Exists(n.Before(), [n.data]) && |q| > 1 && [n.data] <= q
    ensures At(Switched(n.Before(), n.DataRoot()), q) == None
  {
    var fs := n.Before();
    var o := [n.stage] + q[1..];
    assert o[0] == n.stage && |o| == |q|;
    assert !([n.data] <= o) && !([n.oldData] <= o);
    assert o !in fs;
    assert At(Switched(fs, n.DataRoot()), q) == At(OldMoved(fs, n.DataRoot()), o) == At(fs, o) == None;
  }

  lemma SecondLevelEmpty(n: Names)
    requires n.Different() && WellPlaced(n.DataRoot()) && Exists(n.Before(), [n.data])
    ensures var one := Switched(n.Before(), n.DataRoot());
            !Exists(one, [n.data, n.oldDb]) && !Exists(one, [n.data, n.db])
  {
    var one := Switched(n.Before(), n.DataRoot());
    forall q | [n.data, n.oldDb] <= q || [n.data, n.db] <= q ensures q !in one {
      assert q[0] == n.data && q[..1] == [n.data];
      NothingInside(n, q);
    }
  }

  lemma DatabaseIsOverlooked(n: Names)
    requires n.Different()
    ensures var plan := n.ThePlan();
            && Sound(plan) && Movable(Done(plan).swaps) && |Done(plan).swaps| == 2
            && Done(plan).swaps[1].root == n.DatabaseRoot() && Overlooked(plan, Done(plan).fs, Done(plan).swaps[1])
            && JournalOf(plan, 2, Done(plan).fs, Done(plan).swaps)
  {
    SmallPlanPlaced(n);
    SmallSteps(n);
    SmallPlanSound(n);
    var plan := n.ThePlan();
    DoneMovable(plan);
    DoneIsRested(plan);
    OverlookedWhenSwitched(plan, 2, Done(plan).fs, Done(plan).swaps, 1);
  }

  lemma DoneIsRested(plan: Plan)
    requires Sound(plan)
    ensures Rested(plan.origin, plan.roots, StagingSet(plan), |plan.roots|, Done(plan).fs, Done(plan).swaps)
  {
    TakeAll(plan.roots);
  }

  /** The original database file is overlooked, and so it is lost when recovery runs a second time. */
  lemma NestedTargetIsLost(n: Names)
    requires n.Different()
    ensures var plan := n.ThePlan();
            && Sound(plan) && JournalOf(plan, 2, Done(plan).fs, Done(plan).swaps)
            && var u := RolledBack(plan, 2, Done(plan).fs, Done(plan).swaps);
               && u.Undone? && Movable(u.swaps)
               && At(u.fs, [n.data, n.db]) == Some(Regular("old"))
               && At(Rollback(u.fs, u.swaps, |u.swaps|).fs, [n.data, n.db]) == None
  {
    DatabaseIsOverlooked(n);
    OverlookedIsLost(n.ThePlan(), 2, Done(n.ThePlan()).fs, Done(n.ThePlan()).swaps, 1);
    OldDatabase(n);
  }

  lemma OldDatabase(n: Names)
    requires n.Different()
    ensures n.DatabaseRoot().target == [n.data, n.db]
    ensures At(n.ThePlan().origin, [n.data, n.db]) == Some(Regular("old"))
  {
  }

  lemma DoneMovable(plan: Plan)
    requires Sound(plan)
    ensures Movable(Done(plan).swaps)
  {
    TakeAll(plan.roots);
    SwitchingMovable(plan.origin, plan.roots, StagingSet(plan), |plan.roots|, Done(plan).fs, Done(plan).swaps);
  }

  lemma OneRoot(origin: Tree, a: Root, staging: set<Path>)
    requires Placed(a, staging) && WellPlaced(a)
    requires a.staged.Some? && SwitchReady(origin, a) && Exists(origin, a.target)
    ensures Ready(origin, [a], staging)
    ensures ApplyAll(origin, [a], staging) == Progress(Switched(origin, a), [Recorded(Entry(a, true, false, false))])
  {
    ApplyOneMore(origin, [], a, staging);
    assert [] + [a] == [a];
  }

  /** Two roots with something staged, the first of which takes the target of the second away. */
  lemma TwoRoots(origin: Tree, a: Root, b: Root, staging: set<Path>)
    requires Placed(a, staging) && WellPlaced(a) && Placed(b, staging) && WellPlaced(b)
    requires a.staged.Some? && SwitchReady(origin, a) && Exists(origin, a.target)
    requires b.staged.Some? && SwitchReady(Switched(origin, a), b) && !Exists(Switched(origin, a), b.target)
    ensures Ready(origin, [a] + [b], staging)
    ensures ApplyAll(origin, [a] + [b], staging).swaps
         == [Recorded(Entry(a, true, false, false))] + [Recorded(Entry(b, false, false, false))]
  {
    OneRoot(origin, a, staging);
    ApplyOneMore(origin, [a], b, staging);
  }

  lemma BothFree(plan: Plan, a: Root, b: Root)
    requires plan.roots == [a] + [b] && Ready(plan.origin, plan.roots, StagingSet(plan))
    requires !Exists(plan.origin, a.rollback) && !Exists(plan.origin, b.rollback)
    ensures Sound(plan)
  {
    forall i | 0 <= i < |plan.roots| ensures !Exists(plan.origin, plan.roots[i].rollback) {
      assert plan.roots[i] == a || plan.roots[i] == b;
    }
  }

  lemma SmallPlanRoots(n: Names)
    ensures n.ThePlan().roots == [n.DataRoot()] + [n.DatabaseRoot()]
  {
  }

  /** What the two roots need before they can be switched one after the other. */
  lemma SmallPlanFits(n: Names, a: Root, b: Root)
    requires n.Different() && a == n.DataRoot() && b == n.DatabaseRoot()
    ensures Placed(a, StagingSet(n.ThePlan())) && WellPlaced(a) && Placed(b, StagingSet(n.ThePlan())) && WellPlaced(b)
    ensures a.staged.Some? && SwitchReady(n.Before(), a) && Exists(n.Before(), a.target)
    ensures b.staged.Some? && SwitchReady(Switched(n.Before(), a), b) && !Exists(Switched(n.Before(), a), b.target)
  {
    SmallPlanPlaced(n);
    SmallSteps(n);
  }

  lemma SmallPlanReady(n: Names)
    requires n.Different()
    ensures var plan := n.ThePlan();
            && plan.roots == [n.DataRoot()] + [n.DatabaseRoot()]
            && Ready(plan.origin, plan.roots, StagingSet(plan))
            && ApplyAll(plan.origin, plan.roots, StagingSet(plan)).swaps
               == [Recorded(Entry(n.DataRoot(), true, false, false))] + [Recorded(Entry(n.DatabaseRoot(), false, false, false))]
  {
    SmallPlanFits(n, n.DataRoot(), n.DatabaseRoot());
    SmallPlanRoots(n);
    TwoRoots(n.Before(), n.DataRoot(), n.DatabaseRoot(), StagingSet(n.ThePlan()));
  }

  lemma SmallPlanSound(n: Names)
    requires n.Different() && WellPlaced(n.DataRoot())
    ensures var plan := n.ThePlan();
            && Sound(plan)
            && Done(plan).swaps == [Recorded(Entry(n.DataRoot(), true, false, false))]
                                 + [Recorded(Entry(n.DatabaseRoot(), false, false, false))]
  {
    SmallPlanReady(n);
    SmallSteps(n);
    BothFree(n.ThePlan(), n.DataRoot(), n.DatabaseRoot());
  }
}
