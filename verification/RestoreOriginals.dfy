/**
 Where every original is after any number of crashes: in the apply, in its failure handler, and in one
 recovery after another. All of it is for places that do not lie inside each other.
 */
module RestoreOriginals {
  import opened Common
  import opened FileTree
  import opened RestoreProtocol
  import opened RestoreRerun
  import opened RestoreLife

  // ---------------------------------------------------------------- crashes in the failure handler

  /** An interrupted rollback leaves the durable journal it found, or one for the roots in memory. */
  lemma {:induction false} VisitedRoots(
    fs: Tree, durable: seq<Entry>, swaps: seq<Entry>, n: nat, fs': Tree, durable': seq<Entry>)
    requires n <= |swaps| && Movable(swaps) && RollbackVisits(fs, durable, swaps, n, fs', durable')
    ensures durable' == durable || RootsOf(durable') == RootsOf(swaps)
    decreases n
  {
    if n > 0 && !(fs' == fs && durable' == durable) {
      var e := swaps[n - 1];
      var e1 := ClearedEntry(fs, e);
      var swaps1 := swaps[n - 1 := e1];
      assert RootsOf(swaps1) == RootsOf(swaps);
      var cleared := ClearedTree(fs, e);
      var durable1 := AfterClearing(fs, durable, swaps, n - 1);
      if durable' != durable && durable' != durable1 {
        if e1.oldMoved || Exists(cleared, e.root.rollback) {
          var swaps2 := swaps[n - 1 := e1.(oldMoved := false)];
          assert RootsOf(swaps2) == RootsOf(swaps);
          VisitedRoots(Rename(cleared, e.root.rollback, e.root.target), swaps2, swaps2, n - 1, fs', durable');
        } else {
          VisitedRoots(cleared, durable1, swaps1, n - 1, fs', durable');
        }
      }
    }
  }

  /** The journal in memory fits the disk when the handler starts. */
  lemma MemoryIsAlive(plan: Plan, m: Moment)
    requires Sound(plan) && Separate(plan.roots) && ApplyMoment(plan, m) && HandlerRollsBack(m.memory)
    ensures Switching(plan, m) && !Refuses(m.memory)
    ensures Alive(plan.origin, m.disk) && Alive(plan.origin, m.disk.(journal := m.memory))
    ensures Consistent(plan.origin, m.disk.fs, m.disk.journal.swaps, m.memory.swaps)
  {
    ApplyMomentIsAlive(plan, m);
    var k: nat :| Holds(plan, k, m.disk.fs, m.memory);
    HoldsIsAlive(plan, k, m.disk.(journal := m.memory));
  }

  lemma SameRootsClear(j: Journal, j': Journal)
    requires ClearOfStaging(j) && RootsOf(j'.swaps) == RootsOf(j.swaps) && j'.staging == j.staging
    ensures ClearOfStaging(j')
  {
    forall i | 0 <= i < |j'.swaps| ensures j'.swaps[i].root == j.swaps[i].root {
      assert RootsOf(j'.swaps)[i] == RootsOf(j.swaps)[i];
    }
  }

  /** A crash anywhere in the failure handler starts a chain of recoveries like any other crash. */
  lemma HandlerKeepsOriginals(plan: Plan, m: Moment, d: Disk)
    requires Sound(plan) && Separate(plan.roots) && ApplyMoment(plan, m) && HandlerVisits(m, d)
    ensures Alive(plan.origin, d)
  {
    MemoryIsAlive(plan, m);
    var swaps, durable := m.memory.swaps, m.disk.journal.swaps;
    if RollbackVisits(m.disk.fs, durable, swaps, |swaps|, d.fs, d.journal.swaps) {
      RollbackKeepsOriginals(plan.origin, m.disk.fs, durable, swaps, |swaps|, d.fs, d.journal.swaps);
      VisitedRoots(m.disk.fs, durable, swaps, |swaps|, d.fs, d.journal.swaps);
      SameRootsClear(if RootsOf(d.journal.swaps) == RootsOf(swaps) then m.memory else m.disk.journal, d.journal);
    } else {
      assert Consistent(plan.origin, m.disk.fs, swaps, swaps);
      RollbackOutcome(plan.origin, m.disk.fs, swaps, |swaps|);
      SameRootsClear(m.memory, d.journal);
    }
  }

  /** So does a rollback of the handler that fails midway, with the journal it then writes. */
  lemma GivingUpKeepsOriginals(plan: Plan, m: Moment, d: Disk)
    requires Sound(plan) && Separate(plan.roots) && ApplyMoment(plan, m) && HandlerGivesUp(m, d)
    ensures Alive(plan.origin, d)
  {
    MemoryIsAlive(plan, m);
    RecoveryKeepsAlive(plan.origin, m.disk.(journal := m.memory), d.(journal := m.memory.(swaps := d.journal.swaps)));
  }

  // ---------------------------------------------------------------- places that nothing touches

  ghost predicate ApartFromAll(p: Path, swaps: seq<Entry>) {
    forall i :: 0 <= i < |swaps| ==> ApartFrom(p, swaps[i].root)
  }

  lemma ApartUpdated(p: Path, swaps: seq<Entry>, i: nat, e: Entry)
    requires ApartFromAll(p, swaps) && i < |swaps| && e.root == swaps[i].root
    ensures ApartFromAll(p, swaps[i := e])
  {
  }

  lemma BackElsewhere(fs: Tree, e: Entry, p: Path)
    requires ApartFrom(p, e.root) && Apart(e.root.target, e.root.rollback)
    ensures SameBelow(ClearedTree(fs, e), fs, p)
    ensures SameBelow(Rename(ClearedTree(fs, e), e.root.rollback, e.root.target), fs, p)
  {
    RemoveKeeps(fs, e.root.target, p);
    RenameKeeps(ClearedTree(fs, e), e.root.rollback, e.root.target, p);
  }

  lemma {:induction false} VisitsElsewhere(
    fs: Tree, durable: seq<Entry>, swaps: seq<Entry>, n: nat, fs': Tree, durable': seq<Entry>, p: Path)
    requires n <= |swaps| && Movable(swaps) && ApartFromAll(p, swaps)
    requires RollbackVisits(fs, durable, swaps, n, fs', durable')
    ensures SameBelow(fs', fs, p)
    decreases n, 1
  {
    if n > 0 && !(fs' == fs && durable' == durable) {
      var e := swaps[n - 1];
      BackElsewhere(fs, e, p);
      if Clears(fs, e) && PartlyRemoved(fs, fs', e.root.target) && durable' == durable {
        OutsidePart(fs, fs', e.root.target, p);
      } else if !(fs' == ClearedTree(fs, e) && durable' == AfterClearing(fs, durable, swaps, n - 1)) {
        ElsewhereAfterClearing(fs, durable, swaps, n - 1, fs', durable', p);
      }
    }
  }

  /** The states after the target of entry `i` has been cleared. */
  lemma {:induction false} ElsewhereAfterClearing(
    fs: Tree, durable: seq<Entry>, swaps: seq<Entry>, i: nat, fs': Tree, durable': seq<Entry>, p: Path)
    requires i < |swaps| && Movable(swaps) && ApartFromAll(p, swaps)
    requires VisitsAfterClearing(fs, durable, swaps, i, fs', durable')
    ensures SameBelow(fs', fs, p)
    decreases i, 2
  {
    var e := swaps[i];
    var cleared, e1, durable1 := ClearedTree(fs, e), ClearedEntry(fs, e), AfterClearing(fs, durable, swaps, i);
    BackElsewhere(fs, e, p);
    if e1.oldMoved || Exists(cleared, e.root.rollback) {
      var back := Rename(cleared, e.root.rollback, e.root.target);
      if !(fs' == back && durable' == durable1) {
        var swaps2 := swaps[i := e1.(oldMoved := false)];
        ApartUpdated(p, swaps, i, e1.(oldMoved := false));
        VisitsElsewhere(back, swaps2, swaps2, i, fs', durable', p);
      }
    } else {
      ApartUpdated(p, swaps, i, e1);
      VisitsElsewhere(cleared, durable1, swaps[i := e1], i, fs', durable', p);
    }
  }

  lemma {:induction false} RollbackElsewhere(fs: Tree, swaps: seq<Entry>, n: nat, p: Path)
    requires n <= |swaps| && Movable(swaps) && ApartFromAll(p, swaps)
    ensures SameBelow(Rollback(fs, swaps, n).fs, fs, p)
    decreases n
  {
    if n > 0 {
      var e := swaps[n - 1];
      var e1 := ClearedEntry(fs, e);
      var cleared := ClearedTree(fs, e);
      BackElsewhere(fs, e, p);
      if e1.oldMoved || Exists(cleared, e.root.rollback) {
        if Exists(cleared, e.root.rollback) {
          ApartUpdated(p, swaps, n - 1, e1.(oldMoved := false));
          RollbackElsewhere(Rename(cleared, e.root.rollback, e.root.target),
                            swaps[n - 1 := e1.(oldMoved := false)], n - 1, p);
        }
      } else {
        ApartUpdated(p, swaps, n - 1, e1);
        RollbackElsewhere(cleared, swaps[n - 1 := e1], n - 1, p);
      }
    }
  }

  lemma NotStripped(swaps: seq<Entry>, staging: seq<Path>, p: Path, q: Path)
    requires ApartFromAll(p, swaps) && ClearOf(p, SetOf(staging)) && p <= q
    ensures forall i :: 0 <= i < |Rollbacks(swaps) + staging| ==> !((Rollbacks(swaps) + staging)[i] <= q)
  {
    var paths := Rollbacks(swaps) + staging;
    forall i | 0 <= i < |paths| ensures !(paths[i] <= q) {
      if i < |swaps| {
        assert paths[i] == swaps[i].root.rollback;
        if paths[i] <= q { Comparable(paths[i], p, q); }
      } else {
        assert paths[i] == staging[i - |swaps|] && paths[i] in SetOf(staging);
        ClearBelow(p, q, SetOf(staging));
      }
    }
  }

  lemma StrippingElsewhere(fs: Tree, fs': Tree, swaps: seq<Entry>, staging: seq<Path>, p: Path)
    requires PartlyStripped(fs, fs', Rollbacks(swaps) + staging)
    requires ApartFromAll(p, swaps) && ClearOf(p, SetOf(staging))
    ensures SameBelow(fs', fs, p)
  {
    forall q | p <= q ensures At(fs', q) == At(fs, q) {
      NotStripped(swaps, staging, p, q);
    }
  }

  /** What a recovery, interrupted or not, does not touch, and which roots its journal is about. */
  lemma RecoveryElsewhere(origin: Tree, d: Disk, d': Disk, p: Path)
    requires Alive(origin, d) && Movable(d.journal.swaps) && RecoveryVisits(d, d')
    requires ApartFromAll(p, d.journal.swaps) && ClearOf(p, SetOf(d.journal.staging))
    ensures SameBelow(d'.fs, d.fs, p)
  {
    var j := d.journal;
    if !Refuses(j) {
      if RollbackVisits(d.fs, j.swaps, j.swaps, |j.swaps|, d'.fs, d'.journal.swaps) {
        VisitsElsewhere(d.fs, j.swaps, j.swaps, |j.swaps|, d'.fs, d'.journal.swaps, p);
      } else {
        var u := Rollback(d.fs, j.swaps, |j.swaps|);
        RollbackElsewhere(d.fs, j.swaps, |j.swaps|, p);
        RecoveryRoots(origin, d, d');
        SameRootsApart(p, j.swaps, u.swaps);
        StrippingElsewhere(u.fs, d'.fs, u.swaps, j.staging, p);
      }
    }
  }

  lemma SameRootsApart(p: Path, swaps: seq<Entry>, swaps': seq<Entry>)
    requires ApartFromAll(p, swaps) && RootsOf(swaps') == RootsOf(swaps)
    ensures ApartFromAll(p, swaps')
  {
    forall i | 0 <= i < |swaps'| ensures ApartFrom(p, swaps'[i].root) {
      assert RootsOf(swaps')[i] == RootsOf(swaps)[i];
    }
  }

  lemma RecoveryRoots(origin: Tree, d: Disk, d': Disk)
    requires Alive(origin, d) && Movable(d.journal.swaps) && RecoveryVisits(d, d')
    ensures RootsOf(d'.journal.swaps) == RootsOf(d.journal.swaps) && d'.journal.staging == d.journal.staging
  {
    var j := d.journal;
    if !Refuses(j) {
      if RollbackVisits(d.fs, j.swaps, j.swaps, |j.swaps|, d'.fs, d'.journal.swaps) {
        VisitsKeepRoots(d.fs, j.swaps, j.swaps, |j.swaps|, d'.fs, d'.journal.swaps);
      } else {
        assert Consistent(origin, d.fs, j.swaps, j.swaps);
        RollbackOutcome(origin, d.fs, j.swaps, |j.swaps|);
      }
    }
  }

  /** A whole chain of recoveries. */
  lemma {:induction false} ChainElsewhere(origin: Tree, disks: seq<Disk>, n: nat, p: Path)
    requires |disks| > 0 && Alive(origin, disks[0]) && Chain(origin, disks) && n < |disks|
    requires ApartFromAll(p, disks[0].journal.swaps) && ClearOf(p, SetOf(disks[0].journal.staging))
    ensures SameBelow(disks[n].fs, disks[0].fs, p)
    ensures RootsOf(disks[n].journal.swaps) == RootsOf(disks[0].journal.swaps)
    ensures disks[n].journal.staging == disks[0].journal.staging
    decreases n
  {
    if n > 0 {
      ChainElsewhere(origin, disks, n - 1, p);
      RepeatedCrashesKeepOriginals(origin, disks, n - 1);
      assert RecoveryVisits(disks[n - 1], disks[n - 1 + 1]);
      SameRootsApart(p, disks[0].journal.swaps, disks[n - 1].journal.swaps);
      RecoveryElsewhere(origin, disks[n - 1], disks[n], p);
      RecoveryRoots(origin, disks[n - 1], disks[n]);
    }
  }

  lemma {:induction false} ChainRoots(origin: Tree, disks: seq<Disk>, n: nat)
    requires |disks| > 0 && Alive(origin, disks[0]) && Chain(origin, disks) && n < |disks|
    ensures RootsOf(disks[n].journal.swaps) == RootsOf(disks[0].journal.swaps)
    decreases n
  {
    if n > 0 {
      ChainRoots(origin, disks, n - 1);
      RepeatedCrashesKeepOriginals(origin, disks, n - 1);
      assert RecoveryVisits(disks[n - 1], disks[n - 1 + 1]);
      RecoveryRoots(origin, disks[n - 1], disks[n]);
    }
  }

  // ---------------------------------------------------------------- originals that are not journalled yet

  /** A place apart from every journalled root is as it was. */
  lemma {:induction false} UntouchedBySwaps(origin: Tree, roots: seq<Root>, staging: set<Path>, p: Path)
    requires forall i :: 0 <= i < |roots| ==> Placed(roots[i], staging)
    requires ApartFromAll(p, ApplyAll(origin, roots, staging).swaps)
    ensures SameBelow(ApplyAll(origin, roots, staging).fs, origin, p)
    decreases |roots|
  {
    if |roots| > 0 {
      var root := roots[|roots| - 1];
      var init := roots[..|roots| - 1];
      var before, done := ApplyAll(origin, init, staging), ApplyAll(origin, roots, staging);
      if Listed(before.fs, root) {
        assert done.swaps == before.swaps + [Last(done.swaps)] && Last(done.swaps).root == root;
        forall i | 0 <= i < |before.swaps| ensures ApartFrom(p, before.swaps[i].root) {
          assert before.swaps[i] == done.swaps[i];
        }
        PlacedApart(root, staging);
        SwitchElsewhere(before.fs, root, p);
      }
      UntouchedBySwaps(origin, init, staging, p);
    }
  }

  lemma HoldsElsewhere(plan: Plan, k: nat, d: Disk, p: Path)
    requires Sound(plan) && Holds(plan, k, d.fs, d.journal) && ApartFromAll(p, d.journal.swaps)
    ensures SameBelow(d.fs, plan.origin, p)
  {
    var staging := StagingSet(plan);
    if Rested(plan.origin, plan.roots, staging, k, d.fs, d.journal.swaps) {
      UntouchedBySwaps(plan.origin, plan.roots[..k], staging, p);
    } else {
      var before := ApplyAll(plan.origin, plan.roots[..k], staging);
      forall i | 0 <= i < |before.swaps| ensures ApartFrom(p, before.swaps[i].root) {
        assert before.swaps[i] == d.journal.swaps[i];
      }
      UntouchedBySwaps(plan.origin, plan.roots[..k], staging, p);
      PlacedApart(plan.roots[k], staging);
      assert Last(d.journal.swaps).root == plan.roots[k];
      SwitchElsewhere(before.fs, plan.roots[k], p);
    }
  }

  ghost predicate Journalled(root: Root, swaps: seq<Entry>) {
    exists i :: 0 <= i < |swaps| && swaps[i].root == root
  }

  lemma NotJournalledIsApart(plan: Plan, m: Moment, i: nat)
    requires Sound(plan) && Separate(plan.roots) && ApplyMoment(plan, m) && m.disk.journal.phase != Complete
    requires i < |plan.roots| && !Journalled(plan.roots[i], m.disk.journal.swaps)
    ensures ApartFromAll(plan.roots[i].target, m.disk.journal.swaps)
    ensures SameBelow(m.disk.fs, plan.origin, plan.roots[i].target)
    ensures ClearOf(plan.roots[i].target, SetOf(m.disk.journal.staging))
  {
    var k := DiskHolds(plan, m);
    var swaps := m.disk.journal.swaps;
    SwitchingMovable(plan.origin, plan.roots, StagingSet(plan), k, m.disk.fs, swaps);
    forall x | 0 <= x < |swaps| ensures ApartFrom(plan.roots[i].target, swaps[x].root) {
      var y :| 0 <= y < |plan.roots| && plan.roots[y] == swaps[x].root;
      assert RootsApart(plan.roots[i], plan.roots[y]);
    }
    HoldsElsewhere(plan, k, m.disk, plan.roots[i].target);
    assert Placed(plan.roots[i], StagingSet(plan));
  }

  /**
   After a crash at any moment of the apply and any number of interrupted recoveries, as long as
   `complete` was not durable, the original of every root is whole: at exactly one of its target and its
   rollback place if the root is journalled, and at its target if it is not.
   */
  lemma EveryOriginalIsSafe(plan: Plan, m: Moment, disks: seq<Disk>, n: nat, i: nat)
    requires Sound(plan) && Separate(plan.roots) && ApplyMoment(plan, m) && m.disk.journal.phase != Complete
    requires |disks| > 0 && disks[0] == m.disk && Chain(plan.origin, disks) && n < |disks|
    requires i < |plan.roots| && Exists(plan.origin, plan.roots[i].target)
    ensures var d, root := disks[n], plan.roots[i];
            if Journalled(root, d.journal.swaps) then
              forall x :: 0 <= x < |d.journal.swaps| && d.journal.swaps[x].root == root ==>
                (AtTarget(plan.origin, d.fs, d.journal.swaps[x]) <==> !AtRollback(plan.origin, d.fs, d.journal.swaps[x]))
            else SameBelow(d.fs, plan.origin, root.target)
  {
    ApplyMomentIsAlive(plan, m);
    RepeatedCrashesKeepOriginals(plan.origin, disks, n);
    var d, root := disks[n], plan.roots[i];
    if !Journalled(root, d.journal.swaps) {
      ChainRoots(plan.origin, disks, n);
      SameJournalled(root, disks[0].journal.swaps, d.journal.swaps);
      NotJournalledIsApart(plan, m, i);
      ChainElsewhere(plan.origin, disks, n, root.target);
    } else {
      forall x | 0 <= x < |d.journal.swaps| && d.journal.swaps[x].root == root
        ensures AtTarget(plan.origin, d.fs, d.journal.swaps[x]) <==> !AtRollback(plan.origin, d.fs, d.journal.swaps[x])
      {
        assert EntryOk(plan.origin, d.fs, d.journal.swaps[x]);
      }
    }
  }

  lemma SameJournalled(root: Root, swaps: seq<Entry>, swaps': seq<Entry>)
    requires RootsOf(swaps) == RootsOf(swaps')
    ensures Journalled(root, swaps) ==> Journalled(root, swaps')
  {
    if i :| 0 <= i < |swaps| && swaps[i].root == root {
      assert RootsOf(swaps)[i] == RootsOf(swaps')[i];
    }
  }
}
