/**
 The offline restore of `arborpress/backups/restore.py`: several live roots are swapped
 one after another, a journal is made durable around every rename, and a failed or
 interrupted restore is undone from that journal and from what is found on disk.
 */
module RestoreProtocol {
  import opened Common
  import opened FileTree

  /** One planned swap. Only the SQLite sidecar files have nothing staged for them. */
  datatype Root = Root(target: Path, rollback: Path, staged: Option<Path>)

  /** One element of the journal's `swaps` list. */
  datatype Entry = Entry(root: Root, hadOriginal: bool, oldMoved: bool, newMoved: bool)

  datatype Phase =
    | ApplyingFiles | SwitchingSqlite | SqliteSwitched
    | CommitStarted | Committed | Complete
    | RolledBack | RecoveryRequired

  datatype Backend = Sqlite | Server

  datatype Journal = Journal(
    phase: Phase,
    backend: Backend,
    swaps: seq<Entry>,
    commitStarted: bool,
    committed: bool,
    staging: seq<Path>)

  // ---------------------------------------------------------------- rolling back

  predicate Movable(swaps: seq<Entry>) {
    forall i :: 0 <= i < |swaps| ==> Apart(swaps[i].root.target, swaps[i].root.rollback)
  }

  /** The on-disk evidence that the staged tree reached its target although the flag is unset. */
  predicate StagedWasMoved(fs: Tree, e: Entry) {
    && e.root.staged.Some?
    && !Exists(fs, e.root.staged.value)
    && Exists(fs, e.root.target)
    && (Exists(fs, e.root.rollback) || !e.hadOriginal)
  }

  predicate Clears(fs: Tree, e: Entry) {
    e.newMoved || StagedWasMoved(fs, e)
  }

  function ClearedTree(fs: Tree, e: Entry): Tree {
    if Clears(fs, e) then Remove(fs, e.root.target) else fs
  }

  function ClearedEntry(fs: Tree, e: Entry): Entry {
    if Clears(fs, e) then e.(newMoved := false) else e
  }

  datatype Undo =
    | Undone(fs: Tree, swaps: seq<Entry>)
    | MissingRollback(fs: Tree, swaps: seq<Entry>, index: nat)

  /** The whole of `_rollback_swaps` over the first `n` entries, last entry first. */
  function Rollback(fs: Tree, swaps: seq<Entry>, n: nat): Undo
    requires n <= |swaps| && Movable(swaps)
    decreases n
  {
    if n == 0 then
      Undone(fs, swaps)
    else
      var e := swaps[n - 1];
      var cleared := ClearedTree(fs, e);
      var e1 := ClearedEntry(fs, e);
      if e1.oldMoved || Exists(cleared, e.root.rollback) then
        if !Exists(cleared, e.root.rollback) then
          MissingRollback(cleared, swaps[n - 1 := e1], n - 1)
        else
          Rollback(Rename(cleared, e.root.rollback, e.root.target),
                   swaps[n - 1 := e1.(oldMoved := false)], n - 1)
      else
        Rollback(cleared, swaps[n - 1 := e1], n - 1)
  }

  /**
   No rename of the rollback meets anything at its destination, where `os.replace` would raise or
   replace what is there.
   */
  predicate OntoNothing(fs: Tree, swaps: seq<Entry>, n: nat)
    requires n <= |swaps| && Movable(swaps)
    decreases n
  {
    n == 0 ||
    var e := swaps[n - 1];
    var cleared := ClearedTree(fs, e);
    var e1 := ClearedEntry(fs, e);
    if Exists(cleared, e.root.rollback) then
      && !Exists(cleared, e.root.target)
      && OntoNothing(Rename(cleared, e.root.rollback, e.root.target), swaps[n - 1 := e1.(oldMoved := false)], n - 1)
    else
      e1.oldMoved || OntoNothing(cleared, swaps[n - 1 := e1], n - 1)
  }

  // ---------------------------------------------------------------- applying

  /** A sidecar is listed only when it is there; every other root is always listed. */
  predicate Listed(fs: Tree, root: Root) {
    root.staged.Some? || Exists(fs, root.target)
  }

  function Begin(fs: Tree, root: Root): Entry {
    Entry(root, Exists(fs, root.target), false, false)
  }

  function OldMoved(fs: Tree, root: Root): Tree
    requires Apart(root.target, root.rollback)
  {
    if Exists(fs, root.target) then Rename(fs, root.target, root.rollback) else fs
  }

  function Switched(fs: Tree, root: Root): Tree
    requires Apart(root.target, root.rollback)
    requires root.staged.Some? ==> Apart(root.staged.value, root.target)
  {
    if root.staged.Some?
    then Rename(OldMoved(fs, root), root.staged.value, root.target)
    else OldMoved(fs, root)
  }

  /** The entry once both moves are done and recorded. */
  function Recorded(e: Entry): Entry {
    e.(oldMoved := e.hadOriginal, newMoved := e.root.staged.Some?)
  }

  datatype Progress = Progress(fs: Tree, swaps: seq<Entry>)

  /** Targets and rollback places lie outside the staging area, staged trees inside it. */
  ghost predicate Placed(root: Root, staging: set<Path>) {
    && Apart(root.target, root.rollback)
    && ClearOf(root.target, staging)
    && ClearOf(root.rollback, staging)
    && (root.staged.Some? ==> exists s :: s in staging && s <= root.staged.value)
  }

  lemma PlacedApart(root: Root, staging: set<Path>)
    requires Placed(root, staging)
    ensures root.staged.Some? ==>
              Apart(root.staged.value, root.target) && Apart(root.staged.value, root.rollback)
  {
    if root.staged.Some? {
      var s :| s in staging && s <= root.staged.value;
      assert Apart(root.target, s) && Apart(root.rollback, s);
      if root.target <= root.staged.value { Comparable(root.target, s, root.staged.value); }
      if root.rollback <= root.staged.value { Comparable(root.rollback, s, root.staged.value); }
    }
  }

  /** State after every root of `roots` has been switched and recorded. */
  ghost function ApplyAll(fs: Tree, roots: seq<Root>, staging: set<Path>): (p: Progress)
    requires forall i :: 0 <= i < |roots| ==> Placed(roots[i], staging)
    ensures forall i :: 0 <= i < |p.swaps| ==> p.swaps[i].root in roots
  {
    if |roots| == 0 then
      Progress(fs, [])
    else
      var root := roots[|roots| - 1];
      var before := ApplyAll(fs, roots[..|roots| - 1], staging);
      if Listed(before.fs, root) then
        PlacedApart(root, staging);
        Progress(Switched(before.fs, root), before.swaps + [Recorded(Begin(before.fs, root))])
      else
        before
  }

  /** What the source checks, or has just established, before it moves anything for `root`. */
  predicate SwitchReady(fs: Tree, root: Root) {
    !Exists(fs, root.rollback) && (root.staged.Some? ==> Exists(fs, root.staged.value))
  }

  ghost predicate Ready(fs: Tree, roots: seq<Root>, staging: set<Path>) {
    && (forall i :: 0 <= i < |roots| ==> Placed(roots[i], staging))
    && (|roots| > 0 ==>
          && Ready(fs, roots[..|roots| - 1], staging)
          && SwitchReady(ApplyAll(fs, roots[..|roots| - 1], staging).fs, roots[|roots| - 1]))
  }

  /**
   Everything that can be on disk while `root` is being switched, together with the entry
   that the durable or the in-memory journal may hold at that moment.
   */
  ghost predicate Midway(before: Tree, root: Root, fs: Tree, e: Entry)
    requires Apart(root.target, root.rollback)
    requires root.staged.Some? ==> Apart(root.staged.value, root.target)
  {
    var b := Begin(before, root);
    || (fs == before && e == b)
    || (b.hadOriginal && fs == OldMoved(before, root) && (e == b || e == b.(oldMoved := true)))
    || (root.staged.Some? && fs == Switched(before, root) &&
        (e == b.(oldMoved := b.hadOriginal) || e == Recorded(b)))
  }

  /** Neither do the renames of a switch. */
  lemma SwitchOntoNothing(before: Tree, root: Root)
    requires SwitchReady(before, root) && Apart(root.target, root.rollback)
    ensures Exists(before, root.target) ==> !Exists(before, root.rollback)
    ensures root.staged.Some? ==> !Exists(OldMoved(before, root), root.target)
  {
    RenameEnds(before, root.target, root.rollback);
  }

  // ---------------------------------------------------------------- undoing one root

  /** Undoing a recorded switch gives the tree before it, outside the staging area. */
  lemma UndoRecorded(before: Tree, root: Root, staging: set<Path>, fs: Tree)
    requires Placed(root, staging) && Listed(before, root) && !Exists(before, root.rollback)
    requires root.staged.Some? ==> Apart(root.staged.value, root.target)
    requires Agree(fs, Switched(before, root), staging)
    ensures var e := Recorded(Begin(before, root));
            var cleared := ClearedTree(fs, e);
            && (e.hadOriginal ==>
                  && Exists(cleared, root.rollback) && !Exists(cleared, root.target)
                  && Agree(Rename(cleared, root.rollback, root.target), before, staging))
            && (!e.hadOriginal ==> !Exists(cleared, root.rollback) && Agree(cleared, before, staging))
  {
    PlacedApart(root, staging);
    var e := Recorded(Begin(before, root));
    var moved := OldMoved(before, root);
    var cleared := ClearedTree(fs, e);
    assert Agree(cleared, moved, staging) by {
      if root.staged.Some? {
        AgreeRemove(fs, Switched(before, root), staging, root.target);
        assert !Exists(moved, root.target) by { RenameEnds(before, root.target, root.rollback); }
        SwitchThenRemove(moved, root.staged.value, root.target, staging);
      }
    }
    AgreeExists(cleared, moved, staging, root.rollback);
    AgreeExists(cleared, moved, staging, root.target);
    RenameEnds(before, root.target, root.rollback);
    if e.hadOriginal {
      AgreeRename(cleared, moved, staging, root.rollback, root.target);
      RenameBack(before, root.target, root.rollback);
    }
  }

  lemma SwitchThenRemove(fs: Tree, staged: Path, target: Path, staging: set<Path>)
    requires Apart(staged, target) && !Exists(fs, target)
    requires exists s :: s in staging && s <= staged
    ensures Agree(Remove(Rename(fs, staged, target), target), fs, staging)
  {
    var s :| s in staging && s <= staged;
    forall q | Outside(q, staging)
      ensures At(Remove(Rename(fs, staged, target), target), q) == At(fs, q)
    {
      if target <= q { NothingBelow(fs, target, q); }
    }
  }

  /** The same from every intermediate state, with a flag that may lag behind the disk. */
  lemma UndoMidway(before: Tree, root: Root, staging: set<Path>, fs: Tree, e: Entry)
    requires Placed(root, staging) && Listed(before, root) && SwitchReady(before, root)
    requires root.staged.Some? ==> Apart(root.staged.value, root.target)
    requires Midway(before, root, fs, e)
    ensures MovesCleanly(fs, e)
    ensures var cleared := ClearedTree(fs, e);
            if e.oldMoved || Exists(cleared, root.rollback) then
              && Exists(cleared, root.rollback) && !Exists(cleared, root.target)
              && Agree(Rename(cleared, root.rollback, root.target), before, staging)
            else
              Agree(cleared, before, staging)
  {
    PlacedApart(root, staging);
    var b := Begin(before, root);
    RenameEnds(before, root.target, root.rollback);
    if fs == before && e == b {
      assert !Clears(fs, e);
    } else if b.hadOriginal && fs == OldMoved(before, root) && (e == b || e == b.(oldMoved := true)) {
      assert !Clears(fs, e);
      RenameBack(before, root.target, root.rollback);
    } else {
      RenameEnds(OldMoved(before, root), root.staged.value, root.target);
      StagedStays(before, root);
      RenameElsewhere(OldMoved(before, root), root.staged.value, root.target, root.rollback);
      assert Clears(fs, e);
      UndoRecorded(before, root, staging, fs);
    }
  }

  lemma StagedStays(before: Tree, root: Root)
    requires Apart(root.target, root.rollback)
    requires root.staged.Some? && Apart(root.staged.value, root.target)
             && Apart(root.staged.value, root.rollback)
    ensures Exists(OldMoved(before, root), root.staged.value) <==> Exists(before, root.staged.value)
  {
    RenameElsewhere(before, root.target, root.rollback, root.staged.value);
  }

  // ---------------------------------------------------------------- undoing all of them

  ghost function Swaps(fs: Tree, roots: seq<Root>, staging: set<Path>): seq<Entry>
    requires forall i :: 0 <= i < |roots| ==> Placed(roots[i], staging)
  {
    ApplyAll(fs, roots, staging).swaps
  }

  lemma ReadyPrefix(fs: Tree, roots: seq<Root>, staging: set<Path>, k: nat)
    requires Ready(fs, roots, staging) && k <= |roots|
    ensures Ready(fs, roots[..k], staging)
    decreases |roots|
  {
    if k == |roots| {
      assert roots[..k] == roots;
    } else {
      assert roots[..|roots| - 1][..k] == roots[..k];
      ReadyPrefix(fs, roots[..|roots| - 1], staging, k);
    }
  }

  /** One more root. */
  lemma ApplyOneMore(fs: Tree, roots: seq<Root>, root: Root, staging: set<Path>)
    requires Ready(fs, roots, staging) && Placed(root, staging)
    requires SwitchReady(ApplyAll(fs, roots, staging).fs, root)
    requires root.staged.Some? ==> Apart(root.staged.value, root.target)
    ensures Ready(fs, roots + [root], staging)
    ensures var before := ApplyAll(fs, roots, staging);
            ApplyAll(fs, roots + [root], staging) ==
              if Listed(before.fs, root)
              then Progress(Switched(before.fs, root), before.swaps + [Recorded(Begin(before.fs, root))])
              else before
  {
    assert (roots + [root])[..|roots + [root]| - 1] == roots;
  }

  lemma ReadyAt(fs: Tree, roots: seq<Root>, staging: set<Path>, k: nat)
    requires Ready(fs, roots, staging) && k < |roots|
    ensures Ready(fs, roots[..k], staging)
    ensures SwitchReady(ApplyAll(fs, roots[..k], staging).fs, roots[k])
  {
    ReadyPrefix(fs, roots, staging, k);
    ReadyPrefix(fs, roots, staging, k + 1);
    assert roots[..k + 1][..k] == roots[..k];
  }

  /** The rollback of the first `n` entries gives `origin` back, and its renames meet nothing. */
  ghost predicate GivesBack(origin: Tree, staging: set<Path>, fs: Tree, swaps: seq<Entry>, n: nat)
    requires n <= |swaps| && Movable(swaps)
  {
    var u := Rollback(fs, swaps, n);
    u.Undone? && Agree(u.fs, origin, staging) && OntoNothing(fs, swaps, n)
  }

  /** The round of the rollback for `e` does not raise, and its rename meets nothing. */
  predicate MovesCleanly(fs: Tree, e: Entry) {
    var cleared := ClearedTree(fs, e);
    if e.oldMoved || Exists(cleared, e.root.rollback)
    then Exists(cleared, e.root.rollback) && !Exists(cleared, e.root.target)
    else true
  }

  /** One round of the rollback. */
  lemma UndoFirst(origin: Tree, staging: set<Path>, fs: Tree, swaps: seq<Entry>, n: nat) returns (fs': Tree, swaps': seq<Entry>)
    requires 0 < n <= |swaps| && Movable(swaps)
    ensures var cleared, root := ClearedTree(fs, swaps[n - 1]), swaps[n - 1].root;
            fs' == if Exists(cleared, root.rollback) then Rename(cleared, root.rollback, root.target) else cleared
    ensures |swaps'| == |swaps| && Movable(swaps') && swaps'[..n - 1] == swaps[..n - 1]
    ensures MovesCleanly(fs, swaps[n - 1]) && GivesBack(origin, staging, fs', swaps', n - 1) ==>
              GivesBack(origin, staging, fs, swaps, n)
  {
    var e := swaps[n - 1];
    var cleared := ClearedTree(fs, e);
    if Exists(cleared, e.root.rollback) {
      fs', swaps' := Rename(cleared, e.root.rollback, e.root.target), swaps[n - 1 := ClearedEntry(fs, e).(oldMoved := false)];
    } else {
      fs', swaps' := cleared, swaps[n - 1 := ClearedEntry(fs, e)];
    }
  }

  /** Undoing the last recorded switch leads back to the state before it. */
  lemma UndoLast(origin: Tree, roots: seq<Root>, staging: set<Path>, fs: Tree, swaps: seq<Entry>, n: nat)
    returns (fs': Tree, swaps': seq<Entry>)
    requires Ready(origin, roots, staging) && |roots| > 0
    requires n == |Swaps(origin, roots, staging)| <= |swaps|
    requires swaps[..n] == Swaps(origin, roots, staging) && Movable(swaps)
    requires Agree(fs, ApplyAll(origin, roots, staging).fs, staging)
    requires Listed(ApplyAll(origin, roots[..|roots| - 1], staging).fs, roots[|roots| - 1])
    ensures n > 0 && |swaps'| == |swaps| && Movable(swaps')
    ensures GivesBack(origin, staging, fs', swaps', n - 1) ==> GivesBack(origin, staging, fs, swaps, n)
    ensures swaps'[..n - 1] == Swaps(origin, roots[..|roots| - 1], staging)
    ensures Agree(fs', ApplyAll(origin, roots[..|roots| - 1], staging).fs, staging)
  {
    var root := roots[|roots| - 1];
    var before := ApplyAll(origin, roots[..|roots| - 1], staging);
    PlacedApart(root, staging);
    var e := Recorded(Begin(before.fs, root));
    assert swaps[n - 1] == swaps[..n][n - 1] == e;
    assert before.swaps == Swaps(origin, roots, staging)[..n - 1] == swaps[..n][..n - 1];
    UndoRecorded(before.fs, root, staging, fs);
    fs', swaps' := UndoFirst(origin, staging, fs, swaps, n);
    assert swaps'[..n - 1] == before.swaps;
  }

  lemma WithoutLast(origin: Tree, roots: seq<Root>, staging: set<Path>)
    requires Ready(origin, roots, staging) && |roots| > 0
    ensures Ready(origin, roots[..|roots| - 1], staging)
    ensures !Listed(ApplyAll(origin, roots[..|roots| - 1], staging).fs, roots[|roots| - 1]) ==>
              ApplyAll(origin, roots, staging) == ApplyAll(origin, roots[..|roots| - 1], staging)
  {
  }

  lemma NothingToUndo(fs: Tree, swaps: seq<Entry>)
    requires Movable(swaps)
    ensures forall origin, staging :: Agree(fs, origin, staging) ==> GivesBack(origin, staging, fs, swaps, 0)
  {
  }

  /** Last-in-first-out undo of completed switches, whatever their targets contain of each other. */
  lemma {:induction false} RollbackRecorded(
    origin: Tree, roots: seq<Root>, staging: set<Path>, fs: Tree, swaps: seq<Entry>, n: nat)
    requires Ready(origin, roots, staging)
    requires n == |Swaps(origin, roots, staging)| <= |swaps|
    requires swaps[..n] == Swaps(origin, roots, staging) && Movable(swaps)
    requires Agree(fs, ApplyAll(origin, roots, staging).fs, staging)
    ensures GivesBack(origin, staging, fs, swaps, n)
    decreases |roots|
  {
    if |roots| == 0 {
      NothingToUndo(fs, swaps);
    } else {
      var init := roots[..|roots| - 1];
      WithoutLast(origin, roots, staging);
      if Listed(ApplyAll(origin, init, staging).fs, roots[|roots| - 1]) {
        var fs', swaps' := UndoLast(origin, roots, staging, fs, swaps, n);
        RollbackRecorded(origin, init, staging, fs', swaps', n - 1);
      } else {
        RollbackRecorded(origin, init, staging, fs, swaps, n);
      }
    }
  }

  /** Roots `0..k` are switched and recorded. */
  ghost predicate Rested(origin: Tree, roots: seq<Root>, staging: set<Path>, k: nat,
                         fs: Tree, swaps: seq<Entry>)
    requires forall i :: 0 <= i < |roots| ==> Placed(roots[i], staging)
    requires k <= |roots|
  {
    ApplyAll(origin, roots[..k], staging) == Progress(fs, swaps)
  }

  function Last(swaps: seq<Entry>): Entry
    requires |swaps| > 0
  {
    swaps[|swaps| - 1]
  }

  /** Root `k` is being switched. */
  ghost predicate Interrupted(origin: Tree, roots: seq<Root>, staging: set<Path>, k: nat,
                              fs: Tree, swaps: seq<Entry>)
    requires forall i :: 0 <= i < |roots| ==> Placed(roots[i], staging)
    requires k <= |roots|
  {
    && k < |roots| && |swaps| > 0
    && var before := ApplyAll(origin, roots[..k], staging);
       && Listed(before.fs, roots[k])
       && swaps == before.swaps + [Last(swaps)]
       && (PlacedApart(roots[k], staging); Midway(before.fs, roots[k], fs, Last(swaps)))
  }

  /** What the disk and a journal (durable or in memory) can be while roots are being switched. */
  ghost predicate SwitchingState(origin: Tree, roots: seq<Root>, staging: set<Path>, k: nat,
                                 fs: Tree, swaps: seq<Entry>)
    requires forall i :: 0 <= i < |roots| ==> Placed(roots[i], staging)
    requires k <= |roots|
  {
    Rested(origin, roots, staging, k, fs, swaps) || Interrupted(origin, roots, staging, k, fs, swaps)
  }

  lemma SwitchingMovable(origin: Tree, roots: seq<Root>, staging: set<Path>, k: nat,
                         fs: Tree, swaps: seq<Entry>)
    requires forall i :: 0 <= i < |roots| ==> Placed(roots[i], staging)
    requires k <= |roots| && SwitchingState(origin, roots, staging, k, fs, swaps)
    ensures Movable(swaps)
    ensures forall i :: 0 <= i < |swaps| ==> swaps[i].root in roots
  {
    var before := ApplyAll(origin, roots[..k], staging);
    forall i | 0 <= i < |swaps| ensures swaps[i].root in roots {
      if i < |before.swaps| {
        assert swaps[i] == before.swaps[i];
        assert before.swaps[i].root in roots[..k];
      }
    }
  }

  /** Undoing the switch that was interrupted leads back to the tree before it. */
  lemma UndoInterrupted(origin: Tree, before: Tree, root: Root, staging: set<Path>, fs: Tree, swaps: seq<Entry>)
    returns (fs': Tree, swaps': seq<Entry>)
    requires |swaps| > 0 && Placed(root, staging) && Movable(swaps)
    requires root.staged.Some? ==> Apart(root.staged.value, root.target)
    requires Listed(before, root) && SwitchReady(before, root) && Midway(before, root, fs, Last(swaps))
    ensures |swaps'| == |swaps| && Movable(swaps') && swaps'[..|swaps| - 1] == swaps[..|swaps| - 1]
    ensures GivesBack(origin, staging, fs', swaps', |swaps| - 1) ==> GivesBack(origin, staging, fs, swaps, |swaps|)
    ensures Agree(fs', before, staging)
  {
    var n := |swaps| - 1;
    var e := swaps[n];
    assert e.root == root;
    UndoMidway(before, root, staging, fs, e);
    fs', swaps' := UndoFirst(origin, staging, fs, swaps, n + 1);
  }

  lemma RollbackInterrupted(
    origin: Tree, init: seq<Root>, root: Root, staging: set<Path>, fs: Tree, swaps: seq<Entry>, n: nat)
    requires Ready(origin, init, staging) && Placed(root, staging)
    requires root.staged.Some? ==> Apart(root.staged.value, root.target)
    requires var before := ApplyAll(origin, init, staging);
             && n == |before.swaps| && |swaps| == n + 1 && swaps[..n] == before.swaps
             && Listed(before.fs, root) && SwitchReady(before.fs, root)
             && Midway(before.fs, root, fs, swaps[n])
    requires Movable(swaps)
    ensures GivesBack(origin, staging, fs, swaps, n + 1)
  {
    var fs', swaps' := UndoInterrupted(origin, ApplyAll(origin, init, staging).fs, root, staging, fs, swaps);
    RollbackRecorded(origin, init, staging, fs', swaps', n);
  }

  lemma RollbackFromAnySwitchingState(
    origin: Tree, roots: seq<Root>, staging: set<Path>, k: nat, fs: Tree, swaps: seq<Entry>)
    requires Ready(origin, roots, staging) && k <= |roots|
    requires SwitchingState(origin, roots, staging, k, fs, swaps) && Movable(swaps)
    ensures var u := Rollback(fs, swaps, |swaps|); u.Undone? && Agree(u.fs, origin, staging)
    ensures OntoNothing(fs, swaps, |swaps|)
  {
    if Rested(origin, roots, staging, k, fs, swaps) {
      RestedRollback(origin, roots, staging, k, fs, swaps);
    } else {
      InterruptedRollback(origin, roots, staging, k, fs, swaps);
    }
  }

  lemma RestedRollback(origin: Tree, roots: seq<Root>, staging: set<Path>, k: nat, fs: Tree, swaps: seq<Entry>)
    requires Ready(origin, roots, staging) && k <= |roots|
    requires Rested(origin, roots, staging, k, fs, swaps) && Movable(swaps)
    ensures GivesBack(origin, staging, fs, swaps, |swaps|)
  {
    ReadyPrefix(origin, roots, staging, k);
    TakeAll(swaps);
    RollbackRecorded(origin, roots[..k], staging, fs, swaps, |swaps|);
  }

  lemma InterruptedRollback(origin: Tree, roots: seq<Root>, staging: set<Path>, k: nat, fs: Tree, swaps: seq<Entry>)
    requires Ready(origin, roots, staging) && k <= |roots|
    requires Interrupted(origin, roots, staging, k, fs, swaps) && Movable(swaps)
    ensures GivesBack(origin, staging, fs, swaps, |swaps|)
  {
    PlacedApart(roots[k], staging);
    ReadyAt(origin, roots, staging, k);
    RollbackInterrupted(origin, roots[..k], roots[k], staging, fs, swaps, |swaps| - 1);
  }

  // ---------------------------------------------------------------- recovery as a whole

  function RemoveAll(fs: Tree, paths: seq<Path>): (r: Tree)
    ensures forall q :: At(r, q) == if exists i :: 0 <= i < |paths| && paths[i] <= q then None else At(fs, q)
  {
    if |paths| == 0 then fs else RemoveAll(Remove(fs, paths[0]), paths[1..])
  }

  function Rollbacks(swaps: seq<Entry>): (r: seq<Path>)
    ensures |r| == |swaps| && forall i :: 0 <= i < |r| ==> r[i] == swaps[i].root.rollback
  {
    seq(|swaps|, i requires 0 <= i < |swaps| => swaps[i].root.rollback)
  }

  /** `recover_restore` declines when a server commit completed or may have completed. */
  predicate Refuses(j: Journal) {
    j.phase != Complete && j.backend == Server && (j.committed || j.commitStarted)
  }

  datatype Recovery =
    | Refused
    | Stuck(fs: Tree, index: nat)
    | RestoredOld(fs: Tree)
    | FinishedNew(fs: Tree)

  /** One uninterrupted run of `recover_restore`. */
  function Recover(fs: Tree, j: Journal): Recovery
    requires Movable(j.swaps)
  {
    if Refuses(j) then Refused
    else if j.phase != Complete then
      match Rollback(fs, j.swaps, |j.swaps|)
      case MissingRollback(fs', _, i) => Stuck(fs', i)
      case Undone(fs', swaps') => RestoredOld(RemoveAll(RemoveAll(fs', Rollbacks(swaps')), j.staging))
    else
      FinishedNew(RemoveAll(RemoveAll(fs, Rollbacks(j.swaps)), j.staging))
  }

  lemma SameRollbacks(swaps: seq<Entry>, i: nat, e: Entry)
    requires i < |swaps| && e.root == swaps[i].root
    ensures Rollbacks(swaps[i := e]) == Rollbacks(swaps)
  {
  }

  lemma {:induction false} RollbackKeepsRoots(fs: Tree, swaps: seq<Entry>, n: nat)
    requires n <= |swaps| && Movable(swaps)
    ensures Rollbacks(Rollback(fs, swaps, n).swaps) == Rollbacks(swaps)
    decreases n
  {
    if n > 0 {
      var e := swaps[n - 1];
      var cleared := ClearedTree(fs, e);
      var e1 := ClearedEntry(fs, e);
      if e1.oldMoved || Exists(cleared, e.root.rollback) {
        if Exists(cleared, e.root.rollback) {
          SameRollbacks(swaps, n - 1, e1.(oldMoved := false));
          RollbackKeepsRoots(Rename(cleared, e.root.rollback, e.root.target),
                             swaps[n - 1 := e1.(oldMoved := false)], n - 1);
        }
      } else {
        SameRollbacks(swaps, n - 1, e1);
        RollbackKeepsRoots(cleared, swaps[n - 1 := e1], n - 1);
      }
    }
  }

  /**
   A crash or a failure at any point of the switching phase, with any number of roots and
   with any nesting between their targets: one uninterrupted recovery gives back the file
   system as it was before the first move, and nothing of the staging area is left.
   */
  lemma RecoveryRestoresTheOldTree(
    origin: Tree, roots: seq<Root>, k: nat, fs: Tree, j: Journal)
    requires var staging := SetOf(j.staging);
             && Ready(origin, roots, staging) && k <= |roots|
             && SwitchingState(origin, roots, staging, k, fs, j.swaps)
    requires forall i :: 0 <= i < |roots| ==> !Exists(origin, roots[i].rollback)
    requires j.phase != Complete && !Refuses(j) && Movable(j.swaps)
    ensures Recover(fs, j) == RestoredOld(RemoveAll(origin, j.staging))
  {
    var staging := SetOf(j.staging);
    RollbackFromAnySwitchingState(origin, roots, staging, k, fs, j.swaps);
    SwitchingMovable(origin, roots, staging, k, fs, j.swaps);
    RollbackKeepsRoots(fs, j.swaps, |j.swaps|);
    var u := Rollback(fs, j.swaps, |j.swaps|);
    forall i | 0 <= i < |j.swaps| ensures !Exists(origin, Rollbacks(u.swaps)[i]) {
      var m :| 0 <= m < |roots| && roots[m] == j.swaps[i].root;
    }
    CleanTree(origin, u.fs, Rollbacks(u.swaps), j.staging);
  }

  lemma CleanTree(origin: Tree, fs: Tree, rollbacks: seq<Path>, staging: seq<Path>)
    requires Agree(fs, origin, SetOf(staging))
    requires forall i :: 0 <= i < |rollbacks| ==> !Exists(origin, rollbacks[i])
    ensures RemoveAll(RemoveAll(fs, rollbacks), staging) == RemoveAll(origin, staging)
  {
    var final := RemoveAll(RemoveAll(fs, rollbacks), staging);
    forall q ensures At(final, q) == At(RemoveAll(origin, staging), q) {
      if !exists i :: 0 <= i < |staging| && staging[i] <= q {
        assert Outside(q, SetOf(staging));
        assert At(fs, q) == At(origin, q);
        if i :| 0 <= i < |rollbacks| && rollbacks[i] <= q {
          NothingBelow(origin, rollbacks[i], q);
        }
      }
    }
    TreesEqual(final, RemoveAll(origin, staging));
  }
}
