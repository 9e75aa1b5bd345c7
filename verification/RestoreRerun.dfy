/**
 Crashes inside recovery, recoveries of interrupted recoveries, and what is left of an
 original when they pile up. The claims about repeated runs are for places that do not lie
 inside each other; the last section shows why, and says exactly when a second run is harmless.
 */
module RestoreRerun {
  import opened Common
  import opened FileTree
  import opened RestoreProtocol

  // ---------------------------------------------------------------- places

  ghost predicate SameBelow(a: Tree, b: Tree, p: Path) {
    forall q :: p <= q ==> At(a, q) == At(b, q)
  }

  /** The subtree of `a` at `p` is the subtree of `b` at `p'`. */
  ghost predicate Copied(a: Tree, p: Path, b: Tree, p': Path) {
    forall x :: At(a, p + x) == At(b, p' + x)
  }

  ghost predicate ApartFrom(p: Path, root: Root) {
    && Apart(p, root.target)
    && Apart(p, root.rollback)
    && (root.staged.Some? ==> Apart(p, root.staged.value))
  }

  ghost predicate RootsApart(a: Root, b: Root) {
    && ApartFrom(a.target, b)
    && ApartFrom(a.rollback, b)
    && (a.staged.Some? ==> ApartFrom(a.staged.value, b))
  }

  ghost predicate WellPlaced(root: Root) {
    && Apart(root.target, root.rollback)
    && (root.staged.Some? ==>
          Apart(root.staged.value, root.target) && Apart(root.staged.value, root.rollback))
  }

  /** No place of one root lies inside a place of another. */
  ghost predicate Separate(roots: seq<Root>) {
    && (forall i :: 0 <= i < |roots| ==> WellPlaced(roots[i]))
    && (forall i, j :: 0 <= i < |roots| && 0 <= j < |roots| && i != j ==> RootsApart(roots[i], roots[j]))
  }

  ghost function RootsOf(swaps: seq<Entry>): seq<Root> {
    seq(|swaps|, i requires 0 <= i < |swaps| => swaps[i].root)
  }

  // ---------------------------------------------------------------- the invariant

  /** The original is back at (or never left) its target, and nothing says it must be removed. */
  ghost predicate AtTarget(origin: Tree, fs: Tree, e: Entry) {
    SameBelow(fs, origin, e.root.target) && !Exists(fs, e.root.rollback) && !e.newMoved
  }

  /** The original is whole at its rollback place; what is at the target came from staging. */
  ghost predicate AtRollback(origin: Tree, fs: Tree, e: Entry) {
    && Copied(fs, e.root.rollback, origin, e.root.target)
    && Replaceable(fs, e)
  }

  ghost predicate Replaceable(fs: Tree, e: Entry) {
    Exists(fs, e.root.target) ==> e.root.staged.Some? && !Exists(fs, e.root.staged.value)
  }

  ghost predicate EntryOk(origin: Tree, fs: Tree, e: Entry) {
    && e.hadOriginal == Exists(origin, e.root.target)
    && (e.hadOriginal ==> AtTarget(origin, fs, e) || AtRollback(origin, fs, e))
    && (!e.hadOriginal ==> !Exists(fs, e.root.rollback) && !e.oldMoved && Replaceable(fs, e))
  }

  ghost predicate JournalOk(origin: Tree, fs: Tree, swaps: seq<Entry>) {
    forall i :: 0 <= i < |swaps| ==> EntryOk(origin, fs, swaps[i])
  }

  lemma RollbackIsThere(origin: Tree, fs: Tree, e: Entry)
    requires Exists(origin, e.root.target) && AtRollback(origin, fs, e)
    ensures Exists(fs, e.root.rollback)
  {
    var q :| q in origin && e.root.target <= q;
    var x := q[|e.root.target|..];
    assert e.root.target + x == q;
    assert At(fs, e.root.rollback + x) == At(origin, e.root.target + x);
    SomethingBelow(fs, e.root.rollback, e.root.rollback + x);
  }

  /** A pre-existing original is at its target or at its rollback place, never at both. */
  lemma ExactlyOnePlace(origin: Tree, fs: Tree, e: Entry)
    requires EntryOk(origin, fs, e) && e.hadOriginal && WellPlaced(e.root)
    ensures AtTarget(origin, fs, e) <==> !AtRollback(origin, fs, e)
  {
    if AtRollback(origin, fs, e) {
      RollbackIsThere(origin, fs, e);
    }
  }

  lemma SameExists(a: Tree, b: Tree, p: Path)
    requires SameBelow(a, b, p)
    ensures Exists(a, p) <==> Exists(b, p)
  {
    forall q | p <= q ensures q in a <==> q in b {
      assert At(a, q) == At(b, q);
    }
  }

  /** An entry depends only on the three places of its root. */
  lemma EntryFrame(origin: Tree, a: Tree, b: Tree, e: Entry)
    requires EntryOk(origin, a, e)
    requires SameBelow(b, a, e.root.target) && SameBelow(b, a, e.root.rollback)
    requires e.root.staged.Some? ==> SameBelow(b, a, e.root.staged.value)
    ensures EntryOk(origin, b, e)
  {
    SameExists(b, a, e.root.target);
    SameExists(b, a, e.root.rollback);
    if e.root.staged.Some? { SameExists(b, a, e.root.staged.value); }
    if AtRollback(origin, a, e) {
      forall x ensures At(b, e.root.rollback + x) == At(origin, e.root.target + x) {
        assert At(b, e.root.rollback + x) == At(a, e.root.rollback + x);
      }
    }
  }

  lemma RemoveKeeps(fs: Tree, gone: Path, p: Path)
    requires Apart(gone, p)
    ensures SameBelow(Remove(fs, gone), fs, p)
  {
    forall q | p <= q ensures At(Remove(fs, gone), q) == At(fs, q) {
      if gone <= q { Comparable(gone, p, q); }
    }
  }

  lemma RenameKeeps(fs: Tree, src: Path, dst: Path, p: Path)
    requires Apart(src, dst) && Apart(p, src) && Apart(p, dst)
    ensures SameBelow(Rename(fs, src, dst), fs, p)
  {
    RenameElsewhere(fs, src, dst, p);
  }

  // ---------------------------------------------------------------- one entry of the rollback

  /** Part of the subtree at `p` is gone, in any order, and nothing else has changed. */
  ghost predicate PartlyRemoved(fs: Tree, fs': Tree, p: Path) {
    forall q :: At(fs', q) == At(fs, q) || (p <= q && At(fs', q) == None)
  }

  lemma ClearingKeepsEntry(origin: Tree, fs: Tree, e: Entry, fs': Tree)
    requires EntryOk(origin, fs, e) && WellPlaced(e.root)
    requires Clears(fs, e) && PartlyRemoved(fs, fs', e.root.target)
    ensures EntryOk(origin, fs', e)
    ensures e.hadOriginal ==> AtRollback(origin, fs, e) && AtRollback(origin, fs', e)
  {
    var root := e.root;
    forall q | !(root.target <= q) ensures At(fs', q) == At(fs, q) { }
    OutsidePart(fs, fs', root.target, root.rollback);
    if root.staged.Some? { OutsidePart(fs, fs', root.target, root.staged.value); }
    if Exists(fs', root.target) {
      var q :| q in fs' && root.target <= q;
      assert At(fs', q).Some?;
      SomethingBelow(fs, root.target, q);
    }
    if e.hadOriginal {
      assert !AtTarget(origin, fs, e);
      forall x ensures At(fs', root.rollback + x) == At(origin, root.target + x) {
        assert At(fs', root.rollback + x) == At(fs, root.rollback + x);
      }
    }
  }

  lemma OutsidePart(fs: Tree, fs': Tree, gone: Path, p: Path)
    requires PartlyRemoved(fs, fs', gone) && Apart(gone, p)
    ensures SameBelow(fs', fs, p)
    ensures Exists(fs', p) <==> Exists(fs, p)
  {
    forall q | p <= q ensures At(fs', q) == At(fs, q) {
      if gone <= q { Comparable(gone, p, q); }
    }
    SameExists(fs', fs, p);
  }

  /** After the target is cleared and the original moved back, the entry is at its target. */
  lemma MovingBackRestores(origin: Tree, fs: Tree, e: Entry)
    requires EntryOk(origin, fs, e) && WellPlaced(e.root)
    requires Exists(ClearedTree(fs, e), e.root.rollback)
    ensures e.hadOriginal
    ensures var back := Rename(ClearedTree(fs, e), e.root.rollback, e.root.target);
            SameBelow(back, origin, e.root.target) && !Exists(back, e.root.rollback)
  {
    var cleared := ClearedTree(fs, e);
    ClearingKeepsRollback(fs, e);
    assert AtRollback(origin, fs, e);
    RenameEnds(cleared, e.root.rollback, e.root.target);
    CopyBack(origin, fs, cleared, e.root.rollback, e.root.target);
  }

  lemma ClearingKeepsRollback(fs: Tree, e: Entry)
    requires WellPlaced(e.root)
    ensures SameBelow(ClearedTree(fs, e), fs, e.root.rollback)
    ensures Exists(ClearedTree(fs, e), e.root.rollback) <==> Exists(fs, e.root.rollback)
  {
    RemoveKeeps(fs, e.root.target, e.root.rollback);
    SameExists(ClearedTree(fs, e), fs, e.root.rollback);
  }

  lemma CopyBack(origin: Tree, fs: Tree, cleared: Tree, rollback: Path, target: Path)
    requires Apart(rollback, target) && SameBelow(cleared, fs, rollback)
    requires Copied(fs, rollback, origin, target)
    ensures SameBelow(Rename(cleared, rollback, target), origin, target)
  {
    forall q | target <= q ensures At(Rename(cleared, rollback, target), q) == At(origin, q) {
      var x := q[|target|..];
      assert target + x == q;
      assert At(cleared, rollback + x) == At(fs, rollback + x) == At(origin, target + x);
    }
  }

  // ---------------------------------------------------------------- the rollback as a whole

  /** The durable journal is the in-memory one, or what that was a moment ago. */
  ghost predicate Lags(durable: seq<Entry>, memory: seq<Entry>) {
    && |durable| <= |memory|
    && (forall i :: 0 <= i < |durable| ==>
          && durable[i].root == memory[i].root
          && durable[i].hadOriginal == memory[i].hadOriginal
          && (durable[i].newMoved ==> memory[i].newMoved)
          && (durable[i].oldMoved ==> memory[i].oldMoved))
  }

  /** What the durable journal holds once the target of entry `i` has been dealt with. */
  ghost function AfterClearing(fs: Tree, durable: seq<Entry>, swaps: seq<Entry>, i: nat): seq<Entry>
    requires i < |swaps|
  {
    if Clears(fs, swaps[i]) then swaps[i := ClearedEntry(fs, swaps[i])] else durable
  }

  /**
   `fs'` and `durable'` can be on disk when `_rollback_swaps`, started on `fs` with `durable`
   on disk and `swaps` in memory, is interrupted while it works on its first `n` entries.
   */
  ghost predicate RollbackVisits(fs: Tree, durable: seq<Entry>, swaps: seq<Entry>, n: nat,
                                 fs': Tree, durable': seq<Entry>)
    requires n <= |swaps| && Movable(swaps)
    decreases n
  {
    || (fs' == fs && durable' == durable)
    || (n > 0 &&
        var e := swaps[n - 1];
        var cleared := ClearedTree(fs, e);
        var e1 := ClearedEntry(fs, e);
        var durable1 := AfterClearing(fs, durable, swaps, n - 1);
        || (Clears(fs, e) && PartlyRemoved(fs, fs', e.root.target) && durable' == durable)
        || (fs' == cleared && durable' == durable1)
        || (if e1.oldMoved || Exists(cleared, e.root.rollback) then
              Exists(cleared, e.root.rollback) &&
              var back := Rename(cleared, e.root.rollback, e.root.target);
              var swaps2 := swaps[n - 1 := e1.(oldMoved := false)];
              || (fs' == back && durable' == durable1)
              || RollbackVisits(back, swaps2, swaps2, n - 1, fs', durable')
            else
              RollbackVisits(cleared, durable1, swaps[n - 1 := e1], n - 1, fs', durable')))
  }

  ghost predicate Consistent(origin: Tree, fs: Tree, durable: seq<Entry>, swaps: seq<Entry>) {
    && Separate(RootsOf(swaps)) && Lags(durable, swaps)
    && JournalOk(origin, fs, durable) && JournalOk(origin, fs, swaps)
  }

  /** A change at the places of entry `i` alone, harmless to that entry, is harmless to the journal. */
  lemma ChangeAt(origin: Tree, fs: Tree, fs': Tree, swaps: seq<Entry>, i: nat, next: seq<Entry>)
    requires i < |swaps| && Separate(RootsOf(swaps)) && JournalOk(origin, fs, swaps)
    requires forall p :: ApartFrom(p, swaps[i].root) ==> SameBelow(fs', fs, p)
    requires |next| <= |swaps|
    requires forall m :: 0 <= m < |next| && m != i ==> next[m].root == swaps[m].root
    requires forall m :: 0 <= m < |next| && m != i ==> EntryOk(origin, fs, next[m])
    requires i < |next| ==> EntryOk(origin, fs', next[i])
    ensures JournalOk(origin, fs', next)
  {
    forall m | 0 <= m < |next| ensures EntryOk(origin, fs', next[m]) {
      if m != i {
        assert RootsApart(RootsOf(swaps)[m], RootsOf(swaps)[i]);
        EntryFrame(origin, fs, fs', next[m]);
      }
    }
  }

  lemma AfterRemoval(origin: Tree, fs: Tree, durable: seq<Entry>, swaps: seq<Entry>, i: nat, fs': Tree)
    requires i < |swaps| && Consistent(origin, fs, durable, swaps)
    requires Clears(fs, swaps[i]) && PartlyRemoved(fs, fs', swaps[i].root.target)
    ensures Consistent(origin, fs', durable, swaps)
  {
    var e := swaps[i];
    assert RootsOf(swaps)[i] == e.root;
    forall p | ApartFrom(p, e.root) ensures SameBelow(fs', fs, p) {
      OutsidePart(fs, fs', e.root.target, p);
    }
    ClearingKeepsEntry(origin, fs, e, fs');
    ChangeAt(origin, fs, fs', swaps, i, swaps);
    if i < |durable| { assert EntryOk(origin, fs', durable[i]); }
    ChangeAt(origin, fs, fs', swaps, i, durable);
  }

  lemma AfterClear(origin: Tree, fs: Tree, durable: seq<Entry>, swaps: seq<Entry>, i: nat)
    requires i < |swaps| && Consistent(origin, fs, durable, swaps)
    ensures var e := swaps[i];
            Consistent(origin, ClearedTree(fs, e), AfterClearing(fs, durable, swaps, i),
                       swaps[i := ClearedEntry(fs, e)])
    ensures RootsOf(swaps[i := ClearedEntry(fs, swaps[i])]) == RootsOf(swaps)
  {
    var e := swaps[i];
    if Clears(fs, e) {
      var cleared := ClearedTree(fs, e);
      var e1 := ClearedEntry(fs, e);
      assert PartlyRemoved(fs, cleared, e.root.target);
      AfterRemoval(origin, fs, durable, swaps, i, cleared);
      ClearingKeepsEntry(origin, fs, e, cleared) by { assert RootsOf(swaps)[i] == e.root; }
      var swaps1 := swaps[i := e1];
      assert RootsOf(swaps1) == RootsOf(swaps);
      assert EntryOk(origin, cleared, e1);
    } else {
      assert swaps[i := e] == swaps;
    }
  }

  lemma AfterMoveBack(origin: Tree, fs: Tree, durable: seq<Entry>, swaps: seq<Entry>, i: nat)
    requires i < |swaps| && Consistent(origin, fs, durable, swaps) && WellPlaced(swaps[i].root)
    requires Exists(ClearedTree(fs, swaps[i]), swaps[i].root.rollback)
    ensures var e := swaps[i];
            var back := Rename(ClearedTree(fs, e), e.root.rollback, e.root.target);
            var swaps2 := swaps[i := ClearedEntry(fs, e).(oldMoved := false)];
            && JournalOk(origin, back, AfterClearing(fs, durable, swaps, i))
            && Consistent(origin, back, swaps2, swaps2)
            && RootsOf(swaps2) == RootsOf(swaps)
  {
    var e := swaps[i];
    var cleared := ClearedTree(fs, e);
    var e1 := ClearedEntry(fs, e);
    var swaps1 := swaps[i := e1];
    var durable1 := AfterClearing(fs, durable, swaps, i);
    AfterClear(origin, fs, durable, swaps, i);
    MovingBackRestores(origin, fs, e);
    var back := Rename(cleared, e.root.rollback, e.root.target);
    forall p | ApartFrom(p, swaps1[i].root) ensures SameBelow(back, cleared, p) {
      RenameKeeps(cleared, e.root.rollback, e.root.target, p);
    }
    if i < |durable1| { assert EntryOk(origin, back, durable1[i]); }
    ChangeAt(origin, cleared, back, swaps1, i, durable1);
    var e2 := e1.(oldMoved := false);
    var swaps2 := swaps[i := e2];
    assert EntryOk(origin, back, e2);
    assert RootsOf(swaps2) == RootsOf(swaps);
    ChangeAt(origin, cleared, back, swaps1, i, swaps2);
  }

  /** What an interrupted rollback can leave after the target of entry `i` has been cleared. */
  ghost predicate VisitsAfterClearing(
    fs: Tree, durable: seq<Entry>, swaps: seq<Entry>, i: nat, fs': Tree, durable': seq<Entry>)
    requires i < |swaps| && Movable(swaps)
  {
    var e := swaps[i];
    var cleared, e1, durable1 := ClearedTree(fs, e), ClearedEntry(fs, e), AfterClearing(fs, durable, swaps, i);
    if e1.oldMoved || Exists(cleared, e.root.rollback) then
      && Exists(cleared, e.root.rollback)
      && var back := Rename(cleared, e.root.rollback, e.root.target);
         var swaps2 := swaps[i := e1.(oldMoved := false)];
         (fs' == back && durable' == durable1) || RollbackVisits(back, swaps2, swaps2, i, fs', durable')
    else RollbackVisits(cleared, durable1, swaps[i := e1], i, fs', durable')
  }

  lemma VisitCases(fs: Tree, durable: seq<Entry>, swaps: seq<Entry>, i: nat, fs': Tree, durable': seq<Entry>)
    requires i < |swaps| && Movable(swaps) && RollbackVisits(fs, durable, swaps, i + 1, fs', durable')
    ensures || (fs' == fs && durable' == durable)
            || (Clears(fs, swaps[i]) && PartlyRemoved(fs, fs', swaps[i].root.target) && durable' == durable)
            || (fs' == ClearedTree(fs, swaps[i]) && durable' == AfterClearing(fs, durable, swaps, i))
            || VisitsAfterClearing(fs, durable, swaps, i, fs', durable')
  {
  }

  /** Every state that an interrupted rollback can leave keeps every original safe. */
  lemma {:induction false} RollbackKeepsOriginals(
    origin: Tree, fs: Tree, durable: seq<Entry>, swaps: seq<Entry>, n: nat, fs': Tree, durable': seq<Entry>)
    requires n <= |swaps| && Movable(swaps) && Consistent(origin, fs, durable, swaps)
    requires RollbackVisits(fs, durable, swaps, n, fs', durable')
    ensures JournalOk(origin, fs', durable')
    decreases n, 1
  {
    if n > 0 && !(fs' == fs && durable' == durable) {
      var i := n - 1;
      var e := swaps[i];
      VisitCases(fs, durable, swaps, i, fs', durable');
      AfterClear(origin, fs, durable, swaps, i);
      if Clears(fs, e) && PartlyRemoved(fs, fs', e.root.target) && durable' == durable {
        assert RootsOf(swaps)[i] == e.root;
        AfterRemoval(origin, fs, durable, swaps, i, fs');
      } else if !(fs' == ClearedTree(fs, e) && durable' == AfterClearing(fs, durable, swaps, i)) {
        KeptAfterClearing(origin, fs, durable, swaps, i, fs', durable');
      }
    }
  }

  /** The states after the target of entry `i` has been cleared. */
  lemma {:induction false} KeptAfterClearing(
    origin: Tree, fs: Tree, durable: seq<Entry>, swaps: seq<Entry>, i: nat, fs': Tree, durable': seq<Entry>)
    requires i < |swaps| && Movable(swaps) && Consistent(origin, fs, durable, swaps)
    requires VisitsAfterClearing(fs, durable, swaps, i, fs', durable')
    ensures JournalOk(origin, fs', durable')
    decreases i, 2
  {
    var e := swaps[i];
    var cleared, e1, durable1 := ClearedTree(fs, e), ClearedEntry(fs, e), AfterClearing(fs, durable, swaps, i);
    AfterClear(origin, fs, durable, swaps, i);
    assert RootsOf(swaps)[i] == e.root;
    if e1.oldMoved || Exists(cleared, e.root.rollback) {
      AfterMoveBack(origin, fs, durable, swaps, i);
      var back := Rename(cleared, e.root.rollback, e.root.target);
      var swaps2 := swaps[i := e1.(oldMoved := false)];
      if !(fs' == back && durable' == durable1) {
        RollbackKeepsOriginals(origin, back, swaps2, swaps2, i, fs', durable');
      }
    } else {
      RollbackKeepsOriginals(origin, cleared, durable1, swaps[i := e1], i, fs', durable');
    }
  }

  /** An entry on which the rollback has finished. */
  ghost predicate Settled(origin: Tree, fs: Tree, e: Entry) {
    && !e.newMoved && !e.oldMoved && !Exists(fs, e.root.rollback)
    && SameBelow(fs, origin, e.root.target)
    && e.hadOriginal == Exists(origin, e.root.target)
  }

  ghost predicate SettledFrom(origin: Tree, fs: Tree, swaps: seq<Entry>, n: nat) {
    forall i :: n <= i < |swaps| ==> Settled(origin, fs, swaps[i])
  }

  lemma SettledFrame(origin: Tree, a: Tree, b: Tree, e: Entry)
    requires Settled(origin, a, e)
    requires SameBelow(b, a, e.root.target) && SameBelow(b, a, e.root.rollback)
    ensures Settled(origin, b, e)
  {
    SameExists(b, a, e.root.rollback);
  }

  lemma SettledAfterChange(origin: Tree, fs: Tree, fs': Tree, swaps: seq<Entry>, n: nat, next: seq<Entry>)
    requires n < |swaps| == |next| && Separate(RootsOf(swaps)) && SettledFrom(origin, fs, swaps, n + 1)
    requires forall p :: ApartFrom(p, swaps[n].root) ==> SameBelow(fs', fs, p)
    requires next[n + 1..] == swaps[n + 1..] && Settled(origin, fs', next[n])
    ensures SettledFrom(origin, fs', next, n)
  {
    forall m | n <= m < |next| ensures Settled(origin, fs', next[m]) {
      if m != n {
        assert next[m] == next[n + 1..][m - n - 1] == swaps[n + 1..][m - n - 1] == swaps[m];
        assert RootsApart(RootsOf(swaps)[m], RootsOf(swaps)[n]);
        SettledFrame(origin, fs, fs', next[m]);
      }
    }
  }

  /** Clearing alone settles an entry that has nothing to move back. */
  lemma ClearedIsSettled(origin: Tree, fs: Tree, e: Entry)
    requires EntryOk(origin, fs, e) && WellPlaced(e.root)
    requires var e1 := ClearedEntry(fs, e);
             !e1.oldMoved && !Exists(ClearedTree(fs, e), e.root.rollback)
    ensures Settled(origin, ClearedTree(fs, e), ClearedEntry(fs, e))
  {
    ClearingKeepsRollback(fs, e);
    var cleared := ClearedTree(fs, e);
    if e.hadOriginal {
      if AtRollback(origin, fs, e) && !AtTarget(origin, fs, e) {
        RollbackIsThere(origin, fs, e);
      }
      assert AtTarget(origin, fs, e);
    } else {
      assert !Exists(cleared, e.root.target);
      forall q | e.root.target <= q ensures At(cleared, q) == At(origin, q) {
        NothingBelow(cleared, e.root.target, q);
        NothingBelow(origin, e.root.target, q);
      }
    }
  }

  /** How a rollback ends, from any state that crashes may have left. */
  lemma {:induction false} RollbackOutcome(origin: Tree, fs: Tree, swaps: seq<Entry>, n: nat)
    requires n <= |swaps| && Movable(swaps) && Consistent(origin, fs, swaps, swaps)
    requires SettledFrom(origin, fs, swaps, n)
    ensures var u := Rollback(fs, swaps, n);
            && RootsOf(u.swaps) == RootsOf(swaps)
            && Consistent(origin, u.fs, u.swaps, u.swaps)
            && (u.Undone? ==> SettledFrom(origin, u.fs, u.swaps, 0))
            && (u.MissingRollback? ==>
                  && u.index < |u.swaps|
                  && SettledFrom(origin, u.fs, u.swaps, u.index + 1)
                  && u.swaps[u.index].hadOriginal && u.swaps[u.index].oldMoved
                  && AtTarget(origin, u.fs, u.swaps[u.index]))
    decreases n
  {
    if n > 0 {
      var i := n - 1;
      var e := swaps[i];
      assert RootsOf(swaps)[i] == e.root;
      var cleared := ClearedTree(fs, e);
      var e1 := ClearedEntry(fs, e);
      var swaps1 := swaps[i := e1];
      AfterClear(origin, fs, swaps, swaps, i);
      assert AfterClearing(fs, swaps, swaps, i) == swaps1;
      forall p | ApartFrom(p, e.root) ensures SameBelow(cleared, fs, p) {
        RemoveKeeps(fs, e.root.target, p);
      }
      if e1.oldMoved || Exists(cleared, e.root.rollback) {
        if Exists(cleared, e.root.rollback) {
          AfterMoveBack(origin, fs, swaps, swaps, i);
          MovingBackRestores(origin, fs, e);
          var back := Rename(cleared, e.root.rollback, e.root.target);
          var swaps2 := swaps[i := e1.(oldMoved := false)];
          forall p | ApartFrom(p, e.root) ensures SameBelow(back, fs, p) {
            RenameKeeps(cleared, e.root.rollback, e.root.target, p);
          }
          SettledAfterChange(origin, fs, back, swaps, i, swaps2);
          RollbackOutcome(origin, back, swaps2, i);
        } else {
          StuckIsRestored(origin, fs, e);
          SettledElsewhere(origin, fs, cleared, swaps, i, swaps1);
        }
      } else {
        ClearedIsSettled(origin, fs, e);
        SettledAfterChange(origin, fs, cleared, swaps, i, swaps1);
        RollbackOutcome(origin, cleared, swaps1, i);
      }
    }
  }

  /** From any state that crashes may have left, the renames of a rollback meet nothing at their destinations. */
  lemma {:induction false} RollbackOntoNothing(origin: Tree, fs: Tree, swaps: seq<Entry>, n: nat)
    requires n <= |swaps| && Movable(swaps) && Consistent(origin, fs, swaps, swaps)
    ensures OntoNothing(fs, swaps, n)
    decreases n
  {
    if n > 0 {
      var i := n - 1;
      var e := swaps[i];
      assert RootsOf(swaps)[i] == e.root;
      var cleared := ClearedTree(fs, e);
      var e1 := ClearedEntry(fs, e);
      AfterClear(origin, fs, swaps, swaps, i);
      if Exists(cleared, e.root.rollback) {
        AfterMoveBack(origin, fs, swaps, swaps, i);
        TargetIsEmpty(origin, fs, e);
        RollbackOntoNothing(origin, Rename(cleared, e.root.rollback, e.root.target), swaps[i := e1.(oldMoved := false)], i);
      } else if !e1.oldMoved {
        assert AfterClearing(fs, swaps, swaps, i) == swaps[i := e1];
        RollbackOntoNothing(origin, cleared, swaps[i := e1], i);
      }
    }
  }

  lemma TargetIsEmpty(origin: Tree, fs: Tree, e: Entry)
    requires EntryOk(origin, fs, e) && WellPlaced(e.root) && Exists(ClearedTree(fs, e), e.root.rollback)
    ensures !Exists(ClearedTree(fs, e), e.root.target)
  {
    ClearingKeepsRollback(fs, e);
    forall q | e.root.target <= q && Clears(fs, e) ensures q !in ClearedTree(fs, e) {
      assert At(ClearedTree(fs, e), q) == None;
    }
  }

  lemma SettledElsewhere(origin: Tree, fs: Tree, fs': Tree, swaps: seq<Entry>, n: nat, next: seq<Entry>)
    requires n < |swaps| == |next| && Separate(RootsOf(swaps)) && SettledFrom(origin, fs, swaps, n + 1)
    requires forall p :: ApartFrom(p, swaps[n].root) ==> SameBelow(fs', fs, p)
    requires next[n + 1..] == swaps[n + 1..]
    ensures SettledFrom(origin, fs', next, n + 1)
  {
    forall m | n + 1 <= m < |next| ensures Settled(origin, fs', next[m]) {
      assert next[m] == next[n + 1..][m - n - 1] == swaps[n + 1..][m - n - 1] == swaps[m];
      assert RootsApart(RootsOf(swaps)[m], RootsOf(swaps)[n]);
      SettledFrame(origin, fs, fs', next[m]);
    }
  }

  /** A recovery that raises for a missing rollback path finds the original already back. */
  lemma StuckIsRestored(origin: Tree, fs: Tree, e: Entry)
    requires EntryOk(origin, fs, e) && WellPlaced(e.root) && e.oldMoved
    requires !Exists(ClearedTree(fs, e), e.root.rollback)
    ensures ClearedTree(fs, e) == fs && ClearedEntry(fs, e) == e
    ensures e.hadOriginal && AtTarget(origin, fs, e)
  {
    ClearingKeepsRollback(fs, e);
    ExactlyOnePlace(origin, fs, e);
    if AtRollback(origin, fs, e) {
      RollbackIsThere(origin, fs, e);
    }
  }

  /** The journal says that the original was moved away, but it is not at its rollback place. */
  predicate Missing(fs: Tree, e: Entry) { e.oldMoved && !Exists(fs, e.root.rollback) }

  lemma EntryKeepsMissing(fs: Tree, swaps: seq<Entry>, i: nat, m: nat)
    requires m < i < |swaps| && Movable(swaps) && Separate(RootsOf(swaps))
    ensures var e := swaps[i];
            && (Missing(ClearedTree(fs, e), swaps[m]) <==> Missing(fs, swaps[m]))
            && (Missing(Rename(ClearedTree(fs, e), e.root.rollback, e.root.target), swaps[m]) <==> Missing(fs, swaps[m]))
  {
    var e, p := swaps[i], swaps[m].root.rollback;
    assert RootsApart(RootsOf(swaps)[m], RootsOf(swaps)[i]);
    RemoveKeeps(fs, e.root.target, p);
    RenameKeeps(ClearedTree(fs, e), e.root.rollback, e.root.target, p);
    SameExists(ClearedTree(fs, e), fs, p);
    SameExists(Rename(ClearedTree(fs, e), e.root.rollback, e.root.target), fs, p);
  }

  /** Undoing the first `n` entries raises exactly if one of them is missing, and at the last such one. */
  predicate RaisesAtMissing(fs: Tree, swaps: seq<Entry>, n: nat, u: Undo)
    requires n <= |swaps|
  {
    match u
    case Undone(_, _) => forall m :: 0 <= m < n ==> !Missing(fs, swaps[m])
    case MissingRollback(_, _, i) => i < n && Missing(fs, swaps[i]) && forall m :: i < m < n ==> !Missing(fs, swaps[m])
  }

  lemma OneEntryMore(fs: Tree, swaps: seq<Entry>, i: nat, fs': Tree, swaps': seq<Entry>, u: Undo)
    requires i < |swaps| == |swaps'| && RaisesAtMissing(fs', swaps', i, u) && !Missing(fs, swaps[i])
    requires forall m :: 0 <= m < i ==> swaps'[m] == swaps[m] && (Missing(fs', swaps[m]) <==> Missing(fs, swaps[m]))
    ensures RaisesAtMissing(fs, swaps, i + 1, u)
  {
  }

  lemma {:induction false} MissingIff(fs: Tree, swaps: seq<Entry>, n: nat)
    requires n <= |swaps| && Movable(swaps) && Separate(RootsOf(swaps))
    ensures RaisesAtMissing(fs, swaps, n, Rollback(fs, swaps, n))
    decreases n
  {
    if n > 0 {
      var i := n - 1;
      var e := swaps[i];
      assert RootsOf(swaps)[i] == e.root;
      var cleared := ClearedTree(fs, e);
      var e1 := ClearedEntry(fs, e);
      ClearingKeepsRollback(fs, e);
      forall m | 0 <= m < i
        ensures Missing(cleared, swaps[m]) <==> Missing(fs, swaps[m])
        ensures Missing(Rename(cleared, e.root.rollback, e.root.target), swaps[m]) <==> Missing(fs, swaps[m])
      {
        EntryKeepsMissing(fs, swaps, i, m);
      }
      if e1.oldMoved || Exists(cleared, e.root.rollback) {
        if Exists(cleared, e.root.rollback) {
          var next := swaps[i := e1.(oldMoved := false)];
          var back := Rename(cleared, e.root.rollback, e.root.target);
          assert RootsOf(next) == RootsOf(swaps);
          MissingIff(back, next, i);
          OneEntryMore(fs, swaps, i, back, next, Rollback(back, next, i));
        }
      } else {
        var next := swaps[i := e1];
        assert RootsOf(next) == RootsOf(swaps);
        MissingIff(cleared, next, i);
        OneEntryMore(fs, swaps, i, cleared, next, Rollback(cleared, next, i));
      }
    }
  }

  // ---------------------------------------------------------------- running it again

  /** A recovery started after a finished rollback finds nothing to do. */
  lemma {:induction false} SecondRunIsIdle(origin: Tree, fs: Tree, swaps: seq<Entry>, n: nat)
    requires n <= |swaps| && Movable(swaps) && SettledFrom(origin, fs, swaps, 0)
    ensures Rollback(fs, swaps, n) == Undone(fs, swaps)
    decreases n
  {
    if n > 0 {
      var e := swaps[n - 1];
      assert Settled(origin, fs, e);
      SameExists(fs, origin, e.root.target);
      assert !Clears(fs, e);
      assert swaps[n - 1 := e] == swaps;
      SecondRunIsIdle(origin, fs, swaps, n - 1);
    }
  }

  /** A recovery that raised raises again at the same entry, and changes nothing. */
  lemma {:induction false} StuckRunIsStable(origin: Tree, fs: Tree, swaps: seq<Entry>, i: nat, n: nat)
    requires i < n <= |swaps| && Movable(swaps) && Consistent(origin, fs, swaps, swaps)
    requires SettledFrom(origin, fs, swaps, i + 1)
    requires swaps[i].hadOriginal && swaps[i].oldMoved && AtTarget(origin, fs, swaps[i])
    ensures Rollback(fs, swaps, n) == MissingRollback(fs, swaps, i)
    decreases n
  {
    var e := swaps[n - 1];
    assert swaps[n - 1 := e] == swaps;
    if n - 1 > i {
      assert Settled(origin, fs, e);
      SameExists(fs, origin, e.root.target);
      assert !Clears(fs, e);
      StuckRunIsStable(origin, fs, swaps, i, n - 1);
    }
  }

  /** The flags are all reset and no rollback copy is left: what a finished rollback records. */
  ghost predicate Reset(fs: Tree, swaps: seq<Entry>) {
    forall i :: 0 <= i < |swaps| ==>
      !swaps[i].newMoved && !swaps[i].oldMoved && !Exists(fs, swaps[i].root.rollback)
  }

  /** An entry without an original whose target is nevertheless occupied while its staged tree is gone. */
  predicate Exposed(fs: Tree, e: Entry) {
    && !e.hadOriginal && e.root.staged.Some?
    && !Exists(fs, e.root.staged.value) && Exists(fs, e.root.target)
  }

  lemma {:induction false} ResetRunOnlyRemoves(fs: Tree, swaps: seq<Entry>, n: nat)
    requires n <= |swaps| && Movable(swaps) && Reset(fs, swaps)
    ensures Rollback(fs, swaps, n).Undone?
    ensures forall q :: q in Rollback(fs, swaps, n).fs ==> q in fs
    ensures (forall i :: 0 <= i < n ==> !Exposed(fs, swaps[i])) ==> Rollback(fs, swaps, n).fs == fs
    decreases n
  {
    if n > 0 {
      var e := swaps[n - 1];
      var cleared := ClearedTree(fs, e);
      var swaps1 := swaps[n - 1 := ClearedEntry(fs, e)];
      forall q | q in cleared ensures q in fs { assert At(cleared, q).Some?; }
      assert Reset(cleared, swaps1);
      assert Clears(fs, e) <==> Exposed(fs, e);
      ResetRunOnlyRemoves(cleared, swaps1, n - 1);
    }
  }

  lemma OnlyRemovesBelow(fs: Tree, swaps: seq<Entry>, n: nat, p: Path)
    requires n <= |swaps| && Movable(swaps) && Reset(fs, swaps) && !Exists(fs, p)
    ensures !Exists(Rollback(fs, swaps, n).fs, p)
  {
    ResetRunOnlyRemoves(fs, swaps, n);
  }

  /** What lies at the target of an exposed entry is removed. */
  lemma {:induction false} ExposedTargetIsLost(fs: Tree, swaps: seq<Entry>, n: nat, i: nat)
    requires i < n <= |swaps| && Movable(swaps) && Reset(fs, swaps) && Exposed(fs, swaps[i])
    ensures !Exists(Rollback(fs, swaps, n).fs, swaps[i].root.target)
    decreases n
  {
    var e := swaps[n - 1];
    var cleared := ClearedTree(fs, e);
    var swaps1 := swaps[n - 1 := ClearedEntry(fs, e)];
    forall q | q in cleared ensures q in fs { assert At(cleared, q).Some?; }
    assert Reset(cleared, swaps1);
    if i == n - 1 {
      forall q | e.root.target <= q ensures q !in cleared { assert At(cleared, q) == None; }
      OnlyRemovesBelow(cleared, swaps1, n - 1, e.root.target);
    } else if Exists(cleared, swaps[i].root.target) {
      ExposedTargetIsLost(cleared, swaps1, n - 1, i);
    } else {
      OnlyRemovesBelow(cleared, swaps1, n - 1, swaps[i].root.target);
    }
  }

  /**
   Recovery run again on the record of a finished rollback leaves the tree alone exactly when
   no entry is exposed. Targets inside other targets can be exposed; see NestedTargetIsLost.
   */
  lemma SecondRunHarmlessIff(fs: Tree, swaps: seq<Entry>)
    requires Movable(swaps) && Reset(fs, swaps)
    ensures Rollback(fs, swaps, |swaps|).fs == fs <==> forall i :: 0 <= i < |swaps| ==> !Exposed(fs, swaps[i])
  {
    ResetRunOnlyRemoves(fs, swaps, |swaps|);
    if i :| 0 <= i < |swaps| && Exposed(fs, swaps[i]) {
      ExposedTargetIsLost(fs, swaps, |swaps|, i);
    }
  }
}
