/**
 The part of a file system that a restore moves around: a finite map from paths to
 nodes. A directory move carries everything below it, so a file that lies inside a
 moved root moves with the root.
 */
module FileTree {
  import opened Common

  type Path = seq<string>

  datatype Node = Directory | Regular(content: string) | Link(goal: string)

  type Tree = map<Path, Node>

  function At(fs: Tree, p: Path): Option<Node> {
    if p in fs then Some(fs[p]) else None
  }

  /** `p` or something below it is present. */
  predicate Exists(fs: Tree, p: Path) {
    exists q :: q in fs && p <= q
  }

  /** Neither path lies inside the other. */
  predicate Apart(p: Path, q: Path) {
    !(p <= q) && !(q <= p)
  }

  /** `shutil.rmtree` or `unlink(missing_ok=True)`, run to its end. */
  function Remove(fs: Tree, p: Path): (r: Tree)
    ensures forall q :: At(r, q) == if p <= q then None else At(fs, q)
    ensures !Exists(r, p)
  {
    map q | q in fs && !(p <= q) :: fs[q]
  }

  /** `os.replace(src, dst)`: the subtree at `src` becomes the subtree at `dst`. */
  function Rename(fs: Tree, src: Path, dst: Path): (r: Tree)
    requires Apart(src, dst)
    ensures forall q :: At(r, q) == if dst <= q then At(fs, src + q[|dst|..])
                                    else if src <= q then None else At(fs, q)
  {
    var moved := set q | q in fs && src <= q :: dst + q[|src|..];
    assert forall q :: q in moved ==> dst <= q && src + q[|dst|..] in fs by {
      forall q | q in moved ensures dst <= q && src + q[|dst|..] in fs {
        var o :| o in fs && src <= o && q == dst + o[|src|..];
        assert q[|dst|..] == o[|src|..] && src + o[|src|..] == o;
      }
    }
    var r := map q | q in (fs.Keys - (set x | x in fs && (src <= x || dst <= x))) + moved
                   :: if dst <= q then fs[src + q[|dst|..]] else fs[q];
    assert forall q :: At(r, q) == if dst <= q then At(fs, src + q[|dst|..])
                                    else if src <= q then None else At(fs, q) by {
      forall q ensures At(r, q) == if dst <= q then At(fs, src + q[|dst|..])
                                    else if src <= q then None else At(fs, q)
      {
        RenamedKey(fs, src, dst, moved, q);
      }
    }
    r
  }

  lemma RenamedKey(fs: Tree, src: Path, dst: Path, moved: set<Path>, q: Path)
    requires Apart(src, dst)
    requires moved == set x | x in fs && src <= x :: dst + x[|src|..]
    ensures dst <= q && src + q[|dst|..] in fs ==> q in moved
    ensures src <= q ==> !(dst <= q) && q !in moved
  {
    if dst <= q && src + q[|dst|..] in fs {
      var o := src + q[|dst|..];
      assert o[|src|..] == q[|dst|..] && dst + o[|src|..] == q;
    }
    if src <= q && dst <= q { Comparable(src, dst, q); }
  }

  /** Two prefixes of one path are nested. */
  lemma Comparable(p: Path, q: Path, whole: Path)
    requires p <= whole && q <= whole
    ensures !Apart(p, q)
  {
    if |p| <= |q| {
      assert p == whole[..|p|] == q[..|p|];
    } else {
      assert q == whole[..|q|] == p[..|q|];
    }
  }

  lemma TreesEqual(a: Tree, b: Tree)
    requires forall q :: At(a, q) == At(b, q)
    ensures a == b
  {
    forall q ensures q in a <==> q in b { assert At(a, q) == At(b, q); }
    forall q | q in a ensures a[q] == b[q] { assert At(a, q) == At(b, q); }
  }

  /** `p` is not inside, and does not contain, any root of `roots`. */
  ghost predicate ClearOf(p: Path, roots: set<Path>) {
    forall s :: s in roots ==> Apart(p, s)
  }

  function SetOf(paths: seq<Path>): set<Path> {
    set p | p in paths
  }

  ghost predicate Outside(q: Path, roots: set<Path>) {
    forall s :: s in roots ==> !(s <= q)
  }

  /** The two trees hold the same nodes outside `roots`. */
  ghost predicate Agree(a: Tree, b: Tree, roots: set<Path>) {
    forall q :: Outside(q, roots) ==> At(a, q) == At(b, q)
  }

  lemma ClearBelow(p: Path, q: Path, roots: set<Path>)
    requires ClearOf(p, roots) && p <= q
    ensures Outside(q, roots)
  {
    forall s | s in roots ensures !(s <= q) {
      if s <= q { Comparable(p, s, q); }
    }
  }

  lemma AgreeExists(a: Tree, b: Tree, roots: set<Path>, p: Path)
    requires Agree(a, b, roots) && ClearOf(p, roots)
    ensures Exists(a, p) <==> Exists(b, p)
  {
    forall q | p <= q ensures q in a <==> q in b {
      ClearBelow(p, q, roots);
      assert At(a, q) == At(b, q);
    }
  }

  lemma AgreeRemove(a: Tree, b: Tree, roots: set<Path>, p: Path)
    requires Agree(a, b, roots)
    ensures Agree(Remove(a, p), Remove(b, p), roots)
  {
  }

  lemma AgreeRename(a: Tree, b: Tree, roots: set<Path>, src: Path, dst: Path)
    requires Agree(a, b, roots) && Apart(src, dst) && ClearOf(src, roots)
    ensures Agree(Rename(a, src, dst), Rename(b, src, dst), roots)
  {
    forall q | Outside(q, roots)
      ensures At(Rename(a, src, dst), q) == At(Rename(b, src, dst), q)
    {
      if dst <= q { ClearBelow(src, src + q[|dst|..], roots); }
    }
  }

  lemma NothingBelow(fs: Tree, p: Path, q: Path)
    requires !Exists(fs, p) && p <= q
    ensures At(fs, q) == None
  {
  }

  lemma SomethingBelow(fs: Tree, p: Path, q: Path)
    requires At(fs, q).Some? && p <= q
    ensures Exists(fs, p)
  {
  }

  /** Moving a subtree to an unused place and back changes nothing. */
  lemma RenameBack(fs: Tree, src: Path, dst: Path)
    requires Apart(src, dst) && !Exists(fs, dst)
    ensures Rename(Rename(fs, src, dst), dst, src) == fs
  {
    var there := Rename(fs, src, dst);
    var back := Rename(there, dst, src);
    forall q ensures At(back, q) == At(fs, q) {
      if src <= q {
        var x := q[|src|..];
        assert src + x == q && (dst + x)[|dst|..] == x;
        assert At(back, q) == At(there, dst + x) == At(fs, q);
      } else if dst <= q {
        NothingBelow(fs, dst, q);
      }
    }
    TreesEqual(back, fs);
  }

  /** What a rename leaves at its two ends. */
  lemma RenameEnds(fs: Tree, src: Path, dst: Path)
    requires Apart(src, dst)
    ensures !Exists(Rename(fs, src, dst), src)
    ensures Exists(Rename(fs, src, dst), dst) <==> Exists(fs, src)
  {
    var r := Rename(fs, src, dst);
    if Exists(r, src) {
      var q :| q in r && src <= q;
      assert At(r, q).Some?;
      if dst <= q { Comparable(src, dst, q); }
    }
    if Exists(r, dst) {
      var q :| q in r && dst <= q;
      assert At(r, q).Some?;
      SomethingBelow(fs, src, src + q[|dst|..]);
    }
    if Exists(fs, src) {
      var q :| q in fs && src <= q;
      var d := dst + q[|src|..];
      assert src + d[|dst|..] == q;
      assert At(r, d) == At(fs, q);
      SomethingBelow(r, dst, d);
    }
  }

  /** A rename does not touch a place apart from both its ends. */
  lemma RenameElsewhere(fs: Tree, src: Path, dst: Path, p: Path)
    requires Apart(src, dst) && Apart(p, src) && Apart(p, dst)
    ensures forall q :: p <= q ==> At(Rename(fs, src, dst), q) == At(fs, q)
    ensures Exists(Rename(fs, src, dst), p) <==> Exists(fs, p)
  {
    var r := Rename(fs, src, dst);
    forall q | p <= q ensures At(r, q) == At(fs, q) && (q in r <==> q in fs) {
      if src <= q { Comparable(p, src, q); }
      if dst <= q { Comparable(p, dst, q); }
      assert At(r, q) == At(fs, q);
    }
  }
}
