/** `_partition_media`: media entries are cut into archive segments, in order and greedily. */
module MediaSegments {
  import opened Common

  datatype Kind = RegularFile | Folder | Symlink

  datatype Entry = Entry(path: string, kind: Kind, size: nat)

  function Weight(e: Entry): nat {
    if e.kind == RegularFile then e.size else 0
  }

  function Size(group: seq<Entry>): nat {
    if |group| == 0 then 0 else Size(group[..|group| - 1]) + Weight(group[|group| - 1])
  }

  predicate Oversized(e: Entry, target: nat) {
    e.kind == RegularFile && e.size > target
  }

  /** A segment is one oversized file alone, or anything that fits the target. */
  ghost predicate Segment(group: seq<Entry>, target: nat) {
    |group| > 0 && (Size(group) <= target || (|group| == 1 && Oversized(group[0], target)))
  }

  /** An order-preserving split of `entries` into segments. */
  ghost predicate Split(groups: seq<seq<Entry>>, entries: seq<Entry>, target: nat) {
    && Flatten(groups, |groups|) == entries
    && forall i :: 0 <= i < |groups| ==> Segment(groups[i], target)
  }

  lemma SizeAppend(group: seq<Entry>, e: Entry)
    ensures Size(group + [e]) == Size(group) + Weight(e)
  {
    assert (group + [e])[..|group|] == group;
  }

  lemma OversizedInside(group: seq<Entry>, i: nat)
    requires i < |group|
    ensures Weight(group[i]) <= Size(group)
  {
    if i < |group| - 1 {
      assert group[..|group| - 1][i] == group[i];
      OversizedInside(group[..|group| - 1], i);
    }
  }

  lemma FlattenPrefix<T>(parts: seq<seq<T>>, other: seq<seq<T>>, n: nat)
    requires n <= |parts| && n <= |other| && parts[..n] == other[..n]
    ensures Flatten(parts, n) == Flatten(other, n)
    decreases n
  {
    if n > 0 {
      assert parts[..n - 1] == parts[..n][..n - 1] == other[..n][..n - 1] == other[..n - 1];
      assert parts[n - 1] == parts[..n][n - 1] == other[n - 1];
      FlattenPrefix(parts, other, n - 1);
    }
  }

  lemma FlattenAppend<T>(parts: seq<seq<T>>, last: seq<T>)
    ensures Flatten(parts + [last], |parts| + 1) == Flatten(parts, |parts|) + last
  {
    FlattenPrefix(parts + [last], parts, |parts|);
  }

  /** Dropping the last entry of a split leaves a split of the other entries. */
  function Shortened(groups: seq<seq<Entry>>): seq<seq<Entry>>
    requires |groups| > 0 && |groups[|groups| - 1]| > 0
  {
    var n := |groups| - 1;
    if |groups[n]| == 1 then groups[..n] else groups[..n] + [groups[n][..|groups[n]| - 1]]
  }

  lemma ShortenedIsSplit(groups: seq<seq<Entry>>, entries: seq<Entry>, e: Entry, target: nat)
    requires |groups| > 0 && Split(groups, entries + [e], target)
    ensures |groups[|groups| - 1]| > 0 && Last(groups[|groups| - 1]) == e
    ensures Split(Shortened(groups), entries, target)
  {
    var n := |groups| - 1;
    var init, last := groups[..n], groups[n];
    assert Segment(last, target);
    assert groups == init + [last];
    FlattenAppend(init, last);
    var shorter := last[..|last| - 1];
    assert last == shorter + [Last(last)];
    Associative(Flatten(init, n), shorter, [Last(last)]);
    LastIsUnique(Flatten(init, n) + shorter, Last(last), entries, e);
    if |last| == 1 {
      assert shorter == [];
    } else {
      FlattenAppend(init, shorter);
      ShorterFits(last, target);
    }
  }

  lemma ShorterFits(group: seq<Entry>, target: nat)
    requires Segment(group, target) && |group| > 1
    ensures Segment(group[..|group| - 1], target)
  {
  }

  function Last<T>(s: seq<T>): T
    requires |s| > 0
  {
    s[|s| - 1]
  }

  lemma LastIsUnique<T>(a: seq<T>, x: T, b: seq<T>, y: T)
    requires a + [x] == b + [y]
    ensures a == b && x == y
  {
    assert (a + [x])[..|a|] == a && (b + [y])[..|b|] == b;
    assert (a + [x])[|a|] == x && (b + [y])[|b|] == y;
  }

  /**
   `groups` followed by the open group `current` is as short as any split of the entries read
   so far, and among the splits of that length none has a shorter last segment.
   */
  ghost predicate Greedy(groups: seq<seq<Entry>>, current: seq<Entry>, entries: seq<Entry>, target: nat) {
    && (forall other :: Split(other, entries, target) ==> |other| >= Count(groups, current))
    && (|current| > 0 ==>
          forall other :: Split(other, entries, target) && |other| == Count(groups, current) ==>
            |other| > 0 && |Last(other)| >= |current|)
  }

  function Count(groups: seq<seq<Entry>>, current: seq<Entry>): nat {
    |groups| + (if |current| > 0 then 1 else 0)
  }

  lemma {:induction false} SizeConcat(a: seq<Entry>, b: seq<Entry>)
    ensures Size(a + b) == Size(a) + Size(b)
    decreases |b|
  {
    if |b| == 0 {
      assert a + b == a;
    } else {
      var n := |b| - 1;
      assert a + b == (a + b[..n]) + [b[n]];
      SizeAppend(a + b[..n], b[n]);
      SizeConcat(a, b[..n]);
    }
  }

  /** Of two groups at the end of the same entries, the longer one weighs at least as much. */
  lemma LongerSuffixWeighsMore(x: seq<Entry>, long: seq<Entry>, y: seq<Entry>, short: seq<Entry>)
    requires x + long == y + short && |long| >= |short|
    ensures Size(long) >= Size(short)
  {
    var k := |long| - |short|;
    assert long[k..] == (x + long)[|x| + k..] == (y + short)[|y|..] == short;
    assert long == long[..k] + long[k..];
    SizeConcat(long[..k], long[k..]);
  }

  lemma LastGroupEnds(groups: seq<seq<Entry>>, entries: seq<Entry>, target: nat)
    requires |groups| > 0 && Split(groups, entries, target)
    ensures entries == Flatten(groups[..|groups| - 1], |groups| - 1) + Last(groups)
  {
    var n := |groups| - 1;
    assert groups == groups[..n] + [Last(groups)];
    FlattenAppend(groups[..n], Last(groups));
  }

  lemma SplitAppend(groups: seq<seq<Entry>>, entries: seq<Entry>, last: seq<Entry>, target: nat)
    requires Split(groups, entries, target) && Segment(last, target)
    ensures Split(groups + [last], entries + last, target)
  {
    FlattenAppend(groups, last);
  }

  /** The closed groups with the open one, if it holds anything. */
  function Closed(groups: seq<seq<Entry>>, current: seq<Entry>): seq<seq<Entry>> {
    if |current| > 0 then groups + [current] else groups
  }

  /** What the loop keeps about the entries read so far. */
  ghost predicate Partitioned(groups: seq<seq<Entry>>, current: seq<Entry>, entries: seq<Entry>, target: nat) {
    && Split(Closed(groups, current), entries, target)
    && Size(current) <= target
    && Greedy(groups, current, entries, target)
    && (|current| == 0 && |entries| > 0 ==> Oversized(Last(entries), target))
  }

  /** Any split with one more entry: either that entry is alone in its segment, or it ends a longer one. */
  lemma LastSegment(other: seq<seq<Entry>>, entries: seq<Entry>, e: Entry, target: nat)
    requires Split(other, entries + [e], target)
    ensures |other| > 0 && |Last(other)| > 0 && Last(Last(other)) == e
    ensures Split(Shortened(other), entries, target)
    ensures |Shortened(other)| == if |Last(other)| == 1 then |other| - 1 else |other|
    ensures |Last(other)| > 1 ==>
              Last(Shortened(other)) == Last(other)[..|Last(other)| - 1] && Size(Last(other)) <= target
              && Size(Last(other)) == Size(Last(Shortened(other))) + Weight(e)
  {
    assert |Flatten(other, |other|)| == |entries| + 1;
    ShortenedIsSplit(other, entries, e, target);
    assert Segment(other[|other| - 1], target);
  }

  lemma FittingEnd(groups: seq<seq<Entry>>, entries: seq<Entry>, target: nat)
    requires |groups| > 0 && Split(groups, entries, target) && Size(Last(groups)) <= target
    ensures |entries| > 0 && !Oversized(Last(entries), target)
  {
    assert Segment(groups[|groups| - 1], target);
    LastGroupEnds(groups, entries, target);
    assert Last(entries) == Last(Last(groups));
    OversizedInside(Last(groups), |Last(groups)| - 1);
  }

  lemma OversizedStep(groups: seq<seq<Entry>>, current: seq<Entry>, entries: seq<Entry>, e: Entry, target: nat)
    requires Partitioned(groups, current, entries, target) && Oversized(e, target)
    ensures Partitioned(Closed(groups, current) + [[e]], [], entries + [e], target)
  {
    assert [e][..0] == [];
    SplitAppend(Closed(groups, current), entries, [e], target);
    forall other | Split(other, entries + [e], target) ensures |other| >= Count(Closed(groups, current) + [[e]], []) {
      LastSegment(other, entries, e, target);
    }
  }

  lemma OverflowStep(groups: seq<seq<Entry>>, current: seq<Entry>, entries: seq<Entry>, e: Entry, target: nat)
    requires Partitioned(groups, current, entries, target) && !Oversized(e, target)
    requires |current| > 0 && Size(current) + Weight(e) > target
    ensures Partitioned(groups + [current], [e], entries + [e], target)
  {
    assert [e][..0] == [];
    SplitAppend(groups + [current], entries, [e], target);
    forall other | Split(other, entries + [e], target)
      ensures |other| >= Count(groups + [current], [e]) && |other| > 0 && |Last(other)| >= 1
    {
      LastSegment(other, entries, e, target);
      var before := Shortened(other);
      if |Last(other)| > 1 && |other| == Count(groups, current) {
        LastGroupEnds(before, entries, target);
        LastGroupEnds(groups + [current], entries, target);
        LongerSuffixWeighsMore(Flatten(before[..|before| - 1], |before| - 1), Last(before),
                               Flatten((groups + [current])[..|groups|], |groups|), current);
        assert false;
      }
    }
  }

  lemma JoinStep(groups: seq<seq<Entry>>, current: seq<Entry>, entries: seq<Entry>, e: Entry, target: nat)
    requires Partitioned(groups, current, entries, target) && !Oversized(e, target)
    requires Size(current) + Weight(e) <= target
    ensures Partitioned(groups, current + [e], entries + [e], target)
  {
    SizeAppend(current, e);
    JoinedSplit(groups, current, entries, e, target);
    forall other | Split(other, entries + [e], target)
      ensures |other| >= Count(groups, current + [e])
      ensures |other| == Count(groups, current + [e]) ==> |other| > 0 && |Last(other)| >= |current| + 1
    {
      LastSegment(other, entries, e, target);
      var before := Shortened(other);
      if |Last(other)| > 1 && |current| == 0 {
        FittingEnd(before, entries, target);
        assert false;
      }
    }
  }

  lemma JoinedSplit(groups: seq<seq<Entry>>, current: seq<Entry>, entries: seq<Entry>, e: Entry, target: nat)
    requires Split(Closed(groups, current), entries, target) && Size(current + [e]) <= target
    ensures Split(groups + [current + [e]], entries + [e], target)
  {
    FlattenAppend(groups, current + [e]);
    if |current| > 0 {
      FlattenAppend(groups, current);
      Associative(Flatten(groups, |groups|), current, [e]);
      forall i | 0 <= i < |groups| ensures Segment(groups[i], target) {
        assert (groups + [current])[i] == groups[i];
      }
    } else {
      assert current + [e] == [e];
    }
  }

  /** `_partition_media`; an empty list gives one empty segment. */
  method PartitionMedia(entries: seq<Entry>, target: nat) returns (groups: seq<seq<Entry>>)
    ensures |entries| == 0 ==> groups == [[]]
    ensures |entries| > 0 ==>
              && Split(groups, entries, target)
              && forall other :: Split(other, entries, target) ==> |groups| <= |other|
  {
    if |entries| == 0 {
      return [[]];
    }
    groups := [];
    var current: seq<Entry> := [];
    var currentSize := 0;
    var n := 0;
    assert entries[..0] == [];
    while n < |entries|
      invariant 0 <= n <= |entries| && currentSize == Size(current)
      invariant Partitioned(groups, current, entries[..n], target)
    {
      TakeOneMore(entries, n);
      groups, current, currentSize := Place(groups, current, currentSize, entries[..n], entries[n], target);
      n := n + 1;
    }
    TakeAll(entries);
    if |current| > 0 {
      groups := groups + [current];
    }
  }

  /** One entry goes into a segment of its own, into a new one, or into the current one. */
  method Place(groups: seq<seq<Entry>>, current: seq<Entry>, currentSize: nat, ghost done: seq<Entry>, e: Entry,
      target: nat)
    returns (groups': seq<seq<Entry>>, current': seq<Entry>, size': nat)
    requires currentSize == Size(current) && Partitioned(groups, current, done, target)
    ensures size' == Size(current') && Partitioned(groups', current', done + [e], target)
  {
    groups', current', size' := groups, current, currentSize;
    if e.kind == RegularFile && e.size > target {
      OversizedStep(groups, current, done, e, target);
      if |current| > 0 {
        groups' := groups' + [current];
        current', size' := [], 0;
      }
      groups' := groups' + [[e]];
    } else {
      if e.kind == RegularFile && |current| > 0 && currentSize + e.size > target {
        OverflowStep(groups, current, done, e, target);
        groups' := groups' + [current];
        current', size' := [], 0;
        assert [] + [e] == [e];
      } else {
        JoinStep(groups, current, done, e, target);
      }
      SizeAppend(current', e);
      current' := current' + [e];
      if e.kind == RegularFile {
        size' := size' + e.size;
      }
    }
  }
}
