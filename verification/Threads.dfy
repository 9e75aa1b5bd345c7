/**
 The forest builder of `arborpress/comments/threads.py`, which stays total on missing, cyclic and
 self-referring parents. Ids are numbers; their order stands for the order of the id strings.
 */
module Threads {
  import opened Common
  import opened Sorting

  type Id = int

  datatype Item = Item(id: Id, createdAt: int, parent: Option<Id>)

  // ---------------------------------------------------------------- chains of parents

  /** The parent of `x`, if it is listed too. */
  function ParentOf(items: map<Id, Item>, x: Id): Option<Id> {
    if x in items && items[x].parent.Some? && items[x].parent.value in items then items[x].parent else None
  }

  /** The ancestor `n` levels above `x`. */
  function Up(items: map<Id, Item>, x: Option<Id>, n: nat): Option<Id>
    decreases n
  {
    if n == 0 || x.None? then x else Up(items, ParentOf(items, x.value), n - 1)
  }

  ghost predicate Ends(items: map<Id, Item>, x: Id) {
    exists n: nat :: Up(items, Some(x), n).None?
  }

  lemma {:induction false} UpUp(items: map<Id, Item>, x: Option<Id>, m: nat, n: nat)
    ensures Up(items, x, m + n) == Up(items, Up(items, x, m), n)
    decreases m
  {
    if m > 0 && x.Some? {
      UpUp(items, ParentOf(items, x.value), m - 1, n);
    } else if x.None? {
      assert Up(items, None, n) == None;
    }
  }

  /** A chain that comes back to a comment goes on for ever. */
  lemma {:induction false} ComingBack(items: map<Id, Item>, x: Id, j: nat, k: nat, n: nat)
    requires j < k && Up(items, Some(x), j) == Up(items, Some(x), k) && Up(items, Some(x), k).Some?
    ensures Up(items, Some(x), n).Some?
    decreases n
  {
    if n < k {
      UpUp(items, Some(x), n, k - n);
      assert Up(items, None, k - n) == None;
    } else {
      UpUp(items, Some(x), k, n - k);
      UpUp(items, Some(x), j, n - k);
      ComingBack(items, x, j, k, n - k + j);
    }
  }

  lemma NeverEnds(items: map<Id, Item>, x: Id, j: nat, k: nat)
    requires j < k && Up(items, Some(x), j) == Up(items, Some(x), k) && Up(items, Some(x), k).Some?
    ensures !Ends(items, x)
  {
    forall n: nat ensures Up(items, Some(x), n).Some? {
      ComingBack(items, x, j, k, n);
    }
  }

  /** A chain ends exactly when the chain of the parent ends. */
  lemma EndsAbove(items: map<Id, Item>, x: Id)
    ensures Ends(items, x) <==> ParentOf(items, x).None? || Ends(items, ParentOf(items, x).value)
  {
    var p := ParentOf(items, x);
    if p.None? {
      assert Up(items, Some(x), 1) == Up(items, p, 0);
    } else {
      if Ends(items, x) {
        var n: nat :| Up(items, Some(x), n).None?;
        assert Up(items, p, n - 1).None?;
      }
      if n: nat :| Up(items, p, n).None? {
        assert Up(items, Some(x), n + 1) == Up(items, p, n);
      }
    }
  }

  /** Comments without a listed parent, and those whose chain of parents runs into a cycle. */
  ghost predicate IsRoot(items: map<Id, Item>, x: Id) {
    ParentOf(items, x).None? || !Ends(items, x)
  }

  // ---------------------------------------------------------------- the builder

  class CommentThreadNode {
    const comment: Item
    var replies: seq<CommentThreadNode>

    constructor (comment: Item)
      ensures this.comment == comment && replies == []
    {
      this.comment := comment;
      replies := [];
    }
  }

  ghost predicate UniqueIds(items: seq<Item>) {
    forall i, j :: 0 <= i < j < |items| ==> items[i].id != items[j].id
  }

  /** The dictionary of the builder. */
  function ById(items: seq<Item>): map<Id, Item> {
    if items == [] then map[] else ById(items[..|items| - 1])[items[|items| - 1].id := items[|items| - 1]]
  }

  ghost predicate Nodes(nodes: map<Id, CommentThreadNode>, items: map<Id, Item>) {
    && nodes.Keys == items.Keys
    && (forall x :: x in items ==> items[x].id == x && nodes[x].comment == items[x])
  }

  /** `_would_cycle`: the walk up from `parent` meets `target`, or meets a comment twice. */
  method WouldCycle(target: Id, parent: Id, nodes: map<Id, CommentThreadNode>, ghost items: map<Id, Item>)
    returns (cycle: bool)
    requires Nodes(nodes, items) && target in items && ParentOf(items, target) == Some(parent)
    ensures cycle <==> !Ends(items, parent)
  {
    var cursor, seen: set<Id> := Some(parent), {};
    ghost var k: nat := 0;
    while cursor.Some?
      invariant cursor == Up(items, Some(parent), k)
      invariant cursor.Some? ==> cursor.value in items
      invariant seen <= items.Keys
      invariant forall x :: x in seen ==> exists j: nat :: j < k && Up(items, Some(parent), j) == Some(x)
      decreases if cursor.Some? then |items.Keys - seen| + 1 else 0
    {
      var current := cursor.value;
      if current == target {
        UpUp(items, Some(parent), k, 1);
        assert Up(items, cursor, 1) == Some(parent);
        NeverEnds(items, parent, 0, k + 1);
        return true;
      }
      if current in seen {
        ghost var j: nat :| j < k && Up(items, Some(parent), j) == Some(current);
        NeverEnds(items, parent, j, k);
        return true;
      }
      StrictlyFewer(items.Keys - (seen + {current}), items.Keys - seen);
      UpUp(items, Some(parent), k, 1);
      seen := seen + {current};
      var up := nodes[current].comment.parent;
      cursor := if up.Some? && up.value in nodes then up else None;
      assert cursor == Up(items, Some(current), 1) by { assert cursor == ParentOf(items, current); }
      k := k + 1;
    }
    return false;
  }

  /** The comments in `s`, in order, for whose id `p` holds. */
  ghost function Where(s: seq<Item>, p: Id -> bool): seq<Item> {
    if s == [] then []
    else
      var last := s[|s| - 1];
      Where(s[..|s| - 1], p) + if p(last.id) then [last] else []
  }

  ghost function IsReplyTo(items: map<Id, Item>, x: Id, p: Id): bool {
    !IsRoot(items, x) && ParentOf(items, x) == Some(p)
  }

  ghost function RootsOf(items: map<Id, Item>, ordered: seq<Item>): seq<Item> {
    Where(ordered, x => IsRoot(items, x))
  }

  ghost function RepliesTo(items: map<Id, Item>, ordered: seq<Item>, p: Id): seq<Item> {
    Where(ordered, x => IsReplyTo(items, x, p))
  }

  /** `sort_key`. */
  function SortKey(item: Item): Key { Key(item.createdAt, item.id) }

  function NodeKey(node: CommentThreadNode): Key { SortKey(node.comment) }

  lemma {:induction false} ByIdHolds(items: seq<Item>, i: nat)
    requires UniqueIds(items) && i < |items|
    ensures items[i].id in ById(items) && ById(items)[items[i].id] == items[i]
  {
    if i < |items| - 1 {
      ByIdHolds(items[..|items| - 1], i);
    }
  }

  lemma {:induction false} ByIdFrom(items: seq<Item>, x: Id) returns (i: nat)
    requires x in ById(items)
    ensures i < |items| && items[i].id == x && ById(items)[x] == items[i]
  {
    var last := |items| - 1;
    if x == items[last].id {
      i := last;
    } else {
      i := ByIdFrom(items[..last], x);
    }
  }

  lemma WhereNext(s: seq<Item>, i: nat, p: Id -> bool)
    requires i < |s|
    ensures Where(s[..i + 1], p) == Where(s[..i], p) + if p(s[i].id) then [s[i]] else []
  {
    assert s[..i + 1][..i] == s[..i];
  }

  lemma {:induction false} WhereHolds(s: seq<Item>, p: Id -> bool, x: Item)
    ensures x in Where(s, p) <==> x in s && p(x.id)
  {
    if s != [] {
      WhereHolds(s[..|s| - 1], p, x);
      assert s == s[..|s| - 1] + [s[|s| - 1]];
    }
  }

  lemma {:induction false} WhereAscends(s: seq<Item>, p: Id -> bool)
    requires Ascending(s, SortKey)
    ensures Ascending(Where(s, p), SortKey)
  {
    if s != [] {
      var before := Where(s[..|s| - 1], p);
      WhereAscends(s[..|s| - 1], p);
      forall i | 0 <= i < |before| ensures Before(SortKey(before[i]), SortKey(s[|s| - 1])) {
        WhereHolds(s[..|s| - 1], p, before[i]);
      }
    }
  }

  /** The nodes of the comments `rows`. */
  ghost predicate Listed(list: seq<CommentThreadNode>, nodes: map<Id, CommentThreadNode>, rows: seq<Item>) {
    && |list| == |rows|
    && forall i :: 0 <= i < |list| ==> rows[i].id in nodes && list[i] == nodes[rows[i].id] && list[i].comment == rows[i]
  }

  lemma ListedSorted(list: seq<CommentThreadNode>, nodes: map<Id, CommentThreadNode>, s: seq<Item>, p: Id -> bool)
    requires Ascending(s, SortKey) && Listed(list, nodes, Where(s, p))
    ensures SortBy(list, NodeKey) == list
  {
    WhereAscends(s, p);
    forall i, j | 0 <= i < j < |list| ensures Before(NodeKey(list[i]), NodeKey(list[j])) {
      assert Before(SortKey(Where(s, p)[i]), SortKey(Where(s, p)[j]));
    }
    SortedStays(list, NodeKey);
  }

  /** `by_id`: a new node for every comment. */
  method MakeNodes(items: seq<Item>) returns (nodes: map<Id, CommentThreadNode>)
    requires UniqueIds(items)
    ensures Nodes(nodes, ById(items))
    ensures fresh(nodes.Values) && forall x :: x in nodes ==> nodes[x].replies == []
  {
    nodes := map[];
    for i := 0 to |items|
      invariant Nodes(nodes, ById(items[..i]))
      invariant fresh(nodes.Values) && forall x :: x in nodes ==> nodes[x].replies == []
    {
      assert items[..i + 1][..i] == items[..i];
      var node := new CommentThreadNode(items[i]);
      ghost var before := nodes;
      nodes := nodes[items[i].id := node];
      assert nodes.Values <= before.Values + {node};
    }
    TakeAll(items);
  }

  ghost predicate Linked(nodes: map<Id, CommentThreadNode>, items: map<Id, Item>, done: seq<Item>)
    reads set x | x in nodes :: nodes[x]
  {
    forall x :: x in nodes ==> Listed(nodes[x].replies, nodes, RepliesTo(items, done, x))
  }

  /** Where the builder puts a comment: under its parent, or among the roots. */
  method Attach(item: Item, nodes: map<Id, CommentThreadNode>, ghost items: map<Id, Item>) returns (parent: Option<Id>)
    requires Nodes(nodes, items) && item.id in items && items[item.id] == item
    ensures parent.None? <==> IsRoot(items, item.id)
    ensures parent.Some? ==> parent == ParentOf(items, item.id)
  {
    parent := if item.parent.Some? && item.parent.value in nodes then item.parent else None;
    assert parent == ParentOf(items, item.id);
    if parent.Some? {
      EndsAbove(items, item.id);
      if parent.value == item.id {
        NeverEnds(items, item.id, 0, 1);
        return None;
      }
      var cycle := WouldCycle(item.id, parent.value, nodes, items);
      if cycle { return None; }
    }
  }

  lemma AttachRoot(items: map<Id, Item>, s: seq<Item>, i: nat)
    requires i < |s| && IsRoot(items, s[i].id)
    ensures RootsOf(items, s[..i + 1]) == RootsOf(items, s[..i]) + [s[i]]
    ensures forall p :: RepliesTo(items, s[..i + 1], p) == RepliesTo(items, s[..i], p)
  {
    WhereNext(s, i, x => IsRoot(items, x));
    forall p ensures RepliesTo(items, s[..i + 1], p) == RepliesTo(items, s[..i], p) {
      WhereNext(s, i, x => IsReplyTo(items, x, p));
    }
  }

  lemma AttachReply(items: map<Id, Item>, s: seq<Item>, i: nat)
    requires i < |s| && !IsRoot(items, s[i].id)
    ensures RootsOf(items, s[..i + 1]) == RootsOf(items, s[..i])
    ensures forall p :: RepliesTo(items, s[..i + 1], p)
                     == RepliesTo(items, s[..i], p) + if ParentOf(items, s[i].id) == Some(p) then [s[i]] else []
  {
    WhereNext(s, i, x => IsRoot(items, x));
    forall p ensures RepliesTo(items, s[..i + 1], p)
                  == RepliesTo(items, s[..i], p) + if ParentOf(items, s[i].id) == Some(p) then [s[i]] else [] {
      WhereNext(s, i, x => IsReplyTo(items, x, p));
    }
  }

  /** `parent.replies.append(node)`. */
  method AddReply(parent: Id, i: nat, nodes: map<Id, CommentThreadNode>, ghost items: map<Id, Item>,
      ghost ordered: seq<Item>, item: Item)
    requires Nodes(nodes, items) && i < |ordered| && ordered[i] == item && item.id in items && items[item.id] == item
    requires !IsRoot(items, item.id) && ParentOf(items, item.id) == Some(parent)
    requires Linked(nodes, items, ordered[..i])
    modifies nodes.Values
    ensures Linked(nodes, items, ordered[..i + 1])
  {
    AttachReply(items, ordered, i);
    var up := nodes[parent];
    ghost var was := up.replies;
    up.replies := up.replies + [nodes[item.id]];
    forall x | x in nodes ensures Listed(nodes[x].replies, nodes, RepliesTo(items, ordered[..i + 1], x)) {
      assert Listed(old(nodes[x].replies), nodes, RepliesTo(items, ordered[..i], x));
      if x != parent { assert nodes[x].comment.id != up.comment.id; }
    }
  }

  /** Every comment of `ordered` goes under its parent or to the roots. */
  method AttachAll(ordered: seq<Item>, nodes: map<Id, CommentThreadNode>, ghost items: map<Id, Item>)
    returns (roots: seq<CommentThreadNode>)
    requires Nodes(nodes, items) && forall x :: x in nodes ==> nodes[x].replies == []
    requires forall i :: 0 <= i < |ordered| ==> ordered[i].id in items && items[ordered[i].id] == ordered[i]
    modifies nodes.Values
    ensures Listed(roots, nodes, RootsOf(items, ordered)) && Linked(nodes, items, ordered)
  {
    roots := [];
    for i := 0 to |ordered|
      invariant Listed(roots, nodes, RootsOf(items, ordered[..i]))
      invariant Linked(nodes, items, ordered[..i])
    {
      var item := ordered[i];
      var parent := Attach(item, nodes, items);
      if parent.None? {
        AttachRoot(items, ordered, i);
        roots := roots + [nodes[item.id]];
      } else {
        AttachReply(items, ordered, i);
        AddReply(parent.value, i, nodes, items, ordered, item);
      }
    }
    TakeAll(ordered);
  }

  /** The last pass sorts lists that are in order already. */
  method SortReplies(list: seq<Item>, nodes: map<Id, CommentThreadNode>, ghost items: map<Id, Item>,
      ghost ordered: seq<Item>)
    requires Nodes(nodes, items) && Ascending(ordered, SortKey) && Linked(nodes, items, ordered)
    requires forall i :: 0 <= i < |list| ==> list[i].id in nodes
    modifies nodes.Values
    ensures Linked(nodes, items, ordered)
  {
    for i := 0 to |list|
      invariant Linked(nodes, items, ordered)
    {
      var node := nodes[list[i].id];
      ListedSorted(node.replies, nodes, ordered, x => IsReplyTo(items, x, list[i].id));
      node.replies := SortBy(node.replies, NodeKey);
    }
  }

  /** Roots and replies, each in the order of time and id. */
  method BuildCommentThread(items: seq<Item>) returns (roots: seq<CommentThreadNode>, nodes: map<Id, CommentThreadNode>)
    requires UniqueIds(items)
    ensures Nodes(nodes, ById(items)) && fresh(nodes.Values)
    ensures Listed(roots, nodes, RootsOf(ById(items), SortBy(items, SortKey)))
    ensures Linked(nodes, ById(items), SortBy(items, SortKey))
  {
    nodes := MakeNodes(items);
    ghost var byId := ById(items);
    var ordered := SortBy(items, SortKey);
    SortSorts(items, SortKey);
    forall i | 0 <= i < |ordered| ensures ordered[i].id in byId && byId[ordered[i].id] == ordered[i] {
      SortedItem(items, ordered[i]);
    }
    roots := AttachAll(ordered, nodes, byId);
    forall i | 0 <= i < |items| ensures items[i].id in nodes {
      ByIdHolds(items, i);
    }
    SortReplies(items, nodes, byId, ordered);
    ListedSorted(roots, nodes, ordered, x => IsRoot(byId, x));
    roots := SortBy(roots, NodeKey);
  }

  lemma SortedItem(items: seq<Item>, x: Item)
    requires UniqueIds(items) && x in SortBy(items, SortKey)
    ensures x in items && x.id in ById(items) && ById(items)[x.id] == x
  {
    SortSorts(items, SortKey);
    assert x in multiset(items);
    var i :| 0 <= i < |items| && items[i] == x;
    ByIdHolds(items, i);
  }

  // ---------------------------------------------------------------- the forest

  /** The roots and replies of the comments `items`, as the builder lists them. */
  datatype Forest = Forest(roots: seq<Item>, replies: map<Id, seq<Item>>)

  ghost function ForestOf(items: seq<Item>): Forest {
    var byId, ordered := ById(items), SortBy(items, SortKey);
    Forest(RootsOf(byId, ordered), map p | p in byId :: RepliesTo(byId, ordered, p))
  }

  /** Comment `x` is `depth` levels below a root. */
  ghost predicate Below(f: Forest, x: Item, depth: nat)
    decreases depth
  {
    if depth == 0 then x in f.roots
    else exists p: Item :: Below(f, p, depth - 1) && p.id in f.replies && x in f.replies[p.id]
  }

  lemma Sorted(items: seq<Item>, x: Item)
    ensures x in SortBy(items, SortKey) <==> x in items
  {
    SortSorts(items, SortKey);
    assert x in multiset(items) <==> x in multiset(SortBy(items, SortKey));
  }

  lemma InRoots(items: seq<Item>, x: Item)
    ensures x in ForestOf(items).roots <==> x in items && IsRoot(ById(items), x.id)
  {
    Sorted(items, x);
    WhereHolds(SortBy(items, SortKey), y => IsRoot(ById(items), y), x);
  }

  lemma InReplies(items: seq<Item>, x: Item, p: Id)
    requires p in ById(items)
    ensures x in ForestOf(items).replies[p] <==> x in items && IsReplyTo(ById(items), x.id, p)
  {
    Sorted(items, x);
    WhereHolds(SortBy(items, SortKey), y => IsReplyTo(ById(items), y, p), x);
  }

  lemma {:induction false} NoDuplicates(s: seq<Item>, p: Id -> bool)
    requires UniqueIds(s)
    ensures UniqueIds(Where(s, p))
  {
    if s != [] {
      var before := Where(s[..|s| - 1], p);
      NoDuplicates(s[..|s| - 1], p);
      forall i | 0 <= i < |before| ensures before[i].id != s[|s| - 1].id {
        WhereHolds(s[..|s| - 1], p, before[i]);
      }
    }
  }

  lemma SortedUnique(items: seq<Item>)
    requires UniqueIds(items)
    ensures UniqueIds(SortBy(items, SortKey))
  {
    var s := SortBy(items, SortKey);
    forall i, j | 0 <= i < j < |s| ensures s[i].id != s[j].id {
      SortIsStrict(items, SortKey, i, j);
      if s[i].id == s[j].id { SameItem(items, s[i], s[j]); }
    }
  }

  lemma SameItem(items: seq<Item>, x: Item, y: Item)
    requires UniqueIds(items) && x in SortBy(items, SortKey) && y in SortBy(items, SortKey) && x.id == y.id
    ensures x == y
  {
    SortedItem(items, x);
    SortedItem(items, y);
  }

  /** By time of creation, and by id among comments of the same time. */
  ghost predicate OlderFirst(s: seq<Item>) {
    forall i, j :: 0 <= i < j < |s| ==>
      s[i].createdAt < s[j].createdAt || (s[i].createdAt == s[j].createdAt && s[i].id < s[j].id)
  }

  lemma AscendingIsOlderFirst(s: seq<Item>)
    requires Ascending(s, SortKey) && UniqueIds(s)
    ensures OlderFirst(s)
  {
  }

  /** Siblings are in the order of time and id, and none is listed twice. */
  lemma SiblingsInOrder(items: seq<Item>, p: Id)
    requires UniqueIds(items)
    ensures OlderFirst(ForestOf(items).roots) && UniqueIds(ForestOf(items).roots)
    ensures p in ForestOf(items).replies ==> OlderFirst(ForestOf(items).replies[p]) && UniqueIds(ForestOf(items).replies[p])
  {
    var ordered := SortBy(items, SortKey);
    SortSorts(items, SortKey);
    SortedUnique(items);
    WhereAscends(ordered, x => IsRoot(ById(items), x));
    NoDuplicates(ordered, x => IsRoot(ById(items), x));
    WhereAscends(ordered, x => IsReplyTo(ById(items), x, p));
    NoDuplicates(ordered, x => IsReplyTo(ById(items), x, p));
    AscendingIsOlderFirst(ForestOf(items).roots);
    if p in ForestOf(items).replies { AscendingIsOlderFirst(ForestOf(items).replies[p]); }
  }

  /** Every comment is somewhere in the forest. */
  lemma {:induction false} LevelExists(items: seq<Item>, x: Item, n: nat) returns (depth: nat)
    requires UniqueIds(items) && x in items && x.id in ById(items) && ById(items)[x.id] == x
    requires IsRoot(ById(items), x.id) || Up(ById(items), Some(x.id), n).None?
    ensures Below(ForestOf(items), x, depth)
    decreases n
  {
    var byId := ById(items);
    if IsRoot(byId, x.id) {
      InRoots(items, x);
      depth := 0;
    } else {
      var p := ParentOf(byId, x.id).value;
      var i := ByIdFrom(items, p);
      var above := LevelExists(items, items[i], n - 1);
      InReplies(items, x, p);
      depth := above + 1;
    }
  }

  lemma {:induction false} BelowIsListed(items: seq<Item>, x: Item, depth: nat)
    requires UniqueIds(items) && Below(ForestOf(items), x, depth)
    ensures x in items && (depth == 0 <==> IsRoot(ById(items), x.id))
  {
    var f := ForestOf(items);
    if depth == 0 {
      InRoots(items, x);
    } else {
      var p: Item :| Below(f, p, depth - 1) && p.id in f.replies && x in f.replies[p.id];
      InReplies(items, x, p.id);
    }
  }

  lemma ParentAbove(items: seq<Item>, x: Item, depth: nat) returns (p: Item)
    requires UniqueIds(items) && depth > 0 && Below(ForestOf(items), x, depth)
    ensures Below(ForestOf(items), p, depth - 1) && p in items && ParentOf(ById(items), x.id) == Some(p.id)
  {
    var f := ForestOf(items);
    p :| Below(f, p, depth - 1) && p.id in f.replies && x in f.replies[p.id];
    InReplies(items, x, p.id);
    BelowIsListed(items, p, depth - 1);
  }

  lemma SameId(items: seq<Item>, x: Item, y: Item)
    requires UniqueIds(items) && x in items && y in items && x.id == y.id
    ensures x == y
  {
  }

  lemma SameParentAbove(items: seq<Item>, x: Item, d: nat, e: nat) returns (p: Item)
    requires UniqueIds(items) && d > 0 && e > 0 && Below(ForestOf(items), x, d) && Below(ForestOf(items), x, e)
    ensures Below(ForestOf(items), p, d - 1) && Below(ForestOf(items), p, e - 1)
  {
    p := ParentAbove(items, x, d);
    var q := ParentAbove(items, x, e);
    SameId(items, p, q);
  }

  /** No comment is at two places. */
  lemma {:induction false} LevelIsUnique(items: seq<Item>, x: Item, d: nat, e: nat)
    requires UniqueIds(items) && Below(ForestOf(items), x, d) && Below(ForestOf(items), x, e)
    ensures d == e
    decreases d
  {
    if d > 0 && e > 0 {
      var p := SameParentAbove(items, x, d, e);
      LevelIsUnique(items, p, d - 1, e - 1);
    } else {
      BelowIsListed(items, x, d);
      BelowIsListed(items, x, e);
    }
  }

  /**
   The forest holds each comment exactly once: at one level, and either among the roots or among the
   replies to its parent. It is a root exactly if its parent is not listed or its chain never ends.
   */
  lemma EachCommentOnce(items: seq<Item>, x: Item, p: Id) returns (depth: nat)
    requires UniqueIds(items) && x in items
    ensures Below(ForestOf(items), x, depth)
    ensures forall d: nat :: Below(ForestOf(items), x, d) ==> d == depth
    ensures x in ForestOf(items).roots <==> IsRoot(ById(items), x.id)
    ensures p in ForestOf(items).replies ==>
              (x in ForestOf(items).replies[p] <==> !IsRoot(ById(items), x.id) && ParentOf(ById(items), x.id) == Some(p))
  {
    var i :| 0 <= i < |items| && items[i] == x;
    ByIdHolds(items, i);
    var n: nat := 0;
    if !IsRoot(ById(items), x.id) {
      n :| Up(ById(items), Some(x.id), n).None?;
    }
    depth := LevelExists(items, x, n);
    forall d: nat | Below(ForestOf(items), x, d) ensures d == depth {
      LevelIsUnique(items, x, d, depth);
    }
    InRoots(items, x);
    if p in ById(items) { InReplies(items, x, p); }
  }

  lemma FirstIsLeast(s: seq<Item>, x: Item)
    requires Ascending(s, SortKey) && x in s
    ensures Before(SortKey(s[0]), SortKey(x))
  {
    var i :| 0 <= i < |s| && s[i] == x;
    if i > 0 { assert Before(SortKey(s[0]), SortKey(s[i])); }
  }

  lemma WithoutFirst(s: seq<Item>)
    requires s != [] && Ascending(s, SortKey)
    ensures multiset(s[1..]) == multiset(s) - multiset{s[0]} && Ascending(s[1..], SortKey)
    ensures UniqueIds(s) ==> UniqueIds(s[1..])
    ensures s == [s[0]] + s[1..]
  {
    assert s == [s[0]] + s[1..];
    forall i, j | 0 <= i < j < |s[1..]| ensures Before(SortKey(s[1..][i]), SortKey(s[1..][j])) {
      assert Before(SortKey(s[i + 1]), SortKey(s[j + 1]));
    }
  }

  lemma SameFirst(a: seq<Item>, b: seq<Item>)
    requires Ascending(a, SortKey) && Ascending(b, SortKey) && UniqueIds(a) && multiset(a) == multiset(b) && a != []
    ensures b != [] && a[0] == b[0]
  {
    assert |a| == |multiset(a)| && |b| == |multiset(b)|;
    assert a[0] in multiset(a) && b[0] in multiset(b);
    FirstIsLeast(a, b[0]);
    FirstIsLeast(b, a[0]);
    SameId(a, a[0], b[0]);
  }

  /** Comments with unique ids can be put in order in one way only. */
  lemma {:induction false} SameOrder(a: seq<Item>, b: seq<Item>)
    requires Ascending(a, SortKey) && Ascending(b, SortKey) && UniqueIds(a) && multiset(a) == multiset(b)
    ensures a == b
  {
    if a == [] {
      assert |multiset(b)| == |b|;
    } else {
      SameFirst(a, b);
      WithoutFirst(a);
      WithoutFirst(b);
      SameOrder(a[1..], b[1..]);
    }
  }

  lemma SameUnique(a: seq<Item>, b: seq<Item>)
    requires UniqueIds(a) && multiset(a) == multiset(b)
    ensures UniqueIds(b)
  {
    forall i, j | 0 <= i < j < |b| ensures b[i].id != b[j].id {
      if b[i].id == b[j].id {
        assert b[i] in multiset(b) && b[j] in multiset(b);
        assert b[i] in a && b[j] in a;
        Twice(b, i, j);
        Once(a, SortKey, b[i]);
        assert false;
      }
    }
  }

  lemma {:induction false} SameById(a: seq<Item>, b: seq<Item>)
    requires UniqueIds(a) && UniqueIds(b) && multiset(a) == multiset(b)
    ensures ById(a) == ById(b)
  {
    forall x | x in ById(a) ensures x in ById(b) && ById(b)[x] == ById(a)[x] {
      var i := ByIdFrom(a, x);
      assert a[i] in multiset(b);
      var j :| 0 <= j < |b| && b[j] == a[i];
      ByIdHolds(b, j);
    }
    forall x | x in ById(b) ensures x in ById(a) {
      var i := ByIdFrom(b, x);
      assert b[i] in multiset(a);
      var j :| 0 <= j < |a| && a[j] == b[i];
      ByIdHolds(a, j);
    }
  }

  /** The forest does not depend on the order in which the comments are given. */
  lemma OrderDoesNotMatter(a: seq<Item>, b: seq<Item>)
    requires UniqueIds(a) && multiset(a) == multiset(b)
    ensures UniqueIds(b) && ForestOf(a) == ForestOf(b)
  {
    SameUnique(a, b);
    SameById(a, b);
    SortSorts(a, SortKey);
    SortSorts(b, SortKey);
    SortedUnique(a);
    SameOrder(SortBy(a, SortKey), SortBy(b, SortKey));
  }

  /** Where every listed parent has a smaller id, no chain runs into a cycle. */
  lemma {:induction false} SmallerParentsEnd(items: map<Id, Item>, x: Id, n: nat)
    requires forall y :: y in items && ParentOf(items, y).Some? ==> 0 <= ParentOf(items, y).value < y
    requires x < n
    ensures Ends(items, x)
    decreases n
  {
    EndsAbove(items, x);
    var p := ParentOf(items, x);
    if p.Some? {
      SmallerParentsEnd(items, p.value, n - 1);
    }
  }
}
