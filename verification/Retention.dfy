/** Retention planning and pruning of `arborpress/backups/retention.py`, over the backup sets that verify. */
module Retention {
  import opened Common
  import opened Sorting

  type Id = int

  /** Microseconds. */
  const DAY: int := 24 * 60 * 60 * 1000000

  datatype Backup = Backup(id: Id, created: int)

  datatype Limits = Limits(keepLast: Option<int>, keepDays: Option<int>)

  datatype Plan = Plan(remove: seq<Id>, kept: seq<Id>, pinned: set<Id>)

  datatype Problem = NoLimit | NegativeLast | NegativeDays

  ghost predicate UniqueIds(found: seq<Backup>) {
    forall i, j :: 0 <= i < j < |found| ==> found[i].id != found[j].id
  }

  ghost function Elements(found: seq<Backup>): set<Backup> { set b | b in found }

  function NewestFirst(b: Backup): Key { Key(-b.created, -b.id) }

  // ---------------------------------------------------------------- what may go

  predicate Newer(a: Backup, b: Backup) { a.created > b.created || (a.created == b.created && a.id > b.id) }

  ghost function NewerThan(all: set<Backup>, b: Backup): set<Backup> {
    set a | a in all && Newer(a, b)
  }

  /** Neither newest nor pinned, and beyond every limit that is given. */
  ghost predicate Expendable(all: set<Backup>, pinned: set<Id>, limits: Limits, now: int, b: Backup) {
    && NewerThan(all, b) != {}
    && b.id !in pinned
    && (limits.keepLast.Some? ==> |NewerThan(all, b)| >= limits.keepLast.value)
    && (limits.keepDays.Some? ==> b.created < now - limits.keepDays.value * 86400000000)
  }

  function Refused(limits: Limits): Option<Problem> {
    if limits.keepLast.None? && limits.keepDays.None? then Some(NoLimit)
    else if limits.keepLast.Some? && limits.keepLast.value < 0 then Some(NegativeLast)
    else if limits.keepDays.Some? && limits.keepDays.value < 0 then Some(NegativeDays)
    else None
  }

  // ---------------------------------------------------------------- places in the sorted list

  ghost predicate NewestFirstList(s: seq<Backup>) {
    Ascending(s, NewestFirst) && UniqueIds(s)
  }

  lemma SortedList(found: seq<Backup>)
    requires UniqueIds(found)
    ensures NewestFirstList(SortBy(found, NewestFirst))
    ensures Elements(SortBy(found, NewestFirst)) == Elements(found)
  {
    var s := SortBy(found, NewestFirst);
    SortSorts(found, NewestFirst);
    forall b ensures b in s <==> b in found {
      assert b in multiset(s) <==> b in multiset(found);
    }
    forall i, j | 0 <= i < j < |s| ensures s[i].id != s[j].id {
      SortIsStrict(found, NewestFirst, i, j);
      assert s[i] in found && s[j] in found;
    }
  }

  lemma {:induction false} DistinctCount(s: seq<Backup>)
    requires UniqueIds(s)
    ensures |Elements(s)| == |s|
  {
    if s != [] {
      var last := s[|s| - 1];
      DistinctCount(s[..|s| - 1]);
      assert Elements(s) == Elements(s[..|s| - 1]) + {last};
    }
  }

  /** A backup comes after exactly those that are newer. */
  lemma PlaceIsRank(s: seq<Backup>, i: nat)
    requires NewestFirstList(s) && i < |s|
    ensures |NewerThan(Elements(s), s[i])| == i
    ensures NewerThan(Elements(s), s[i]) == {} <==> i == 0
  {
    forall a ensures a in NewerThan(Elements(s), s[i]) <==> a in s[..i] {
      if a in s {
        var j :| 0 <= j < |s| && s[j] == a;
        if j < i {
          assert Before(NewestFirst(s[j]), NewestFirst(s[i]));
          assert a == s[..i][j];
        } else if i < j {
          assert Before(NewestFirst(s[i]), NewestFirst(s[j]));
        }
      }
    }
    assert NewerThan(Elements(s), s[i]) == Elements(s[..i]);
    DistinctCount(s[..i]);
  }

  // ---------------------------------------------------------------- the plan

  /** The protected ids among the first `n` of the sorted candidates. */
  ghost predicate ProtectsRightly(candidates: seq<Backup>, pinned: set<Id>, limits: Limits, now: int,
      protected: set<Id>) {
    forall i :: 0 <= i < |candidates| ==>
      (candidates[i].id !in protected <==> Expendable(Elements(candidates), pinned, limits, now, candidates[i]))
  }

  predicate Spared(i: nat, b: Backup, pinned: set<Id>, limits: Limits, now: int) {
    || i == 0 || b.id in pinned
    || (limits.keepLast.Some? && i < limits.keepLast.value)
    || (limits.keepDays.Some? && b.created >= now - limits.keepDays.value * DAY)
  }

  lemma SparedIsNotExpendable(candidates: seq<Backup>, pinned: set<Id>, limits: Limits, now: int, i: nat)
    requires NewestFirstList(candidates) && i < |candidates|
    ensures Spared(i, candidates[i], pinned, limits, now) <==> !Expendable(Elements(candidates), pinned, limits, now, candidates[i])
  {
    PlaceIsRank(candidates, i);
  }

  method Protect(candidates: seq<Backup>, pins: set<Id>, limits: Limits, now: int)
    returns (protected: set<Id>, pinned: set<Id>)
    requires NewestFirstList(candidates) && Refused(limits).None?
    ensures ProtectsRightly(candidates, pins, limits, now, protected)
    ensures pinned == set i | 0 <= i < |candidates| && candidates[i].id in pins :: candidates[i].id
  {
    protected, pinned := {}, {};
    for i := 0 to |candidates|
      invariant pinned == set k | 0 <= k < i && candidates[k].id in pins :: candidates[k].id
      invariant forall k :: 0 <= k < |candidates| ==>
                  (candidates[k].id in protected <==> k < i && Spared(k, candidates[k], pins, limits, now))
    {
      var b := candidates[i];
      var byCount := limits.keepLast.Some? && i < limits.keepLast.value;
      var byAge := limits.keepDays.Some? && b.created >= now - limits.keepDays.value * DAY;
      if b.id in pins { pinned := pinned + {b.id}; }
      if byCount || byAge || b.id in pins || i == 0 {
        protected := protected + {b.id};
      }
    }
    forall i | 0 <= i < |candidates|
      ensures candidates[i].id !in protected <==> Expendable(Elements(candidates), pins, limits, now, candidates[i])
    {
      SparedIsNotExpendable(candidates, pins, limits, now, i);
    }
  }

  /** Two lists that divide the backups, the first with exactly the expendable ones. */
  ghost predicate Divides(remove: seq<Id>, kept: seq<Id>, all: set<Backup>, pinned: set<Id>, limits: Limits, now: int) {
    && (forall b :: b in all ==> (b.id in remove <==> Expendable(all, pinned, limits, now, b)))
    && (forall b :: b in all ==> (b.id in kept <==> !Expendable(all, pinned, limits, now, b)))
    && (forall id :: id in remove || id in kept ==> exists b :: b in all && b.id == id)
    && Distinct(remove) && Distinct(kept)
  }

  /** The two lists of `candidates`: those whose id is in `protected`, and the others. */
  ghost predicate Parts(candidates: seq<Backup>, n: nat, protected: set<Id>, remove: seq<Id>, kept: seq<Id>) {
    && n <= |candidates|
    && (forall k :: 0 <= k < |candidates| ==> (candidates[k].id in remove <==> k < n && candidates[k].id !in protected))
    && (forall k :: 0 <= k < |candidates| ==> (candidates[k].id in kept <==> k < n && candidates[k].id in protected))
    && (forall id :: id in remove || id in kept ==> exists k :: 0 <= k < n && candidates[k].id == id)
    && Distinct(remove) && Distinct(kept)
  }

  method Partition(candidates: seq<Backup>, protected: set<Id>) returns (remove: seq<Id>, kept: seq<Id>)
    requires UniqueIds(candidates)
    ensures Parts(candidates, |candidates|, protected, remove, kept)
  {
    remove, kept := [], [];
    for i := 0 to |candidates|
      invariant Parts(candidates, i, protected, remove, kept)
    {
      var id := candidates[i].id;
      if id in protected { kept := kept + [id]; } else { remove := remove + [id]; }
    }
  }

  method PlanPrune(found: seq<Backup>, pins: set<Id>, limits: Limits, now: int) returns (result: Result<Plan, Problem>)
    requires UniqueIds(found)
    ensures Refused(limits).Some? ==> result == Err(Refused(limits).value)
    ensures result.Err? <==>
              || (limits.keepLast.None? && limits.keepDays.None?)
              || (limits.keepLast.Some? && limits.keepLast.value < 0)
              || (limits.keepDays.Some? && limits.keepDays.value < 0)
    ensures Refused(limits).None? ==> result.Ok? && Divides(result.value.remove, result.value.kept, Elements(found), pins, limits, now)
    ensures Refused(limits).None? ==> result.value.pinned == set b | b in found && b.id in pins :: b.id
  {
    if Refused(limits).Some? { return Err(Refused(limits).value); }
    var candidates := SortBy(found, NewestFirst);
    SortedList(found);
    var protected, pinned := Protect(candidates, pins, limits, now);
    var remove, kept := Partition(candidates, protected);
    Divided(candidates, remove, kept, pins, limits, now, protected);
    assert forall b :: b in found <==> b in Elements(candidates);
    result := Ok(Plan(remove, kept, pinned));
  }

  lemma Divided(candidates: seq<Backup>, remove: seq<Id>, kept: seq<Id>, pins: set<Id>, limits: Limits, now: int,
      protected: set<Id>)
    requires ProtectsRightly(candidates, pins, limits, now, protected)
    requires Parts(candidates, |candidates|, protected, remove, kept)
    ensures Divides(remove, kept, Elements(candidates), pins, limits, now)
  {
    forall id | id in remove || id in kept ensures exists b :: b in Elements(candidates) && b.id == id {
      var k :| 0 <= k < |candidates| && candidates[k].id == id;
      assert candidates[k] in Elements(candidates);
    }
  }

  // ---------------------------------------------------------------- pruning

  function PinnedIn(states: map<Id, bool>): set<Id> { set id | id in states && states[id] }

  class BackupRoot {
    var sets: seq<Backup>
    /** The state files: those of pinned backups, and those that say a backup is not pinned any more. */
    var states: map<Id, bool>

    method Remove(id: Id)
      requires UniqueIds(sets)
      modifies this
      ensures UniqueIds(sets) && states == old(states) - {id}
      ensures forall b :: b in sets <==> b in old(sets) && b.id != id
    {
      var i, rest := 0, [];
      while i < |sets|
        invariant 0 <= i <= |sets| && sets == old(sets) && states == old(states)
        invariant UniqueIds(rest)
        invariant forall b :: b in rest <==> b in sets[..i] && b.id != id
      {
        if sets[i].id != id { rest := rest + [sets[i]]; }
        i := i + 1;
      }
      sets := rest;
      states := states - {id};
    }

    /** `prune_backups`: a dry run changes nothing, and otherwise the expendable sets go with their state files. */
    method Prune(limits: Limits, now: int, dryRun: bool) returns (result: Result<Plan, Problem>)
      requires UniqueIds(sets)
      modifies this
      ensures UniqueIds(sets)
      ensures Refused(limits).Some? ==> result == Err(Refused(limits).value)
      ensures Refused(limits).None? ==>
                && result.Ok? && result.value.pinned == (set b | b in old(sets) && b.id in PinnedIn(old(states)) :: b.id)
                && Divides(result.value.remove, result.value.kept, Elements(old(sets)), PinnedIn(old(states)), limits, now)
      ensures dryRun || Refused(limits).Some? ==> sets == old(sets) && states == old(states)
      ensures !dryRun && Refused(limits).None? ==>
                && (forall b :: b in sets <==> b in old(sets) && !Expendable(Elements(old(sets)), PinnedIn(old(states)), limits, now, b))
                && states == old(states) - set id | id in result.value.remove
      ensures PinnedIn(states) == PinnedIn(old(states))
    {
      result := PlanPrune(sets, PinnedIn(states), limits, now);
      if result.Err? || dryRun { return; }
      var plan := result.value;
      for i := 0 to |plan.remove|
        invariant UniqueIds(sets)
        invariant forall b :: b in sets <==> b in old(sets) && b.id !in plan.remove[..i]
        invariant states == old(states) - set id | id in plan.remove[..i]
      {
        Remove(plan.remove[i]);
        assert plan.remove[..i + 1] == plan.remove[..i] + [plan.remove[i]];
      }
      TakeAll(plan.remove);
      PinsStay(plan, Elements(old(sets)), old(states), limits, now);
    }
  }

  lemma PinsStay(plan: Plan, all: set<Backup>, states: map<Id, bool>, limits: Limits, now: int)
    requires Divides(plan.remove, plan.kept, all, PinnedIn(states), limits, now)
    ensures PinnedIn(states - set id | id in plan.remove) == PinnedIn(states)
  {
    forall id | id in plan.remove ensures id !in PinnedIn(states) {
      var b :| b in all && b.id == id;
    }
  }

  // ---------------------------------------------------------------- properties of the plan

  ghost function Kept(all: set<Backup>, pinned: set<Id>, limits: Limits, now: int): set<Backup> {
    set b | b in all && !Expendable(all, pinned, limits, now, b)
  }

  lemma SubsetCount<T>(a: set<T>, b: set<T>)
    requires a <= b
    ensures |a| <= |b|
  {
    assert b == a + (b - a);
  }

  /** The newest of some backups: no other is newer. */
  lemma {:induction false} NewestExists(all: set<Backup>) returns (newest: Backup)
    requires all != {}
    ensures newest in all && NewerThan(all, newest) == {}
    decreases |all|
  {
    newest :| newest in all;
    if all != {newest} {
      var other := NewestExists(all - {newest});
      if Before(NewestFirst(other), NewestFirst(newest)) {
        newest := other;
      }
    }
  }

  /** Pruning some backups leaves at least one of them. */
  lemma NeverEmpty(all: set<Backup>, pinned: set<Id>, limits: Limits, now: int) returns (newest: Backup)
    requires all != {}
    ensures newest in Kept(all, pinned, limits, now) && NewerThan(all, newest) == {}
  {
    newest := NewestExists(all);
  }

  /** Planning once more at the same instant finds nothing to remove. */
  lemma PlanningAgainRemovesNothing(all: set<Backup>, pinned: set<Id>, limits: Limits, now: int)
    ensures Kept(Kept(all, pinned, limits, now), pinned, limits, now) == Kept(all, pinned, limits, now)
  {
    var kept := Kept(all, pinned, limits, now);
    forall b | b in kept ensures !Expendable(kept, pinned, limits, now, b) {
      assert NewerThan(kept, b) <= NewerThan(all, b);
      SubsetCount(NewerThan(kept, b), NewerThan(all, b));
    }
  }

  predicate AtMost(a: Option<int>, b: Option<int>) {
    a.None? || (b.Some? && a.value <= b.value)
  }

  /** Larger limits, or a limit more, never remove more. */
  lemma LargerLimitsKeepMore(all: set<Backup>, pinned: set<Id>, small: Limits, large: Limits, now: int)
    requires AtMost(small.keepLast, large.keepLast) && AtMost(small.keepDays, large.keepDays)
    ensures Kept(all, pinned, small, now) <= Kept(all, pinned, large, now)
  {
    forall b | b in all && Expendable(all, pinned, large, now, b) ensures Expendable(all, pinned, small, now, b) {
    }
  }

  /** A larger clock keeps less: what survives a later prune would have survived an earlier one. */
  lemma LaterKeepsLess(all: set<Backup>, pinned: set<Id>, limits: Limits, now: int, later: int)
    requires now <= later
    ensures Kept(all, pinned, limits, later) <= Kept(all, pinned, limits, now)
  {
    forall b | b in all && Expendable(all, pinned, limits, now, b) ensures Expendable(all, pinned, limits, later, b) {
    }
  }
}
