/** Appeals over every interleaving: who may raise them, how often they are judged, and what a won one leaves behind. */
module CommentAppeals {
  import opened Common
  import opened Comments
  import opened CommentStatus

  /** Decision `x` takes the place of decision `d`. */
  predicate Replaces(s: Store, x: nat, d: nat) {
    && d < x < |s.decisions|
    && s.decisions[x].target == s.decisions[d].target && s.decisions[x].outcome == Restore
    && s.decisions[x].supersedes == Some(d)
  }

  /** The author of the comment that decision `d` is about. */
  function AuthorOf(s: Store, d: nat): Option<UserId>
    requires d < |s.decisions|
  {
    var c := CommentOf(s, s.decisions[d]);
    if c.Some? then s.comments[c.value].author else None
  }

  predicate AppealOk(s: Store, d: nat)
    requires d in s.appeals
  {
    && d < |s.decisions| && s.decisions[d].outcome in {Reject, MarkSpam, Delete}
    && AuthorOf(s, d) == Some(s.appeals[d].appellant)
    && match s.appeals[d].state
       case Overturned => s.appeals[d].replacement.Some? && Replaces(s, s.appeals[d].replacement.value, d)
       case _ => s.appeals[d].replacement.None?
  }

  ghost predicate AppealsOk(s: Store) {
    forall d :: d in s.appeals ==> AppealOk(s, d)
  }

  lemma AuthorStays(a: Store, b: Store, d: nat)
    requires Grows(a, b) && d < |a.decisions| && CommentOf(a, a.decisions[d]).Some?
    ensures AuthorOf(b, d) == AuthorOf(a, d)
  {
    var c := CommentOf(a, a.decisions[d]).value;
    assert SameComment(a.comments[c], b.comments[c]);
    if a.decisions[d].target.OnRevision? {
      var r := a.decisions[d].target.revision;
      assert SameRevision(a.revisions[r], b.revisions[r]);
    }
  }

  lemma AppealStays(s: Store, s': Store, d: nat)
    requires Grows(s, s') && d in s.appeals && AppealOk(s, d) && d in s'.appeals && s'.appeals[d] == s.appeals[d]
    ensures AppealOk(s', d)
  {
    AuthorStays(s, s', d);
  }

  /** What a successful appeal adds. */
  lemma SubmittedOk(op: Op, seen: Store, s: Store)
    requires op.SubmitAppeal? && Grows(seen, s) && Perform(op, seen, s).Ok?
    ensures op.decision in After(op, seen, s).appeals && AppealOk(After(op, seen, s), op.decision)
  {
    var s' := After(op, seen, s);
    assert s.decisions[op.decision] == seen.decisions[op.decision];
    AuthorStays(seen, s, op.decision);
    assert AuthorOf(s', op.decision) == AuthorOf(s, op.decision);
  }

  /** The decision that overturning adds. */
  lemma OverturnReplaces(d: nat, reviewer: UserId, seen: Store, s: Store)
    requires Grows(seen, s) && d < |seen.decisions| && Overturn(d, seen.decisions[d], reviewer, seen, s).Ok?
    ensures Replaces(Overturn(d, seen.decisions[d], reviewer, seen, s).value, |s.decisions|, d)
  {
    assert s.decisions[d] == seen.decisions[d];
  }

  lemma JudgedOk(op: Op, seen: Store, s: Store)
    requires op.ReviewAppeal? && Grows(seen, s) && AppealsOk(s) && Perform(op, seen, s).Ok?
    ensures op.decision in s.appeals && op.decision in After(op, seen, s).appeals
    ensures s.appeals[op.decision].state == Open && After(op, seen, s).appeals[op.decision].state != Open
    ensures AppealOk(After(op, seen, s), op.decision)
  {
    var d, s' := op.decision, After(op, seen, s);
    JudgeGrows(d, op.reviewer, op.overturn, op.text, op.others, seen, s);
    if op.overturn {
      OverturnGrows(d, seen.decisions[d], op.reviewer, seen, s);
      OverturnReplaces(d, op.reviewer, seen, s);
    }
    assert AppealOk(s, d);
    AuthorStays(s, s', d);
  }

  /** The appeal that a step may change. */
  function Appealed(op: Op): Option<nat> {
    if op.SubmitAppeal? || op.ReviewAppeal? then Some(op.decision) else None
  }

  lemma OtherAppealsStay(op: Op, seen: Store, s: Store, d: nat)
    requires d in After(op, seen, s).appeals && Appealed(op) != Some(d)
    ensures d in s.appeals && After(op, seen, s).appeals[d] == s.appeals[d]
  {
    if op.ReviewAppeal? && op.decision < |seen.decisions| {
      OverturnGrows(op.decision, seen.decisions[op.decision], op.reviewer, seen, s);
    }
  }

  lemma StepAppeals(op: Op, seen: Store, s: Store)
    requires AppealsOk(s) && Grows(seen, s) && FreshToken(op, s)
    ensures AppealsOk(After(op, seen, s))
  {
    var s' := After(op, seen, s);
    AfterGrows(op, seen, s);
    forall d | d in s'.appeals ensures AppealOk(s', d) {
      if Appealed(op) == Some(d) && Perform(op, seen, s).Ok? {
        if op.SubmitAppeal? { SubmittedOk(op, seen, s); } else { JudgedOk(op, seen, s); }
      } else {
        if Appealed(op) != Some(d) { OtherAppealsStay(op, seen, s, d); }
        AppealStays(s, s', d);
      }
    }
  }

  lemma {:induction false} RunKeepsAppeals(states: seq<Store>, steps: seq<Step>, n: nat)
    requires IsRun(states, steps) && n < |states|
    ensures AppealsOk(states[n])
    decreases n
  {
    if n > 0 {
      RunKeepsAppeals(states, steps, n - 1);
      assert Follows(states, steps, n - 1);
      RunGrows(states, steps, steps[n - 1].at, n - 1);
      StepAppeals(steps[n - 1].op, states[steps[n - 1].at], states[n - 1]);
    }
  }

  /** An appeal is raised by the author concerned, and a won one is on record as exactly one later decision. */
  lemma WonAppealsAreRecorded(states: seq<Store>, steps: seq<Step>, n: nat, d: nat)
    requires IsRun(states, steps) && n < |states| && d in states[n].appeals
    ensures d < |states[n].decisions| && AuthorOf(states[n], d) == Some(states[n].appeals[d].appellant)
    ensures states[n].decisions[d].outcome in {Reject, MarkSpam, Delete}
    ensures states[n].appeals[d].state == Overturned ==>
              states[n].appeals[d].replacement.Some? && Replaces(states[n], states[n].appeals[d].replacement.value, d)
    ensures states[n].appeals[d].state != Overturned ==> states[n].appeals[d].replacement.None?
  {
    RunKeepsAppeals(states, steps, n);
    assert AppealOk(states[n], d);
  }

  /** What a judgement finds and leaves behind. */
  lemma JudgementCloses(states: seq<Store>, steps: seq<Step>, i: nat)
    requires IsRun(states, steps) && i < |steps| && steps[i].op.ReviewAppeal? && Succeeds(states, steps, i)
    ensures steps[i].op.decision in states[i].appeals && states[i].appeals[steps[i].op.decision].state == Open
    ensures steps[i].op.decision in states[i + 1].appeals && states[i + 1].appeals[steps[i].op.decision].state != Open
  {
    assert Follows(states, steps, i);
    RunKeepsAppeals(states, steps, i);
    RunGrows(states, steps, steps[i].at, i);
    JudgedOk(steps[i].op, states[steps[i].at], states[i]);
  }

  /** An appeal is judged at most once, whatever two reviewers had read. */
  lemma JudgedAtMostOnce(states: seq<Store>, steps: seq<Step>, i: nat, j: nat, d: nat)
    requires IsRun(states, steps) && i < j < |steps|
    requires steps[i].op.ReviewAppeal? && steps[i].op.decision == d && Succeeds(states, steps, i)
    requires steps[j].op.ReviewAppeal? && steps[j].op.decision == d
    ensures !Succeeds(states, steps, j)
  {
    JudgementCloses(states, steps, i);
    RunGrows(states, steps, i + 1, j);
    if Succeeds(states, steps, j) {
      JudgementCloses(states, steps, j);
      assert false;
    }
  }

  // ---------------------------------------------------------------- who judges

  /**
   `other_comment_reviewer_available`, which the admin route passes on: somebody active with a moderating
   role, or with the moderator relation on the post, other than the one who decided.
   */
  function FromAdmin(staff: set<UserId>, onPost: set<UserId>, actor: Option<UserId>): Reviewers {
    Told(OthersThan(Counted(staff + onPost), actor))
  }

  /** The people whom the answer to "are there others" was about. */
  predicate Knows(others: Reviewers, staff: set<UserId>, onPost: set<UserId>, actor: Option<UserId>) {
    (others == Counted(staff) && onPost == {}) || others == FromAdmin(staff, onPost, actor)
  }

  lemma JudgedBy(op: Op, seen: Store, s: Store)
    requires op.ReviewAppeal? && Perform(op, seen, s).Ok?
    ensures op.decision < |seen.decisions| && op.decision in After(op, seen, s).appeals
    ensures After(op, seen, s).appeals[op.decision].selfReview <==> seen.decisions[op.decision].actor == Some(op.reviewer)
    ensures seen.decisions[op.decision].actor == Some(op.reviewer) ==> !OthersThan(op.others, Some(op.reviewer))
  {
    OverturnGrows(op.decision, seen.decisions[op.decision], op.reviewer, seen, s);
  }

  /** An appeal marked as judged by the one who decided was judged when nobody else was there to do it. */
  lemma SelfReviewOnlyAlone(op: Op, seen: Store, s: Store, staff: set<UserId>, onPost: set<UserId>)
    requires op.ReviewAppeal? && Perform(op, seen, s).Ok?
    requires op.decision < |seen.decisions| && Knows(op.others, staff, onPost, seen.decisions[op.decision].actor)
    ensures op.decision in After(op, seen, s).appeals
    ensures After(op, seen, s).appeals[op.decision].selfReview ==>
              seen.decisions[op.decision].actor == Some(op.reviewer) && staff + onPost <= {op.reviewer}
  {
    JudgedBy(op, seen, s);
    if seen.decisions[op.decision].actor == Some(op.reviewer) {
      assert !OthersThan(Counted(staff + onPost), Some(op.reviewer)) by { assert staff + {} == staff; }
      forall u | u in staff + onPost ensures u == op.reviewer {
        assert !(u in staff + onPost && Some(u) != Some(op.reviewer));
      }
    }
  }

  /** `b`, but judged by `u`, who had not taken decision `d`; `n` is where a replacing decision stands. */
  function ByAnother(b: Store, d: nat, u: UserId, n: nat): Store
    requires d in b.appeals
  {
    b.(decisions := if n < |b.decisions| then b.decisions[n := b.decisions[n].(actor := Some(u))] else b.decisions,
       appeals := b.appeals[d := b.appeals[d].(selfReview := false)])
  }

  /**
   The rule leaves no appeal without a judge: where the one who decided is turned away, there is somebody
   else, and his call does what that of the first one would do if he were alone, under his own name.
   */
  lemma SomebodyCanJudge(op: Op, seen: Store, s: Store, staff: set<UserId>, onPost: set<UserId>) returns (u: UserId)
    requires op.ReviewAppeal? && op.decision < |seen.decisions|
    requires seen.decisions[op.decision].actor == Some(op.reviewer)
    requires Knows(op.others, staff, onPost, Some(op.reviewer)) && OthersThan(op.others, Some(op.reviewer))
    ensures Perform(op, seen, s).Err?
    ensures u in staff + onPost && u != op.reviewer
    ensures Perform(op.(reviewer := u), seen, s).Ok? <==> Perform(op.(others := Told(false)), seen, s).Ok?
    ensures Perform(op.(reviewer := u), seen, s).Ok? ==>
              && op.decision in After(op.(others := Told(false)), seen, s).appeals
              && After(op.(reviewer := u), seen, s)
                 == ByAnother(After(op.(others := Told(false)), seen, s), op.decision, u, |s.decisions|)
  {
    assert OthersThan(Counted(staff + onPost), Some(op.reviewer)) by { assert staff + {} == staff; }
    u :| u in staff + onPost && Some(u) != Some(op.reviewer);
    SameForOther(op, u, seen, s);
  }

  lemma SameForOther(op: Op, u: UserId, seen: Store, s: Store)
    requires op.ReviewAppeal? && op.decision < |seen.decisions|
    requires seen.decisions[op.decision].actor == Some(op.reviewer) && u != op.reviewer
    ensures Perform(op.(reviewer := u), seen, s).Ok? <==> Perform(op.(others := Told(false)), seen, s).Ok?
    ensures Perform(op.(reviewer := u), seen, s).Ok? ==>
              && op.decision in After(op.(others := Told(false)), seen, s).appeals
              && After(op.(reviewer := u), seen, s)
                 == ByAnother(After(op.(others := Told(false)), seen, s), op.decision, u, |s.decisions|)
  {
    if op.overturn {
      OverturnByAnother(op.decision, seen.decisions[op.decision], op.reviewer, u, seen, s);
    }
  }

  /** What overturning does, but for the name on the new decision, does not depend on who does it. */
  lemma OverturnByAnother(d: nat, decision: Decision, reviewer: UserId, u: UserId, seen: Store, s: Store)
    ensures Overturn(d, decision, u, seen, s).Ok? <==> Overturn(d, decision, reviewer, seen, s).Ok?
    ensures Overturn(d, decision, u, seen, s).Ok? ==>
              var a, b, n := Overturn(d, decision, u, seen, s).value, Overturn(d, decision, reviewer, seen, s).value, |s.decisions|;
              && |b.decisions| == n + 1 && a.appeals == b.appeals == s.appeals
              && a == b.(decisions := b.decisions[n := b.decisions[n].(actor := Some(u))])
  {
  }
}
