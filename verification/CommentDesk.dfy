/**
 The comment services as they run one at a time: methods that change the stored rows in place, each
 doing exactly what its operation does in the runs of `CommentStatus` and `CommentRevisions`.
 */
module CommentDesk {
  import opened Common
  import opened Comments
  import opened CommentStatus
  import opened CommentRevisions
  import opened CommentRules
  import Threads

  /** A reply is made after the comment it answers. */
  ghost predicate ParentsPrecede(comments: seq<Comment>) {
    forall c :: 0 <= c < |comments| ==> comments[c].parent.Some? ==> comments[c].parent.value < c
  }

  /** What a history of undisturbed calls leaves behind. */
  ghost function Replay(ops: seq<Op>): Store {
    if ops == [] then EMPTY
    else
      var s := Replay(ops[..|ops| - 1]);
      After(ops[|ops| - 1], s, s)
  }

  lemma ReplayNext(ops: seq<Op>, op: Op)
    ensures Replay(ops + [op]) == After(op, Replay(ops), Replay(ops))
  {
    assert (ops + [op])[..|ops|] == ops;
  }

  lemma AfterWait(s: Store, ticks: nat)
    ensures After(Wait(ticks), s, s) == s.(now := s.now + ticks) && Perform(Wait(ticks), s, s).Ok?
  {
  }

  class Desk {
    var comments: seq<Comment>
    var revisions: seq<Revision>
    var decisions: seq<Decision>
    var appeals: map<nat, Appeal>
    var issued: map<Token, nat>
    var now: Time
    ghost var history: seq<Op>

    ghost function Stored(): Store
      reads this
    {
      Store(comments, revisions, decisions, appeals, issued, now)
    }

    /** The rows are what the calls made so far leave behind. */
    ghost predicate Valid()
      reads this
    {
      ParentsPrecede(comments) && Stored() == Replay(history)
    }

    /** `op`, called after the calls `before`, alone made what there is of the rows `was`. */
    ghost predicate Did(op: Op, before: seq<Op>, was: Store, ok: bool)
      reads this
    {
      && Valid() && history == before + [op]
      && Stored() == After(op, was, was) && (ok <==> Perform(op, was, was).Ok?)
    }

    /** The call of `op` begins. */
    ghost method Enter(op: Op)
      requires Valid()
      modifies this`history
      ensures history == old(history) + [op] && Replay(history) == After(op, Stored(), Stored())
    {
      ReplayNext(history, op);
      history := history + [op];
    }

    constructor ()
      ensures Valid() && Stored() == EMPTY
    {
      comments, revisions, decisions, appeals, issued, now := [], [], [], map[], map[], 0;
      history := [];
    }

    /** Time passes. */
    method Tick(ticks: nat)
      requires Valid()
      modifies this
      ensures Did(Wait(ticks), old(history), old(Stored()), true)
    {
      Enter(Wait(ticks));
      AfterWait(Stored(), ticks);
      now := now + ticks;
    }

    /** `_parent_chain_contains` for an id that no comment has: the walk up never meets a comment twice. */
    method ParentChainRepeats(start: nat) returns (repeats: bool)
      requires ParentsPrecede(comments) && start < |comments|
      ensures !repeats
    {
      var current: Option<nat>, seen: set<int> := Some(start), {};
      while current.Some?
        invariant current.Some? ==> current.value < |comments|
        invariant current.Some? ==> forall x :: x in seen ==> current.value < x
        decreases if current.Some? then current.value + 1 else 0
      {
        if current.value in seen { return true; }
        seen := seen + {current.value};
        current := comments[current.value].parent;
      }
      return false;
    }

    /** The appended decision of the core policy, if the status calls for one. */
    method RecordAutomaticDecision(c: nat, status: Status)
      modifies this`decisions
      ensures decisions == old(decisions) + Automatic(c, status, now)
    {
      if status == Approved {
        decisions := decisions + [Decision(OnComment(c), None, Approve, None, now)];
      } else if status == Spam {
        decisions := decisions + [Decision(OnComment(c), None, MarkSpam, None, now)];
      }
    }

    /** The target of a reply: an approved comment on the same post. */
    method CanReply(post: nat, policy: Policy, parent: nat) returns (ok: bool)
      requires ParentsPrecede(comments)
      ensures ok <==> policy.allowReplies && Repliable(Stored(), post, parent)
    {
      if !policy.allowReplies || parent >= |comments| { return false; }
      if comments[parent].post != post || comments[parent].status != Approved { return false; }
      var repeats := ParentChainRepeats(parent);
      return !repeats;
    }

    /** The checks before anything is stored. */
    method MayCreate(op: Op) returns (ok: bool)
      requires ParentsPrecede(comments) && op.Create?
      ensures ok <==> CreateAllowed(op, Stored())
    {
      if !op.policy.enabled || (op.author.Some? && op.remote.Some?) { return false; }
      if op.remote.Some? && (op.email || !op.uri) { return false; }
      var guest := op.author.None? && op.remote.None?;
      if guest && !op.policy.allowGuests { return false; }
      if Strip(op.name) == "" || Strip(op.text) == "" || |op.text| > op.policy.maxLength { return false; }
      if op.parent.Some? {
        var reply := CanReply(op.post, op.policy, op.parent.value);
        if !reply { return false; }
      }
      return op.spam || !guest || !op.policy.guestConfirmation || op.email;
    }

    /** The row to store: its status decides about the token and the time stamps. */
    method RowFor(op: Op) returns (row: Comment)
      requires op.Create?
      ensures row == NewComment(op, Stored(), now)
    {
      var guest := op.author.None? && op.remote.None?;
      var token, status := None, Spam;
      if op.spam {
      } else if guest && op.policy.guestConfirmation {
        token, status := Some(op.token), PendingConfirmation;
      } else {
        status := PublicationState(op.policy, op.author, ApprovedCount(comments, op.author));
      }
      var author := if op.author.Some? then Some(op.author.value.id) else None;
      var stamp := When(status == Approved, now);
      row := Comment(op.post, author, op.remote, op.parent, Strip(op.text), status, token,
                     When(token.Some?, now + op.policy.confirmationHours * HOUR), When(token.Some?, now),
                     When(token.None? && !op.spam, now), stamp, stamp, now);
    }

    method CreateComment(op: Op) returns (ok: bool)
      requires Valid() && op.Create?
      modifies this
      ensures Did(op, old(history), old(Stored()), ok)
    {
      Enter(op);
      ok := MayCreate(op);
      if !ok { return; }
      var row := RowFor(op);
      StoreComment(row);
    }

    method StoreComment(row: Comment)
      requires ParentsPrecede(comments) && (row.parent.Some? ==> row.parent.value < |comments|)
      modifies this`comments, this`issued, this`decisions
      ensures ParentsPrecede(comments)
      ensures Stored() == old(Stored().(
                comments := comments + [row],
                issued := if row.token.Some? then issued[row.token.value := |comments|] else issued,
                decisions := decisions + Automatic(|comments|, row.status, now)))
    {
      var c := |comments|;
      comments := comments + [row];
      if row.token.Some? { issued := issued[row.token.value := c]; }
      RecordAutomaticDecision(c, row.status);
    }

    method ConfirmGuestComment(token: Token, policy: Option<Policy>) returns (ok: bool)
      requires Valid()
      modifies this
      ensures Did(Confirm(token, policy), old(history), old(Stored()), ok)
    {
      Enter(Confirm(token, policy));
      var found := FindConfirmable(comments, token, now);
      if found.None? || policy.None? { return false; }
      var c, status := found.value, PublicationState(policy.value, None, 0);
      var stamp := When(status == Approved, now);
      comments := comments[c := comments[c].(status := status, token := None, tokenExpires := None,
                                             confirmedAt := Some(now), approvedAt := stamp, publishedAt := stamp)];
      RecordAutomaticDecision(c, status);
      return true;
    }

    method IssueGuestConfirmation(c: nat, ttlHours: int, minInterval: int, token: Token) returns (ok: bool)
      requires Valid()
      modifies this
      ensures Did(Reissue(c, ttlHours, minInterval, token), old(history), old(Stored()), ok)
    {
      Enter(Reissue(c, ttlHours, minInterval, token));
      if c >= |comments| || comments[c].status != PendingConfirmation { return false; }
      var sent := comments[c].tokenSent;
      if sent.Some? && now < sent.value + (if minInterval > 1 then minInterval else 1) { return false; }
      comments := comments[c := comments[c].(token := Some(token), tokenSent := Some(now),
                                             tokenExpires := Some(now + Clamp(1, 168, ttlHours) * HOUR))];
      issued := issued[token := c];
      return true;
    }

    method ModerateComment(c: nat, actor: UserId, outcome: Outcome, reasonOk: bool, supersedes: Option<nat>)
      returns (ok: bool)
      requires Valid()
      modifies this
      ensures Did(Moderate(c, actor, outcome, reasonOk, supersedes), old(history), old(Stored()), ok)
      ensures ok ==>
                && c < |old(comments)| && |comments| == |old(comments)| && comments == old(comments)[c := comments[c]]
                && reasonOk && Legal(old(comments)[c].status, outcome, comments[c].status)
                && decisions == old(decisions) + [Decision(OnComment(c), Some(actor), outcome, supersedes, now)]
      ensures !ok ==>
                && comments == old(comments) && decisions == old(decisions)
                && (c >= |comments| || !reasonOk || forall to :: !Legal(comments[c].status, outcome, to))
    {
      Enter(Moderate(c, actor, outcome, reasonOk, supersedes));
      if c < |comments| { LegalIff(comments[c].status, outcome); }
      if c >= |comments| || !Allowed(comments[c].status, outcome) || !reasonOk { return false; }
      SetStatus(c, ResultOf(outcome));
      decisions := decisions + [Decision(OnComment(c), Some(actor), outcome, supersedes, now)];
      return true;
    }

    method SetStatus(c: nat, status: Status)
      requires c < |comments|
      modifies this`comments
      ensures comments == old(comments[c := comments[c].(
                status := status,
                approvedAt := if status == Approved then Some(now) else comments[c].approvedAt,
                publishedAt := if status == Approved && comments[c].publishedAt.None? then Some(now) else comments[c].publishedAt)])
    {
      var row := comments[c].(status := status);
      if status == Approved {
        row := row.(approvedAt := Some(now));
        if row.publishedAt.None? { row := row.(publishedAt := Some(now)); }
      }
      comments := comments[c := row];
    }

    method SetBody(c: nat, body: string)
      modifies this`comments
      ensures comments == old(if c < |comments| then comments[c := comments[c].(body := body)] else comments)
    {
      if c < |comments| { comments := comments[c := comments[c].(body := body)]; }
    }

    method AddRevision(row: Revision) returns (ok: bool)
      modifies this`revisions, this`comments
      ensures ok <==> Insertable(old(revisions), row)
      ensures Stored() == if ok then Insert(old(Stored()), row) else old(Stored())
    {
      if !Insertable(revisions, row) { return false; }
      revisions := revisions + [row];
      if row.status == Accepted { SetBody(row.comment, row.body); }
      return true;
    }

    method CreateCommentRevision(c: nat, editor: User, text: string, policy: Policy, moderator: bool) returns (ok: bool)
      requires Valid()
      modifies this
      ensures Did(Revise(c, editor, text, policy, moderator), old(history), old(Stored()), ok)
    {
      Enter(Revise(c, editor, text, policy, moderator));
      if c >= |comments| || comments[c].status != Approved { return false; }
      if !moderator {
        if comments[c].author != Some(editor.id) { return false; }
        if policy.editWindowMinutes == 0 || now > PublishedSince(comments[c]) + policy.editWindowMinutes * 60 { return false; }
        if AuthorEdits(revisions, c, editor.id) >= policy.maxUserEdits { return false; }
      }
      if !TextAllowed(text, policy) { return false; }
      var immediate := moderator || (policy.trustedEditBypass && editor.trusted);
      if !immediate && HasProposal(revisions, c) { return false; }
      ok := AddRevision(Revision(c, Some(editor.id), MaxNumber(revisions, c) + 1, Strip(text),
                                 if immediate then Accepted else Proposed, When(!immediate, c), !moderator));
    }

    method CreateRemoteCommentRevision(c: nat, remoteActor: nat, text: string, policy: Policy) returns (ok: bool)
      requires Valid()
      modifies this
      ensures Did(ReviseRemotely(c, remoteActor, text, policy), old(history), old(Stored()), ok)
    {
      Enter(ReviseRemotely(c, remoteActor, text, policy));
      if c >= |comments| || !policy.enabled || comments[c].remote != Some(remoteActor) { return false; }
      if comments[c].status != Approved || !TextAllowed(text, policy) || HasProposal(revisions, c) { return false; }
      ok := AddRevision(Revision(c, None, MaxNumber(revisions, c) + 1, Strip(text), Proposed, Some(c), false));
    }

    /** A proposal leaves the queue. */
    method SettleRevision(r: nat, accept: bool)
      requires r < |revisions|
      modifies this`revisions, this`comments
      ensures Stored() == Settle(old(Stored()), r, accept)
    {
      var row := revisions[r];
      revisions := revisions[r := row.(status := if accept then Accepted else Declined, pendingKey := None)];
      if accept { SetBody(row.comment, row.body); }
    }

    method CanReview(r: nat) returns (ok: bool)
      ensures ok <==> Reviewable(Stored(), r)
    {
      if r >= |revisions| || revisions[r].status != Proposed { return false; }
      var c := revisions[r].comment;
      ok := c < |comments| && comments[c].status == Approved;
    }

    method ReviewCommentRevision(r: nat, accept: bool) returns (ok: bool)
      requires Valid()
      modifies this
      ensures Did(ReviewRevision(r, accept), old(history), old(Stored()), ok)
    {
      Enter(ReviewRevision(r, accept));
      ok := CanReview(r);
      if ok { SettleRevision(r, accept); }
    }

    method ModerateCommentRevision(r: nat, actor: UserId, accept: bool, reasonOk: bool) returns (ok: bool)
      requires Valid()
      modifies this
      ensures Did(ModerateRevision(r, actor, accept, reasonOk), old(history), old(Stored()), ok)
    {
      Enter(ModerateRevision(r, actor, accept, reasonOk));
      ok := CanReview(r);
      if !ok || !reasonOk { return false; }
      SettleRevision(r, accept);
      decisions := decisions + [Decision(OnRevision(r), Some(actor), if accept then Approve else Reject, None, now)];
    }

    /** What overturning decision `d` changes; the appeal is closed after it. */
    method OverturnDecision(d: nat, reviewer: UserId) returns (ok: bool)
      requires ParentsPrecede(comments) && d < |decisions|
      modifies this
      ensures ParentsPrecede(comments) && history == old(history)
      ensures (ok <==> Overturn(d, old(decisions[d]), reviewer, old(Stored()), old(Stored())).Ok?)
      ensures Stored() == if ok then Overturn(d, old(decisions[d]), reviewer, old(Stored()), old(Stored())).value else old(Stored())
    {
      match decisions[d].target {
        case OnRevision(r) =>
          if r >= |revisions| || revisions[r].comment >= |comments| { return false; }
          SettleRevision(r, true);
          decisions := decisions + [Decision(OnRevision(r), Some(reviewer), Restore, Some(d), now)];
        case OnComment(c) =>
          if c >= |comments| || comments[c].status !in {Rejected, Spam, Deleted} { return false; }
          SetStatus(c, Approved);
          decisions := decisions + [Decision(OnComment(c), Some(reviewer), Restore, Some(d), now)];
      }
      return true;
    }

    method ReviewCommentAppeal(d: nat, reviewer: UserId, overturn: bool, text: string, others: Reviewers)
      returns (ok: bool)
      requires Valid()
      modifies this
      ensures Did(ReviewAppeal(d, reviewer, overturn, text, others), old(history), old(Stored()), ok)
    {
      Enter(ReviewAppeal(d, reviewer, overturn, text, others));
      if d !in appeals || appeals[d].state != Open || d >= |decisions| { return false; }
      if Strip(text) == "" || |Strip(text)| > 2000 { return false; }
      var self := decisions[d].actor == Some(reviewer);
      if self && OthersThan(others, decisions[d].actor) { return false; }
      var state, replacement := Upheld, None;
      if overturn {
        state, replacement := Overturned, Some(|decisions|);
        var done := OverturnDecision(d, reviewer);
        if !done { return false; }
      }
      appeals := appeals[d := appeals[d].(state := state, replacement := replacement, selfReview := self)];
      return true;
    }

    method SubmitCommentAppeal(d: nat, appellant: UserId, text: string, windowDays: int) returns (ok: bool)
      requires Valid()
      modifies this
      ensures Did(SubmitAppeal(d, appellant, text, windowDays), old(history), old(Stored()), ok)
    {
      Enter(SubmitAppeal(d, appellant, text, windowDays));
      if d >= |decisions| || decisions[d].outcome !in {Reject, MarkSpam, Delete} { return false; }
      if exists x :: x in decisions && x.supersedes == Some(d) { return false; }
      var c := 0;
      match decisions[d].target {
        case OnComment(on) => c := on;
        case OnRevision(r) =>
          if r >= |revisions| || revisions[r].editor != Some(appellant) { return false; }
          c := revisions[r].comment;
      }
      if c >= |comments| || comments[c].author != Some(appellant) { return false; }
      if now > decisions[d].at + Clamp(1, 90, windowDays) * DAY { return false; }
      if Strip(text) == "" || |Strip(text)| > 5000 || d in appeals { return false; }
      appeals := appeals[d := Appeal(appellant, Open, None, false)];
      return true;
    }
  }

  // ---------------------------------------------------------------- a history as a run

  /** Random tokens never repeat. */
  ghost predicate FreshHistory(ops: seq<Op>) {
    forall k :: 0 <= k < |ops| ==> FreshToken(ops[k], Replay(ops[..k]))
  }

  ghost function StatesOf(ops: seq<Op>): (states: seq<Store>)
    ensures |states| == |ops| + 1 && forall k :: 0 <= k <= |ops| ==> states[k] == Replay(ops[..k])
  {
    seq(|ops| + 1, k requires 0 <= k <= |ops| => Replay(ops[..k]))
  }

  function StepsOf(ops: seq<Op>): (steps: seq<Step>)
    ensures |steps| == |ops| && forall k :: 0 <= k < |ops| ==> steps[k] == Step(ops[k], k)
  {
    seq(|ops|, k requires 0 <= k < |ops| => Step(ops[k], k))
  }

  lemma StepOfHistory(ops: seq<Op>, k: nat)
    requires FreshHistory(ops) && k < |ops|
    ensures Follows(StatesOf(ops), StepsOf(ops), k)
    ensures FindsProposal(ops[k], StatesOf(ops)[k], StatesOf(ops)[k])
  {
    assert ops[..k + 1][..k] == ops[..k];
  }

  /** Undisturbed calls are a run in which each one reads the rows it writes to. */
  lemma HistoryIsRun(ops: seq<Op>)
    requires FreshHistory(ops)
    ensures IsRun(StatesOf(ops), StepsOf(ops)) && StatesOf(ops)[|ops|] == Replay(ops)
    ensures AllFindProposals(StatesOf(ops), StepsOf(ops))
  {
    TakeAll(ops);
    forall k | 0 <= k < |ops|
      ensures Follows(StatesOf(ops), StepsOf(ops), k) && FindsProposal(ops[k], StatesOf(ops)[k], StatesOf(ops)[k])
    {
      StepOfHistory(ops, k);
    }
  }

  /** With undisturbed calls `published_at` never changes once it is set. */
  lemma HistoryKeepsStamp(ops: seq<Op>, i: nat, c: nat)
    requires FreshHistory(ops) && i <= |ops| && Stamp(Replay(ops[..i]), c).Some?
    ensures Stamp(Replay(ops), c) == Stamp(Replay(ops[..i]), c)
  {
    HistoryIsRun(ops);
    StampFixed(StatesOf(ops), StepsOf(ops), i, |ops|, c);
  }

  /** With undisturbed calls the public body is that of the revision accepted last, or else the one first posted. */
  lemma HistoryBody(ops: seq<Op>, m: nat, c: nat)
    requires FreshHistory(ops) && m <= |ops| && c < |Replay(ops[..m]).comments|
    ensures c < |Replay(ops).comments|
    ensures match LastAccepted(StatesOf(ops), m, |ops|, c)
            case None => Replay(ops).comments[c].body == Replay(ops[..m]).comments[c].body
            case Some(r) => r < |Replay(ops).revisions| && Replay(ops).revisions[r].comment == c
                            && Replay(ops).comments[c].body == Replay(ops).revisions[r].body
  {
    HistoryIsRun(ops);
    BodyIsLastAccepted(StatesOf(ops), StepsOf(ops), m, |ops|, c);
  }

  /** With undisturbed calls a revision that a decision declined stays declined until the appeal is won. */
  lemma HistoryStaysDeclined(ops: seq<Op>)
    requires FreshHistory(ops)
    ensures StayDeclined(Replay(ops))
  {
    HistoryIsRun(ops);
    RejectionsWithProposals(StatesOf(ops), StepsOf(ops), |ops|);
    KeepsDeclined(Replay(ops));
  }

  /** What the log says of the status, and the one proposal of each comment, in the rows of a desk. */
  lemma DeskIsConsistent(desk: Desk, c: nat, r: nat, q: nat)
    requires desk.Valid() && FreshHistory(desk.history) && c < |desk.comments|
    requires r < |desk.revisions| && q < |desk.revisions|
    ensures FollowsLog(desk.comments[c], Latest(desk.decisions, c))
    ensures desk.comments[c].token.Some? <==> desk.comments[c].status == PendingConfirmation
    ensures (desk.revisions[r].comment == desk.revisions[q].comment
             && desk.revisions[r].status == Proposed && desk.revisions[q].status == Proposed) ==> r == q
    ensures desk.revisions[r].number == CountFor(desk.revisions[..r], desk.revisions[r].comment) + 1
  {
    var states, steps, n := StatesOf(desk.history), StepsOf(desk.history), |desk.history|;
    HistoryIsRun(desk.history);
    StatusFollowsLog(states, steps, n, c);
    TokenWhilePending(states, steps, n, c);
    OneProposalAtATime(states, steps, n, r, q);
    RunKeepsRows(states, steps, n);
    assert RowOk(states[n], r);
  }

  // ---------------------------------------------------------------- threads of created comments

  lemma AddedComment(op: Op, seen: Store, s: Store, c: nat)
    requires |s.comments| <= c < |After(op, seen, s).comments|
    ensures op.Create? && CreateAllowed(op, seen) && After(op, seen, s).comments[c].parent == op.parent
  {
    if !op.Create? {
      OthersAddNone(op, seen, s);
    }
  }

  lemma OthersAddNone(op: Op, seen: Store, s: Store)
    requires !op.Create?
    ensures |After(op, seen, s).comments| == |s.comments|
  {
  }

  lemma StepParents(op: Op, seen: Store, s: Store)
    requires ParentsPrecede(s.comments) && Grows(seen, s) && FreshToken(op, s)
    ensures ParentsPrecede(After(op, seen, s).comments)
  {
    var s' := After(op, seen, s);
    AfterGrows(op, seen, s);
    forall c | 0 <= c < |s'.comments| && s'.comments[c].parent.Some? ensures s'.comments[c].parent.value < c {
      if c < |s.comments| {
        assert SameComment(s.comments[c], s'.comments[c]);
      } else {
        AddedComment(op, seen, s, c);
      }
    }
  }

  lemma {:induction false} RunKeepsParents(states: seq<Store>, steps: seq<Step>, n: nat)
    requires IsRun(states, steps) && n < |states|
    ensures ParentsPrecede(states[n].comments)
    decreases n
  {
    if n > 0 {
      RunKeepsParents(states, steps, n - 1);
      assert Follows(states, steps, n - 1);
      RunGrows(states, steps, steps[n - 1].at, n - 1);
      StepParents(steps[n - 1].op, states[steps[n - 1].at], states[n - 1]);
    }
  }

  /** `items` are comments out of `comments`. */
  ghost predicate Selection(items: map<Threads.Id, Threads.Item>, comments: seq<Comment>) {
    forall x :: x in items ==>
      && 0 <= x < |comments|
      && items[x].parent == (if comments[x].parent.Some? then Some(comments[x].parent.value as int) else None)
  }

  /** Whichever comments of a run are listed, a comment is a root only because its parent is not listed. */
  lemma CreatedThreadsHaveNoCycles(states: seq<Store>, steps: seq<Step>, n: nat, items: map<Threads.Id,
      Threads.Item>, x: Threads.Id)
    requires IsRun(states, steps) && n < |states| && Selection(items, states[n].comments) && x in items
    ensures Threads.IsRoot(items, x) <==> Threads.ParentOf(items, x).None?
  {
    RunKeepsParents(states, steps, n);
    Threads.SmallerParentsEnd(items, x, x + 1);
  }
}
