/**
 What each comment call asks for and what it stores, in terms of the stored columns: the moves between
 statuses over every run, and for every call when it succeeds and which row it leaves.
 */
module CommentRules {
  import opened Common
  import opened Comments
  import opened CommentStatus

  // ---------------------------------------------------------------- moves between statuses

  /** A move by a decision: what it was decided on, the outcome, and the new status. */
  predicate Legal(from: Status, outcome: Outcome, to: Status) {
    || (from.PendingModeration? && outcome.Approve? && to.Approved?)
    || (from.PendingModeration? && outcome.Reject? && to.Rejected?)
    || (from.PendingModeration? && outcome.MarkSpam? && to.Spam?)
    || (from.Approved? && outcome.Delete? && to.Deleted?)
    || (from.Approved? && outcome.MarkSpam? && to.Spam?)
    || (from.Rejected? && outcome.Restore? && to.Approved?)
    || (from.Spam? && outcome.Restore? && to.Approved?)
    || (from.Deleted? && outcome.Restore? && to.Approved?)
  }

  /** The last decision is a new one on comment `c`, taken by somebody, and moves it legally. */
  predicate MovedByDecision(s: Store, s': Store, c: nat)
    requires c < |s.comments| && c < |s'.comments|
  {
    && |s'.decisions| == |s.decisions| + 1 && s'.decisions[..|s.decisions|] == s.decisions
    && var d := s'.decisions[|s.decisions|];
       && d.target == OnComment(c) && d.actor.Some? && d.at == s.now
       && Legal(s.comments[c].status, d.outcome, s'.comments[c].status)
  }

  predicate MovedByConfirmation(s: Store, s': Store, c: nat)
    requires c < |s.comments| && c < |s'.comments|
  {
    && s.comments[c].status.PendingConfirmation?
    && ((s'.comments[c].status.PendingModeration? && s'.decisions == s.decisions)
        || (s'.comments[c].status.Approved?
            && s'.decisions == s.decisions + [Decision(OnComment(c), None, Approve, None, s.now)]))
  }

  /** The status stays, and no decision on `c` is added. */
  predicate Unmoved(s: Store, s': Store, c: nat)
    requires c < |s.comments| && c < |s'.comments|
  {
    && s'.comments[c].status == s.comments[c].status
    && s.decisions <= s'.decisions
    && forall d :: |s.decisions| <= d < |s'.decisions| ==> s'.decisions[d].target != OnComment(c)
  }

  lemma DecidedMoves(op: Op, seen: Store, s: Store, c: nat)
    requires (op.Moderate? || op.ReviewAppeal?) && c < |s.comments|
    ensures c < |After(op, seen, s).comments|
    ensures MovedByDecision(s, After(op, seen, s), c) || Unmoved(s, After(op, seen, s), c)
  {
    if op.ReviewAppeal? && op.decision < |seen.decisions| {
      OverturnGrows(op.decision, seen.decisions[op.decision], op.reviewer, seen, s);
    }
  }

  lemma CreateMoves(op: Op, seen: Store, s: Store, c: nat)
    requires op.Create? && c < |s.comments|
    ensures c < |After(op, seen, s).comments| && Unmoved(s, After(op, seen, s), c)
  {
  }

  lemma ConfirmMoves(op: Op, seen: Store, s: Store, c: nat)
    requires op.Confirm? && c < |s.comments|
    ensures c < |After(op, seen, s).comments|
    ensures MovedByConfirmation(s, After(op, seen, s), c) || Unmoved(s, After(op, seen, s), c)
  {
  }

  lemma OtherMoves(op: Op, seen: Store, s: Store, c: nat)
    requires !op.Moderate? && !op.ReviewAppeal? && !op.Create? && !op.Confirm? && c < |s.comments|
    ensures c < |After(op, seen, s).comments| && Unmoved(s, After(op, seen, s), c)
  {
  }

  /**
   In every interleaving, a status moves only along the pairs of the table, together with a decision of the
   outcome that belongs to the new status; without a decision only a confirmation moves it.
   */
  lemma StatusMoves(states: seq<Store>, steps: seq<Step>, k: nat, c: nat)
    requires IsRun(states, steps) && k < |steps| && c < |states[k].comments|
    ensures c < |states[k + 1].comments|
    ensures || Unmoved(states[k], states[k + 1], c)
            || MovedByDecision(states[k], states[k + 1], c)
            || MovedByConfirmation(states[k], states[k + 1], c)
  {
    assert Follows(states, steps, k);
    var op, seen := steps[k].op, states[steps[k].at];
    if op.Moderate? || op.ReviewAppeal? {
      DecidedMoves(op, seen, states[k], c);
    } else if op.Create? {
      CreateMoves(op, seen, states[k], c);
    } else if op.Confirm? {
      ConfirmMoves(op, seen, states[k], c);
    } else {
      OtherMoves(op, seen, states[k], c);
    }
  }

  /** A moderator's call succeeds exactly for a move of the table, with a reason, on a status nobody has changed. */
  lemma ModerateRule(op: Op, seen: Store, s: Store)
    requires op.Moderate?
    ensures var c := op.comment;
            Perform(op, seen, s).Ok? <==>
              && c < |seen.comments| && c < |s.comments| && s.comments[c].status == seen.comments[c].status && op.reasonOk
              && exists to :: Legal(seen.comments[c].status, op.outcome, to)
    ensures Perform(op, seen, s).Ok? ==>
              var row := After(op, seen, s).comments[op.comment];
              && After(op, seen, s) == s.(comments := s.comments[op.comment := row],
                   decisions := s.decisions + [Decision(OnComment(op.comment), Some(op.actor), op.outcome, op.supersedes, s.now)])
              && row == s.comments[op.comment].(status := row.status, approvedAt := row.approvedAt, publishedAt := row.publishedAt)
              && Legal(s.comments[op.comment].status, op.outcome, row.status)
              && (row.status.Approved? ==> row.approvedAt == Some(s.now))
  {
    if op.comment < |seen.comments| { LegalIff(seen.comments[op.comment].status, op.outcome); }
  }

  lemma LegalIff(from: Status, outcome: Outcome)
    ensures Allowed(from, outcome) <==> exists to :: Legal(from, outcome, to)
    ensures Allowed(from, outcome) ==> Legal(from, outcome, ResultOf(outcome))
  {
    if Allowed(from, outcome) { assert Legal(from, outcome, ResultOf(outcome)); }
  }

  // ---------------------------------------------------------------- creation

  predicate WantsConfirmation(op: Op)
    requires op.Create?
  {
    !op.spam && op.author.None? && op.remote.None? && op.policy.guestConfirmation
  }

  /** The policy publishes the comment of this author without a moderator. */
  ghost predicate PublishedAtOnce(op: Op, seen: Store)
    requires op.Create?
  {
    || op.policy.mode.NoModeration?
    || (op.policy.mode.TrustedBypass? && op.author.Some? && op.author.value.trusted)
    || (op.policy.mode.FirstN? && op.author.Some?
        && |ApprovedRows(seen.comments, op.author.value.id)| >= op.policy.firstN)
  }

  /** The approved comments of an author. */
  ghost function ApprovedRows(comments: seq<Comment>, author: UserId): set<int> {
    set c | 0 <= c < |comments| && comments[c].author == Some(author) && comments[c].status.Approved?
  }

  lemma PublicationMeans(op: Op, seen: Store)
    requires op.Create?
    ensures PublicationState(op.policy, op.author, ApprovedCount(seen.comments, op.author))
         == if PublishedAtOnce(op, seen) then Approved else PendingModeration
  {
    if op.author.Some? {
      assert ApprovedRows(seen.comments, op.author.value.id)
          == set c | 0 <= c < |seen.comments| && seen.comments[c].author == Some(op.author.value.id) && seen.comments[c].status == Approved;
    }
  }

  lemma CreateAsked(op: Op, seen: Store, s: Store)
    requires op.Create?
    ensures Perform(op, seen, s).Ok? <==>
              && op.policy.enabled
              && (op.author.None? || op.remote.None?)
              && (op.remote.Some? ==> !op.email && op.uri)
              && (op.author.None? && op.remote.None? ==> op.policy.allowGuests)
              && Strip(op.name) != "" && Strip(op.text) != "" && |op.text| <= op.policy.maxLength
              && (op.parent.Some? ==>
                    && op.policy.allowReplies && op.parent.value < |seen.comments|
                    && seen.comments[op.parent.value].post == op.post && seen.comments[op.parent.value].status.Approved?)
              && (WantsConfirmation(op) ==> op.email)
  {
  }

  lemma CreateStores(op: Op, seen: Store, s: Store)
    requires op.Create? && Perform(op, seen, s).Ok?
    ensures |After(op, seen, s).comments| == |s.comments| + 1
    ensures var s', n := After(op, seen, s), |s.comments|;
            var row := s'.comments[n];
            && s'.comments[..n] == s.comments && s'.revisions == s.revisions && s'.appeals == s.appeals && s'.now == s.now
            && (row.status.Spam? <==> op.spam)
            && (row.status.PendingConfirmation? <==> WantsConfirmation(op))
            && (row.status.Approved? <==> !op.spam && !WantsConfirmation(op) && PublishedAtOnce(op, seen))
            && !row.status.Rejected? && !row.status.Deleted?
            && row.post == op.post && row.remote == op.remote && row.parent == op.parent && row.body == Strip(op.text)
            && (row.author.Some? <==> op.author.Some?) && (op.author.Some? ==> row.author.value == op.author.value.id)
            && (if WantsConfirmation(op)
                then row.token == Some(op.token) && row.tokenSent == Some(s.now)
                     && row.tokenExpires == Some(s.now + op.policy.confirmationHours * 3600)
                else row.token.None? && row.tokenSent.None? && row.tokenExpires.None?)
            && row.approvedAt == row.publishedAt && (row.publishedAt.Some? <==> row.status.Approved?)
            && (row.publishedAt.Some? ==> row.publishedAt.value == s.now) && row.createdAt == s.now
            && (row.confirmedAt == if op.spam || WantsConfirmation(op) then None else Some(s.now))
            && s'.decisions == s.decisions
                 + (if row.status.Approved? then [Decision(OnComment(n), None, Approve, None, s.now)]
                    else if row.status.Spam? then [Decision(OnComment(n), None, MarkSpam, None, s.now)] else [])
  {
    PublicationMeans(op, seen);
  }

  // ---------------------------------------------------------------- guest tokens

  predicate Waits(row: Comment, token: Token, now: Time) {
    && row.status.PendingConfirmation? && row.token == Some(token)
    && row.tokenExpires.Some? && now < row.tokenExpires.value
  }

  /** A link that works is one that a comment waits for. */
  lemma SomebodyWaits(token: Token, policy: Option<Policy>, seen: Store, s: Store) returns (c: nat)
    requires ConfirmGuest(token, policy, seen, s).Ok?
    ensures c < |seen.comments| && Waits(seen.comments[c], token, seen.now)
  {
    c := FindConfirmable(seen.comments, token, seen.now).value;
  }

  lemma FindsWaiting(seen: Store, token: Token, c: nat)
    requires Inv(seen) && c < |seen.comments| && Waits(seen.comments[c], token, seen.now)
    ensures FindConfirmable(seen.comments, token, seen.now) == Some(c)
  {
    var found := FindConfirmable(seen.comments, token, seen.now);
    assert seen.comments[c] in seen.comments && Confirmable(seen.comments[c], token, seen.now);
    TokenHolder(seen, c, found.value, token);
  }

  /** A link works exactly for the one comment that waits for it, as long as it still does when the row is written. */
  lemma ConfirmRule(token: Token, policy: Option<Policy>, seen: Store, s: Store, c: nat)
    requires Inv(seen) && Grows(seen, s) && c < |seen.comments| && Waits(seen.comments[c], token, seen.now)
    ensures c < |s.comments|
    ensures ConfirmGuest(token, policy, seen, s).Ok? <==> policy.Some? && Waits(s.comments[c], token, seen.now)
    ensures ConfirmGuest(token, policy, seen, s).Ok? ==>
              var s', at := ConfirmGuest(token, policy, seen, s).value, seen.now;
              var public := policy.value.mode.NoModeration?;
              s' == s.(comments := s.comments[c := s.comments[c].(
                         status := if public then Approved else PendingModeration, token := None, tokenExpires := None,
                         confirmedAt := Some(at), approvedAt := if public then Some(at) else None,
                         publishedAt := if public then Some(at) else None)],
                       decisions := s.decisions + if public then [Decision(OnComment(c), None, Approve, None, s.now)] else [])
  {
    FindsWaiting(seen, token, c);
  }

  /** A new link is sent exactly after the interval, to a comment that waits and whose last link nobody has changed. */
  lemma ReissueRule(op: Op, seen: Store, s: Store)
    requires op.Reissue?
    ensures var c := op.comment;
            Perform(op, seen, s).Ok? <==>
              && c < |seen.comments| && c < |s.comments|
              && seen.comments[c].status.PendingConfirmation? && s.comments[c].status.PendingConfirmation?
              && s.comments[c].token == seen.comments[c].token && s.comments[c].tokenSent == seen.comments[c].tokenSent
              && (seen.comments[c].tokenSent.Some? ==>
                    s.now >= seen.comments[c].tokenSent.value + 1 && s.now >= seen.comments[c].tokenSent.value + op.minInterval)
    ensures Perform(op, seen, s).Ok? ==>
              var hours := if op.ttlHours < 1 then 1 else if op.ttlHours > 168 then 168 else op.ttlHours;
              After(op, seen, s) == s.(
                comments := s.comments[op.comment := s.comments[op.comment].(
                  token := Some(op.token), tokenExpires := Some(s.now + hours * 3600), tokenSent := Some(s.now))],
                issued := s.issued[op.token := op.comment])
  {
  }

  // ---------------------------------------------------------------- revisions

  /** The author edits that are stored for a comment. */
  ghost function AuthorRows(revisions: seq<Revision>, c: nat, author: UserId): set<nat> {
    set r: nat | r < |revisions| && revisions[r].comment == c && revisions[r].editor == Some(author) && revisions[r].authorEdit
  }

  lemma {:induction false} AuthorEditsAreRows(revisions: seq<Revision>, c: nat, author: UserId)
    ensures AuthorEdits(revisions, c, author) == |AuthorRows(revisions, c, author)|
  {
    if revisions != [] {
      var last := |revisions| - 1;
      AuthorEditsAreRows(revisions[..last], c, author);
      var before, now := AuthorRows(revisions[..last], c, author), AuthorRows(revisions, c, author);
      if IsAuthorEdit(revisions[last], c, author) {
        assert now == before + {last};
      } else {
        assert now == before;
      }
    }
  }

  /** An author may edit within the window after publication, up to the cap; a moderator always. */
  ghost predicate MayEdit(seen: Store, c: nat, editor: User, policy: Policy, moderator: bool) {
    && c < |seen.comments| && seen.comments[c].status.Approved?
    && var row := seen.comments[c];
       var published := if row.publishedAt.Some? then row.publishedAt.value
                        else if row.approvedAt.Some? then row.approvedAt.value else row.createdAt;
       moderator ||
         (&& row.author == Some(editor.id)
          && policy.editWindowMinutes > 0 && seen.now <= published + policy.editWindowMinutes * 60
          && |AuthorRows(seen.revisions, c, editor.id)| < policy.maxUserEdits)
  }

  /** Comment `c` has a proposal that waits for review. */
  predicate Waiting(seen: Store, c: nat) {
    exists r :: 0 <= r < |seen.revisions| && seen.revisions[r].comment == c && seen.revisions[r].status.Proposed?
  }

  lemma WaitingIff(seen: Store, c: nat)
    ensures HasProposal(seen.revisions, c) <==> Waiting(seen, c)
  {
    if Waiting(seen, c) {
      var r :| 0 <= r < |seen.revisions| && seen.revisions[r].comment == c && seen.revisions[r].status.Proposed?;
      assert seen.revisions[r] in seen.revisions;
    }
  }

  /** Nobody has stored a revision of that number, or another proposal, since the call read the rows. */
  predicate Unopposed(s: Store, row: Revision) {
    && (forall r :: 0 <= r < |s.revisions| && s.revisions[r].comment == row.comment ==> s.revisions[r].number != row.number)
    && (row.status.Proposed? ==> forall r :: 0 <= r < |s.revisions| ==> s.revisions[r].pendingKey != Some(row.comment))
  }

  /** The stored row of an edit, and the body if it is public at once. */
  predicate StoredEdit(s: Store, s': Store, row: Revision, public: bool) {
    && row.pendingKey == (if public then None else Some(row.comment))
    && row.status == (if public then Accepted else Proposed)
    && s' == s.(revisions := s.revisions + [row],
                comments := if public && row.comment < |s.comments|
                            then s.comments[row.comment := s.comments[row.comment].(body := row.body)] else s.comments)
  }

  lemma ReviseRule(op: Op, seen: Store, s: Store)
    requires op.Revise?
    ensures var public := op.moderator || (op.policy.trustedEditBypass && op.editor.trusted);
            var row := Revision(op.comment, Some(op.editor.id), MaxNumber(seen.revisions, op.comment) + 1, Strip(op.text),
                                if public then Accepted else Proposed, if public then None else Some(op.comment), !op.moderator);
            && (Perform(op, seen, s).Ok? <==>
                  && MayEdit(seen, op.comment, op.editor, op.policy, op.moderator)
                  && Strip(op.text) != "" && |op.text| <= op.policy.maxLength
                  && (public || !Waiting(seen, op.comment)) && Unopposed(s, row))
            && (Perform(op, seen, s).Ok? ==> StoredEdit(s, After(op, seen, s), row, public))
  {
    AuthorEditsAreRows(seen.revisions, op.comment, op.editor.id);
    WaitingIff(seen, op.comment);
  }

  lemma ReviseRemotelyRule(op: Op, seen: Store, s: Store)
    requires op.ReviseRemotely?
    ensures var row := Revision(op.comment, None, MaxNumber(seen.revisions, op.comment) + 1, Strip(op.text),
                                Proposed, Some(op.comment), false);
            && (Perform(op, seen, s).Ok? <==>
                  && op.comment < |seen.comments| && seen.comments[op.comment].status.Approved?
                  && op.policy.enabled && seen.comments[op.comment].remote == Some(op.remoteActor)
                  && Strip(op.text) != "" && |op.text| <= op.policy.maxLength
                  && !Waiting(seen, op.comment) && Unopposed(s, row))
            && (Perform(op, seen, s).Ok? ==> StoredEdit(s, After(op, seen, s), row, false))
  {
    WaitingIff(seen, op.comment);
  }

  /** What settling revision `r` leaves. */
  predicate Settled(s: Store, s': Store, r: nat, accept: bool) {
    && r < |s.revisions|
    && s'.revisions == s.revisions[r := s.revisions[r].(status := if accept then Accepted else Declined, pendingKey := None)]
    && s'.comments == (if accept && s.revisions[r].comment < |s.comments|
                       then s.comments[s.revisions[r].comment := s.comments[s.revisions[r].comment].(body := s.revisions[r].body)]
                       else s.comments)
  }

  predicate WaitsForReview(seen: Store, r: nat) {
    && r < |seen.revisions| && seen.revisions[r].status.Proposed? && seen.revisions[r].comment < |seen.comments|
    && seen.comments[seen.revisions[r].comment].status.Approved?
  }

  lemma ReviewRule(op: Op, seen: Store, s: Store)
    requires op.ReviewRevision?
    ensures Perform(op, seen, s).Ok? <==> WaitsForReview(seen, op.revision) && op.revision < |s.revisions|
    ensures Perform(op, seen, s).Ok? ==>
              var s' := After(op, seen, s);
              Settled(s, s', op.revision, op.accept) && s' == s.(revisions := s'.revisions, comments := s'.comments)
  {
  }

  lemma ModerateRevisionRule(op: Op, seen: Store, s: Store)
    requires op.ModerateRevision?
    ensures Perform(op, seen, s).Ok? <==>
              && WaitsForReview(seen, op.revision) && op.reasonOk
              && op.revision < |s.revisions| && s.revisions[op.revision].status.Proposed?
    ensures Perform(op, seen, s).Ok? ==>
              var s' := After(op, seen, s);
              && Settled(s, s', op.revision, op.accept)
              && s' == s.(revisions := s'.revisions, comments := s'.comments,
                          decisions := s.decisions + [Decision(OnRevision(op.revision), Some(op.actor),
                                                               if op.accept then Approve else Reject, None, s.now)])
  {
  }

  // ---------------------------------------------------------------- appeals

  /** The comment that decision `d` concerns is the appellant's, and so is the revision, if it concerns one. */
  predicate Concerns(seen: Store, d: Decision, appellant: UserId) {
    match d.target
    case OnComment(c) => c < |seen.comments| && seen.comments[c].author == Some(appellant)
    case OnRevision(r) =>
      && r < |seen.revisions| && seen.revisions[r].editor == Some(appellant)
      && seen.revisions[r].comment < |seen.comments| && seen.comments[seen.revisions[r].comment].author == Some(appellant)
  }

  predicate Replaced(seen: Store, d: nat) {
    exists x :: 0 <= x < |seen.decisions| && seen.decisions[x].supersedes == Some(d)
  }

  lemma ReplacedIff(seen: Store, d: nat)
    ensures Superseded(seen, d) <==> Replaced(seen, d)
  {
    if Replaced(seen, d) {
      var x :| 0 <= x < |seen.decisions| && seen.decisions[x].supersedes == Some(d);
      assert seen.decisions[x] in seen.decisions;
    }
  }

  lemma SubmitRule(op: Op, seen: Store, s: Store)
    requires op.SubmitAppeal?
    ensures var days := if op.windowDays < 1 then 1 else if op.windowDays > 90 then 90 else op.windowDays;
            Perform(op, seen, s).Ok? <==>
              && op.decision < |seen.decisions| && !Replaced(seen, op.decision)
              && (var d := seen.decisions[op.decision];
                  && (d.outcome.Reject? || d.outcome.MarkSpam? || d.outcome.Delete?)
                  && Concerns(seen, d, op.appellant) && seen.now <= d.at + days * 86400)
              && Strip(op.text) != "" && |Strip(op.text)| <= 5000 && op.decision !in s.appeals
    ensures Perform(op, seen, s).Ok? ==>
              After(op, seen, s) == s.(appeals := s.appeals[op.decision := Appeal(op.appellant, Open, None, false)])
  {
    ReplacedIff(seen, op.decision);
  }

  /** The reviewer took the decision himself, and somebody else could judge it. */
  predicate Barred(seen: Store, op: Op)
    requires op.ReviewAppeal? && op.decision < |seen.decisions|
  {
    && seen.decisions[op.decision].actor == Some(op.reviewer)
    && match op.others
       case Told(available) => available
       case Counted(staff) => exists u :: u in staff && u != op.reviewer
  }

  /** What was decided can still be undone: the revision is there, or the comment still has the status that was read. */
  predicate Undoable(seen: Store, s: Store, target: Target) {
    match target
    case OnRevision(r) => r < |seen.revisions| && r < |s.revisions| && seen.revisions[r].comment < |seen.comments|
    case OnComment(c) =>
      && c < |seen.comments| && c < |s.comments| && s.comments[c].status == seen.comments[c].status
      && (seen.comments[c].status.Rejected? || seen.comments[c].status.Spam? || seen.comments[c].status.Deleted?)
  }

  lemma JudgeAsked(op: Op, seen: Store, s: Store)
    requires op.ReviewAppeal?
    ensures Perform(op, seen, s).Ok? <==>
              && op.decision in seen.appeals && seen.appeals[op.decision].state.Open? && op.decision < |seen.decisions|
              && op.decision in s.appeals && s.appeals[op.decision].state.Open?
              && Strip(op.text) != "" && |Strip(op.text)| <= 2000 && !Barred(seen, op)
              && (op.overturn ==> Undoable(seen, s, seen.decisions[op.decision].target))
  {
    if op.decision < |seen.decisions| {
      OverturnGrows(op.decision, seen.decisions[op.decision], op.reviewer, seen, s);
      OthersMeans(op, seen);
    }
  }

  lemma OthersMeans(op: Op, seen: Store)
    requires op.ReviewAppeal? && op.decision < |seen.decisions|
    ensures Barred(seen, op) <==>
              seen.decisions[op.decision].actor == Some(op.reviewer) && OthersThan(op.others, seen.decisions[op.decision].actor)
  {
    if op.others.Counted? && seen.decisions[op.decision].actor == Some(op.reviewer) {
      forall u | u in op.others.staff ensures u != op.reviewer <==> Some(u) != seen.decisions[op.decision].actor {
      }
    }
  }

  /** An appeal that is judged is closed; a won one accepts the revision or restores the comment, under a new decision. */
  lemma JudgeStores(op: Op, seen: Store, s: Store)
    requires op.ReviewAppeal? && Perform(op, seen, s).Ok?
    ensures op.decision < |seen.decisions| && op.decision in s.appeals
    ensures var s', d := After(op, seen, s), seen.decisions[op.decision];
            && s'.appeals == s.appeals[op.decision := s.appeals[op.decision].(
                 state := if op.overturn then Overturned else Upheld,
                 replacement := if op.overturn then Some(|s.decisions|) else None,
                 selfReview := d.actor == Some(op.reviewer))]
            && s'.issued == s.issued && s'.now == s.now
            && s'.decisions == s.decisions
                 + (if op.overturn then [Decision(d.target, Some(op.reviewer), Restore, Some(op.decision), s.now)] else [])
            && (!op.overturn ==> s'.revisions == s.revisions && s'.comments == s.comments)
            && (op.overturn && d.target.OnRevision? ==> Settled(s, s', d.target.revision, true))
            && (op.overturn && d.target.OnComment? ==>
                  && s'.revisions == s.revisions && d.target.comment < |s.comments| == |s'.comments|
                  && s'.comments == s.comments[d.target.comment := s'.comments[d.target.comment]]
                  && s'.comments[d.target.comment].status.Approved? && s'.comments[d.target.comment].approvedAt == Some(s.now)
                  && s'.comments[d.target.comment].body == s.comments[d.target.comment].body)
  {
    OverturnGrows(op.decision, seen.decisions[op.decision], op.reviewer, seen, s);
  }

  // ---------------------------------------------------------------- texts

  predicate Space(ch: char) { ch == ' ' || ch == '\t' || ch == '\n' || ch == '\r' }

  /** A stripped text is what lies between the outer blanks. */
  lemma {:induction false} StripLeftCuts(s: string) returns (i: nat)
    ensures i <= |s| && StripLeft(s) == s[i..] && (i < |s| ==> !Space(s[i]))
    ensures forall k :: 0 <= k < i ==> Space(s[k])
  {
    if s != [] && Blank(s[0]) {
      var j := StripLeftCuts(s[1..]);
      i := j + 1;
      assert s[1..][j..] == s[i..];
      forall k | 0 <= k < i ensures Space(s[k]) { if k > 0 { assert s[1..][k - 1] == s[k]; } }
    } else {
      i := 0;
    }
  }

  lemma {:induction false} StripRightCuts(s: string) returns (j: nat)
    ensures j <= |s| && StripRight(s) == s[..j] && (j > 0 ==> !Space(s[j - 1]))
    ensures forall k :: j <= k < |s| ==> Space(s[k])
    decreases |s|
  {
    if s != [] && Blank(s[|s| - 1]) {
      var n := |s| - 1;
      j := StripRightCuts(s[..n]);
      assert s[..n][..j] == s[..j];
      forall k | j <= k < |s| ensures Space(s[k]) { if k < n { assert s[..n][k] == s[k]; } }
    } else {
      j := |s|;
    }
  }

  lemma StripCuts(s: string) returns (i: nat, j: nat)
    ensures i <= j <= |s| && Strip(s) == s[i..j]
    ensures (forall k :: 0 <= k < i ==> Space(s[k])) && (forall k :: j <= k < |s| ==> Space(s[k]))
    ensures i < j ==> !Space(s[i]) && !Space(s[j - 1])
  {
    i := StripLeftCuts(s);
    var n := StripRightCuts(s[i..]);
    j := i + n;
    assert s[i..][..n] == s[i..j];
    forall k | j <= k < |s| ensures Space(s[k]) { assert s[i..][k - i] == s[k]; }
    if i < j { assert s[i..][n - 1] == s[j - 1]; }
  }
}
