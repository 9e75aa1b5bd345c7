/**
 The revisions of a comment, over every interleaving: one proposal at a time, numbers without a gap,
 the cap on author edits, and a public body that is the one accepted last.
 */
module CommentRevisions {
  import opened Common
  import opened Comments
  import opened CommentStatus

  function CountFor(revisions: seq<Revision>, c: nat): nat {
    if revisions == [] then 0
    else
      var last := |revisions| - 1;
      CountFor(revisions[..last], c) + if revisions[last].comment == c then 1 else 0
  }

  ghost predicate RowOk(s: Store, r: nat)
    requires r < |s.revisions|
  {
    var row := s.revisions[r];
    && row.comment < |s.comments|
    && row.pendingKey == (if row.status == Proposed then Some(row.comment) else None)
    && row.number == CountFor(s.revisions[..r], row.comment) + 1
  }

  ghost predicate OneProposal(s: Store) {
    forall r, q :: 0 <= r < q < |s.revisions| && s.revisions[r].comment == s.revisions[q].comment ==>
      !(s.revisions[r].status == Proposed && s.revisions[q].status == Proposed)
  }

  ghost predicate RowsOk(s: Store) {
    forall r :: 0 <= r < |s.revisions| ==> RowOk(s, r)
  }

  // ---------------------------------------------------------------- counting

  lemma {:induction false} CountGrows(a: seq<Revision>, n: nat, c: nat)
    requires n <= |a|
    ensures CountFor(a[..n], c) <= CountFor(a, c)
    decreases |a|
  {
    if n < |a| {
      assert a[..|a| - 1][..n] == a[..n];
      CountGrows(a[..|a| - 1], n, c);
    } else {
      TakeAll(a);
    }
  }

  /** Rows with the same comments and editors count the same. */
  lemma {:induction false} CountsAgree(a: seq<Revision>, b: seq<Revision>, c: nat, author: UserId)
    requires |a| == |b| && forall r :: 0 <= r < |a| ==> SameRevision(a[r], b[r])
    ensures CountFor(a, c) == CountFor(b, c) && AuthorEdits(a, c, author) == AuthorEdits(b, c, author)
  {
    if a != [] {
      assert SameRevision(a[|a| - 1], b[|a| - 1]);
      CountsAgree(a[..|a| - 1], b[..|a| - 1], c, author);
    }
  }

  /** If no revision of `c` was added after the first `n`, no author edit was either. */
  lemma {:induction false} NoneAdded(a: seq<Revision>, n: nat, c: nat, author: UserId)
    requires n <= |a| && CountFor(a[..n], c) == CountFor(a, c)
    ensures AuthorEdits(a[..n], c, author) == AuthorEdits(a, c, author)
    decreases |a|
  {
    if n < |a| {
      assert a[..|a| - 1][..n] == a[..n];
      CountGrows(a[..|a| - 1], n, c);
      NoneAdded(a[..|a| - 1], n, c, author);
    } else {
      TakeAll(a);
    }
  }

  /** Rows whose numbers count up from one. */
  ghost predicate Numbered(a: seq<Revision>) {
    forall r :: 0 <= r < |a| ==> a[r].number == CountFor(a[..r], a[r].comment) + 1
  }

  lemma NumberedPrefix(a: seq<Revision>, n: nat)
    requires Numbered(a) && n <= |a|
    ensures Numbered(a[..n])
  {
    forall r | 0 <= r < n ensures a[..n][r].number == CountFor(a[..n][..r], a[..n][r].comment) + 1 {
      assert a[..n][..r] == a[..r];
    }
  }

  lemma {:induction false} MaxIsCount(a: seq<Revision>, c: nat)
    requires Numbered(a)
    ensures MaxNumber(a, c) == CountFor(a, c)
  {
    if a != [] {
      NumberedPrefix(a, |a| - 1);
      MaxIsCount(a[..|a| - 1], c);
    }
  }

  /** Every number up to the count is taken. */
  lemma {:induction false} NumberTaken(a: seq<Revision>, c: nat, m: nat) returns (r: nat)
    requires Numbered(a) && 1 <= m <= CountFor(a, c)
    ensures r < |a| && a[r].comment == c && a[r].number == m
  {
    var last := |a| - 1;
    if m <= CountFor(a[..last], c) {
      NumberedPrefix(a, last);
      r := NumberTaken(a[..last], c, m);
    } else {
      r := last;
    }
  }

  lemma RowsNumbered(s: Store)
    requires RowsOk(s)
    ensures Numbered(s.revisions)
  {
    forall r | 0 <= r < |s.revisions| ensures s.revisions[r].number == CountFor(s.revisions[..r], s.revisions[r].comment) + 1 {
      assert RowOk(s, r);
    }
  }

  /** What the unique constraint gives: an inserted row was numbered after all rows of its comment. */
  lemma InsertedSawAll(seen: Store, s: Store, row: Revision, author: UserId)
    requires RowsOk(seen) && RowsOk(s) && RevisionsGrow(seen, s)
    requires row.number == MaxNumber(seen.revisions, row.comment) + 1 && Insertable(s.revisions, row)
    ensures CountFor(seen.revisions, row.comment) == CountFor(s.revisions, row.comment)
    ensures AuthorEdits(seen.revisions, row.comment, author) == AuthorEdits(s.revisions, row.comment, author)
  {
    var n, c := |seen.revisions|, row.comment;
    RowsNumbered(seen);
    RowsNumbered(s);
    MaxIsCount(seen.revisions, c);
    CountsAgree(seen.revisions, s.revisions[..n], c, author);
    CountGrows(s.revisions, n, c);
    if row.number <= CountFor(s.revisions, c) {
      var r := NumberTaken(s.revisions, c, row.number);
      assert false;
    }
    NoneAdded(s.revisions, n, c, author);
  }

  // ---------------------------------------------------------------- one step

  ghost predicate RevisionInv(s: Store) { RowsOk(s) && OneProposal(s) }

  lemma InsertOk(seen: Store, s: Store, row: Revision)
    requires RevisionInv(seen) && RevisionInv(s) && RevisionsGrow(seen, s) && row.comment < |s.comments|
    requires row.number == MaxNumber(seen.revisions, row.comment) + 1 && Insertable(s.revisions, row)
    requires row.pendingKey == if row.status == Proposed then Some(row.comment) else None
    ensures RevisionInv(Insert(s, row))
  {
    var s', n := Insert(s, row), |s.revisions|;
    RowsNumbered(seen);
    MaxIsCount(seen.revisions, row.comment);
    InsertedSawAll(seen, s, row, 0);
    forall r | 0 <= r <= n ensures RowOk(s', r) {
      if r < n {
        assert RowOk(s, r) && s'.revisions[..r] == s.revisions[..r];
      } else {
        assert s'.revisions[..n] == s.revisions;
      }
    }
    forall r | 0 <= r < n && s.revisions[r].comment == row.comment && row.status == Proposed
      ensures s.revisions[r].status != Proposed
    {
      assert RowOk(s, r);
    }
  }

  /** Rows in which nothing but a status went from proposed to settled, or from one settled status to the other. */
  ghost predicate SameRows(s: Store, s': Store) {
    && |s'.comments| >= |s.comments| && |s'.revisions| == |s.revisions|
    && forall r :: 0 <= r < |s.revisions| ==>
         && SameRevision(s.revisions[r], s'.revisions[r])
         && (s'.revisions[r] == s.revisions[r] || (s'.revisions[r].status != Proposed && s'.revisions[r].pendingKey.None?))
  }

  lemma SameRowsKeep(s: Store, s': Store)
    requires RevisionInv(s) && SameRows(s, s')
    ensures RevisionInv(s')
  {
    forall r | 0 <= r < |s'.revisions| ensures RowOk(s', r) {
      assert RowOk(s, r) && SameRevision(s.revisions[r], s'.revisions[r]);
      CountsAgree(s.revisions[..r], s'.revisions[..r], s.revisions[r].comment, 0);
    }
    forall r, q | 0 <= r < q < |s'.revisions| && s'.revisions[r].comment == s'.revisions[q].comment
      ensures !(s'.revisions[r].status == Proposed && s'.revisions[q].status == Proposed)
    {
      assert SameRevision(s.revisions[r], s'.revisions[r]) && SameRevision(s.revisions[q], s'.revisions[q]);
    }
  }

  /** The row that an inserting operation adds. */
  function RowOf(op: Op, seen: Store): Revision
    requires op.Revise? || op.ReviseRemotely?
  {
    if op.Revise? then
      NewRevision(seen, op.comment, Some(op.editor.id), op.text,
                  op.moderator || (op.policy.trustedEditBypass && op.editor.trusted), !op.moderator)
    else NewRevision(seen, op.comment, None, op.text, false, false)
  }

  lemma Inserting(op: Op, seen: Store, s: Store)
    requires (op.Revise? || op.ReviseRemotely?) && Perform(op, seen, s).Ok?
    ensures After(op, seen, s) == Insert(s, RowOf(op, seen)) && Insertable(s.revisions, RowOf(op, seen))
    ensures op.comment < |seen.comments|
    ensures op.Revise? && !op.moderator ==> AuthorEdits(seen.revisions, op.comment, op.editor.id) < op.policy.maxUserEdits
  {
  }

  lemma SettleRows(s: Store, r: nat, accept: bool)
    requires r < |s.revisions|
    ensures SameRows(s, Settle(s, r, accept))
  {
  }

  lemma ReviewAppealRows(d: nat, reviewer: UserId, overturn: bool, text: string, others: Reviewers, seen: Store, s: Store)
    ensures SameRows(s, After(ReviewAppeal(d, reviewer, overturn, text, others), seen, s))
  {
    if overturn && d < |seen.decisions| && seen.decisions[d].target.OnRevision? && seen.decisions[d].target.revision < |s.revisions| {
      SettleRows(s, seen.decisions[d].target.revision, true);
    }
  }

  lemma OtherRows(op: Op, seen: Store, s: Store)
    requires !op.Revise? && !op.ReviseRemotely?
    ensures SameRows(s, After(op, seen, s))
  {
    match op
    case ReviewRevision(r, accept) => if r < |s.revisions| { SettleRows(s, r, accept); }
    case ModerateRevision(r, _, accept, _) => if r < |s.revisions| { SettleRows(s, r, accept); }
    case ReviewAppeal(d, reviewer, overturn, text, others) => ReviewAppealRows(d, reviewer, overturn, text, others, seen, s);
    case _ =>
  }

  lemma AfterKeepsRows(op: Op, seen: Store, s: Store)
    requires RevisionInv(seen) && RevisionInv(s) && Grows(seen, s)
    ensures RevisionInv(After(op, seen, s))
  {
    if (op.Revise? || op.ReviseRemotely?) && Perform(op, seen, s).Ok? {
      Inserting(op, seen, s);
      InsertOk(seen, s, RowOf(op, seen));
    } else if !op.Revise? && !op.ReviseRemotely? {
      OtherRows(op, seen, s);
      SameRowsKeep(s, After(op, seen, s));
    }
  }

  lemma {:induction false} RunKeepsRows(states: seq<Store>, steps: seq<Step>, n: nat)
    requires IsRun(states, steps) && n < |states|
    ensures RevisionInv(states[n])
    decreases n
  {
    if n > 0 {
      assert Follows(states, steps, n - 1);
      RunKeepsRows(states, steps, n - 1);
      RunKeepsRows(states, steps, steps[n - 1].at);
      RunGrows(states, steps, steps[n - 1].at, n - 1);
      AfterKeepsRows(steps[n - 1].op, states[steps[n - 1].at], states[n - 1]);
    }
  }

  // ---------------------------------------------------------------- proposals, numbers and the cap

  /** A comment has at most one proposal, which alone carries the pending key. */
  lemma OneProposalAtATime(states: seq<Store>, steps: seq<Step>, n: nat, r: nat, q: nat)
    requires IsRun(states, steps) && n < |states| && r < |states[n].revisions| && q < |states[n].revisions|
    ensures states[n].revisions[r].pendingKey
         == if states[n].revisions[r].status == Proposed then Some(states[n].revisions[r].comment) else None
    ensures (states[n].revisions[r].comment == states[n].revisions[q].comment
             && states[n].revisions[r].status == Proposed && states[n].revisions[q].status == Proposed) ==> r == q
  {
    RunKeepsRows(states, steps, n);
    assert RowOk(states[n], r);
    if r < q {
      assert !(states[n].revisions[r].comment == states[n].revisions[q].comment
               && states[n].revisions[r].status == Proposed && states[n].revisions[q].status == Proposed);
    }
  }

  /** The revisions of a comment are numbered 1, 2, 3 and so on, in the order in which they were made. */
  lemma NumbersCountUp(states: seq<Store>, steps: seq<Step>, n: nat, c: nat, m: nat) returns (r: nat)
    requires IsRun(states, steps) && n < |states| && 1 <= m <= CountFor(states[n].revisions, c)
    ensures r < |states[n].revisions| && states[n].revisions[r].comment == c && states[n].revisions[r].number == m
    ensures CountFor(states[n].revisions[..r], c) == m - 1
    ensures forall q :: 0 <= q < |states[n].revisions| && states[n].revisions[q].comment == c && states[n].revisions[q].number == m ==> q == r
  {
    RunKeepsRows(states, steps, n);
    RowsNumbered(states[n]);
    var a := states[n].revisions;
    r := NumberTaken(a, c, m);
    forall q | 0 <= q < |a| && a[q].comment == c && a[q].number == m ensures q == r {
      if q < r { NumbersDiffer(a, q, r); }
      if r < q { NumbersDiffer(a, r, q); }
    }
  }

  lemma NumbersDiffer(a: seq<Revision>, q: nat, r: nat)
    requires Numbered(a) && q < r < |a| && a[q].comment == a[r].comment
    ensures a[q].number < a[r].number
  {
    assert a[..r][..q + 1] == a[..q + 1] && a[..q + 1][..q] == a[..q];
    CountGrows(a[..r], q + 1, a[q].comment);
  }

  ghost predicate CapAt(op: Op, c: nat, author: UserId, cap: nat) {
    op.Revise? && !op.moderator && op.comment == c && op.editor.id == author ==> op.policy.maxUserEdits <= cap
  }

  lemma {:induction false} SameRowsSameEdits(s: Store, s': Store, c: nat, author: UserId)
    requires SameRows(s, s')
    ensures AuthorEdits(s'.revisions, c, author) == AuthorEdits(s.revisions, c, author)
  {
    CountsAgree(s.revisions, s'.revisions, c, author);
  }

  lemma InsertedEdits(s: Store, row: Revision, c: nat, author: UserId)
    ensures AuthorEdits(Insert(s, row).revisions, c, author)
         == AuthorEdits(s.revisions, c, author) + if IsAuthorEdit(row, c, author) then 1 else 0
  {
    assert (s.revisions + [row])[..|s.revisions|] == s.revisions;
  }

  lemma CapKeptByInsertion(op: Op, seen: Store, s: Store, c: nat, author: UserId, cap: nat)
    requires RevisionInv(seen) && RevisionInv(s) && RevisionsGrow(seen, s)
    requires (op.Revise? || op.ReviseRemotely?) && Perform(op, seen, s).Ok?
    requires AuthorEdits(s.revisions, c, author) <= cap && CapAt(op, c, author, cap)
    ensures AuthorEdits(After(op, seen, s).revisions, c, author) <= cap
  {
    var row := RowOf(op, seen);
    Inserting(op, seen, s);
    InsertedSawAll(seen, s, row, author);
    InsertedEdits(s, row, c, author);
  }

  lemma CapKept(op: Op, seen: Store, s: Store, c: nat, author: UserId, cap: nat)
    requires RevisionInv(seen) && RevisionInv(s) && Grows(seen, s)
    requires AuthorEdits(s.revisions, c, author) <= cap && CapAt(op, c, author, cap)
    ensures AuthorEdits(After(op, seen, s).revisions, c, author) <= cap
  {
    if !op.Revise? && !op.ReviseRemotely? {
      OtherRows(op, seen, s);
      SameRowsSameEdits(s, After(op, seen, s), c, author);
    } else if Perform(op, seen, s).Ok? {
      CapKeptByInsertion(op, seen, s, c, author, cap);
    }
  }

  /** Even with concurrent edits an author never makes more edits than the policy allows. */
  lemma {:induction false} EditCapHolds(states: seq<Store>, steps: seq<Step>, n: nat, c: nat, author: UserId, cap: nat)
    requires IsRun(states, steps) && n < |states|
    requires forall k :: 0 <= k < n ==> CapAt(steps[k].op, c, author, cap)
    ensures AuthorEdits(states[n].revisions, c, author) <= cap
    decreases n
  {
    if n > 0 {
      EditCapHolds(states, steps, n - 1, c, author, cap);
      assert Follows(states, steps, n - 1);
      RunKeepsRows(states, steps, n - 1);
      RunKeepsRows(states, steps, steps[n - 1].at);
      RunGrows(states, steps, steps[n - 1].at, n - 1);
      CapKept(steps[n - 1].op, states[steps[n - 1].at], states[n - 1], c, author, cap);
    }
  }

  // ---------------------------------------------------------------- declined revisions

  predicate RejectsRevision(d: Decision) { d.target.OnRevision? && d.outcome == Reject }

  /** Decision `d` declined revision `r`, and no appeal against it has been won. */
  predicate DeclinedBy(s: Store, d: nat, r: nat) {
    && d < |s.decisions| && RejectsRevision(s.decisions[d]) && s.decisions[d].target == OnRevision(r)
    && !(d in s.appeals && s.appeals[d].state == Overturned)
  }

  /** What a decision declined stays declined until the appeal against it is won. */
  ghost predicate StayDeclined(s: Store) {
    forall d: nat, r: nat :: DeclinedBy(s, d, r) ==> r < |s.revisions| && s.revisions[r].status == Declined
  }

  predicate RejectionOk(s: Store, d: nat)
    requires d < |s.decisions|
  {
    RejectsRevision(s.decisions[d]) ==>
      var r := s.decisions[d].target.revision;
      && r < |s.revisions| && s.revisions[r].status != Proposed
      && (d !in s.appeals || s.appeals[d].state != Overturned ==> s.revisions[r].status == Declined)
  }

  ghost predicate RejectionsOk(s: Store) {
    && (forall d :: 0 <= d < |s.decisions| ==> RejectionOk(s, d))
    && (forall d :: 0 <= d < |s.decisions| && s.decisions[d].target.OnRevision? ==>
          s.decisions[d].outcome in {Approve, Reject, Restore})
    && (forall d, x :: 0 <= d < x < |s.decisions| && RejectsRevision(s.decisions[d]) && RejectsRevision(s.decisions[x]) ==>
          s.decisions[d].target != s.decisions[x].target)
    && (forall d :: d in s.appeals ==> d < |s.decisions| && s.decisions[d].outcome in {Reject, MarkSpam, Delete})
  }

  /** A plain review that accepts a revision which a decision has declined since the review read it. */
  ghost predicate AcceptsDeclined(op: Op, seen: Store, s: Store) {
    && op.ReviewRevision? && op.accept && Perform(op, seen, s).Ok?
    && exists d: nat :: DeclinedBy(s, d, op.revision)
  }

  /** Nothing was decided on a revision, and no settled revision changed. */
  ghost predicate RejectionsUntouched(s: Store, s': Store) {
    && (s'.decisions == s.decisions || exists d :: s'.decisions == s.decisions + [d] && d.target.OnComment?)
    && |s.revisions| <= |s'.revisions|
    && (forall r :: 0 <= r < |s.revisions| && s.revisions[r].status != Proposed ==> s'.revisions[r].status == s.revisions[r].status)
    && (forall d :: d in s'.appeals ==> d < |s.decisions| && s.decisions[d].outcome in {Reject, MarkSpam, Delete})
    && (forall d :: d in s'.appeals && s'.appeals[d].state == Overturned && s.decisions[d].target.OnRevision? ==>
          d in s.appeals && s.appeals[d].state == Overturned)
    && (forall d :: d in s.appeals && s.appeals[d].state == Overturned ==> d in s'.appeals && s'.appeals[d].state == Overturned)
  }

  lemma UntouchedRejections(s: Store, s': Store)
    requires RejectionsOk(s) && RejectionsUntouched(s, s')
    ensures RejectionsOk(s')
  {
    forall d | 0 <= d < |s'.decisions| ensures RejectionOk(s', d) {
      if d < |s.decisions| { assert RejectionOk(s, d); }
    }
  }

  /** Steps that add at most one decision, on a comment, and touch neither revisions nor appeals. */
  ghost predicate OnlyComments(s: Store, s': Store) {
    && s'.revisions == s.revisions && s'.appeals == s.appeals
    && (s'.decisions == s.decisions || exists d :: s'.decisions == s.decisions + [d] && d.target.OnComment?)
  }

  lemma OnlyCommentsRejections(s: Store, s': Store)
    requires RejectionsOk(s) && OnlyComments(s, s')
    ensures RejectionsOk(s')
  {
    UntouchedRejections(s, s');
  }

  lemma AutomaticOnly(s: Store, s': Store, c: nat, status: Status, now: Time)
    requires s'.revisions == s.revisions && s'.appeals == s.appeals
    requires s'.decisions == s.decisions + Automatic(c, status, now)
    ensures OnlyComments(s, s')
  {
    if Automatic(c, status, now) != [] {
      assert Automatic(c, status, now) == [Automatic(c, status, now)[0]];
    }
  }

  lemma CommentStepOnly(op: Op, seen: Store, s: Store)
    requires op.Wait? || op.Create? || op.Confirm? || op.Reissue? || op.Moderate?
    ensures OnlyComments(s, After(op, seen, s))
  {
    if Perform(op, seen, s).Ok? {
      var s' := After(op, seen, s);
      match op
      case Create(_, _, _, _, _, _, _, _, _, _, _) =>
        AutomaticOnly(s, s', |s.comments|, NewComment(op, seen, s.now).status, s.now);
      case Confirm(_, policy) =>
        AutomaticOnly(s, s', FindConfirmable(seen.comments, op.token, seen.now).value, PublicationState(policy.value, None, 0), s.now);
      case Moderate(_, _, _, _, _) => assert s'.decisions == s.decisions + [s'.decisions[|s.decisions|]];
      case _ =>
    }
  }

  lemma AppealRejections(op: Op, seen: Store, s: Store)
    requires RejectionsOk(s) && op.SubmitAppeal? && seen.decisions <= s.decisions
    ensures RejectionsOk(After(op, seen, s))
  {
    UntouchedRejections(s, After(op, seen, s));
  }

  lemma CommentStepRejections(op: Op, seen: Store, s: Store)
    requires RejectionsOk(s) && Grows(seen, s)
    requires op.Wait? || op.Create? || op.Confirm? || op.Reissue? || op.Moderate? || op.SubmitAppeal?
    ensures RejectionsOk(After(op, seen, s))
  {
    if op.SubmitAppeal? {
      AppealRejections(op, seen, s);
    } else {
      CommentStepOnly(op, seen, s);
      OnlyCommentsRejections(s, After(op, seen, s));
    }
  }

  lemma InsertRejections(s: Store, row: Revision)
    requires RejectionsOk(s)
    ensures RejectionsOk(Insert(s, row))
  {
    UntouchedRejections(s, Insert(s, row));
  }

  lemma ReviewRejections(s: Store, r: nat, accept: bool)
    requires RejectionsOk(s) && r < |s.revisions|
    requires accept ==> forall d: nat :: !DeclinedBy(s, d, r)
    ensures RejectionsOk(Settle(s, r, accept))
  {
    var s' := Settle(s, r, accept);
    forall d | 0 <= d < |s'.decisions| ensures RejectionOk(s', d) {
      assert RejectionOk(s, d) && (accept ==> !DeclinedBy(s, d, r));
    }
  }

  lemma DecidedRejections(s: Store, r: nat, accept: bool, d: Decision)
    requires RejectionsOk(s) && r < |s.revisions| && s.revisions[r].status == Proposed
    requires d.target == OnRevision(r) && d.outcome == if accept then Approve else Reject
    ensures RejectionsOk(Settle(s, r, accept).(decisions := s.decisions + [d]))
  {
    NotDeclinedYet(s, r);
    ReviewRejections(s, r, accept);
    var t := Settle(s, r, accept);
    var s' := t.(decisions := s.decisions + [d]);
    forall x | 0 <= x < |s.decisions| && RejectsRevision(s.decisions[x]) ensures s.decisions[x].target != OnRevision(r) {
      assert RejectionOk(s, x);
    }
    forall x | 0 <= x < |s'.decisions| ensures RejectionOk(s', x) {
      if x < |s.decisions| { assert RejectionOk(t, x); }
    }
  }

  lemma OverturnedRejections(s: Store, d: nat, r: nat, added: Decision, appeal: Appeal)
    requires RejectionsOk(s) && d in s.appeals && s.decisions[d].target == OnRevision(r) && r < |s.revisions|
    requires added.target == OnRevision(r) && added.outcome == Restore && appeal.state == Overturned
    ensures RejectionsOk(Settle(s, r, true).(decisions := s.decisions + [added], appeals := s.appeals[d := appeal]))
  {
    var s' := Settle(s, r, true).(decisions := s.decisions + [added], appeals := s.appeals[d := appeal]);
    assert RejectsRevision(s.decisions[d]);
    forall x | 0 <= x < |s'.decisions| ensures RejectionOk(s', x) {
      if x < |s.decisions| && x != d {
        assert RejectionOk(s, x);
      }
    }
  }

  lemma ClosedRejections(s: Store, d: nat, appeal: Appeal)
    requires RejectionsOk(s) && d in s.appeals && s.appeals[d].state == Open
    requires appeal.state == Overturned ==> s.decisions[d].target.OnComment?
    ensures RejectionsOk(s.(appeals := s.appeals[d := appeal]))
  {
    var s' := s.(appeals := s.appeals[d := appeal]);
    forall x | 0 <= x < |s'.decisions| ensures RejectionOk(s', x) {
      assert RejectionOk(s, x);
    }
  }

  lemma DecideRejections(s: Store, c: nat, read: Comment, actor: UserId, supersedes: Option<nat>)
    requires RejectionsOk(s) && c < |s.comments|
    ensures RejectionsOk(Decide(s, c, read, actor, Restore, supersedes))
  {
    OnlyCommentsRejections(s, Decide(s, c, read, actor, Restore, supersedes));
  }

  lemma ReviewAppealRejections(op: Op, seen: Store, s: Store)
    requires RejectionsOk(s) && Grows(seen, s) && op.ReviewAppeal? && Perform(op, seen, s).Ok?
    ensures RejectionsOk(After(op, seen, s))
  {
    var d, s' := op.decision, After(op, seen, s);
    assert s.decisions[d] == seen.decisions[d];
    if !op.overturn {
      ClosedRejections(s, d, s'.appeals[d]);
    } else {
      match s.decisions[d].target
      case OnRevision(r) => OverturnedRejections(s, d, r, s'.decisions[|s.decisions|], s'.appeals[d]);
      case OnComment(c) =>
        DecideRejections(s, c, seen.comments[c], op.reviewer, Some(d));
        ClosedRejections(Decide(s, c, seen.comments[c], op.reviewer, Restore, Some(d)), d, s'.appeals[d]);
    }
  }

  lemma NotDeclinedYet(s: Store, r: nat)
    requires RejectionsOk(s) && r < |s.revisions| && s.revisions[r].status == Proposed
    ensures forall d: nat :: !DeclinedBy(s, d, r)
  {
    forall d: nat | d < |s.decisions| ensures !DeclinedBy(s, d, r) {
      assert RejectionOk(s, d);
    }
  }

  lemma StepRejections(op: Op, seen: Store, s: Store)
    requires RejectionsOk(s) && Grows(seen, s) && !AcceptsDeclined(op, seen, s)
    ensures RejectionsOk(After(op, seen, s))
  {
    if Perform(op, seen, s).Ok? {
      if op.Revise? || op.ReviseRemotely? {
        Inserting(op, seen, s);
        InsertRejections(s, RowOf(op, seen));
      } else if op.ReviewRevision? {
        ReviewRejections(s, op.revision, op.accept);
      } else if op.ModerateRevision? {
        DecidedRejections(s, op.revision, op.accept, After(op, seen, s).decisions[|s.decisions|]);
      } else if op.ReviewAppeal? {
        ReviewAppealRejections(op, seen, s);
      } else {
        CommentStepRejections(op, seen, s);
      }
    }
  }

  /** Step `k` is such a review. */
  ghost predicate AcceptsDeclinedAt(states: seq<Store>, steps: seq<Step>, k: nat)
    requires k < |steps| && |states| == |steps| + 1
  {
    steps[k].at <= k && AcceptsDeclined(steps[k].op, states[steps[k].at], states[k])
  }

  lemma {:induction false} RunKeepsRejections(states: seq<Store>, steps: seq<Step>, n: nat)
    requires IsRun(states, steps) && n < |states|
    requires forall k :: 0 <= k < n ==> !AcceptsDeclinedAt(states, steps, k)
    ensures RejectionsOk(states[n])
    decreases n
  {
    if n > 0 {
      RunKeepsRejections(states, steps, n - 1);
      assert Follows(states, steps, n - 1) && !AcceptsDeclinedAt(states, steps, n - 1);
      RunGrows(states, steps, steps[n - 1].at, n - 1);
      StepRejections(steps[n - 1].op, states[steps[n - 1].at], states[n - 1]);
    }
  }

  lemma KeepsDeclined(s: Store)
    requires RejectionsOk(s)
    ensures StayDeclined(s)
  {
    forall d: nat, r: nat | DeclinedBy(s, d, r) ensures r < |s.revisions| && s.revisions[r].status == Declined {
      assert RejectionOk(s, d);
    }
  }

  lemma AcceptingBreaks(op: Op, seen: Store, s: Store)
    requires AcceptsDeclined(op, seen, s)
    ensures !StayDeclined(After(op, seen, s))
  {
    var d: nat :| DeclinedBy(s, d, op.revision);
    assert DeclinedBy(After(op, seen, s), d, op.revision);
  }

  /**
   In every interleaving, what decisions have declined is declined in all states up to `n` exactly if no
   plain review before then accepts a revision that a decision has declined meanwhile.
   */
  lemma StayDeclinedIff(states: seq<Store>, steps: seq<Step>, n: nat)
    requires IsRun(states, steps) && n < |states|
    ensures (forall j :: 0 <= j <= n ==> StayDeclined(states[j]))
       <==> (forall k :: 0 <= k < n ==> !AcceptsDeclinedAt(states, steps, k))
  {
    if forall k :: 0 <= k < n ==> !AcceptsDeclinedAt(states, steps, k) {
      forall j | 0 <= j <= n ensures StayDeclined(states[j]) {
        RunKeepsRejections(states, steps, j);
        KeepsDeclined(states[j]);
      }
    }
    if forall j :: 0 <= j <= n ==> StayDeclined(states[j]) {
      forall k | 0 <= k < n ensures !AcceptsDeclinedAt(states, steps, k) {
        assert Follows(states, steps, k) && StayDeclined(states[k + 1]);
        if AcceptsDeclinedAt(states, steps, k) { AcceptingBreaks(steps[k].op, states[steps[k].at], states[k]); }
      }
    }
  }

  // ---------------------------------------------------------------- the public body

  /** Revision `r` became public in the step from `s` to `s'`. */
  predicate Accepts(s: Store, s': Store, r: nat, c: nat) {
    && r < |s'.revisions| && s'.revisions[r].comment == c && s'.revisions[r].status == Accepted
    && !(r < |s.revisions| && s.revisions[r].status == Accepted)
  }

  ghost predicate BodyFollows(s: Store, s': Store, c: nat)
    requires c < |s.comments|
  {
    && c < |s'.comments|
    && (forall r: nat :: Accepts(s, s', r, c) ==> s'.comments[c].body == s'.revisions[r].body)
    && ((forall r: nat :: !Accepts(s, s', r, c)) ==> s'.comments[c].body == s.comments[c].body)
  }

  lemma InsertBody(s: Store, row: Revision, c: nat)
    requires c < |s.comments|
    ensures BodyFollows(s, Insert(s, row), c)
  {
    var s' := Insert(s, row);
    assert forall r: nat :: Accepts(s, s', r, c) ==> r == |s.revisions|;
    if row.status == Accepted && row.comment == c { assert Accepts(s, s', |s.revisions|, c); }
  }

  lemma SettleBodyIff(s: Store, r: nat, accept: bool, c: nat)
    requires c < |s.comments| && r < |s.revisions|
    ensures !(accept && Stale(s, r, c)) ==> BodyFollows(s, Settle(s, r, accept), c)
    ensures accept && Stale(s, r, c) ==> !BodyFollows(s, Settle(s, r, accept), c)
  {
    var s' := Settle(s, r, accept);
    assert forall q: nat :: Accepts(s, s', q, c) ==> q == r;
    if accept && s.revisions[r].comment == c && s.revisions[r].status != Accepted { assert Accepts(s, s', r, c); }
  }

  /** Revision `r` of comment `c` was accepted before, and another body is public by now. */
  predicate Stale(s: Store, r: nat, c: nat)
    requires c < |s.comments|
  {
    && r < |s.revisions| && s.revisions[r].comment == c
    && s.revisions[r].status == Accepted && s.comments[c].body != s.revisions[r].body
  }

  /** The revision that `op` makes public. */
  function AcceptedBy(op: Op, seen: Store): Option<nat> {
    match op
    case ReviewRevision(r, accept) => When(accept, r)
    case ModerateRevision(r, _, accept, _) => When(accept, r)
    case ReviewAppeal(d, _, overturn, _, _) =>
      if overturn && d < |seen.decisions| && seen.decisions[d].target.OnRevision? then Some(seen.decisions[d].target.revision)
      else None
    case _ => None
  }

  /** A call that accepts what had been accepted before, and so puts an old body back over a newer one. */
  predicate PutsBack(op: Op, seen: Store, s: Store, c: nat)
    requires c < |s.comments|
  {
    Perform(op, seen, s).Ok? && AcceptedBy(op, seen).Some? && Stale(s, AcceptedBy(op, seen).value, c)
  }

  /** Neither bodies nor revisions change. */
  ghost predicate BodiesUntouched(s: Store, s': Store) {
    && s'.revisions == s.revisions && |s'.comments| >= |s.comments|
    && forall c :: 0 <= c < |s.comments| ==> s'.comments[c].body == s.comments[c].body
  }

  lemma OtherBodies(op: Op, seen: Store, s: Store)
    requires op.Wait? || op.Create? || op.Confirm? || op.Reissue? || op.Moderate? || op.SubmitAppeal?
    ensures BodiesUntouched(s, After(op, seen, s))
  {
  }

  /** Bodies and revisions are as in `t`. */
  lemma SameBodies(s: Store, t: Store, s': Store, c: nat)
    requires c < |s.comments| && s'.revisions == t.revisions && s'.comments == t.comments
    ensures BodyFollows(s, s', c) <==> BodyFollows(s, t, c)
  {
    assert forall q: nat :: Accepts(s, s', q, c) == Accepts(s, t, q, c);
  }

  lemma ReviewAppealBody(op: Op, seen: Store, s: Store, c: nat)
    requires op.ReviewAppeal? && Grows(seen, s) && c < |s.comments| && Perform(op, seen, s).Ok?
    ensures BodyFollows(s, After(op, seen, s), c) <==> !PutsBack(op, seen, s, c)
  {
    if op.overturn && seen.decisions[op.decision].target.OnRevision? {
      var r := seen.decisions[op.decision].target.revision;
      SettleBodyIff(s, r, true, c);
      SameBodies(s, Settle(s, r, true), After(op, seen, s), c);
    } else {
      assert BodiesUntouched(s, After(op, seen, s));
    }
  }

  lemma ModerateRevisionBody(op: Op, seen: Store, s: Store, c: nat)
    requires op.ModerateRevision? && Perform(op, seen, s).Ok? && c < |s.comments|
    ensures BodyFollows(s, After(op, seen, s), c) && !PutsBack(op, seen, s, c)
  {
    SettleBodyIff(s, op.revision, op.accept, c);
    SameBodies(s, Settle(s, op.revision, op.accept), After(op, seen, s), c);
  }

  /** The body follows the revisions through every call but one that puts an old body back. */
  lemma BodyFollowsIff(op: Op, seen: Store, s: Store, c: nat)
    requires Grows(seen, s) && c < |s.comments|
    ensures BodyFollows(s, After(op, seen, s), c) <==> !PutsBack(op, seen, s, c)
  {
    if Perform(op, seen, s).Ok? {
      if op.Revise? || op.ReviseRemotely? {
        Inserting(op, seen, s);
        InsertBody(s, RowOf(op, seen), c);
      } else if op.ReviewRevision? {
        SettleBodyIff(s, op.revision, op.accept, c);
      } else if op.ModerateRevision? {
        ModerateRevisionBody(op, seen, s, c);
      } else if op.ReviewAppeal? {
        ReviewAppealBody(op, seen, s, c);
      } else {
        OtherBodies(op, seen, s);
      }
    }
  }

  lemma NothingAccepted(op: Op, seen: Store, s: Store, c: nat)
    requires Grows(seen, s) && c < |s.comments| && PutsBack(op, seen, s, c)
    ensures forall r: nat :: !Accepts(s, After(op, seen, s), r, c)
    ensures c < |After(op, seen, s).comments| && After(op, seen, s).comments[c].body != s.comments[c].body
  {
  }

  ghost function NewlyAccepted(s: Store, s': Store, c: nat): (r: Option<nat>) {
    if exists r: nat :: Accepts(s, s', r, c) then
      var r: nat :| Accepts(s, s', r, c); Some(r)
    else None
  }

  /** The revision of `c` that became public last, among the steps from state `m` to state `n`. */
  ghost function LastAccepted(states: seq<Store>, m: nat, n: nat, c: nat): (r: Option<nat>)
    requires m <= n < |states|
    decreases n
  {
    if m == n then None
    else
      var r := NewlyAccepted(states[n - 1], states[n], c);
      if r.Some? then r else LastAccepted(states, m, n - 1, c)
  }

  /** The public body is that of the revision accepted last since state `m`, or the one of that state. */
  ghost predicate BodyIsLast(states: seq<Store>, m: nat, n: nat, c: nat)
    requires m <= n < |states|
  {
    && c < |states[m].comments| && c < |states[n].comments|
    && match LastAccepted(states, m, n, c)
       case None => states[n].comments[c].body == states[m].comments[c].body
       case Some(r) => r < |states[n].revisions| && states[n].revisions[r].comment == c
                       && states[n].comments[c].body == states[n].revisions[r].body
  }

  /** Step `k` puts an old body of comment `c` back. */
  ghost predicate PutsBackAt(states: seq<Store>, steps: seq<Step>, k: nat, c: nat)
    requires k < |steps| && |states| == |steps| + 1
  {
    steps[k].at <= k && c < |states[k].comments| && PutsBack(steps[k].op, states[steps[k].at], states[k], c)
  }

  /** What one step of a run does to bodies and revisions. */
  lemma RunStepBody(states: seq<Store>, steps: seq<Step>, k: nat, c: nat)
    requires IsRun(states, steps) && k < |steps| && c < |states[k].comments|
    ensures c < |states[k + 1].comments| && RevisionsGrow(states[k], states[k + 1])
    ensures !PutsBackAt(states, steps, k, c) ==> BodyFollows(states[k], states[k + 1], c)
    ensures PutsBackAt(states, steps, k, c) ==>
              && states[k + 1].comments[c].body != states[k].comments[c].body
              && NewlyAccepted(states[k], states[k + 1], c).None?
  {
    assert Follows(states, steps, k);
    var op, seen, s := steps[k].op, states[steps[k].at], states[k];
    RunGrows(states, steps, steps[k].at, k);
    RunGrows(states, steps, k, k + 1);
    BodyFollowsIff(op, seen, s, c);
    if PutsBack(op, seen, s, c) { NothingAccepted(op, seen, s, c); }
  }

  lemma BodyStepIff(states: seq<Store>, steps: seq<Step>, m: nat, k: nat, c: nat)
    requires IsRun(states, steps) && m <= k < |steps| && BodyIsLast(states, m, k, c)
    ensures !PutsBackAt(states, steps, k, c) ==> BodyIsLast(states, m, k + 1, c)
    ensures PutsBackAt(states, steps, k, c) ==> !BodyIsLast(states, m, k + 1, c)
  {
    RunStepBody(states, steps, k, c);
    var last := LastAccepted(states, m, k, c);
    if last.Some? { assert SameRevision(states[k].revisions[last.value], states[k + 1].revisions[last.value]); }
  }

  lemma {:induction false} BodyWithoutPutsBack(states: seq<Store>, steps: seq<Step>, m: nat, n: nat, c: nat)
    requires IsRun(states, steps) && m <= n < |states| && c < |states[m].comments|
    requires forall k :: m <= k < n ==> !PutsBackAt(states, steps, k, c)
    ensures BodyIsLast(states, m, n, c)
    decreases n
  {
    if m < n {
      BodyWithoutPutsBack(states, steps, m, n - 1, c);
      BodyStepIff(states, steps, m, n - 1, c);
    }
  }

  /**
   In every interleaving, the public body is that of the revision accepted last in all states from `m` to
   `n` exactly if no step in between puts an old body back.
   */
  lemma BodyIsLastIff(states: seq<Store>, steps: seq<Step>, m: nat, n: nat, c: nat)
    requires IsRun(states, steps) && m <= n < |states| && c < |states[m].comments|
    ensures (forall j :: m <= j <= n ==> BodyIsLast(states, m, j, c))
       <==> (forall k :: m <= k < n ==> !PutsBackAt(states, steps, k, c))
  {
    if forall k :: m <= k < n ==> !PutsBackAt(states, steps, k, c) {
      forall j | m <= j <= n ensures BodyIsLast(states, m, j, c) {
        BodyWithoutPutsBack(states, steps, m, j, c);
      }
    }
    if forall j :: m <= j <= n ==> BodyIsLast(states, m, j, c) {
      forall k | m <= k < n ensures !PutsBackAt(states, steps, k, c) {
        assert BodyIsLast(states, m, k, c) && BodyIsLast(states, m, k + 1, c);
        BodyStepIff(states, steps, m, k, c);
      }
    }
  }

  // ---------------------------------------------------------------- plain reviews that find a proposal

  /** What the lock on the revision's row gives: nobody has settled it since the review read it. */
  predicate FindsProposal(op: Op, seen: Store, s: Store) {
    op.ReviewRevision? && Perform(op, seen, s).Ok? ==> op.revision < |s.revisions| && s.revisions[op.revision].status == Proposed
  }

  ghost predicate AllFindProposals(states: seq<Store>, steps: seq<Step>) {
    |states| == |steps| + 1 &&
    forall k :: 0 <= k < |steps| ==> steps[k].at <= k && FindsProposal(steps[k].op, states[steps[k].at], states[k])
  }

  lemma {:induction false} RejectionsWithProposals(states: seq<Store>, steps: seq<Step>, n: nat)
    requires IsRun(states, steps) && AllFindProposals(states, steps) && n < |states|
    ensures RejectionsOk(states[n]) && forall k :: 0 <= k < n ==> !AcceptsDeclinedAt(states, steps, k)
    decreases n
  {
    if n > 0 {
      RejectionsWithProposals(states, steps, n - 1);
      assert FindsProposal(steps[n - 1].op, states[steps[n - 1].at], states[n - 1]);
      if AcceptsDeclinedAt(states, steps, n - 1) {
        NotDeclinedYet(states[n - 1], steps[n - 1].op.revision);
        assert false;
      }
    }
    RunKeepsRejections(states, steps, n);
  }

  lemma ProposalsPutNothingBack(op: Op, seen: Store, s: Store, c: nat)
    requires RejectionsOk(s) && Grows(seen, s) && FindsProposal(op, seen, s) && c < |s.comments|
    ensures !PutsBack(op, seen, s, c)
  {
    if op.ReviewAppeal? && op.overturn && Perform(op, seen, s).Ok? {
      var d := op.decision;
      assert d in s.appeals && s.decisions[d] == seen.decisions[d];
      assert RejectionOk(s, d);
    }
  }

  /**
   Where every plain review finds a proposal, the public body is that of the revision accepted last in
   time, be it by a moderator's own edit, by a review or by an appeal, and unchanged without one.
   */
  lemma BodyIsLastAccepted(states: seq<Store>, steps: seq<Step>, m: nat, n: nat, c: nat)
    requires IsRun(states, steps) && AllFindProposals(states, steps) && m <= n < |states| && c < |states[m].comments|
    ensures BodyIsLast(states, m, n, c)
  {
    forall k | m <= k < n ensures !PutsBackAt(states, steps, k, c) {
      assert Follows(states, steps, k);
      assert FindsProposal(steps[k].op, states[steps[k].at], states[k]);
      RejectionsWithProposals(states, steps, k);
      RunGrows(states, steps, steps[k].at, k);
      if c < |states[k].comments| { ProposalsPutNothingBack(steps[k].op, states[steps[k].at], states[k], c); }
    }
    BodyWithoutPutsBack(states, steps, m, n, c);
  }

  // ---------------------------------------------------------------- two runs in which an old body comes back

  const FREE_POLICY: Policy := OPEN_POLICY.(mode := NoModeration)

  /** An author's edit that waits for review. */
  lemma ProposedEdit() returns (s1: Store, s2: Store)
    ensures s1 == After(Posting(), EMPTY, EMPTY) && s2 == After(Proposing(), s1, s1)
    ensures |s2.comments| == 1 && s2.comments[0].status == Approved && s2.comments[0].author == Some(1)
    ensures |s2.revisions| == 1 && s2.revisions[0] == Revision(0, Some(1), 1, "x", Proposed, Some(0), true)
    ensures |s2.decisions| == 1 && s2.decisions[0].supersedes.None? && s2.decisions[0].target.OnComment?
    ensures s2.appeals == map[] && s2.now == 0
  {
    assert Strip("n") == "n" && Strip("b") == "b" && Strip("x") == "x";
    s1 := After(Posting(), EMPTY, EMPTY);
    s2 := After(Proposing(), s1, s1);
  }

  /** The edit is accepted, and then replaced by a newer one of a moderator. */
  lemma NewerEdit(s2: Store) returns (s3: Store, s4: Store)
    requires |s2.comments| == 1 && s2.comments[0].status == Approved
    requires |s2.revisions| == 1 && s2.revisions[0] == Revision(0, Some(1), 1, "x", Proposed, Some(0), true)
    ensures s3 == After(ReviewRevision(0, true), s2, s2) && s4 == After(Replacing(), s3, s3)
    ensures |s4.comments| == 1 && s4.comments[0].body == "y" && |s4.revisions| == 2
    ensures s4.revisions[0] == Revision(0, Some(1), 1, "x", Accepted, None, true)
    ensures s4.revisions[1].status == Accepted && s4.revisions[1].body == "y"
  {
    assert Strip("y") == "y";
    s3 := After(ReviewRevision(0, true), s2, s2);
    assert |s3.revisions| == 1 && s3.revisions[0] == Revision(0, Some(1), 1, "x", Accepted, None, true);
    assert MaxNumber(s3.revisions, 0) == 1 by { assert MaxNumber(s3.revisions[..0], 0) == 0; }
    s4 := After(Replacing(), s3, s3);
  }

  function Posting(): Op {
    Create(0, FREE_POLICY, "n", false, false, "b", Some(User(1, false)), None, None, false, 0)
  }

  function Proposing(): Op { Revise(0, User(1, false), "x", FREE_POLICY, false) }

  function Replacing(): Op { Revise(0, User(7, false), "y", FREE_POLICY, true) }

  /** Two moderators accept a proposal, a third one edits the comment between them: the edit is lost. */
  lemma StaleReviewRestoresOldBody() returns (states: seq<Store>, steps: seq<Step>)
    ensures IsRun(states, steps) && |steps| == 5 && steps[4] == Step(ReviewRevision(0, true), 2)
    ensures |states[4].comments| == 1 && states[4].comments[0].body == "y"
    ensures |states[5].comments| == 1 && states[5].comments[0].body == "x" && !BodyFollows(states[4], states[5], 0)
    ensures |states[5].revisions| == 2 && states[5].revisions[1].status == Accepted && states[5].revisions[1].body == "y"
  {
    var s1, s2 := ProposedEdit();
    var s3, s4 := NewerEdit(s2);
    states, steps := RunOfTwo(s1, s2);
    states, steps := TwoStepsMore(states, steps, ReviewRevision(0, true), 2, Replacing(), 3, s3, s4);
    states, steps := OneStepMore(states, steps, ReviewRevision(0, true), 2);
    SettleBodyIff(s4, 0, true, 0);
  }

  function Declining(): Op { ModerateRevision(0, 7, false, true) }

  function Appealing(): Op { SubmitAppeal(1, 1, "t", 14) }

  function Overturning(): Op { ReviewAppeal(1, 8, true, "t", Counted({8})) }

  predicate Declined0(d: Decision) { d.target == OnRevision(0) && d.outcome == Reject && d.at == 0 && d.actor == Some(7) }

  /** The proposal is declined, and then accepted by a plain review that had read it before. */
  lemma DeclinedAndAccepted(s2: Store) returns (s3: Store, s4: Store)
    requires |s2.comments| == 1 && s2.comments[0].status == Approved && s2.comments[0].author == Some(1)
    requires |s2.revisions| == 1 && s2.revisions[0] == Revision(0, Some(1), 1, "x", Proposed, Some(0), true)
    requires |s2.decisions| == 1 && s2.decisions[0].supersedes.None? && s2.decisions[0].target.OnComment? && s2.appeals == map[] && s2.now == 0
    ensures s3 == After(Declining(), s2, s2) && s4 == After(ReviewRevision(0, true), s2, s3)
    ensures Reviewable(s2, 0) && s4.decisions[0].target.OnComment?
    ensures s3.revisions == [Revision(0, Some(1), 1, "x", Declined, None, true)]
    ensures s4.revisions == [Revision(0, Some(1), 1, "x", Accepted, None, true)]
    ensures |s4.comments| == 1 && s4.comments[0].status == Approved && s4.comments[0].author == Some(1)
    ensures |s4.decisions| == 2 && Declined0(s4.decisions[1]) && s3.decisions == s4.decisions
    ensures s4.decisions[0].supersedes.None? && s4.decisions[1].supersedes.None?
    ensures s3.appeals == s4.appeals == map[] && s4.now == 0
  {
    s3 := After(Declining(), s2, s2);
    s4 := After(ReviewRevision(0, true), s2, s3);
  }

  /** A moderator edits the comment, and the author appeals against the decision that declined his edit. */
  lemma EditedAndAppealed(s4: Store) returns (s5: Store, s6: Store)
    requires s4.revisions == [Revision(0, Some(1), 1, "x", Accepted, None, true)]
    requires |s4.comments| == 1 && s4.comments[0].status == Approved && s4.comments[0].author == Some(1)
    requires |s4.decisions| == 2 && Declined0(s4.decisions[1]) && s4.appeals == map[] && s4.now == 0
    requires s4.decisions[0].supersedes.None? && s4.decisions[1].supersedes.None?
    ensures s5 == After(Replacing(), s4, s4) && s6 == After(Appealing(), s5, s5)
    ensures |s6.comments| == 1 && s6.comments[0].body == "y" && s6.decisions == s4.decisions
    ensures |s6.revisions| == 2 && s6.revisions[0] == s4.revisions[0] && s6.revisions[1].body == "y"
    ensures s6.revisions[1].status == Accepted && 1 in s6.appeals && s6.appeals[1].state == Open
  {
    assert Strip("y") == "y" && Strip("t") == "t";
    assert MaxNumber(s4.revisions, 0) == 1 by { assert MaxNumber(s4.revisions[..0], 0) == 0; }
    s5 := After(Replacing(), s4, s4);
    assert |s5.revisions| == 2 && s5.comments[0].body == "y" && s5.revisions[0] == s4.revisions[0];
    s6 := After(Appealing(), s5, s5);
  }

  lemma OverturnPutsBack(s: Store)
    requires |s.comments| == 1 && s.comments[0].body == "y" && |s.decisions| == 2 && Declined0(s.decisions[1])
    requires |s.revisions| > 0 && s.revisions[0] == Revision(0, Some(1), 1, "x", Accepted, None, true)
    requires 1 in s.appeals && s.appeals[1].state == Open
    ensures PutsBack(Overturning(), s, s, 0) && |After(Overturning(), s, s).comments| == 1
    ensures After(Overturning(), s, s).comments[0].body == "x"
  {
    assert Strip("t") == "t";
  }

  /**
   A plain review accepts what a decision has declined since the review read it; nobody had accepted it
   before. A moderator then makes a newer edit, and the author wins his appeal: his edit comes back.
   */
  lemma AppealRestoresOldBody() returns (states: seq<Store>, steps: seq<Step>)
    ensures IsRun(states, steps) && |steps| == 7
    ensures forall k :: 0 <= k < 7 && k != 3 ==> steps[k] == Step(steps[k].op, k)
    ensures steps[3] == Step(ReviewRevision(0, true), 2) && steps[6].op.ReviewAppeal?
    ensures StayDeclined(states[3]) && AcceptsDeclinedAt(states, steps, 3) && !StayDeclined(states[4])
    ensures |states[6].comments| == 1 && states[6].comments[0].body == "y" && PutsBackAt(states, steps, 6, 0)
    ensures |states[7].comments| == 1 && states[7].comments[0].body == "x"
  {
    var s1, s2 := ProposedEdit();
    var s3, s4 := DeclinedAndAccepted(s2);
    var s5, s6 := EditedAndAppealed(s4);
    states, steps := RunOfSix(s1, s2, s3, s4, s5, s6);
    OverturnPutsBack(s6);
    DeclineIsBroken(s2, s3);
    states, steps := OneStepMore(states, steps, Overturning(), 6);
  }

  lemma DeclineIsBroken(s2: Store, s3: Store)
    requires Reviewable(s2, 0) && s3.revisions == [Revision(0, Some(1), 1, "x", Declined, None, true)]
    requires |s3.decisions| == 2 && s3.decisions[0].target.OnComment? && Declined0(s3.decisions[1]) && s3.appeals == map[]
    ensures StayDeclined(s3) && AcceptsDeclined(ReviewRevision(0, true), s2, s3)
    ensures !StayDeclined(After(ReviewRevision(0, true), s2, s3))
  {
    assert DeclinedBy(s3, 1, 0);
    AcceptingBreaks(ReviewRevision(0, true), s2, s3);
  }

  lemma RunOfSix(s1: Store, s2: Store, s3: Store, s4: Store, s5: Store, s6: Store)
    returns (states: seq<Store>, steps: seq<Step>)
    requires s1 == After(Posting(), EMPTY, EMPTY) && s2 == After(Proposing(), s1, s1)
    requires s3 == After(Declining(), s2, s2) && s4 == After(ReviewRevision(0, true), s2, s3)
    requires s5 == After(Replacing(), s4, s4) && s6 == After(Appealing(), s5, s5)
    ensures IsRun(states, steps) && states == [EMPTY, s1, s2, s3, s4, s5, s6]
    ensures steps == [Step(Posting(), 0), Step(Proposing(), 1), Step(Declining(), 2), Step(ReviewRevision(0, true), 2),
                      Step(Replacing(), 4), Step(Appealing(), 5)]
  {
    states, steps := RunOfTwo(s1, s2);
    states, steps := TwoStepsMore(states, steps, Declining(), 2, ReviewRevision(0, true), 2, s3, s4);
    states, steps := TwoStepsMore(states, steps, Replacing(), 4, Appealing(), 5, s5, s6);
  }

  lemma RunOfTwo(s1: Store, s2: Store) returns (states: seq<Store>, steps: seq<Step>)
    requires s1 == After(Posting(), EMPTY, EMPTY) && s2 == After(Proposing(), s1, s1)
    ensures IsRun(states, steps) && states == [EMPTY, s1, s2] && steps == [Step(Posting(), 0), Step(Proposing(), 1)]
  {
    states, steps := [EMPTY], [];
    states, steps := OneStepMore(states, steps, Posting(), 0);
    states, steps := OneStepMore(states, steps, Proposing(), 1);
  }

  lemma TwoStepsMore(states: seq<Store>, steps: seq<Step>, a: Op, at: nat, b: Op, at': nat, s: Store, s': Store)
    returns (states': seq<Store>, steps': seq<Step>)
    requires IsRun(states, steps) && at <= |steps| && at' <= |steps| + 1
    requires !a.Create? && !a.Reissue? && !b.Create? && !b.Reissue?
    requires s == After(a, states[at], states[|steps|])
    requires s' == After(b, if at' <= |steps| then states[at'] else s, s)
    ensures IsRun(states', steps') && steps' == steps + [Step(a, at), Step(b, at')] && states' == states + [s, s']
  {
    states', steps' := OneStepMore(states, steps, a, at);
    states', steps' := OneStepMore(states', steps', b, at');
  }
}
