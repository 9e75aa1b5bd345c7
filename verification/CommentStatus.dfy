/**
 What every interleaving of the comment operations keeps: the decision log replays to the status,
 a pending status is never entered again, and guest tokens work at most once.
 */
module CommentStatus {
  import opened Common
  import opened Comments

  // ---------------------------------------------------------------- what stays

  predicate SameComment(a: Comment, b: Comment) {
    && a.post == b.post && a.author == b.author && a.remote == b.remote && a.parent == b.parent && a.createdAt == b.createdAt
    && (Pending(b.status) ==> Pending(a.status))
    && (b.status == PendingConfirmation ==> a.status == PendingConfirmation)
  }

  predicate SameRevision(a: Revision, b: Revision) {
    a.(status := b.status, pendingKey := b.pendingKey) == b && (b.status == Proposed ==> a.status == Proposed)
  }

  ghost predicate CommentsGrow(a: Store, b: Store) {
    |a.comments| <= |b.comments| && forall c :: 0 <= c < |a.comments| ==> SameComment(a.comments[c], b.comments[c])
  }

  ghost predicate RevisionsGrow(a: Store, b: Store) {
    |a.revisions| <= |b.revisions| && forall r :: 0 <= r < |a.revisions| ==> SameRevision(a.revisions[r], b.revisions[r])
  }

  ghost predicate AppealsGrow(a: Store, b: Store) {
    forall d :: d in a.appeals ==> d in b.appeals && (a.appeals[d].state != Open ==> b.appeals[d] == a.appeals[d])
  }

  ghost predicate TokensGrow(a: Store, b: Store) {
    forall t :: t in a.issued ==> t in b.issued && b.issued[t] == a.issued[t]
  }

  /** Rows are never deleted, decisions are never changed, and settled rows stay settled. */
  ghost predicate Grows(a: Store, b: Store) {
    && CommentsGrow(a, b) && RevisionsGrow(a, b) && AppealsGrow(a, b) && TokensGrow(a, b)
    && a.decisions <= b.decisions && a.now <= b.now
  }

  lemma GrowsFurther(a: Store, b: Store, c: Store)
    requires Grows(a, b) && Grows(b, c)
    ensures Grows(a, c)
  {
    forall i | 0 <= i < |a.comments| ensures SameComment(a.comments[i], c.comments[i]) {
      assert SameComment(a.comments[i], b.comments[i]) && SameComment(b.comments[i], c.comments[i]);
    }
    forall r | 0 <= r < |a.revisions| ensures SameRevision(a.revisions[r], c.revisions[r]) {
      assert SameRevision(a.revisions[r], b.revisions[r]) && SameRevision(b.revisions[r], c.revisions[r]);
    }
  }

  lemma SettleGrows(s: Store, r: nat, accept: bool)
    requires r < |s.revisions|
    ensures Grows(s, Settle(s, r, accept))
  {
  }

  lemma DecideGrows(s: Store, c: nat, read: Comment, actor: UserId, outcome: Outcome, supersedes: Option<nat>)
    requires c < |s.comments|
    ensures Grows(s, Decide(s, c, read, actor, outcome, supersedes))
  {
  }

  lemma OverturnGrows(d: nat, decision: Decision, reviewer: UserId, seen: Store, s: Store)
    ensures Overturn(d, decision, reviewer, seen, s).Ok? ==>
              Grows(s, Overturn(d, decision, reviewer, seen, s).value)
              && Overturn(d, decision, reviewer, seen, s).value.appeals == s.appeals
  {
    if Overturn(d, decision, reviewer, seen, s).Ok? {
      match decision.target
      case OnRevision(r) => SettleGrows(s, r, true);
      case OnComment(c) => DecideGrows(s, c, seen.comments[c], reviewer, Restore, Some(d));
    }
  }

  lemma JudgeGrows(d: nat, reviewer: UserId, overturn: bool, text: string, others: Reviewers, seen: Store, s: Store)
    ensures JudgeAppeal(d, reviewer, overturn, text, others, seen, s).Ok? ==>
              Grows(s, JudgeAppeal(d, reviewer, overturn, text, others, seen, s).value)
  {
    if d < |seen.decisions| { OverturnGrows(d, seen.decisions[d], reviewer, seen, s); }
  }

  lemma InsertGrows(s: Store, row: Revision)
    ensures Grows(s, Insert(s, row))
  {
  }

  lemma CreateGrows(op: Op, seen: Store, s: Store)
    requires op.Create? && FreshToken(op, s)
    ensures CreateComment(op, seen, s).Ok? ==> Grows(s, CreateComment(op, seen, s).value)
  {
  }

  lemma TokenStepGrows(op: Op, seen: Store, s: Store)
    requires (op.Confirm? || op.Reissue?) && FreshToken(op, s)
    ensures Grows(s, After(op, seen, s))
  {
  }

  lemma ModerateGrows(op: Op, seen: Store, s: Store)
    requires op.Moderate?
    ensures Grows(s, After(op, seen, s))
  {
    if op.comment < |seen.comments| && op.comment < |s.comments| {
      DecideGrows(s, op.comment, seen.comments[op.comment], op.actor, op.outcome, op.supersedes);
    }
  }

  lemma ReviseGrows(op: Op, seen: Store, s: Store)
    requires op.Revise? || op.ReviseRemotely?
    ensures Grows(s, After(op, seen, s))
  {
    match op
    case Revise(c, editor, text, policy, moderator) =>
      InsertGrows(s, NewRevision(seen, c, Some(editor.id), text, moderator || (policy.trustedEditBypass && editor.trusted), !moderator));
    case ReviseRemotely(c, _, text, _) => InsertGrows(s, NewRevision(seen, c, None, text, false, false));
  }

  lemma ReviewGrows(op: Op, seen: Store, s: Store)
    requires op.ReviewRevision? || op.ModerateRevision?
    ensures Grows(s, After(op, seen, s))
  {
    match op
    case ReviewRevision(r, accept) => if r < |s.revisions| { SettleGrows(s, r, accept); }
    case ModerateRevision(r, _, accept, _) => if r < |s.revisions| { SettleGrows(s, r, accept); }
  }

  lemma AfterGrows(op: Op, seen: Store, s: Store)
    requires FreshToken(op, s)
    ensures Grows(s, After(op, seen, s))
  {
    match op
    case Wait(_) =>
    case Create(_, _, _, _, _, _, _, _, _, _, _) => CreateGrows(op, seen, s);
    case Confirm(_, _) => TokenStepGrows(op, seen, s);
    case Reissue(_, _, _, _) => TokenStepGrows(op, seen, s);
    case Moderate(_, _, _, _, _) => ModerateGrows(op, seen, s);
    case Revise(_, _, _, _, _) => ReviseGrows(op, seen, s);
    case ReviseRemotely(_, _, _, _) => ReviseGrows(op, seen, s);
    case ReviewRevision(_, _) => ReviewGrows(op, seen, s);
    case ModerateRevision(_, _, _, _) => ReviewGrows(op, seen, s);
    case SubmitAppeal(_, _, _, _) =>
    case ReviewAppeal(d, reviewer, overturn, text, others) => JudgeGrows(d, reviewer, overturn, text, others, seen, s);
  }

  lemma {:induction false} RunGrows(states: seq<Store>, steps: seq<Step>, i: nat, j: nat)
    requires IsRun(states, steps) && i <= j < |states|
    ensures Grows(states[i], states[j])
    decreases j
  {
    if i < j {
      RunGrows(states, steps, i, j - 1);
      assert Follows(states, steps, j - 1);
      AfterGrows(steps[j - 1].op, states[steps[j - 1].at], states[j - 1]);
      GrowsFurther(states[i], states[j - 1], states[j]);
    }
  }

  // ---------------------------------------------------------------- the decision log

  /** The outcome of the last decision on comment `c`. */
  function Latest(decisions: seq<Decision>, c: nat): Option<Outcome> {
    if decisions == [] then None
    else
      var last := |decisions| - 1;
      if decisions[last].target == OnComment(c) then Some(decisions[last].outcome) else Latest(decisions[..last], c)
  }

  /** The status that the log replays to; without a decision the comment waits. */
  predicate FollowsLog(row: Comment, latest: Option<Outcome>) {
    match latest
    case None => row.status.PendingConfirmation? || row.status.PendingModeration?
    case Some(Approve) => row.status.Approved?
    case Some(Restore) => row.status.Approved?
    case Some(Reject) => row.status.Rejected?
    case Some(MarkSpam) => row.status.Spam?
    case Some(Delete) => row.status.Deleted?
  }

  predicate TimesOk(row: Comment) {
    && (row.status == Approved ==> row.approvedAt.Some? && row.publishedAt.Some?)
    && (Pending(row.status) ==> row.approvedAt.None? && row.publishedAt.None?)
  }

  predicate TokenOk(row: Comment, c: nat, issued: map<Token, nat>) {
    && (row.token.Some? <==> row.status == PendingConfirmation)
    && (row.tokenExpires.Some? <==> row.status == PendingConfirmation)
    && (row.token.Some? ==> row.token.value in issued && issued[row.token.value] == c)
  }

  predicate CommentOk(s: Store, c: nat)
    requires c < |s.comments|
  {
    FollowsLog(s.comments[c], Latest(s.decisions, c)) && TimesOk(s.comments[c]) && TokenOk(s.comments[c], c, s.issued)
  }

  predicate InRange(target: Target, s: Store) {
    match target
    case OnComment(c) => c < |s.comments|
    case OnRevision(r) => r < |s.revisions|
  }

  ghost predicate Inv(s: Store) {
    && (forall c :: 0 <= c < |s.comments| ==> CommentOk(s, c))
    && (forall d :: 0 <= d < |s.decisions| ==> InRange(s.decisions[d].target, s))
  }

  lemma {:induction false} NoDecisionYet(s: Store, n: nat, c: nat)
    requires n <= |s.decisions| && c >= |s.comments|
    requires forall d :: 0 <= d < n ==> InRange(s.decisions[d].target, s)
    ensures Latest(s.decisions[..n], c) == None
    decreases n
  {
    if n > 0 {
      assert s.decisions[..n][..n - 1] == s.decisions[..n - 1];
      NoDecisionYet(s, n - 1, c);
    }
  }

  lemma LatestAfter(decisions: seq<Decision>, d: Decision, c: nat)
    ensures Latest(decisions + [d], c) == if d.target == OnComment(c) then Some(d.outcome) else Latest(decisions, c)
  {
    assert (decisions + [d])[..|decisions|] == decisions;
  }

  lemma AutomaticLatest(decisions: seq<Decision>, on: nat, status: Status, now: Time, c: nat)
    ensures Latest(decisions + Automatic(on, status, now), c)
         == if c == on && status == Approved then Some(Approve)
            else if c == on && status == Spam then Some(MarkSpam)
            else Latest(decisions, c)
  {
    if Automatic(on, status, now) == [] {
      assert decisions + [] == decisions;
    } else {
      LatestAfter(decisions, Automatic(on, status, now)[0], c);
    }
  }

  lemma NewCommentOk(op: Op, seen: Store, now: Time)
    requires op.Create?
    ensures var row := NewComment(op, seen, now);
            && TimesOk(row)
            && (row.token.Some? <==> row.status == PendingConfirmation)
            && (row.tokenExpires.Some? <==> row.status == PendingConfirmation)
            && (row.token.Some? ==> row.token.value == op.token)
            && (Pending(row.status) || row.status == Approved || row.status == Spam)
  {
  }

  lemma CreateKeeps(op: Op, seen: Store, s: Store)
    requires Inv(s) && op.Create? && FreshToken(op, s)
    ensures Inv(After(op, seen, s))
  {
    var s' := After(op, seen, s);
    if CreateAllowed(op, seen) {
      var n := |s.comments|;
      NewCommentOk(op, seen, s.now);
      forall c | 0 <= c <= n ensures CommentOk(s', c) {
        AutomaticLatest(s.decisions, n, s'.comments[n].status, s.now, c);
        if c == n {
          NoDecisionYet(s, |s.decisions|, n);
          TakeAll(s.decisions);
        } else {
          assert CommentOk(s, c);
        }
      }
    }
  }

  lemma ConfirmKeeps(token: Token, policy: Option<Policy>, seen: Store, s: Store)
    requires Inv(s)
    ensures Inv(After(Confirm(token, policy), seen, s))
  {
    var s' := After(Confirm(token, policy), seen, s);
    if ConfirmGuest(token, policy, seen, s).Ok? {
      var on := FindConfirmable(seen.comments, token, seen.now).value;
      forall c | 0 <= c < |s.comments| ensures CommentOk(s', c) {
        assert CommentOk(s, c) && CommentOk(s, on);
        AutomaticLatest(s.decisions, on, s'.comments[on].status, s.now, c);
      }
    }
  }

  lemma ReissueKeeps(c: nat, ttlHours: int, minInterval: int, token: Token, seen: Store, s: Store)
    requires Inv(s) && token !in s.issued
    ensures Inv(After(Reissue(c, ttlHours, minInterval, token), seen, s))
  {
    var s' := After(Reissue(c, ttlHours, minInterval, token), seen, s);
    forall x | 0 <= x < |s.comments| ensures CommentOk(s', x) {
      assert CommentOk(s, x);
    }
  }

  lemma DecideKeeps(s: Store, c: nat, read: Comment, actor: UserId, outcome: Outcome, supersedes: Option<nat>)
    requires Inv(s) && c < |s.comments| && !s.comments[c].status.PendingConfirmation?
    ensures Inv(Decide(s, c, read, actor, outcome, supersedes))
  {
    var s' := Decide(s, c, read, actor, outcome, supersedes);
    forall x | 0 <= x < |s.comments| ensures CommentOk(s', x) {
      assert CommentOk(s, x);
      LatestAfter(s.decisions, s'.decisions[|s.decisions|], x);
    }
  }

  /** A step that touches neither status columns nor decisions on comments. */
  ghost predicate StatusUntouched(s: Store, s': Store) {
    && |s'.comments| == |s.comments| && |s'.revisions| >= |s.revisions| && s'.issued == s.issued
    && (forall c :: 0 <= c < |s.comments| ==> s'.comments[c] == s.comments[c].(body := s'.comments[c].body))
    && (s'.decisions == s.decisions
        || exists d :: s'.decisions == s.decisions + [d] && d.target.OnRevision? && InRange(d.target, s'))
  }

  lemma UntouchedKeeps(s: Store, s': Store)
    requires Inv(s) && StatusUntouched(s, s')
    ensures Inv(s')
  {
    forall c | 0 <= c < |s'.comments| ensures CommentOk(s', c) {
      assert CommentOk(s, c);
      if s'.decisions != s.decisions {
        LatestAfter(s.decisions, s'.decisions[|s.decisions|], c);
      }
    }
  }

  lemma ReviewAppealKeeps(d: nat, reviewer: UserId, overturn: bool, text: string, others: Reviewers, seen: Store, s: Store)
    requires Inv(s)
    ensures Inv(After(ReviewAppeal(d, reviewer, overturn, text, others), seen, s))
  {
    var s' := After(ReviewAppeal(d, reviewer, overturn, text, others), seen, s);
    if overturn && s' != s {
      match seen.decisions[d].target {
        case OnComment(c) => DecideKeeps(s, c, seen.comments[c], reviewer, Restore, Some(d));
          UntouchedKeeps(Decide(s, c, seen.comments[c], reviewer, Restore, Some(d)), s');
        case OnRevision(r) =>
          assert s'.decisions[|s.decisions|].target == OnRevision(r);
          UntouchedKeeps(s, s');
      }
    } else {
      UntouchedKeeps(s, s');
    }
  }

  lemma ModerateKeeps(c: nat, actor: UserId, outcome: Outcome, reasonOk: bool, supersedes: Option<nat>, seen: Store,
      s: Store)
    requires Inv(s)
    ensures Inv(After(Moderate(c, actor, outcome, reasonOk, supersedes), seen, s))
  {
    if c < |seen.comments| && c < |s.comments| && !s.comments[c].status.PendingConfirmation? {
      DecideKeeps(s, c, seen.comments[c], actor, outcome, supersedes);
    }
  }

  lemma InsertKeeps(s: Store, row: Revision)
    requires Inv(s)
    ensures Inv(Insert(s, row))
  {
    UntouchedKeeps(s, Insert(s, row));
  }

  lemma SettleKeeps(s: Store, r: nat, accept: bool)
    requires Inv(s) && r < |s.revisions|
    ensures Inv(Settle(s, r, accept))
  {
    UntouchedKeeps(s, Settle(s, r, accept));
  }

  lemma DecideRevisionKeeps(r: nat, actor: UserId, accept: bool, reasonOk: bool, seen: Store, s: Store)
    requires Inv(s) && DecideRevision(r, actor, accept, reasonOk, seen, s).Ok?
    ensures Inv(DecideRevision(r, actor, accept, reasonOk, seen, s).value)
  {
    var s' := DecideRevision(r, actor, accept, reasonOk, seen, s).value;
    assert s'.decisions == s.decisions + [s'.decisions[|s.decisions|]];
    UntouchedKeeps(s, s');
  }

  lemma AfterKeeps(op: Op, seen: Store, s: Store)
    requires Inv(s) && FreshToken(op, s)
    ensures Inv(After(op, seen, s))
  {
    if Perform(op, seen, s).Ok? {
      match op
      case Wait(_) => UntouchedKeeps(s, After(op, seen, s));
      case Create(_, _, _, _, _, _, _, _, _, _, _) => CreateKeeps(op, seen, s);
      case Confirm(token, policy) => ConfirmKeeps(token, policy, seen, s);
      case Reissue(c, ttl, interval, token) => ReissueKeeps(c, ttl, interval, token, seen, s);
      case Moderate(c, actor, outcome, reasonOk, supersedes) => ModerateKeeps(c, actor, outcome, reasonOk, supersedes, seen, s);
      case Revise(c, editor, text, policy, moderator) =>
        InsertKeeps(s, NewRevision(seen, c, Some(editor.id), text, moderator || (policy.trustedEditBypass && editor.trusted), !moderator));
      case ReviseRemotely(c, _, text, _) => InsertKeeps(s, NewRevision(seen, c, None, text, false, false));
      case ReviewRevision(r, accept) => SettleKeeps(s, r, accept);
      case ModerateRevision(r, actor, accept, reasonOk) => DecideRevisionKeeps(r, actor, accept, reasonOk, seen, s);
      case SubmitAppeal(_, _, _, _) => UntouchedKeeps(s, After(op, seen, s));
      case ReviewAppeal(d, reviewer, overturn, text, others) => ReviewAppealKeeps(d, reviewer, overturn, text, others, seen, s);
    }
  }

  lemma {:induction false} RunKeepsInv(states: seq<Store>, steps: seq<Step>, n: nat)
    requires IsRun(states, steps) && n < |states|
    ensures Inv(states[n])
    decreases n
  {
    if n > 0 {
      RunKeepsInv(states, steps, n - 1);
      assert Follows(states, steps, n - 1);
      AfterKeeps(steps[n - 1].op, states[steps[n - 1].at], states[n - 1]);
    }
  }

  // ---------------------------------------------------------------- the theorems

  /** In every interleaving the status is the one of the latest decision, and pending without one. */
  lemma StatusFollowsLog(states: seq<Store>, steps: seq<Step>, n: nat, c: nat)
    requires IsRun(states, steps) && n < |states| && c < |states[n].comments|
    ensures FollowsLog(states[n].comments[c], Latest(states[n].decisions, c))
    ensures states[n].comments[c].status == Approved ==>
              states[n].comments[c].approvedAt.Some? && states[n].comments[c].publishedAt.Some?
  {
    RunKeepsInv(states, steps, n);
    assert CommentOk(states[n], c);
  }

  /** Once left, neither pending status is entered again, and no decision is ever taken back. */
  lemma PendingIsNeverReentered(states: seq<Store>, steps: seq<Step>, i: nat, j: nat, c: nat)
    requires IsRun(states, steps) && i <= j < |states| && c < |states[i].comments|
    ensures c < |states[j].comments| && states[i].decisions <= states[j].decisions
    ensures !Pending(states[i].comments[c].status) ==> !Pending(states[j].comments[c].status)
    ensures states[i].comments[c].status != PendingConfirmation ==> states[j].comments[c].status != PendingConfirmation
  {
    RunGrows(states, steps, i, j);
    assert SameComment(states[i].comments[c], states[j].comments[c]);
  }

  /** A token digest and its expiry are stored exactly while the comment waits for its confirmation. */
  lemma TokenWhilePending(states: seq<Store>, steps: seq<Step>, n: nat, c: nat)
    requires IsRun(states, steps) && n < |states| && c < |states[n].comments|
    ensures states[n].comments[c].token.Some? <==> states[n].comments[c].status == PendingConfirmation
    ensures states[n].comments[c].tokenExpires.Some? <==> states[n].comments[c].status == PendingConfirmation
  {
    RunKeepsInv(states, steps, n);
    assert CommentOk(states[n], c);
  }

  // ---------------------------------------------------------------- one-shot tokens

  /** Token `t` was issued, and no comment holds it any more. */
  ghost predicate Dead(s: Store, t: Token) {
    t in s.issued && forall row :: row in s.comments ==> row.token != Some(t)
  }

  predicate Writes(s: Store, s': Store, c: nat, t: Token) {
    c < |s'.comments| && s'.comments[c].token == Some(t) && !(c < |s.comments| && s.comments[c].token == Some(t))
  }

  /** Only creation and reissue write tokens. */
  lemma OthersKeepTokens(op: Op, seen: Store, s: Store, c: nat)
    requires !op.Create? && !op.Reissue? && c < |After(op, seen, s).comments|
    ensures c < |s.comments|
    ensures After(op, seen, s).comments[c].token.Some? ==> After(op, seen, s).comments[c].token == s.comments[c].token
  {
  }

  /** A token only ever gets into a row when it is new. */
  lemma TokensAreNew(op: Op, seen: Store, s: Store, c: nat, t: Token)
    requires FreshToken(op, s) && Writes(s, After(op, seen, s), c, t)
    ensures t !in s.issued
  {
    if op.Create? {
      NewCommentOk(op, seen, s.now);
    } else if !op.Reissue? {
      OthersKeepTokens(op, seen, s, c);
    }
  }

  lemma DeadStaysDead(op: Op, seen: Store, s: Store, t: Token)
    requires FreshToken(op, s) && Dead(s, t)
    ensures Dead(After(op, seen, s), t)
  {
    var s' := After(op, seen, s);
    AfterGrows(op, seen, s);
    forall row | row in s'.comments ensures row.token != Some(t) {
      var c :| 0 <= c < |s'.comments| && s'.comments[c] == row;
      if row.token == Some(t) {
        if c < |s.comments| { assert s.comments[c] in s.comments; }
        TokensAreNew(op, seen, s, c, t);
      }
    }
  }

  lemma {:induction false} DeadForEver(states: seq<Store>, steps: seq<Step>, t: Token, i: nat, j: nat)
    requires IsRun(states, steps) && i <= j < |states| && Dead(states[i], t)
    ensures Dead(states[j], t)
    decreases j
  {
    if i < j {
      DeadForEver(states, steps, t, i, j - 1);
      assert Follows(states, steps, j - 1);
      DeadStaysDead(steps[j - 1].op, states[steps[j - 1].at], states[j - 1], t);
    }
  }

  /** A dead token is refused, whatever the call had read before. */
  lemma DeadIsRefused(s: Store, seen: Store, t: Token, policy: Option<Policy>)
    requires Dead(s, t)
    ensures ConfirmGuest(t, policy, seen, s).Err?
  {
    var found := FindConfirmable(seen.comments, t, seen.now);
    if found.Some? && found.value < |s.comments| {
      assert s.comments[found.value] in s.comments;
    }
  }

  /** Only one comment can hold a token. */
  lemma TokenHolder(s: Store, c: nat, x: nat, t: Token)
    requires Inv(s) && c < |s.comments| && x < |s.comments|
    requires s.comments[c].token == Some(t) && s.comments[x].token == Some(t)
    ensures c == x
  {
    assert CommentOk(s, c) && CommentOk(s, x);
  }

  lemma ConfirmingKills(token: Token, policy: Option<Policy>, seen: Store, s: Store)
    requires Inv(s) && ConfirmGuest(token, policy, seen, s).Ok?
    ensures Dead(ConfirmGuest(token, policy, seen, s).value, token)
  {
    var s' := ConfirmGuest(token, policy, seen, s).value;
    var on := FindConfirmable(seen.comments, token, seen.now).value;
    assert CommentOk(s, on);
    forall row | row in s'.comments ensures row.token != Some(token) {
      var c :| 0 <= c < |s'.comments| && s'.comments[c] == row;
      if c != on && row.token == Some(token) { TokenHolder(s, c, on, token); }
    }
  }

  lemma ReissuingKills(c: nat, ttlHours: int, minInterval: int, token: Token, seen: Store, s: Store, t: Token)
    requires Inv(s) && ReissueToken(c, ttlHours, minInterval, token, seen, s).Ok?
    requires t in s.issued && s.issued[t] == c && t != token
    ensures Dead(ReissueToken(c, ttlHours, minInterval, token, seen, s).value, t)
  {
    var s' := ReissueToken(c, ttlHours, minInterval, token, seen, s).value;
    forall row | row in s'.comments ensures row.token != Some(t) {
      var x :| 0 <= x < |s'.comments| && s'.comments[x] == row;
      assert CommentOk(s, x);
    }
  }

  /** Each token confirms at most once, over all interleavings. */
  lemma TokensAreOneShot(states: seq<Store>, steps: seq<Step>, i: nat, j: nat, t: Token)
    requires IsRun(states, steps) && i < j < |steps|
    requires steps[i].op.Confirm? && steps[i].op.token == t && Succeeds(states, steps, i)
    requires steps[j].op.Confirm? && steps[j].op.token == t
    ensures !Succeeds(states, steps, j)
  {
    assert Follows(states, steps, i) && Follows(states, steps, j);
    RunKeepsInv(states, steps, i);
    ConfirmingKills(t, steps[i].op.postPolicy, states[steps[i].at], states[i]);
    DeadForEver(states, steps, t, i + 1, j);
    DeadIsRefused(states[j], states[steps[j].at], t, steps[j].op.postPolicy);
  }

  /** Reissuing at step `i` makes every token issued for that comment before fail from then on. */
  lemma ReissueEndsOlderTokens(states: seq<Store>, steps: seq<Step>, i: nat, j: nat, t: Token)
    requires IsRun(states, steps) && i < j < |steps|
    requires steps[i].op.Reissue? && Succeeds(states, steps, i)
    requires t in states[i].issued && states[i].issued[t] == steps[i].op.comment
    requires steps[j].op.Confirm? && steps[j].op.token == t
    ensures !Succeeds(states, steps, j)
  {
    assert Follows(states, steps, i) && Follows(states, steps, j);
    RunKeepsInv(states, steps, i);
    var op := steps[i].op;
    ReissuingKills(op.comment, op.ttlHours, op.minInterval, op.token, states[steps[i].at], states[i], t);
    DeadForEver(states, steps, t, i + 1, j);
    DeadIsRefused(states[j], states[steps[j].at], t, steps[j].op.postPolicy);
  }

  // ---------------------------------------------------------------- how long a link works

  const LONGEST_TTL: Time := 168 * HOUR

  predicate LifetimeOk(row: Comment) {
    row.token.Some? ==>
      row.tokenSent.Some? && row.tokenExpires.Some? && row.tokenExpires.value <= row.tokenSent.value + LONGEST_TTL
  }

  /** Resolved policies keep the lifetime within a week. */
  predicate PolicyInRange(op: Op) { op.Create? ==> op.policy.confirmationHours <= 168 }

  ghost predicate Lifetimes(s: Store) {
    forall c :: 0 <= c < |s.comments| ==> LifetimeOk(s.comments[c])
  }

  lemma ClampHours(hours: int)
    ensures Clamp(1, 168, hours) * HOUR <= LONGEST_TTL
  {
  }

  lemma StepLifetimes(op: Op, seen: Store, s: Store)
    requires Lifetimes(s) && PolicyInRange(op) && FreshToken(op, s)
    ensures Lifetimes(After(op, seen, s))
  {
    var s' := After(op, seen, s);
    forall c | 0 <= c < |s'.comments| ensures LifetimeOk(s'.comments[c]) {
      if op.Reissue? {
        ClampHours(op.ttlHours);
        assert LifetimeOk(s.comments[c]);
      } else if !op.Create? {
        OthersKeepLifetimes(op, seen, s, c);
      } else if c < |s.comments| {
        assert LifetimeOk(s.comments[c]);
      }
    }
  }

  lemma OthersKeepLifetimes(op: Op, seen: Store, s: Store, c: nat)
    requires !op.Create? && !op.Reissue? && c < |After(op, seen, s).comments| && Lifetimes(s)
    ensures LifetimeOk(After(op, seen, s).comments[c])
  {
    OthersKeepTokens(op, seen, s, c);
    assert LifetimeOk(s.comments[c]);
  }

  lemma {:induction false} RunKeepsLifetimes(states: seq<Store>, steps: seq<Step>, n: nat)
    requires IsRun(states, steps) && n < |states|
    requires forall k :: 0 <= k < |steps| ==> PolicyInRange(steps[k].op)
    ensures Lifetimes(states[n])
    decreases n
  {
    if n > 0 {
      RunKeepsLifetimes(states, steps, n - 1);
      assert Follows(states, steps, n - 1);
      assert PolicyInRange(steps[n - 1].op);
      StepLifetimes(steps[n - 1].op, states[steps[n - 1].at], states[n - 1]);
    }
  }

  /** A link that works was sent less than a week before it is used, to a comment that was waiting for it. */
  lemma LinksWorkForAWeek(states: seq<Store>, steps: seq<Step>, k: nat) returns (c: nat)
    requires IsRun(states, steps) && k < |steps| && (forall i :: 0 <= i < |steps| ==> PolicyInRange(steps[i].op))
    requires steps[k].op.Confirm? && Succeeds(states, steps, k)
    ensures c < |states[k].comments| && states[k].comments[c].token == Some(steps[k].op.token)
    ensures states[k].comments[c].tokenSent.Some?
            && states[steps[k].at].now < states[k].comments[c].tokenSent.value + LONGEST_TTL
    ensures c < |states[k + 1].comments| && states[k + 1].comments[c].confirmedAt == Some(states[steps[k].at].now)
    ensures states[k].comments[c].status == PendingConfirmation
            && states[k + 1].comments[c].status in {PendingModeration, Approved}
  {
    assert Follows(states, steps, k);
    RunKeepsLifetimes(states, steps, k);
    c := FindConfirmable(states[steps[k].at].comments, steps[k].op.token, states[steps[k].at].now).value;
    assert LifetimeOk(states[k].comments[c]);
  }

  // ---------------------------------------------------------------- the publication stamp

  /** The comment whose status and stamps `op` is about to write. */
  function DecidesOn(op: Op, seen: Store): Option<nat> {
    match op
    case Moderate(c, _, _, _, _) => Some(c)
    case ReviewAppeal(d, _, overturn, _, _) =>
      if overturn && d < |seen.decisions| && seen.decisions[d].target.OnComment? then Some(seen.decisions[d].target.comment) else None
    case _ => None
  }

  lemma StampAfterReview(d: nat, reviewer: UserId, text: string, others: Reviewers, seen: Store, s: Store, c: nat)
    requires c < |s.comments| && JudgeAppeal(d, reviewer, true, text, others, seen, s).Ok? && d < |seen.decisions|
    ensures var s' := JudgeAppeal(d, reviewer, true, text, others, seen, s).value;
            && |s'.comments| == |s.comments|
            && (seen.decisions[d].target == OnComment(c) ==>
                  && c < |seen.comments|
                  && s'.comments[c].publishedAt == Decided(s.comments[c], seen.comments[c], Restore, s.now).publishedAt)
            && (seen.decisions[d].target != OnComment(c) ==> s'.comments[c].publishedAt == s.comments[c].publishedAt)
  {
  }

  function Stamp(s: Store, c: nat): Option<Time> { if c < |s.comments| then s.comments[c].publishedAt else None }

  /** A call that decides on `c` replaces a stamp by the one it had read, or by the present time if it had read none. */
  lemma StampAfter(op: Op, seen: Store, s: Store, c: nat)
    requires Inv(seen) && Inv(s) && Stamp(s, c).Some?
    ensures Stamp(After(op, seen, s), c)
         == if Perform(op, seen, s).Err? || DecidesOn(op, seen) != Some(c) then Stamp(s, c)
            else if Stamp(seen, c).Some? then Stamp(seen, c)
            else Some(s.now)
  {
    if Perform(op, seen, s).Ok? {
      if op.Moderate? || (op.ReviewAppeal? && op.overturn) {
        assert CommentOk(s, c);
        if c < |seen.comments| { assert CommentOk(seen, c); }
        if op.ReviewAppeal? { StampAfterReview(op.decision, op.reviewer, op.text, op.others, seen, s, c); }
      } else {
        OthersKeepStamps(op, seen, s, c);
      }
    }
  }

  lemma OthersKeepStamps(op: Op, seen: Store, s: Store, c: nat)
    requires Inv(s) && Stamp(s, c).Some? && !op.Moderate? && !(op.ReviewAppeal? && op.overturn)
    ensures Stamp(After(op, seen, s), c) == Stamp(s, c)
  {
    assert CommentOk(s, c);
  }

  lemma StampAfterStep(states: seq<Store>, steps: seq<Step>, k: nat, c: nat)
    requires IsRun(states, steps) && k < |steps| && Stamp(states[k], c).Some?
    ensures steps[k].at <= k
    ensures Stamp(states[k + 1], c)
         == if !Decides(states, steps, k, c) then Stamp(states[k], c)
            else if Stamp(states[steps[k].at], c).Some? then Stamp(states[steps[k].at], c)
            else Some(states[k].now)
  {
    assert Follows(states, steps, k);
    RunKeepsInv(states, steps, k);
    RunKeepsInv(states, steps, steps[k].at);
    StampAfter(steps[k].op, states[steps[k].at], states[k], c);
  }

  /** Step `k` is a decision on comment `c`. */
  ghost predicate Decides(states: seq<Store>, steps: seq<Step>, k: nat, c: nat)
    requires k < |steps| && |states| == |steps| + 1
  {
    Succeeds(states, steps, k) && DecidesOn(steps[k].op, states[steps[k].at]) == Some(c)
  }

  /** A decision on `c` taken at step `k` on what had been read before state `i`. */
  ghost predicate StaleDecision(states: seq<Store>, steps: seq<Step>, i: nat, k: nat, c: nat)
    requires k < |steps| && |states| == |steps| + 1
  {
    Decides(states, steps, k, c) && steps[k].at < i
  }

  /** A comment that was published once has a stamp for ever. */
  lemma {:induction false} StampStays(states: seq<Store>, steps: seq<Step>, i: nat, j: nat, c: nat)
    requires IsRun(states, steps) && i <= j < |states| && Stamp(states[i], c).Some?
    ensures Stamp(states[j], c).Some?
    decreases j
  {
    if i < j {
      StampStays(states, steps, i, j - 1, c);
      StampAfterStep(states, steps, j - 1, c);
    }
  }

  /** A stale decision that leaves the stamp of state `i` as it is, having read none and falling on the same instant. */
  ghost predicate SameInstant(states: seq<Store>, steps: seq<Step>, i: nat, k: nat, c: nat)
    requires k < |steps| && |states| == |steps| + 1 && i < |states|
  {
    steps[k].at <= k && Stamp(states[steps[k].at], c).None? && Some(states[k].now) == Stamp(states[i], c)
  }

  lemma {:induction false} StampHeld(states: seq<Store>, steps: seq<Step>, i: nat, j: nat, c: nat)
    requires IsRun(states, steps) && i <= j < |states| && Stamp(states[i], c).Some?
    requires forall k :: i <= k < j && StaleDecision(states, steps, i, k, c) ==> SameInstant(states, steps, i, k, c)
    ensures Stamp(states[j], c) == Stamp(states[i], c)
    decreases j
  {
    if i < j {
      StampHeld(states, steps, i, j - 1, c);
      StampAfterStep(states, steps, j - 1, c);
      var at := steps[j - 1].at;
      if Decides(states, steps, j - 1, c) {
        if at < i {
          assert StaleDecision(states, steps, i, j - 1, c);
        } else {
          StampHeld(states, steps, i, at, c);
        }
      }
    }
  }

  /** A stamp is fixed as long as nobody decides on what had been read before the stamp was there. */
  lemma StampFixed(states: seq<Store>, steps: seq<Step>, i: nat, j: nat, c: nat)
    requires IsRun(states, steps) && i <= j < |states| && Stamp(states[i], c).Some?
    requires forall k :: i <= k < j ==> !StaleDecision(states, steps, i, k, c)
    ensures Stamp(states[j], c) == Stamp(states[i], c)
  {
    StampHeld(states, steps, i, j, c);
  }

  /**
   Of a comment published in state `i`, the stamp is the same in all states up to `j` exactly if every
   decision up to then that had read the rows before `i` is taken at the instant of that stamp.
   */
  lemma StampFixedIff(states: seq<Store>, steps: seq<Step>, i: nat, j: nat, c: nat)
    requires IsRun(states, steps) && 0 < i <= j < |states|
    requires Stamp(states[i - 1], c).None? && Stamp(states[i], c).Some?
    ensures (forall n :: i <= n <= j ==> Stamp(states[n], c) == Stamp(states[i], c))
       <==> (forall k :: i <= k < j && StaleDecision(states, steps, i, k, c) ==> states[k].now == Stamp(states[i], c).value)
  {
    if forall k :: i <= k < j && StaleDecision(states, steps, i, k, c) ==> states[k].now == Stamp(states[i], c).value {
      forall n | i <= n <= j ensures Stamp(states[n], c) == Stamp(states[i], c) {
        forall k | i <= k < n && StaleDecision(states, steps, i, k, c) ensures SameInstant(states, steps, i, k, c) {
          UnreadStamp(states, steps, i, steps[k].at, c);
        }
        StampHeld(states, steps, i, n, c);
      }
    }
    if forall n :: i <= n <= j ==> Stamp(states[n], c) == Stamp(states[i], c) {
      forall k | i <= k < j && StaleDecision(states, steps, i, k, c) ensures states[k].now == Stamp(states[i], c).value {
        UnreadStamp(states, steps, i, steps[k].at, c);
        assert Stamp(states[k], c) == Stamp(states[i], c) && Stamp(states[k + 1], c) == Stamp(states[i], c);
        StampAfterStep(states, steps, k, c);
      }
    }
  }

  lemma UnreadStamp(states: seq<Store>, steps: seq<Step>, i: nat, at: nat, c: nat)
    requires IsRun(states, steps) && at < i < |states| && Stamp(states[i - 1], c).None?
    ensures Stamp(states[at], c).None?
  {
    if Stamp(states[at], c).Some? { StampStays(states, steps, at, i - 1, c); }
  }

  /** A run that goes on for one step. */
  lemma OneStepMore(states: seq<Store>, steps: seq<Step>, op: Op, at: nat) returns (states': seq<Store>, steps': seq<Step>)
    requires IsRun(states, steps) && at <= |steps| && FreshToken(op, states[|steps|])
    ensures IsRun(states', steps') && steps' == steps + [Step(op, at)]
    ensures states' == states + [After(op, states[at], states[|steps|])]
  {
    states', steps' := states + [After(op, states[at], states[|steps|])], steps + [Step(op, at)];
    forall k | 0 <= k < |steps'| ensures Follows(states', steps', k) {
      if k < |steps| { assert Follows(states, steps, k); }
    }
  }

  const OPEN_POLICY: Policy := Policy(true, true, true, false, Always, 0, 30, 2, false, 100, 24)

  /** A restore that had read the row before another restore overwrites the stamp of that one. */
  lemma StaleRestoreMovesTheStamp() returns (states: seq<Store>, steps: seq<Step>)
    ensures IsRun(states, steps) && |steps| == 5 && |states[4].comments| == 1 && |states[5].comments| == 1
    ensures states[4].comments[0].publishedAt == Some(0) && states[5].comments[0].publishedAt == Some(1)
  {
    var create := Create(0, OPEN_POLICY, "n", false, false, "b", None, None, None, true, 0);
    var restore, spam := Moderate(0, 7, Restore, true, None), Moderate(0, 7, MarkSpam, true, None);
    steps := [Step(create, 0), Step(restore, 1), Step(spam, 2), Step(Wait(1), 3), Step(restore, 1)];
    var s1 := After(create, EMPTY, EMPTY);
    var s2 := After(restore, s1, s1);
    var s3 := After(spam, s2, s2);
    var s4 := After(Wait(1), s3, s3);
    states := [EMPTY, s1, s2, s3, s4, After(restore, s1, s4)];
    assert Strip("n") == "n" && Strip("b") == "b";
    assert forall k :: 0 <= k < |steps| ==> Follows(states, steps, k);
  }
}
