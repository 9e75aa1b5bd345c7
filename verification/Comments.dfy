/**
 The comment domain of `arborpress/comments/service.py` and `arborpress/comments/moderation.py`:
 creation, guest confirmation, moderation, revisions and appeals over one set of rows.

 Every operation reads a store `seen` and writes to a store `s`. The two are the same store when
 the operation runs alone; otherwise `seen` is any earlier state, and only the conditional UPDATEs
 and the unique constraints of the tables notice that `s` has moved on. Rows are never deleted, so
 a row's id is its index.
 */
module Comments {
  import opened Common

  type Time = int
  type UserId = nat
  type Token = nat

  const HOUR: Time := 3600
  const DAY: Time := 24 * HOUR

  datatype Status = PendingConfirmation | PendingModeration | Approved | Rejected | Spam | Deleted

  predicate Pending(status: Status) { status.PendingConfirmation? || status.PendingModeration? }

  datatype Mode = Always | FirstN | TrustedBypass | NoModeration

  datatype Policy = Policy(enabled: bool, allowGuests: bool, allowReplies: bool, guestConfirmation: bool,
                           mode: Mode, firstN: nat, editWindowMinutes: nat, maxUserEdits: nat,
                           trustedEditBypass: bool, maxLength: nat, confirmationHours: nat)

  datatype User = User(id: UserId, trusted: bool)

  /** `token` stands for the stored digest: digests are taken to be injective. */
  datatype Comment = Comment(post: nat, author: Option<UserId>, remote: Option<nat>, parent: Option<nat>,
                             body: string, status: Status, token: Option<Token>, tokenExpires: Option<Time>,
                             tokenSent: Option<Time>, confirmedAt: Option<Time>, approvedAt: Option<Time>,
                             publishedAt: Option<Time>, createdAt: Time)

  datatype RevisionStatus = Proposed | Accepted | Declined

  datatype Revision = Revision(comment: nat, editor: Option<UserId>, number: nat, body: string,
                               status: RevisionStatus, pendingKey: Option<nat>, authorEdit: bool)

  datatype Target = OnComment(comment: nat) | OnRevision(revision: nat)

  datatype Outcome = Approve | Reject | MarkSpam | Delete | Restore

  datatype Decision = Decision(target: Target, actor: Option<UserId>, outcome: Outcome,
                               supersedes: Option<nat>, at: Time)

  datatype AppealState = Open | Upheld | Overturned

  datatype Appeal = Appeal(appellant: UserId, state: AppealState, replacement: Option<nat>, selfReview: bool)

  /** `appeals` is keyed by the decision appealed against, of which each may have one appeal. */
  datatype Store = Store(comments: seq<Comment>, revisions: seq<Revision>, decisions: seq<Decision>,
                         appeals: map<nat, Appeal>, issued: map<Token, nat>, now: Time)

  const EMPTY: Store := Store([], [], [], map[], map[], 0)

  datatype Refusal = PolicyRefusal | TokenRefusal | ModerationRefusal

  /** Whether there are other reviewers: what the caller says, or else a count over the active staff. */
  datatype Reviewers = Told(available: bool) | Counted(staff: set<UserId>)

  // ---------------------------------------------------------------- the operations a caller can ask for

  datatype Op =
    | Wait(ticks: nat)
    | Create(post: nat, policy: Policy, name: string, email: bool, uri: bool, text: string, author: Option<User>,
             remote: Option<nat>, parent: Option<nat>, spam: bool, token: Token)
    /** `policy` is that of the comment's post, if the post still exists. */
    | Confirm(token: Token, postPolicy: Option<Policy>)
    | Reissue(comment: nat, ttlHours: int, minInterval: int, token: Token)
    | Moderate(comment: nat, actor: UserId, outcome: Outcome, reasonOk: bool, supersedes: Option<nat>)
    | Revise(comment: nat, editor: User, text: string, policy: Policy, moderator: bool)
    | ReviseRemotely(comment: nat, remoteActor: nat, text: string, policy: Policy)
    | ReviewRevision(revision: nat, accept: bool)
    | ModerateRevision(revision: nat, actor: UserId, accept: bool, reasonOk: bool)
    | SubmitAppeal(decision: nat, appellant: UserId, text: string, windowDays: int)
    | ReviewAppeal(decision: nat, reviewer: UserId, overturn: bool, text: string, others: Reviewers)

  function Blank(ch: char): bool { ch in {' ', '\t', '\n', '\r'} }

  function StripLeft(s: string): string { if s != [] && Blank(s[0]) then StripLeft(s[1..]) else s }

  function StripRight(s: string): string { if s != [] && Blank(s[|s| - 1]) then StripRight(s[..|s| - 1]) else s }

  function Strip(s: string): string { StripRight(StripLeft(s)) }

  function Clamp(low: int, high: int, x: int): int { if x < low then low else if x > high then high else x }

  // ---------------------------------------------------------------- creation

  function PublicationState(policy: Policy, author: Option<User>, approvedCount: nat): Status {
    match policy.mode
    case NoModeration => Approved
    case FirstN => if author.Some? && approvedCount >= policy.firstN then Approved else PendingModeration
    case TrustedBypass => if author.Some? && author.value.trusted then Approved else PendingModeration
    case Always => PendingModeration
  }

  function ApprovedCount(comments: seq<Comment>, author: Option<User>): nat {
    if author.None? then 0
    else |set c | 0 <= c < |comments| && comments[c].author == Some(author.value.id) && comments[c].status == Approved|
  }

  predicate Repliable(seen: Store, post: nat, parent: nat) {
    parent < |seen.comments| && seen.comments[parent].post == post && seen.comments[parent].status == Approved
  }

  function When<T>(condition: bool, value: T): Option<T> { if condition then Some(value) else None }

  function NewComment(op: Op, seen: Store, now: Time): Comment
    requires op.Create?
  {
    var guest := op.author.None? && op.remote.None?;
    var confirm := !op.spam && guest && op.policy.guestConfirmation;
    var status := if op.spam then Spam else if confirm then PendingConfirmation
                  else PublicationState(op.policy, op.author, ApprovedCount(seen.comments, op.author));
    Comment(op.post, if op.author.Some? then Some(op.author.value.id) else None, op.remote, op.parent,
            Strip(op.text), status, When(confirm, op.token),
            When(confirm, now + op.policy.confirmationHours * HOUR), When(confirm, now),
            When(!confirm && !op.spam, now), When(status == Approved, now), When(status == Approved, now), now)
  }

  predicate CreateAllowed(op: Op, seen: Store)
    requires op.Create?
  {
    && op.policy.enabled
    && !(op.author.Some? && op.remote.Some?)
    && !(op.remote.Some? && (op.email || !op.uri))
    && (op.author.Some? || op.remote.Some? || op.policy.allowGuests)
    && Strip(op.name) != "" && Strip(op.text) != "" && |op.text| <= op.policy.maxLength
    && (op.parent.Some? ==> op.policy.allowReplies && Repliable(seen, op.post, op.parent.value))
    && (NewComment(op, seen, 0).status == PendingConfirmation ==> op.email)
  }

  /** The decision that creation and confirmation record by themselves. */
  function Automatic(c: nat, status: Status, now: Time): seq<Decision> {
    if status == Approved then [Decision(OnComment(c), None, Approve, None, now)]
    else if status == Spam then [Decision(OnComment(c), None, MarkSpam, None, now)]
    else []
  }

  function CreateComment(op: Op, seen: Store, s: Store): Result<Store, Refusal>
    requires op.Create?
  {
    if !CreateAllowed(op, seen) then Err(PolicyRefusal)
    else
      var row := NewComment(op, seen, s.now);
      Ok(s.(comments := s.comments + [row],
            issued := if row.token.Some? then s.issued[op.token := |s.comments|] else s.issued,
            decisions := s.decisions + Automatic(|s.comments|, row.status, s.now)))
  }

  // ---------------------------------------------------------------- guest tokens

  predicate Confirmable(row: Comment, token: Token, now: Time) {
    && row.status == PendingConfirmation && row.token == Some(token)
    && row.tokenExpires.Some? && row.tokenExpires.value > now
  }

  function FindConfirmable(comments: seq<Comment>, token: Token, now: Time): (r: Option<nat>)
    ensures r.Some? ==> r.value < |comments| && Confirmable(comments[r.value], token, now)
    ensures r.None? ==> forall row :: row in comments ==> !Confirmable(row, token, now)
  {
    if comments == [] then None
    else
      var last := |comments| - 1;
      if Confirmable(comments[last], token, now) then Some(last)
      else FindConfirmable(comments[..last], token, now)
  }

  function Confirmed(row: Comment, status: Status, now: Time): Comment {
    row.(status := status, token := None, tokenExpires := None, confirmedAt := Some(now),
         approvedAt := When(status == Approved, now), publishedAt := When(status == Approved, now))
  }

  function ConfirmGuest(token: Token, policy: Option<Policy>, seen: Store, s: Store): Result<Store, Refusal> {
    var found := FindConfirmable(seen.comments, token, seen.now);
    if found.None? || policy.None? then Err(TokenRefusal)
    else
      var c, status := found.value, PublicationState(policy.value, None, 0);
      if c >= |s.comments| || !Confirmable(s.comments[c], token, seen.now) then Err(TokenRefusal)
      else Ok(s.(comments := s.comments[c := Confirmed(s.comments[c], status, seen.now)],
                 decisions := s.decisions + Automatic(c, status, s.now)))
  }

  function Reissued(row: Comment, token: Token, ttlHours: int, now: Time): Comment {
    row.(token := Some(token), tokenExpires := Some(now + Clamp(1, 168, ttlHours) * HOUR), tokenSent := Some(now))
  }

  function ReissueToken(c: nat, ttlHours: int, minInterval: int, token: Token, seen: Store, s: Store): Result<Store,
      Refusal> {
    if c >= |seen.comments| || c >= |s.comments| || seen.comments[c].status != PendingConfirmation then Err(TokenRefusal)
    else
      var read, row := seen.comments[c], s.comments[c];
      var interval := if minInterval > 1 then minInterval else 1;
      if read.tokenSent.Some? && s.now < read.tokenSent.value + interval then Err(TokenRefusal)
      else if row.status != PendingConfirmation || row.token != read.token || row.tokenSent != read.tokenSent then Err(TokenRefusal)
      else Ok(s.(comments := s.comments[c := Reissued(row, token, ttlHours, s.now)], issued := s.issued[token := c]))
  }

  // ---------------------------------------------------------------- moderation of comments

  function ResultOf(outcome: Outcome): Status {
    match outcome
    case Approve => Approved
    case Restore => Approved
    case Reject => Rejected
    case MarkSpam => Spam
    case Delete => Deleted
  }

  predicate Allowed(status: Status, outcome: Outcome) {
    match status
    case PendingConfirmation => false
    case PendingModeration => outcome in {Approve, Reject, MarkSpam}
    case Approved => outcome in {Delete, MarkSpam}
    case Rejected => outcome == Restore
    case Spam => outcome == Restore
    case Deleted => outcome == Restore
  }

  /** The UPDATE of a decided comment: the time stamps come from the row that was read. */
  function Decided(row: Comment, read: Comment, outcome: Outcome, now: Time): Comment {
    row.(status := ResultOf(outcome),
         approvedAt := if ResultOf(outcome) == Approved then Some(now) else read.approvedAt,
         publishedAt := if ResultOf(outcome) == Approved && read.publishedAt.None? then Some(now) else read.publishedAt)
  }

  function Decide(s: Store, c: nat, read: Comment, actor: UserId, outcome: Outcome, supersedes: Option<nat>): Store
    requires c < |s.comments|
  {
    s.(comments := s.comments[c := Decided(s.comments[c], read, outcome, s.now)],
       decisions := s.decisions + [Decision(OnComment(c), Some(actor), outcome, supersedes, s.now)])
  }

  function ModerateComment(c: nat, actor: UserId, outcome: Outcome, reasonOk: bool, supersedes: Option<nat>,
                           seen: Store, s: Store): Result<Store, Refusal> {
    if c >= |seen.comments| || c >= |s.comments| then Err(ModerationRefusal)
    else if !Allowed(seen.comments[c].status, outcome) || !reasonOk then Err(ModerationRefusal)
    else if s.comments[c].status != seen.comments[c].status then Err(ModerationRefusal)
    else Ok(Decide(s, c, seen.comments[c], actor, outcome, supersedes))
  }

  // ---------------------------------------------------------------- revisions

  predicate IsAuthorEdit(r: Revision, c: nat, author: UserId) {
    r.comment == c && r.editor == Some(author) && r.authorEdit
  }

  function AuthorEdits(revisions: seq<Revision>, c: nat, author: UserId): nat {
    if revisions == [] then 0
    else
      var last := |revisions| - 1;
      AuthorEdits(revisions[..last], c, author) + if IsAuthorEdit(revisions[last], c, author) then 1 else 0
  }

  function MaxNumber(revisions: seq<Revision>, c: nat): nat {
    if revisions == [] then 0
    else
      var last := |revisions| - 1;
      var m := MaxNumber(revisions[..last], c);
      if revisions[last].comment == c && revisions[last].number > m then revisions[last].number else m
  }

  predicate HasProposal(revisions: seq<Revision>, c: nat) {
    exists r :: r in revisions && r.comment == c && r.status == Proposed
  }

  function PublishedSince(row: Comment): Time {
    if row.publishedAt.Some? then row.publishedAt.value else if row.approvedAt.Some? then row.approvedAt.value else row.createdAt
  }

  predicate CanEdit(seen: Store, c: nat, editor: User, policy: Policy, moderator: bool)
    requires c < |seen.comments|
  {
    var row := seen.comments[c];
    && row.status == Approved
    && (moderator || row.author == Some(editor.id))
    && (moderator || (policy.editWindowMinutes > 0 && seen.now <= PublishedSince(row) + policy.editWindowMinutes * 60))
    && (moderator || AuthorEdits(seen.revisions, c, editor.id) < policy.maxUserEdits)
  }

  /** The unique constraints on `(comment_id, revision_number)` and on `pending_key`. */
  predicate Insertable(revisions: seq<Revision>, row: Revision) {
    forall r :: 0 <= r < |revisions| ==>
      && !(revisions[r].comment == row.comment && revisions[r].number == row.number)
      && (row.pendingKey.Some? ==> revisions[r].pendingKey != row.pendingKey)
  }

  function Insert(s: Store, row: Revision): Store {
    var s' := s.(revisions := s.revisions + [row]);
    if row.status == Accepted && row.comment < |s.comments|
    then s'.(comments := s.comments[row.comment := s.comments[row.comment].(body := row.body)])
    else s'
  }

  function InsertRevision(s: Store, row: Revision): Result<Store, Refusal> {
    if Insertable(s.revisions, row) then Ok(Insert(s, row)) else Err(PolicyRefusal)
  }

  function NewRevision(seen: Store, c: nat, editor: Option<UserId>, text: string, immediate: bool,
      authorEdit: bool): Revision {
    Revision(c, editor, MaxNumber(seen.revisions, c) + 1, Strip(text), if immediate then Accepted else Proposed,
             When(!immediate, c), authorEdit)
  }

  predicate TextAllowed(text: string, policy: Policy) { Strip(text) != "" && |text| <= policy.maxLength }

  function ReviseComment(c: nat, editor: User, text: string, policy: Policy, moderator: bool, seen: Store,
      s: Store): Result<Store, Refusal> {
    if c >= |seen.comments| || !CanEdit(seen, c, editor, policy, moderator) || !TextAllowed(text, policy) then Err(PolicyRefusal)
    else
      var immediate := moderator || (policy.trustedEditBypass && editor.trusted);
      if !immediate && HasProposal(seen.revisions, c) then Err(PolicyRefusal)
      else InsertRevision(s, NewRevision(seen, c, Some(editor.id), text, immediate, !moderator))
  }

  function ReviseRemote(c: nat, remoteActor: nat, text: string, policy: Policy, seen: Store, s: Store): Result<Store,
      Refusal> {
    if c >= |seen.comments| || !policy.enabled || seen.comments[c].remote != Some(remoteActor) then Err(PolicyRefusal)
    else if seen.comments[c].status != Approved || !TextAllowed(text, policy) then Err(PolicyRefusal)
    else if HasProposal(seen.revisions, c) then Err(PolicyRefusal)
    else InsertRevision(s, NewRevision(seen, c, None, text, false, false))
  }

  /** A revision leaves the queue; its body becomes public if it is accepted. */
  function Settle(s: Store, r: nat, accept: bool): Store
    requires r < |s.revisions|
  {
    var row := s.revisions[r];
    var s' := s.(revisions := s.revisions[r := row.(status := if accept then Accepted else Declined, pendingKey := None)]);
    if accept && row.comment < |s.comments|
    then s'.(comments := s.comments[row.comment := s.comments[row.comment].(body := row.body)])
    else s'
  }

  predicate Reviewable(seen: Store, r: nat) {
    && r < |seen.revisions| && seen.revisions[r].status == Proposed
    && seen.revisions[r].comment < |seen.comments| && seen.comments[seen.revisions[r].comment].status == Approved
  }

  function Review(r: nat, accept: bool, seen: Store, s: Store): Result<Store, Refusal> {
    if !Reviewable(seen, r) || r >= |s.revisions| then Err(PolicyRefusal) else Ok(Settle(s, r, accept))
  }

  function DecideRevision(r: nat, actor: UserId, accept: bool, reasonOk: bool, seen: Store, s: Store): Result<Store,
      Refusal> {
    if !Reviewable(seen, r) || !reasonOk || r >= |s.revisions| then Err(ModerationRefusal)
    else if s.revisions[r].status != Proposed then Err(ModerationRefusal)
    else
      Ok(Settle(s, r, accept).(decisions := s.decisions
           + [Decision(OnRevision(r), Some(actor), if accept then Approve else Reject, None, s.now)]))
  }

  // ---------------------------------------------------------------- appeals

  /** The comment a decision is about. */
  function CommentOf(seen: Store, d: Decision): Option<nat> {
    match d.target
    case OnComment(c) => When(c < |seen.comments|, c)
    case OnRevision(r) =>
      if r < |seen.revisions| && seen.revisions[r].comment < |seen.comments| then Some(seen.revisions[r].comment) else None
  }

  predicate Superseded(seen: Store, d: nat) {
    exists x :: x in seen.decisions && x.supersedes == Some(d)
  }

  predicate MayAppeal(seen: Store, d: nat, appellant: UserId, windowDays: int)
    requires d < |seen.decisions|
  {
    var decision := seen.decisions[d];
    var c := CommentOf(seen, decision);
    && decision.outcome in {Reject, MarkSpam, Delete}
    && !Superseded(seen, d)
    && c.Some? && seen.comments[c.value].author == Some(appellant)
    && seen.now <= decision.at + Clamp(1, 90, windowDays) * DAY
    && (decision.target.OnRevision? ==> seen.revisions[decision.target.revision].editor == Some(appellant))
  }

  function AddAppeal(d: nat, appellant: UserId, text: string, windowDays: int, seen: Store, s: Store): Result<Store,
      Refusal> {
    if d >= |seen.decisions| || !MayAppeal(seen, d, appellant, windowDays) then Err(ModerationRefusal)
    else if Strip(text) == "" || |Strip(text)| > 5000 || d in s.appeals then Err(ModerationRefusal)
    else Ok(s.(appeals := s.appeals[d := Appeal(appellant, Open, None, false)]))
  }

  /** The final UPDATE of a review, which also goes wrong when the appeal is no longer open. */
  function CloseAppeal(s: Store, d: nat, state: AppealState, replacement: Option<nat>, self: bool): Result<Store,
      Refusal> {
    if d !in s.appeals || s.appeals[d].state != Open then Err(ModerationRefusal)
    else Ok(s.(appeals := s.appeals[d := s.appeals[d].(state := state, replacement := replacement, selfReview := self)]))
  }

  /** What overturning decision `d` does before the appeal itself is closed. */
  function Overturn(d: nat, decision: Decision, reviewer: UserId, seen: Store, s: Store): Result<Store, Refusal> {
    match decision.target
    case OnRevision(r) =>
      if CommentOf(seen, decision).None? || r >= |s.revisions| then Err(ModerationRefusal)
      else Ok(Settle(s, r, true).(decisions := s.decisions + [Decision(OnRevision(r), Some(reviewer), Restore, Some(d), s.now)]))
    case OnComment(c) =>
      if c >= |seen.comments| || c >= |s.comments| || seen.comments[c].status !in {Rejected, Spam, Deleted} then Err(ModerationRefusal)
      else if s.comments[c].status != seen.comments[c].status then Err(ModerationRefusal)
      else Ok(Decide(s, c, seen.comments[c], reviewer, Restore, Some(d)))
  }

  /** Somebody other than the one who decided can judge. */
  predicate OthersThan(others: Reviewers, actor: Option<UserId>) {
    match others
    case Told(available) => available
    case Counted(staff) => exists u :: u in staff && Some(u) != actor
  }

  function JudgeAppeal(d: nat, reviewer: UserId, overturn: bool, text: string, others: Reviewers, seen: Store,
      s: Store): Result<Store, Refusal> {
    if d !in seen.appeals || seen.appeals[d].state != Open || d >= |seen.decisions| then Err(ModerationRefusal)
    else if Strip(text) == "" || |Strip(text)| > 2000 then Err(ModerationRefusal)
    else
      var self := seen.decisions[d].actor == Some(reviewer);
      if self && OthersThan(others, seen.decisions[d].actor) then Err(ModerationRefusal)
      else if !overturn then CloseAppeal(s, d, Upheld, None, self)
      else
        var done := Overturn(d, seen.decisions[d], reviewer, seen, s);
        if done.Err? then done else CloseAppeal(done.value, d, Overturned, Some(|s.decisions|), self)
  }

  // ---------------------------------------------------------------- runs

  /** What operation `op` does to the store `s` after reading `seen`; a refusal changes nothing. */
  function Perform(op: Op, seen: Store, s: Store): Result<Store, Refusal> {
    match op
    case Wait(ticks) => Ok(s.(now := s.now + ticks))
    case Create(_, _, _, _, _, _, _, _, _, _, _) => CreateComment(op, seen, s)
    case Confirm(token, policy) => ConfirmGuest(token, policy, seen, s)
    case Reissue(c, ttl, interval, token) => ReissueToken(c, ttl, interval, token, seen, s)
    case Moderate(c, actor, outcome, reasonOk, supersedes) => ModerateComment(c, actor, outcome, reasonOk, supersedes, seen, s)
    case Revise(c, editor, text, policy, moderator) => ReviseComment(c, editor, text, policy, moderator, seen, s)
    case ReviseRemotely(c, remoteActor, text, policy) => ReviseRemote(c, remoteActor, text, policy, seen, s)
    case ReviewRevision(r, accept) => Review(r, accept, seen, s)
    case ModerateRevision(r, actor, accept, reasonOk) => DecideRevision(r, actor, accept, reasonOk, seen, s)
    case SubmitAppeal(d, appellant, text, window) => AddAppeal(d, appellant, text, window, seen, s)
    case ReviewAppeal(d, reviewer, overturn, text, others) => JudgeAppeal(d, reviewer, overturn, text, others, seen, s)
  }

  function After(op: Op, seen: Store, s: Store): Store {
    var result := Perform(op, seen, s);
    if result.Ok? then result.value else s
  }

  /** One operation of a run: it reads the state `at`, and writes to the current one. */
  datatype Step = Step(op: Op, at: nat)

  /** Random tokens never repeat. */
  predicate FreshToken(op: Op, s: Store) {
    (op.Create? || op.Reissue?) ==> op.token !in s.issued
  }

  /** Any interleaving: operation `k` may have read any state up to the one it writes to. */
  ghost predicate IsRun(states: seq<Store>, steps: seq<Step>) {
    && |states| == |steps| + 1
    && states[0] == EMPTY
    && forall k :: 0 <= k < |steps| ==> Follows(states, steps, k)
  }

  ghost predicate Follows(states: seq<Store>, steps: seq<Step>, k: nat)
    requires k < |steps| && |states| == |steps| + 1
  {
    && steps[k].at <= k
    && FreshToken(steps[k].op, states[k])
    && states[k + 1] == After(steps[k].op, states[steps[k].at], states[k])
  }

  ghost predicate Succeeds(states: seq<Store>, steps: seq<Step>, k: nat)
    requires k < |steps| && |states| == |steps| + 1
  {
    steps[k].at <= k && Perform(steps[k].op, states[steps[k].at], states[k]).Ok?
  }
}
