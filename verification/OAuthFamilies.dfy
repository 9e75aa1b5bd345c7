/**
 Refresh-token families of `arborpress/auth/oauth_server.py`: rotation with reuse detection
 (section 6 of RFC 6749, section 4.14 of RFC 9700) as interleaved SQL statements over shared
 rows. Nothing here relies on row locks.
 */
module OAuthFamilies {
  import opened Common

  type Id = nat
  type Time = int
  type Scopes = set<string>

  const ACCESS_TTL: Time := 8 * 60
  const REFRESH_TTL: Time := 30 * 24 * 60 * 60
  const FAMILY_TTL: Time := 90 * 24 * 60 * 60

  datatype Kind = Access | Refresh

  /** `parent` is the refresh token that was traded in; `checkedAt` and `savedAt` are the clock of that call. */
  datatype Token = Token(kind: Kind, family: Id, scopes: Scopes, expires: Time, consumed: bool, revoked: bool,
                         parent: Option<Id>, checkedAt: Time, savedAt: Time)

  datatype Family = Family(grant: Id, client: Id, user: Id, expires: Time, revoked: bool)

  datatype Grant = Grant(scopes: Scopes, revoked: bool)

  datatype Db = Db(tokens: map<Id, Token>, families: map<Id, Family>, grants: map<Id, Grant>,
                   clients: map<Id, bool>, users: map<Id, bool>)

  // ---------------------------------------------------------------- calls in flight

  datatype Pc =
    | Begun | TokenRead | FamilyRead | GrantRead | ClientRead | MayClaim
    | Claimed | AccessSaved | Rotated
    | RevokingFamily | RevokingTokens | Failed

  /** One running `rotate_refresh`, with the rows it has read. */
  datatype Call = Call(pc: Pc, token: Id, client: Id, requested: Option<Scopes>,
                       row: Option<Token>, family: Option<Family>, grant: Option<Grant>, clientEnabled: Option<bool>,
                       selected: Scopes, checkedAt: Time)

  datatype CheckPc = CheckBegun | CheckTokenRead | CheckFamilyRead | Accepted | Rejected

  /** One running `consume_bearer`; `at` is the clock when the token row was read. */
  datatype Check = Check(pc: CheckPc, token: Id, row: Option<Token>, family: Option<Family>, at: Time)

  datatype System = System(db: Db, now: Time, calls: map<Id, Call>, checks: map<Id, Check>, claims: seq<(Id, Id)>)

  datatype Action =
    | Tick(ticks: nat)
    /** `token_response`: a new family with its first two tokens. */
    | Issue(familyId: Id, access: Id, refresh: Id, grant: Id, client: Id, user: Id, scopes: Scopes)
    | BeginRotation(pid: Id, token: Id, client: Id, requested: Option<Scopes>)
    /** The next statement of rotation `pid`; a saved token gets the id `newId`. */
    | StepRotation(pid: Id, newId: Id)
    | BeginCheck(pid: Id, token: Id)
    | StepCheck(pid: Id)
    /** Anything else in the program: grants, clients and users change, families and tokens get revoked. */
    | Elsewhere(grants: map<Id, Grant>, clients: map<Id, bool>, users: map<Id, bool>,
                revokedFamilies: set<Id>, revokedTokens: set<Id>)

  // ---------------------------------------------------------------- the statements of one rotation

  function Fail(c: Call): Call { c.(pc := Failed) }

  /** The decisions between reading the client row and the claiming UPDATE. */
  function Decide(c: Call, db: Db, now: Time): Call
    requires c.row.Some? && c.family.Some?
  {
    var row, family := c.row.value, c.family.value;
    if c.grant.None? || c.clientEnabled.None? || family.client != c.client then Fail(c)
    else if row.consumed then c.(pc := RevokingFamily)
    else if row.revoked || row.expires <= now || family.expires <= now || family.revoked
            || c.grant.value.revoked || !c.clientEnabled.value then Fail(c)
    else if family.user !in db.users || !db.users[family.user] then Fail(c)
    else if !(row.scopes <= c.grant.value.scopes) then Fail(c)
    else
      var selected := if c.requested.None? then row.scopes else c.requested.value;
      if selected == {} || !(selected <= row.scopes) then Fail(c)
      else c.(pc := MayClaim, selected := selected, checkedAt := now)
  }

  function NewToken(c: Call, kind: Kind, now: Time): Token
    requires c.row.Some?
  {
    Token(kind, c.row.value.family, c.selected, now + (if kind == Access then ACCESS_TTL else REFRESH_TTL),
          false, false, Some(c.token), c.checkedAt, now)
  }

  /** The statements that change token and family rows. */
  datatype Statement =
    | ReadOnly
    | Consume(token: Id)
    | InsertToken(id: Id, row: Token)
    | RevokeFamily(family: Id)
    | RevokeTokensOf(family: Id)

  function Execute(db: Db, st: Statement): Db {
    match st
    case ReadOnly => db
    case Consume(t) => if t in db.tokens then db.(tokens := db.tokens[t := db.tokens[t].(consumed := true)]) else db
    case InsertToken(t, row) => if t !in db.tokens then db.(tokens := db.tokens[t := row]) else db
    case RevokeFamily(f) => if f in db.families then db.(families := db.families[f := db.families[f].(revoked := true)]) else db
    case RevokeTokensOf(f) =>
      db.(tokens := map t | t in db.tokens :: if db.tokens[t].family == f then db.tokens[t].(revoked := true) else db.tokens[t])
  }

  /** The next statement of one rotation, and the call after it. */
  function Next(c: Call, db: Db, now: Time, newId: Id): (Call, Statement) {
    match c.pc
    case Begun =>
      if c.token in db.tokens && db.tokens[c.token].kind == Refresh
      then (c.(pc := TokenRead, row := Some(db.tokens[c.token])), ReadOnly)
      else (Fail(c), ReadOnly)
    case TokenRead =>
      if c.row.Some? && c.row.value.family in db.families
      then (c.(pc := FamilyRead, family := Some(db.families[c.row.value.family])), ReadOnly)
      else (Fail(c), ReadOnly)
    case FamilyRead =>
      if c.family.Some? && c.family.value.grant in db.grants
      then (c.(pc := GrantRead, grant := Some(db.grants[c.family.value.grant])), ReadOnly)
      else (c.(pc := GrantRead, grant := None), ReadOnly)
    case GrantRead =>
      (c.(pc := ClientRead, clientEnabled := if c.client in db.clients then Some(db.clients[c.client]) else None), ReadOnly)
    case ClientRead =>
      if c.row.Some? && c.family.Some? then (Decide(c, db, now), ReadOnly) else (Fail(c), ReadOnly)
    case MayClaim =>
      if c.token in db.tokens && !db.tokens[c.token].consumed && !db.tokens[c.token].revoked
      then (c.(pc := Claimed), Consume(c.token))
      else (c.(pc := RevokingFamily), ReadOnly)
    case Claimed =>
      if c.row.Some? && newId !in db.tokens
      then (c.(pc := AccessSaved), InsertToken(newId, NewToken(c, Access, now)))
      else (c, ReadOnly)
    case AccessSaved =>
      if c.row.Some? && newId !in db.tokens
      then (c.(pc := Rotated), InsertToken(newId, NewToken(c, Refresh, now)))
      else (c, ReadOnly)
    case RevokingFamily =>
      if c.row.Some? then (c.(pc := RevokingTokens), RevokeFamily(c.row.value.family)) else (Fail(c), ReadOnly)
    case RevokingTokens =>
      if c.row.Some? then (Fail(c), RevokeTokensOf(c.row.value.family)) else (Fail(c), ReadOnly)
    case Rotated => (c, ReadOnly)
    case Failed => (c, ReadOnly)
  }

  function Step(s: System, pid: Id, newId: Id): System
    requires pid in s.calls
  {
    var (c, st) := Next(s.calls[pid], s.db, s.now, newId);
    s.(db := Execute(s.db, st), calls := s.calls[pid := c],
       claims := if st.Consume? then s.claims + [(st.token, pid)] else s.claims)
  }

  /** The next statement of one bearer check. */
  function NextCheck(k: Check, db: Db, now: Time): Check {
    match k.pc
    case CheckBegun =>
      if && k.token in db.tokens && db.tokens[k.token].kind == Access
         && !db.tokens[k.token].revoked && db.tokens[k.token].expires > now
      then k.(pc := CheckTokenRead, row := Some(db.tokens[k.token]), at := now)
      else k.(pc := Rejected)
    case CheckTokenRead =>
      if k.row.Some? && k.row.value.family in db.families && !db.families[k.row.value.family].revoked
      then k.(pc := CheckFamilyRead, family := Some(db.families[k.row.value.family]))
      else k.(pc := Rejected)
    case CheckFamilyRead =>
      // the grant, client and user rows, which can only turn the token down
      if && k.row.Some? && k.family.Some?
         && k.family.value.grant in db.grants && !db.grants[k.family.value.grant].revoked
         && k.family.value.client in db.clients && db.clients[k.family.value.client]
         && k.family.value.user in db.users && db.users[k.family.value.user]
         && k.row.value.scopes <= db.grants[k.family.value.grant].scopes
      then k.(pc := Accepted)
      else k.(pc := Rejected)
    case Accepted => k
    case Rejected => k
  }

  function FirstToken(kind: Kind, family: Id, scopes: Scopes, now: Time): Token {
    Token(kind, family, scopes, now + (if kind == Access then ACCESS_TTL else REFRESH_TTL), false, false, None, now, now)
  }

  function IssueFamily(db: Db, now: Time, f: Id, access: Id, refresh: Id, family: Family, scopes: Scopes): Db {
    if f !in db.families && access !in db.tokens && refresh !in db.tokens && access != refresh then
      db.(families := db.families[f := family],
          tokens := db.tokens[access := FirstToken(Access, f, scopes, now)][refresh := FirstToken(Refresh, f, scopes, now)])
    else db
  }

  function RevokeSome(db: Db, families: set<Id>, tokens: set<Id>): Db {
    db.(families := (map f | f in db.families :: if f in families then db.families[f].(revoked := true) else db.families[f]),
        tokens := (map t | t in db.tokens :: if t in tokens then db.tokens[t].(revoked := true) else db.tokens[t]))
  }

  /** One action; an action that does not apply changes nothing. */
  function Apply(s: System, a: Action): System {
    match a
    case Tick(n) => s.(now := s.now + n)
    case Issue(f, access, refresh, grant, client, user, scopes) =>
      s.(db := IssueFamily(s.db, s.now, f, access, refresh, Family(grant, client, user, s.now + FAMILY_TTL, false), scopes))
    case BeginRotation(pid, token, client, requested) =>
      if pid in s.calls then s
      else s.(calls := s.calls[pid := Call(Begun, token, client, requested, None, None, None, None, {}, s.now)])
    case StepRotation(pid, newId) => if pid in s.calls then Step(s, pid, newId) else s
    case BeginCheck(pid, token) =>
      if pid in s.checks then s else s.(checks := s.checks[pid := Check(CheckBegun, token, None, None, s.now)])
    case StepCheck(pid) =>
      if pid in s.checks then s.(checks := s.checks[pid := NextCheck(s.checks[pid], s.db, s.now)]) else s
    case Elsewhere(grants, clients, users, families, tokens) =>
      s.(db := RevokeSome(s.db, families, tokens).(grants := grants, clients := clients, users := users))
  }

  const START: System := System(Db(map[], map[], map[], map[], map[]), 0, map[], map[], [])

  function Run(s: System, actions: seq<Action>): System {
    if |actions| == 0 then s else Apply(Run(s, actions[..|actions| - 1]), actions[|actions| - 1])
  }

  // ---------------------------------------------------------------- one step at a time

  predicate PastClaim(c: Call) {
    c.pc == Claimed || c.pc == AccessSaved || c.pc == Rotated
  }

  /** A stored row never changes in what a caller may have copied, apart from its two flags. */
  predicate SameToken(a: Token, b: Token) {
    b == a.(consumed := b.consumed, revoked := b.revoked) && (a.consumed ==> b.consumed) && (a.revoked ==> b.revoked)
  }

  predicate SameFamily(a: Family, b: Family) {
    b == a.(revoked := b.revoked) && (a.revoked ==> b.revoked)
  }

  /** Rows stay, and their flags are only ever set. */
  ghost predicate Grows(db: Db, db': Db) {
    && (forall t :: t in db.tokens ==> t in db'.tokens && SameToken(db.tokens[t], db'.tokens[t]))
    && (forall f :: f in db.families ==> f in db'.families && SameFamily(db.families[f], db'.families[f]))
  }

  lemma ExecuteGrows(db: Db, st: Statement)
    ensures Grows(db, Execute(db, st))
  {
  }

  lemma ApplyGrows(s: System, a: Action)
    ensures Grows(s.db, Apply(s, a).db) && s.now <= Apply(s, a).now
  {
    if a.StepRotation? && a.pid in s.calls {
      ExecuteGrows(s.db, Next(s.calls[a.pid], s.db, s.now, a.newId).1);
    }
  }

  /** What a running call knows about the rows it has read. */
  ghost predicate CallOk(db: Db, now: Time, c: Call) {
    && (c.row.Some? ==>
          c.token in db.tokens && c.row.value.kind == Refresh && SameToken(c.row.value, db.tokens[c.token]))
    && (c.family.Some? ==>
          && c.row.Some? && c.row.value.family in db.families
          && SameFamily(c.family.value, db.families[c.row.value.family]))
    && (c.pc == MayClaim || PastClaim(c) ==>
          && c.row.Some? && c.family.Some? && c.selected <= c.row.value.scopes && c.selected != {}
          && c.checkedAt < c.family.value.expires && c.checkedAt <= now && !c.family.value.revoked)
  }

  lemma CallStaysOk(db: Db, now: Time, c: Call, db': Db, now': Time)
    requires CallOk(db, now, c) && Grows(db, db') && now <= now'
    ensures CallOk(db', now', c)
  {
  }

  lemma DecideOk(db: Db, now: Time, c: Call)
    requires CallOk(db, now, c) && c.row.Some? && c.family.Some? && !PastClaim(c)
    ensures CallOk(db, now, Decide(c, db, now))
  {
  }

  lemma ReadOk(db: Db, now: Time, c: Call, newId: Id)
    requires CallOk(db, now, c) && (c.pc == Begun || c.pc == TokenRead || c.pc == FamilyRead || c.pc == GrantRead)
    ensures CallOk(db, now, Next(c, db, now, newId).0)
    ensures Next(c, db, now, newId).1 == ReadOnly
  {
  }

  lemma NextOk(db: Db, now: Time, c: Call, newId: Id)
    requires CallOk(db, now, c)
    ensures CallOk(Execute(db, Next(c, db, now, newId).1), now, Next(c, db, now, newId).0)
  {
    var (c', st) := Next(c, db, now, newId);
    if c.pc == Begun || c.pc == TokenRead || c.pc == FamilyRead || c.pc == GrantRead {
      ReadOk(db, now, c, newId);
    } else if c.pc == ClientRead {
      if c.row.Some? && c.family.Some? { DecideOk(db, now, c); }
    } else {
      ExecuteGrows(db, st);
      CallStaysOk(db, now, c, Execute(db, st), now);
      assert c' == c.(pc := c'.pc);
    }
  }

  /** How the position of a call and the claiming UPDATE go together. */
  lemma ClaimMoves(db: Db, now: Time, c: Call, newId: Id)
    ensures var (c', st) := Next(c, db, now, newId);
            && c'.token == c.token
            && (PastClaim(c') <==> PastClaim(c) || st.Consume?)
            && (st.Consume? ==> st.token == c.token && !PastClaim(c) && c.token in db.tokens && !db.tokens[c.token].consumed)
  {
  }

  /** How the position of a call and the inserted tokens go together. */
  lemma InsertMoves(db: Db, now: Time, c: Call, newId: Id)
    ensures var (c', st) := Next(c, db, now, newId);
            && (c.pc == Rotated ==> c'.pc == Rotated)
            && (c.pc == AccessSaved ==> c'.pc == AccessSaved || c'.pc == Rotated)
            && (st.InsertToken? ==>
                  && st.id == newId && newId !in db.tokens && st.row.parent == Some(c.token) && PastClaim(c)
                  && ((c.pc == Claimed && c'.pc == AccessSaved && st.row.kind == Access)
                      || (c.pc == AccessSaved && c'.pc == Rotated && st.row.kind == Refresh)))
  {
  }

  /** Where a stored token comes from. */
  ghost predicate TokenOk(db: Db, now: Time, t: Id) {
    t in db.tokens ==>
      var x := db.tokens[t];
      && x.family in db.families
      && x.expires == x.savedAt + (if x.kind == Access then ACCESS_TTL else REFRESH_TTL)
      && x.checkedAt <= x.savedAt <= now
      && x.checkedAt < db.families[x.family].expires
      && (x.parent.Some? ==>
            && x.parent.value in db.tokens && x.parent.value != t
            && db.tokens[x.parent.value].kind == Refresh
            && db.tokens[x.parent.value].family == x.family
            && x.scopes <= db.tokens[x.parent.value].scopes)
  }

  lemma TokenStaysOk(db: Db, now: Time, t: Id, db': Db, now': Time)
    requires t in db.tokens && TokenOk(db, now, t) && Grows(db, db') && now <= now'
    ensures TokenOk(db', now', t)
  {
  }

  lemma InsertedTokenOk(db: Db, now: Time, c: Call, newId: Id)
    requires CallOk(db, now, c) && Next(c, db, now, newId).1.InsertToken?
    requires forall t :: TokenOk(db, now, t)
    ensures TokenOk(Execute(db, Next(c, db, now, newId).1), now, newId)
  {
    assert TokenOk(db, now, c.token);
  }

  ghost predicate CheckOk(db: Db, k: Check) {
    && (k.row.Some? ==> && k.token in db.tokens && SameToken(k.row.value, db.tokens[k.token])
                        && k.row.value.kind == Access && k.at < k.row.value.expires)
    && (k.pc == Accepted ==> k.row.Some? && k.family.Some?)
  }

  /** Claims are recorded once per token, and exactly for the calls that got past the UPDATE. */
  ghost predicate ClaimsOk(s: System) {
    && (forall i, j :: 0 <= i < j < |s.claims| ==> s.claims[i].0 != s.claims[j].0)
    && (forall i :: 0 <= i < |s.claims| ==>
          && s.claims[i].0 in s.db.tokens && s.db.tokens[s.claims[i].0].consumed
          && s.claims[i].1 in s.calls && PastClaim(s.calls[s.claims[i].1]) && s.calls[s.claims[i].1].token == s.claims[i].0)
    && (forall pid :: pid in s.calls && PastClaim(s.calls[pid]) ==> (s.calls[pid].token, pid) in s.claims)
  }

  ghost predicate CallsOk(s: System) {
    forall pid :: pid in s.calls ==> CallOk(s.db, s.now, s.calls[pid])
  }

  ghost predicate TokensOk(s: System) {
    forall t :: TokenOk(s.db, s.now, t)
  }

  ghost predicate ChecksOk(s: System) {
    forall pid :: pid in s.checks ==> CheckOk(s.db, s.checks[pid])
  }

  ghost predicate Inv(s: System) {
    ClaimsOk(s) && CallsOk(s) && TokensOk(s) && ChecksOk(s)
  }

  /** The two ways in which a row gets into the token table. */
  lemma AddedToken(s: System, a: Action, t: Id)
    requires t in Apply(s, a).db.tokens && t !in s.db.tokens
    ensures a.Issue? || (a.StepRotation? && a.pid in s.calls)
    ensures a.Issue? ==>
              && a.familyId in Apply(s, a).db.families && Apply(s, a).db.families[a.familyId].expires == s.now + FAMILY_TTL
              && (t == a.access || t == a.refresh)
              && Apply(s, a).db.tokens[t] == FirstToken(if t == a.refresh then Refresh else Access, a.familyId, a.scopes, s.now)
    ensures a.StepRotation? ==>
              Next(s.calls[a.pid], s.db, s.now, a.newId).1 == InsertToken(t, Apply(s, a).db.tokens[t]) && t == a.newId
  {
  }

  lemma KeepsTokens(s: System, a: Action)
    requires Inv(s)
    ensures TokensOk(Apply(s, a))
  {
    var s' := Apply(s, a);
    ApplyGrows(s, a);
    forall t | t in s'.db.tokens ensures TokenOk(s'.db, s'.now, t) {
      if t in s.db.tokens {
        TokenStaysOk(s.db, s.now, t, s'.db, s'.now);
      } else {
        AddedToken(s, a, t);
        if a.StepRotation? { StepTokenOk(s, a.pid, a.newId); }
      }
    }
  }

  lemma StepTokenOk(s: System, pid: Id, newId: Id)
    requires Inv(s) && pid in s.calls && Next(s.calls[pid], s.db, s.now, newId).1.InsertToken?
    ensures TokenOk(Step(s, pid, newId).db, s.now, newId)
  {
    assert CallOk(s.db, s.now, s.calls[pid]);
    InsertedTokenOk(s.db, s.now, s.calls[pid], newId);
  }

  lemma KeepsCalls(s: System, a: Action)
    requires Inv(s)
    ensures CallsOk(Apply(s, a))
  {
    var s' := Apply(s, a);
    ApplyGrows(s, a);
    forall pid | pid in s'.calls ensures CallOk(s'.db, s'.now, s'.calls[pid]) {
      if a.StepRotation? && a.pid == pid {
        NextOk(s.db, s.now, s.calls[pid], a.newId);
      } else if pid in s.calls {
        CallStaysOk(s.db, s.now, s.calls[pid], s'.db, s'.now);
      }
    }
  }

  lemma KeepsChecks(s: System, a: Action)
    requires Inv(s)
    ensures ChecksOk(Apply(s, a))
  {
    ApplyGrows(s, a);
  }

  lemma KeepsClaims(s: System, a: Action)
    requires Inv(s)
    ensures ClaimsOk(Apply(s, a))
  {
    var s' := Apply(s, a);
    ApplyGrows(s, a);
    if a.StepRotation? && a.pid in s.calls {
      ClaimStep(s, a.pid, a.newId);
    }
  }

  lemma ClaimStep(s: System, pid: Id, newId: Id)
    requires Inv(s) && pid in s.calls
    ensures ClaimsOk(Step(s, pid, newId))
  {
    var s' := Step(s, pid, newId);
    var (c, st) := Next(s.calls[pid], s.db, s.now, newId);
    ClaimMoves(s.db, s.now, s.calls[pid], newId);
    ExecuteGrows(s.db, st);
    ClaimLog(s, pid, c, st, s'.db);
  }

  /** A step that claims nothing leaves the log right. */
  lemma LogUnchanged(s: System, pid: Id, c: Call, db': Db)
    requires ClaimsOk(s) && pid in s.calls && c.token == s.calls[pid].token && Grows(s.db, db')
    requires PastClaim(c) <==> PastClaim(s.calls[pid])
    ensures ClaimsOk(s.(db := db', calls := s.calls[pid := c]))
  {
    forall i | 0 <= i < |s.claims| ensures s.claims[i].0 in db'.tokens && db'.tokens[s.claims[i].0].consumed {
      assert SameToken(s.db.tokens[s.claims[i].0], db'.tokens[s.claims[i].0]);
    }
  }

  lemma LogExtended(s: System, pid: Id, c: Call, db': Db)
    requires ClaimsOk(s) && pid in s.calls && c.token == s.calls[pid].token && Grows(s.db, db')
    requires PastClaim(c) && !PastClaim(s.calls[pid]) && c.token in s.db.tokens && !s.db.tokens[c.token].consumed
    requires c.token in db'.tokens && db'.tokens[c.token].consumed
    ensures ClaimsOk(s.(db := db', calls := s.calls[pid := c], claims := s.claims + [(c.token, pid)]))
  {
    var s' := s.(db := db', calls := s.calls[pid := c], claims := s.claims + [(c.token, pid)]);
    forall i | 0 <= i < |s.claims|
      ensures s.claims[i].0 != c.token && s.claims[i].0 in db'.tokens && db'.tokens[s.claims[i].0].consumed
    {
      assert SameToken(s.db.tokens[s.claims[i].0], db'.tokens[s.claims[i].0]);
    }
    forall p | p in s'.calls && PastClaim(s'.calls[p]) ensures (s'.calls[p].token, p) in s'.claims {
      if p == pid { assert s'.claims[|s.claims|] == (c.token, pid); }
    }
  }

  lemma ClaimLog(s: System, pid: Id, c: Call, st: Statement, db': Db)
    requires ClaimsOk(s) && pid in s.calls && c.token == s.calls[pid].token && Grows(s.db, db')
    requires PastClaim(c) <==> PastClaim(s.calls[pid]) || st.Consume?
    requires st.Consume? ==>
               && st.token == c.token && !PastClaim(s.calls[pid])
               && c.token in s.db.tokens && !s.db.tokens[c.token].consumed
               && c.token in db'.tokens && db'.tokens[c.token].consumed
    ensures ClaimsOk(s.(db := db', calls := s.calls[pid := c],
                        claims := if st.Consume? then s.claims + [(st.token, pid)] else s.claims))
  {
    if st.Consume? { LogExtended(s, pid, c, db'); } else { LogUnchanged(s, pid, c, db'); }
  }

  lemma {:induction false} RunKeepsInv(actions: seq<Action>)
    ensures Inv(Run(START, actions))
    decreases |actions|
  {
    if |actions| > 0 {
      var n := |actions| - 1;
      RunKeepsInv(actions[..n]);
      var s := Run(START, actions[..n]);
      KeepsTokens(s, actions[n]);
      KeepsCalls(s, actions[n]);
      KeepsChecks(s, actions[n]);
      KeepsClaims(s, actions[n]);
    }
  }

  // ---------------------------------------------------------------- claims

  /** In every run, under every interleaving, each refresh token is claimed at most once. */
  lemma ClaimedAtMostOnce(actions: seq<Action>, i: nat, j: nat)
    requires var s := Run(START, actions); i < |s.claims| && j < |s.claims| && s.claims[i].0 == s.claims[j].0
    ensures i == j
  {
    RunKeepsInv(actions);
  }

  /** The claim that a stored token was made after. */
  ghost predicate SavedBy(s: System, t: Id, i: nat) {
    && t in s.db.tokens && i < |s.claims| && s.db.tokens[t].parent == Some(s.claims[i].0)
    && s.claims[i].1 in s.calls
    && var pc := s.calls[s.claims[i].1].pc;
       pc == Rotated || (pc == AccessSaved && s.db.tokens[t].kind == Access)
  }

  ghost predicate LineageOk(s: System) {
    && AllSaved(s)
    && (forall t, u :: t in s.db.tokens && u in s.db.tokens && t != u && s.db.tokens[t].parent.Some?
                       && s.db.tokens[t].parent == s.db.tokens[u].parent ==>
          s.db.tokens[t].kind != s.db.tokens[u].kind)
  }

  lemma NoChildYet(s: System, pid: Id, kind: Kind, t: Id)
    requires Inv(s) && LineageOk(s) && pid in s.calls
    requires (s.calls[pid].pc == Claimed) || (s.calls[pid].pc == AccessSaved && kind == Refresh)
    requires t in s.db.tokens && s.db.tokens[t].parent == Some(s.calls[pid].token)
    ensures s.db.tokens[t].kind != kind
  {
    var i: nat :| SavedBy(s, t, i);
    assert (s.calls[pid].token, pid) in s.claims;
    var k :| 0 <= k < |s.claims| && s.claims[k] == (s.calls[pid].token, pid);
    assert i == k;
  }

  /** Steps only add claims. */
  lemma ClaimsGrow(s: System, a: Action)
    ensures s.claims <= Apply(s, a).claims
  {
  }

  /** A call past the saving of its access token stays there. */
  lemma SavingGoesOn(s: System, a: Action, pid: Id)
    requires pid in s.calls
    ensures pid in Apply(s, a).calls
    ensures s.calls[pid].pc == Rotated ==> Apply(s, a).calls[pid].pc == Rotated
    ensures s.calls[pid].pc == AccessSaved ==> Apply(s, a).calls[pid].pc == AccessSaved || Apply(s, a).calls[pid].pc == Rotated
  {
    if a.StepRotation? && a.pid == pid {
      InsertMoves(s.db, s.now, s.calls[pid], a.newId);
    }
  }

  lemma SavedByStays(s: System, a: Action, t: Id, i: nat)
    requires SavedBy(s, t, i)
    ensures SavedBy(Apply(s, a), t, i)
  {
    ApplyGrows(s, a);
    ClaimsGrow(s, a);
    SavingGoesOn(s, a, s.claims[i].1);
    assert SameToken(s.db.tokens[t], Apply(s, a).db.tokens[t]);
  }

  ghost predicate AllSaved(s: System) {
    forall t :: t in s.db.tokens && s.db.tokens[t].parent.Some? ==> exists i :: SavedBy(s, t, i)
  }

  lemma NewTokenSaved(s: System, pid: Id, newId: Id) returns (i: nat)
    requires ClaimsOk(s) && pid in s.calls && Next(s.calls[pid], s.db, s.now, newId).1.InsertToken?
    ensures SavedBy(Step(s, pid, newId), newId, i)
  {
    var c := s.calls[pid];
    InsertMoves(s.db, s.now, c, newId);
    assert (c.token, pid) in s.claims;
    i :| 0 <= i < |s.claims| && s.claims[i] == (c.token, pid);
  }

  lemma KeepsSaved(s: System, a: Action)
    requires Inv(s) && AllSaved(s)
    ensures AllSaved(Apply(s, a))
  {
    var s' := Apply(s, a);
    ApplyGrows(s, a);
    forall t | t in s'.db.tokens && s'.db.tokens[t].parent.Some? ensures exists i :: SavedBy(s', t, i) {
      if t in s.db.tokens {
        var i: nat :| SavedBy(s, t, i);
        SavedByStays(s, a, t, i);
      } else {
        AddedToken(s, a, t);
        var i := NewTokenSaved(s, a.pid, a.newId);
      }
    }
  }

  lemma KeepsLineage(s: System, a: Action)
    requires Inv(s) && LineageOk(s)
    ensures LineageOk(Apply(s, a))
  {
    var s' := Apply(s, a);
    ApplyGrows(s, a);
    KeepsSaved(s, a);
    forall t, u | t in s'.db.tokens && u in s'.db.tokens && t != u && s'.db.tokens[t].parent.Some?
                  && s'.db.tokens[t].parent == s'.db.tokens[u].parent
      ensures s'.db.tokens[t].kind != s'.db.tokens[u].kind
    {
      NewChild(s, a, t, u);
      NewChild(s, a, u, t);
    }
  }

  /** A token that this step adds has no sibling of its kind. */
  lemma NewChild(s: System, a: Action, t: Id, u: Id)
    requires Inv(s) && LineageOk(s)
    requires var db := Apply(s, a).db;
             && t in db.tokens && u in db.tokens && t != u && db.tokens[t].parent.Some?
             && db.tokens[t].parent == db.tokens[u].parent
    ensures t !in s.db.tokens ==> Apply(s, a).db.tokens[t].kind != Apply(s, a).db.tokens[u].kind
  {
    if t !in s.db.tokens {
      AddedToken(s, a, t);
      NewStepChild(s, a.pid, a.newId, u);
    }
  }

  lemma NewStepChild(s: System, pid: Id, newId: Id, u: Id)
    requires Inv(s) && LineageOk(s) && pid in s.calls && Next(s.calls[pid], s.db, s.now, newId).1.InsertToken?
    requires var db := Step(s, pid, newId).db;
             u in db.tokens && newId != u && newId in db.tokens && db.tokens[newId].parent == db.tokens[u].parent
    ensures Step(s, pid, newId).db.tokens[newId].kind != Step(s, pid, newId).db.tokens[u].kind
  {
    InsertMoves(s.db, s.now, s.calls[pid], newId);
    NoChildYet(s, pid, Next(s.calls[pid], s.db, s.now, newId).1.row.kind, u);
  }

  lemma {:induction false} RunKeepsLineage(actions: seq<Action>)
    ensures LineageOk(Run(START, actions))
    decreases |actions|
  {
    if |actions| > 0 {
      var n := |actions| - 1;
      RunKeepsLineage(actions[..n]);
      RunKeepsInv(actions[..n]);
      KeepsLineage(Run(START, actions[..n]), actions[n]);
    }
  }

  /** A refresh token has at most one successor of each kind: a family is a chain, not a tree. */
  lemma OneSuccessor(actions: seq<Action>, t: Id, u: Id)
    requires var db := Run(START, actions).db;
             && t in db.tokens && u in db.tokens && db.tokens[t].kind == db.tokens[u].kind
             && db.tokens[t].parent.Some? && db.tokens[t].parent == db.tokens[u].parent
    ensures t == u
  {
    RunKeepsLineage(actions);
  }

  // ---------------------------------------------------------------- revoked families

  ghost predicate Revoked(s: System, f: Id) {
    f in s.db.families && s.db.families[f].revoked
  }

  /** A rotation that began after the revocation, as far as it has got. */
  ghost predicate LateCall(c: Call, f: Id) {
    && (c.pc == Begun ==> c.row.None?)
    && (c.row.Some? && c.row.value.family == f && c.family.Some? ==> c.family.value.revoked)
    && (c.row.None? ==> c.family.None?)
  }

  ghost predicate LateCheck(k: Check, f: Id) {
    && (k.pc == CheckBegun ==> k.row.None?)
    && (k.row.Some? && k.row.value.family == f ==> k.pc == CheckTokenRead || k.pc == Rejected)
  }

  ghost predicate Late(s: System, f: Id, pid: Id) {
    && Inv(s) && Revoked(s, f)
    && (pid in s.calls ==> LateCall(s.calls[pid], f))
    && (pid in s.checks ==> LateCheck(s.checks[pid], f))
  }

  lemma LateNext(db: Db, now: Time, c: Call, newId: Id, f: Id)
    requires LateCall(c, f) && CallOk(db, now, c) && f in db.families && db.families[f].revoked
    ensures LateCall(Next(c, db, now, newId).0, f)
  {
  }

  lemma LateNextCheck(db: Db, now: Time, k: Check, f: Id)
    requires LateCheck(k, f) && f in db.families && db.families[f].revoked
    ensures LateCheck(NextCheck(k, db, now), f)
  {
  }

  lemma StaysLate(s: System, a: Action, f: Id, pid: Id)
    requires Late(s, f, pid)
    ensures Late(Apply(s, a), f, pid)
  {
    ApplyGrows(s, a);
    KeepsTokens(s, a);
    KeepsCalls(s, a);
    KeepsChecks(s, a);
    KeepsClaims(s, a);
    if a.StepRotation? && a.pid == pid && pid in s.calls {
      LateNext(s.db, s.now, s.calls[pid], a.newId, f);
    }
    if a.StepCheck? && a.pid == pid && pid in s.checks {
      LateNextCheck(s.db, s.now, s.checks[pid], f);
    }
  }

  lemma {:induction false} RunStaysLate(s: System, actions: seq<Action>, f: Id, pid: Id)
    requires Late(s, f, pid)
    ensures Late(Run(s, actions), f, pid)
    decreases |actions|
  {
    if |actions| > 0 {
      var n := |actions| - 1;
      RunStaysLate(s, actions[..n], f, pid);
      StaysLate(Run(s, actions[..n]), actions[n], f, pid);
    }
  }

  /**
   Once a family is revoked, no rotation and no bearer check that starts later accepts any of
   its tokens, whatever is still being saved by calls that were already running.
   */
  lemma RevokedFamilyIsDead(before: seq<Action>, after: seq<Action>, f: Id, pid: Id)
    requires var s := Run(START, before); Revoked(s, f) && pid !in s.calls && pid !in s.checks
    ensures var s := Run(Run(START, before), after);
            && (pid in s.calls && s.calls[pid].row.Some? && s.calls[pid].row.value.family == f ==>
                  s.calls[pid].pc != MayClaim && !PastClaim(s.calls[pid]))
            && (pid in s.checks && s.checks[pid].row.Some? && s.checks[pid].row.value.family == f ==>
                  s.checks[pid].pc != Accepted)
            && (forall i :: 0 <= i < |s.claims| && s.claims[i].1 == pid ==>
                  s.claims[i].0 in s.db.tokens && s.db.tokens[s.claims[i].0].family != f)
  {
    RunKeepsInv(before);
    RunStaysLate(Run(START, before), after, f, pid);
    var s := Run(Run(START, before), after);
    if pid in s.calls { assert CallOk(s.db, s.now, s.calls[pid]); }
  }

  /** What a call that has detected reuse still has ahead of it. */
  ghost predicate ReuseSeen(s: System, pid: Id, f: Id) {
    && pid in s.calls && s.calls[pid].row.Some? && s.calls[pid].row.value.family == f && f in s.db.families
    && GivenUp(s.calls[pid]) && (s.calls[pid].pc == RevokingFamily || Revoked(s, f))
  }

  lemma {:induction false} ReuseIsNotForgotten(s: System, actions: seq<Action>, pid: Id, f: Id)
    requires ReuseSeen(s, pid, f)
    ensures ReuseSeen(Run(s, actions), pid, f)
    decreases |actions|
  {
    if |actions| > 0 {
      var n := |actions| - 1;
      ReuseIsNotForgotten(s, actions[..n], pid, f);
      ApplyGrows(Run(s, actions[..n]), actions[n]);
      ReuseStep(Run(s, actions[..n]), actions[n], pid, f);
    }
  }

  lemma ReuseStep(s: System, a: Action, pid: Id, f: Id)
    requires ReuseSeen(s, pid, f)
    ensures ReuseSeen(Apply(s, a), pid, f)
  {
    ApplyGrows(s, a);
  }

  /**
   A rotation that loses the race for a token, or is handed one that was traded in before, goes on
   to the revoking statements, and from then on it can only end with the family revoked.
   */
  lemma LosingARaceRevokes(before: seq<Action>, pid: Id, newId: Id, after: seq<Action>)
    requires var s := Run(START, before);
             && pid in s.calls && s.calls[pid].pc == MayClaim && s.calls[pid].token in s.db.tokens
             && s.db.tokens[s.calls[pid].token].consumed
    ensures var t := Run(Apply(Run(START, before), StepRotation(pid, newId)), after);
            && pid in t.calls && t.calls[pid].row.Some? && !PastClaim(t.calls[pid])
            && (t.calls[pid].pc == RevokingFamily || Revoked(t, t.calls[pid].row.value.family))
  {
    RunKeepsInv(before);
    var s := Run(START, before);
    LostClaim(s, pid, newId);
    var s1 := Apply(s, StepRotation(pid, newId));
    ReuseIsNotForgotten(s1, after, pid, s.calls[pid].row.value.family);
    NeverBackToClaiming(s1, after, pid);
  }

  lemma LostClaim(s: System, pid: Id, newId: Id)
    requires Inv(s) && pid in s.calls && s.calls[pid].pc == MayClaim && s.calls[pid].token in s.db.tokens
    requires s.db.tokens[s.calls[pid].token].consumed
    ensures s.calls[pid].row.Some?
    ensures ReuseSeen(Apply(s, StepRotation(pid, newId)), pid, s.calls[pid].row.value.family)
  {
    assert CallOk(s.db, s.now, s.calls[pid]);
  }

  predicate GivenUp(c: Call) {
    c.pc == RevokingFamily || c.pc == RevokingTokens || c.pc == Failed
  }

  lemma {:induction false} NeverBackToClaiming(s: System, actions: seq<Action>, pid: Id)
    requires pid in s.calls && GivenUp(s.calls[pid])
    ensures pid in Run(s, actions).calls && GivenUp(Run(s, actions).calls[pid])
    decreases |actions|
  {
    if |actions| > 0 {
      NeverBackToClaiming(s, actions[..|actions| - 1], pid);
    }
  }

  // ---------------------------------------------------------------- scopes and lifetimes

  /** `chain[i + 1]` was saved by the rotation that traded in `chain[i]`. */
  ghost predicate RotationChain(db: Db, chain: seq<Id>) {
    && |chain| > 0 && (forall i :: 0 <= i < |chain| ==> chain[i] in db.tokens)
    && (forall i :: 0 <= i < |chain| - 1 ==> db.tokens[chain[i + 1]].parent == Some(chain[i]))
  }

  /** Along every rotation chain the scopes only shrink and the family stays. */
  lemma {:induction false} ScopesShrink(actions: seq<Action>, chain: seq<Id>, i: nat, j: nat)
    requires RotationChain(Run(START, actions).db, chain) && i <= j < |chain|
    ensures var tokens := Run(START, actions).db.tokens;
            tokens[chain[j]].scopes <= tokens[chain[i]].scopes && tokens[chain[j]].family == tokens[chain[i]].family
    decreases j - i
  {
    if i < j {
      ScopesShrink(actions, chain, i, j - 1);
      RunKeepsInv(actions);
      var s := Run(START, actions);
      assert TokenOk(s.db, s.now, chain[j - 1 + 1]);
      assert s.db.tokens[chain[j - 1 + 1]].parent == Some(chain[j - 1]);
    }
  }

  /**
   An accepted access token was presented before the end of its family plus the access lifetime
   plus however long the issuing call took between its checks and its INSERT; with one clock
   reading per call that last term is zero.
   */
  lemma AcceptedBeforeFamilyEnd(actions: seq<Action>, pid: Id)
    requires var s := Run(START, actions); pid in s.checks && s.checks[pid].pc == Accepted
    ensures var s := Run(START, actions);
            var k := s.checks[pid];
            && k.token in s.db.tokens && s.db.tokens[k.token].family in s.db.families
            && var t := s.db.tokens[k.token];
               && k.at < t.savedAt + ACCESS_TTL
               && k.at < s.db.families[t.family].expires + ACCESS_TTL + (t.savedAt - t.checkedAt)
               && (t.savedAt == t.checkedAt ==> k.at < s.db.families[t.family].expires + ACCESS_TTL)
  {
    RunKeepsInv(actions);
    var s := Run(START, actions);
    assert CheckOk(s.db, s.checks[pid]);
    assert TokenOk(s.db, s.now, s.checks[pid].token);
  }
}
