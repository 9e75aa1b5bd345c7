/**
 `rotate_refresh` and `token_response` as the program runs them when nothing interferes: a
 store whose rows are updated in place, statement by statement. Each method is shown to be an
 uninterrupted run of the interleaved model.
 */
module OAuthStore {
  import opened Common
  import opened OAuthFamilies

  datatype OAuthError = InvalidGrant | InvalidScope

  datatype Response = Response(access: Id, refresh: Id, scopes: Scopes)

  /** `k` statements of one rotation on its own; `newIds` are the ids of the tokens it may save. */
  function Solo(c: Call, db: Db, now: Time, access: Id, refresh: Id, k: nat): (Call, Db)
    decreases k
  {
    if k == 0 then (c, db)
    else
      var (c', st) := Next(c, db, now, if c.pc == Claimed then access else refresh);
      Solo(c', Execute(db, st), now, access, refresh, k - 1)
  }

  function Fresh(token: Id, client: Id, requested: Option<Scopes>, now: Time): Call {
    Call(Begun, token, client, requested, None, None, None, None, {}, now)
  }

  /** The longest rotation: five reads and decisions, the claim, and two saves or two revocations. */
  const LONGEST: nat := 8

  lemma {:induction false} SoloEnds(c: Call, db: Db, now: Time, access: Id, refresh: Id, k: nat)
    requires c.pc == Failed || c.pc == Rotated
    ensures Solo(c, db, now, access, refresh, k) == (c, db)
  {
    if k > 0 { SoloEnds(c, db, now, access, refresh, k - 1); }
  }

  /** A solo rotation is a run of the interleaved system. */
  lemma {:induction false} SoloIsRun(s: System, pid: Id, access: Id, refresh: Id, k: nat) returns (actions: seq<Action>)
    requires pid in s.calls
    ensures var s' := Run(s, actions);
            && pid in s'.calls && s'.now == s.now
            && (s'.calls[pid], s'.db) == Solo(s.calls[pid], s.db, s.now, access, refresh, k)
    decreases k
  {
    if k == 0 {
      actions := [];
    } else {
      var a := StepRotation(pid, if s.calls[pid].pc == Claimed then access else refresh);
      var rest := SoloIsRun(Apply(s, a), pid, access, refresh, k - 1);
      actions := [a] + rest;
      RunAfter(s, a, rest);
    }
  }

  lemma {:induction false} RunAfter(s: System, a: Action, rest: seq<Action>)
    ensures Run(s, [a] + rest) == Run(Apply(s, a), rest)
    decreases |rest|
  {
    if |rest| == 0 {
      assert [a] + rest == [a];
      assert [a][..0] == [];
    } else {
      var n := |rest| - 1;
      assert ([a] + rest)[..n + 1] == [a] + rest[..n];
      RunAfter(s, a, rest[..n]);
    }
  }

  /** A refresh token with its family and grant, presented by the client it belongs to. */
  predicate Known(db: Db, token: Id, client: Id) {
    && token in db.tokens && db.tokens[token].kind.Refresh? && db.tokens[token].family in db.families
    && var family := db.families[db.tokens[token].family];
       family.grant in db.grants && client in db.clients && family.client == client
  }

  /** Nothing speaks against trading it in. */
  predicate Live(db: Db, token: Id, client: Id, now: Time)
    requires Known(db, token, client)
  {
    var row := db.tokens[token];
    var family := db.families[row.family];
    && !row.revoked && now < row.expires && !family.revoked && now < family.expires
    && !db.grants[family.grant].revoked && row.scopes <= db.grants[family.grant].scopes
    && db.clients[client] && family.user in db.users && db.users[family.user]
  }

  /** The scopes asked for; those of the token, if none are named. */
  function AskedOf(requested: Option<Scopes>, row: Token): Scopes {
    match requested case None => row.scopes case Some(scopes) => scopes
  }

  /** Family `f` and its tokens are revoked in `db`, and the rest is as in `before`. */
  ghost predicate FamilyRevoked(before: Db, db: Db, f: Id) {
    && f in before.families
    && db == before.(tokens := db.tokens, families := before.families[f := before.families[f].(revoked := true)])
    && db.tokens.Keys == before.tokens.Keys
    && forall t :: t in db.tokens ==>
         db.tokens[t] == if before.tokens[t].family == f then before.tokens[t].(revoked := true) else before.tokens[t]
  }

  class TokenStore {
    var db: Db

    constructor (db: Db)
      ensures this.db == db
    {
      this.db := db;
    }

    /** Both statements that follow a detected reuse. */
    method RevokeEverything(family: Id)
      requires family in db.families
      modifies this
      ensures db == Execute(Execute(old(db), RevokeFamily(family)), RevokeTokensOf(family))
      ensures FamilyRevoked(old(db), db, family)
    {
      db := db.(families := db.families[family := db.families[family].(revoked := true)]);
      db := db.(tokens := map t | t in db.tokens ::
                            if db.tokens[t].family == family then db.tokens[t].(revoked := true) else db.tokens[t]);
    }

    /** `rotate_refresh`; `now` is the one clock reading, `access` and `refresh` are unused token ids. */
    method RotateRefresh(token: Id, client: Id, requested: Option<Scopes>, now: Time, access: Id, refresh: Id)
      returns (r: Result<Response, OAuthError>)
      requires access !in db.tokens && refresh !in db.tokens && access != refresh
      modifies this
      ensures var (c, db') := Solo(Fresh(token, client, requested, now), old(db), now, access, refresh, LONGEST);
              db == db' && (r.Ok? <==> c.pc == Rotated)
      ensures !Known(old(db), token, client) ==> r == Err(InvalidGrant) && db == old(db)
      ensures Known(old(db), token, client) && old(db).tokens[token].consumed ==>
                r == Err(InvalidGrant) && FamilyRevoked(old(db), db, old(db).tokens[token].family)
      ensures Known(old(db), token, client) && !old(db).tokens[token].consumed && !Live(old(db), token, client, now) ==>
                r == Err(InvalidGrant) && db == old(db)
      ensures Known(old(db), token, client) && !old(db).tokens[token].consumed && Live(old(db), token, client, now) ==>
                var row := old(db).tokens[token];
                var asked := AskedOf(requested, row);
                if asked == {} || !(asked <= row.scopes) then r == Err(InvalidScope) && db == old(db)
                else
                  && r == Ok(Response(access, refresh, asked))
                  && db == old(db).(tokens := old(db).tokens
                       [token := row.(consumed := true)]
                       [access := Token(Access, row.family, asked, now + 480, false, false, Some(token), now, now)]
                       [refresh := Token(Refresh, row.family, asked, now + 30 * 86400, false, false, Some(token), now, now)])
    {
      var verdict, decided := Admit(token, client, requested, now, access, refresh);
      match verdict
      case Denied(error) =>
        SoloEnds(decided, db, now, access, refresh, 3);
        return Err(error);
      case Reused(family) =>
        TwoRevocations(decided, db, now, access, refresh);
        RevokeEverything(family);
        return Err(InvalidGrant);
      case Admitted(row, selected) =>
        ClaimAndSave(decided, db, now, access, refresh);
        db := db.(tokens := db.tokens[token := db.tokens[token].(consumed := true)]);
        db := db.(tokens := db.tokens[access :=
                Token(Access, row.family, selected, now + ACCESS_TTL, false, false, Some(token), now, now)]);
        db := db.(tokens := db.tokens[refresh :=
                Token(Refresh, row.family, selected, now + REFRESH_TTL, false, false, Some(token), now, now)]);
        return Ok(Response(access, refresh, selected));
    }

    /** `consume_bearer`: what a check on its own answers. */
    method ConsumeBearer(token: Id, now: Time) returns (accepted: bool)
      ensures accepted <==>
                && token in db.tokens && db.tokens[token].kind.Access? && !db.tokens[token].revoked
                && now < db.tokens[token].expires
                && var row := db.tokens[token];
                   && row.family in db.families && !db.families[row.family].revoked
                   && var family := db.families[row.family];
                      && family.grant in db.grants && !db.grants[family.grant].revoked
                      && row.scopes <= db.grants[family.grant].scopes
                      && family.client in db.clients && db.clients[family.client]
                      && family.user in db.users && db.users[family.user]
      ensures var begun := Check(CheckBegun, token, None, None, now);
              accepted <==> NextCheck(NextCheck(NextCheck(begun, db, now), db, now), db, now).pc == Accepted
    {
      if token !in db.tokens { return false; }
      var row := db.tokens[token];
      if row.kind != Access || row.revoked || row.expires <= now { return false; }
      if row.family !in db.families || db.families[row.family].revoked { return false; }
      var family := db.families[row.family];
      if family.grant !in db.grants || db.grants[family.grant].revoked { return false; }
      if family.client !in db.clients || !db.clients[family.client] { return false; }
      if family.user !in db.users || !db.users[family.user] { return false; }
      return row.scopes <= db.grants[family.grant].scopes;
    }

    /** The reads and the decisions of `rotate_refresh`, up to its first UPDATE. */
    method Admit(token: Id, client: Id, requested: Option<Scopes>, now: Time, ghost access: Id, ghost refresh: Id)
      returns (verdict: Verdict, ghost decided: Call)
      ensures Solo(Fresh(token, client, requested, now), db, now, access, refresh, LONGEST)
           == Solo(decided, db, now, access, refresh, 3)
      ensures decided.token == token
      ensures DecidedAs(decided, verdict, now)
      ensures Judged(db, token, client, requested, now, verdict)
    {
      decided := Fresh(token, client, requested, now);
      if token !in db.tokens || db.tokens[token].kind != Refresh {
        EarlyEnd(decided, db, now, access, refresh, LONGEST);
        decided := Fail(decided);
        return Denied(InvalidGrant), decided;
      }
      var row := db.tokens[token];
      decided := decided.(pc := TokenRead, row := Some(row));
      if row.family !in db.families {
        EarlyEnd(decided, db, now, access, refresh, LONGEST - 1);
        decided := Fail(decided);
        return Denied(InvalidGrant), decided;
      }
      ghost var read := decided;
      decided := FourReads(decided, db, now, access, refresh);
      verdict := Weigh(token, client, requested, now, read, decided);
    }

    /** The decisions, once the token and its family are there. */
    method Weigh(token: Id, client: Id, requested: Option<Scopes>, now: Time, ghost read: Call, ghost decided: Call)
      returns (verdict: Verdict)
      requires token in db.tokens && db.tokens[token].kind == Refresh && db.tokens[token].family in db.families
      requires read.token == token && read.client == client && read.requested == requested
      requires read.row == Some(db.tokens[token]) && decided == Decide(AllRead(read, db), db, now)
      ensures decided.token == token && DecidedAs(decided, verdict, now)
      ensures Judged(db, token, client, requested, now, verdict)
    {
      var row := db.tokens[token];
      var family := db.families[row.family];
      if family.grant !in db.grants || client !in db.clients || family.client != client {
        return Denied(InvalidGrant);
      }
      if row.consumed {
        return Reused(row.family);
      }
      if row.revoked || row.expires <= now || family.expires <= now || family.revoked || db.grants[family.grant].revoked
         || !db.clients[client] || family.user !in db.users || !db.users[family.user]
         || !(row.scopes <= db.grants[family.grant].scopes) {
        return Denied(InvalidGrant);
      }
      var selected := if requested.None? then row.scopes else requested.value;
      if selected == {} || !(selected <= row.scopes) {
        return Denied(InvalidScope);
      }
      return Admitted(row, selected);
    }
  }

  /** The call after its reads of family, grant and client. */
  function AllRead(c: Call, db: Db): Call
    requires c.row.Some? && c.row.value.family in db.families
  {
    var family := db.families[c.row.value.family];
    c.(pc := ClientRead, family := Some(family),
       grant := if family.grant in db.grants then Some(db.grants[family.grant]) else None,
       clientEnabled := if c.client in db.clients then Some(db.clients[c.client]) else None)
  }

  /** The call stands where the verdict says. */
  ghost predicate DecidedAs(decided: Call, verdict: Verdict, now: Time) {
    match verdict
    case Denied(_) => decided.pc == Failed
    case Reused(family) => decided.pc == RevokingFamily && decided.row.Some? && decided.row.value.family == family
    case Admitted(row, selected) =>
      decided.pc == MayClaim && decided.row == Some(row) && decided.selected == selected && decided.checkedAt == now
  }

  /** The verdict on a token that is not stored with its family and grant, was traded in, is not live, or is live. */
  ghost predicate Judged(db: Db, token: Id, client: Id, requested: Option<Scopes>, now: Time, verdict: Verdict) {
    if !Known(db, token, client) then verdict == Denied(InvalidGrant)
    else
      var row := db.tokens[token];
      if row.consumed then verdict == Reused(row.family)
      else if !Live(db, token, client, now) then verdict == Denied(InvalidGrant)
      else if AskedOf(requested, row) == {} || !(AskedOf(requested, row) <= row.scopes) then verdict == Denied(InvalidScope)
      else verdict == Admitted(row, AskedOf(requested, row))
  }

  datatype Verdict = Denied(error: OAuthError) | Reused(family: Id) | Admitted(row: Token, selected: Scopes)

  lemma EarlyEnd(c: Call, db: Db, now: Time, access: Id, refresh: Id, k: nat)
    requires k > 0 && Next(c, db, now, refresh) == (Fail(c), ReadOnly) && c.pc != Claimed
    ensures Solo(c, db, now, access, refresh, k) == Solo(Fail(c), db, now, access, refresh, 3)
  {
    SoloEnds(Fail(c), db, now, access, refresh, k - 1);
    SoloEnds(Fail(c), db, now, access, refresh, 3);
  }

  /** The family, grant and client rows are read, and the decisions are taken. */
  lemma FourReads(c: Call, db: Db, now: Time, access: Id, refresh: Id) returns (decided: Call)
    requires c.pc == TokenRead && c.row.Some? && c.row.value.family in db.families
    ensures decided == Decide(AllRead(c, db), db, now)
    ensures Solo(c, db, now, access, refresh, LONGEST - 1) == Solo(decided, db, now, access, refresh, 3)
  {
    var c1 := Next(c, db, now, refresh).0;
    assert Solo(c, db, now, access, refresh, 7) == Solo(c1, db, now, access, refresh, 6);
    var c2 := Next(c1, db, now, refresh).0;
    assert Solo(c1, db, now, access, refresh, 6) == Solo(c2, db, now, access, refresh, 5);
    var c3 := Next(c2, db, now, refresh).0;
    assert Solo(c2, db, now, access, refresh, 5) == Solo(c3, db, now, access, refresh, 4);
    decided := Next(c3, db, now, refresh).0;
    assert Solo(c3, db, now, access, refresh, 4) == Solo(decided, db, now, access, refresh, 3);
  }

  lemma TwoRevocations(c: Call, db: Db, now: Time, access: Id, refresh: Id)
    requires c.pc == RevokingFamily && c.row.Some? && c.row.value.family in db.families
    ensures var f := c.row.value.family;
            Solo(c, db, now, access, refresh, 3) ==
            (Fail(c), Execute(Execute(db, RevokeFamily(f)), RevokeTokensOf(f)))
  {
    var f := c.row.value.family;
    var db1 := Execute(db, RevokeFamily(f));
    assert Solo(c, db, now, access, refresh, 3) == Solo(c.(pc := RevokingTokens), db1, now, access, refresh, 2);
    SoloEnds(Fail(c), Execute(db1, RevokeTokensOf(f)), now, access, refresh, 1);
  }

  lemma ClaimAndSave(c: Call, db: Db, now: Time, access: Id, refresh: Id)
    requires c.pc == MayClaim && c.row.Some? && c.token in db.tokens
    requires !db.tokens[c.token].consumed && !db.tokens[c.token].revoked
    requires access !in db.tokens && refresh !in db.tokens && access != refresh
    ensures Solo(c, db, now, access, refresh, 3) ==
            (c.(pc := Rotated),
             db.(tokens := db.tokens[c.token := db.tokens[c.token].(consumed := true)]
                                    [access := NewToken(c, Access, now)][refresh := NewToken(c, Refresh, now)]))
  {
    var db1 := Execute(db, Consume(c.token));
    var c1 := c.(pc := Claimed);
    assert Solo(c, db, now, access, refresh, 3) == Solo(c1, db1, now, access, refresh, 2);
    var db2 := Execute(db1, InsertToken(access, NewToken(c1, Access, now)));
    var c2 := c.(pc := AccessSaved);
    assert Solo(c1, db1, now, access, refresh, 2) == Solo(c2, db2, now, access, refresh, 1);
    assert Solo(c2, db2, now, access, refresh, 1)
        == Solo(c.(pc := Rotated), Execute(db2, InsertToken(refresh, NewToken(c2, Refresh, now))), now, access, refresh, 0);
  }
}
