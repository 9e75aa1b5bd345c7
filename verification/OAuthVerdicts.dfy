/**
 What a presented token needs, over every interleaving: when a bearer token is accepted, when a refresh
 token may be traded in, and what becomes of one that was traded in before.
 */
module OAuthVerdicts {
  import opened Common
  import opened OAuthFamilies

  /** The system after the first `n` actions. */
  function At(actions: seq<Action>, n: nat): System
    requires n <= |actions|
  {
    Run(START, actions[..n])
  }

  lemma OneMore(actions: seq<Action>, n: nat)
    requires n < |actions|
    ensures At(actions, n + 1) == Apply(At(actions, n), actions[n])
  {
    assert actions[..n + 1][..n] == actions[..n];
  }

  lemma {:induction false} GrowsBetween(actions: seq<Action>, m: nat, n: nat)
    requires m <= n <= |actions|
    ensures Grows(At(actions, m).db, At(actions, n).db) && At(actions, m).now <= At(actions, n).now
    decreases n
  {
    if m < n {
      GrowsBetween(actions, m, n - 1);
      OneMore(actions, n - 1);
      ApplyGrows(At(actions, n - 1), actions[n - 1]);
      GrowsFurther(At(actions, m).db, At(actions, n - 1).db, At(actions, n).db);
    }
  }

  lemma GrowsFurther(a: Db, b: Db, c: Db)
    requires Grows(a, b) && Grows(b, c)
    ensures Grows(a, c)
  {
    forall t | t in a.tokens ensures t in c.tokens && SameToken(a.tokens[t], c.tokens[t]) {
      assert SameToken(a.tokens[t], b.tokens[t]) && SameToken(b.tokens[t], c.tokens[t]);
    }
    forall f | f in a.families ensures f in c.families && SameFamily(a.families[f], c.families[f]) {
      assert SameFamily(a.families[f], b.families[f]) && SameFamily(b.families[f], c.families[f]);
    }
  }

  // ---------------------------------------------------------------- bearer tokens

  predicate LiveAccess(s: System, t: Id) {
    && t in s.db.tokens && s.db.tokens[t].kind.Access? && !s.db.tokens[t].revoked && s.now < s.db.tokens[t].expires
  }

  predicate LiveFamily(s: System, f: Id) { f in s.db.families && !s.db.families[f].revoked }

  /** Grant, client and user of the family still stand behind a token with these scopes. */
  predicate Backed(s: System, family: Family, scopes: Scopes) {
    && family.grant in s.db.grants && !s.db.grants[family.grant].revoked && scopes <= s.db.grants[family.grant].scopes
    && family.client in s.db.clients && s.db.clients[family.client]
    && family.user in s.db.users && s.db.users[family.user]
  }

  /** The token row is live at `a`, its family at `b`, and grant, client and user at `c`. */
  predicate LiveAt(a: System, b: System, c: System, t: Id) {
    && LiveAccess(a, t) && LiveFamily(b, a.db.tokens[t].family)
    && Backed(c, b.db.families[a.db.tokens[t].family], a.db.tokens[t].scopes)
  }

  predicate StepsCheck(actions: seq<Action>, n: nat, pid: Id) { n < |actions| && actions[n] == StepCheck(pid) }

  lemma {:induction false} CheckWaits(actions: seq<Action>, m: nat, n: nat, pid: Id)
    requires m <= n <= |actions| && pid in At(actions, m).checks
    requires forall k :: m <= k < n ==> !StepsCheck(actions, k, pid)
    ensures pid in At(actions, n).checks && At(actions, n).checks[pid] == At(actions, m).checks[pid]
    decreases n
  {
    if m < n {
      CheckWaits(actions, m, n - 1, pid);
      OneMore(actions, n - 1);
      assert !StepsCheck(actions, n - 1, pid);
    }
  }

  lemma {:induction false} CheckEnded(actions: seq<Action>, m: nat, n: nat, pid: Id)
    requires m <= n <= |actions| && pid in At(actions, m).checks
    requires At(actions, m).checks[pid].pc == Accepted || At(actions, m).checks[pid].pc == Rejected
    ensures pid in At(actions, n).checks && At(actions, n).checks[pid] == At(actions, m).checks[pid]
    decreases n
  {
    if m < n {
      CheckEnded(actions, m, n - 1, pid);
      OneMore(actions, n - 1);
    }
  }

  /** One statement of a check, after having waited for it. */
  lemma CheckStepped(actions: seq<Action>, m: nat, n: nat, pid: Id)
    requires m <= n < |actions| && pid in At(actions, m).checks && StepsCheck(actions, n, pid)
    requires forall k :: m <= k < n ==> !StepsCheck(actions, k, pid)
    ensures pid in At(actions, n + 1).checks
    ensures At(actions, n + 1).checks[pid] == NextCheck(At(actions, m).checks[pid], At(actions, n).db, At(actions, n).now)
  {
    CheckWaits(actions, m, n, pid);
    OneMore(actions, n);
  }

  lemma ThreeReads(k0: Check, a: System, b: System, c: System)
    requires k0.pc == CheckBegun && k0.row.None? && k0.family.None?
    ensures var k3 := NextCheck(NextCheck(NextCheck(k0, a.db, a.now), b.db, b.now), c.db, c.now);
            k3.pc == if LiveAt(a, b, c, k0.token) then Accepted else Rejected
  {
  }

  /**
   A bearer check whose statements run at `i`, `j` and `k`, with anything whatever in between, accepts
   exactly if the token was a live access token at `i`, its family unrevoked at `j`, and at `k` the grant
   unrevoked and wide enough, the client enabled and the user active.
   */
  lemma BearerAcceptedIff(actions: seq<Action>, pid: Id, begun: nat, i: nat, j: nat, k: nat)
    requires begun < i < j < k < |actions|
    requires actions[begun].BeginCheck? && actions[begun].pid == pid && pid !in At(actions, begun).checks
    requires StepsCheck(actions, i, pid) && StepsCheck(actions, j, pid) && StepsCheck(actions, k, pid)
    requires forall n :: begun < n < k && n != i && n != j ==> !StepsCheck(actions, n, pid)
    ensures pid in At(actions, |actions|).checks
    ensures At(actions, |actions|).checks[pid].pc == Accepted
       <==> LiveAt(At(actions, i), At(actions, j), At(actions, k), actions[begun].token)
  {
    OneMore(actions, begun);
    CheckStepped(actions, begun + 1, i, pid);
    CheckStepped(actions, i + 1, j, pid);
    CheckStepped(actions, j + 1, k, pid);
    ThreeReads(At(actions, begun + 1).checks[pid], At(actions, i), At(actions, j), At(actions, k));
    CheckEnded(actions, k + 1, |actions|, pid);
  }

  /** How far a check has got, and where in the run its rows were read. */
  ghost predicate ReadAt(actions: seq<Action>, k: Check, i: nat, j: nat, l: nat, n: nat)
    requires n <= |actions|
  {
    && (k.pc == CheckBegun ==> k.row.None? && k.family.None?)
    && (k.pc == CheckTokenRead || k.pc == CheckFamilyRead || k.pc == Accepted ==>
          i < n && LiveAccess(At(actions, i), k.token) && k.row == Some(At(actions, i).db.tokens[k.token]))
    && (k.pc == CheckFamilyRead || k.pc == Accepted ==>
          && i < j < n && LiveFamily(At(actions, j), k.row.value.family)
          && k.family == Some(At(actions, j).db.families[k.row.value.family]))
    && (k.pc == Accepted ==> j < l < n && LiveAt(At(actions, i), At(actions, j), At(actions, l), k.token))
  }

  lemma {:induction false} WhereItWasRead(actions: seq<Action>, n: nat, pid: Id) returns (i: nat, j: nat, l: nat)
    requires n <= |actions| && pid in At(actions, n).checks
    ensures ReadAt(actions, At(actions, n).checks[pid], i, j, l, n)
    decreases n
  {
    i, j, l := 0, 0, 0;
    if n > 0 {
      OneMore(actions, n - 1);
      CheckMoves(At(actions, n - 1), actions[n - 1], pid);
      if pid in At(actions, n - 1).checks {
        i, j, l := WhereItWasRead(actions, n - 1, pid);
        if StepsCheck(actions, n - 1, pid) {
          i, j, l := ReadOneMore(actions, n - 1, At(actions, n - 1).checks[pid], i, j, l);
        }
      }
    }
  }

  /** A check begins with nothing read, and only its own statements change it. */
  lemma CheckMoves(s: System, a: Action, pid: Id)
    ensures pid in s.checks ==>
              && pid in Apply(s, a).checks
              && Apply(s, a).checks[pid] == if a == StepCheck(pid) then NextCheck(s.checks[pid], s.db, s.now) else s.checks[pid]
    ensures pid !in s.checks && pid in Apply(s, a).checks ==>
              var k := Apply(s, a).checks[pid]; k.pc == CheckBegun && k.row.None? && k.family.None?
  {
  }

  lemma ReadOneMore(actions: seq<Action>, n: nat, k: Check, i0: nat, j0: nat, l0: nat) returns (i: nat, j: nat, l: nat)
    requires n < |actions| && ReadAt(actions, k, i0, j0, l0, n)
    ensures ReadAt(actions, NextCheck(k, At(actions, n).db, At(actions, n).now), i, j, l, n + 1)
  {
    NextRead(k, At(actions, n));
    i, j, l := i0, j0, l0;
    if k.pc == CheckBegun { i := n; }
    if k.pc == CheckTokenRead { j := n; }
    if k.pc == CheckFamilyRead { l := n; }
  }

  /** What one statement of a check reads. */
  lemma NextRead(k: Check, s: System)
    ensures var k' := NextCheck(k, s.db, s.now);
            && k'.token == k.token && k'.pc != CheckBegun
            && (k'.pc == CheckTokenRead ==>
                  k.pc == CheckBegun && LiveAccess(s, k.token) && k'.row == Some(s.db.tokens[k.token]))
            && (k'.pc == CheckFamilyRead ==>
                  && k.pc == CheckTokenRead && k'.row == k.row && k.row.Some? && LiveFamily(s, k.row.value.family)
                  && k'.family == Some(s.db.families[k.row.value.family]))
            && (k'.pc == Accepted ==>
                  || k' == k
                  || (k.pc == CheckFamilyRead && k'.row == k.row && k'.family == k.family && k.row.Some? && k.family.Some?
                      && Backed(s, k.family.value, k.row.value.scopes)))
  {
  }

  /** Every accepted check, however it came about, has found its rows live at three moments in this order. */
  lemma AcceptedWasLive(actions: seq<Action>, pid: Id) returns (i: nat, j: nat, l: nat)
    requires pid in At(actions, |actions|).checks && At(actions, |actions|).checks[pid].pc == Accepted
    ensures i < j < l < |actions|
    ensures LiveAt(At(actions, i), At(actions, j), At(actions, l), At(actions, |actions|).checks[pid].token)
  {
    i, j, l := WhereItWasRead(actions, |actions|, pid);
  }

  // ---------------------------------------------------------------- what a rotation decides

  /** The rows that were read are there and belong together. */
  predicate Presented(c: Call) {
    c.row.Some? && c.family.Some? && c.grant.Some? && c.clientEnabled.Some? && c.family.value.client == c.client
  }

  /** Nothing that was read, nor the user now, turns the token down. */
  predicate Rotatable(c: Call, db: Db, now: Time)
    requires Presented(c)
  {
    && !c.row.value.revoked && now < c.row.value.expires
    && !c.family.value.revoked && now < c.family.value.expires
    && !c.grant.value.revoked && c.row.value.scopes <= c.grant.value.scopes && c.clientEnabled.value
    && c.family.value.user in db.users && db.users[c.family.value.user]
  }

  function Asked(c: Call): Scopes
    requires c.row.Some?
  {
    match c.requested case None => c.row.value.scopes case Some(scopes) => scopes
  }

  /** A rotation goes on to the claim, to the revocation or to a plain refusal; which, the rows it read decide. */
  lemma DecidesExactly(c: Call, db: Db, now: Time, newId: Id)
    requires c.pc == ClientRead && c.row.Some? && c.family.Some?
    ensures var (c', st) := Next(c, db, now, newId);
            && st == ReadOnly && c' == c.(pc := c'.pc, selected := c'.selected, checkedAt := c'.checkedAt)
            && (c'.pc == RevokingFamily <==> Presented(c) && c.row.value.consumed)
            && (c'.pc == MayClaim <==>
                  && Presented(c) && !c.row.value.consumed && Rotatable(c, db, now)
                  && Asked(c) != {} && Asked(c) <= c.row.value.scopes)
            && (c'.pc == MayClaim ==> c'.selected == Asked(c) && c'.checkedAt == now)
            && (c'.pc != RevokingFamily && c'.pc != MayClaim ==> c'.pc == Failed)
  {
  }

  // ---------------------------------------------------------------- tokens that were traded in before

  /** The call has read a refresh token that was traded in before, with all that shows whose it is. */
  predicate Replayed(c: Call) { Presented(c) && c.row.value.consumed }

  /** What a call with such a token can still do. */
  ghost predicate ReplayOk(db: Db, c: Call) {
    && (c.pc == Begun || c.pc == TokenRead || c.pc == FamilyRead || c.pc == GrantRead ==> c.clientEnabled.None?)
    && (Replayed(c) ==>
          && (c.pc == ClientRead || c.pc == RevokingFamily || c.pc == RevokingTokens || c.pc == Failed)
          && c.row.value.family in db.families
          && (c.pc == RevokingTokens || c.pc == Failed ==> db.families[c.row.value.family].revoked))
  }

  lemma ReplayNext(db: Db, now: Time, c: Call, newId: Id)
    requires CallOk(db, now, c) && ReplayOk(db, c)
    ensures ReplayOk(Execute(db, Next(c, db, now, newId).1), Next(c, db, now, newId).0)
  {
    ExecuteGrows(db, Next(c, db, now, newId).1);
    if c.pc == ClientRead && c.row.Some? && c.family.Some? { DecidesExactly(c, db, now, newId); }
  }

  lemma ReplayStep(s: System, a: Action, pid: Id)
    requires Inv(s) && (pid in s.calls ==> ReplayOk(s.db, s.calls[pid]))
    ensures pid in Apply(s, a).calls ==> ReplayOk(Apply(s, a).db, Apply(s, a).calls[pid])
  {
    ApplyGrows(s, a);
    if pid in s.calls {
      assert CallOk(s.db, s.now, s.calls[pid]);
      if a.StepRotation? && a.pid == pid { ReplayNext(s.db, s.now, s.calls[pid], a.newId); }
    }
  }

  lemma {:induction false} RunKeepsReplay(actions: seq<Action>, n: nat, pid: Id)
    requires n <= |actions| && pid in At(actions, n).calls
    ensures ReplayOk(At(actions, n).db, At(actions, n).calls[pid])
    decreases n
  {
    if n > 0 {
      OneMore(actions, n - 1);
      RunKeepsInv(actions[..n - 1]);
      if pid in At(actions, n - 1).calls { RunKeepsReplay(actions, n - 1, pid); }
      ReplayStep(At(actions, n - 1), actions[n - 1], pid);
    }
  }

  /** The sweep of call `pid` over the tokens of family `f` runs as action `n`. */
  ghost predicate SweptAt(actions: seq<Action>, n: nat, pid: Id, f: Id) {
    && n < |actions| && actions[n].StepRotation? && actions[n].pid == pid && pid in At(actions, n).calls
    && At(actions, n).calls[pid].pc == RevokingTokens
    && forall t :: t in At(actions, n).db.tokens && At(actions, n).db.tokens[t].family == f ==>
         t in At(actions, |actions|).db.tokens && At(actions, |actions|).db.tokens[t].revoked
  }

  lemma SweepRevokes(s: System, pid: Id, newId: Id)
    requires Inv(s) && pid in s.calls && s.calls[pid].pc == RevokingTokens && s.calls[pid].row.Some?
    ensures forall t :: t in s.db.tokens && s.db.tokens[t].family == s.calls[pid].row.value.family ==>
              t in Step(s, pid, newId).db.tokens && Step(s, pid, newId).db.tokens[t].revoked
  {
  }

  lemma {:induction false} WhenItSwept(actions: seq<Action>, n: nat, pid: Id) returns (k: nat)
    requires n <= |actions| && pid in At(actions, n).calls
    requires Replayed(At(actions, n).calls[pid]) && At(actions, n).calls[pid].pc == Failed
    ensures k < n && actions[k].StepRotation? && actions[k].pid == pid && pid in At(actions, k).calls
    ensures At(actions, k).calls[pid].pc == RevokingTokens && At(actions, k).calls[pid].row == At(actions, n).calls[pid].row
    decreases n
  {
    k := 0;
    if n > 0 {
      OneMore(actions, n - 1);
      var s, a := At(actions, n - 1), actions[n - 1];
      if a.StepRotation? && a.pid == pid && pid in s.calls && s.calls[pid].pc != Failed {
        RunKeepsReplay(actions, n - 1, pid);
        LastStep(s.calls[pid], s.db, s.now, a.newId);
        k := n - 1;
      } else {
        k := WhenItSwept(actions, n - 1, pid);
      }
    }
  }

  lemma LastStep(c: Call, db: Db, now: Time, newId: Id)
    requires ReplayOk(db, c) && c.pc != Failed
    requires Replayed(Next(c, db, now, newId).0) && Next(c, db, now, newId).0.pc == Failed
    ensures c.pc == RevokingTokens && Next(c, db, now, newId).0.row == c.row
  {
    if c.pc == ClientRead && c.row.Some? && c.family.Some? { DecidesExactly(c, db, now, newId); }
  }

  /**
   In every run, a rotation that has read a refresh token traded in before, with its family, its grant and
   the client it belongs to, never claims or saves anything; it ends only with the family revoked, and
   with every token of it revoked that was stored when it swept over them.
   */
  lemma ReplayRevokes(actions: seq<Action>, pid: Id) returns (n: nat)
    requires pid in At(actions, |actions|).calls && Replayed(At(actions, |actions|).calls[pid])
    ensures var s := At(actions, |actions|);
            var c := s.calls[pid];
            && c.pc in {ClientRead, RevokingFamily, RevokingTokens, Failed}
            && (c.pc == Failed ==>
                  && c.row.value.family in s.db.families && s.db.families[c.row.value.family].revoked
                  && SweptAt(actions, n, pid, c.row.value.family))
  {
    n := 0;
    RunKeepsReplay(actions, |actions|, pid);
    var c := At(actions, |actions|).calls[pid];
    if c.pc == Failed {
      n := WhenItSwept(actions, |actions|, pid);
      Swept(actions, n, pid, c.row.value.family);
    }
  }

  lemma Swept(actions: seq<Action>, n: nat, pid: Id, f: Id)
    requires n < |actions| && actions[n].StepRotation? && actions[n].pid == pid && pid in At(actions, n).calls
    requires At(actions, n).calls[pid].pc == RevokingTokens
    requires At(actions, n).calls[pid].row.Some? && At(actions, n).calls[pid].row.value.family == f
    ensures SweptAt(actions, n, pid, f)
  {
    RunKeepsInv(actions[..n]);
    OneMore(actions, n);
    SweepRevokes(At(actions, n), pid, actions[n].newId);
    GrowsBetween(actions, n + 1, |actions|);
    forall t | t in At(actions, n).db.tokens && At(actions, n).db.tokens[t].family == f
      ensures t in At(actions, |actions|).db.tokens && At(actions, |actions|).db.tokens[t].revoked
    {
      assert SameToken(At(actions, n + 1).db.tokens[t], At(actions, |actions|).db.tokens[t]);
    }
  }

  /** Nor does it stop on the way: each of its next three statements brings it nearer to the end. */
  lemma ReplayGoesOn(actions: seq<Action>, pid: Id, newId: Id)
    requires pid in At(actions, |actions|).calls && Replayed(At(actions, |actions|).calls[pid])
    ensures pid in Apply(At(actions, |actions|), StepRotation(pid, newId)).calls
    ensures var c, c' := At(actions, |actions|).calls[pid], Apply(At(actions, |actions|), StepRotation(pid, newId)).calls[pid];
            && Replayed(c')
            && c'.pc == match c.pc
                        case ClientRead => RevokingFamily
                        case RevokingFamily => RevokingTokens
                        case _ => Failed
  {
    RunKeepsReplay(actions, |actions|, pid);
    var s := At(actions, |actions|);
    if s.calls[pid].pc == ClientRead { DecidesExactly(s.calls[pid], s.db, s.now, newId); }
  }

  // ---------------------------------------------------------------- new families

  /** `token_response` stores an unrevoked family for ninety days, and a live token of either kind. */
  lemma IssuedIsLive(s: System, f: Id, access: Id, refresh: Id, grant: Id, client: Id, user: Id, scopes: Scopes)
    requires f !in s.db.families && access !in s.db.tokens && refresh !in s.db.tokens && access != refresh
    ensures var db := Apply(s, Issue(f, access, refresh, grant, client, user, scopes)).db;
            && db.families == s.db.families[f := Family(grant, client, user, s.now + 90 * 86400, false)]
            && db.tokens == s.db.tokens
                 [access := Token(Access, f, scopes, s.now + 480, false, false, None, s.now, s.now)]
                 [refresh := Token(Refresh, f, scopes, s.now + 30 * 86400, false, false, None, s.now, s.now)]
            && db.grants == s.db.grants && db.clients == s.db.clients && db.users == s.db.users
  {
  }
}
