/**
 Credential removal of `arborpress/auth/policy.py` and the discarding of staged recovery
 credentials of `arborpress/auth/sessions.py`.
 */
module Credentials {
  import opened Common

  type Id = nat

  /** `verification_status`; other values than these two count as `Unverified`. */
  datatype Standing = Verified | RecoveryPending | Unverified

  datatype WebAuthn = WebAuthn(user: Id, uvCapable: Option<bool>, standing: Standing)

  datatype Device = Device(user: Id, totp: bool, active: bool, standing: Standing)

  datatype Factors = Factors(webauthn: map<Id, WebAuthn>, devices: map<Id, Device>)

  datatype Kind = ByWebAuthn | ByTotp

  datatype Method = WebAuthnMethod | TotpMethod | OtherMethod

  datatype Assurance = UserVerified | OtpVerified | OtherAssurance

  datatype Evidence = Evidence(authMethod: Method, assurance: Assurance, credential: Option<Id>, device: Option<Id>)

  datatype Reason =
    | WebAuthnStepupRequired | LastWebAuthn | DifferentWebAuthnRequired
    | StepupRequired | LastTotpNeedsWebAuthn | DifferentTotpRequired

  datatype Removal = Removal(allowed: bool, reason: Option<Reason>, usable: nat)

  // ---------------------------------------------------------------- usable factors

  predicate WebAuthnUsable(row: WebAuthn, user: Id) {
    row.user == user && row.uvCapable != Some(false) && row.standing != RecoveryPending
  }

  predicate TotpUsable(row: Device, user: Id) {
    row.user == user && row.totp && row.active && row.standing == Verified
  }

  function UsableWebAuthn(f: Factors, user: Id): set<Id> {
    set id | id in f.webauthn && WebAuthnUsable(f.webauthn[id], user)
  }

  function UsableTotp(f: Factors, user: Id): set<Id> {
    set id | id in f.devices && TotpUsable(f.devices[id], user)
  }

  /** Which rows count: what is stored of a credential, field by field. */
  lemma CountedFactors(f: Factors, user: Id, id: Id)
    ensures id in UsableWebAuthn(f, user) <==>
              && id in f.webauthn && f.webauthn[id].user == user
              && (f.webauthn[id].uvCapable.Some? ==> f.webauthn[id].uvCapable.value)
              && (f.webauthn[id].standing.Verified? || f.webauthn[id].standing.Unverified?)
    ensures id in UsableTotp(f, user) <==>
              && id in f.devices && f.devices[id].user == user && f.devices[id].totp && f.devices[id].active
              && f.devices[id].standing.Verified?
  {
  }

  // ---------------------------------------------------------------- the decision

  predicate In(id: Option<Id>, ids: set<Id>) { id.Some? && id.value in ids }

  function WebAuthnRemoval(usable: set<Id>, target: Id, e: Evidence): Removal {
    if e.authMethod != WebAuthnMethod || e.assurance != UserVerified || !In(e.credential, usable)
    then Removal(false, Some(WebAuthnStepupRequired), |usable|)
    else if target in usable && |usable| == 1 then Removal(false, Some(LastWebAuthn), 1)
    else if target in usable && |usable| == 2 && e.credential == Some(target)
    then Removal(false, Some(DifferentWebAuthnRequired), 2)
    else Removal(true, None, |usable|)
  }

  predicate ConfirmedByWebAuthn(usable: set<Id>, e: Evidence) {
    e.authMethod == WebAuthnMethod && e.assurance == UserVerified && In(e.credential, usable)
  }

  predicate ConfirmedByTotp(usable: set<Id>, e: Evidence) {
    e.authMethod == TotpMethod && e.assurance == OtpVerified && In(e.device, usable)
  }

  function TotpRemoval(webauthn: set<Id>, usable: set<Id>, target: Id, e: Evidence): Removal {
    if !ConfirmedByWebAuthn(webauthn, e) && !ConfirmedByTotp(usable, e)
    then Removal(false, Some(StepupRequired), |usable|)
    else if target in usable && |usable| == 1 && !ConfirmedByWebAuthn(webauthn, e)
    then Removal(false, Some(LastTotpNeedsWebAuthn), 1)
    else if target in usable && |usable| == 2 && !ConfirmedByWebAuthn(webauthn, e) && e.device == Some(target)
    then Removal(false, Some(DifferentTotpRequired), 2)
    else Removal(true, None, |usable|)
  }

  function RemovalDecision(f: Factors, user: Id, kind: Kind, target: Id, e: Evidence): Removal {
    match kind
    case ByWebAuthn => WebAuthnRemoval(UsableWebAuthn(f, user), target, e)
    case ByTotp => TotpRemoval(UsableWebAuthn(f, user), UsableTotp(f, user), target, e)
  }

  lemma OneLess(s: set<Id>, x: Id)
    ensures |s - {x}| == if x in s then |s| - 1 else |s|
  {
    if x in s {
      assert s == (s - {x}) + {x};
    } else {
      assert s - {x} == s;
    }
  }

  /**
   A WebAuthn credential may go exactly if a usable one confirms it and a usable one stays; of two, the
   one that confirms has to stay.
   */
  lemma WebAuthnRemovalIff(f: Factors, user: Id, target: Id, e: Evidence)
    ensures var usable := UsableWebAuthn(f, user);
            RemovalDecision(f, user, ByWebAuthn, target, e).allowed <==>
              && e.authMethod == WebAuthnMethod && e.assurance == UserVerified
              && e.credential.Some? && e.credential.value in usable
              && (usable - {target} != {} || target !in usable)
              && (|usable - {target}| == 1 && target in usable ==> e.credential.value in usable - {target})
  {
    var usable := UsableWebAuthn(f, user);
    OneLess(usable, target);
    if usable - {target} == {} && target in usable { assert |usable| == 1; }
  }

  /** A TOTP device may go exactly if a usable factor confirms it and a usable factor that can confirm stays. */
  lemma TotpRemovalIff(f: Factors, user: Id, target: Id, e: Evidence)
    ensures var usable := UsableTotp(f, user);
            RemovalDecision(f, user, ByTotp, target, e).allowed <==>
              || (&& e.authMethod == WebAuthnMethod && e.assurance == UserVerified
                  && e.credential.Some? && e.credential.value in UsableWebAuthn(f, user))
              || (&& e.authMethod == TotpMethod && e.assurance == OtpVerified
                  && e.device.Some? && e.device.value in usable
                  && (usable - {target} != {} || target !in usable)
                  && (|usable - {target}| == 1 && target in usable ==> e.device.value in usable - {target}))
  {
    var usable := UsableTotp(f, user);
    OneLess(usable, target);
    if usable - {target} == {} && target in usable { assert |usable| == 1; }
  }

  /** Why a removal is refused: the reason tells a missing confirmation from a last and from a confirming factor. */
  lemma RemovalReason(f: Factors, user: Id, kind: Kind, target: Id, e: Evidence)
    ensures var d := RemovalDecision(f, user, kind, target, e);
            var usable := if kind == ByWebAuthn then UsableWebAuthn(f, user) else UsableTotp(f, user);
            && d.usable == |usable| && (d.allowed <==> d.reason.None?)
            && (d.reason in {Some(LastWebAuthn), Some(LastTotpNeedsWebAuthn)} ==> usable == {target})
            && (d.reason == Some(DifferentWebAuthnRequired) ==>
                  kind == ByWebAuthn && |usable| == 2 && target in usable && e.credential == Some(target))
            && (d.reason == Some(DifferentTotpRequired) ==>
                  kind == ByTotp && |usable| == 2 && target in usable && e.device == Some(target))
            && (d.reason == Some(WebAuthnStepupRequired) <==>
                  kind == ByWebAuthn
                  && !(e.authMethod == WebAuthnMethod && e.assurance == UserVerified
                       && e.credential.Some? && e.credential.value in usable))
            && (d.reason == Some(StepupRequired) <==>
                  kind == ByTotp
                  && !(e.authMethod == WebAuthnMethod && e.assurance == UserVerified
                       && e.credential.Some? && e.credential.value in UsableWebAuthn(f, user))
                  && !(e.authMethod == TotpMethod && e.assurance == OtpVerified
                       && e.device.Some? && e.device.value in usable))
  {
    var usable := if kind == ByWebAuthn then UsableWebAuthn(f, user) else UsableTotp(f, user);
    OneLess(usable, target);
    if target in usable && |usable| == 1 { assert usable - {target} == {}; }
  }

  // ---------------------------------------------------------------- runs

  datatype Action =
    /** A self-service removal; only a row of that user goes, and only if the decision allows it. */
    | Remove(user: Id, kind: Kind, target: Id, evidence: Evidence)
    /** The staged credentials of a recovery are discarded. */
    | Discard(user: Id, webauthnIds: set<Id>, totpIds: set<Id>)
    /** New rows, under ids that are not in use. */
    | Enrol(webauthn: map<Id, WebAuthn>, devices: map<Id, Device>)

  function Delete(f: Factors, user: Id, kind: Kind, target: Id): Factors {
    match kind
    case ByWebAuthn =>
      if target in f.webauthn && f.webauthn[target].user == user then f.(webauthn := f.webauthn - {target}) else f
    case ByTotp =>
      if target in f.devices && f.devices[target].user == user && f.devices[target].totp
      then f.(devices := f.devices - {target}) else f
  }

  predicate Staged(f: Factors, user: Id, kind: Kind, id: Id) {
    match kind
    case ByWebAuthn => id in f.webauthn && f.webauthn[id].user == user && f.webauthn[id].standing == RecoveryPending
    case ByTotp =>
      id in f.devices && f.devices[id].user == user && f.devices[id].totp && f.devices[id].standing == RecoveryPending
  }

  function Discarded(f: Factors, user: Id, webauthnIds: set<Id>, totpIds: set<Id>): Factors {
    f.(webauthn := f.webauthn - (set id | id in webauthnIds && Staged(f, user, ByWebAuthn, id)),
       devices := f.devices - (set id | id in totpIds && Staged(f, user, ByTotp, id)))
  }

  function Apply(f: Factors, a: Action): Factors {
    match a
    case Remove(user, kind, target, e) =>
      if RemovalDecision(f, user, kind, target, e).allowed then Delete(f, user, kind, target) else f
    case Discard(user, webauthnIds, totpIds) => Discarded(f, user, webauthnIds, totpIds)
    case Enrol(webauthn, devices) =>
      if webauthn.Keys !! f.webauthn.Keys && devices.Keys !! f.devices.Keys
      then Factors(f.webauthn + webauthn, f.devices + devices) else f
  }

  function Run(f: Factors, actions: seq<Action>): Factors {
    if actions == [] then f else Apply(Run(f, actions[..|actions| - 1]), actions[|actions| - 1])
  }

  /** An allowed removal takes exactly the row that was named, if it is the user's own. */
  lemma RemovalTakesTheRow(f: Factors, user: Id, kind: Kind, target: Id, e: Evidence)
    ensures var f', own := Apply(f, Remove(user, kind, target, e)), OwnRow(f, user, kind, target);
            if RemovalDecision(f, user, kind, target, e).allowed && own then
              f' == if kind == ByWebAuthn then f.(webauthn := f.webauthn - {target}) else f.(devices := f.devices - {target})
            else f' == f
  {
  }

  predicate OwnRow(f: Factors, user: Id, kind: Kind, id: Id) {
    if kind == ByWebAuthn then id in f.webauthn && f.webauthn[id].user == user
    else id in f.devices && f.devices[id].user == user && f.devices[id].totp
  }

  /** Discarding what a recovery staged takes no usable factor from anybody. */
  lemma DiscardKeepsUsable(f: Factors, actor: Id, webauthnIds: set<Id>, totpIds: set<Id>, user: Id)
    ensures UsableWebAuthn(Discarded(f, actor, webauthnIds, totpIds), user) == UsableWebAuthn(f, user)
    ensures UsableTotp(Discarded(f, actor, webauthnIds, totpIds), user) == UsableTotp(f, user)
  {
    var f' := Discarded(f, actor, webauthnIds, totpIds);
    forall id ensures id in UsableWebAuthn(f', user) <==> id in UsableWebAuthn(f, user) {
    }
    forall id ensures id in UsableTotp(f', user) <==> id in UsableTotp(f, user) {
    }
  }

  lemma DeleteUsable(f: Factors, actor: Id, kind: Kind, target: Id, user: Id)
    ensures var f' := Delete(f, actor, kind, target);
            && UsableWebAuthn(f', user) == (if actor == user && kind == ByWebAuthn then UsableWebAuthn(f, user) - {target} else UsableWebAuthn(f, user))
            && UsableTotp(f', user) == (if actor == user && kind == ByTotp then UsableTotp(f, user) - {target} else UsableTotp(f, user))
  {
  }

  /** The floors: a usable WebAuthn credential stays if there was one, and a usable factor stays if there was one. */
  ghost predicate FloorsKept(f: Factors, f': Factors, user: Id) {
    && (UsableWebAuthn(f, user) != {} ==> UsableWebAuthn(f', user) != {})
    && (UsableWebAuthn(f, user) != {} || UsableTotp(f, user) != {} ==>
          UsableWebAuthn(f', user) != {} || UsableTotp(f', user) != {})
  }

  lemma RemoveKeepsFloors(f: Factors, actor: Id, kind: Kind, target: Id, e: Evidence, user: Id)
    requires RemovalDecision(f, actor, kind, target, e).allowed
    ensures FloorsKept(f, Delete(f, actor, kind, target), user)
  {
    DeleteUsable(f, actor, kind, target, user);
    if actor == user && kind == ByWebAuthn {
      WebAuthnRemovalIff(f, user, target, e);
      if target !in UsableWebAuthn(f, user) { assert UsableWebAuthn(f, user) - {target} == UsableWebAuthn(f, user); }
    } else if actor == user {
      TotpRemovalIff(f, user, target, e);
      if target !in UsableTotp(f, user) { assert UsableTotp(f, user) - {target} == UsableTotp(f, user); }
    }
  }

  lemma EnrolKeepsFloors(f: Factors, webauthn: map<Id, WebAuthn>, devices: map<Id, Device>, user: Id)
    ensures FloorsKept(f, Apply(f, Enrol(webauthn, devices)), user)
  {
    var f' := Apply(f, Enrol(webauthn, devices));
    assert UsableWebAuthn(f, user) <= UsableWebAuthn(f', user);
    assert UsableTotp(f, user) <= UsableTotp(f', user);
  }

  /** No run of allowed removals, discards and enrolments takes the last usable factor from anybody. */
  lemma {:induction false} RunsKeepFloors(f: Factors, actions: seq<Action>, user: Id)
    ensures FloorsKept(f, Run(f, actions), user)
  {
    if actions != [] {
      var before, a := actions[..|actions| - 1], actions[|actions| - 1];
      RunsKeepFloors(f, before, user);
      match a
      case Remove(actor, kind, target, e) =>
        if RemovalDecision(Run(f, before), actor, kind, target, e).allowed {
          RemoveKeepsFloors(Run(f, before), actor, kind, target, e, user);
        }
      case Discard(actor, webauthnIds, totpIds) => DiscardKeepsUsable(Run(f, before), actor, webauthnIds, totpIds, user);
      case Enrol(webauthn, devices) => EnrolKeepsFloors(Run(f, before), webauthn, devices, user);
    }
  }

  // ---------------------------------------------------------------- recovery sessions

  datatype Purpose = RecoverySession | Enrollment | OtherPurpose

  datatype Context = Context(session: Option<Id>, recovery: Option<Id>, recoveryOnly: bool, purposeOk: bool,
                             webauthnIds: seq<Id>, totpIds: seq<Id>)

  /** `context` is `None` when the stored text cannot be read. */
  datatype Pending = Pending(user: Id, purpose: Purpose, expires: int, consumed: bool, context: Option<Context>)

  predicate EnrolsFor(row: Pending, user: Id, session: Id, recovery: Id) {
    && row.user == user && row.purpose == Enrollment && !row.consumed
    && row.context.Some? && row.context.value.recoveryOnly
    && row.context.value.session == Some(session) && row.context.value.recovery == Some(recovery)
  }

  class AuthRows {
    var factors: Factors
    var pendings: map<Id, Pending>
    var validSessions: map<Id, Id>

    /** Staged rows of one kind go, one after another. */
    method DeleteStaged(user: Id, kind: Kind, ids: seq<Id>)
      modifies this`factors
      ensures factors == if kind == ByWebAuthn then Discarded(old(factors), user, set id | id in ids, {})
                         else Discarded(old(factors), user, {}, set id | id in ids)
    {
      for i := 0 to |ids|
        invariant factors == if kind == ByWebAuthn then Discarded(old(factors), user, set id | id in ids[..i], {})
                             else Discarded(old(factors), user, {}, set id | id in ids[..i])
      {
        assert ids[..i + 1] == ids[..i] + [ids[i]];
        if Staged(factors, user, kind, ids[i]) {
          factors := if kind == ByWebAuthn then factors.(webauthn := factors.webauthn - {ids[i]})
                     else factors.(devices := factors.devices - {ids[i]});
        }
      }
      assert ids[..|ids|] == ids;
    }

    /** `discard_recovery_enrollments`: only unfinished factors of this one recovery. */
    method DiscardRecoveryEnrollments(recovery: Id, user: Id, context: Context)
      modifies this`factors, this`pendings
      ensures factors == Discarded(old(factors), user, set id | id in context.webauthnIds, set id | id in context.totpIds)
      ensures forall id :: id in factors.webauthn <==>
                id in old(factors).webauthn
                && !(id in context.webauthnIds && old(factors).webauthn[id].user == user
                     && old(factors).webauthn[id].standing == RecoveryPending)
      ensures forall id :: id in factors.devices <==>
                id in old(factors).devices
                && !(id in context.totpIds && old(factors).devices[id].user == user && old(factors).devices[id].totp
                     && old(factors).devices[id].standing == RecoveryPending)
      ensures pendings.Keys == old(pendings).Keys
      ensures forall p :: p in pendings && pendings[p] != old(pendings)[p] ==>
                && !old(pendings)[p].consumed && pendings[p].consumed && old(pendings)[p].user == user
                && old(pendings)[p].purpose == Enrollment && old(pendings)[p].context.Some?
                && var c := old(pendings)[p].context.value;
                   c.recoveryOnly && context.session.Some? && c.session == context.session && c.recovery == Some(recovery)
      ensures forall p :: p in pendings ==>
                pendings[p] == old(pendings)[p].(consumed :=
                  old(pendings)[p].consumed || (context.session.Some? && EnrolsFor(old(pendings)[p], user, context.session.value, recovery)))
    {
      DeleteStaged(user, ByWebAuthn, context.webauthnIds);
      DeleteStaged(user, ByTotp, context.totpIds);
      if context.session.Some? {
        ConsumeEnrollments(user, context.session.value, recovery);
      }
    }

    /** The unfinished enrolments of one recovery session are consumed. */
    method ConsumeEnrollments(user: Id, session: Id, recovery: Id)
      modifies this`pendings
      ensures pendings.Keys == old(pendings).Keys
      ensures forall p :: p in pendings ==>
                pendings[p] == old(pendings)[p].(consumed :=
                  old(pendings)[p].consumed || EnrolsFor(old(pendings)[p], user, session, recovery))
    {
      var todo := pendings.Keys;
      while todo != {}
        invariant todo <= pendings.Keys == old(pendings).Keys
        invariant forall p :: p in pendings ==>
                    pendings[p] == old(pendings)[p].(consumed :=
                      old(pendings)[p].consumed || (p !in todo && EnrolsFor(old(pendings)[p], user, session, recovery)))
        decreases |todo|
      {
        var p :| p in todo;
        todo := todo - {p};
        if EnrolsFor(pendings[p], user, session, recovery) {
          pendings := pendings[p := pendings[p].(consumed := true)];
        }
      }
    }

    method InvalidateRecoverySession(recovery: Id, context: Context)
      requires recovery in pendings
      modifies this
      ensures factors == Discarded(old(factors), old(pendings)[recovery].user, set id | id in context.webauthnIds,
                                   set id | id in context.totpIds)
      ensures pendings.Keys == old(pendings).Keys
      ensures forall p :: p in pendings ==>
                pendings[p] == old(pendings)[p].(consumed :=
                  || old(pendings)[p].consumed || p == recovery
                  || (context.session.Some?
                      && EnrolsFor(old(pendings)[p], old(pendings)[recovery].user, context.session.value, recovery)))
      ensures forall s :: s in validSessions <==>
                s in old(validSessions) && !(context.session == Some(s) && old(validSessions)[s] == old(pendings)[recovery].user)
      ensures forall s :: s in validSessions ==> validSessions[s] == old(validSessions)[s]
    {
      var user := pendings[recovery].user;
      DiscardRecoveryEnrollments(recovery, user, context);
      pendings := pendings[recovery := pendings[recovery].(consumed := true)];
      if context.session.Some? {
        var session := context.session.value;
        if session in validSessions && validSessions[session] == user {
          validSessions := validSessions - {session};
        }
      }
    }

    /** `append_recovery_credential_id`: binds a staged credential to the recovery, once. */
    method AppendRecoveryCredentialId(user: Id, recovery: Id, session: Id, kind: Kind, id: Id, now: int)
      returns (ok: bool)
      modifies this`pendings
      ensures ok <==>
                && recovery in old(pendings) && old(pendings)[recovery].user == user
                && old(pendings)[recovery].purpose == RecoverySession && !old(pendings)[recovery].consumed
                && old(pendings)[recovery].expires > now
                && old(pendings)[recovery].context.Some? && old(pendings)[recovery].context.value.session == Some(session)
                && old(pendings)[recovery].context.value.purposeOk
      ensures !ok ==> pendings == old(pendings)
      ensures ok ==>
                && recovery in pendings && pendings == old(pendings)[recovery := pendings[recovery]]
                && pendings[recovery].context.Some?
                && (var c, c' := old(pendings)[recovery].context.value, pendings[recovery].context.value;
                    && pendings[recovery] == old(pendings)[recovery].(context := Some(c'))
                    && c' == c.(webauthnIds := c'.webauthnIds, totpIds := c'.totpIds)
                    && (kind == ByWebAuthn ==>
                          c'.totpIds == c.totpIds && c'.webauthnIds == if id in c.webauthnIds then c.webauthnIds else c.webauthnIds + [id])
                    && (kind == ByTotp ==>
                          c'.webauthnIds == c.webauthnIds && c'.totpIds == if id in c.totpIds then c.totpIds else c.totpIds + [id]))
    {
      if recovery !in pendings { return false; }
      var row := pendings[recovery];
      if row.user != user || row.purpose != RecoverySession || row.consumed || row.expires <= now { return false; }
      if row.context.None? || row.context.value.session != Some(session) || !row.context.value.purposeOk { return false; }
      var context := row.context.value;
      if kind == ByWebAuthn {
        if id !in context.webauthnIds { context := context.(webauthnIds := context.webauthnIds + [id]); }
      } else {
        if id !in context.totpIds { context := context.(totpIds := context.totpIds + [id]); }
      }
      pendings := pendings[recovery := row.(context := Some(context))];
      return true;
    }
  }
}
