/** Which tables each transaction leaves alone. */
module TwoFactorFrames {
  import opened Wrappers
  import opened TwoFactorModel

  predicate TouchesChallenges(e: Event) {
    e.ECreateChallenge? || e.EBumpAttempt? || e.EConsumeChallenge? || e.ESendCode? || e.EComplete2FA?
    || e.ECompleteTotp? || e.ECompleteEmail? || e.EConvert? || e.EDeleteUser? || e.ESweep?
  }

  predicate TouchesCodes(e: Event) {
    e.ECreateChallenge? || e.ESendCode? || e.EComplete2FA? || e.EDeleteUser? || e.ESweep?
  }

  predicate TouchesFactors(e: Event) {
    UsesProof(e) || e.EComplete2FA? || e.ECompleteTotp? || e.ECompleteEmail? || e.EStartTotp? || e.EStartEmail?
    || e.ESendStepUp? || e.EDeleteUser? || e.ESweep?
  }

  predicate TouchesArtefacts(e: Event) {
    e.EMint? || e.ERedeem? || e.ETakeLinkState? || e.EDeleteUser? || e.ESweep?
  }

  predicate TouchesUsers(e: Event) {
    e.EDisableTotp? || e.EDisableEmail? || e.ESetPassword? || e.ERedeem? || e.EConvert? || e.EMoveCredentials?
    || e.ESetStatus? || e.EAddUser? || e.EDeleteUser?
  }

  /** The transactions that spend a second factor for something other than a login. */
  predicate UsesProof(e: Event) {
    e.EDisableTotp? || e.EDisableEmail? || e.ERegenerate? || e.EConsumeSecondFactor? || e.ESetPassword?
  }

  // ---- The longer transactions ----

  /** What a transaction that spends a proof or enrolls a factor leaves alone. */
  ghost predicate KeepsRest(s: State, t: State) {
    t.next >= s.next && t.now == s.now && t.artefacts == s.artefacts && t.ch.codes == s.ch.codes
  }

  lemma RemovalKeepsRest(s: State, e: Event)
    requires e.EDisableTotp? || e.EDisableEmail?
    ensures KeepsRest(s, Step(s, e).0) && Step(s, e).0.ch == s.ch
  {
  }

  lemma UseKeepsRest(s: State, e: Event)
    requires e.ERegenerate? || e.EConsumeSecondFactor? || e.ESetPassword?
    ensures KeepsRest(s, Step(s, e).0) && Step(s, e).0.ch == s.ch
    ensures !e.ESetPassword? ==> Step(s, e).0.users == s.users
  {
  }

  lemma TotpEnrollmentKeepsRest(s: State, e: Event)
    requires e.ECompleteTotp?
    ensures KeepsRest(s, Step(s, e).0) && Step(s, e).0.users == s.users
  {
  }

  lemma EmailEnrollmentKeepsRest(s: State, e: Event)
    requires e.ECompleteEmail?
    ensures KeepsRest(s, Step(s, e).0) && Step(s, e).0.users == s.users
  {
  }

  lemma LoginKeepsRest(s: State, e: Event)
    requires e.EComplete2FA?
    ensures var t := Step(s, e).0;
            t.next >= s.next && t.now == s.now && t.artefacts == s.artefacts && t.users == s.users
  {
  }

  predicate IsLong(e: Event) {
    UsesProof(e) || e.EComplete2FA? || e.ECompleteTotp? || e.ECompleteEmail?
  }

  lemma LongKeepsRest(s: State, e: Event)
    requires IsLong(e)
    ensures var t := Step(s, e).0;
      && t.next >= s.next && t.now == s.now && t.artefacts == s.artefacts
      && (UsesProof(e) ==> t.ch == s.ch)
      && (!e.EComplete2FA? ==> t.ch.codes == s.ch.codes)
      && (!TouchesUsers(e) ==> t.users == s.users)
  {
    if e.EDisableTotp? || e.EDisableEmail? {
      RemovalKeepsRest(s, e);
    } else if e.ECompleteTotp? {
      TotpEnrollmentKeepsRest(s, e);
    } else if e.ECompleteEmail? {
      EmailEnrollmentKeepsRest(s, e);
    } else if e.EComplete2FA? {
      LoginKeepsRest(s, e);
    } else {
      UseKeepsRest(s, e);
    }
  }

  // ---- Tables left alone ----

  lemma ClocksRun(s: State, e: Event)
    ensures Step(s, e).0.next >= s.next && Step(s, e).0.now >= s.now
  {
    if IsLong(e) {
      LongKeepsRest(s, e);
    }
  }

  lemma ChallengesStay(s: State, e: Event)
    requires !TouchesChallenges(e)
    ensures Step(s, e).0.ch == s.ch
  {
    if IsLong(e) {
      LongKeepsRest(s, e);
    }
  }

  lemma CodesStay(s: State, e: Event)
    requires !TouchesCodes(e)
    ensures Step(s, e).0.ch.codes == s.ch.codes
  {
    if IsLong(e) {
      LongKeepsRest(s, e);
    }
  }

  lemma FactorsStay(s: State, e: Event)
    requires !TouchesFactors(e)
    ensures Step(s, e).0.fa == s.fa
  {
  }

  lemma ArtefactsStay(s: State, e: Event)
    requires !TouchesArtefacts(e)
    ensures Step(s, e).0.artefacts == s.artefacts
  {
    if IsLong(e) {
      LongKeepsRest(s, e);
    }
  }

  lemma UsersStay(s: State, e: Event)
    requires !TouchesUsers(e)
    ensures Step(s, e).0.users == s.users
  {
    if IsLong(e) {
      LongKeepsRest(s, e);
    }
  }

  // ---- How tables change ----

  /** At most the challenge `id` is spent, and its lineage closed with it. */
  ghost predicate SpendsOnly(s: State, t: State, id: nat) {
    || (t.ch.rows == s.ch.rows && t.ch.lineages == s.ch.lineages)
    || (&& id in s.ch.rows && !s.ch.rows[id].consumed
        && t.ch.rows == s.ch.rows[id := s.ch.rows[id].(consumed := true)]
        && exists via :: t.ch.lineages == Closed(s.ch.lineages, s.ch.rows[id].root, s.now, via))
  }

  function Challenged(path: Enrolling): (id: Option<nat>) {
    if path.PreAuth? then Some(path.challenge) else None
  }

  /** The challenge the transaction would spend. */
  function Target(e: Event): (id: Option<nat>) {
    match e
    case EConsumeChallenge(id) => Some(id)
    case EComplete2FA(id, _) => Some(id)
    case EConvert(id, _) => Some(id)
    case ECompleteTotp(_, _, _, _, _, path, _) => Challenged(path)
    case ECompleteEmail(_, _, _, _, path, _) => Challenged(path)
    case _ => None
  }

  predicate Spends(e: Event) {
    e.EConsumeChallenge? || e.EComplete2FA? || e.EConvert? || e.ECompleteTotp? || e.ECompleteEmail?
  }

  lemma FinishSpends(s: State, t: State, uid: nat, epoch: nat, path: Enrolling, id: nat)
    requires FinishPreAuth(t, uid, epoch, path).Some? && t.ch == s.ch && t.now == s.now
             && (path.PreAuth? ==> path.challenge == id)
    ensures SpendsOnly(s, FinishPreAuth(t, uid, epoch, path).value, id)
  {
  }

  lemma TotpEnrollmentSpends(s: State, e: Event, id: nat)
    requires e.ECompleteTotp? && (e.path.PreAuth? ==> e.path.challenge == id)
    ensures SpendsOnly(s, Step(s, e).0, id)
  {
    if !Step(s, e).1.Failed? {
      var fa := ConfirmTotp(s.fa, e.uid, e.seed, e.epoch, e.counter);
      FinishSpends(s, ReplaceRecovery(s.(fa := fa), e.uid, e.digests), e.uid, e.epoch, e.path, id);
    }
  }

  lemma EmailEnrollmentSpends(s: State, e: Event, id: nat)
    requires e.ECompleteEmail? && (e.path.PreAuth? ==> e.path.challenge == id)
    ensures SpendsOnly(s, Step(s, e).0, id)
  {
    if !Step(s, e).1.Failed? {
      var fa := SpendFactorCode(s, e.uid, false, e.digest);
      var t := s.(fa := ConfirmEmail(fa, e.uid, e.epoch));
      FinishSpends(s, ReplaceRecovery(t, e.uid, e.digests), e.uid, e.epoch, e.path, id);
    }
  }

  /** Completing a login, converting, consuming and enrolling spend the challenge they name or none. */
  lemma SpendsTarget(s: State, e: Event, id: nat)
    requires Spends(e) && (Target(e).Some? ==> Target(e).value == id)
    ensures SpendsOnly(s, Step(s, e).0, id)
  {
    if e.ECompleteTotp? {
      TotpEnrollmentSpends(s, e, id);
    } else if e.ECompleteEmail? {
      EmailEnrollmentSpends(s, e, id);
    } else if e.EComplete2FA? {
      LoginSpends(s, e.id, e.login);
    }
  }

  lemma LoginProofLeavesRows(s: State, uid: nat, id: nat, login: ChallengeProof)
    requires SpendLoginProof(s, uid, id, login).Some?
    ensures var t := SpendLoginProof(s, uid, id, login).value.0;
            t.ch.rows == s.ch.rows && t.ch.lineages == s.ch.lineages && t.now == s.now
  {
  }

  lemma LoginSpends(s: State, id: nat, login: ChallengeProof)
    ensures SpendsOnly(s, Complete2FA(s, id, login).0, id)
  {
    if Complete2FA(s, id, login).1.LoggedIn? {
      LoginProofLeavesRows(s, s.ch.rows[id].user, id, login);
    }
  }

  /** Known challenges keep what they are bound to and never come back from being spent; rows may go. */
  ghost predicate RowsEvolve(s: State, t: State) {
    forall id :: id < s.next && id in t.ch.rows ==>
      && id in s.ch.rows && (s.ch.rows[id].consumed ==> t.ch.rows[id].consumed)
      && t.ch.rows[id] == s.ch.rows[id].(attempts := t.ch.rows[id].attempts, sends := t.ch.rows[id].sends,
                                         consumed := t.ch.rows[id].consumed)
  }

  lemma StepEvolvesRows(s: State, e: Event)
    ensures RowsEvolve(s, Step(s, e).0)
  {
    if !TouchesChallenges(e) {
      ChallengesStay(s, e);
    } else if Spends(e) {
      var id := if Target(e).Some? then Target(e).value else 0;
      SpendsTarget(s, e, id);
      SpendingEvolvesRows(s, Step(s, e).0, id);
    } else if e.ECreateChallenge? {
      CreateEvolvesRows(s, e.uid, e.purpose, e.epoch, e.proven);
    } else if e.EBumpAttempt? || e.ESendCode? {
      ChargeEvolvesRows(s, e, e.id);
    } else {
      DeletionEvolvesRows(s, e);
    }
  }

  lemma SpendingEvolvesRows(s: State, t: State, id: nat)
    requires SpendsOnly(s, t, id)
    ensures RowsEvolve(s, t)
  {
  }

  lemma ReplacementEvolvesRows(s: State, prev: nat, proven: bool)
    requires prev in s.ch.rows
    ensures RowsEvolve(s, NextChallenge(s, prev, proven))
  {
  }

  lemma OpeningEvolvesRows(s: State, uid: nat, purpose: Purpose, epoch: nat, proven: bool)
    ensures RowsEvolve(s, FirstChallenge(s, uid, purpose, epoch, proven))
  {
  }

  lemma CreateEvolvesRows(s: State, uid: nat, purpose: Purpose, epoch: nat, proven: bool)
    ensures RowsEvolve(s, CreateChallenge(s, uid, purpose, epoch, proven).0)
  {
    OpeningEvolvesRows(s, uid, purpose, epoch, proven);
    if LiveUser(s, uid, epoch) {
      if prev :| IsPrevious(s, prev, uid, purpose, epoch)
                 && CreateChallenge(s, uid, purpose, epoch, proven).0 == NextChallenge(s, prev, proven) {
        ReplacementEvolvesRows(s, prev, proven);
      }
    }
  }

  /** A charge replaces one row by itself with other counters. */
  lemma ChargeEvolvesRows(s: State, e: Event, id: nat)
    requires (e.EBumpAttempt? || e.ESendCode?) && e.id == id
    ensures RowsEvolve(s, Step(s, e).0)
  {
    var t := Step(s, e).0;
    if t != s {
      assert t.ch.rows == s.ch.rows[id := s.ch.rows[id].(attempts := t.ch.rows[id].attempts,
                                                         sends := t.ch.rows[id].sends)];
    }
  }

  lemma DeletionEvolvesRows(s: State, e: Event)
    requires e.EDeleteUser? || e.ESweep?
    ensures RowsEvolve(s, Step(s, e).0)
  {
  }

  /** Accounts go for good, and epochs only grow. */
  ghost predicate UsersEvolve(s: State, t: State) {
    && (forall u :: u in t.users && u in s.users && u < s.next ==> t.users[u].epoch >= s.users[u].epoch)
    && (forall u :: u in t.users && u !in s.users ==> s.next <= u < t.next)
  }

  lemma StepEvolvesUsers(s: State, e: Event)
    ensures UsersEvolve(s, Step(s, e).0)
    ensures !e.EDeleteUser? ==> forall u :: u in s.users ==> u in Step(s, e).0.users
  {
    if !TouchesUsers(e) {
      UsersStay(s, e);
    } else if MovesCredentials(e) {
      MoverEvolvesUsers(s, e);
    } else {
      AccountStepEvolvesUsers(s, e);
    }
  }

  lemma MoverEvolvesUsers(s: State, e: Event)
    requires MovesCredentials(e)
    ensures UsersEvolve(s, Step(s, e).0) && Step(s, e).0.users.Keys == s.users.Keys
  {
    CredentialsMoveOn(s, e);
    BumpEvolvesUsers(s, Step(s, e).0, Mover(s, e).0);
  }

  lemma BumpEvolvesUsers(s: State, t: State, uid: nat)
    requires t.users == s.users || t.users == BumpEpoch(s, uid).users
    ensures UsersEvolve(s, t) && t.users.Keys == s.users.Keys
  {
  }

  lemma AccountStepEvolvesUsers(s: State, e: Event)
    requires e.ESetStatus? || e.EAddUser? || e.EDeleteUser?
    ensures UsersEvolve(s, Step(s, e).0)
    ensures !e.EDeleteUser? ==> forall u :: u in s.users ==> u in Step(s, e).0.users
  {
  }

  predicate MovesCredentials(e: Event) {
    e.EDisableTotp? || e.EDisableEmail? || e.ESetPassword? || e.ERedeem? || e.EConvert? || e.EMoveCredentials?
  }

  /** Whose credentials the transaction moves, and which session it was made from. */
  function Mover(s: State, e: Event): (m: (nat, Option<nat>))
    requires MovesCredentials(e)
  {
    match e
    case EDisableTotp(uid, _, session, _, _) => (uid, Some(session))
    case EDisableEmail(uid, _, session, _, _) => (uid, Some(session))
    case ESetPassword(uid, _, session, _, _) => (uid, Some(session))
    case ERedeem(id, _) => (if id in s.artefacts then s.artefacts[id].user else 0, None)
    case EConvert(id, _) => (if id in s.ch.rows then s.ch.rows[id].user else 0, None)
    case EMoveCredentials(uid, keep) => (uid, keep)
  }

  /** A credential change moves its account's epoch by one and ends its other sessions, or fails. */
  lemma CredentialsMoveOn(s: State, e: Event)
    requires MovesCredentials(e)
    ensures var t := Step(s, e).0;
            if Step(s, e).1.Failed? then t == s
            else var (uid, keep) := Mover(s, e);
                 && t.users == BumpEpoch(s, uid).users && t.next == s.next
                 && t.logins == LoginsWithout(s.logins, uid, keep)
  {
    if e.EDisableTotp? {
      TotpRemovalMovesOn(s, e);
    } else if e.EDisableEmail? {
      EmailRemovalMovesOn(s, e);
    } else if e.ESetPassword? {
      PasswordMovesOn(s, e);
    }
  }

  lemma TotpRemovalMovesOn(s: State, e: Event)
    requires e.EDisableTotp?
    ensures var t := Step(s, e).0;
            if Step(s, e).1.Failed? then t == s
            else
              && t.users == BumpEpoch(s, e.uid).users && t.next == s.next
              && t.logins == LoginsWithout(s.logins, e.uid, Some(e.session))
  {
  }

  lemma EmailRemovalMovesOn(s: State, e: Event)
    requires e.EDisableEmail?
    ensures var t := Step(s, e).0;
            if Step(s, e).1.Failed? then t == s
            else
              && t.users == BumpEpoch(s, e.uid).users && t.next == s.next
              && t.logins == LoginsWithout(s.logins, e.uid, Some(e.session))
  {
  }

  lemma PasswordMovesOn(s: State, e: Event)
    requires e.ESetPassword?
    ensures var t := Step(s, e).0;
            if Step(s, e).1.Failed? then t == s
            else
              && t.users == BumpEpoch(s, e.uid).users && t.next == s.next
              && t.logins == LoginsWithout(s.logins, e.uid, Some(e.session))
  {
  }

  // ---- Sessions ----

  /** The challenge a session opened by the step comes from; a login without second factor has none. */
  function Source(e: Event): (id: Option<nat>) {
    match e
    case EComplete2FA(id, _) => Some(id)
    case ECompleteTotp(_, _, _, _, _, path, _) => Challenged(path)
    case ECompleteEmail(_, _, _, _, path, _) => Challenged(path)
    case _ => None
  }

  predicate TouchesLogins(e: Event) {
    MovesCredentials(e) || e.EComplete2FA? || e.ECompleteTotp? || e.ECompleteEmail? || e.EIssueSession?
    || e.ERevokeSession?
    || e.EDeleteUser?
  }

  lemma LoginsStay(s: State, e: Event)
    requires !TouchesLogins(e)
    ensures Step(s, e).0.logins == s.logins
  {
  }

  /** Sessions end. */
  ghost predicate LoginsGo(s: State, t: State) {
    forall l :: l in t.logins ==> l in s.logins && t.logins[l] == s.logins[l]
  }

  /** A session is opened for `uid` under a fresh id. */
  ghost predicate LoginOpened(s: State, t: State, session: nat, uid: nat, from: Option<nat>) {
    s.next <= session < t.next && t.logins == s.logins[session := Login(uid, from)]
  }

  ghost predicate LoginsEvolve(s: State, t: State, e: Event) {
    LoginsGo(s, t) || (!Step(s, e).1.Failed? && exists session, uid :: LoginOpened(s, t, session, uid, Source(e)))
  }

  lemma StepEvolvesLogins(s: State, e: Event)
    ensures LoginsEvolve(s, Step(s, e).0, e)
  {
    if !TouchesLogins(e) {
      LoginsStay(s, e);
    } else if MovesCredentials(e) {
      CredentialsMoveOn(s, e);
    } else if e.EComplete2FA? || e.ECompleteTotp? || e.ECompleteEmail? {
      ProvingEvolvesLogins(s, e);
    } else {
      AccountStepEvolvesLogins(s, e);
    }
  }

  lemma ProvingEvolvesLogins(s: State, e: Event)
    requires e.EComplete2FA? || e.ECompleteTotp? || e.ECompleteEmail?
    ensures LoginsEvolve(s, Step(s, e).0, e)
  {
    if !Step(s, e).1.Failed? && Source(e).Some? {
      ChallengeOpensLogin(s, e, Source(e).value);
    } else {
      NothingOpensLogin(s, e);
    }
  }

  lemma NothingOpensLogin(s: State, e: Event)
    requires e.EComplete2FA? || e.ECompleteTotp? || e.ECompleteEmail?
    requires Step(s, e).1.Failed? || Source(e).None?
    ensures Step(s, e).0.logins == s.logins
  {
    if Step(s, e).1.Failed? {
      FailureChangesNothing(s, e);
    }
  }

  /** A transaction that fails leaves everything as it was. */
  lemma FailureChangesNothing(s: State, e: Event)
    requires Step(s, e).1.Failed?
    ensures Step(s, e).0 == s
  {
    if UsesProof(e) {
      FailedUseChangesNothing(s, e);
    } else if IsLong(e) {
      FailedLoginChangesNothing(s, e);
    }
  }

  lemma FailedUseChangesNothing(s: State, e: Event)
    requires UsesProof(e) && Step(s, e).1.Failed?
    ensures Step(s, e).0 == s
  {
  }

  lemma FailedLoginChangesNothing(s: State, e: Event)
    requires (e.EComplete2FA? || e.ECompleteTotp? || e.ECompleteEmail?) && Step(s, e).1.Failed?
    ensures Step(s, e).0 == s
  {
  }

  lemma AccountStepEvolvesLogins(s: State, e: Event)
    requires e.EIssueSession? || e.ERevokeSession? || e.EDeleteUser?
    ensures LoginsEvolve(s, Step(s, e).0, e)
  {
    if e.EIssueSession? && Step(s, e).1.Done? {
      assert LoginOpened(s, Step(s, e).0, s.next, e.uid, Source(e));
    }
  }

  /** What succeeds from a challenge spends it, which was live, and opens one session for its account. */
  ghost predicate OpensFrom(s: State, t: State, id: nat) {
    && LiveChallenge(s, id)
    && t.ch.rows == s.ch.rows[id := s.ch.rows[id].(consumed := true)]
    && exists session :: LoginOpened(s, t, session, s.ch.rows[id].user, Some(id))
  }

  lemma ChallengeOpensLogin(s: State, e: Event, id: nat)
    requires !Step(s, e).1.Failed? && Source(e) == Some(id)
    ensures OpensFrom(s, Step(s, e).0, id)
  {
    if e.EComplete2FA? {
      LoginOpensFrom(s, e);
    } else if e.ECompleteTotp? {
      TotpEnrollmentOpensFrom(s, e, id);
    } else {
      EmailEnrollmentOpensFrom(s, e, id);
    }
  }

  lemma LoginOpensFrom(s: State, e: Event)
    requires e.EComplete2FA? && !Step(s, e).1.Failed?
    ensures OpensFrom(s, Step(s, e).0, e.id)
  {
    LoginProofLeavesRows(s, s.ch.rows[e.id].user, e.id, e.login);
    LoginProofLeavesLogins(s, s.ch.rows[e.id].user, e.id, e.login);
    assert LoginOpened(s, Step(s, e).0, s.next, s.ch.rows[e.id].user, Some(e.id));
  }

  lemma LoginProofLeavesLogins(s: State, uid: nat, id: nat, login: ChallengeProof)
    requires SpendLoginProof(s, uid, id, login).Some?
    ensures var t := SpendLoginProof(s, uid, id, login).value.0;
            t.logins == s.logins && t.next == s.next && t.users == s.users
  {
  }

  lemma FinishOpensFrom(s: State, t: State, uid: nat, epoch: nat, id: nat)
    requires FinishPreAuth(t, uid, epoch, PreAuth(id)).Some? && LiveUser(s, uid, epoch)
    requires t.ch == s.ch && t.now == s.now && t.logins == s.logins && t.next >= s.next
    ensures OpensFrom(s, FinishPreAuth(t, uid, epoch, PreAuth(id)).value, id) && s.ch.rows[id].user == uid
  {
    assert LoginOpened(s, FinishPreAuth(t, uid, epoch, PreAuth(id)).value, t.next, uid, Some(id));
  }

  lemma TotpEnrollmentOpensFrom(s: State, e: Event, id: nat)
    requires e.ECompleteTotp? && e.path == PreAuth(id) && !Step(s, e).1.Failed?
    ensures OpensFrom(s, Step(s, e).0, id) && s.ch.rows[id].user == e.uid
  {
    var fa := ConfirmTotp(s.fa, e.uid, e.seed, e.epoch, e.counter);
    FinishOpensFrom(s, ReplaceRecovery(s.(fa := fa), e.uid, e.digests), e.uid, e.epoch, id);
  }

  lemma EmailEnrollmentOpensFrom(s: State, e: Event, id: nat)
    requires e.ECompleteEmail? && e.path == PreAuth(id) && !Step(s, e).1.Failed?
    ensures OpensFrom(s, Step(s, e).0, id) && s.ch.rows[id].user == e.uid
  {
    var fa := SpendFactorCode(s, e.uid, false, e.digest);
    var t := s.(fa := ConfirmEmail(fa, e.uid, e.epoch));
    FinishOpensFrom(s, ReplaceRecovery(t, e.uid, e.digests), e.uid, e.epoch, id);
  }

  /** The step opens a session from the challenge. */
  ghost predicate Opens(s: State, e: Event, id: nat) {
    exists l :: l in Step(s, e).0.logins && l !in s.logins && Step(s, e).0.logins[l].from == Some(id)
  }

  lemma OpensOnlyFromSource(s: State, e: Event, id: nat)
    requires Opens(s, e, id)
    ensures !Step(s, e).1.Failed? && Source(e) == Some(id) && OpensFrom(s, Step(s, e).0, id)
  {
    StepEvolvesLogins(s, e);
    ChallengeOpensLogin(s, e, id);
  }

  // ---- Artefacts ----

  /** Known artefacts keep what they are bound to and never come back from being spent; rows may go. */
  ghost predicate ArtefactsEvolve(s: State, t: State) {
    forall a :: a < s.next && a in t.artefacts ==>
      && a in s.artefacts && (s.artefacts[a].consumed ==> t.artefacts[a].consumed)
      && t.artefacts[a] == s.artefacts[a].(consumed := t.artefacts[a].consumed)
  }

  lemma StepEvolvesArtefacts(s: State, e: Event)
    ensures ArtefactsEvolve(s, Step(s, e).0)
  {
    if !TouchesArtefacts(e) {
      ArtefactsStay(s, e);
    } else if e.EDeleteUser? || e.ESweep? {
      DeletionEvolvesArtefacts(s, e);
    } else {
      UseEvolvesArtefacts(s, e);
    }
  }

  lemma UseEvolvesArtefacts(s: State, e: Event)
    requires e.EMint? || e.ERedeem? || e.ETakeLinkState?
    ensures ArtefactsEvolve(s, Step(s, e).0)
  {
  }

  lemma DeletionEvolvesArtefacts(s: State, e: Event)
    requires e.EDeleteUser? || e.ESweep?
    ensures ArtefactsEvolve(s, Step(s, e).0)
  {
  }

  /** The account's credentials have moved past the epoch, or the account is gone. */
  predicate Moved(s: State, uid: nat, epoch: nat) {
    uid < s.next && (uid !in s.users || s.users[uid].epoch > epoch)
  }

  lemma MovedStays(s: State, e: Event, uid: nat, epoch: nat)
    requires Moved(s, uid, epoch)
    ensures Moved(Step(s, e).0, uid, epoch)
  {
    StepEvolvesUsers(s, e);
    ClocksRun(s, e);
  }

  lemma {:induction false} PlayStaysMoved(s: State, es: seq<Event>, uid: nat, epoch: nat)
    requires Moved(s, uid, epoch)
    ensures Moved(Play(s, es), uid, epoch)
  {
    if es != [] {
      PlayStaysMoved(s, es[..|es| - 1], uid, epoch);
      MovedStays(Play(s, es[..|es| - 1]), es[|es| - 1], uid, epoch);
    }
  }
}
