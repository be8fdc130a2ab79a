/** What an account is promised about its second factors and its credential epoch, over every run. */
module FactorTheorems {
  import opened Wrappers
  import opened TwoFactorModel
  import ChallengeRuns
  import opened FactorRuns
  import opened TwoFactorFrames

  // ---- Every proof is spent at most once ----

  /** One thing a user can prove a second factor with. */
  datatype Proof =
    | OfTotp(seed: nat, counter: int)
    | OfRecovery(user: nat, digest: nat)
    | OfLoginCode(user: nat, challenge: nat, digest: nat)
    | OfFactorCode(user: nat, stepUp: bool, digest: nat)

  function AsProof(uid: nat, proof: FactorProof): (p: Option<Proof>) {
    match proof
    case TotpProof(seed, counter) => Some(OfTotp(seed, counter))
    case RecoveryProof(digest) => Some(OfRecovery(uid, digest))
    case StepUpProof(digest) => Some(OfFactorCode(uid, true, digest))
    case NoProof => None
  }

  function LoginProof(uid: nat, id: nat, login: ChallengeProof, via: Method): (p: Option<Proof>) {
    match via
    case ByTotp => if login.totp.Some? then Some(OfTotp(login.totp.value.0, login.totp.value.1)) else None
    case ByEmail => if login.email.Some? then Some(OfLoginCode(uid, id, login.email.value)) else None
    case ByRecovery => if login.recovery.Some? then Some(OfRecovery(uid, login.recovery.value)) else None
  }

  /** The proof a step was accepted with. */
  ghost function SpentBy(s: State, e: Event): (p: Option<Proof>) {
    var reply := Step(s, e).1;
    if reply.Failed? then None
    else
      match e
      case EComplete2FA(id, login) =>
        if reply.LoggedIn? && id in s.ch.rows then LoginProof(s.ch.rows[id].user, id, login, reply.via) else None
      case ECompleteTotp(_, _, seed, counter, _, _, _) => Some(OfTotp(seed, counter))
      case ECompleteEmail(uid, _, digest, _, _, _) => Some(OfFactorCode(uid, false, digest))
      case EDisableTotp(uid, _, _, proof, _) => AsProof(uid, proof)
      case EDisableEmail(uid, _, _, proof, _) => AsProof(uid, proof)
      case ERegenerate(uid, _, _, proof, _, _) => AsProof(uid, proof)
      case EConsumeSecondFactor(uid, proof) => AsProof(uid, proof)
      case ESetPassword(uid, _, _, proof, _) => if HasFactor(s.fa, uid) then AsProof(uid, proof) else None
      case _ => None
  }

  /** The step hands the code out (again); a time step is never handed out twice. */
  ghost predicate Issues(s: State, e: Event, p: Proof) {
    match p
    case OfTotp(_, _) => false
    case OfRecovery(user, digest) => IssuesRecovery(e, user, digest)
    case OfLoginCode(user, challenge, digest) =>
      e.ESendCode? && e.id == challenge && e.digest == digest && e.id in s.ch.rows && s.ch.rows[e.id].user == user
    case OfFactorCode(user, stepUp, digest) => IssuesFactorCode(e, user, stepUp, digest)
  }

  ghost predicate NeverIssues(s: State, es: seq<Event>, p: Proof) {
    es == [] || (NeverIssues(s, es[..|es| - 1], p) && !Issues(Play(s, es[..|es| - 1]), es[|es| - 1], p))
  }

  /** No row is left that would accept the proof. */
  ghost predicate Dead(s: State, p: Proof) {
    match p
    case OfTotp(seed, counter) =>
      && seed < s.next
      && forall u :: u in s.fa.totp && s.fa.totp[u].seed == seed ==>
           s.fa.totp[u].confirmed && s.fa.totp[u].counter.Some? && s.fa.totp[u].counter.value >= counter
    case OfRecovery(user, digest) =>
      forall id :: id in s.fa.recovery && s.fa.recovery[id].user == user && s.fa.recovery[id].digest == digest ==>
        s.fa.recovery[id].used
    case OfLoginCode(user, challenge, digest) =>
      forall c :: c in s.ch.codes ==> !CodeMatches(s, c, user, challenge, digest)
    case OfFactorCode(user, stepUp, digest) =>
      forall c :: c in s.fa.codes ==> !FactorCodeMatches(s, c, user, stepUp, digest)
  }

  lemma DeadIsRefused(s: State, e: Event, p: Proof)
    requires Dead(s, p)
    ensures SpentBy(s, e) != Some(p)
    ensures (p.OfTotp? && SpentBy(s, e).Some? && SpentBy(s, e).value.OfTotp? && SpentBy(s, e).value.seed == p.seed) ==>
              p.counter < SpentBy(s, e).value.counter
  {
  }

  lemma EvolvingKeepsDead(s: State, t: State, e: Event, p: Proof)
    requires Dead(s, p) && !Issues(s, e, p) && !p.OfLoginCode?
    requires FactorsEvolve(s.fa, t.fa, e, s.next) && t.next >= s.next && t.now >= s.now
    ensures Dead(t, p)
  {
  }

  /** A login code stays as it is, is spent or was mailed by the step. */
  ghost predicate LoginCodesEvolve(s: State, t: State, e: Event) {
    forall c :: c in t.ch.codes ==>
      || (&& c in s.ch.codes
          && (t.ch.codes[c] == s.ch.codes[c] || (t.ch.codes[c].consumed && t.ch.codes[c].user == s.ch.codes[c].user)))
      || Issues(s, e, OfLoginCode(t.ch.codes[c].user, t.ch.codes[c].challenge, t.ch.codes[c].digest))
  }

  lemma CreationEvolvesCodes(s: State, e: Event)
    requires e.ECreateChallenge?
    ensures LoginCodesEvolve(s, Step(s, e).0, e)
  {
  }

  lemma MailingEvolvesCodes(s: State, e: Event)
    requires e.ESendCode?
    ensures LoginCodesEvolve(s, Step(s, e).0, e)
  {
  }

  lemma LoginProofEvolvesCodes(s: State, uid: nat, id: nat, login: ChallengeProof, e: Event)
    requires SpendLoginProof(s, uid, id, login).Some?
    ensures LoginCodesEvolve(s, SpendLoginProof(s, uid, id, login).value.0, e)
  {
  }

  lemma LoginEvolvesCodes(s: State, e: Event)
    requires e.EComplete2FA?
    ensures LoginCodesEvolve(s, Step(s, e).0, e)
  {
    if !Step(s, e).1.Failed? {
      LoginProofEvolvesCodes(s, s.ch.rows[e.id].user, e.id, e.login, e);
      CompletionIs(s, e);
    }
  }

  lemma CompletionIs(s: State, e: Event)
    requires e.EComplete2FA? && !Step(s, e).1.Failed?
    ensures e.id in s.ch.rows && SpendLoginProof(s, s.ch.rows[e.id].user, e.id, e.login).Some?
    ensures Step(s, e).0.ch.codes == SpendLoginProof(s, s.ch.rows[e.id].user, e.id, e.login).value.0.ch.codes
  {
  }

  lemma DeletionEvolvesCodes(s: State, e: Event)
    requires e.EDeleteUser? || e.ESweep?
    ensures LoginCodesEvolve(s, Step(s, e).0, e)
  {
  }

  lemma StepEvolvesCodes(s: State, e: Event)
    ensures LoginCodesEvolve(s, Step(s, e).0, e)
  {
    if !TouchesCodes(e) {
      CodesStay(s, e);
    } else if e.ECreateChallenge? {
      CreationEvolvesCodes(s, e);
    } else if e.ESendCode? {
      MailingEvolvesCodes(s, e);
    } else if e.EComplete2FA? {
      LoginEvolvesCodes(s, e);
    } else {
      DeletionEvolvesCodes(s, e);
    }
  }

  lemma DeadStays(s: State, e: Event, p: Proof)
    requires Dead(s, p) && !Issues(s, e, p)
    ensures Dead(Step(s, e).0, p)
  {
    ClocksRun(s, e);
    if p.OfLoginCode? {
      StepEvolvesCodes(s, e);
    } else {
      StepEvolvesFactors(s, e);
      EvolvingKeepsDead(s, Step(s, e).0, e, p);
    }
  }

  lemma {:induction false} PlayKeepsDead(s: State, es: seq<Event>, p: Proof)
    requires Dead(s, p) && NeverIssues(s, es, p)
    ensures Dead(Play(s, es), p)
  {
    if es != [] {
      PlayKeepsDead(s, es[..|es| - 1], p);
      DeadStays(Play(s, es[..|es| - 1]), es[|es| - 1], p);
    }
  }

  /** Whatever factor row accepted a proof refuses it from then on. */
  lemma ProofIsSpent(s: State, uid: nat, proof: FactorProof)
    requires FactorInv(s) && SpendProof(s, uid, proof).Some?
    ensures Dead(s.(fa := SpendProof(s, uid, proof).value), AsProof(uid, proof).value)
  {
  }

  lemma LoginSpends(s: State, e: Event, p: Proof)
    requires FactorInv(s) && e.EComplete2FA? && SpentBy(s, e) == Some(p)
    ensures Dead(Step(s, e).0, p)
  {
  }

  lemma ConfirmationSpends(s: State, e: Event, p: Proof)
    requires FactorInv(s) && (e.ECompleteTotp? || e.ECompleteEmail?) && SpentBy(s, e) == Some(p)
    ensures Dead(Step(s, e).0, p)
  {
  }

  /** What a transaction that spends a proof does after spending it leaves the proof dead. */
  lemma RestEvolves(s: State, e: Event)
    requires UsesProof(e) && SpendProof(s, e.uid, e.proof).Some? && Step(s, e).1.Done?
    requires e.ESetPassword? ==> HasFactor(s.fa, e.uid)
    ensures FactorsEvolve(SpendProof(s, e.uid, e.proof).value, Step(s, e).0.fa, e, s.next)
  {
    var t := s.(fa := SpendProof(s, e.uid, e.proof).value);
    SpendingEvolves(t.fa, t.fa, e, s.next);
    if e.EDisableTotp? || e.EDisableEmail? {
      RemovalRemoves(s, e);
      ShrinkingEvolves(t.fa, t.fa, Step(s, e).0.fa, e, s.next);
    } else if e.ERegenerate? {
      RegenerationIs(s, e);
      ReplacementEvolves(t.fa, t, e.uid, e.digests, e, s.next);
    } else {
      UseIs(s, e);
    }
  }

  lemma UseIs(s: State, e: Event)
    requires (e.EConsumeSecondFactor? || e.ESetPassword?) && SpendProof(s, e.uid, e.proof).Some? && Step(s, e).1.Done?
    requires e.ESetPassword? ==> HasFactor(s.fa, e.uid)
    ensures Step(s, e).0.fa == SpendProof(s, e.uid, e.proof).value
  {
  }

  lemma UseSpends(s: State, e: Event, p: Proof)
    requires FactorInv(s) && UsesProof(e) && SpentBy(s, e) == Some(p) && !Issues(s, e, p)
    ensures Dead(Step(s, e).0, p)
  {
    var t := s.(fa := SpendProof(s, e.uid, e.proof).value);
    ProofIsSpent(s, e.uid, e.proof);
    RestEvolves(s, e);
    ClocksRun(s, e);
    EvolvingKeepsDead(t, Step(s, e).0, e, p);
  }

  lemma SpendingKills(s: State, e: Event, p: Proof)
    requires FactorInv(s) && SpentBy(s, e) == Some(p) && !Issues(s, e, p)
    ensures Dead(Step(s, e).0, p)
  {
    if e.EComplete2FA? {
      LoginSpends(s, e, p);
    } else if e.ECompleteTotp? || e.ECompleteEmail? {
      ConfirmationSpends(s, e, p);
    } else {
      UseSpends(s, e, p);
    }
  }

  /**
    A proof accepted once, by whatever transaction, is not accepted again by any
    other before it is handed out anew; a time step is never handed out anew.
  */
  lemma ProofsAreSpentOnce(es: seq<Event>, e: Event, more: seq<Event>, f: Event, p: Proof)
    requires SpentBy(Run(es), e) == Some(p) && !Issues(Run(es), e, p)
    requires NeverIssues(Step(Run(es), e).0, more, p)
    ensures SpentBy(Play(Step(Run(es), e).0, more), f) != Some(p)
  {
    RunKeepsFactors(es);
    SpendingKills(Run(es), e, p);
    PlayKeepsDead(Step(Run(es), e).0, more, p);
    DeadIsRefused(Play(Step(Run(es), e).0, more), f, p);
  }

  lemma {:induction false} TotpIsNeverIssued(s: State, es: seq<Event>, p: Proof)
    requires p.OfTotp?
    ensures NeverIssues(s, es, p)
  {
    if es != [] {
      TotpIsNeverIssued(s, es[..|es| - 1], p);
    }
  }

  /**
    The time steps accepted for one authenticator secret strictly increase over
    the whole run, the confirmation of the secret being the first of them.
  */
  lemma TimeStepsIncrease(es: seq<Event>, e: Event, more: seq<Event>, f: Event, seed: nat, first: int, second: int)
    requires SpentBy(Run(es), e) == Some(OfTotp(seed, first))
    requires SpentBy(Play(Step(Run(es), e).0, more), f) == Some(OfTotp(seed, second))
    ensures first < second
  {
    var p := OfTotp(seed, first);
    RunKeepsFactors(es);
    SpendingKills(Run(es), e, p);
    TotpIsNeverIssued(Step(Run(es), e).0, more, p);
    PlayKeepsDead(Step(Run(es), e).0, more, p);
    DeadIsRefused(Play(Step(Run(es), e).0, more), f, p);
  }

  // ---- Nothing is gained without a proof ----

  /** What spends proofs, regenerates codes or leaves the factors alone removes none. */
  lemma UseKeepsConfirmed(s: State, e: Event)
    requires !TouchesFactors(e) || e.EConsumeSecondFactor? || e.ESetPassword? || e.EComplete2FA? || e.ERegenerate?
    ensures Step(s, e).0.fa.totp.Keys == s.fa.totp.Keys && Step(s, e).0.fa.emails == s.fa.emails
    ensures forall u :: u in s.fa.totp ==> Step(s, e).0.fa.totp[u].confirmed == s.fa.totp[u].confirmed
  {
    if !TouchesFactors(e) {
      FactorsStay(s, e);
    } else if !e.ERegenerate? {
      UseOnlySpends(s, e);
    } else if SpendProof(s, e.uid, e.proof).Some? {
      ProofOnlySpends(s, e.uid, e.proof);
    }
  }

  lemma RemovalKeepsOther(s: State, e: Event)
    requires e.EDisableTotp? || e.EDisableEmail?
    ensures e.EDisableTotp? ==> Step(s, e).0.fa.emails == s.fa.emails
    ensures forall u :: TotpConfirmed(s.fa, u) && !TotpConfirmed(Step(s, e).0.fa, u) ==> e.EDisableTotp? && u == e.uid
    ensures forall u :: EmailConfirmed(s.fa, u) && !EmailConfirmed(Step(s, e).0.fa, u) ==>
            e.EDisableEmail? && u == e.uid
    ensures !Step(s, e).1.Failed? ==> SpentBy(s, e).Some?
  {
    if Step(s, e).1.Done? {
      ProofOnlySpends(s, e.uid, e.proof);
      if e.EDisableTotp? {
        TotpRemovalIs(s, e);
      } else {
        EmailRemovalIs(s, e);
      }
    }
  }

  lemma EnrollmentKeepsConfirmed(s: State, e: Event, uid: nat)
    requires e.EStartTotp? || e.EStartEmail? || e.ESendStepUp? || e.ECompleteTotp? || e.ECompleteEmail?
    ensures TotpConfirmed(s.fa, uid) ==> TotpConfirmed(Step(s, e).0.fa, uid)
    ensures EmailConfirmed(s.fa, uid) ==> EmailConfirmed(Step(s, e).0.fa, uid)
  {
    if e.ECompleteTotp? && !Step(s, e).1.Failed? {
      TotpConfirmationIs(s, e);
    } else if e.ECompleteEmail? && !Step(s, e).1.Failed? {
      EmailConfirmationIs(s, e);
    }
  }

  /** A confirmed authenticator goes away only with its account, or against a proof accepted in the same step. */
  lemma TotpRemovalNeedsProof(s: State, e: Event, uid: nat)
    requires TotpConfirmed(s.fa, uid) && !TotpConfirmed(Step(s, e).0.fa, uid)
    ensures e == EDeleteUser(uid) || (e.EDisableTotp? && e.uid == uid && SpentBy(s, e).Some?)
  {
    if e.EDisableTotp? || e.EDisableEmail? {
      RemovalKeepsOther(s, e);
    } else if e.EStartTotp? || e.EStartEmail? || e.ESendStepUp? || e.ECompleteTotp? || e.ECompleteEmail? {
      EnrollmentKeepsConfirmed(s, e, uid);
    } else if !e.EDeleteUser? && !e.ESweep? {
      UseKeepsConfirmed(s, e);
    }
  }

  lemma EmailRemovalNeedsProof(s: State, e: Event, uid: nat)
    requires EmailConfirmed(s.fa, uid) && !EmailConfirmed(Step(s, e).0.fa, uid)
    ensures e == EDeleteUser(uid) || (e.EDisableEmail? && e.uid == uid && SpentBy(s, e).Some?)
  {
    if e.EDisableTotp? || e.EDisableEmail? {
      RemovalKeepsOther(s, e);
    } else if e.EStartTotp? || e.EStartEmail? || e.ESendStepUp? || e.ECompleteTotp? || e.ECompleteEmail? {
      EnrollmentKeepsConfirmed(s, e, uid);
    } else if !e.EDeleteUser? && !e.ESweep? {
      UseKeepsConfirmed(s, e);
    }
  }

  /** A password is added to an account with a confirmed factor only against a proof spent in the same step. */
  lemma PasswordNeedsProof(s: State, e: Event)
    requires e.ESetPassword? && Step(s, e).1.Done?
    requires || (e.uid in s.fa.totp && s.fa.totp[e.uid].confirmed)
             || (e.uid in s.fa.emails && s.fa.emails[e.uid].confirmed)
    ensures SpentBy(s, e).Some? && SpentBy(s, e) == AsProof(e.uid, e.proof)
  {
  }

  /** The proof is one of the account the challenge was opened for: of a factor it has, or of the one it enrolls. */
  ghost predicate Proves(s: State, t: State, id: nat, p: Proof)
    requires id in s.ch.rows
  {
    var row := s.ch.rows[id];
    match row.purpose
    case Totp2fa =>
      (match p
       case OfTotp(seed, _) => TotpConfirmed(s.fa, row.user) && s.fa.totp[row.user].seed == seed
       case OfRecovery(user, _) => user == row.user && HasFactor(s.fa, row.user)
       case OfLoginCode(user, challenge, _) => user == row.user && challenge == id && !row.proven
       case OfFactorCode(_, _, _) => false)
    case Enroll2fa =>
      (match p
       case OfTotp(seed, _) =>
         && TotpPends(s.fa, row.user, seed, row.epoch, None)
         && TotpConfirmed(t.fa, row.user)
       case OfFactorCode(user, stepUp, _) => user == row.user && !stepUp && EmailConfirmed(t.fa, row.user)
       case OfRecovery(_, _) => false
       case OfLoginCode(_, _, _) => false)
    case ConvertGoogle => false
  }

  /**
    A session is opened from a challenge only while the challenge is live and
    against a proof of its own account, which is spent with it: of a factor the
    account has, or of the one it enrolls before its first session.
  */
  lemma SessionNeedsProof(es: seq<Event>, e: Event, id: nat)
    requires Opens(Run(es), e, id)
    ensures LiveChallenge(Run(es), id) && SpentBy(Run(es), e).Some?
    ensures Proves(Run(es), Step(Run(es), e).0, id, SpentBy(Run(es), e).value)
    ensures Dead(Step(Run(es), e).0, SpentBy(Run(es), e).value)
  {
    var s := Run(es);
    RunKeepsFactors(es);
    OpensOnlyFromSource(s, e, id);
    if e.EComplete2FA? {
      ChallengeRuns.RunKeepsInv(es);
      LoginProves(s, e);
    } else {
      EnrollmentProves(s, e, id);
    }
    SpendingKills(s, e, SpentBy(s, e).value);
  }

  /** The method reported is the one whose proof was accepted. */
  lemma AcceptedProof(s: State, uid: nat, id: nat, login: ChallengeProof)
    requires SpendLoginProof(s, uid, id, login).Some?
    ensures match SpendLoginProof(s, uid, id, login).value.1
            case ByTotp => login.totp.Some? && TotpAccepts(s.fa, uid, login.totp.value.0, login.totp.value.1)
            case ByEmail => login.email.Some? && HasCode(s, uid, id, login.email.value)
            case ByRecovery => login.recovery.Some? && HasRecovery(s.fa, uid, login.recovery.value)
  {
  }

  lemma RecoveryMeansFactor(s: State, uid: nat, digest: nat)
    requires FactorInv(s) && HasRecovery(s.fa, uid, digest)
    ensures HasFactor(s.fa, uid)
  {
    var r :| r in s.fa.recovery && RecoveryMatches(s.fa, r, uid, digest);
    assert RecoveryInv(s, r);
  }

  lemma LoginProofIsOwn(s: State, t: State, id: nat, login: ChallengeProof)
    requires FactorInv(s) && ChallengeRuns.Inv(s) && id in s.ch.rows && s.ch.rows[id].purpose == Totp2fa
    requires SpendLoginProof(s, s.ch.rows[id].user, id, login).Some?
    ensures var uid := s.ch.rows[id].user;
            var p := LoginProof(uid, id, login, SpendLoginProof(s, uid, id, login).value.1);
            p.Some? && Proves(s, t, id, p.value)
  {
    var uid := s.ch.rows[id].user;
    AcceptedProof(s, uid, id, login);
    match SpendLoginProof(s, uid, id, login).value.1
    case ByTotp =>
    case ByEmail => ChallengeRuns.MailedCodeIsUnproven(s, uid, id, login.email.value);
    case ByRecovery => RecoveryMeansFactor(s, uid, login.recovery.value);
  }

  lemma LoginProves(s: State, e: Event)
    requires FactorInv(s) && ChallengeRuns.Inv(s) && e.EComplete2FA? && !Step(s, e).1.Failed?
    ensures e.id in s.ch.rows && SpentBy(s, e).Some? && Proves(s, Step(s, e).0, e.id, SpentBy(s, e).value)
    ensures !Issues(s, e, SpentBy(s, e).value)
  {
    AcceptedLogin(s, e);
    LoginProofIsOwn(s, Step(s, e).0, e.id, e.login);
  }

  lemma AcceptedLogin(s: State, e: Event)
    requires e.EComplete2FA? && !Step(s, e).1.Failed?
    ensures LiveChallenge(s, e.id) && s.ch.rows[e.id].purpose == Totp2fa
    ensures var spent := SpendLoginProof(s, s.ch.rows[e.id].user, e.id, e.login);
            spent.Some? && SpentBy(s, e) == LoginProof(s.ch.rows[e.id].user, e.id, e.login, spent.value.1)
            && SpentBy(s, e).Some?
  {
  }

  lemma EnrollmentProves(s: State, e: Event, id: nat)
    requires (e.ECompleteTotp? || e.ECompleteEmail?) && e.path == PreAuth(id) && !Step(s, e).1.Failed?
    ensures id in s.ch.rows && SpentBy(s, e).Some? && Proves(s, Step(s, e).0, id, SpentBy(s, e).value)
    ensures !Issues(s, e, SpentBy(s, e).value)
  {
    EnrollmentLetIn(s, e, id);
    if e.ECompleteTotp? {
      TotpConfirmationIs(s, e);
    } else {
      EmailConfirmationIs(s, e);
    }
  }

  lemma EnrollmentLetIn(s: State, e: Event, id: nat)
    requires (e.ECompleteTotp? || e.ECompleteEmail?) && e.path == PreAuth(id) && !Step(s, e).1.Failed?
    ensures id in s.ch.rows && s.ch.rows[id].user == e.uid && s.ch.rows[id].purpose == Enroll2fa
            && s.ch.rows[id].epoch == e.epoch
  {
  }
}
