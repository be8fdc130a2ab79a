/** Second factors, the proofs they accept and the credential epoch, over every run. */
module FactorRuns {
  import opened Wrappers
  import opened TwoFactorFrames
  import opened TwoFactorModel

  // ---- Which factor rows exist together ----

  /** Recovery codes belong to an account with a confirmed factor. */
  predicate RecoveryInv(s: State, id: nat)
    requires id in s.fa.recovery
  {
    id < s.next && HasFactor(s.fa, s.fa.recovery[id].user)
  }

  /** An unspent step-up code belongs to an account whose e-mail factor is confirmed. */
  predicate FactorCodeInv(s: State, c: nat)
    requires c in s.fa.codes
  {
    c < s.next && (s.fa.codes[c].stepUp && !s.fa.codes[c].consumed ==> EmailConfirmed(s.fa, s.fa.codes[c].user))
  }

  /** No two accounts share an authenticator secret. */
  predicate SeedInv(s: State, uid: nat)
    requires uid in s.fa.totp
  {
    s.fa.totp[uid].seed < s.next && forall v :: v in s.fa.totp && s.fa.totp[v].seed == s.fa.totp[uid].seed ==> v == uid
  }

  ghost predicate FactorInv(s: State) {
    && (forall id :: id in s.fa.recovery ==> RecoveryInv(s, id))
    && (forall c :: c in s.fa.codes ==> FactorCodeInv(s, c))
    && (forall u :: u in s.fa.totp ==> SeedInv(s, u))
  }

  predicate NotBehind(a: Option<int>, b: Option<int>) {
    a.Some? ==> b.Some? && a.value <= b.value
  }

  /** Spending a proof removes no factor, adds no row and unspends nothing. */
  ghost predicate OnlySpends(fa: Factors, ga: Factors) {
    && ga.emails == fa.emails && ga.totp.Keys == fa.totp.Keys && ga.codes.Keys == fa.codes.Keys
    && ga.recovery.Keys == fa.recovery.Keys
    && (forall u :: u in fa.totp ==>
          ga.totp[u] == fa.totp[u].(counter := ga.totp[u].counter) && NotBehind(fa.totp[u].counter, ga.totp[u].counter))
    && (forall c :: c in fa.codes ==> ga.codes[c] == fa.codes[c] || ga.codes[c] == fa.codes[c].(consumed := true))
    && (forall id :: id in fa.recovery ==>
          ga.recovery[id] == fa.recovery[id] || ga.recovery[id] == fa.recovery[id].(used := true))
  }

  lemma TotpOnlySpends(fa: Factors, uid: nat, seed: nat, counter: int)
    requires TotpAccepts(fa, uid, seed, counter)
    ensures OnlySpends(fa, SpendTotp(fa, uid, counter))
  {
  }

  lemma RecoveryOnlySpends(fa: Factors, uid: nat, digest: nat)
    ensures OnlySpends(fa, SpendRecovery(fa, uid, digest))
  {
  }

  lemma FactorCodeOnlySpends(s: State, uid: nat, stepUp: bool, digest: nat)
    ensures OnlySpends(s.fa, SpendFactorCode(s, uid, stepUp, digest))
  {
  }

  lemma ProofOnlySpends(s: State, uid: nat, proof: FactorProof)
    requires SpendProof(s, uid, proof).Some?
    ensures OnlySpends(s.fa, SpendProof(s, uid, proof).value)
  {
    match proof
    case TotpProof(seed, counter) => TotpOnlySpends(s.fa, uid, seed, counter);
    case RecoveryProof(digest) => RecoveryOnlySpends(s.fa, uid, digest);
    case StepUpProof(digest) => FactorCodeOnlySpends(s, uid, true, digest);
    case NoProof =>
  }

  lemma LoginOnlySpends(s: State, uid: nat, id: nat, proof: ChallengeProof)
    requires SpendLoginProof(s, uid, id, proof).Some?
    ensures OnlySpends(s.fa, SpendLoginProof(s, uid, id, proof).value.0.fa)
    ensures SpendLoginProof(s, uid, id, proof).value.0.next == s.next
  {
    if SpendLoginProof(s, uid, id, proof).value.1 == ByTotp {
      TotpOnlySpends(s.fa, uid, proof.totp.value.0, proof.totp.value.1);
    } else if SpendLoginProof(s, uid, id, proof).value.1 == ByRecovery {
      RecoveryOnlySpends(s.fa, uid, proof.recovery.value);
    }
  }

  /** Spending a proof or completing a login does no more to the factors than that. */
  lemma UseOnlySpends(s: State, e: Event)
    requires e.EConsumeSecondFactor? || e.ESetPassword? || e.EComplete2FA?
    ensures OnlySpends(s.fa, Step(s, e).0.fa)
  {
    if e.EComplete2FA? {
      LoginStepOnlySpends(s, e);
    } else if SpendProof(s, e.uid, e.proof).Some? {
      ProofOnlySpends(s, e.uid, e.proof);
    }
  }

  lemma LoginStepOnlySpends(s: State, e: Event)
    requires e.EComplete2FA?
    ensures OnlySpends(s.fa, Step(s, e).0.fa)
  {
    if Step(s, e).1.LoggedIn? {
      LoginOnlySpends(s, s.ch.rows[e.id].user, e.id, e.login);
    }
  }

  lemma SpendingKeepsInv(s: State, t: State)
    requires FactorInv(s) && OnlySpends(s.fa, t.fa) && t.next >= s.next
    ensures FactorInv(t)
  {
  }

  /** Fresh recovery codes replace an account's own, which must have a factor by then. */
  lemma ReplaceKeepsInv(s: State, uid: nat, digests: seq<nat>)
    requires FactorInv(s) && HasFactor(s.fa, uid)
    ensures FactorInv(ReplaceRecovery(s, uid, digests))
  {
  }

  lemma StartTotpKeepsInv(s: State, uid: nat, epoch: nat, within: Option<nat>, ok: bool)
    requires FactorInv(s)
    ensures FactorInv(StartTotp(s, uid, epoch, within, ok).0)
  {
  }

  /** A pending factor of the account becomes confirmed, or its epoch changes while it is pending. */
  ghost predicate Confirms(s: State, t: State) {
    && t.next >= s.next && t.fa.recovery == s.fa.recovery && t.fa.codes == s.fa.codes
    && (forall u :: u in s.fa.totp ==> u in t.fa.totp && t.fa.totp[u].seed == s.fa.totp[u].seed
                                       && (s.fa.totp[u].confirmed ==> t.fa.totp[u].confirmed))
    && (forall u :: u in t.fa.totp ==> u in s.fa.totp)
    && (forall u :: EmailConfirmed(s.fa, u) ==> EmailConfirmed(t.fa, u))
  }

  lemma ConfirmKeepsInv(s: State, t: State)
    requires FactorInv(s) && Confirms(s, t)
    ensures FactorInv(t)
  {
  }

  /** Rows go, a recovery code at the latest with the last factor and a step-up code with the e-mail factor. */
  ghost predicate Removes(s: State, t: State) {
    && t.next >= s.next
    && (forall u :: u in t.fa.totp ==> u in s.fa.totp && t.fa.totp[u] == s.fa.totp[u])
    && (forall c :: c in t.fa.codes ==> c in s.fa.codes && t.fa.codes[c] == s.fa.codes[c]
                                        && (EmailConfirmed(s.fa, s.fa.codes[c].user) ==>
                                            EmailConfirmed(t.fa, s.fa.codes[c].user)))
    && (forall id :: id in t.fa.recovery ==> id in s.fa.recovery && t.fa.recovery[id] == s.fa.recovery[id]
                                             && (HasFactor(s.fa, s.fa.recovery[id].user) ==>
                                                 HasFactor(t.fa, s.fa.recovery[id].user)))
  }

  lemma RemovalKeepsInv(s: State, t: State)
    requires FactorInv(s) && Removes(s, t)
    ensures FactorInv(t)
  {
  }

  lemma CompleteTotpKeepsFactors(s: State, e: Event)
    requires FactorInv(s) && e.ECompleteTotp?
    ensures FactorInv(Step(s, e).0)
  {
    if !Step(s, e).1.Failed? {
      var t := s.(fa := ConfirmTotp(s.fa, e.uid, e.seed, e.epoch, e.counter));
      ConfirmKeepsInv(s, t);
      ReplaceKeepsInv(t, e.uid, e.digests);
      FinishLeavesFactors(ReplaceRecovery(t, e.uid, e.digests), e.uid, e.epoch, e.path);
    }
  }

  lemma StartEmailKeepsFactors(s: State, e: Event)
    requires FactorInv(s) && e.EStartEmail?
    ensures FactorInv(Step(s, e).0)
  {
  }

  lemma EmailConfirmationConfirms(s: State, uid: nat, epoch: nat)
    requires uid in s.fa.emails
    ensures Confirms(s, s.(fa := ConfirmEmail(s.fa, uid, epoch)))
  {
  }

  lemma FinishLeavesFactors(s: State, uid: nat, epoch: nat, path: Enrolling)
    requires FactorInv(s) && FinishPreAuth(s, uid, epoch, path).Some?
    ensures FactorInv(FinishPreAuth(s, uid, epoch, path).value)
  {
  }

  lemma CompleteEmailKeepsFactors(s: State, e: Event)
    requires FactorInv(s) && e.ECompleteEmail?
    ensures FactorInv(Step(s, e).0)
  {
    if !Step(s, e).1.Failed? {
      var t := s.(fa := SpendFactorCode(s, e.uid, false, e.digest));
      SpendingKeepsInv(s, t);
      EmailConfirmationConfirms(t, e.uid, e.epoch);
      var u := t.(fa := ConfirmEmail(t.fa, e.uid, e.epoch));
      ConfirmKeepsInv(t, u);
      ReplaceKeepsInv(u, e.uid, e.digests);
      FinishLeavesFactors(ReplaceRecovery(u, e.uid, e.digests), e.uid, e.epoch, e.path);
    }
  }

  /** A removal spends the proof and takes the factor away, in that order. */
  lemma TotpRemovalIs(s: State, e: Event)
    requires e.EDisableTotp? && Step(s, e).1.Done?
    ensures SpendProof(s, e.uid, e.proof).Some? && Step(s, e).0.next == s.next
    ensures Step(s, e).0.fa == WithoutTotp(SpendProof(s, e.uid, e.proof).value, e.uid)
  {
  }

  lemma EmailRemovalIs(s: State, e: Event)
    requires e.EDisableEmail? && Step(s, e).1.Done?
    ensures SpendProof(s, e.uid, e.proof).Some? && Step(s, e).0.next == s.next
    ensures Step(s, e).0.fa == WithoutEmail(SpendProof(s, e.uid, e.proof).value, e.uid)
  {
  }

  lemma WithoutTotpRemoves(s: State, t: State, uid: nat)
    requires t.fa == WithoutTotp(s.fa, uid) && t.next == s.next
    ensures Removes(s, t)
  {
  }

  lemma WithoutEmailRemoves(s: State, t: State, uid: nat)
    requires t.fa == WithoutEmail(s.fa, uid) && t.next == s.next
    ensures Removes(s, t)
  {
  }

  lemma RemovalRemoves(s: State, e: Event)
    requires (e.EDisableTotp? || e.EDisableEmail?) && Step(s, e).1.Done?
    ensures SpendProof(s, e.uid, e.proof).Some?
    ensures Removes(s.(fa := SpendProof(s, e.uid, e.proof).value), Step(s, e).0)
  {
    if e.EDisableTotp? {
      TotpRemovalIs(s, e);
      WithoutTotpRemoves(s.(fa := SpendProof(s, e.uid, e.proof).value), Step(s, e).0, e.uid);
    } else {
      EmailRemovalIs(s, e);
      WithoutEmailRemoves(s.(fa := SpendProof(s, e.uid, e.proof).value), Step(s, e).0, e.uid);
    }
  }

  lemma DropRemoves(s: State, uid: nat)
    ensures Removes(s, DropUser(s, uid))
  {
  }

  lemma SweepRemoves(s: State, days: nat)
    ensures Removes(s, SweepTwoFactor(s, days))
  {
  }

  lemma DisableKeepsFactors(s: State, e: Event)
    requires FactorInv(s) && (e.EDisableTotp? || e.EDisableEmail?)
    ensures FactorInv(Step(s, e).0)
  {
    if Step(s, e).1.Done? {
      RemovalRemoves(s, e);
      ProofOnlySpends(s, e.uid, e.proof);
      var t := s.(fa := SpendProof(s, e.uid, e.proof).value);
      SpendingKeepsInv(s, t);
      RemovalKeepsInv(t, Step(s, e).0);
    }
  }

  lemma RegenerationKeepsFactors(s: State, e: Event)
    requires FactorInv(s) && e.ERegenerate?
    ensures FactorInv(Step(s, e).0)
  {
    if Step(s, e).1.Done? {
      ProofOnlySpends(s, e.uid, e.proof);
      var t := s.(fa := SpendProof(s, e.uid, e.proof).value);
      SpendingKeepsInv(s, t);
      ProofMeansFactor(s, e.uid, e.proof);
      ReplaceKeepsInv(t, e.uid, e.digests);
    }
  }

  lemma UseKeepsFactors(s: State, e: Event)
    requires FactorInv(s) && (e.EConsumeSecondFactor? || e.ESetPassword? || e.EComplete2FA?)
    ensures FactorInv(Step(s, e).0)
  {
    UseOnlySpends(s, e);
    ClocksRun(s, e);
    SpendingKeepsInv(s, Step(s, e).0);
  }

  /** Whoever can prove a second factor has one. */
  lemma ProofMeansFactor(s: State, uid: nat, proof: FactorProof)
    requires FactorInv(s) && SpendProof(s, uid, proof).Some?
    ensures HasFactor(s.fa, uid) && HasFactor(SpendProof(s, uid, proof).value, uid)
  {
  }

  lemma StepKeepsFactors(s: State, e: Event)
    requires FactorInv(s)
    ensures FactorInv(Step(s, e).0)
  {
    if !TouchesFactors(e) {
      FactorsStay(s, e);
      ClocksRun(s, e);
      SpendingKeepsInv(s, Step(s, e).0);
    } else if e.EConsumeSecondFactor? || e.ESetPassword? || e.EComplete2FA? {
      UseKeepsFactors(s, e);
    } else if e.EStartTotp? {
      StartTotpKeepsInv(s, e.uid, e.epoch, e.within, e.ok);
    } else if e.ECompleteTotp? {
      CompleteTotpKeepsFactors(s, e);
    } else if e.EStartEmail? {
      StartEmailKeepsFactors(s, e);
    } else if e.ECompleteEmail? {
      CompleteEmailKeepsFactors(s, e);
    } else {
      LateStepKeepsFactors(s, e);
    }
  }

  lemma StepUpKeepsFactors(s: State, e: Event)
    requires FactorInv(s) && e.ESendStepUp?
    ensures FactorInv(Step(s, e).0)
  {
  }

  lemma LateStepKeepsFactors(s: State, e: Event)
    requires FactorInv(s)
    requires e.ESendStepUp? || e.EDisableTotp? || e.EDisableEmail? || e.ERegenerate? || e.EDeleteUser? || e.ESweep?
    ensures FactorInv(Step(s, e).0)
  {
    if e.ESendStepUp? {
      StepUpKeepsFactors(s, e);
    } else if e.EDisableTotp? || e.EDisableEmail? {
      DisableKeepsFactors(s, e);
    } else if e.EDeleteUser? || e.ESweep? {
      if e.EDeleteUser? {
        DropRemoves(s, e.uid);
      } else {
        SweepRemoves(s, e.days);
      }
      RemovalKeepsInv(s, Step(s, e).0);
    } else {
      RegenerationKeepsFactors(s, e);
    }
  }

  /**
    In every reachable state recovery codes exist only beside a confirmed factor,
    and an unspent step-up code only beside the confirmed e-mail factor.
  */
  lemma {:induction false} RunKeepsFactors(es: seq<Event>)
    ensures FactorInv(Run(es))
  {
    if es != [] {
      RunKeepsFactors(es[..|es| - 1]);
      StepKeepsFactors(Run(es[..|es| - 1]), es[|es| - 1]);
    }
  }

  // ---- How factor tables change ----

  /** The step hands the recovery code out. */
  predicate IssuesRecovery(e: Event, user: nat, digest: nat) {
    (e.ECompleteTotp? || e.ECompleteEmail? || e.ERegenerate?) && e.uid == user && digest in e.digests
  }

  /** The step mails the code for this use. */
  predicate IssuesFactorCode(e: Event, user: nat, stepUp: bool, digest: nat) {
    (if stepUp then e.ESendStepUp? else e.EStartEmail?) && e.uid == user && e.digest == digest
  }

  /** A secret keeps its epoch and, once confirmed, stays so and never counts back; a new one is fresh. */
  ghost predicate SeedsEvolve(fa: Factors, ga: Factors, first: nat) {
    forall u :: u in ga.totp ==>
      || ga.totp[u].seed >= first
      || (&& u in fa.totp && ga.totp[u].seed == fa.totp[u].seed && ga.totp[u].epoch == fa.totp[u].epoch
          && (fa.totp[u].confirmed ==> ga.totp[u].confirmed && NotBehind(fa.totp[u].counter, ga.totp[u].counter))
          && (ga.totp[u].confirmed || ga.totp[u].session == fa.totp[u].session))
  }

  /** A recovery code stays as it is, is spent or was handed out by the step. */
  ghost predicate RecoveryEvolves(fa: Factors, ga: Factors, e: Event) {
    forall id :: id in ga.recovery ==>
      || (&& id in fa.recovery
          && (ga.recovery[id] == fa.recovery[id] || ga.recovery[id] == fa.recovery[id].(used := true)))
      || IssuesRecovery(e, ga.recovery[id].user, ga.recovery[id].digest)
  }

  /** A mailed code stays as it is, is spent or was mailed by the step. */
  ghost predicate FactorCodesEvolve(fa: Factors, ga: Factors, e: Event) {
    forall c :: c in ga.codes ==>
      || (c in fa.codes && (ga.codes[c] == fa.codes[c] || ga.codes[c] == fa.codes[c].(consumed := true)))
      || IssuesFactorCode(e, ga.codes[c].user, ga.codes[c].stepUp, ga.codes[c].digest)
  }

  ghost predicate FactorsEvolve(fa: Factors, ga: Factors, e: Event, first: nat) {
    SeedsEvolve(fa, ga, first) && RecoveryEvolves(fa, ga, e) && FactorCodesEvolve(fa, ga, e)
  }

  lemma SpendingEvolves(fa: Factors, ga: Factors, e: Event, first: nat)
    requires OnlySpends(fa, ga)
    ensures FactorsEvolve(fa, ga, e, first)
  {
  }

  /** Rows of `ga` that are left in `ha`. */
  ghost predicate Shrinks(ga: Factors, ha: Factors) {
    && (forall u :: u in ha.totp ==> u in ga.totp && ha.totp[u] == ga.totp[u])
    && (forall c :: c in ha.codes ==> c in ga.codes && ha.codes[c] == ga.codes[c])
    && (forall id :: id in ha.recovery ==> id in ga.recovery && ha.recovery[id] == ga.recovery[id])
  }

  lemma ShrinkingEvolves(fa: Factors, ga: Factors, ha: Factors, e: Event, first: nat)
    requires FactorsEvolve(fa, ga, e, first) && Shrinks(ga, ha)
    ensures FactorsEvolve(fa, ha, e, first)
  {
  }

  lemma RecoveryRowsAreIssued(digests: seq<nat>, uid: nat, first: nat, id: nat)
    requires id in RecoveryRows(uid, digests, first)
    ensures RecoveryRows(uid, digests, first)[id].user == uid && RecoveryRows(uid, digests, first)[id].digest in digests
  {
  }

  lemma ReplacementEvolves(fa: Factors, s: State, uid: nat, digests: seq<nat>, e: Event, first: nat)
    requires FactorsEvolve(fa, s.fa, e, first)
    requires (e.ECompleteTotp? || e.ECompleteEmail? || e.ERegenerate?) && e.uid == uid && e.digests == digests
    ensures FactorsEvolve(fa, ReplaceRecovery(s, uid, digests).fa, e, first)
  {
    forall id | id in RecoveryRows(uid, digests, s.next)
      ensures RecoveryRows(uid, digests, s.next)[id].user == uid
              && RecoveryRows(uid, digests, s.next)[id].digest in digests
    {
      RecoveryRowsAreIssued(digests, uid, s.next, id);
    }
  }

  lemma RemovalEvolves(s: State, e: Event)
    requires e.EDisableTotp? || e.EDisableEmail?
    ensures FactorsEvolve(s.fa, Step(s, e).0.fa, e, s.next)
  {
    if Step(s, e).1.Done? {
      RemovalRemoves(s, e);
      ProofOnlySpends(s, e.uid, e.proof);
      var spent := SpendProof(s, e.uid, e.proof).value;
      SpendingEvolves(s.fa, spent, e, s.next);
      ShrinkingEvolves(s.fa, spent, Step(s, e).0.fa, e, s.next);
    }
  }

  lemma RegenerationIs(s: State, e: Event)
    requires e.ERegenerate? && Step(s, e).1.Done?
    ensures SpendProof(s, e.uid, e.proof).Some?
    ensures Step(s, e).0.fa == ReplaceRecovery(s.(fa := SpendProof(s, e.uid, e.proof).value), e.uid, e.digests).fa
  {
  }

  lemma RegenerationEvolves(s: State, e: Event)
    requires e.ERegenerate?
    ensures FactorsEvolve(s.fa, Step(s, e).0.fa, e, s.next)
  {
    if Step(s, e).1.Done? {
      ProofOnlySpends(s, e.uid, e.proof);
      var t := s.(fa := SpendProof(s, e.uid, e.proof).value);
      SpendingEvolves(s.fa, t.fa, e, s.next);
      ReplacementEvolves(s.fa, t, e.uid, e.digests, e, s.next);
    }
  }

  lemma TotpConfirmationIs(s: State, e: Event)
    requires e.ECompleteTotp? && !Step(s, e).1.Failed?
    ensures e.uid in s.fa.totp && s.fa.totp[e.uid].seed == e.seed && s.fa.totp[e.uid].epoch == e.epoch
            && !s.fa.totp[e.uid].confirmed
    ensures var fa := ConfirmTotp(s.fa, e.uid, e.seed, e.epoch, e.counter);
            Step(s, e).0.fa == ReplaceRecovery(s.(fa := fa), e.uid, e.digests).fa
  {
  }

  lemma EmailConfirmationIs(s: State, e: Event)
    requires e.ECompleteEmail? && !Step(s, e).1.Failed?
    ensures HasFactorCode(s, e.uid, false, e.digest)
    ensures var fa := SpendFactorCode(s, e.uid, false, e.digest);
            Step(s, e).0.fa == ReplaceRecovery(s.(fa := ConfirmEmail(fa, e.uid, e.epoch)), e.uid, e.digests).fa
  {
  }

  lemma TotpConfirmationEvolves(s: State, e: Event)
    requires e.ECompleteTotp?
    ensures FactorsEvolve(s.fa, Step(s, e).0.fa, e, s.next)
  {
    if !Step(s, e).1.Failed? {
      TotpConfirmationIs(s, e);
      var fa := ConfirmTotp(s.fa, e.uid, e.seed, e.epoch, e.counter);
      ReplacementEvolves(s.fa, s.(fa := fa), e.uid, e.digests, e, s.next);
    }
  }

  lemma EmailConfirmationEvolves(s: State, e: Event)
    requires e.ECompleteEmail?
    ensures FactorsEvolve(s.fa, Step(s, e).0.fa, e, s.next)
  {
    if !Step(s, e).1.Failed? {
      EmailConfirmationIs(s, e);
      var fa := SpendFactorCode(s, e.uid, false, e.digest);
      FactorCodeOnlySpends(s, e.uid, false, e.digest);
      SpendingEvolves(s.fa, fa, e, s.next);
      ReplacementEvolves(s.fa, s.(fa := ConfirmEmail(fa, e.uid, e.epoch)), e.uid, e.digests,
                         e, s.next);
    }
  }

  lemma MailingEvolves(s: State, e: Event, uid: nat, stepUp: bool, digest: nat, ttl: nat)
    requires IssuesFactorCode(e, uid, stepUp, digest)
    ensures FactorsEvolve(s.fa, MailFactorCode(s, uid, stepUp, digest, ttl).fa, e, s.next)
  {
  }

  lemma StartEvolves(s: State, e: Event)
    requires e.EStartTotp? || e.EStartEmail? || e.ESendStepUp?
    ensures FactorsEvolve(s.fa, Step(s, e).0.fa, e, s.next)
  {
    if e.EStartTotp? {
      TotpStartEvolves(s, e);
    } else if Step(s, e).1.Done? {
      MailingEvolves(s, e, e.uid, e.ESendStepUp?, e.digest, e.ttl);
      MailingIs(s, e);
    }
  }

  lemma TotpStartEvolves(s: State, e: Event)
    requires e.EStartTotp?
    ensures FactorsEvolve(s.fa, Step(s, e).0.fa, e, s.next)
  {
  }

  lemma MailingIs(s: State, e: Event)
    requires (e.EStartEmail? || e.ESendStepUp?) && Step(s, e).1.Done?
    ensures var mailed := MailFactorCode(s, e.uid, e.ESendStepUp?, e.digest, e.ttl).fa;
            Step(s, e).0.fa == mailed.(emails := Step(s, e).0.fa.emails)
  {
  }

  lemma DeletionEvolves(s: State, e: Event)
    requires e.EDeleteUser? || e.ESweep?
    ensures FactorsEvolve(s.fa, Step(s, e).0.fa, e, s.next)
  {
  }

  lemma StepEvolvesFactors(s: State, e: Event)
    ensures FactorsEvolve(s.fa, Step(s, e).0.fa, e, s.next)
  {
    if !TouchesFactors(e) {
      FactorsStay(s, e);
      SpendingEvolves(s.fa, s.fa, e, s.next);
    } else if e.EConsumeSecondFactor? || e.ESetPassword? || e.EComplete2FA? {
      UseOnlySpends(s, e);
      SpendingEvolves(s.fa, Step(s, e).0.fa, e, s.next);
    } else if e.EDisableTotp? || e.EDisableEmail? {
      RemovalEvolves(s, e);
    } else if e.ERegenerate? {
      RegenerationEvolves(s, e);
    } else if e.ECompleteTotp? {
      TotpConfirmationEvolves(s, e);
    } else if e.ECompleteEmail? {
      EmailConfirmationEvolves(s, e);
    } else if e.EDeleteUser? || e.ESweep? {
      DeletionEvolves(s, e);
    } else {
      StartEvolves(s, e);
    }
  }
}
