/**
  Where what is accepted came from: over every run, a code, a link or a recovery
  code is accepted only if an earlier step handed it out for this very use, and
  while the lifetime it was handed out with has not passed.
*/
module Provenance {
  import opened Wrappers
  import opened TwoFactorFrames
  import opened TwoFactorModel
  import ChallengeRuns
  import EpochTheorems
  import FactorRuns
  import FactorTheorems
  import opened LoginAnswers
  import opened FactorAnswers
  import opened ArtefactAnswers

  /** The state before the step `i`. */
  ghost function Before(es: seq<Event>, i: nat): (s: State)
    requires i < |es|
  {
    Run(es[..i])
  }

  lemma BeforeInPrefix(es: seq<Event>, i: nat)
    requires i + 1 < |es|
    ensures Before(es[..|es| - 1], i) == Before(es, i) && es[..|es| - 1][i] == es[i]
  {
    assert es[..|es| - 1][..i] == es[..i];
  }

  // ---- Mailed login codes ----

  /** The step mails the code for the challenge, to be good until then. */
  ghost predicate MailedBy(s: State, e: Event, id: nat, digest: nat, until: int) {
    e.ESendCode? && e.id == id && e.digest == digest && Step(s, e).1.Mailed? && until == s.now + e.ttl
  }

  /** An unspent code is the one it was, or has just been mailed. */
  lemma CodeIsOldOrMailed(s: State, e: Event, c: nat)
    requires (forall x :: x in s.ch.codes ==> x < s.next) && c in Step(s, e).0.ch.codes
    ensures var t := Step(s, e).0;
            t.ch.codes[c].consumed || (c in s.ch.codes && t.ch.codes[c] == s.ch.codes[c])
            || MailedBy(s, e, t.ch.codes[c].challenge, t.ch.codes[c].digest, t.ch.codes[c].expires)
  {
    if e.ESendCode? && Step(s, e).1.Mailed? {
      MailedCodeStandsAlone(s, e.id, e.digest, e.ttl, e.cooldown, e.enrolled);
    } else if e.ESendCode? {
      FailureChangesNothing(s, e);
    } else {
      FactorTheorems.StepEvolvesCodes(s, e);
    }
  }

  lemma {:induction false} CodeWasMailed(es: seq<Event>, c: nat) returns (i: nat)
    requires c in Run(es).ch.codes && !Run(es).ch.codes[c].consumed
    ensures var code := Run(es).ch.codes[c];
            i < |es| && MailedBy(Before(es, i), es[i], code.challenge, code.digest, code.expires)
  {
    var init, e := es[..|es| - 1], es[|es| - 1];
    ChallengeRuns.RunKeepsInv(init);
    CodesAreOld(Run(init));
    CodeIsOldOrMailed(Run(init), e, c);
    i := |es| - 1;
    if c in Run(init).ch.codes && Run(es).ch.codes[c] == Run(init).ch.codes[c] {
      i := CodeWasMailed(init, c);
      BeforeInPrefix(es, i);
    }
  }

  lemma CodesAreOld(s: State)
    requires ChallengeRuns.Inv(s)
    ensures forall x :: x in s.ch.codes ==> x < s.next
  {
    assert forall x :: x in s.ch.codes ==> ChallengeRuns.CodeInv(s, x);
  }

  /**
    Whoever completes a login by a mailed code presents one that was mailed for
    this very challenge, and less than its lifetime ago.
  */
  lemma MailedLoginIsInTime(es: seq<Event>, id: nat, login: ChallengeProof)
    requires Complete2FA(Run(es), id, login).1 == LoggedIn(id, ByEmail)
    ensures login.email.Some?
    ensures exists i: nat, until ::
              i < |es| && MailedBy(Before(es, i), es[i], id, login.email.value, until) && Run(es).now < until
  {
    var s := Run(es);
    CompletionAnswers(s, id, login);
    var c :| IsMailed(s, s.ch.rows[id].user, id, login.email.value, c);
    var i := CodeWasMailed(es, c);
    assert MailedBy(Before(es, i), es[i], id, login.email.value, s.ch.codes[c].expires);
  }

  // ---- Codes that enroll the e-mail factor or step a session up ----

  /** The step mails the code to the account for this use, to be good until then. */
  ghost predicate FactorCodeBy(s: State, e: Event, uid: nat, stepUp: bool, digest: nat, until: int) {
    && (if stepUp then e.ESendStepUp? else e.EStartEmail?) && e.uid == uid && e.digest == digest
    && Step(s, e).1.Done? && until == s.now + e.ttl
  }

  lemma FactorCodeIsOldOrMailed(s: State, e: Event, c: nat)
    requires (forall x :: x in s.fa.codes ==> x < s.next) && c in Step(s, e).0.fa.codes
    ensures var code := Step(s, e).0.fa.codes[c];
            code.consumed || (c in s.fa.codes && code == s.fa.codes[c])
            || FactorCodeBy(s, e, code.user, code.stepUp, code.digest, code.expires)
  {
    if Step(s, e).1.Failed? {
      FailureChangesNothing(s, e);
    } else if e.EStartEmail? {
      EmailStartAnswers(s, e.uid, e.epoch, e.within, e.digest, e.ttl, e.cooldown, e.ok);
    } else if e.ESendStepUp? {
      StepUpAnswers(s, e.uid, e.epoch, e.session, e.digest, e.ttl, e.cooldown, e.ok);
    } else {
      FactorRuns.StepEvolvesFactors(s, e);
    }
  }

  lemma {:induction false} FactorCodeWasMailed(es: seq<Event>, c: nat) returns (i: nat)
    requires c in Run(es).fa.codes && !Run(es).fa.codes[c].consumed
    ensures var code := Run(es).fa.codes[c];
            i < |es| && FactorCodeBy(Before(es, i), es[i], code.user, code.stepUp, code.digest, code.expires)
  {
    var init, e := es[..|es| - 1], es[|es| - 1];
    FactorRuns.RunKeepsFactors(init);
    FactorRowsAreOld(Run(init));
    FactorCodeIsOldOrMailed(Run(init), e, c);
    i := |es| - 1;
    if c in Run(init).fa.codes && Run(es).fa.codes[c] == Run(init).fa.codes[c] {
      i := FactorCodeWasMailed(init, c);
      BeforeInPrefix(es, i);
    }
  }

  lemma FactorRowsAreOld(s: State)
    requires FactorRuns.FactorInv(s)
    ensures forall x :: x in s.fa.codes ==> x < s.next
    ensures forall x :: x in s.fa.recovery ==> x < s.next
  {
    assert forall x :: x in s.fa.codes ==> FactorRuns.FactorCodeInv(s, x);
    assert forall x :: x in s.fa.recovery ==> FactorRuns.RecoveryInv(s, x);
  }

  /** The proof of an accepted step, where it is a code mailed for a factor. */
  ghost predicate TakesFactorCode(s: State, e: Event, uid: nat, stepUp: bool, digest: nat) {
    FactorTheorems.SpentBy(s, e) == Some(FactorTheorems.OfFactorCode(uid, stepUp, digest))
  }

  lemma TakenCodeIsThere(s: State, e: Event, uid: nat, stepUp: bool, digest: nat)
    requires TakesFactorCode(s, e, uid, stepUp, digest)
    ensures exists c :: IsFactorCode(s, uid, stepUp, digest, c)
  {
    FactorCodeIsFound(s, uid, stepUp, digest);
  }

  /** An enrollment or step-up code that is accepted was mailed for that use, less than its lifetime ago. */
  lemma FactorCodeIsInTime(es: seq<Event>, e: Event, uid: nat, stepUp: bool, digest: nat)
    requires TakesFactorCode(Run(es), e, uid, stepUp, digest)
    ensures exists i: nat, until ::
              i < |es| && FactorCodeBy(Before(es, i), es[i], uid, stepUp, digest, until) && Run(es).now < until
  {
    TakenCodeIsThere(Run(es), e, uid, stepUp, digest);
    var c :| IsFactorCode(Run(es), uid, stepUp, digest, c);
    var i := FactorCodeWasMailed(es, c);
    assert FactorCodeBy(Before(es, i), es[i], uid, stepUp, digest, Run(es).fa.codes[c].expires);
  }

  // ---- Recovery codes ----

  /** The step makes the code one of the account's recovery codes. */
  ghost predicate RecoveryBy(s: State, e: Event, uid: nat, digest: nat) {
    && (e.ECompleteTotp? || e.ECompleteEmail? || e.ERegenerate?) && e.uid == uid && digest in e.digests
    && !Step(s, e).1.Failed?
  }

  lemma {:induction false} RecoveryWasIssued(es: seq<Event>, x: nat) returns (i: nat)
    requires x in Run(es).fa.recovery
    ensures var row := Run(es).fa.recovery[x];
            i < |es| && RecoveryBy(Before(es, i), es[i], row.user, row.digest)
  {
    var init, e := es[..|es| - 1], es[|es| - 1];
    FactorRuns.StepEvolvesFactors(Run(init), e);
    if Step(Run(init), e).1.Failed? {
      FailureChangesNothing(Run(init), e);
    }
    i := |es| - 1;
    if !RecoveryBy(Run(init), e, Run(es).fa.recovery[x].user, Run(es).fa.recovery[x].digest) {
      i := RecoveryWasIssued(init, x);
      BeforeInPrefix(es, i);
    }
  }

  /** A recovery code is accepted only of the account an enrollment or a regeneration made it for. */
  lemma RecoveryIsOwn(es: seq<Event>, e: Event, uid: nat, digest: nat)
    requires FactorTheorems.SpentBy(Run(es), e) == Some(FactorTheorems.OfRecovery(uid, digest))
    ensures exists i: nat :: i < |es| && RecoveryBy(Before(es, i), es[i], uid, digest)
  {
    TakenRecoveryIsThere(Run(es), e, uid, digest);
    var x :| IsRecovery(Run(es).fa, uid, digest, x);
    var i := RecoveryWasIssued(es, x);
  }

  lemma TakenRecoveryIsThere(s: State, e: Event, uid: nat, digest: nat)
    requires FactorTheorems.SpentBy(s, e) == Some(FactorTheorems.OfRecovery(uid, digest))
    ensures exists x :: IsRecovery(s.fa, uid, digest, x)
  {
    RecoveryIsFound(s.fa, uid, digest);
  }

  // ---- Reset links, address changes and redirects ----

  /** The step hands the artefact out, bound to the account's epoch, to be good until then. */
  ghost predicate MintedBy(s: State, e: Event, id: nat, kind: Kind, uid: nat, epoch: nat, until: int) {
    && e.EMint? && e.kind == kind && e.uid == uid && uid in s.users && s.users[uid].epoch == epoch
    && Step(s, e).1.Done? && id !in s.artefacts && id in Step(s, e).0.artefacts && until == s.now + e.ttl
  }

  lemma ArtefactIsOldOrMinted(s: State, e: Event, a: nat)
    requires EpochTheorems.ArtefactsInv(s) && a in Step(s, e).0.artefacts
    ensures var row := Step(s, e).0.artefacts[a];
            (a in s.artefacts && row == s.artefacts[a].(consumed := row.consumed))
            || MintedBy(s, e, a, row.kind, row.user, row.epoch, row.expires)
  {
    if e.EMint? && Step(s, e).1.Done? {
      MintingAnswers(s, e.kind, e.uid, e.within, e.ttl, e.ok);
    } else if e.EMint? {
      FailureChangesNothing(s, e);
    } else {
      StepEvolvesArtefacts(s, e);
      NothingElseMints(s, e, a);
    }
  }

  lemma NothingElseMints(s: State, e: Event, a: nat)
    requires !e.EMint? && a in Step(s, e).0.artefacts
    ensures a in s.artefacts
  {
    if !TouchesArtefacts(e) {
      ArtefactsStay(s, e);
    }
  }

  lemma {:induction false} ArtefactWasMinted(es: seq<Event>, a: nat) returns (i: nat)
    requires a in Run(es).artefacts
    ensures var row := Run(es).artefacts[a];
            i < |es| && MintedBy(Before(es, i), es[i], a, row.kind, row.user, row.epoch, row.expires)
  {
    var init, e := es[..|es| - 1], es[|es| - 1];
    EpochTheorems.RunKeepsArtefacts(init);
    ArtefactIsOldOrMinted(Run(init), e, a);
    i := |es| - 1;
    if a in Run(init).artefacts {
      i := ArtefactWasMinted(init, a);
      BeforeInPrefix(es, i);
      EpochTheorems.RunKeepsArtefacts(init);
    }
  }

  /**
    A reset link or an address change is acted on, and a redirect comes back, less
    than its lifetime after it was handed out to the account, the first two at the
    epoch the account had then.
  */
  lemma ArtefactIsInTime(es: seq<Event>, e: Event)
    requires (e.ERedeem? || e.ETakeLinkState?) && Step(Run(es), e).1.Done?
    ensures e.id in Run(es).artefacts
    ensures var row := Run(es).artefacts[e.id];
      && (exists i: nat, until :: i < |es| && MintedBy(Before(es, i), es[i], e.id, row.kind, row.user, row.epoch, until)
                                 && Run(es).now < until)
      && (e.ERedeem? ==> Stands(Run(es), row.user, row.epoch))
  {
    var row := Run(es).artefacts[e.id];
    var i := ArtefactWasMinted(es, e.id);
    assert MintedBy(Before(es, i), es[i], e.id, row.kind, row.user, row.epoch, row.expires);
  }
}
