/** Of everything mailed to an account only the latest can still be used. */
module CodeTheorems {
  import opened TwoFactorModel
  import FactorRuns
  import FactorTheorems
  import opened TwoFactorFrames

  /** One unspent login code per account. */
  ghost predicate OneLoginCode(s: State) {
    forall a, b ::
      (a in s.ch.codes && b in s.ch.codes && !s.ch.codes[a].consumed && !s.ch.codes[b].consumed
       && s.ch.codes[a].user == s.ch.codes[b].user) ==> a == b
  }

  /** One unspent enrollment code and one unspent step-up code per account. */
  ghost predicate OneFactorCode(s: State) {
    forall a, b ::
      (a in s.fa.codes && b in s.fa.codes && !s.fa.codes[a].consumed && !s.fa.codes[b].consumed
       && s.fa.codes[a].user == s.fa.codes[b].user && s.fa.codes[a].stepUp == s.fa.codes[b].stepUp) ==> a == b
  }

  /** One unspent reset link and one unspent address change per account. */
  ghost predicate OneArtefact(s: State) {
    forall a, b ::
      (a in s.artefacts && b in s.artefacts && !s.artefacts[a].consumed && !s.artefacts[b].consumed
       && s.artefacts[a].user == s.artefacts[b].user && s.artefacts[a].kind == s.artefacts[b].kind
       && !s.artefacts[a].kind.OAuthLink?) ==> a == b
  }

  lemma MailingKeepsOneLoginCode(s: State, e: Event)
    requires OneLoginCode(s) && e.ESendCode?
    ensures OneLoginCode(Step(s, e).0)
  {
  }

  /** Unless the step mails a code, codes only go or get spent. */
  lemma OthersKeepOneLoginCode(s: State, e: Event, t: State)
    requires OneLoginCode(s) && !e.ESendCode? && FactorTheorems.LoginCodesEvolve(s, t, e)
    ensures OneLoginCode(t)
  {
  }

  lemma StepKeepsOneLoginCode(s: State, e: Event)
    requires OneLoginCode(s)
    ensures OneLoginCode(Step(s, e).0)
  {
    if e.ESendCode? {
      MailingKeepsOneLoginCode(s, e);
    } else {
      FactorTheorems.StepEvolvesCodes(s, e);
      OthersKeepOneLoginCode(s, e, Step(s, e).0);
    }
  }

  lemma MailingKeepsOneFactorCode(s: State, e: Event)
    requires OneFactorCode(s) && (e.EStartEmail? || e.ESendStepUp?)
    ensures OneFactorCode(Step(s, e).0)
  {
  }

  lemma OthersKeepOneFactorCode(s: State, e: Event, t: State)
    requires OneFactorCode(s) && !e.EStartEmail? && !e.ESendStepUp? && FactorRuns.FactorCodesEvolve(s.fa, t.fa, e)
    ensures OneFactorCode(t)
  {
  }

  lemma StepKeepsOneFactorCode(s: State, e: Event)
    requires OneFactorCode(s)
    ensures OneFactorCode(Step(s, e).0)
  {
    if e.EStartEmail? || e.ESendStepUp? {
      MailingKeepsOneFactorCode(s, e);
    } else {
      FactorRuns.StepEvolvesFactors(s, e);
      OthersKeepOneFactorCode(s, e, Step(s, e).0);
    }
  }

  lemma MintingKeepsOneArtefact(s: State, e: Event)
    requires OneArtefact(s) && e.EMint?
    ensures OneArtefact(Step(s, e).0)
  {
  }

  lemma UseKeepsOneArtefact(s: State, e: Event)
    requires OneArtefact(s) && (e.ERedeem? || e.ETakeLinkState?)
    ensures OneArtefact(Step(s, e).0)
  {
  }

  lemma DeletionKeepsOneArtefact(s: State, e: Event)
    requires OneArtefact(s) && (e.EDeleteUser? || e.ESweep?)
    ensures OneArtefact(Step(s, e).0)
  {
  }

  lemma StepKeepsOneArtefact(s: State, e: Event)
    requires OneArtefact(s)
    ensures OneArtefact(Step(s, e).0)
  {
    if !TouchesArtefacts(e) {
      ArtefactsStay(s, e);
    } else if e.EDeleteUser? || e.ESweep? {
      DeletionKeepsOneArtefact(s, e);
    } else if e.EMint? {
      MintingKeepsOneArtefact(s, e);
    } else {
      UseKeepsOneArtefact(s, e);
    }
  }

  /** In every reachable state an older code or link of the same use is spent. */
  lemma {:induction false} OnlyTheLatestLives(es: seq<Event>)
    ensures OneLoginCode(Run(es)) && OneFactorCode(Run(es)) && OneArtefact(Run(es))
  {
    if es != [] {
      var s, e := Run(es[..|es| - 1]), es[|es| - 1];
      OnlyTheLatestLives(es[..|es| - 1]);
      StepKeepsOneLoginCode(s, e);
      StepKeepsOneFactorCode(s, e);
      StepKeepsOneArtefact(s, e);
    }
  }
}
