/** What the transactions on second factors answer and change, read off the columns of the tables. */
module FactorAnswers {
  import opened Wrappers
  import opened TwoFactorModel
  import opened LoginAnswers

  /** The session is a live one of the account. */
  predicate IsSession(s: State, uid: nat, session: nat) {
    session in s.logins && s.logins[session].user == uid
  }

  /** A confirmed authenticator or a confirmed e-mail factor. */
  predicate HasConfirmed(fa: Factors, uid: nat) {
    (uid in fa.totp && fa.totp[uid].confirmed) || (uid in fa.emails && fa.emails[uid].confirmed)
  }

  /** An unspent code of this use mailed to the account, whose time is not over. */
  predicate IsFactorCode(s: State, uid: nat, stepUp: bool, digest: nat, c: nat) {
    && c in s.fa.codes && s.fa.codes[c].user == uid && s.fa.codes[c].stepUp == stepUp && s.fa.codes[c].digest == digest
    && !s.fa.codes[c].consumed && s.now < s.fa.codes[c].expires
  }

  // ---- Proving a factor ----

  /** What is presented is a later time step, an unused recovery code or a running step-up code of the account. */
  ghost predicate Proves(s: State, uid: nat, proof: FactorProof) {
    match proof
    case TotpProof(seed, counter) => IsTotp(s.fa, uid, seed, counter)
    case RecoveryProof(digest) => exists x :: IsRecovery(s.fa, uid, digest, x)
    case StepUpProof(digest) => exists c :: IsFactorCode(s, uid, true, digest, c)
    case NoProof => false
  }

  /** The factors once the proof is spent: the step is recorded, or the codes presented are used up. */
  ghost function AfterProof(s: State, uid: nat, proof: FactorProof): (fa: Factors) {
    Factors(
      if proof.TotpProof? && uid in s.fa.totp
        then s.fa.totp[uid := s.fa.totp[uid].(counter := Some(proof.counter))] else s.fa.totp,
      s.fa.emails,
      map c | c in s.fa.codes ::
        s.fa.codes[c].(consumed := s.fa.codes[c].consumed
                                   || (proof.StepUpProof? && IsFactorCode(s, uid, true, proof.digest, c))),
      map x | x in s.fa.recovery ::
        s.fa.recovery[x].(used := s.fa.recovery[x].used
                                  || (proof.RecoveryProof? && IsRecovery(s.fa, uid, proof.digest, x))))
  }

  lemma ProofAnswers(s: State, uid: nat, proof: FactorProof)
    ensures SpendProof(s, uid, proof) == if Proves(s, uid, proof) then Some(AfterProof(s, uid, proof)) else None
  {
    match proof
    case TotpProof(seed, counter) => TimeStepIsSpent(s, uid, seed, counter);
    case RecoveryProof(digest) => RecoveryIsSpent(s, uid, digest);
    case StepUpProof(digest) => StepUpIsSpent(s, uid, digest);
    case NoProof =>
  }

  lemma TimeStepIsSpent(s: State, uid: nat, seed: nat, counter: int)
    ensures TotpAccepts(s.fa, uid, seed, counter) <==> IsTotp(s.fa, uid, seed, counter)
    ensures uid in s.fa.totp ==> SpendTotp(s.fa, uid, counter) == AfterProof(s, uid, TotpProof(seed, counter))
  {
    var after := AfterProof(s, uid, TotpProof(seed, counter));
    assert s.fa.recovery == after.recovery && s.fa.codes == after.codes;
  }

  lemma StepUpIsSpent(s: State, uid: nat, digest: nat)
    ensures HasFactorCode(s, uid, true, digest) <==> Proves(s, uid, StepUpProof(digest))
    ensures SpendFactorCode(s, uid, true, digest) == AfterProof(s, uid, StepUpProof(digest))
  {
    var spent, after := SpendFactorCode(s, uid, true, digest), AfterProof(s, uid, StepUpProof(digest));
    FactorCodeIsFound(s, uid, true, digest);
    assert forall c :: FactorCodeMatches(s, c, uid, true, digest) <==> IsFactorCode(s, uid, true, digest, c);
    assert spent.codes == after.codes && spent.recovery == after.recovery;
  }

  lemma RecoveryIsSpent(s: State, uid: nat, digest: nat)
    ensures HasRecovery(s.fa, uid, digest) <==> Proves(s, uid, RecoveryProof(digest))
    ensures SpendRecovery(s.fa, uid, digest) == AfterProof(s, uid, RecoveryProof(digest))
  {
    var spent, after := SpendRecovery(s.fa, uid, digest), AfterProof(s, uid, RecoveryProof(digest));
    RecoveryIsFound(s.fa, uid, digest);
    assert forall x :: RecoveryMatches(s.fa, x, uid, digest) <==> IsRecovery(s.fa, uid, digest, x);
    assert spent.recovery == after.recovery && spent.codes == after.codes;
  }

  lemma FactorCodeIsFound(s: State, uid: nat, stepUp: bool, digest: nat)
    ensures HasFactorCode(s, uid, stepUp, digest) <==> exists c :: IsFactorCode(s, uid, stepUp, digest, c)
  {
    assert forall c :: FactorCodeMatches(s, c, uid, stepUp, digest) <==> IsFactorCode(s, uid, stepUp, digest, c);
  }

  /** One proof that was accepted before is spent after, and no other row has changed. */
  ghost predicate OneProofSpent(s: State, fa: Factors, uid: nat, proof: FactorProof) {
    && fa.emails == s.fa.emails
    && match proof
       case TotpProof(seed, counter) =>
         && uid in s.fa.totp && s.fa.totp[uid].confirmed && s.fa.totp[uid].seed == seed
         && (s.fa.totp[uid].counter.Some? ==> s.fa.totp[uid].counter.value < counter)
         && fa == s.fa.(totp := s.fa.totp[uid := s.fa.totp[uid].(counter := Some(counter))])
       case RecoveryProof(digest) =>
         && (exists x :: x in s.fa.recovery && s.fa.recovery[x] == Recovery(uid, digest, false))
         && fa.recovery.Keys == s.fa.recovery.Keys && fa == s.fa.(recovery := fa.recovery)
         && forall x :: x in s.fa.recovery ==>
              fa.recovery[x] == if s.fa.recovery[x] == Recovery(uid, digest, false) then Recovery(uid, digest, true)
                                else s.fa.recovery[x]
       case StepUpProof(digest) =>
         && (exists c :: c in s.fa.codes && IsFactorCode(s, uid, true, digest, c))
         && fa.codes.Keys == s.fa.codes.Keys && fa == s.fa.(codes := fa.codes)
         && forall c :: c in s.fa.codes ==>
              fa.codes[c] == if IsFactorCode(s, uid, true, digest, c) then s.fa.codes[c].(consumed := true)
                             else s.fa.codes[c]
       case NoProof => false
  }

  lemma ProofIsOne(s: State, uid: nat, proof: FactorProof)
    requires Proves(s, uid, proof)
    ensures OneProofSpent(s, AfterProof(s, uid, proof), uid, proof)
  {
    var fa := AfterProof(s, uid, proof);
    assert !proof.RecoveryProof? ==> fa.recovery == s.fa.recovery;
    assert !proof.StepUpProof? ==> fa.codes == s.fa.codes;
  }

  /** The epoch of one account moves by one, and its sessions end except the one kept. */
  ghost predicate CredentialsMove(s: State, t: State, uid: nat, keep: Option<nat>) {
    && t.users.Keys == s.users.Keys
    && (forall u :: u in s.users ==>
          t.users[u] == s.users[u].(epoch := s.users[u].epoch + if u == uid then 1 else 0))
    && t.logins.Keys <= s.logins.Keys
    && (forall l :: l in s.logins ==>
          (l in t.logins <==> s.logins[l].user != uid || keep == Some(l))
          && (l in t.logins ==> t.logins[l] == s.logins[l]))
  }

  lemma MovingOn(s: State, uid: nat, keep: Option<nat>)
    ensures CredentialsMove(s, MoveOn(s, uid, keep), uid, keep)
    ensures MoveOn(s, uid, keep) == s.(users := MoveOn(s, uid, keep).users, logins := MoveOn(s, uid, keep).logins)
  {
  }

  /** Only a standing account in one of its own sessions gets to prove anything. */
  predicate MayAct(s: State, uid: nat, epoch: nat, session: nat, ok: bool) {
    Stands(s, uid, epoch) && IsSession(s, uid, session) && ok
  }

  /**
    A password is added from a live session. With any confirmed factor it takes a
    proof, which is spent; without one it takes none and spends none.
  */
  lemma PasswordAnswers(s: State, uid: nat, epoch: nat, session: nat, proof: FactorProof, ok: bool)
    ensures var (t, r) := SetPassword(s, uid, epoch, session, proof, ok);
      if !MayAct(s, uid, epoch, session, ok) then r == Failed(SessionInvalid) && t == s
      else if HasConfirmed(s.fa, uid) && !Proves(s, uid, proof) then r == Failed(BadCredentials) && t == s
      else
        && r.Done? && CredentialsMove(s, t, uid, Some(session))
        && t.fa == (if HasConfirmed(s.fa, uid) then AfterProof(s, uid, proof) else s.fa)
        && t == s.(users := t.users, logins := t.logins, fa := t.fa)
  {
    ProofAnswers(s, uid, proof);
    PasswordIsSet(s, uid, epoch, session, proof, ok);
    var fa := if HasConfirmed(s.fa, uid) then AfterProof(s, uid, proof) else s.fa;
    MovingOn(s.(fa := fa), uid, Some(session));
  }

  lemma PasswordIsSet(s: State, uid: nat, epoch: nat, session: nat, proof: FactorProof, ok: bool)
    requires SpendProof(s, uid, proof) == if Proves(s, uid, proof) then Some(AfterProof(s, uid, proof)) else None
    ensures SetPassword(s, uid, epoch, session, proof, ok) ==
      if !MayAct(s, uid, epoch, session, ok) then (s, Failed(SessionInvalid))
      else if HasConfirmed(s.fa, uid) && !Proves(s, uid, proof) then (s, Failed(BadCredentials))
      else
        var fa := if HasConfirmed(s.fa, uid) then AfterProof(s, uid, proof) else s.fa;
        (MoveOn(s.(fa := fa), uid, Some(session)), Done)
  {
  }

  /** A proof spent on its own. */
  lemma SecondFactorAnswers(s: State, uid: nat, proof: FactorProof)
    ensures ConsumeSecondFactor(s, uid, proof)
            == if Proves(s, uid, proof) then (s.(fa := AfterProof(s, uid, proof)), Done)
               else (s, Failed(BadCredentials))
  {
    ProofAnswers(s, uid, proof);
  }

  // ---- Removing a factor ----

  /** The account's recovery codes go if it has no factor left. */
  ghost predicate RecoveryFollows(before: Factors, after: Factors, uid: nat) {
    && after.recovery.Keys <= before.recovery.Keys
    && forall x :: x in before.recovery ==>
         (x in after.recovery <==> before.recovery[x].user != uid || HasConfirmed(after, uid))
         && (x in after.recovery ==> after.recovery[x] == before.recovery[x])
  }

  /** An authenticator is removed against a spent proof, pending or confirmed; the others' factors stay. */
  lemma TotpRemovalAnswers(s: State, uid: nat, epoch: nat, session: nat, proof: FactorProof, ok: bool)
    ensures var (t, r) := DisableTotp(s, uid, epoch, session, proof, ok);
      if !MayAct(s, uid, epoch, session, ok) then r == Failed(SessionInvalid) && t == s
      else if !Proves(s, uid, proof) then r == Failed(BadCredentials) && t == s
      else if uid !in s.fa.totp then r == Failed(NoPendingFactor) && t == s
      else
        && r.Done? && CredentialsMove(s, t, uid, Some(session))
        && var spent := AfterProof(s, uid, proof);
           && t.fa == Factors(spent.totp - {uid}, spent.emails, spent.codes, t.fa.recovery)
           && RecoveryFollows(spent, t.fa, uid) && t == s.(users := t.users, logins := t.logins, fa := t.fa)
  {
    ProofAnswers(s, uid, proof);
    var spent := AfterProof(s, uid, proof);
    MovingOn(s.(fa := WithoutTotp(spent, uid)), uid, Some(session));
    WithoutTotpIs(spent, uid);
  }

  lemma WithoutTotpIs(fa: Factors, uid: nat)
    ensures var left := WithoutTotp(fa, uid);
            left == Factors(fa.totp - {uid}, fa.emails, fa.codes, left.recovery) && RecoveryFollows(fa, left, uid)
  {
  }

  /** The e-mail factor goes with every code that was mailed for it. */
  lemma EmailRemovalAnswers(s: State, uid: nat, epoch: nat, session: nat, proof: FactorProof, ok: bool)
    ensures var (t, r) := DisableEmail(s, uid, epoch, session, proof, ok);
      if !MayAct(s, uid, epoch, session, ok) then r == Failed(SessionInvalid) && t == s
      else if !Proves(s, uid, proof) then r == Failed(BadCredentials) && t == s
      else if uid !in s.fa.emails then r == Failed(NoPendingFactor) && t == s
      else
        && r.Done? && CredentialsMove(s, t, uid, Some(session))
        && var spent := AfterProof(s, uid, proof);
           && t.fa == Factors(spent.totp, spent.emails - {uid}, t.fa.codes, t.fa.recovery)
           && (forall c :: c in t.fa.codes <==> c in spent.codes && spent.codes[c].user != uid)
           && (forall c :: c in t.fa.codes ==> t.fa.codes[c] == spent.codes[c])
           && RecoveryFollows(spent, t.fa, uid) && t == s.(users := t.users, logins := t.logins, fa := t.fa)
  {
    ProofAnswers(s, uid, proof);
    var spent := AfterProof(s, uid, proof);
    MovingOn(s.(fa := WithoutEmail(spent, uid)), uid, Some(session));
    WithoutEmailIs(spent, uid);
  }

  lemma WithoutEmailIs(fa: Factors, uid: nat)
    ensures var left := WithoutEmail(fa, uid);
      && left == Factors(fa.totp, fa.emails - {uid}, left.codes, left.recovery) && RecoveryFollows(fa, left, uid)
      && (forall c :: c in left.codes <==> c in fa.codes && fa.codes[c].user != uid)
      && (forall c :: c in left.codes ==> left.codes[c] == fa.codes[c])
  {
  }

  // ---- Recovery codes ----

  /** From now on exactly these codes of the account are accepted, and the other accounts' are as they were. */
  ghost predicate RecoveryReplaced(before: Factors, after: Factors, uid: nat, digests: seq<nat>) {
    && (forall d :: (exists x :: IsRecovery(after, uid, d, x)) <==> d in digests)
    && (forall x :: x in after.recovery && after.recovery[x].user == uid ==>
          !after.recovery[x].used && after.recovery[x].digest in digests)
    && (forall x :: x in before.recovery && before.recovery[x].user != uid ==>
          x in after.recovery && after.recovery[x] == before.recovery[x])
    && (forall x :: x in after.recovery && after.recovery[x].user != uid ==> x in before.recovery)
  }

  lemma Replacing(s: State, uid: nat, digests: seq<nat>)
    requires forall x :: x in s.fa.recovery ==> x < s.next
    ensures RecoveryReplaced(s.fa, ReplaceRecovery(s, uid, digests).fa, uid, digests)
  {
    var fa := ReplaceRecovery(s, uid, digests).fa;
    forall x | x in fa.recovery && fa.recovery[x].user == uid
      ensures !fa.recovery[x].used && fa.recovery[x].digest in digests
    {
      assert x in RecoveryRows(uid, digests, s.next);
    }
    forall d | d in digests ensures exists x :: IsRecovery(fa, uid, d, x) {
      var i :| 0 <= i < |digests| && digests[i] == d;
      assert IsIssued(s.next + i, s.next, |digests|);
      assert IsRecovery(fa, uid, d, s.next + i);
    }
    OthersKeepRecovery(s, uid, digests);
  }

  lemma OthersKeepRecovery(s: State, uid: nat, digests: seq<nat>)
    requires forall x :: x in s.fa.recovery ==> x < s.next
    ensures var fa := ReplaceRecovery(s, uid, digests).fa;
      && (forall x :: x in s.fa.recovery && s.fa.recovery[x].user != uid ==>
            x in fa.recovery && fa.recovery[x] == s.fa.recovery[x])
      && (forall x :: x in fa.recovery && fa.recovery[x].user != uid ==> x in s.fa.recovery)
  {
    var rows := RecoveryRows(uid, digests, s.next);
    forall x | x in rows ensures x >= s.next && rows[x].user == uid {
    }
  }

  /** New recovery codes replace the old ones against a spent proof. */
  lemma RegenerationAnswers(s: State, uid: nat, epoch: nat, session: nat, proof: FactorProof, digests: seq<nat>,
                            ok: bool)
    requires forall x :: x in s.fa.recovery ==> x < s.next
    ensures var (t, r) := Regenerate(s, uid, epoch, session, proof, digests, ok);
      if !MayAct(s, uid, epoch, session, ok) then r == Failed(SessionInvalid) && t == s
      else if !Proves(s, uid, proof) then r == Failed(BadCredentials) && t == s
      else
        && r.Done?
        && var spent := AfterProof(s, uid, proof);
           && RecoveryReplaced(spent, t.fa, uid, digests) && t.fa == spent.(recovery := t.fa.recovery)
           && t == s.(next := t.next, fa := t.fa)
  {
    ProofAnswers(s, uid, proof);
    if Proves(s, uid, proof) {
      Replacing(s.(fa := AfterProof(s, uid, proof)), uid, digests);
    }
  }

  // ---- Enrolling an authenticator ----

  /** The session a request is made in, if it is made in one, is a live one of the account. */
  predicate IsWithin(s: State, uid: nat, within: Option<nat>) {
    within.Some? ==> IsSession(s, uid, within.value)
  }

  /** An enrollment begins with a secret of its own, never used before and still to be confirmed. */
  lemma TotpStartAnswers(s: State, uid: nat, epoch: nat, within: Option<nat>, ok: bool)
    ensures var (t, r) := StartTotp(s, uid, epoch, within, ok);
      if !Stands(s, uid, epoch) || !ok then r == Failed(ChallengeInvalid) && t == s
      else if !IsWithin(s, uid, within) then r == Failed(SessionInvalid) && t == s
      else if uid in s.fa.totp && s.fa.totp[uid].confirmed then r == Failed(AlreadyConfirmed) && t == s
      else
        && r.Done? && t.fa == s.fa.(totp := s.fa.totp[uid := t.fa.totp[uid]]) && t == s.(next := t.next, fa := t.fa)
        && t.fa.totp[uid] == TotpSecret(t.fa.totp[uid].seed, false, epoch, None, within)
        && s.next <= t.fa.totp[uid].seed < t.next
  {
  }

  function Within(path: Enrolling): (session: Option<nat>) {
    match path
    case InSession(session) => Some(session)
    case PreAuth(_) => None
  }

  /** The challenge that lets an account enroll before its first session can still be spent for it. */
  predicate LetsEnroll(s: State, uid: nat, epoch: nat, path: Enrolling) {
    path.InSession?
    || (&& path.challenge in s.ch.rows && s.ch.rows[path.challenge].user == uid
        && s.ch.rows[path.challenge].purpose == Enroll2fa && s.ch.rows[path.challenge].epoch == epoch
        && !s.ch.rows[path.challenge].consumed && s.now < s.ch.rows[path.challenge].expires)
  }

  /** Before the first session its challenge is spent for one; in a session no challenge and no session changes. */
  ghost predicate Enrolls(s: State, t: State, uid: nat, path: Enrolling, reply: Reply) {
    match path
    case InSession(_) => reply.Done? && t.ch == s.ch && t.logins == s.logins
    case PreAuth(id) =>
      && reply == Enrolled(id) && id in s.ch.rows && t.ch.rows == s.ch.rows[id := s.ch.rows[id].(consumed := true)]
      && t.ch.codes == s.ch.codes && exists l: nat :: l !in s.logins && t.logins == s.logins[l := Login(uid, Some(id))]
  }

  lemma Finishing(s: State, uid: nat, epoch: nat, path: Enrolling)
    requires forall l :: l in s.logins ==> l < s.next
    ensures FinishPreAuth(s, uid, epoch, path).Some? <==> LetsEnroll(s, uid, epoch, path)
    ensures LetsEnroll(s, uid, epoch, path) ==>
              var t := FinishPreAuth(s, uid, epoch, path).value;
              Enrolls(s, t, uid, path, EnrollmentReply(path)) && t == s.(next := t.next, ch := t.ch, logins := t.logins)
  {
    assert s.next !in s.logins;
  }

  /** A secret is confirmed where it is the pending one, of this epoch, started in the same session or before any. */
  predicate IsPendingTotp(s: State, uid: nat, seed: nat, epoch: nat, path: Enrolling) {
    uid in s.fa.totp && s.fa.totp[uid].seed == seed && !s.fa.totp[uid].confirmed && s.fa.totp[uid].epoch == epoch
    && s.fa.totp[uid].session == Within(path)
  }

  lemma TotpConfirmationAnswers(s: State, uid: nat, epoch: nat, seed: nat, counter: int, digests: seq<nat>,
                                path: Enrolling, ok: bool)
    requires (forall l :: l in s.logins ==> l < s.next) && forall x :: x in s.fa.recovery ==> x < s.next
    ensures var (t, r) := CompleteTotp(s, uid, epoch, seed, counter, digests, path, ok);
      if !Stands(s, uid, epoch) || !ok then r == Failed(ChallengeInvalid) && t == s
      else if !IsWithin(s, uid, Within(path)) then r == Failed(SessionInvalid) && t == s
      else if !IsPendingTotp(s, uid, seed, epoch, path) then r == Failed(NoPendingFactor) && t == s
      else if !LetsEnroll(s, uid, epoch, path) then r == Failed(ChallengeInvalid) && t == s
      else
        && Enrolls(s, t, uid, path, r) && RecoveryReplaced(s.fa, t.fa, uid, digests)
        && t.fa == s.fa.(totp := s.fa.totp[uid := TotpSecret(seed, true, epoch, Some(counter), None)],
                         recovery := t.fa.recovery)
        && t == s.(next := t.next, ch := t.ch, logins := t.logins, fa := t.fa)
  {
    var s1 := s.(fa := s.fa.(totp := s.fa.totp[uid := TotpSecret(seed, true, epoch, Some(counter), None)]));
    Replacing(s1, uid, digests);
    Finishing(ReplaceRecovery(s1, uid, digests), uid, epoch, path);
  }

  // ---- Enrolling the e-mail factor ----

  /** A code of this use was mailed to the account no longer ago than the cooldown, never less than a minute. */
  ghost predicate IsCoolingFactor(s: State, uid: nat, stepUp: bool, cooldown: nat) {
    exists c :: c in s.fa.codes && s.fa.codes[c].user == uid && s.fa.codes[c].stepUp == stepUp
                && s.now - s.fa.codes[c].created <= (if cooldown < 60 then 60 else cooldown)
  }

  lemma CoolingIsFound(s: State, uid: nat, stepUp: bool, cooldown: nat)
    ensures MailedRecently(s, uid, stepUp, cooldown) <==> IsCoolingFactor(s, uid, stepUp, cooldown)
  {
  }

  /** The new code is the account's one unspent code of this use, for its own lifetime. */
  ghost predicate MailsOne(s: State, t: State, uid: nat, stepUp: bool, digest: nat, ttl: nat) {
    && (exists c :: c !in s.fa.codes && t.fa.codes.Keys == s.fa.codes.Keys + {c}
                    && t.fa.codes[c] == FactorCode(uid, stepUp, digest, s.now, s.now + ttl, false))
    && (forall c :: c in s.fa.codes ==>
          t.fa.codes[c] == s.fa.codes[c].(consumed := s.fa.codes[c].consumed
                                                      || (s.fa.codes[c].user == uid && s.fa.codes[c].stepUp == stepUp)))
  }

  lemma Mailing(s: State, uid: nat, stepUp: bool, digest: nat, ttl: nat)
    requires forall c :: c in s.fa.codes ==> c < s.next
    ensures MailsOne(s, MailFactorCode(s, uid, stepUp, digest, ttl), uid, stepUp, digest, ttl)
  {
    assert s.next !in s.fa.codes;
  }

  /** The e-mail factor is started by mailing a code; the cooldown is looked at before whether it is confirmed. */
  lemma EmailStartAnswers(s: State, uid: nat, epoch: nat, within: Option<nat>, digest: nat, ttl: nat, cooldown: nat,
                          ok: bool)
    requires forall c :: c in s.fa.codes ==> c < s.next
    ensures var (t, r) := StartEmail(s, uid, epoch, within, digest, ttl, cooldown, ok);
      if !Stands(s, uid, epoch) || !ok then r == Failed(ChallengeInvalid) && t == s
      else if !IsWithin(s, uid, within) then r == Failed(SessionInvalid) && t == s
      else if IsCoolingFactor(s, uid, false, cooldown) then r == Failed(TooSoon) && t == s
      else if uid in s.fa.emails && s.fa.emails[uid].confirmed then r == Failed(AlreadyConfirmed) && t == s
      else
        && r.Done? && MailsOne(s, t, uid, false, digest, ttl)
        && t.fa == s.fa.(codes := t.fa.codes, emails := s.fa.emails[uid := EmailFactor(false, epoch, within)])
        && t == s.(next := t.next, fa := t.fa)
  {
    CoolingIsFound(s, uid, false, cooldown);
    Mailing(s, uid, false, digest, ttl);
  }

  lemma StepUpAnswers(s: State, uid: nat, epoch: nat, session: nat, digest: nat, ttl: nat, cooldown: nat, ok: bool)
    requires forall c :: c in s.fa.codes ==> c < s.next
    ensures var (t, r) := SendStepUp(s, uid, epoch, session, digest, ttl, cooldown, ok);
      if !MayAct(s, uid, epoch, session, ok) then r == Failed(SessionInvalid) && t == s
      else if !(uid in s.fa.emails && s.fa.emails[uid].confirmed) then r == Failed(NoPendingFactor) && t == s
      else if IsCoolingFactor(s, uid, true, cooldown) then r == Failed(TooSoon) && t == s
      else
        && r.Done? && MailsOne(s, t, uid, true, digest, ttl) && t.fa == s.fa.(codes := t.fa.codes)
        && t == s.(next := t.next, fa := t.fa)
  {
    CoolingIsFound(s, uid, true, cooldown);
    Mailing(s, uid, true, digest, ttl);
  }

  /** The pending factor is of this epoch; a session confirms only what it started, before the first one anything. */
  predicate IsPendingEmail(s: State, uid: nat, epoch: nat, path: Enrolling) {
    && uid in s.fa.emails && !s.fa.emails[uid].confirmed && s.fa.emails[uid].epoch == epoch
    && (path.InSession? ==> s.fa.emails[uid].session == Some(path.session))
  }

  /** The enrollment code is spent with the confirmation or not at all. */
  lemma EmailConfirmationAnswers(s: State, uid: nat, epoch: nat, digest: nat, digests: seq<nat>, path: Enrolling,
                                 ok: bool)
    requires (forall l :: l in s.logins ==> l < s.next) && forall x :: x in s.fa.recovery ==> x < s.next
    ensures var (t, r) := CompleteEmail(s, uid, epoch, digest, digests, path, ok);
      if !Stands(s, uid, epoch) || !ok then r == Failed(ChallengeInvalid) && t == s
      else if !IsWithin(s, uid, Within(path)) then r == Failed(SessionInvalid) && t == s
      else if !(exists c :: IsFactorCode(s, uid, false, digest, c)) then r == Failed(BadCredentials) && t == s
      else if !IsPendingEmail(s, uid, epoch, path) then r == Failed(NoPendingFactor) && t == s
      else if !LetsEnroll(s, uid, epoch, path) then r == Failed(ChallengeInvalid) && t == s
      else
        && Enrolls(s, t, uid, path, r) && RecoveryReplaced(s.fa, t.fa, uid, digests)
        && t.fa.codes.Keys == s.fa.codes.Keys
        && (forall c :: c in s.fa.codes ==>
              t.fa.codes[c] == s.fa.codes[c].(consumed := s.fa.codes[c].consumed
                                                          || IsFactorCode(s, uid, false, digest, c)))
        && t.fa == s.fa.(emails := s.fa.emails[uid := EmailFactor(true, epoch, None)], codes := t.fa.codes,
                         recovery := t.fa.recovery)
        && t == s.(next := t.next, ch := t.ch, logins := t.logins, fa := t.fa)
  {
    FactorCodeIsFound(s, uid, false, digest);
    var s1 := s.(fa := SpendFactorCode(s, uid, false, digest)
                       .(emails := s.fa.emails[uid := EmailFactor(true, epoch, None)]));
    Replacing(s1, uid, digests);
    Finishing(ReplaceRecovery(s1, uid, digests), uid, epoch, path);
  }
}
