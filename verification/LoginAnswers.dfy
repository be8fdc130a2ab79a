/** What the transactions around a login challenge answer and change, read off the columns of the tables. */
module LoginAnswers {
  import opened Wrappers
  import opened TwoFactorModel
  import ChallengeRuns

  /** The account is active, and its credentials are still those of the epoch. */
  predicate Stands(s: State, uid: nat, epoch: nat) {
    uid in s.users && s.users[uid].active && s.users[uid].epoch == epoch
  }

  /** Unspent and in time, and the account it was opened for stands. */
  predicate IsOpen(s: State, id: nat) {
    && id in s.ch.rows && !s.ch.rows[id].consumed && s.now < s.ch.rows[id].expires
    && Stands(s, s.ch.rows[id].user, s.ch.rows[id].epoch)
  }

  // ---- Opening, charging and spending a challenge ----

  predicate IsReplaced(s: State, prev: nat, uid: nat, purpose: Purpose, epoch: nat) {
    && prev in s.ch.rows && s.ch.rows[prev].user == uid && s.ch.rows[prev].purpose == purpose
    && s.ch.rows[prev].epoch == epoch && !s.ch.rows[prev].consumed && s.now < s.ch.rows[prev].expires
  }

  /**
    A replacement has what is left of the challenge it replaces: the guesses, the
    sends and the time. Its provenance can only get weaker, and the codes mailed
    for the old one follow it, spent.
  */
  lemma ReplacementInherits(s: State, prev: nat, uid: nat, purpose: Purpose, epoch: nat, proven: bool)
    requires ChallengeRuns.Inv(s) && Stands(s, uid, epoch) && IsReplaced(s, prev, uid, purpose, epoch)
    ensures var (t, r) := CreateChallenge(s, uid, purpose, epoch, proven);
      && r.Created? && r.challenge in t.ch.rows
      && var (old', new') := (s.ch.rows[prev], t.ch.rows[r.challenge]);
         && new'.attempts == old'.attempts && new'.sends == old'.sends && new'.expires == old'.expires
         && new'.proven == (old'.proven || proven) && new'.root == old'.root
         && t.ch.codes.Keys == s.ch.codes.Keys
         && forall c :: c in s.ch.codes ==>
              t.ch.codes[c] == if s.ch.codes[c].challenge == prev
                               then s.ch.codes[c].(challenge := r.challenge, consumed := true) else s.ch.codes[c]
  {
    ReplacesOnly(s, prev, uid, purpose, epoch, proven);
  }

  lemma ReplacesOnly(s: State, prev: nat, uid: nat, purpose: Purpose, epoch: nat, proven: bool)
    requires ChallengeRuns.Inv(s) && Stands(s, uid, epoch) && IsReplaced(s, prev, uid, purpose, epoch)
    ensures CreateChallenge(s, uid, purpose, epoch, proven) == (NextChallenge(s, prev, proven), Created(s.next))
  {
    assert IsPrevious(s, prev, uid, purpose, epoch);
    assert forall x :: IsPrevious(s, x, uid, purpose, epoch) ==> x == prev;
  }

  /** The challenge is the only one of its account and purpose left to use, and no other row changed. */
  ghost predicate LeavesOne(s: State, t: State, id: nat, uid: nat, purpose: Purpose) {
    && id !in s.ch.rows && t.ch.rows.Keys == s.ch.rows.Keys + {id}
    && IsOpen(t, id) && t.ch.rows[id].user == uid && t.ch.rows[id].purpose == purpose
    && (forall x :: x in s.ch.rows ==>
          t.ch.rows[x] == s.ch.rows[x].(consumed := s.ch.rows[x].consumed
                                                    || (s.ch.rows[x].user == uid && s.ch.rows[x].purpose == purpose)))
    && t == s.(next := t.next, ch := t.ch)
  }

  /** A standing account gets one challenge left to use of the purpose; nobody else's challenge changes. */
  lemma CreationAnswers(s: State, uid: nat, purpose: Purpose, epoch: nat, proven: bool)
    requires ChallengeRuns.Inv(s)
    ensures var (t, r) := CreateChallenge(s, uid, purpose, epoch, proven);
      if !Stands(s, uid, epoch) then r == Failed(ChallengeInvalid) && t == s
      else r.Created? && LeavesOne(s, t, r.challenge, uid, purpose)
  {
    assert s.next in s.ch.rows ==> ChallengeRuns.RowInv(s, s.next);
    if Stands(s, uid, epoch) {
      if prev :| IsReplaced(s, prev, uid, purpose, epoch) {
        ReplacesOnly(s, prev, uid, purpose, epoch, proven);
        ReplacementLeavesOne(s, prev, proven);
      } else {
        OpensFirst(s, uid, purpose, epoch, proven);
        FirstLeavesOne(s, uid, purpose, epoch, proven);
      }
    }
  }

  lemma ReplacementLeavesOne(s: State, prev: nat, proven: bool)
    requires IsOpen(s, prev) && s.next !in s.ch.rows
    ensures LeavesOne(s, NextChallenge(s, prev, proven), s.next, s.ch.rows[prev].user, s.ch.rows[prev].purpose)
  {
  }

  lemma FirstLeavesOne(s: State, uid: nat, purpose: Purpose, epoch: nat, proven: bool)
    requires Stands(s, uid, epoch) && s.next !in s.ch.rows
    ensures LeavesOne(s, FirstChallenge(s, uid, purpose, epoch, proven), s.next, uid, purpose)
  {
  }

  lemma OpensFirst(s: State, uid: nat, purpose: Purpose, epoch: nat, proven: bool)
    requires Stands(s, uid, epoch) && forall x :: !IsReplaced(s, x, uid, purpose, epoch)
    ensures CreateChallenge(s, uid, purpose, epoch, proven)
            == (FirstChallenge(s, uid, purpose, epoch, proven), Created(s.next))
  {
    assert forall x :: IsPrevious(s, x, uid, purpose, epoch) ==> IsReplaced(s, x, uid, purpose, epoch);
  }

  /** With nothing to replace a challenge starts with its whole budget and ten minutes. */
  lemma FirstHasWholeBudget(s: State, uid: nat, purpose: Purpose, epoch: nat, proven: bool)
    requires Stands(s, uid, epoch) && forall x :: !IsReplaced(s, x, uid, purpose, epoch)
    ensures var (t, r) := CreateChallenge(s, uid, purpose, epoch, proven);
      && r.Created? && r.challenge in t.ch.rows
      && t.ch.rows[r.challenge].attempts == 0 && t.ch.rows[r.challenge].sends == 0
      && t.ch.rows[r.challenge].expires == s.now + 600 && t.ch.rows[r.challenge].proven == proven
      && t.ch.codes == s.ch.codes
  {
    OpensFirst(s, uid, purpose, epoch, proven);
  }

  /** Of a challenge that is open the first five guesses are charged, and only counted. */
  lemma GuessAnswers(s: State, id: nat)
    ensures var (t, r) := BumpAttempt(s, id);
      if !IsOpen(s, id) then r == Failed(ChallengeInvalid) && t == s
      else if s.ch.rows[id].attempts >= 5 then r == Failed(Exhausted) && t == s
      else
        && r == Charged(s.ch.rows[id].attempts + 1)
        && t.ch.rows == s.ch.rows[id := s.ch.rows[id].(attempts := s.ch.rows[id].attempts + 1)]
        && t == s.(ch := s.ch.(rows := t.ch.rows, lineages := t.ch.lineages))
  {
  }

  lemma SpendingAnswers(s: State, id: nat)
    ensures var (t, r) := ConsumeChallenge(s, id);
      if !IsOpen(s, id) then r == Failed(ChallengeInvalid) && t == s
      else
        && r.Done? && t.ch.rows == s.ch.rows[id := s.ch.rows[id].(consumed := true)]
        && t == s.(ch := s.ch.(rows := t.ch.rows, lineages := t.ch.lineages))
  {
  }

  /** A code was mailed for the challenge no longer ago than the cooldown, which is never less than a minute. */
  ghost predicate IsCooling(s: State, id: nat, cooldown: nat) {
    exists c :: c in s.ch.codes && s.ch.codes[c].challenge == id
                && s.now - s.ch.codes[c].created <= (if cooldown < 60 then 60 else cooldown)
  }

  /** What a request for a mailed code is told, in the order in which the reasons are looked at. */
  lemma SendingAnswers(s: State, id: nat, digest: nat, ttl: nat, cooldown: nat, enrolled: bool)
    ensures var (t, r) := SendCode(s, id, digest, ttl, cooldown, enrolled);
      if !IsOpen(s, id) || s.ch.rows[id].purpose != Totp2fa then r == Failed(ChallengeInvalid) && t == s
      else if s.ch.rows[id].proven || !enrolled then r == Failed(FactorUnavailable) && t == s
      else if s.ch.rows[id].sends >= 3 then r == Failed(SendsExhausted) && t == s
      else if IsCooling(s, id, cooldown) then r == Failed(TooSoon) && t == s
      else r == Mailed(s.ch.rows[id].sends + 1)
  {
    assert Cooled(s, id, cooldown) <==> !IsCooling(s, id, cooldown);
  }

  /** A code that is mailed is the one unspent code of its account, for this challenge and its own lifetime. */
  lemma MailedCodeStandsAlone(s: State, id: nat, digest: nat, ttl: nat, cooldown: nat, enrolled: bool)
    requires SendCode(s, id, digest, ttl, cooldown, enrolled).1.Mailed?
    requires forall c :: c in s.ch.codes ==> c < s.next
    ensures var t := SendCode(s, id, digest, ttl, cooldown, enrolled).0;
      && t.ch.rows == s.ch.rows[id := s.ch.rows[id].(sends := s.ch.rows[id].sends + 1)]
      && (exists c :: c !in s.ch.codes && t.ch.codes.Keys == s.ch.codes.Keys + {c}
                      && t.ch.codes[c] == Code(s.ch.rows[id].user, id, digest, s.now, s.now + ttl, false))
      && (forall c :: c in s.ch.codes ==>
            t.ch.codes[c] == s.ch.codes[c].(consumed := s.ch.codes[c].consumed
                                                        || s.ch.codes[c].user == s.ch.rows[id].user))
      && t == s.(next := t.next, ch := t.ch)
  {
    assert s.next !in s.ch.codes;
  }

  // ---- Completing a login ----

  /** A time step of the account's confirmed authenticator, later than any it has accepted. */
  predicate IsTotp(fa: Factors, uid: nat, seed: nat, counter: int) {
    && uid in fa.totp && fa.totp[uid].confirmed && fa.totp[uid].seed == seed
    && (fa.totp[uid].counter.Some? ==> fa.totp[uid].counter.value < counter)
  }

  /** An unused recovery code of the account. */
  predicate IsRecovery(fa: Factors, uid: nat, digest: nat, x: nat) {
    x in fa.recovery && fa.recovery[x] == Recovery(uid, digest, false)
  }

  /** An unspent code mailed to the account for this challenge, whose time is not over. */
  predicate IsMailed(s: State, uid: nat, id: nat, digest: nat, c: nat) {
    && c in s.ch.codes && s.ch.codes[c].user == uid && s.ch.codes[c].challenge == id && s.ch.codes[c].digest == digest
    && !s.ch.codes[c].consumed && s.now < s.ch.codes[c].expires
  }

  ghost predicate ProvesTotp(s: State, uid: nat, proof: ChallengeProof) {
    proof.totp.Some? && IsTotp(s.fa, uid, proof.totp.value.0, proof.totp.value.1)
  }

  ghost predicate ProvesEmail(s: State, uid: nat, id: nat, proof: ChallengeProof) {
    proof.email.Some? && exists c :: IsMailed(s, uid, id, proof.email.value, c)
  }

  ghost predicate ProvesRecovery(s: State, uid: nat, proof: ChallengeProof) {
    proof.recovery.Some? && exists x :: IsRecovery(s.fa, uid, proof.recovery.value, x)
  }

  /** The proof a code turns out to be: a time step before a mailed code before a recovery code. */
  ghost function ProvenBy(s: State, uid: nat, id: nat, proof: ChallengeProof): (via: Option<Method>) {
    if ProvesTotp(s, uid, proof) then Some(ByTotp)
    else if ProvesEmail(s, uid, id, proof) then Some(ByEmail)
    else if ProvesRecovery(s, uid, proof) then Some(ByRecovery)
    else None
  }

  lemma ProofIsFound(s: State, uid: nat, id: nat, proof: ChallengeProof)
    ensures var spent := SpendLoginProof(s, uid, id, proof);
            ProvenBy(s, uid, id, proof) == if spent.Some? then Some(spent.value.1) else None
  {
    if proof.email.Some? {
      assert HasCode(s, uid, id, proof.email.value) <==> ProvesEmail(s, uid, id, proof) by {
        var digest := proof.email.value;
        assert forall c :: CodeMatches(s, c, uid, id, digest) <==> IsMailed(s, uid, id, digest, c);
      }
    }
    if proof.recovery.Some? {
      RecoveryIsFound(s.fa, uid, proof.recovery.value);
    }
  }

  lemma RecoveryIsFound(fa: Factors, uid: nat, digest: nat)
    ensures HasRecovery(fa, uid, digest) <==> exists x :: IsRecovery(fa, uid, digest, x)
  {
    assert forall x :: RecoveryMatches(fa, x, uid, digest) <==> IsRecovery(fa, uid, digest, x);
  }

  /**
    A login is completed exactly with one of the three proofs of its own account,
    while its challenge is open, awaits a second factor and has been guessed at no
    more than five times; everything else leaves the tables as they were.
  */
  lemma CompletionAnswers(s: State, id: nat, proof: ChallengeProof)
    ensures var (t, r) := Complete2FA(s, id, proof);
      if !IsOpen(s, id) || s.ch.rows[id].purpose != Totp2fa || s.ch.rows[id].attempts > 5
      then r == Failed(ChallengeInvalid) && t == s
      else
        match ProvenBy(s, s.ch.rows[id].user, id, proof)
        case None => r == Failed(BadCredentials) && t == s
        case Some(via) => r == LoggedIn(id, via)
  {
    if id in s.ch.rows {
      ProofIsFound(s, s.ch.rows[id].user, id, proof);
    }
  }

  /** A guess that was charged and failed stays charged; the sixth is not looked at. */
  lemma VerificationAnswers(s: State, id: nat, proof: ChallengeProof)
    ensures var charged := BumpAttempt(s, id);
      var (t, r) := if charged.1.Failed? then charged else Complete2FA(charged.0, id, proof);
      if !IsOpen(s, id) then r == Failed(ChallengeInvalid) && t == s
      else if s.ch.rows[id].attempts >= 5 then r == Failed(Exhausted) && t == s
      else if s.ch.rows[id].purpose != Totp2fa then r == Failed(ChallengeInvalid) && t == charged.0
      else
        match ProvenBy(s, s.ch.rows[id].user, id, proof)
        case None => r == Failed(BadCredentials) && t == charged.0
        case Some(via) => r == LoggedIn(id, via)
  {
    GuessAnswers(s, id);
    var charged := BumpAttempt(s, id).0;
    CompletionAnswers(charged, id, proof);
    if IsOpen(s, id) {
      SameProof(s, charged, s.ch.rows[id].user, id, proof);
    }
  }

  lemma SameProof(s: State, t: State, uid: nat, id: nat, proof: ChallengeProof)
    requires t.fa == s.fa && t.ch.codes == s.ch.codes && t.now == s.now
    ensures ProvenBy(t, uid, id, proof) == ProvenBy(s, uid, id, proof)
  {
    if proof.email.Some? {
      assert forall c :: IsMailed(t, uid, id, proof.email.value, c) <==> IsMailed(s, uid, id, proof.email.value, c);
    }
  }

  /** What spending the proof leaves: the step recorded, the mailed code consumed, or the recovery code used. */
  ghost predicate SpendsProof(s: State, t: State, uid: nat, id: nat, proof: ChallengeProof, via: Method) {
    match via
    case ByTotp =>
      && proof.totp.Some? && uid in s.fa.totp && t.ch.codes == s.ch.codes
      && t.fa == s.fa.(totp := s.fa.totp[uid := s.fa.totp[uid].(counter := Some(proof.totp.value.1))])
    case ByEmail =>
      && proof.email.Some? && t.fa == s.fa && t.ch.codes.Keys == s.ch.codes.Keys
      && forall c :: c in s.ch.codes ==>
           t.ch.codes[c] == s.ch.codes[c].(consumed := s.ch.codes[c].consumed
                                                       || IsMailed(s, uid, id, proof.email.value, c))
    case ByRecovery =>
      && proof.recovery.Some? && t.ch.codes == s.ch.codes && t.fa == s.fa.(recovery := t.fa.recovery)
      && t.fa.recovery.Keys == s.fa.recovery.Keys
      && forall x :: x in s.fa.recovery ==>
           t.fa.recovery[x] == s.fa.recovery[x].(used := s.fa.recovery[x].used
                                                         || IsRecovery(s.fa, uid, proof.recovery.value, x))
  }

  /** A login spends its proof and its challenge for one session of the challenge's account; nothing else moves. */
  lemma LoginSpendsAndOpens(s: State, id: nat, proof: ChallengeProof)
    requires Complete2FA(s, id, proof).1.LoggedIn? && forall l :: l in s.logins ==> l < s.next
    ensures var (t, r) := Complete2FA(s, id, proof);
      && id in s.ch.rows && t.ch.rows == s.ch.rows[id := s.ch.rows[id].(consumed := true)]
      && SpendsProof(s, t, s.ch.rows[id].user, id, proof, r.via)
      && (exists l: nat :: l !in s.logins && t.logins == s.logins[l := Login(s.ch.rows[id].user, Some(id))])
      && t.users == s.users && t.artefacts == s.artefacts && t.now == s.now
  {
    ProofIsSpent(s, s.ch.rows[id].user, id, proof);
    assert s.next !in s.logins;
  }

  lemma ProofIsSpent(s: State, uid: nat, id: nat, proof: ChallengeProof)
    requires SpendLoginProof(s, uid, id, proof).Some?
    ensures var (t, via) := SpendLoginProof(s, uid, id, proof).value;
            SpendsProof(s, t, uid, id, proof, via) && t == s.(fa := t.fa, ch := s.ch.(codes := t.ch.codes))
  {
  }

  /** A login without second factor needs a standing account, and opens one session that comes from no challenge. */
  lemma PlainLoginAnswers(s: State, uid: nat, epoch: nat)
    requires forall l :: l in s.logins ==> l < s.next
    ensures var (t, r) := IssueSession(s, uid, epoch);
      if !Stands(s, uid, epoch) then r == Failed(SessionInvalid) && t == s
      else
        && r.Done? && (exists l: nat :: l !in s.logins && t.logins == s.logins[l := Login(uid, None)])
        && t == s.(next := t.next, logins := t.logins)
  {
    assert s.next !in s.logins;
  }
}
