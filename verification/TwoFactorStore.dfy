/** The two-factor tables as an object whose methods are the repository's transactions. */
module TwoFactorStore {
  import opened Wrappers
  import opened TwoFactorModel
  import ChallengeRuns
  import EpochTheorems
  import FactorRuns
  import opened FactorAnswers
  import opened LoginAnswers

  class Repository {
    var now: int
    var next: nat
    var users: map<nat, User>
    var challenges: map<nat, Challenge>
    var codes: map<nat, Code>
    var totp: map<nat, TotpSecret>
    var emails: map<nat, EmailFactor>
    var factorCodes: map<nat, FactorCode>
    var recovery: map<nat, Recovery>
    var artefacts: map<nat, Artefact>
    var logins: map<nat, Login>
    ghost var lineages: map<nat, Lineage>

    ghost function St(): (s: State)
      reads this
    {
      State(now, next, users, Challenges(challenges, codes, lineages), Factors(totp, emails, factorCodes, recovery),
            artefacts, logins)
    }

    /** What is proved of every run holds of the object at every moment. */
    ghost predicate Valid()
      reads this
    {
      Reachable(St())
    }

    constructor ()
      ensures Valid() && St() == Init()
    {
      now, next, users := 0, 0, map[];
      challenges, codes, lineages := map[], map[], map[];
      totp, emails, factorCodes, recovery, artefacts, logins := map[], map[], map[], map[], map[], map[];
      new;
      assert Run([]) == St();
    }

    // ---- Challenges ----

    predicate Live(id: nat)
      reads this
    {
      && id in challenges && !challenges[id].consumed && challenges[id].expires > now
      && challenges[id].user in users && users[challenges[id].user].active
      && users[challenges[id].user].epoch == challenges[id].epoch
    }

    predicate LiveAccount(uid: nat, epoch: nat)
      reads this
    {
      uid in users && users[uid].active && users[uid].epoch == epoch
    }

    /** The challenge created is the one challenge of its account and purpose that is left to use. */
    method CreateChallenge(uid: nat, purpose: Purpose, epoch: nat, proven: bool) returns (reply: Reply)
      requires Valid()
      modifies this
      ensures Valid() && (St(), reply) == TwoFactorModel.CreateChallenge(old(St()), uid, purpose, epoch, proven)
      ensures reply.Created? ==> OnlyOpen(St(), reply.challenge, uid, purpose)
    {
      StepIsReachable(St(), ECreateChallenge(uid, purpose, epoch, proven));
      if !LiveAccount(uid, epoch) {
        return Failed(ChallengeInvalid);
      }
      reply := Created(next);
      if prev: nat :| prev in challenges && challenges[prev].user == uid && challenges[prev].purpose == purpose
                      && challenges[prev].epoch == epoch && !challenges[prev].consumed
                      && challenges[prev].expires > now {
        assert IsPrevious(St(), prev, uid, purpose, epoch);
        CreateContinues(St(), prev, uid, purpose, epoch, proven);
        NextIsOnly(St(), prev, proven);
        Replace(prev, proven);
      } else {
        assert forall x :: !IsPrevious(St(), x, uid, purpose, epoch);
        CreateOpens(St(), uid, purpose, epoch, proven);
        FirstIsOnly(St(), uid, purpose, epoch, proven);
        Open(uid, purpose, epoch, proven);
      }
    }

    method Supersede(uid: nat, purpose: Purpose)
      modifies `challenges
      ensures challenges == Superseded(old(challenges), uid, purpose)
    {
      challenges := map id | id in challenges ::
        if challenges[id].user == uid && challenges[id].purpose == purpose then challenges[id].(consumed := true)
        else challenges[id];
    }

    method Open(uid: nat, purpose: Purpose, epoch: nat, proven: bool)
      modifies this
      ensures St() == FirstChallenge(old(St()), uid, purpose, epoch, proven)
    {
      Supersede(uid, purpose);
      challenges := challenges[next := Challenge(uid, purpose, epoch, 0, 0, now + CHALLENGE_TTL, proven, false, next)];
      lineages := lineages[next := Lineage(uid, purpose, epoch, now, 0, [], proven, None, None)];
      next := next + 1;
    }

    method Replace(prev: nat, proven: bool)
      requires prev in challenges
      modifies this
      ensures St() == NextChallenge(old(St()), prev, proven)
    {
      var row := challenges[prev];
      Supersede(row.user, row.purpose);
      challenges := challenges[next := row.(proven := row.proven || proven)];
      MoveCodes(prev, next);
      lineages := Flagged(lineages, row.root, proven);
      next := next + 1;
    }

    /** The digest of a mailed code names its challenge, so a moved code is spent. */
    method MoveCodes(from: nat, to: nat)
      modifies `codes
      ensures codes == MovedCodes(old(codes), from, to)
    {
      codes := map c | c in codes ::
        if codes[c].challenge == from then codes[c].(challenge := to, consumed := true) else codes[c];
    }

    method BumpAttempt(id: nat) returns (reply: Reply)
      requires Valid()
      modifies this
      ensures Valid() && (St(), reply) == TwoFactorModel.BumpAttempt(old(St()), id)
      ensures reply.Charged? ==> Live(id) && 0 < reply.attempts == challenges[id].attempts <= MAX_ATTEMPTS
    {
      StepIsReachable(St(), EBumpAttempt(id));
      if !Live(id) {
        return Failed(ChallengeInvalid);
      }
      var row := challenges[id];
      if row.attempts >= MAX_ATTEMPTS {
        return Failed(Exhausted);
      }
      challenges := challenges[id := row.(attempts := row.attempts + 1)];
      lineages := Guessed(lineages, row.root);
      reply := Charged(row.attempts + 1);
    }

    method MarkConsumed(id: nat, ghost via: Option<Method>)
      requires id in challenges
      modifies `challenges, `lineages
      ensures St() == Spend(old(St()), id, via)
    {
      lineages := Closed(lineages, challenges[id].root, now, via);
      challenges := challenges[id := challenges[id].(consumed := true)];
    }

    method ConsumeChallenge(id: nat) returns (reply: Reply)
      requires Valid()
      modifies this
      ensures Valid() && (St(), reply) == TwoFactorModel.ConsumeChallenge(old(St()), id)
      ensures reply.Done? <==> old(Live(id))
      ensures !Live(id)
    {
      StepIsReachable(St(), EConsumeChallenge(id));
      if !Live(id) {
        return Failed(ChallengeInvalid);
      }
      MarkConsumed(id, None);
      reply := Done;
    }

    /** The handler's guard, then one transaction that charges a send and publishes the account's only unspent code. */
    method CreateChallengeEmailOTP(id: nat, digest: nat, ttl: nat, cooldown: nat, enrolled: bool) returns (reply: Reply)
      requires Valid()
      modifies this
      ensures Valid() && (St(), reply) == SendCode(old(St()), id, digest, ttl, cooldown, enrolled)
      ensures reply.Mailed? ==> Live(id) && 0 < reply.sends == challenges[id].sends <= MAX_SENDS
      ensures reply.Mailed? ==> forall c :: c in codes && codes[c].user == challenges[id].user && !codes[c].consumed
                                            ==> codes[c].challenge == id && codes[c].digest == digest
    {
      StepIsReachable(St(), ESendCode(id, digest, ttl, cooldown, enrolled));
      if !Live(id) || challenges[id].purpose != Totp2fa {
        return Failed(ChallengeInvalid);
      }
      var row := challenges[id];
      if row.proven || !enrolled {
        return Failed(FactorUnavailable);
      }
      if row.sends >= MAX_SENDS {
        return Failed(SendsExhausted);
      }
      if c: nat :| c in codes && codes[c].challenge == id && codes[c].created >= now - Max(cooldown, RESEND_INTERVAL) {
        return Failed(TooSoon);
      }
      assert Cooled(St(), id, cooldown);
      PublishCode(id, digest, ttl);
      reply := Mailed(row.sends + 1);
    }

    /** The send is charged, the account's other codes are spent and the new one takes their place. */
    method PublishCode(id: nat, digest: nat, ttl: nat)
      requires id in challenges
      modifies this
      ensures St() == Publish(old(St()), id, digest, ttl)
    {
      var row := challenges[id];
      codes := CodesSpent(codes, row.user)[next := Code(row.user, id, digest, now, now + ttl, false)];
      challenges := challenges[id := row.(sends := row.sends + 1)];
      lineages := Sent(lineages, row.root, now);
      next := next + 1;
    }

    // ---- Proofs ----

    method ConsumeTotp(uid: nat, seed: nat, counter: int) returns (ok: bool)
      modifies `totp
      ensures ok == TotpAccepts(old(St()).fa, uid, seed, counter)
      ensures St().fa == if ok then SpendTotp(old(St()).fa, uid, counter) else old(St()).fa
    {
      ok := uid in totp && totp[uid].confirmed && totp[uid].seed == seed
            && (totp[uid].counter == None || totp[uid].counter.value < counter);
      if ok {
        totp := totp[uid := totp[uid].(counter := Some(counter))];
      }
    }

    method ConsumeRecovery(uid: nat, digest: nat) returns (ok: bool)
      modifies `recovery
      ensures ok == HasRecovery(old(St()).fa, uid, digest)
      ensures St().fa == if ok then SpendRecovery(old(St()).fa, uid, digest) else old(St()).fa
    {
      if id: nat :| id in recovery && recovery[id].user == uid && recovery[id].digest == digest && !recovery[id].used {
        assert RecoveryMatches(St().fa, id, uid, digest);
        recovery := map x | x in recovery ::
          if recovery[x].user == uid && recovery[x].digest == digest && !recovery[x].used
          then recovery[x].(used := true) else recovery[x];
        ok := true;
      } else {
        assert forall id :: id in recovery ==> !RecoveryMatches(St().fa, id, uid, digest);
        ok := false;
      }
    }

    method ConsumeLoginCode(uid: nat, id: nat, digest: nat) returns (ok: bool)
      modifies `codes
      ensures ok == HasCode(old(St()), uid, id, digest)
      ensures St() == if ok then SpendCode(old(St()), uid, id, digest) else old(St())
    {
      if c: nat :| c in codes && codes[c].user == uid && codes[c].challenge == id && codes[c].digest == digest
                   && !codes[c].consumed && codes[c].expires > now {
        assert CodeMatches(St(), c, uid, id, digest);
        codes := map x | x in codes ::
          if codes[x].user == uid && codes[x].challenge == id && codes[x].digest == digest
             && !codes[x].consumed && codes[x].expires > now then codes[x].(consumed := true) else codes[x];
        ok := true;
      } else {
        assert forall c :: c in codes ==> !CodeMatches(St(), c, uid, id, digest);
        ok := false;
      }
    }

    method ConsumeFactorCode(uid: nat, stepUp: bool, digest: nat) returns (ok: bool)
      modifies `factorCodes
      ensures ok == HasFactorCode(old(St()), uid, stepUp, digest)
      ensures St().fa == if ok then SpendFactorCode(old(St()), uid, stepUp, digest) else old(St()).fa
    {
      if c: nat :| c in factorCodes && factorCodes[c].user == uid && factorCodes[c].stepUp == stepUp
                   && factorCodes[c].digest == digest && !factorCodes[c].consumed && factorCodes[c].expires > now {
        assert FactorCodeMatches(St(), c, uid, stepUp, digest);
        factorCodes := map x | x in factorCodes ::
          if factorCodes[x].user == uid && factorCodes[x].stepUp == stepUp && factorCodes[x].digest == digest
             && !factorCodes[x].consumed && factorCodes[x].expires > now then factorCodes[x].(consumed := true)
          else factorCodes[x];
        ok := true;
      } else {
        assert forall c :: c in factorCodes ==> !FactorCodeMatches(St(), c, uid, stepUp, digest);
        ok := false;
      }
    }

    /** Tries the proofs one code can be in turn and spends the first that is accepted. */
    method ConsumeChallengeProof(uid: nat, id: nat, proof: ChallengeProof) returns (via: Option<Method>)
      modifies `totp, `codes, `recovery
      ensures var spent := SpendLoginProof(old(St()), uid, id, proof);
              if spent.Some? then St() == spent.value.0 && via == Some(spent.value.1)
              else St() == old(St()) && via == None
      ensures via == old(ProvenBy(St(), uid, id, proof))
      ensures via.Some? ==> SpendsProof(old(St()), St(), uid, id, proof, via.value)
    {
      ProofIsFound(St(), uid, id, proof);
      if SpendLoginProof(St(), uid, id, proof).Some? {
        ProofIsSpent(St(), uid, id, proof);
      }
      if proof.totp.Some? {
        var ok := ConsumeTotp(uid, proof.totp.value.0, proof.totp.value.1);
        if ok {
          return Some(ByTotp);
        }
      }
      if proof.email.Some? {
        var ok := ConsumeLoginCode(uid, id, proof.email.value);
        if ok {
          return Some(ByEmail);
        }
      }
      if proof.recovery.Some? {
        var ok := ConsumeRecovery(uid, proof.recovery.value);
        if ok {
          return Some(ByRecovery);
        }
      }
      via := None;
    }

    method OpenLogin(uid: nat, from: Option<nat>)
      modifies `logins, `next
      ensures St() == TwoFactorModel.OpenLogin(old(St()), uid, from)
    {
      logins := logins[next := Login(uid, from)];
      next := next + 1;
    }

    /** A proof and the challenge buy one session, of the challenge's account. */
    method Complete2FA(id: nat, proof: ChallengeProof) returns (reply: Reply)
      requires Valid()
      modifies this
      ensures Valid() && (St(), reply) == TwoFactorModel.Complete2FA(old(St()), id, proof)
      ensures if reply.Failed? then logins == old(logins)
              else reply.LoggedIn? && reply.challenge == id && old(Live(id)) && !Live(id)
                   && old(next !in logins) && logins == old(logins[next := Login(challenges[id].user, Some(id))])
      ensures reply.LoggedIn? <==>
                && old(IsOpen(St(), id)) && old(challenges[id]).purpose == Totp2fa && old(challenges[id]).attempts <= 5
                && old(ProvenBy(St(), challenges[id].user, id, proof)).Some?
      ensures reply.LoggedIn? ==> Spent(old(St()), St(), id, proof, reply.via)
    {
      CompletionMeans(St(), id, proof);
      if !Live(id) || challenges[id].purpose != Totp2fa || challenges[id].attempts > MAX_ATTEMPTS {
        return Failed(ChallengeInvalid);
      }
      var uid := challenges[id].user;
      var via := ConsumeChallengeProof(uid, id, proof);
      if via.None? {
        return Failed(BadCredentials);
      }
      MarkConsumed(id, via);
      OpenLogin(uid, Some(id));
      reply := LoggedIn(id, via.value);
    }

    /** A guess is charged before it is checked, so it stays charged whatever the check says. */
    method Verify2FA(id: nat, proof: ChallengeProof) returns (reply: Reply)
      requires Valid()
      modifies this
      ensures Valid()
      ensures var charged := TwoFactorModel.BumpAttempt(old(St()), id);
              (St(), reply) == if charged.1.Failed? then charged else TwoFactorModel.Complete2FA(charged.0, id, proof)
      ensures reply.LoggedIn? ==> old(Live(id)) && old(challenges[id].attempts) < MAX_ATTEMPTS
      ensures reply == Failed(BadCredentials) ==>
                Live(id) && challenges[id].attempts == old(challenges[id].attempts) + 1
      ensures reply.LoggedIn? <==>
                && old(IsOpen(St(), id)) && old(challenges[id]).purpose == Totp2fa && old(challenges[id]).attempts < 5
                && old(ProvenBy(St(), challenges[id].user, id, proof)).Some?
      ensures reply.LoggedIn? ==> Some(reply.via) == old(ProvenBy(St(), challenges[id].user, id, proof))
    {
      VerificationAnswers(St(), id, proof);
      reply := BumpAttempt(id);
      if !reply.Failed? {
        reply := Complete2FA(id, proof);
      }
    }

    method ConsumeProof(uid: nat, proof: FactorProof) returns (ok: bool)
      modifies `totp, `recovery, `factorCodes
      ensures var spent := SpendProof(old(St()), uid, proof);
              ok == spent.Some? && St() == if ok then old(St()).(fa := spent.value) else old(St())
    {
      match proof
      case TotpProof(seed, counter) => ok := ConsumeTotp(uid, seed, counter);
      case RecoveryProof(digest) => ok := ConsumeRecovery(uid, digest);
      case StepUpProof(digest) => ok := ConsumeFactorCode(uid, true, digest);
      case NoProof => ok := false;
    }

    method ConsumeSecondFactor(uid: nat, proof: FactorProof) returns (reply: Reply)
      requires Valid()
      modifies this
      ensures Valid() && (St(), reply) == TwoFactorModel.ConsumeSecondFactor(old(St()), uid, proof)
    {
      StepIsReachable(St(), EConsumeSecondFactor(uid, proof));
      var ok := ConsumeProof(uid, proof);
      reply := if ok then Done else Failed(BadCredentials);
    }

    // ---- Factors ----

    /** Every session of the account but `keep` ends with the old credentials. */
    method MoveOn(uid: nat, keep: Option<nat>)
      modifies `users, `logins
      ensures St() == TwoFactorModel.MoveOn(old(St()), uid, keep)
    {
      if uid in users {
        users := users[uid := users[uid].(epoch := users[uid].epoch + 1)];
      }
      logins := map l | l in logins && (logins[l].user != uid || keep == Some(l)) :: logins[l];
    }

    /** The sessions of the account, of which `keep` is the only one that can be left. */
    ghost predicate OnlyLogin(uid: nat, keep: Option<nat>)
      reads this
    {
      forall l :: l in logins && logins[l].user == uid ==> keep == Some(l)
    }

    /** Without a factor the account has no recovery codes. */
    ghost predicate NoRecoveryAlone(uid: nat)
      reads this
    {
      !HasFactor(St().fa, uid) ==> forall r :: r in recovery ==> recovery[r].user != uid
    }

    method DropRecovery(uid: nat)
      modifies `recovery
      ensures St().fa == TwoFactorModel.DropRecovery(old(St()).fa, uid)
    {
      recovery := map r | r in recovery && recovery[r].user != uid :: recovery[r];
    }

    /** The account's recovery codes go and the new ones take fresh ids: from then on only they are accepted. */
    method ReplaceRecovery(uid: nat, digests: seq<nat>)
      modifies `next, `recovery
      ensures St() == TwoFactorModel.ReplaceRecovery(old(St()), uid, digests)
      ensures forall d :: HasRecovery(St().fa, uid, d) <==> d in digests
    {
      ghost var s := St();
      DropRecovery(uid);
      recovery := recovery + RecoveryRows(uid, digests, next);
      next := next + |digests|;
      forall d ensures HasRecovery(St().fa, uid, d) <==> d in digests {
        IssuedAreAccepted(s, uid, digests, d);
      }
    }

    predicate HoldsSession(uid: nat, session: nat)
      reads this
    {
      session in logins && logins[session].user == uid
    }

    /** The session a request says it is made in, if any, is a live one of the account. */
    predicate Holds(uid: nat, session: Option<nat>)
      reads this
    {
      session.Some? ==> HoldsSession(uid, session.value)
    }

    method StartTotp(uid: nat, epoch: nat, within: Option<nat>, permitted: bool) returns (reply: Reply)
      requires Valid()
      modifies this
      ensures Valid() && (St(), reply) == TwoFactorModel.StartTotp(old(St()), uid, epoch, within, permitted)
    {
      StepIsReachable(St(), EStartTotp(uid, epoch, within, permitted));
      if !LiveAccount(uid, epoch) || !permitted {
        return Failed(ChallengeInvalid);
      }
      if !Holds(uid, within) {
        return Failed(SessionInvalid);
      }
      if uid in totp && totp[uid].confirmed {
        return Failed(AlreadyConfirmed);
      }
      totp := totp[uid := TotpSecret(next, false, epoch, None, within)];
      next := next + 1;
      reply := Done;
    }

    /** Whether the challenge that let an enrollment in can still be spent for it. */
    predicate LetsIn(uid: nat, epoch: nat, path: Enrolling)
      reads this
    {
      path.InSession? ||
      var id := path.challenge;
      && id in challenges && challenges[id].user == uid && challenges[id].purpose == Enroll2fa
      && challenges[id].epoch == epoch && !challenges[id].consumed && challenges[id].expires > now
    }

    /** An enrollment before the first session spends its challenge for it. */
    method FinishPreAuth(uid: nat, epoch: nat, path: Enrolling) returns (reply: Reply)
      requires LetsIn(uid, epoch, path)
      modifies `challenges, `lineages, `logins, `next
      ensures TwoFactorModel.FinishPreAuth(old(St()), uid, epoch, path) == Some(St()) && reply == EnrollmentReply(path)
    {
      if path.InSession? {
        return Done;
      }
      MarkConsumed(path.challenge, None);
      OpenLogin(uid, Some(path.challenge));
      reply := Enrolled(path.challenge);
    }

    method ConfirmSecret(uid: nat, seed: nat, epoch: nat, counter: int, digests: seq<nat>, path: Enrolling)
      returns (reply: Reply)
      requires LetsIn(uid, epoch, path)
      modifies this
      ensures var confirmed := old(St()).(fa := ConfirmTotp(old(St()).fa, uid, seed, epoch, counter));
              TwoFactorModel.FinishPreAuth(TwoFactorModel.ReplaceRecovery(confirmed, uid, digests), uid, epoch, path)
              == Some(St())
      ensures reply == EnrollmentReply(path) && TotpConfirmed(St().fa, uid) && totp[uid].seed == seed
      ensures forall d :: HasRecovery(St().fa, uid, d) <==> d in digests
    {
      totp := totp[uid := TotpSecret(seed, true, epoch, Some(counter), None)];
      ReplaceRecovery(uid, digests);
      reply := FinishPreAuth(uid, epoch, path);
    }

    /** Activates the secret that was verified, replaces the recovery codes and spends the challenge. */
    method CompleteTotp(uid: nat, epoch: nat, seed: nat, counter: int, digests: seq<nat>, path: Enrolling,
                        permitted: bool)
      returns (reply: Reply)
      requires Valid()
      modifies this
      ensures Valid()
      ensures (St(), reply) == TwoFactorModel.CompleteTotp(old(St()), uid, epoch, seed, counter, digests, path,
                                                           permitted)
      ensures if reply.Failed? then logins == old(logins)
              else TotpConfirmed(St().fa, uid) && old(TotpPends(St().fa, uid, seed, epoch, SessionOf(path)))
                   && totp[uid].seed == seed && (forall d :: HasRecovery(St().fa, uid, d) <==> d in digests)
    {
      StepIsReachable(St(), ECompleteTotp(uid, epoch, seed, counter, digests, path, permitted));
      if !LiveAccount(uid, epoch) || !permitted {
        return Failed(ChallengeInvalid);
      }
      if !Holds(uid, SessionOf(path)) {
        return Failed(SessionInvalid);
      }
      if uid !in totp || totp[uid].confirmed || totp[uid].epoch != epoch || totp[uid].seed != seed
         || totp[uid].session != SessionOf(path) {
        return Failed(NoPendingFactor);
      }
      if !LetsIn(uid, epoch, path) {
        return Failed(ChallengeInvalid);
      }
      reply := ConfirmSecret(uid, seed, epoch, counter, digests, path);
    }

    method RecentlyMailed(uid: nat, stepUp: bool, cooldown: nat) returns (recent: bool)
      ensures recent == MailedRecently(St(), uid, stepUp, cooldown)
    {
      if c: nat :| c in factorCodes && factorCodes[c].user == uid && factorCodes[c].stepUp == stepUp
                   && factorCodes[c].created >= now - Max(cooldown, RESEND_INTERVAL) {
        assert c in St().fa.codes;
        recent := true;
      } else {
        assert forall c :: c in St().fa.codes ==> c in factorCodes;
        recent := false;
      }
    }

    method MailFactorCode(uid: nat, stepUp: bool, digest: nat, ttl: nat)
      modifies `factorCodes, `next
      ensures St() == TwoFactorModel.MailFactorCode(old(St()), uid, stepUp, digest, ttl)
    {
      factorCodes := map c | c in factorCodes ::
        if factorCodes[c].user == uid && factorCodes[c].stepUp == stepUp then factorCodes[c].(consumed := true)
        else factorCodes[c];
      factorCodes := factorCodes[next := FactorCode(uid, stepUp, digest, now, now + ttl, false)];
      next := next + 1;
    }

    method StartEmail(uid: nat, epoch: nat, within: Option<nat>, digest: nat, ttl: nat, cooldown: nat, permitted: bool)
      returns (reply: Reply)
      requires Valid()
      modifies this
      ensures Valid()
      ensures (St(), reply) == TwoFactorModel.StartEmail(old(St()), uid, epoch, within, digest, ttl, cooldown,
                                                         permitted)
    {
      StepIsReachable(St(), EStartEmail(uid, epoch, within, digest, ttl, cooldown, permitted));
      if !LiveAccount(uid, epoch) || !permitted {
        return Failed(ChallengeInvalid);
      }
      if !Holds(uid, within) {
        return Failed(SessionInvalid);
      }
      var recent := RecentlyMailed(uid, false, cooldown);
      if recent {
        return Failed(TooSoon);
      }
      if uid in emails && emails[uid].confirmed {
        return Failed(AlreadyConfirmed);
      }
      MailFactorCode(uid, false, digest, ttl);
      emails := emails[uid := EmailFactor(false, epoch, within)];
      reply := Done;
    }

    method ConfirmEmail(uid: nat, epoch: nat, digests: seq<nat>, path: Enrolling) returns (reply: Reply)
      requires LetsIn(uid, epoch, path)
      modifies this
      ensures var confirmed := old(St()).(fa := TwoFactorModel.ConfirmEmail(old(St()).fa, uid, epoch));
              TwoFactorModel.FinishPreAuth(TwoFactorModel.ReplaceRecovery(confirmed, uid, digests), uid, epoch, path)
              == Some(St())
      ensures reply == EnrollmentReply(path) && EmailConfirmed(St().fa, uid)
      ensures forall d :: HasRecovery(St().fa, uid, d) <==> d in digests
    {
      emails := emails[uid := EmailFactor(true, epoch, None)];
      ReplaceRecovery(uid, digests);
      reply := FinishPreAuth(uid, epoch, path);
    }

    method CompleteEmail(uid: nat, epoch: nat, digest: nat, digests: seq<nat>, path: Enrolling, permitted: bool)
      returns (reply: Reply)
      requires Valid()
      modifies this
      ensures Valid()
      ensures (St(), reply) == TwoFactorModel.CompleteEmail(old(St()), uid, epoch, digest, digests, path, permitted)
      ensures if reply.Failed? then logins == old(logins)
              else EmailConfirmed(St().fa, uid) && (forall d :: HasRecovery(St().fa, uid, d) <==> d in digests)
    {
      StepIsReachable(St(), ECompleteEmail(uid, epoch, digest, digests, path, permitted));
      if !LiveAccount(uid, epoch) || !permitted {
        return Failed(ChallengeInvalid);
      }
      if !Holds(uid, SessionOf(path)) {
        return Failed(SessionInvalid);
      }
      var before := factorCodes;
      var ok := ConsumeFactorCode(uid, false, digest);
      if !ok {
        return Failed(BadCredentials);
      }
      if uid !in emails || emails[uid].confirmed || emails[uid].epoch != epoch
         || (path.InSession? && emails[uid].session != SessionOf(path)) {
        factorCodes := before;
        return Failed(NoPendingFactor);
      }
      if !LetsIn(uid, epoch, path) {
        factorCodes := before;
        return Failed(ChallengeInvalid);
      }
      reply := ConfirmEmail(uid, epoch, digests, path);
    }

    method SendStepUp(uid: nat, epoch: nat, session: nat, digest: nat, ttl: nat, cooldown: nat, permitted: bool)
      returns (reply: Reply)
      requires Valid()
      modifies this
      ensures Valid()
      ensures (St(), reply) == TwoFactorModel.SendStepUp(old(St()), uid, epoch, session, digest, ttl, cooldown,
                                                         permitted)
    {
      StepIsReachable(St(), ESendStepUp(uid, epoch, session, digest, ttl, cooldown, permitted));
      if !LiveAccount(uid, epoch) || !HoldsSession(uid, session) || !permitted {
        return Failed(SessionInvalid);
      }
      if uid !in emails || !emails[uid].confirmed {
        return Failed(NoPendingFactor);
      }
      var recent := RecentlyMailed(uid, true, cooldown);
      if recent {
        return Failed(TooSoon);
      }
      MailFactorCode(uid, true, digest, ttl);
      reply := Done;
    }

    method RemoveTotp(uid: nat)
      modifies `totp, `recovery
      ensures St() == old(St()).(fa := WithoutTotp(old(St()).fa, uid))
    {
      totp := totp - {uid};
      if uid !in emails || !emails[uid].confirmed {
        DropRecovery(uid);
      }
    }

    method RemoveEmail(uid: nat)
      modifies `emails, `factorCodes, `recovery
      ensures St() == old(St()).(fa := WithoutEmail(old(St()).fa, uid))
    {
      emails := emails - {uid};
      factorCodes := map c | c in factorCodes && factorCodes[c].user != uid :: factorCodes[c];
      if uid !in totp || !totp[uid].confirmed {
        DropRecovery(uid);
      }
    }

    /** The proof is spent in the transaction it authorizes: when the removal finds nothing, it is given back. */
    method RemoveTotpAgainst(uid: nat, session: nat, proof: FactorProof) returns (reply: Reply)
      modifies `totp, `recovery, `factorCodes, `users, `logins
      ensures var spent := SpendProof(old(St()), uid, proof);
              if spent.None? then reply == Failed(BadCredentials) && St() == old(St())
              else if uid !in spent.value.totp then reply == Failed(NoPendingFactor) && St() == old(St())
              else reply == Done && St() == TwoFactorModel.MoveOn(old(St()).(fa := WithoutTotp(spent.value, uid)),
                                                                  uid, Some(session))
    {
      var savedTotp, savedRecovery, savedCodes := totp, recovery, factorCodes;
      var ok := ConsumeProof(uid, proof);
      if !ok {
        return Failed(BadCredentials);
      }
      if uid !in totp {
        totp, recovery, factorCodes := savedTotp, savedRecovery, savedCodes;
        return Failed(NoPendingFactor);
      }
      RemoveTotp(uid);
      MoveOn(uid, Some(session));
      reply := Done;
    }

    method DisableTotp(uid: nat, epoch: nat, session: nat, proof: FactorProof, permitted: bool) returns (reply: Reply)
      requires Valid()
      modifies this
      ensures Valid() && (St(), reply) == TwoFactorModel.DisableTotp(old(St()), uid, epoch, session, proof, permitted)
      ensures if reply.Failed? then St() == old(St())
              else uid !in totp && NoRecoveryAlone(uid) && OnlyLogin(uid, Some(session)) && LiveAccount(uid, epoch + 1)
    {
      StepIsReachable(St(), EDisableTotp(uid, epoch, session, proof, permitted));
      if !LiveAccount(uid, epoch) || !HoldsSession(uid, session) || !permitted {
        return Failed(SessionInvalid);
      }
      reply := RemoveTotpAgainst(uid, session, proof);
    }

    method RemoveEmailAgainst(uid: nat, session: nat, proof: FactorProof) returns (reply: Reply)
      modifies `emails, `totp, `recovery, `factorCodes, `users, `logins
      ensures var spent := SpendProof(old(St()), uid, proof);
              if spent.None? then reply == Failed(BadCredentials) && St() == old(St())
              else if uid !in spent.value.emails then reply == Failed(NoPendingFactor) && St() == old(St())
              else reply == Done && St() == TwoFactorModel.MoveOn(old(St()).(fa := WithoutEmail(spent.value, uid)),
                                                                  uid, Some(session))
    {
      var savedTotp, savedRecovery, savedCodes := totp, recovery, factorCodes;
      var ok := ConsumeProof(uid, proof);
      if !ok {
        return Failed(BadCredentials);
      }
      if uid !in emails {
        totp, recovery, factorCodes := savedTotp, savedRecovery, savedCodes;
        return Failed(NoPendingFactor);
      }
      RemoveEmail(uid);
      MoveOn(uid, Some(session));
      reply := Done;
    }

    method DisableEmail(uid: nat, epoch: nat, session: nat, proof: FactorProof, permitted: bool) returns (reply: Reply)
      requires Valid()
      modifies this
      ensures Valid() && (St(), reply) == TwoFactorModel.DisableEmail(old(St()), uid, epoch, session, proof, permitted)
      ensures if reply.Failed? then St() == old(St())
              else uid !in emails && (forall c :: c in factorCodes ==> factorCodes[c].user != uid)
                   && NoRecoveryAlone(uid) && OnlyLogin(uid, Some(session)) && LiveAccount(uid, epoch + 1)
    {
      StepIsReachable(St(), EDisableEmail(uid, epoch, session, proof, permitted));
      if !LiveAccount(uid, epoch) || !HoldsSession(uid, session) || !permitted {
        return Failed(SessionInvalid);
      }
      reply := RemoveEmailAgainst(uid, session, proof);
    }

    method Regenerate(uid: nat, epoch: nat, session: nat, proof: FactorProof, digests: seq<nat>, permitted: bool)
      returns (reply: Reply)
      requires Valid()
      modifies this
      ensures Valid() && (St(), reply) == TwoFactorModel.Regenerate(old(St()), uid, epoch, session, proof, digests,
                                                                    permitted)
      ensures reply.Done? ==> forall d :: HasRecovery(St().fa, uid, d) <==> d in digests
    {
      StepIsReachable(St(), ERegenerate(uid, epoch, session, proof, digests, permitted));
      if !LiveAccount(uid, epoch) || !HoldsSession(uid, session) || !permitted {
        return Failed(SessionInvalid);
      }
      var ok := ConsumeProof(uid, proof);
      if !ok {
        return Failed(BadCredentials);
      }
      ReplaceRecovery(uid, digests);
      reply := Done;
    }

    method ProveAnyFactor(uid: nat, proof: FactorProof) returns (ok: bool)
      modifies `totp, `recovery, `factorCodes
      ensures var spent := SpendProof(old(St()), uid, proof);
              if !HasFactor(old(St()).fa, uid) then ok && St() == old(St())
              else ok == spent.Some? && St() == if ok then old(St()).(fa := spent.value) else old(St())
    {
      ok := true;
      if (uid in totp && totp[uid].confirmed) || (uid in emails && emails[uid].confirmed) {
        ok := ConsumeProof(uid, proof);
      }
    }

    /** An account with any factor proves one before it takes a password. */
    method SetPassword(uid: nat, epoch: nat, session: nat, proof: FactorProof, permitted: bool) returns (reply: Reply)
      requires Valid()
      modifies this
      ensures Valid() && (St(), reply) == TwoFactorModel.SetPassword(old(St()), uid, epoch, session, proof, permitted)
      ensures if reply.Failed? then St() == old(St()) else OnlyLogin(uid, Some(session)) && LiveAccount(uid, epoch + 1)
      ensures reply.Done? <==>
                && old(MayAct(St(), uid, epoch, session, permitted))
                && (old(HasConfirmed(St().fa, uid)) ==> old(Proves(St(), uid, proof)))
      ensures reply.Done? && old(HasConfirmed(St().fa, uid)) ==> OneProofSpent(old(St()), St().fa, uid, proof)
      ensures old(MayAct(St(), uid, epoch, session, permitted)) && old(HasConfirmed(St().fa, uid)) && proof.NoProof? ==>
                reply == Failed(BadCredentials) && St() == old(St())
    {
      PasswordIsGuarded(St(), uid, epoch, session, proof, permitted);
      if !LiveAccount(uid, epoch) || !HoldsSession(uid, session) || !permitted {
        return Failed(SessionInvalid);
      }
      var ok := ProveAnyFactor(uid, proof);
      if !ok {
        return Failed(BadCredentials);
      }
      MoveOn(uid, Some(session));
      reply := Done;
    }

    // ---- Artefacts ----

    /** A new reset link or address change leaves no older one of its kind to redeem. */
    method SpendOlder(kind: Kind, uid: nat)
      modifies `artefacts
      ensures artefacts == ArtefactsSpent(old(artefacts), kind, uid)
    {
      if kind != OAuthLink {
        artefacts := map a | a in artefacts ::
          if artefacts[a].user == uid && artefacts[a].kind == kind
          then artefacts[a].(consumed := true) else artefacts[a];
      }
    }

    method InsertArtefact(row: Artefact)
      modifies `artefacts, `next
      ensures St() == old(St()).(next := old(next) + 1,
                                 artefacts := ArtefactsSpent(old(artefacts), row.kind, row.user)[old(next) := row])
    {
      SpendOlder(row.kind, row.user);
      artefacts := artefacts[next := row];
      next := next + 1;
    }

    method Mint(kind: Kind, uid: nat, within: Option<nat>, ttl: nat, permitted: bool) returns (reply: Reply)
      requires Valid()
      modifies this
      ensures Valid() && (St(), reply) == TwoFactorModel.Mint(old(St()), kind, uid, within, ttl, permitted)
    {
      StepIsReachable(St(), EMint(kind, uid, within, ttl, permitted));
      if uid !in users || !users[uid].active || !permitted {
        return Failed(TokenInvalid);
      }
      if kind == OAuthLink && (within.None? || !HoldsSession(uid, within.value)) {
        return Failed(TokenInvalid);
      }
      var session := if kind == PasswordReset then None else within;
      InsertArtefact(Artefact(kind, uid, users[uid].epoch, session, now + ttl, false));
      reply := Done;
    }

    method SpendAndMoveOn(id: nat)
      requires id in artefacts
      modifies `artefacts, `users, `logins
      ensures St() == TwoFactorModel.MoveOn(SpendArtefact(old(St()), id), old(artefacts[id].user), None)
      ensures artefacts == old(artefacts[id := artefacts[id].(consumed := true)])
              && OnlyLogin(old(artefacts[id].user), None)
    {
      artefacts := artefacts[id := artefacts[id].(consumed := true)];
      MoveOn(artefacts[id].user, None);
    }

    /** Redeeming leaves the account without any session. */
    method Redeem(id: nat, permitted: bool) returns (reply: Reply)
      requires Valid()
      modifies this
      ensures Valid() && (St(), reply) == TwoFactorModel.Redeem(old(St()), id, permitted)
      ensures reply.Done? <==>
                && permitted && id in old(artefacts)
                && (old(artefacts)[id].kind.PasswordReset? || old(artefacts)[id].kind.EmailChange?)
                && !old(artefacts)[id].consumed && old(now) < old(artefacts)[id].expires
                && old(artefacts)[id].user in old(users) && old(users)[old(artefacts)[id].user].active
                && old(users)[old(artefacts)[id].user].epoch == old(artefacts)[id].epoch
                && (old(artefacts)[id].session.Some? ==> old(artefacts)[id].session.value in old(logins))
      ensures !reply.Done? ==> reply == Failed(TokenInvalid) && St() == old(St())
      ensures reply.Done? ==> id in artefacts && artefacts[id].consumed && OnlyLogin(artefacts[id].user, None)
    {
      StepIsReachable(St(), ERedeem(id, permitted));
      if id !in artefacts || artefacts[id].kind == OAuthLink || artefacts[id].consumed || artefacts[id].expires <= now
         || !LiveAccount(artefacts[id].user, artefacts[id].epoch) {
        return Failed(TokenInvalid);
      }
      if (artefacts[id].session.Some? && artefacts[id].session.value !in logins) || !permitted {
        return Failed(TokenInvalid);
      }
      SpendAndMoveOn(id);
      reply := Done;
    }

    method TakeLinkState(id: nat) returns (reply: Reply)
      requires Valid()
      modifies this
      ensures Valid() && (St(), reply) == TwoFactorModel.TakeLinkState(old(St()), id)
    {
      StepIsReachable(St(), ETakeLinkState(id));
      if id !in artefacts || artefacts[id].kind != OAuthLink || artefacts[id].consumed || artefacts[id].expires <= now {
        return Failed(TokenInvalid);
      }
      artefacts := artefacts[id := artefacts[id].(consumed := true)];
      reply := Done;
    }

    /** A conversion spends its challenge and leaves the account without any session. */
    method ConvertToProvider(id: nat, permitted: bool) returns (reply: Reply)
      requires Valid()
      modifies this
      ensures Valid() && (St(), reply) == Convert(old(St()), id, permitted)
      ensures reply.Done? ==> old(Live(id)) && !Live(id) && OnlyLogin(old(challenges[id].user), None)
    {
      StepIsReachable(St(), EConvert(id, permitted));
      if !Live(id) || challenges[id].purpose != ConvertGoogle || !permitted {
        return Failed(ChallengeInvalid);
      }
      MarkConsumed(id, None);
      MoveOn(challenges[id].user, None);
      reply := Done;
    }

    /** Linking what a redirect brought back: the identity row itself is not kept here. */
    method LinkIdentity(id: nat, permitted: bool) returns (reply: Reply)
      requires Valid()
      ensures (St(), reply) == TwoFactorModel.LinkIdentity(St(), id, permitted)
      ensures reply.Done? ==>
                && id in artefacts && artefacts[id].consumed
                && LiveAccount(artefacts[id].user, artefacts[id].epoch)
                && Holds(artefacts[id].user, artefacts[id].session)
    {
      if id !in artefacts || artefacts[id].kind != OAuthLink || !artefacts[id].consumed {
        return Failed(TokenInvalid);
      }
      if !LiveAccount(artefacts[id].user, artefacts[id].epoch) || !Holds(artefacts[id].user, artefacts[id].session)
         || !permitted {
        return Failed(TokenInvalid);
      }
      reply := Done;
    }

    // ---- Accounts and the clock ----

    method AddUser() returns (uid: nat)
      requires Valid()
      modifies this
      ensures Valid() && St() == Step(old(St()), EAddUser).0 && LiveUser(St(), uid, 0) && uid == old(next)
    {
      StepIsReachable(St(), EAddUser);
      uid := next;
      users := users[next := User(true, 0)];
      next := next + 1;
    }

    /** Enabling and disabling an account moves its epoch. */
    method SetStatus(uid: nat, active: bool)
      requires Valid()
      modifies this
      ensures Valid() && St() == Step(old(St()), ESetStatus(uid, active)).0
    {
      StepIsReachable(St(), ESetStatus(uid, active));
      if uid in users {
        users := users[uid := User(active, users[uid].epoch + 1)];
      }
    }

    method Advance(seconds: nat)
      requires Valid()
      modifies this
      ensures Valid() && St() == Step(old(St()), ETick(seconds)).0
    {
      StepIsReachable(St(), ETick(seconds));
      now := now + seconds;
    }
  }

  // ---- What the transactions mean to their callers ----

  /** What a login that was completed says of the rows it spent, which were there before it. */
  ghost predicate Spent(s: State, t: State, id: nat, proof: ChallengeProof, via: Method)
    requires id in s.ch.rows
  {
    var uid := s.ch.rows[id].user;
    match via
    case ByTotp =>
      && proof.totp.Some?
      && var (seed, counter) := proof.totp.value;
         && uid in s.fa.totp && s.fa.totp[uid].confirmed && s.fa.totp[uid].seed == seed
         && (s.fa.totp[uid].counter.Some? ==> s.fa.totp[uid].counter.value < counter)
         && t.fa.totp == s.fa.totp[uid := s.fa.totp[uid].(counter := Some(counter))]
    case ByEmail =>
      && proof.email.Some?
      && exists c :: c in s.ch.codes && s.ch.codes[c].user == uid && s.ch.codes[c].challenge == id
                     && s.ch.codes[c].digest == proof.email.value && !s.ch.codes[c].consumed
                     && s.now < s.ch.codes[c].expires && c in t.ch.codes && t.ch.codes[c].consumed
    case ByRecovery =>
      && proof.recovery.Some?
      && exists r :: r in s.fa.recovery && s.fa.recovery[r].user == uid
                     && s.fa.recovery[r].digest == proof.recovery.value && !s.fa.recovery[r].used
                     && r in t.fa.recovery && t.fa.recovery[r].used
  }

  lemma CompletionMeans(s: State, id: nat, proof: ChallengeProof)
    requires Reachable(s)
    ensures var (t, r) := TwoFactorModel.Complete2FA(s, id, proof);
      && Reachable(t)
      && (r.LoggedIn? <==> IsOpen(s, id) && s.ch.rows[id].purpose == Totp2fa && s.ch.rows[id].attempts <= 5
                           && ProvenBy(s, s.ch.rows[id].user, id, proof).Some?)
      && (r.LoggedIn? ==> Spent(s, t, id, proof, r.via) && s.next !in s.logins)
  {
    StepIsReachable(s, EComplete2FA(id, proof));
    FreshLogin(s);
    CompletionAnswers(s, id, proof);
    if TwoFactorModel.Complete2FA(s, id, proof).1.LoggedIn? {
      LoginSpendsAndOpens(s, id, proof);
    }
  }

  lemma PasswordIsGuarded(s: State, uid: nat, epoch: nat, session: nat, proof: FactorProof, ok: bool)
    requires Reachable(s)
    ensures var (t, r) := TwoFactorModel.SetPassword(s, uid, epoch, session, proof, ok);
      && Reachable(t) && (r.Failed? ==> t == s)
      && (r.Done? <==> MayAct(s, uid, epoch, session, ok) && (HasConfirmed(s.fa, uid) ==> Proves(s, uid, proof)))
      && (r.Done? && HasConfirmed(s.fa, uid) ==> OneProofSpent(s, t.fa, uid, proof))
      && (MayAct(s, uid, epoch, session, ok) && HasConfirmed(s.fa, uid) && proof.NoProof? ==>
            r == Failed(BadCredentials))
  {
    StepIsReachable(s, ESetPassword(uid, epoch, session, proof, ok));
    PasswordAnswers(s, uid, epoch, session, proof, ok);
    if Proves(s, uid, proof) {
      ProofIsOne(s, uid, proof);
    }
  }

  /** Under the invariant the previous challenge is the only one a new one can continue. */
  lemma OnlyPrevious(s: State, prev: nat, uid: nat, purpose: Purpose, epoch: nat)
    requires Reachable(s) && IsPrevious(s, prev, uid, purpose, epoch)
    ensures forall x :: IsPrevious(s, x, uid, purpose, epoch) ==> x == prev
  {
    var es :| Run(es) == s;
    ChallengeRuns.RunKeepsInv(es);
  }

  lemma CreateContinues(s: State, prev: nat, uid: nat, purpose: Purpose, epoch: nat, proven: bool)
    requires Reachable(s) && LiveUser(s, uid, epoch) && IsPrevious(s, prev, uid, purpose, epoch)
    ensures CreateChallenge(s, uid, purpose, epoch, proven) == (NextChallenge(s, prev, proven), Created(s.next))
  {
    OnlyPrevious(s, prev, uid, purpose, epoch);
    var chosen :| IsPrevious(s, chosen, uid, purpose, epoch)
                  && CreateChallenge(s, uid, purpose, epoch, proven)
                     == (NextChallenge(s, chosen, proven), Created(s.next));
    assert chosen == prev;
  }

  lemma CreateOpens(s: State, uid: nat, purpose: Purpose, epoch: nat, proven: bool)
    requires LiveUser(s, uid, epoch) && forall x :: !IsPrevious(s, x, uid, purpose, epoch)
    ensures CreateChallenge(s, uid, purpose, epoch, proven)
            == (FirstChallenge(s, uid, purpose, epoch, proven), Created(s.next))
  {
  }

  /** The challenge is live, and the one challenge of its account and purpose that is left to use. */
  ghost predicate OnlyOpen(s: State, id: nat, uid: nat, purpose: Purpose) {
    && LiveChallenge(s, id) && s.ch.rows[id].user == uid && s.ch.rows[id].purpose == purpose
    && forall x :: (x in s.ch.rows && s.ch.rows[x].user == uid && s.ch.rows[x].purpose == purpose
                    && !s.ch.rows[x].consumed)
                   ==> x == id
  }

  lemma NextIsOnly(s: State, prev: nat, proven: bool)
    requires LiveChallenge(s, prev)
    ensures OnlyOpen(NextChallenge(s, prev, proven), s.next, s.ch.rows[prev].user, s.ch.rows[prev].purpose)
  {
  }

  lemma FirstIsOnly(s: State, uid: nat, purpose: Purpose, epoch: nat, proven: bool)
    requires LiveUser(s, uid, epoch)
    ensures OnlyOpen(FirstChallenge(s, uid, purpose, epoch, proven), s.next, uid, purpose)
  {
  }

  /** A fresh id opens a session that was not there. */
  lemma FreshLogin(s: State)
    requires Reachable(s)
    ensures forall l :: l in s.logins ==> l < s.next
  {
    var es :| Run(es) == s;
    EpochTheorems.RunKeepsLogins(es);
  }

  /** After a replacement exactly the new codes are accepted. */
  lemma IssuedAreAccepted(s: State, uid: nat, digests: seq<nat>, d: nat)
    ensures HasRecovery(ReplaceRecovery(s, uid, digests).fa, uid, d) <==> d in digests
  {
    var fa := ReplaceRecovery(s, uid, digests).fa;
    if d in digests {
      var i :| 0 <= i < |digests| && digests[i] == d;
      assert IsIssued(s.next + i, s.next, |digests|);
      assert RecoveryMatches(fa, s.next + i, uid, d);
    }
  }
}
