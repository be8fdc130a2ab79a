/** Everything minted under a credential epoch dies with it. */
module EpochTheorems {
  import opened Wrappers
  import opened TwoFactorFrames
  import opened TwoFactorModel
  import ChallengeRuns
  import FactorRuns

  /** What can be minted now and committed later. */
  datatype Minted =
    | OfChallenge(id: nat)
    | OfArtefact(id: nat)
    | OfSeed(seed: nat)
    | OfEmail(user: nat)

  /** Minted for the account at the epoch. */
  ghost predicate MintedAt(s: State, m: Minted, uid: nat, epoch: nat) {
    match m
    case OfChallenge(id) => id in s.ch.rows && s.ch.rows[id].user == uid && s.ch.rows[id].epoch == epoch
    case OfArtefact(id) => id in s.artefacts && s.artefacts[id].user == uid && s.artefacts[id].epoch == epoch
    case OfSeed(seed) => uid in s.fa.totp && s.fa.totp[uid].seed == seed && s.fa.totp[uid].epoch == epoch
    case OfEmail(user) => user == uid && uid in s.fa.emails && s.fa.emails[uid].epoch == epoch
  }

  /** The step acts on the strength of it; returning from a provider only spends the redirect, linking acts on it. */
  ghost predicate Commits(s: State, e: Event, m: Minted, epoch: nat) {
    && !Step(s, e).1.Failed?
    && match m
       case OfChallenge(id) =>
         || ((e.EBumpAttempt? || e.EConsumeChallenge? || e.ESendCode? || e.EComplete2FA? || e.EConvert?) && e.id == id)
         || ((e.ECompleteTotp? || e.ECompleteEmail?) && e.path == PreAuth(id))
       case OfArtefact(id) => (e.ERedeem? || e.ELinkIdentity?) && e.id == id
       case OfSeed(seed) => e.ECompleteTotp? && e.seed == seed
       case OfEmail(user) =>
         e.ECompleteEmail? && e.uid == user && user in s.fa.emails && s.fa.emails[user].epoch == epoch
  }

  /** Whoever still holds the row, it was minted for this account at this epoch. */
  ghost predicate Traced(s: State, m: Minted, uid: nat, epoch: nat) {
    match m
    case OfChallenge(id) => id < s.next && (id in s.ch.rows ==> MintedAt(s, m, uid, epoch))
    case OfArtefact(id) => id < s.next && (id in s.artefacts ==> MintedAt(s, m, uid, epoch))
    case OfSeed(seed) =>
      seed < s.next
      && forall u :: u in s.fa.totp && s.fa.totp[u].seed == seed ==> u == uid && s.fa.totp[u].epoch == epoch
    case OfEmail(user) => user == uid
  }

  lemma StepStaysTraced(s: State, e: Event, m: Minted, uid: nat, epoch: nat)
    requires Traced(s, m, uid, epoch)
    ensures Traced(Step(s, e).0, m, uid, epoch)
  {
    ClocksRun(s, e);
    match m
    case OfChallenge(_) => StepEvolvesRows(s, e);
    case OfArtefact(_) => StepEvolvesArtefacts(s, e);
    case OfSeed(_) => FactorRuns.StepEvolvesFactors(s, e);
    case OfEmail(_) =>
  }

  lemma {:induction false} PlayStaysTraced(s: State, es: seq<Event>, m: Minted, uid: nat, epoch: nat)
    requires Traced(s, m, uid, epoch)
    ensures Traced(Play(s, es), m, uid, epoch) && Play(s, es).next >= s.next
  {
    if es != [] {
      PlayStaysTraced(s, es[..|es| - 1], m, uid, epoch);
      StepStaysTraced(Play(s, es[..|es| - 1]), es[|es| - 1], m, uid, epoch);
      ClocksRun(Play(s, es[..|es| - 1]), es[|es| - 1]);
    }
  }

  lemma MovedRefuses(s: State, e: Event, m: Minted, uid: nat, epoch: nat)
    requires Moved(s, uid, epoch) && Traced(s, m, uid, epoch)
    ensures !Commits(s, e, m, epoch)
  {
  }

  /** Artefact ids and owners come from the same counter as every other id. */
  predicate ArtefactsInv(s: State) {
    forall a :: a in s.artefacts ==> a < s.next && s.artefacts[a].user < s.next
  }

  lemma StepKeepsArtefacts(s: State, e: Event)
    requires ArtefactsInv(s) && forall u :: u in s.users ==> u < s.next
    ensures ArtefactsInv(Step(s, e).0)
  {
    if !TouchesArtefacts(e) {
      ClocksRun(s, e);
      ArtefactsStay(s, e);
    } else if e.EMint? {
      MintingKeepsArtefacts(s, e);
    } else {
      UseKeepsArtefacts(s, e);
    }
  }

  lemma MintingKeepsArtefacts(s: State, e: Event)
    requires ArtefactsInv(s) && e.EMint? && forall u :: u in s.users ==> u < s.next
    ensures ArtefactsInv(Step(s, e).0)
  {
  }

  lemma UseKeepsArtefacts(s: State, e: Event)
    requires ArtefactsInv(s) && (e.ERedeem? || e.ETakeLinkState? || e.ELinkIdentity? || e.EDeleteUser? || e.ESweep?)
    ensures ArtefactsInv(Step(s, e).0)
  {
  }

  lemma {:induction false} RunKeepsArtefacts(es: seq<Event>)
    ensures ArtefactsInv(Run(es))
  {
    if es != [] {
      RunKeepsArtefacts(es[..|es| - 1]);
      ChallengeRuns.RunKeepsInv(es[..|es| - 1]);
      StepKeepsArtefacts(Run(es[..|es| - 1]), es[|es| - 1]);
    }
  }

  /**
    Once the credentials have moved past the epoch a challenge, a reset link, a
    pending address, a link redirect, a pending authenticator or a pending e-mail
    factor was minted at, or the account is deleted, no later step acts on it.
  */
  lemma OldEpochNeverCommits(es: seq<Event>, m: Minted, uid: nat, epoch: nat, mid: seq<Event>, more: seq<Event>,
                             e: Event)
    requires MintedAt(Run(es), m, uid, epoch)
    requires var s := Play(Run(es), mid); uid !in s.users || s.users[uid].epoch > epoch
    ensures !Commits(Play(Play(Run(es), mid), more), e, m, epoch)
  {
    MintedIsTraced(es, m, uid, epoch);
    PlayStaysTraced(Run(es), mid, m, uid, epoch);
    PlayStaysTraced(Play(Run(es), mid), more, m, uid, epoch);
    PlayStaysMoved(Play(Run(es), mid), more, uid, epoch);
    MovedRefuses(Play(Play(Run(es), mid), more), e, m, uid, epoch);
  }

  lemma MintedIsTraced(es: seq<Event>, m: Minted, uid: nat, epoch: nat)
    requires MintedAt(Run(es), m, uid, epoch)
    ensures uid < Run(es).next && Traced(Run(es), m, uid, epoch)
  {
    var s := Run(es);
    ChallengeRuns.RunKeepsInv(es);
    FactorRuns.RunKeepsFactors(es);
    RunKeepsArtefacts(es);
    RunKeepsOwners(es);
    match m
    case OfChallenge(id) => assert ChallengeRuns.RowInv(s, id);
    case OfArtefact(_) =>
    case OfSeed(_) => assert FactorRuns.SeedInv(s, uid);
    case OfEmail(_) =>
  }

  /** Factors belong to ids that were handed out. */
  predicate OwnersInv(s: State) {
    (forall u :: u in s.fa.totp ==> u < s.next) && (forall u :: u in s.fa.emails ==> u < s.next)
  }

  lemma StepKeepsOwners(s: State, e: Event)
    requires OwnersInv(s) && forall u :: u in s.users ==> u < s.next
    ensures OwnersInv(Step(s, e).0)
  {
    ClocksRun(s, e);
    if !TouchesFactors(e) {
      FactorsStay(s, e);
    } else if e.ECompleteTotp? || e.ECompleteEmail? || e.EStartTotp? || e.EStartEmail? || e.ESendStepUp? {
      EnrollmentKeepsOwners(s, e);
    } else if e.EDisableTotp? || e.EDisableEmail? || e.ERegenerate? {
      RemovalKeepsOwners(s, e);
    } else if !e.EDeleteUser? && !e.ESweep? {
      FactorRuns.UseOnlySpends(s, e);
    }
  }

  lemma RemovalKeepsOwners(s: State, e: Event)
    requires OwnersInv(s) && (e.EDisableTotp? || e.EDisableEmail? || e.ERegenerate?)
    ensures OwnersInv(Step(s, e).0)
  {
    ClocksRun(s, e);
    if Step(s, e).1.Done? {
      FactorRuns.ProofOnlySpends(s, e.uid, e.proof);
      if e.EDisableTotp? {
        FactorRuns.TotpRemovalIs(s, e);
      } else if e.EDisableEmail? {
        FactorRuns.EmailRemovalIs(s, e);
      } else {
        FactorRuns.RegenerationIs(s, e);
      }
    }
  }

  lemma EnrollmentKeepsOwners(s: State, e: Event)
    requires OwnersInv(s) && forall u :: u in s.users ==> u < s.next
    requires e.ECompleteTotp? || e.ECompleteEmail? || e.EStartTotp? || e.EStartEmail? || e.ESendStepUp?
    ensures OwnersInv(Step(s, e).0)
  {
  }

  lemma {:induction false} RunKeepsOwners(es: seq<Event>)
    ensures OwnersInv(Run(es))
  {
    if es != [] {
      RunKeepsOwners(es[..|es| - 1]);
      ChallengeRuns.RunKeepsInv(es[..|es| - 1]);
      StepKeepsOwners(Run(es[..|es| - 1]), es[|es| - 1]);
    }
  }

  // ---- A challenge opens one session ----

  predicate Ended(s: State, id: nat) {
    id < s.next && (id in s.ch.rows ==> s.ch.rows[id].consumed)
  }

  lemma EndedStays(s: State, e: Event, id: nat)
    requires Ended(s, id)
    ensures Ended(Step(s, e).0, id)
  {
    ClocksRun(s, e);
    StepEvolvesRows(s, e);
  }

  lemma {:induction false} PlayStaysEnded(s: State, es: seq<Event>, id: nat)
    requires Ended(s, id)
    ensures Ended(Play(s, es), id)
  {
    if es != [] {
      PlayStaysEnded(s, es[..|es| - 1], id);
      EndedStays(Play(s, es[..|es| - 1]), es[|es| - 1], id);
    }
  }

  lemma EndedCommitsNothing(s: State, e: Event, id: nat, epoch: nat)
    requires Ended(s, id)
    ensures !Commits(s, e, OfChallenge(id), epoch)
  {
  }

  lemma EndedOpensNothing(s: State, e: Event, id: nat)
    requires Ended(s, id)
    ensures !Opens(s, e, id)
  {
    if Opens(s, e, id) {
      OpensOnlyFromSource(s, e, id);
    }
  }

  lemma SourceEnds(s: State, e: Event, id: nat)
    requires Source(e) == Some(id) && !Step(s, e).1.Failed? && (forall i :: i in s.ch.rows ==> i < s.next)
    ensures !Ended(s, id) && Ended(Step(s, e).0, id)
  {
    ChallengeOpensLogin(s, e, id);
    ClocksRun(s, e);
  }

  lemma RowsAreOld(es: seq<Event>)
    ensures forall i :: i in Run(es).ch.rows ==> i < Run(es).next
  {
    ChallengeRuns.RunKeepsInv(es);
    forall i | i in Run(es).ch.rows ensures i < Run(es).next {
      assert ChallengeRuns.RowInv(Run(es), i);
    }
  }

  lemma OpeningEnds(es: seq<Event>, e: Event, id: nat)
    requires Opens(Run(es), e, id)
    ensures Ended(Step(Run(es), e).0, id)
  {
    RowsAreOld(es);
    OpensOnlyFromSource(Run(es), e, id);
    SourceEnds(Run(es), e, id);
  }

  /**
    A challenge that opened a session, by completing a login or by enrolling a
    factor before the first one, opens no other, and nothing else is done with it
    afterwards.
  */
  lemma OneSessionPerChallenge(es: seq<Event>, e: Event, more: seq<Event>, f: Event, id: nat, epoch: nat)
    requires Opens(Run(es), e, id)
    ensures var t := Play(Step(Run(es), e).0, more);
            !Opens(t, f, id) && !Commits(t, f, OfChallenge(id), epoch)
  {
    var t := Play(Step(Run(es), e).0, more);
    OpeningEnds(es, e, id);
    PlayStaysEnded(Step(Run(es), e).0, more, id);
    EndedOpensNothing(t, f, id);
    EndedCommitsNothing(t, f, id, epoch);
  }

  /** Sessions have ids that were handed out, and each came from a challenge of its own that has ended. */
  ghost predicate LoginsInv(s: State) {
    && (forall l :: l in s.logins ==> l < s.next)
    && (forall l :: l in s.logins && s.logins[l].from.Some? ==> Ended(s, s.logins[l].from.value))
    && (forall a, b ::
          (a in s.logins && b in s.logins && s.logins[a].from.Some? && s.logins[a].from == s.logins[b].from) ==> a == b)
  }

  lemma EndingKeepsLogins(s: State, t: State)
    requires LoginsInv(s) && LoginsGo(s, t) && t.next >= s.next
    requires forall id: nat :: Ended(s, id) ==> Ended(t, id)
    ensures LoginsInv(t)
  {
  }

  lemma OpeningKeepsLogins(s: State, t: State, session: nat, uid: nat, from: Option<nat>)
    requires LoginsInv(s) && LoginOpened(s, t, session, uid, from)
    requires forall id: nat :: Ended(s, id) ==> Ended(t, id)
    requires from.Some? ==> !Ended(s, from.value) && Ended(t, from.value)
    ensures LoginsInv(t)
  {
  }

  lemma StepKeepsLogins(s: State, e: Event)
    requires LoginsInv(s) && (forall i :: i in s.ch.rows ==> i < s.next)
    ensures LoginsInv(Step(s, e).0)
  {
    var t := Step(s, e).0;
    ClocksRun(s, e);
    StepEvolvesLogins(s, e);
    forall id: nat | Ended(s, id) ensures Ended(t, id) {
      EndedStays(s, e, id);
    }
    if LoginsGo(s, t) {
      EndingKeepsLogins(s, t);
    } else {
      var session, uid :| LoginOpened(s, t, session, uid, Source(e));
      if Source(e).Some? {
        SourceEnds(s, e, Source(e).value);
      }
      OpeningKeepsLogins(s, t, session, uid, Source(e));
    }
  }

  /** In every run at most one session came from one challenge, and none from a challenge still to be used. */
  lemma {:induction false} RunKeepsLogins(es: seq<Event>)
    ensures LoginsInv(Run(es))
  {
    if es != [] {
      RunKeepsLogins(es[..|es| - 1]);
      RowsAreOld(es[..|es| - 1]);
      StepKeepsLogins(Run(es[..|es| - 1]), es[|es| - 1]);
    }
  }

  // ---- Old credentials keep no session ----

  lemma ClosedStays(s: State, e: Event, session: nat)
    requires session < s.next && session !in s.logins
    ensures session < Step(s, e).0.next && session !in Step(s, e).0.logins
  {
    ClocksRun(s, e);
    StepEvolvesLogins(s, e);
  }

  lemma {:induction false} PlayStaysClosed(s: State, es: seq<Event>, session: nat)
    requires session < s.next && session !in s.logins
    ensures session < Play(s, es).next && session !in Play(s, es).logins
  {
    if es != [] {
      PlayStaysClosed(s, es[..|es| - 1], session);
      ClosedStays(Play(s, es[..|es| - 1]), es[|es| - 1], session);
    }
  }

  /**
    A credential change ends for good every session of its account but the one it
    was made from, and no other account's.
  */
  lemma CredentialChangeEndsSessions(es: seq<Event>, e: Event, session: nat, more: seq<Event>)
    requires MovesCredentials(e) && !Step(Run(es), e).1.Failed? && session in Run(es).logins
    ensures var s, t := Run(es), Step(Run(es), e).0;
            var (uid, keep) := Mover(s, e);
            if s.logins[session].user == uid && keep != Some(session) then session !in Play(t, more).logins
            else session in t.logins && t.logins[session] == s.logins[session]
  {
    var s, t := Run(es), Step(Run(es), e).0;
    RunKeepsLogins(es);
    CredentialsMoveOn(s, e);
    if session !in t.logins {
      PlayStaysClosed(t, more, session);
    }
  }

  // ---- The epoch itself ----

  /** The steps that change an account's credentials or standing. */
  ghost predicate ChangesCredentials(s: State, e: Event, uid: nat) {
    || ((e.EDisableTotp? || e.EDisableEmail? || e.ESetPassword?) && e.uid == uid && Step(s, e).1.Done?)
    || (e.ERedeem? && Step(s, e).1.Done? && s.artefacts[e.id].user == uid)
    || (e.EConvert? && Step(s, e).1.Done? && s.ch.rows[e.id].user == uid)
    || (e.EMoveCredentials? && e.uid == uid) || (e.ESetStatus? && e.uid == uid)
  }

  /** What leaves the accounts alone changes no credentials. */
  lemma OthersChangeNothing(s: State, e: Event, uid: nat)
    requires !TouchesUsers(e)
    ensures Step(s, e).0.users == s.users && !ChangesCredentials(s, e, uid)
  {
    UsersStay(s, e);
  }

  /** Exactly those steps move the epoch on, by one, and of no other account. */
  lemma EpochMovesExactly(s: State, e: Event, uid: nat)
    requires uid in s.users && uid in Step(s, e).0.users && (forall u :: u in s.users ==> u < s.next)
    ensures Step(s, e).0.users[uid].epoch == s.users[uid].epoch + (if ChangesCredentials(s, e, uid) then 1 else 0)
  {
    if !TouchesUsers(e) {
      OthersChangeNothing(s, e, uid);
    } else if MovesCredentials(e) {
      MoverMovesExactly(s, e, uid);
    } else {
      StandingMovesExactly(s, e, uid);
    }
  }

  lemma MoverMovesExactly(s: State, e: Event, uid: nat)
    requires MovesCredentials(e) && uid in s.users && uid in Step(s, e).0.users
    ensures Step(s, e).0.users[uid].epoch == s.users[uid].epoch + (if ChangesCredentials(s, e, uid) then 1 else 0)
  {
    CredentialsMoveOn(s, e);
    MoverChanges(s, e, uid);
  }

  lemma StandingMovesExactly(s: State, e: Event, uid: nat)
    requires (e.ESetStatus? || e.EAddUser? || e.EDeleteUser?) && uid in s.users && uid in Step(s, e).0.users
             && uid < s.next
    ensures Step(s, e).0.users[uid].epoch == s.users[uid].epoch + (if e.ESetStatus? && e.uid == uid then 1 else 0)
    ensures ChangesCredentials(s, e, uid) <==> e.ESetStatus? && e.uid == uid
  {
  }

  lemma MoverChanges(s: State, e: Event, uid: nat)
    requires MovesCredentials(e)
    ensures ChangesCredentials(s, e, uid) <==> !Step(s, e).1.Failed? && Mover(s, e).0 == uid
  {
  }

  // ---- An artefact is used once ----

  predicate Taken(s: State, id: nat) {
    id < s.next && (id in s.artefacts ==> s.artefacts[id].consumed)
  }

  lemma {:induction false} PlayStaysTaken(s: State, es: seq<Event>, id: nat)
    requires Taken(s, id)
    ensures Taken(Play(s, es), id)
  {
    if es != [] {
      PlayStaysTaken(s, es[..|es| - 1], id);
      TakenStays(Play(s, es[..|es| - 1]), es[|es| - 1], id);
    }
  }

  lemma TakenStays(s: State, e: Event, id: nat)
    requires Taken(s, id)
    ensures Taken(Step(s, e).0, id)
  {
    ClocksRun(s, e);
    StepEvolvesArtefacts(s, e);
  }

  lemma UseTakes(s: State, e: Event)
    requires ArtefactsInv(s) && (e.ERedeem? || e.ETakeLinkState?) && Step(s, e).1.Done?
    ensures Taken(Step(s, e).0, e.id)
  {
  }

  lemma TakenRefuses(s: State, f: Event)
    requires (f.ERedeem? || f.ETakeLinkState?) && Taken(s, f.id)
    ensures Step(s, f).1 == Failed(TokenInvalid)
  {
  }

  /** A reset link or an address change is redeemed at most once, and a redirect comes back at most once. */
  lemma RedeemedOnce(es: seq<Event>, e: Event, more: seq<Event>, f: Event)
    requires (e.ERedeem? || e.ETakeLinkState?) && Step(Run(es), e).1.Done?
    requires (f.ERedeem? || f.ETakeLinkState?) && f.id == e.id
    ensures Step(Play(Step(Run(es), e).0, more), f).1 == Failed(TokenInvalid)
  {
    RunKeepsArtefacts(es);
    UseTakes(Run(es), e);
    PlayStaysTaken(Step(Run(es), e).0, more, e.id);
    TakenRefuses(Play(Step(Run(es), e).0, more), f);
  }

  // ---- What was asked for in a session ends with it ----

  /** Asked for in the session: an authenticator being enrolled, an address change or a link. */
  ghost predicate AskedIn(s: State, m: Minted, session: nat) {
    match m
    case OfArtefact(id) => id in s.artefacts && s.artefacts[id].session == Some(session)
    case OfSeed(seed) => exists u :: PendsIn(s, u, seed, session)
    case OfChallenge(_) => false
    case OfEmail(_) => false
  }

  predicate PendsIn(s: State, u: nat, seed: nat, session: nat) {
    u in s.fa.totp && s.fa.totp[u].seed == seed && s.fa.totp[u].session == Some(session) && !s.fa.totp[u].confirmed
  }

  /** Whoever still holds the row, it was asked for in the session; a secret may have been confirmed since. */
  ghost predicate Bound(s: State, m: Minted, session: nat) {
    match m
    case OfArtefact(id) => id < s.next && (id in s.artefacts ==> s.artefacts[id].session == Some(session))
    case OfSeed(seed) =>
      seed < s.next
      && forall u :: u in s.fa.totp && s.fa.totp[u].seed == seed
                     ==> s.fa.totp[u].confirmed || s.fa.totp[u].session == Some(session)
    case OfChallenge(_) => false
    case OfEmail(_) => false
  }

  lemma AskedIsBound(es: seq<Event>, m: Minted, session: nat)
    requires AskedIn(Run(es), m, session)
    ensures Bound(Run(es), m, session)
  {
    RunKeepsArtefacts(es);
    FactorRuns.RunKeepsFactors(es);
    if m.OfSeed? {
      var u :| PendsIn(Run(es), u, m.seed, session);
      assert FactorRuns.SeedInv(Run(es), u);
    }
  }

  lemma StepStaysBound(s: State, e: Event, m: Minted, session: nat)
    requires Bound(s, m, session)
    ensures Bound(Step(s, e).0, m, session)
  {
    ClocksRun(s, e);
    if m.OfArtefact? {
      StepEvolvesArtefacts(s, e);
    } else {
      FactorRuns.StepEvolvesFactors(s, e);
    }
  }

  lemma {:induction false} PlayStaysBound(s: State, es: seq<Event>, m: Minted, session: nat)
    requires Bound(s, m, session)
    ensures Bound(Play(s, es), m, session) && Play(s, es).next >= s.next
  {
    if es != [] {
      PlayStaysBound(s, es[..|es| - 1], m, session);
      StepStaysBound(Play(s, es[..|es| - 1]), es[|es| - 1], m, session);
      ClocksRun(Play(s, es[..|es| - 1]), es[|es| - 1]);
    }
  }

  lemma ClosedRefuses(s: State, e: Event, m: Minted, session: nat, epoch: nat)
    requires Bound(s, m, session) && session !in s.logins
    ensures !Commits(s, e, m, epoch)
  {
  }

  /**
    Once a session has ended, by a logout, a revocation or a credential change,
    nothing asked for in it is acted on any more: no address change, no link, no
    confirmation of the authenticator it began to enroll.
  */
  lemma OldSessionNeverCommits(es: seq<Event>, m: Minted, session: nat, mid: seq<Event>, more: seq<Event>, e: Event,
                               epoch: nat)
    requires AskedIn(Run(es), m, session) && session < Run(es).next
    requires session !in Play(Run(es), mid).logins
    ensures !Commits(Play(Play(Run(es), mid), more), e, m, epoch)
  {
    AskedIsBound(es, m, session);
    PlayStaysBound(Run(es), mid, m, session);
    PlayStaysBound(Play(Run(es), mid), more, m, session);
    PlayStaysClosed(Play(Run(es), mid), more, session);
    ClosedRefuses(Play(Play(Run(es), mid), more), e, m, session, epoch);
  }
}
