/**
  Challenges, second factors and credential-bound artefacts, one committed
  transaction at a time.

  Hashing and code MACs are injective, so a code stands for its own digest; ids
  and seeds come from one counter. `ok` in an event stands for the checks whose
  tables are not modelled here: the password, the session the caller holds, and
  whether a requested address is free. Times are in seconds.
*/
module TwoFactorModel {
  import opened Wrappers

  const MAX_ATTEMPTS := 5
  const MAX_SENDS := 3
  const RESEND_INTERVAL := 60
  const CHALLENGE_TTL := 600
  const DAY := 86400
  const DEFAULT_RETAIN_DAYS := 7

  datatype Purpose = Totp2fa | Enroll2fa | ConvertGoogle

  datatype Method = ByTotp | ByEmail | ByRecovery

  datatype User = User(active: bool, epoch: nat)

  /** A pre-auth challenge; `root` is the first challenge of its lineage. */
  datatype Challenge = Challenge(user: nat, purpose: Purpose, epoch: nat, attempts: nat, sends: nat, expires: int,
                                 proven: bool, consumed: bool, root: nat)

  /** A mailed login code. */
  datatype Code = Code(user: nat, challenge: nat, digest: nat, created: int, expires: int, consumed: bool)

  /**
    History of one lineage: a challenge and its replacements. No transaction
    reads it; it only counts what was charged.
  */
  datatype Lineage = Lineage(user: nat, purpose: Purpose, epoch: nat, born: int, guesses: nat, sent: seq<int>,
                             flagged: bool, closed: Option<int>, via: Option<Method>)

  datatype Challenges = Challenges(rows: map<nat, Challenge>, codes: map<nat, Code>, lineages: map<nat, Lineage>)

  /** While it is pending, `session` is the session its enrollment was started in, if it was in one. */
  datatype TotpSecret = TotpSecret(seed: nat, confirmed: bool, epoch: nat, counter: Option<int>, session: Option<nat>)

  datatype EmailFactor = EmailFactor(confirmed: bool, epoch: nat, session: Option<nat>)

  /** An enrollment is completed in a session, or before the first one against the challenge that let it in. */
  datatype Enrolling = InSession(session: nat) | PreAuth(challenge: nat)

  /** A mailed code that enrolls the e-mail factor or, for an enrolled one, steps a session up. */
  datatype FactorCode = FactorCode(user: nat, stepUp: bool, digest: nat, created: int, expires: int, consumed: bool)

  datatype Recovery = Recovery(user: nat, digest: nat, used: bool)

  datatype Factors = Factors(totp: map<nat, TotpSecret>, emails: map<nat, EmailFactor>, codes: map<nat, FactorCode>,
                             recovery: map<nat, Recovery>)

  datatype Kind = PasswordReset | EmailChange | OAuthLink

  /** `session` is the session the request was made in; a reset link has none. */
  datatype Artefact = Artefact(kind: Kind, user: nat, epoch: nat, session: Option<nat>, expires: int, consumed: bool)

  /** An unrevoked session, and the challenge it was opened from. */
  datatype Login = Login(user: nat, from: Option<nat>)

  datatype State = State(now: int, next: nat, users: map<nat, User>, ch: Challenges, fa: Factors,
                         artefacts: map<nat, Artefact>, logins: map<nat, Login>)

  datatype ChallengeProof = ChallengeProof(totp: Option<(nat, int)>, email: Option<nat>, recovery: Option<nat>)

  datatype FactorProof =
    | TotpProof(seed: nat, counter: int)
    | RecoveryProof(digest: nat)
    | StepUpProof(digest: nat)
    | NoProof

  datatype Error =
    | ChallengeInvalid | Exhausted | SendsExhausted | TooSoon | FactorUnavailable | BadCredentials
    | SessionInvalid | AlreadyConfirmed | NoPendingFactor | TokenInvalid

  datatype Reply =
    | Failed(error: Error)
    | Done
    | Created(challenge: nat)
    | Charged(attempts: nat)
    | Mailed(sends: nat)
    | LoggedIn(challenge: nat, via: Method)
    | Enrolled(challenge: nat)

  type Outcome = (State, Reply)

  function Init(): (s: State) {
    State(0, 0, map[], Challenges(map[], map[], map[]), Factors(map[], map[], map[], map[]), map[], map[])
  }

  predicate LiveUser(s: State, uid: nat, epoch: nat) {
    uid in s.users && s.users[uid].active && s.users[uid].epoch == epoch
  }

  predicate LiveLogin(s: State, uid: nat, session: nat) {
    session in s.logins && s.logins[session].user == uid
  }

  // ---- Sessions ----

  function OpenLogin(s: State, uid: nat, from: Option<nat>): (r: State) {
    s.(next := s.next + 1, logins := s.logins[s.next := Login(uid, from)])
  }

  /** Every session of the account but `keep` is revoked. */
  function LoginsWithout(logins: map<nat, Login>, uid: nat, keep: Option<nat>): (r: map<nat, Login>) {
    map l | l in logins && (logins[l].user != uid || keep == Some(l)) :: logins[l]
  }

  function RevokeLogins(s: State, uid: nat, keep: Option<nat>): (r: State) {
    s.(logins := LoginsWithout(s.logins, uid, keep))
  }

  /** A login whose first factor is enough. */
  function IssueSession(s: State, uid: nat, epoch: nat): (r: Outcome) {
    if LiveUser(s, uid, epoch) then (OpenLogin(s, uid, None), Done) else (s, Failed(SessionInvalid))
  }

  // ---- Challenges ----

  /** Unspent, unexpired, of an active account whose credentials have not moved. */
  predicate LiveChallenge(s: State, id: nat) {
    && id in s.ch.rows
    && !s.ch.rows[id].consumed && s.ch.rows[id].expires > s.now
    && LiveUser(s, s.ch.rows[id].user, s.ch.rows[id].epoch)
  }

  predicate IsPrevious(s: State, id: nat, uid: nat, purpose: Purpose, epoch: nat) {
    && id in s.ch.rows
    && s.ch.rows[id].user == uid && s.ch.rows[id].purpose == purpose && s.ch.rows[id].epoch == epoch
    && !s.ch.rows[id].consumed && s.ch.rows[id].expires > s.now
  }

  /** Every unspent challenge of the account and purpose is spent. */
  function Superseded(rows: map<nat, Challenge>, uid: nat, purpose: Purpose): (r: map<nat, Challenge>) {
    map id | id in rows ::
      if rows[id].user == uid && rows[id].purpose == purpose then rows[id].(consumed := true) else rows[id]
  }

  /** The codes of `from` move to `to`, spent: only their timestamps still count. */
  function MovedCodes(codes: map<nat, Code>, from: nat, to: nat): (r: map<nat, Code>) {
    map id | id in codes ::
      if codes[id].challenge == from then codes[id].(challenge := to, consumed := true) else codes[id]
  }

  function FirstChallenge(s: State, uid: nat, purpose: Purpose, epoch: nat, proven: bool): (r: State) {
    var id := s.next;
    var row := Challenge(uid, purpose, epoch, 0, 0, s.now + CHALLENGE_TTL, proven, false, id);
    var line := Lineage(uid, purpose, epoch, s.now, 0, [], proven, None, None);
    s.(next := id + 1,
       ch := s.ch.(rows := Superseded(s.ch.rows, uid, purpose)[id := row], lineages := s.ch.lineages[id := line]))
  }

  // What each charge adds to the history of its lineage.

  function Flagged(lines: map<nat, Lineage>, root: nat, proven: bool): (r: map<nat, Lineage>) {
    if root in lines then lines[root := lines[root].(flagged := lines[root].flagged || proven)] else lines
  }

  function Guessed(lines: map<nat, Lineage>, root: nat): (r: map<nat, Lineage>) {
    if root in lines then lines[root := lines[root].(guesses := lines[root].guesses + 1)] else lines
  }

  function Sent(lines: map<nat, Lineage>, root: nat, at: int): (r: map<nat, Lineage>) {
    if root in lines then lines[root := lines[root].(sent := lines[root].sent + [at])] else lines
  }

  function Closed(lines: map<nat, Lineage>, root: nat, at: int, via: Option<Method>): (r: map<nat, Lineage>) {
    if root in lines then lines[root := lines[root].(closed := Some(at), via := via)] else lines
  }

  /** A replacement keeps the counters, the expiry and the provenance of the challenge it replaces. */
  function NextChallenge(s: State, prev: nat, proven: bool): (r: State)
    requires prev in s.ch.rows
  {
    var row := s.ch.rows[prev];
    s.(next := s.next + 1,
       ch := Challenges(Superseded(s.ch.rows, row.user, row.purpose)[s.next := row.(proven := row.proven || proven)],
                        MovedCodes(s.ch.codes, prev, s.next),
                        Flagged(s.ch.lineages, row.root, proven)))
  }

  ghost function CreateChallenge(s: State, uid: nat, purpose: Purpose, epoch: nat, proven: bool): (r: Outcome) {
    if !LiveUser(s, uid, epoch) then (s, Failed(ChallengeInvalid))
    else if prev :| IsPrevious(s, prev, uid, purpose, epoch) then (NextChallenge(s, prev, proven), Created(s.next))
    else (FirstChallenge(s, uid, purpose, epoch, proven), Created(s.next))
  }

  /** Charging one guess. */
  function BumpAttempt(s: State, id: nat): (r: Outcome) {
    if !LiveChallenge(s, id) then (s, Failed(ChallengeInvalid))
    else if s.ch.rows[id].attempts >= MAX_ATTEMPTS then (s, Failed(Exhausted))
    else
      var row := s.ch.rows[id];
      (s.(ch := s.ch.(rows := s.ch.rows[id := row.(attempts := row.attempts + 1)],
                      lineages := Guessed(s.ch.lineages, row.root))),
       Charged(row.attempts + 1))
  }

  /** Marks a challenge spent. */
  function Spend(s: State, id: nat, via: Option<Method>): (r: State)
    requires id in s.ch.rows
  {
    s.(ch := s.ch.(rows := s.ch.rows[id := s.ch.rows[id].(consumed := true)],
                   lineages := Closed(s.ch.lineages, s.ch.rows[id].root, s.now, via)))
  }

  function ConsumeChallenge(s: State, id: nat): (r: Outcome) {
    if LiveChallenge(s, id) then (Spend(s, id, None), Done) else (s, Failed(ChallengeInvalid))
  }

  function Max(a: nat, b: nat): (r: nat) {
    if a < b then b else a
  }

  /** No code of the challenge is younger than the cooldown, whose floor policy cannot lower. */
  predicate Cooled(s: State, id: nat, cooldown: nat) {
    forall c :: c in s.ch.codes && s.ch.codes[c].challenge == id
      ==> s.ch.codes[c].created < s.now - Max(cooldown, RESEND_INTERVAL)
  }

  function CodesSpent(codes: map<nat, Code>, uid: nat): (r: map<nat, Code>) {
    map c | c in codes :: if codes[c].user == uid then codes[c].(consumed := true) else codes[c]
  }

  /** The send is charged, the account's other codes are spent and the new one takes their place. */
  function Publish(s: State, id: nat, digest: nat, ttl: nat): (r: State)
    requires id in s.ch.rows
  {
    var row := s.ch.rows[id];
    var code := Code(row.user, id, digest, s.now, s.now + ttl, false);
    s.(next := s.next + 1,
       ch := Challenges(s.ch.rows[id := row.(sends := row.sends + 1)],
                        CodesSpent(s.ch.codes, row.user)[s.next := code],
                        Sent(s.ch.lineages, row.root, s.now)))
  }

  /**
    Mailing a login code. The handler's guard comes first: the challenge awaits a
    second factor, its first factor was not a link to the same mailbox, and the
    account has e-mail enrolled (`enrolled`, read before this transaction).
  */
  function SendCode(s: State, id: nat, digest: nat, ttl: nat, cooldown: nat, enrolled: bool): (r: Outcome) {
    if !LiveChallenge(s, id) || s.ch.rows[id].purpose != Totp2fa then (s, Failed(ChallengeInvalid))
    else if s.ch.rows[id].proven || !enrolled then (s, Failed(FactorUnavailable))
    else if s.ch.rows[id].sends >= MAX_SENDS then (s, Failed(SendsExhausted))
    else if !Cooled(s, id, cooldown) then (s, Failed(TooSoon))
    else (Publish(s, id, digest, ttl), Mailed(s.ch.rows[id].sends + 1))
  }

  // ---- Spending a proof ----

  predicate TotpAccepts(fa: Factors, uid: nat, seed: nat, counter: int) {
    && uid in fa.totp && fa.totp[uid].confirmed && fa.totp[uid].seed == seed
    && (fa.totp[uid].counter == None || fa.totp[uid].counter.value < counter)
  }

  function SpendTotp(fa: Factors, uid: nat, counter: int): (r: Factors)
    requires uid in fa.totp
  {
    fa.(totp := fa.totp[uid := fa.totp[uid].(counter := Some(counter))])
  }

  predicate RecoveryMatches(fa: Factors, id: nat, uid: nat, digest: nat) {
    id in fa.recovery && fa.recovery[id].user == uid && fa.recovery[id].digest == digest && !fa.recovery[id].used
  }

  predicate HasRecovery(fa: Factors, uid: nat, digest: nat) {
    exists id :: id in fa.recovery && RecoveryMatches(fa, id, uid, digest)
  }

  function SpendRecovery(fa: Factors, uid: nat, digest: nat): (r: Factors) {
    fa.(recovery := map id | id in fa.recovery ::
          if RecoveryMatches(fa, id, uid, digest) then fa.recovery[id].(used := true) else fa.recovery[id])
  }

  predicate CodeMatches(s: State, c: nat, uid: nat, id: nat, digest: nat) {
    && c in s.ch.codes
    && s.ch.codes[c].user == uid && s.ch.codes[c].challenge == id && s.ch.codes[c].digest == digest
    && !s.ch.codes[c].consumed && s.ch.codes[c].expires > s.now
  }

  predicate HasCode(s: State, uid: nat, id: nat, digest: nat) {
    exists c :: c in s.ch.codes && CodeMatches(s, c, uid, id, digest)
  }

  function SpendCode(s: State, uid: nat, id: nat, digest: nat): (r: State) {
    s.(ch := s.ch.(codes := map c | c in s.ch.codes ::
                     if CodeMatches(s, c, uid, id, digest) then s.ch.codes[c].(consumed := true) else s.ch.codes[c]))
  }

  /** The first of the three proofs a login code can be that is accepted. */
  function SpendLoginProof(s: State, uid: nat, id: nat, proof: ChallengeProof): (r: Option<(State, Method)>) {
    if proof.totp.Some? && TotpAccepts(s.fa, uid, proof.totp.value.0, proof.totp.value.1)
      then Some((s.(fa := SpendTotp(s.fa, uid, proof.totp.value.1)), ByTotp))
    else if proof.email.Some? && HasCode(s, uid, id, proof.email.value)
      then Some((SpendCode(s, uid, id, proof.email.value), ByEmail))
    else if proof.recovery.Some? && HasRecovery(s.fa, uid, proof.recovery.value)
      then Some((s.(fa := SpendRecovery(s.fa, uid, proof.recovery.value)), ByRecovery))
    else None
  }

  /** Completing a login: one proof and the challenge are spent together, for one session. */
  function Complete2FA(s: State, id: nat, proof: ChallengeProof): (r: Outcome) {
    if !LiveChallenge(s, id) || s.ch.rows[id].purpose != Totp2fa || s.ch.rows[id].attempts > MAX_ATTEMPTS
      then (s, Failed(ChallengeInvalid))
    else
      match SpendLoginProof(s, s.ch.rows[id].user, id, proof)
      case None => (s, Failed(BadCredentials))
      case Some(spent) =>
        (OpenLogin(Spend(spent.0, id, Some(spent.1)), s.ch.rows[id].user, Some(id)), LoggedIn(id, spent.1))
  }

  predicate FactorCodeMatches(s: State, c: nat, uid: nat, stepUp: bool, digest: nat) {
    && c in s.fa.codes
    && s.fa.codes[c].user == uid && s.fa.codes[c].stepUp == stepUp && s.fa.codes[c].digest == digest
    && !s.fa.codes[c].consumed && s.fa.codes[c].expires > s.now
  }

  predicate HasFactorCode(s: State, uid: nat, stepUp: bool, digest: nat) {
    exists c :: c in s.fa.codes && FactorCodeMatches(s, c, uid, stepUp, digest)
  }

  function SpendFactorCode(s: State, uid: nat, stepUp: bool, digest: nat): (r: Factors) {
    s.fa.(codes := map c | c in s.fa.codes ::
            if FactorCodeMatches(s, c, uid, stepUp, digest) then s.fa.codes[c].(consumed := true) else s.fa.codes[c])
  }

  /** Spending a verified second factor inside the transaction it authorizes. */
  function SpendProof(s: State, uid: nat, proof: FactorProof): (r: Option<Factors>) {
    match proof
    case TotpProof(seed, counter) =>
      if TotpAccepts(s.fa, uid, seed, counter) then Some(SpendTotp(s.fa, uid, counter)) else None
    case RecoveryProof(digest) =>
      if HasRecovery(s.fa, uid, digest) then Some(SpendRecovery(s.fa, uid, digest)) else None
    case StepUpProof(digest) =>
      if HasFactorCode(s, uid, true, digest) then Some(SpendFactorCode(s, uid, true, digest)) else None
    case NoProof => None
  }

  // ---- Factors ----

  predicate TotpConfirmed(fa: Factors, uid: nat) {
    uid in fa.totp && fa.totp[uid].confirmed
  }

  predicate EmailConfirmed(fa: Factors, uid: nat) {
    uid in fa.emails && fa.emails[uid].confirmed
  }

  predicate HasFactor(fa: Factors, uid: nat) {
    TotpConfirmed(fa, uid) || EmailConfirmed(fa, uid)
  }

  function BumpEpoch(s: State, uid: nat): (r: State) {
    if uid in s.users then s.(users := s.users[uid := s.users[uid].(epoch := s.users[uid].epoch + 1)]) else s
  }

  /** The credentials move on, and every session but `keep` ends with the old ones. */
  function MoveOn(s: State, uid: nat, keep: Option<nat>): (r: State) {
    RevokeLogins(BumpEpoch(s, uid), uid, keep)
  }

  /** The account's recovery codes replaced by `digests`, under the ids from `s.next` on. */
  function ReplaceRecovery(s: State, uid: nat, digests: seq<nat>): (r: State) {
    s.(next := s.next + |digests|,
       fa := s.fa.(recovery := RecoveryWithout(s.fa.recovery, uid) + RecoveryRows(uid, digests, s.next)))
  }

  function RecoveryWithout(recovery: map<nat, Recovery>, uid: nat): (r: map<nat, Recovery>) {
    map id | id in recovery && recovery[id].user != uid :: recovery[id]
  }

  function RecoveryRows(uid: nat, digests: seq<nat>, first: nat): (r: map<nat, Recovery>) {
    map id: nat | first <= id < first + |digests| && IsIssued(id, first, |digests|)
      :: Recovery(uid, digests[id - first], false)
  }

  predicate IsIssued(id: nat, first: nat, count: nat) {
    first <= id < first + count
  }

  function DropRecovery(fa: Factors, uid: nat): (r: Factors) {
    fa.(recovery := RecoveryWithout(fa.recovery, uid))
  }

  /** A pre-auth enrollment also spends its challenge, for the first session; without one there is nothing to finish. */
  function FinishPreAuth(s: State, uid: nat, epoch: nat, path: Enrolling): (r: Option<State>) {
    if path.InSession? then Some(s)
    else
      var id := path.challenge;
      if id in s.ch.rows && s.ch.rows[id].user == uid && s.ch.rows[id].purpose == Enroll2fa
         && s.ch.rows[id].epoch == epoch && !s.ch.rows[id].consumed && s.ch.rows[id].expires > s.now
      then Some(OpenLogin(Spend(s, id, None), uid, Some(id))) else None
  }

  function EnrollmentReply(path: Enrolling): (r: Reply) {
    if path.PreAuth? then Enrolled(path.challenge) else Done
  }

  /** The session a request says it is made in, if any, is a live one of the account. */
  predicate SessionHolds(s: State, uid: nat, session: Option<nat>) {
    session.Some? ==> LiveLogin(s, uid, session.value)
  }

  function SessionOf(path: Enrolling): (session: Option<nat>) {
    if path.InSession? then Some(path.session) else None
  }

  function ConfirmTotp(fa: Factors, uid: nat, seed: nat, epoch: nat, counter: int): (r: Factors) {
    fa.(totp := fa.totp[uid := TotpSecret(seed, true, epoch, Some(counter), None)])
  }

  function ConfirmEmail(fa: Factors, uid: nat, epoch: nat): (r: Factors) {
    fa.(emails := fa.emails[uid := EmailFactor(true, epoch, None)])
  }

  function StartTotp(s: State, uid: nat, epoch: nat, within: Option<nat>, ok: bool): (r: Outcome) {
    if !LiveUser(s, uid, epoch) || !ok then (s, Failed(ChallengeInvalid))
    else if !SessionHolds(s, uid, within) then (s, Failed(SessionInvalid))
    else if TotpConfirmed(s.fa, uid) then (s, Failed(AlreadyConfirmed))
    else
      var secret := TotpSecret(s.next, false, epoch, None, within);
      (s.(next := s.next + 1, fa := s.fa.(totp := s.fa.totp[uid := secret])), Done)
  }

  /** The pending secret is the one that was verified, of this epoch, and started in this session or in none. */
  predicate TotpPends(fa: Factors, uid: nat, seed: nat, epoch: nat, session: Option<nat>) {
    && uid in fa.totp && !fa.totp[uid].confirmed
    && fa.totp[uid].epoch == epoch && fa.totp[uid].seed == seed && fa.totp[uid].session == session
  }

  function CompleteTotp(s: State, uid: nat, epoch: nat, seed: nat, counter: int, digests: seq<nat>, path: Enrolling,
                        ok: bool): (r: Outcome) {
    if !LiveUser(s, uid, epoch) || !ok then (s, Failed(ChallengeInvalid))
    else if !SessionHolds(s, uid, SessionOf(path)) then (s, Failed(SessionInvalid))
    else if !TotpPends(s.fa, uid, seed, epoch, SessionOf(path)) then (s, Failed(NoPendingFactor))
    else
      var fa := ConfirmTotp(s.fa, uid, seed, epoch, counter);
      match FinishPreAuth(ReplaceRecovery(s.(fa := fa), uid, digests), uid, epoch, path)
      case None => (s, Failed(ChallengeInvalid))
      case Some(t) => (t, EnrollmentReply(path))
  }

  /** Whether a code of this account and use was mailed within the cooldown. */
  predicate MailedRecently(s: State, uid: nat, stepUp: bool, cooldown: nat) {
    exists c :: c in s.fa.codes && s.fa.codes[c].user == uid && s.fa.codes[c].stepUp == stepUp
                && s.fa.codes[c].created >= s.now - Max(cooldown, RESEND_INTERVAL)
  }

  function FactorCodesSpent(codes: map<nat, FactorCode>, uid: nat, stepUp: bool): (r: map<nat, FactorCode>) {
    map c | c in codes ::
      if codes[c].user == uid && codes[c].stepUp == stepUp then codes[c].(consumed := true) else codes[c]
  }

  function FactorCodesWithout(codes: map<nat, FactorCode>, uid: nat): (r: map<nat, FactorCode>) {
    map c | c in codes && codes[c].user != uid :: codes[c]
  }

  /** The outstanding codes of this use are spent and a new one is mailed. */
  function MailFactorCode(s: State, uid: nat, stepUp: bool, digest: nat, ttl: nat): (r: State) {
    var code := FactorCode(uid, stepUp, digest, s.now, s.now + ttl, false);
    s.(next := s.next + 1, fa := s.fa.(codes := FactorCodesSpent(s.fa.codes, uid, stepUp)[s.next := code]))
  }

  function StartEmail(s: State, uid: nat, epoch: nat, within: Option<nat>, digest: nat, ttl: nat, cooldown: nat,
                      ok: bool): (r: Outcome) {
    if !LiveUser(s, uid, epoch) || !ok then (s, Failed(ChallengeInvalid))
    else if !SessionHolds(s, uid, within) then (s, Failed(SessionInvalid))
    else if MailedRecently(s, uid, false, cooldown) then (s, Failed(TooSoon))
    else if EmailConfirmed(s.fa, uid) then (s, Failed(AlreadyConfirmed))
    else
      var t := MailFactorCode(s, uid, false, digest, ttl);
      (t.(fa := t.fa.(emails := t.fa.emails[uid := EmailFactor(false, epoch, within)])), Done)
  }

  /** A session completes only what it started; before the first session anything pending can be completed. */
  predicate EmailPends(fa: Factors, uid: nat, epoch: nat, path: Enrolling) {
    && uid in fa.emails && !fa.emails[uid].confirmed && fa.emails[uid].epoch == epoch
    && (path.InSession? ==> fa.emails[uid].session == Some(path.session))
  }

  function CompleteEmail(s: State, uid: nat, epoch: nat, digest: nat, digests: seq<nat>, path: Enrolling, ok: bool):
    (r: Outcome)
  {
    if !LiveUser(s, uid, epoch) || !ok then (s, Failed(ChallengeInvalid))
    else if !SessionHolds(s, uid, SessionOf(path)) then (s, Failed(SessionInvalid))
    else if !HasFactorCode(s, uid, false, digest) then (s, Failed(BadCredentials))
    else if !EmailPends(s.fa, uid, epoch, path) then (s, Failed(NoPendingFactor))
    else
      var fa := SpendFactorCode(s, uid, false, digest);
      var t := ReplaceRecovery(s.(fa := ConfirmEmail(fa, uid, epoch)), uid, digests);
      match FinishPreAuth(t, uid, epoch, path)
      case None => (s, Failed(ChallengeInvalid))
      case Some(u) => (u, EnrollmentReply(path))
  }

  function SendStepUp(s: State, uid: nat, epoch: nat, session: nat, digest: nat, ttl: nat, cooldown: nat,
                      ok: bool): (r: Outcome) {
    if !LiveUser(s, uid, epoch) || !LiveLogin(s, uid, session) || !ok then (s, Failed(SessionInvalid))
    else if !EmailConfirmed(s.fa, uid) then (s, Failed(NoPendingFactor))
    else if MailedRecently(s, uid, true, cooldown) then (s, Failed(TooSoon))
    else (MailFactorCode(s, uid, true, digest, ttl), Done)
  }

  /** The recovery codes go with the last factor. */
  function WithoutTotp(fa: Factors, uid: nat): (r: Factors) {
    var left := fa.(totp := fa.totp - {uid});
    if EmailConfirmed(left, uid) then left else DropRecovery(left, uid)
  }

  /** The e-mail factor goes with every code it mailed, and the recovery codes with the last factor. */
  function WithoutEmail(fa: Factors, uid: nat): (r: Factors) {
    var left := fa.(emails := fa.emails - {uid}, codes := FactorCodesWithout(fa.codes, uid));
    if TotpConfirmed(left, uid) then left else DropRecovery(left, uid)
  }

  function DisableTotp(s: State, uid: nat, epoch: nat, session: nat, proof: FactorProof, ok: bool): (r: Outcome) {
    if !LiveUser(s, uid, epoch) || !LiveLogin(s, uid, session) || !ok then (s, Failed(SessionInvalid))
    else
      match SpendProof(s, uid, proof)
      case None => (s, Failed(BadCredentials))
      case Some(spent) =>
        if uid !in spent.totp then (s, Failed(NoPendingFactor))
        else (MoveOn(s.(fa := WithoutTotp(spent, uid)), uid, Some(session)), Done)
  }

  function DisableEmail(s: State, uid: nat, epoch: nat, session: nat, proof: FactorProof, ok: bool): (r: Outcome) {
    if !LiveUser(s, uid, epoch) || !LiveLogin(s, uid, session) || !ok then (s, Failed(SessionInvalid))
    else
      match SpendProof(s, uid, proof)
      case None => (s, Failed(BadCredentials))
      case Some(spent) =>
        if uid !in spent.emails then (s, Failed(NoPendingFactor))
        else (MoveOn(s.(fa := WithoutEmail(spent, uid)), uid, Some(session)), Done)
  }

  function Regenerate(s: State, uid: nat, epoch: nat, session: nat, proof: FactorProof, digests: seq<nat>,
                      ok: bool): (r: Outcome) {
    if !LiveUser(s, uid, epoch) || !LiveLogin(s, uid, session) || !ok then (s, Failed(SessionInvalid))
    else
      match SpendProof(s, uid, proof)
      case None => (s, Failed(BadCredentials))
      case Some(spent) => (ReplaceRecovery(s.(fa := spent), uid, digests), Done)
  }

  /** Spending a proof on its own, for the redirect that links a provider. */
  function ConsumeSecondFactor(s: State, uid: nat, proof: FactorProof): (r: Outcome) {
    match SpendProof(s, uid, proof)
    case None => (s, Failed(BadCredentials))
    case Some(spent) => (s.(fa := spent), Done)
  }

  /** Adding a password: an account with any factor must prove one. */
  function SetPassword(s: State, uid: nat, epoch: nat, session: nat, proof: FactorProof, ok: bool): (r: Outcome) {
    if !LiveUser(s, uid, epoch) || !LiveLogin(s, uid, session) || !ok then (s, Failed(SessionInvalid))
    else if !HasFactor(s.fa, uid) then (MoveOn(s, uid, Some(session)), Done)
    else
      match SpendProof(s, uid, proof)
      case None => (s, Failed(BadCredentials))
      case Some(spent) => (MoveOn(s.(fa := spent), uid, Some(session)), Done)
  }

  // ---- Artefacts bound to a credential epoch ----

  function ArtefactsSpent(rows: map<nat, Artefact>, kind: Kind, uid: nat): (r: map<nat, Artefact>) {
    if kind == OAuthLink then rows
    else
      map a | a in rows ::
        if rows[a].user == uid && rows[a].kind == kind then rows[a].(consumed := true) else rows[a]
  }

  /** A reset link, a pending address or a link redirect, minted at the live epoch; the first two replace their kind. */
  function Mint(s: State, kind: Kind, uid: nat, within: Option<nat>, ttl: nat, ok: bool): (r: Outcome) {
    if uid !in s.users || !s.users[uid].active || !ok then (s, Failed(TokenInvalid))
    else if kind == OAuthLink && (within.None? || !SessionHolds(s, uid, within)) then (s, Failed(TokenInvalid))
    else
      var session := if kind == PasswordReset then None else within;
      var row := Artefact(kind, uid, s.users[uid].epoch, session, s.now + ttl, false);
      (s.(next := s.next + 1, artefacts := ArtefactsSpent(s.artefacts, kind, uid)[s.next := row]), Done)
  }

  function SpendArtefact(s: State, id: nat): (r: State)
    requires id in s.artefacts
  {
    s.(artefacts := s.artefacts[id := s.artefacts[id].(consumed := true)])
  }

  /** The session an artefact was asked for in, if any, has not been revoked. */
  predicate SessionLasts(s: State, id: nat)
    requires id in s.artefacts
  {
    s.artefacts[id].session.Some? ==> s.artefacts[id].session.value in s.logins
  }

  /** Redeeming a reset link or an address change: both move the credentials on. */
  function Redeem(s: State, id: nat, ok: bool): (r: Outcome) {
    if id !in s.artefacts || s.artefacts[id].kind == OAuthLink || s.artefacts[id].consumed
       || s.artefacts[id].expires <= s.now || !LiveUser(s, s.artefacts[id].user, s.artefacts[id].epoch)
       || !SessionLasts(s, id) || !ok
    then (s, Failed(TokenInvalid))
    else (MoveOn(SpendArtefact(s, id), s.artefacts[id].user, None), Done)
  }

  /** The provider's redirect comes back: the state is spent before anything is known about its epoch. */
  function TakeLinkState(s: State, id: nat): (r: Outcome) {
    if id !in s.artefacts || s.artefacts[id].kind != OAuthLink || s.artefacts[id].consumed
       || s.artefacts[id].expires <= s.now
    then (s, Failed(TokenInvalid))
    else (SpendArtefact(s, id), Done)
  }

  /** Linking what the redirect brought back: what guards the one row it adds, which is not kept here. */
  function LinkIdentity(s: State, id: nat, ok: bool): (r: Outcome) {
    if id !in s.artefacts || s.artefacts[id].kind != OAuthLink || !s.artefacts[id].consumed
       || !LiveUser(s, s.artefacts[id].user, s.artefacts[id].epoch)
       || !SessionHolds(s, s.artefacts[id].user, s.artefacts[id].session) || !ok
    then (s, Failed(TokenInvalid))
    else (s, Done)
  }

  /** Turning a password account into a provider account. */
  function Convert(s: State, id: nat, ok: bool): (r: Outcome) {
    if !LiveChallenge(s, id) || s.ch.rows[id].purpose != ConvertGoogle || !ok then (s, Failed(ChallengeInvalid))
    else (MoveOn(Spend(s, id, None), s.ch.rows[id].user, None), Done)
  }

  // ---- Accounts, clock and sweeper ----

  function DropUser(s: State, uid: nat): (r: State) {
    var ch := Challenges(map i | i in s.ch.rows && s.ch.rows[i].user != uid :: s.ch.rows[i],
                         map i | i in s.ch.codes && s.ch.codes[i].user != uid :: s.ch.codes[i], s.ch.lineages);
    var fa := s.fa.(totp := s.fa.totp - {uid}, emails := s.fa.emails - {uid},
                    codes := map i | i in s.fa.codes && s.fa.codes[i].user != uid :: s.fa.codes[i],
                    recovery := map i | i in s.fa.recovery && s.fa.recovery[i].user != uid :: s.fa.recovery[i]);
    State(s.now, s.next, s.users - {uid}, ch, fa,
          map i | i in s.artefacts && s.artefacts[i].user != uid :: s.artefacts[i], LoginsWithout(s.logins, uid, None))
  }

  /** Retention is whole days, and a setting of none falls back to the default. */
  function Retain(days: nat): (r: nat) {
    (if days == 0 then DEFAULT_RETAIN_DAYS else days) * DAY
  }

  /** Deletes what expired longer ago than the retention, codes going with their challenge. */
  function SweepTwoFactor(s: State, days: nat): (r: State) {
    var limit := s.now - Retain(days);
    var rows := map i | i in s.ch.rows && s.ch.rows[i].expires >= limit :: s.ch.rows[i];
    s.(ch := s.ch.(rows := rows,
                   codes := map i | i in s.ch.codes && s.ch.codes[i].challenge in rows && s.ch.codes[i].expires >= limit
                              :: s.ch.codes[i]),
       fa := s.fa.(codes := map i | i in s.fa.codes && s.fa.codes[i].expires >= limit :: s.fa.codes[i]),
       artefacts := map i | i in s.artefacts && s.artefacts[i].expires >= limit :: s.artefacts[i])
  }

  datatype Event =
    | ECreateChallenge(uid: nat, purpose: Purpose, epoch: nat, proven: bool)
    | EBumpAttempt(id: nat)
    | EConsumeChallenge(id: nat)
    | ESendCode(id: nat, digest: nat, ttl: nat, cooldown: nat, enrolled: bool)
    | EComplete2FA(id: nat, login: ChallengeProof)
    | EStartTotp(uid: nat, epoch: nat, within: Option<nat>, ok: bool)
    | ECompleteTotp(uid: nat, epoch: nat, seed: nat, counter: int, digests: seq<nat>, path: Enrolling, ok: bool)
    | EStartEmail(uid: nat, epoch: nat, within: Option<nat>, digest: nat, ttl: nat, cooldown: nat, ok: bool)
    | ECompleteEmail(uid: nat, epoch: nat, digest: nat, digests: seq<nat>, path: Enrolling, ok: bool)
    | ESendStepUp(uid: nat, epoch: nat, session: nat, digest: nat, ttl: nat, cooldown: nat, ok: bool)
    | EDisableTotp(uid: nat, epoch: nat, session: nat, proof: FactorProof, ok: bool)
    | EDisableEmail(uid: nat, epoch: nat, session: nat, proof: FactorProof, ok: bool)
    | ERegenerate(uid: nat, epoch: nat, session: nat, proof: FactorProof, digests: seq<nat>, ok: bool)
    | EConsumeSecondFactor(uid: nat, proof: FactorProof)
    | ESetPassword(uid: nat, epoch: nat, session: nat, proof: FactorProof, ok: bool)
    | EMint(kind: Kind, uid: nat, within: Option<nat>, ttl: nat, ok: bool)
    | ERedeem(id: nat, ok: bool)
    | ETakeLinkState(id: nat)
    | ELinkIdentity(id: nat, ok: bool)
    | EConvert(id: nat, ok: bool)
    | EMoveCredentials(uid: nat, keep: Option<nat>)
    | EIssueSession(uid: nat, epoch: nat)
    | ERevokeSession(session: nat)
    | ESetStatus(uid: nat, active: bool)
    | EAddUser
    | EDeleteUser(uid: nat)
    | ESweep(days: nat)
    | ETick(seconds: nat)

  ghost function Step(s: State, e: Event): (r: Outcome) {
    match e
    case ECreateChallenge(uid, purpose, epoch, proven) => CreateChallenge(s, uid, purpose, epoch, proven)
    case EBumpAttempt(id) => BumpAttempt(s, id)
    case EConsumeChallenge(id) => ConsumeChallenge(s, id)
    case ESendCode(id, digest, ttl, cooldown, enrolled) => SendCode(s, id, digest, ttl, cooldown, enrolled)
    case EComplete2FA(id, login) => Complete2FA(s, id, login)
    case EStartTotp(uid, epoch, within, ok) => StartTotp(s, uid, epoch, within, ok)
    case ECompleteTotp(uid, epoch, seed, counter, digests, path, ok) =>
      CompleteTotp(s, uid, epoch, seed, counter, digests, path, ok)
    case EStartEmail(uid, epoch, within, digest, ttl, cooldown, ok) =>
      StartEmail(s, uid, epoch, within, digest, ttl, cooldown, ok)
    case ECompleteEmail(uid, epoch, digest, digests, path, ok) =>
      CompleteEmail(s, uid, epoch, digest, digests, path, ok)
    case ESendStepUp(uid, epoch, session, digest, ttl, cooldown, ok) =>
      SendStepUp(s, uid, epoch, session, digest, ttl, cooldown, ok)
    case EDisableTotp(uid, epoch, session, proof, ok) => DisableTotp(s, uid, epoch, session, proof, ok)
    case EDisableEmail(uid, epoch, session, proof, ok) => DisableEmail(s, uid, epoch, session, proof, ok)
    case ERegenerate(uid, epoch, session, proof, digests, ok) => Regenerate(s, uid, epoch, session, proof, digests, ok)
    case EConsumeSecondFactor(uid, proof) => ConsumeSecondFactor(s, uid, proof)
    case ESetPassword(uid, epoch, session, proof, ok) => SetPassword(s, uid, epoch, session, proof, ok)
    case EMint(kind, uid, within, ttl, ok) => Mint(s, kind, uid, within, ttl, ok)
    case ERedeem(id, ok) => Redeem(s, id, ok)
    case ETakeLinkState(id) => TakeLinkState(s, id)
    case ELinkIdentity(id, ok) => LinkIdentity(s, id, ok)
    case EConvert(id, ok) => Convert(s, id, ok)
    case EMoveCredentials(uid, keep) => (MoveOn(s, uid, keep), Done)
    case EIssueSession(uid, epoch) => IssueSession(s, uid, epoch)
    case ERevokeSession(session) => (s.(logins := s.logins - {session}), Done)
    case ESetStatus(uid, active) =>
      (if uid in s.users then s.(users := s.users[uid := User(active, s.users[uid].epoch + 1)]) else s, Done)
    case EAddUser => (s.(next := s.next + 1, users := s.users[s.next := User(true, 0)]), Done)
    case EDeleteUser(uid) => (DropUser(s, uid), Done)
    case ESweep(days) => (SweepTwoFactor(s, days), Done)
    case ETick(seconds) => (s.(now := s.now + seconds), Done)
  }

  /** The state after the events of `es`, starting from `s`. */
  ghost function Play(s: State, es: seq<Event>): (t: State) {
    if es == [] then s else Step(Play(s, es[..|es| - 1]), es[|es| - 1]).0
  }

  ghost function Run(es: seq<Event>): (s: State) {
    Play(Init(), es)
  }

  ghost predicate Reachable(s: State) {
    exists es :: Run(es) == s
  }

  lemma StepIsReachable(s: State, e: Event)
    requires Reachable(s)
    ensures Reachable(Step(s, e).0)
  {
    var es :| Run(es) == s;
    assert (es + [e])[..|es + [e]| - 1] == es;
    assert Run(es + [e]) == Step(s, e).0;
  }
}
