/** What reset links, address changes, redirects and account edits answer and change, read off the columns. */
module ArtefactAnswers {
  import opened Wrappers
  import opened TwoFactorModel
  import opened LoginAnswers
  import opened FactorAnswers

  // ---- Artefacts ----

  /** The session the artefact was asked for in, if any, has not ended. */
  predicate SessionGoesOn(s: State, id: nat)
    requires id in s.artefacts
  {
    s.artefacts[id].session.None? || s.artefacts[id].session.value in s.logins
  }

  /** Unspent, in time, for a standing account and a session that goes on. */
  predicate IsRedeemable(s: State, id: nat) {
    && id in s.artefacts && (s.artefacts[id].kind.PasswordReset? || s.artefacts[id].kind.EmailChange?)
    && !s.artefacts[id].consumed && s.now < s.artefacts[id].expires
    && Stands(s, s.artefacts[id].user, s.artefacts[id].epoch) && SessionGoesOn(s, id)
  }

  /** A reset link or an address change is acted on exactly while it is redeemable, and then spent. */
  lemma RedeemingAnswers(s: State, id: nat, ok: bool)
    ensures var (t, r) := Redeem(s, id, ok);
      if !IsRedeemable(s, id) || !ok then r == Failed(TokenInvalid) && t == s
      else
        && r.Done? && CredentialsMove(s, t, s.artefacts[id].user, None)
        && t.artefacts == s.artefacts[id := s.artefacts[id].(consumed := true)]
        && t == s.(users := t.users, logins := t.logins, artefacts := t.artefacts)
  {
    if IsRedeemable(s, id) && ok {
      MovingOn(SpendArtefact(s, id), s.artefacts[id].user, None);
    }
  }

  /** A redirect comes back while it is unspent and in time, whatever became of the account's credentials. */
  lemma ReturnAnswers(s: State, id: nat)
    ensures var (t, r) := TakeLinkState(s, id);
      if && id in s.artefacts && s.artefacts[id].kind.OAuthLink?
         && !s.artefacts[id].consumed && s.now < s.artefacts[id].expires
      then
        && r.Done? && t.artefacts == s.artefacts[id := s.artefacts[id].(consumed := true)]
        && t == s.(artefacts := t.artefacts)
      else r == Failed(TokenInvalid) && t == s
  {
  }

  /** An identity is linked on a redirect that came back, for a standing account in the session that asked for it. */
  lemma LinkingAnswers(s: State, id: nat, ok: bool)
    ensures var (t, r) := LinkIdentity(s, id, ok);
      && t == s
      && (r.Done? <==>
            && ok && id in s.artefacts && s.artefacts[id].kind.OAuthLink? && s.artefacts[id].consumed
            && Stands(s, s.artefacts[id].user, s.artefacts[id].epoch)
            && IsWithin(s, s.artefacts[id].user, s.artefacts[id].session))
      && (!r.Done? ==> r == Failed(TokenInvalid))
  {
  }

  /** Who may ask: an active account, and for a redirect one of its live sessions. */
  predicate MayAsk(s: State, kind: Kind, uid: nat, within: Option<nat>, ok: bool) {
    && uid in s.users && s.users[uid].active && ok
    && (kind.OAuthLink? ==> within.Some? && IsSession(s, uid, within.value))
  }

  /**
    What is handed out is bound to the account's present epoch and, but for a reset
    link, to the session it was asked for in; older reset links and address changes
    are spent, redirects stand beside each other.
  */
  lemma MintingAnswers(s: State, kind: Kind, uid: nat, within: Option<nat>, ttl: nat, ok: bool)
    requires forall a :: a in s.artefacts ==> a < s.next
    ensures var (t, r) := Mint(s, kind, uid, within, ttl, ok);
      if !MayAsk(s, kind, uid, within, ok) then r == Failed(TokenInvalid) && t == s
      else r.Done? && MintsOne(s, t, kind, uid, within, ttl) && t == s.(next := t.next, artefacts := t.artefacts)
  {
    assert s.next !in s.artefacts;
  }

  ghost predicate MintsOne(s: State, t: State, kind: Kind, uid: nat, within: Option<nat>, ttl: nat) {
    && uid in s.users
    && (exists a :: a !in s.artefacts && t.artefacts.Keys == s.artefacts.Keys + {a}
                    && t.artefacts[a] == Artefact(kind, uid, s.users[uid].epoch,
                                                  if kind.PasswordReset? then None else within, s.now + ttl, false))
    && forall a :: a in s.artefacts ==>
         t.artefacts[a] == s.artefacts[a].(consumed := s.artefacts[a].consumed
                                                       || (s.artefacts[a].user == uid && s.artefacts[a].kind == kind
                                                           && !kind.OAuthLink?))
  }

  /** A conversion is made on an open challenge of its purpose, which is spent with it. */
  lemma ConversionAnswers(s: State, id: nat, ok: bool)
    ensures var (t, r) := Convert(s, id, ok);
      if !IsOpen(s, id) || s.ch.rows[id].purpose != ConvertGoogle || !ok then r == Failed(ChallengeInvalid) && t == s
      else
        && r.Done? && CredentialsMove(s, t, s.ch.rows[id].user, None)
        && t.ch.rows == s.ch.rows[id := s.ch.rows[id].(consumed := true)]
        && t == s.(users := t.users, logins := t.logins, ch := s.ch.(rows := t.ch.rows, lineages := t.ch.lineages))
  {
    if IsOpen(s, id) {
      MovingOn(Spend(s, id, None), s.ch.rows[id].user, None);
    }
  }

  // ---- Accounts ----

  /** What the edits of an account do to its sessions and its standing. */
  lemma EditsAnswer(s: State, e: Event)
    requires e.EMoveCredentials? || e.ERevokeSession? || e.ESetStatus? || e.EAddUser? || e.ETick?
    ensures var (t, r) := Step(s, e);
      && r.Done?
      && match e
         case EMoveCredentials(uid, keep) =>
           CredentialsMove(s, t, uid, keep) && t == s.(users := t.users, logins := t.logins)
         case ERevokeSession(session) => t == s.(logins := s.logins - {session})
         case ESetStatus(uid, active) =>
           && t.users.Keys == s.users.Keys && t == s.(users := t.users)
           && forall u :: u in s.users ==>
                t.users[u] == if u == uid then User(active, s.users[u].epoch + 1) else s.users[u]
         case EAddUser => t.users == s.users[s.next := User(true, 0)] && t == s.(next := s.next + 1, users := t.users)
         case ETick(seconds) => t == s.(now := s.now + seconds)
         case _ => true
  {
    if e.EMoveCredentials? {
      MovingOn(s, e.uid, e.keep);
    }
  }

  /** Nothing of the account is left, and nothing of anybody else's is lost. */
  lemma DeletionForgetsOne(s: State, uid: nat)
    ensures var t := Step(s, EDeleteUser(uid)).0;
      && t == State(s.now, s.next, s.users - {uid}, Challenges(t.ch.rows, t.ch.codes, s.ch.lineages),
                    Factors(s.fa.totp - {uid}, s.fa.emails - {uid}, t.fa.codes, t.fa.recovery), t.artefacts, t.logins)
      && (forall x :: x in t.ch.rows <==> x in s.ch.rows && s.ch.rows[x].user != uid)
      && (forall x :: x in t.ch.codes <==> x in s.ch.codes && s.ch.codes[x].user != uid)
      && (forall x :: x in t.fa.codes <==> x in s.fa.codes && s.fa.codes[x].user != uid)
      && (forall x :: x in t.fa.recovery <==> x in s.fa.recovery && s.fa.recovery[x].user != uid)
      && (forall x :: x in t.artefacts <==> x in s.artefacts && s.artefacts[x].user != uid)
      && (forall x :: x in t.logins <==> x in s.logins && s.logins[x].user != uid)
  {
  }

  lemma DeletionKeepsRows(s: State, uid: nat)
    ensures RowsAreKept(s, Step(s, EDeleteUser(uid)).0)
  {
  }

  /** Whatever is still there is as it was. */
  ghost predicate RowsAreKept(s: State, t: State) {
    && (forall x :: x in t.ch.rows ==> x in s.ch.rows && t.ch.rows[x] == s.ch.rows[x])
    && (forall x :: x in t.ch.codes ==> x in s.ch.codes && t.ch.codes[x] == s.ch.codes[x])
    && (forall x :: x in t.fa.codes ==> x in s.fa.codes && t.fa.codes[x] == s.fa.codes[x])
    && (forall x :: x in t.fa.recovery ==> x in s.fa.recovery && t.fa.recovery[x] == s.fa.recovery[x])
    && (forall x :: x in t.artefacts ==> x in s.artefacts && t.artefacts[x] == s.artefacts[x])
    && (forall x :: x in t.logins ==> x in s.logins && t.logins[x] == s.logins[x])
  }

  /** How many seconds the sweeper leaves things after they ended; none set means a week. */
  function Kept(days: nat): (seconds: nat) {
    86400 * if days == 0 then 7 else days
  }

  /** The sweeper takes exactly what ended longer ago than that, a code also with its challenge. */
  lemma SweepTakesExactly(s: State, days: nat)
    ensures var t, since := Step(s, ESweep(days)).0, s.now - Kept(days);
      && t == s.(ch := Challenges(t.ch.rows, t.ch.codes, s.ch.lineages), fa := s.fa.(codes := t.fa.codes),
                 artefacts := t.artefacts)
      && (forall x :: x in t.ch.rows <==> x in s.ch.rows && s.ch.rows[x].expires >= since)
      && (forall x :: x in t.ch.codes <==>
            x in s.ch.codes && s.ch.codes[x].expires >= since && s.ch.codes[x].challenge in t.ch.rows)
      && (forall x :: x in t.fa.codes <==> x in s.fa.codes && s.fa.codes[x].expires >= since)
      && (forall x :: x in t.artefacts <==> x in s.artefacts && s.artefacts[x].expires >= since)
  {
  }

  lemma SweepKeepsRows(s: State, days: nat)
    ensures RowsAreKept(s, Step(s, ESweep(days)).0)
  {
  }
}
