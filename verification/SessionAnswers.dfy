/**
  What each session transaction answers and what it changes, read off the
  columns of the tables, and how long a token works after it was handed out.
*/
module SessionAnswers {
  import opened Wrappers
  import opened SessionModel
  import opened SessionRuns
  import opened SessionTheorems

  // ---- Presenting a refresh token ----

  /** An unrevoked session holds the token in its own term, its family in its lifetime, for an active account. */
  predicate MayRotate(s: State, ttl: Ttl, hash: nat, id: nat) {
    && HoldsInTerm(s, hash, id) && s.now - s.sessions[id].born <= ttl.absolute
    && s.sessions[id].user in s.users && s.users[s.sessions[id].user].active
  }

  predicate HoldsInTerm(s: State, hash: nat, id: nat) {
    && id in s.sessions && s.sessions[id].refresh == hash && !s.sessions[id].revoked
    && s.now < s.sessions[id].refreshExp
  }

  /** A rotation needs all of it and nothing else: no trail of the token, and a session that may rotate it. */
  lemma RotatesExactly(s: State, ttl: Ttl, hash: nat)
    requires Inv(s, ttl)
    ensures Present(s, ttl, hash).1.Rotated? <==> hash !in s.used && exists id :: MayRotate(s, ttl, hash, id)
  {
    if id :| HoldsInTerm(s, hash, id) {
      HeldByOne(s, ttl, hash, id);
      assert MayRotate(s, ttl, hash, id) <==> exists x :: MayRotate(s, ttl, hash, x);
    } else {
      HeldByNone(s, ttl, hash);
    }
  }

  lemma HeldByOne(s: State, ttl: Ttl, hash: nat, id: nat)
    requires Inv(s, ttl) && HoldsInTerm(s, hash, id)
    ensures hash !in s.used && Present(s, ttl, hash) == PresentLive(s, ttl, id)
    ensures forall x :: HoldsInTerm(s, hash, x) ==> x == id
  {
    assert HoldsLive(s, hash, id) && forall x :: HoldsLive(s, hash, x) ==> x == id;
    assert hash in s.used ==> UsedInv(s, ttl, hash);
  }

  lemma HeldByNone(s: State, ttl: Ttl, hash: nat)
    requires forall id :: !HoldsInTerm(s, hash, id)
    ensures hash !in s.used ==> Present(s, ttl, hash) == (s, Invalid)
  {
    assert forall id :: HoldsLive(s, hash, id) ==> HoldsInTerm(s, hash, id);
  }

  /** A token nobody holds in its term, and that was not rotated away either, gets nothing and changes nothing. */
  lemma LateTokenChangesNothing(s: State, ttl: Ttl, hash: nat)
    requires hash !in s.used
    requires forall id :: id in s.sessions && s.sessions[id].refresh == hash && !s.sessions[id].revoked
                          ==> s.sessions[id].refreshExp <= s.now
    ensures Present(s, ttl, hash) == (s, Invalid)
  {
    HeldByNone(s, ttl, hash);
  }

  /** Every row but `id` is as it was. */
  predicate OnlyMoves(s: State, t: State, id: nat) {
    && t.sessions.Keys == s.sessions.Keys + {id}
    && forall x :: x in s.sessions && x != id ==> t.sessions[x] == s.sessions[x]
  }

  /** The session holds two tokens never handed out before, good for their full terms from now on. */
  predicate FreshTokens(s: State, t: State, ttl: Ttl, id: nat, access: nat, refresh: nat)
    requires id in t.sessions
  {
    var row := t.sessions[id];
    && row.access == access && row.refresh == refresh && s.next <= access < t.next && s.next <= refresh < t.next
    && access != refresh && row.accessExp == s.now + ttl.access && row.refreshExp == s.now + ttl.refresh && !row.revoked
  }

  /** A rotation gives one session new tokens, keeps what it belongs to, and records the token presented. */
  lemma RotationMovesTokens(s: State, ttl: Ttl, hash: nat)
    requires Inv(s, ttl) && Present(s, ttl, hash).1.Rotated?
    ensures var (t, r) := Present(s, ttl, hash);
      && MayRotate(s, ttl, hash, r.session) && OnlyMoves(s, t, r.session)
      && FreshTokens(s, t, ttl, r.session, r.access, r.refresh)
      && t.sessions[r.session].user == s.sessions[r.session].user
      && t.sessions[r.session].family == s.sessions[r.session].family
      && t.sessions[r.session].born == s.sessions[r.session].born
      && t.used == s.used[hash := Used(s.sessions[r.session].family, r.session, s.now)]
      && t == s.(next := t.next, sessions := t.sessions, used := t.used)
  {
    var id := RotatedVia(s, ttl, hash);
  }

  /** The sessions of the family that are not revoked. */
  function Unrevoked(s: State, family: nat): (r: set<nat>) {
    set id | id in s.sessions && s.sessions[id].family == family && !s.sessions[id].revoked
  }

  /** What a token that was rotated away still gets, by how long ago that was and what became of its session. */
  lemma TrailAnswers(s: State, ttl: Ttl, hash: nat)
    requires Inv(s, ttl) && hash in s.used
    ensures var u, r := s.used[hash], Present(s, ttl, hash).1;
      if s.now - u.at > ttl.grace then r == Reuse
      else if s.sessions[u.session].revoked then r == Invalid && Present(s, ttl, hash).0 == s
      else if |Unrevoked(s, u.family)| >= 5 then r == Reuse
      else r.Replayed?
  {
    assert UsedInv(s, ttl, hash);
    assert Unrevoked(s, s.used[hash].family) == LiveOf(s, s.used[hash].family);
  }

  /** A racing tab gets a session of its own beside the others, as old as its family. */
  lemma ReplayAddsSibling(s: State, ttl: Ttl, hash: nat)
    requires Inv(s, ttl) && Present(s, ttl, hash).1.Replayed?
    ensures var (t, r) := Present(s, ttl, hash);
      && hash in s.used && r.session !in s.sessions && OnlyMoves(s, t, r.session)
      && FreshTokens(s, t, ttl, r.session, r.access, r.refresh)
      && var (row, first) := (t.sessions[r.session], s.sessions[s.used[hash].session]);
         && row.user == first.user && row.family == first.family && row.born == first.born
         && t == s.(next := t.next, sessions := t.sessions)
  {
    assert UsedInv(s, ttl, hash);
    assert forall x :: x in s.sessions ==> RowInv(s, ttl, x);
  }

  /** The family's sessions are revoked, and no other row changes. */
  predicate FamilyEnds(s: State, t: State, family: nat) {
    && t.sessions.Keys == s.sessions.Keys
    && forall x :: x in s.sessions ==>
         t.sessions[x] == s.sessions[x].(revoked := s.sessions[x].revoked || s.sessions[x].family == family)
  }

  /** A replay ends its family and forgets its trail, and touches nothing else. */
  lemma ReuseEndsOneFamily(s: State, ttl: Ttl, hash: nat)
    requires Present(s, ttl, hash).1.Reuse?
    ensures var t := Present(s, ttl, hash).0;
      && hash in s.used && FamilyEnds(s, t, s.used[hash].family)
      && (forall h :: h in t.used <==> h in s.used && s.used[h].family != s.used[hash].family)
      && (forall h :: h in t.used ==> t.used[h] == s.used[h])
      && t == s.(sessions := t.sessions, used := t.used)
  {
  }

  /** A family past its lifetime ends where it is presented, and so does one of a disabled account. */
  lemma HolderIsRefused(s: State, ttl: Ttl, hash: nat, id: nat)
    requires Inv(s, ttl) && HoldsInTerm(s, hash, id) && !MayRotate(s, ttl, hash, id)
    ensures var (t, r) := Present(s, ttl, hash);
      && r == (if s.now - s.sessions[id].born > ttl.absolute then Invalid else NotActive)
      && FamilyEnds(s, t, s.sessions[id].family) && t == s.(sessions := t.sessions)
  {
    HeldByOne(s, ttl, hash, id);
  }

  // ---- How long a token works ----

  /** The step hands the refresh token out, on a row of its own or of a session that gives its old one up. */
  ghost predicate HandsOutRefresh(s: State, t: State, hash: nat) {
    s.next <= hash < t.next && exists id :: id in t.sessions && t.sessions[id].refresh == hash
  }

  ghost predicate HandsOutAccess(s: State, t: State, tok: nat) {
    s.next <= tok < t.next && exists id :: id in t.sessions && t.sessions[id].access == tok
  }

  /** Whoever holds the refresh token holds it until then. */
  ghost predicate RefreshUntil(s: State, hash: nat, until: int) {
    && hash < s.next
    && forall id :: id in s.sessions && s.sessions[id].refresh == hash ==> s.sessions[id].refreshExp == until
  }

  ghost predicate AccessUntil(s: State, tok: nat, until: int) {
    tok < s.next && forall id :: id in s.sessions && s.sessions[id].access == tok ==> s.sessions[id].accessExp == until
  }

  /** Tokens are never moved, lent or extended: a row keeps the ones it has or gets fresh ones for a full term. */
  ghost predicate TokensMove(s: State, t: State, ttl: Ttl) {
    && s.next <= t.next && s.now <= t.now
    && forall id :: id in t.sessions ==>
         var row := t.sessions[id];
         || (&& id in s.sessions && row.access == s.sessions[id].access && row.refresh == s.sessions[id].refresh
             && row.accessExp == s.sessions[id].accessExp && row.refreshExp == s.sessions[id].refreshExp)
         || (&& s.next <= row.access && s.next <= row.refresh
             && row.accessExp == s.now + ttl.access && row.refreshExp == s.now + ttl.refresh)
  }

  lemma ConsumedMovesTokens(s: State, ttl: Ttl, u: Used)
    ensures TokensMove(s, PresentConsumed(s, ttl, u).0, ttl)
  {
  }

  lemma LiveMovesTokens(s: State, ttl: Ttl, id: nat)
    requires id in s.sessions
    ensures TokensMove(s, PresentLive(s, ttl, id).0, ttl)
  {
  }

  lemma StepMovesTokens(s: State, ttl: Ttl, e: Event)
    ensures TokensMove(s, Step(s, ttl, e), ttl)
  {
    if e.PresentToken? {
      if e.hash in s.used {
        ConsumedMovesTokens(s, ttl, s.used[e.hash]);
      } else if id :| HoldsLive(s, e.hash, id) && Present(s, ttl, e.hash) == PresentLive(s, ttl, id) {
        LiveMovesTokens(s, ttl, id);
      }
    }
  }

  lemma HandedOutFor(s: State, t: State, ttl: Ttl)
    requires Inv(s, ttl) && TokensMove(s, t, ttl)
    ensures forall hash: nat :: HandsOutRefresh(s, t, hash) ==> RefreshUntil(t, hash, s.now + ttl.refresh)
    ensures forall tok: nat :: HandsOutAccess(s, t, tok) ==> AccessUntil(t, tok, s.now + ttl.access)
  {
    assert forall id :: id in s.sessions ==> RowInv(s, ttl, id);
  }

  lemma TermIsKept(s: State, ttl: Ttl, e: Event, tok: nat, until: int)
    ensures RefreshUntil(s, tok, until) ==> RefreshUntil(Step(s, ttl, e), tok, until)
    ensures AccessUntil(s, tok, until) ==> AccessUntil(Step(s, ttl, e), tok, until)
  {
    StepMovesTokens(s, ttl, e);
  }

  lemma {:induction false} TermsAreKept(s: State, ttl: Ttl, es: seq<Event>, tok: nat, until: int)
    ensures RefreshUntil(s, tok, until) ==> RefreshUntil(Run(s, ttl, es), tok, until)
    ensures AccessUntil(s, tok, until) ==> AccessUntil(Run(s, ttl, es), tok, until)
  {
    if es != [] {
      TermsAreKept(s, ttl, es[..|es| - 1], tok, until);
      TermIsKept(Run(s, ttl, es[..|es| - 1]), ttl, es[|es| - 1], tok, until);
    }
  }

  /**
    In every run, a refresh token handed out at some moment is not rotated once its
    term from that moment is over, whatever happened to its session meanwhile.
  */
  lemma LateRefreshNeverRotates(ttl: Ttl, es: seq<Event>, e: Event, more: seq<Event>, hash: nat)
    requires var s := Run(Init(), ttl, es);
      && HandsOutRefresh(s, Step(s, ttl, e), hash)
      && Run(Step(s, ttl, e), ttl, more).now >= s.now + ttl.refresh
    ensures !Present(Run(Step(Run(Init(), ttl, es), ttl, e), ttl, more), ttl, hash).1.Rotated?
  {
    var s := Run(Init(), ttl, es);
    var t := Step(s, ttl, e);
    RunKeepsInv(ttl, es);
    StepKeepsInv(s, ttl, e);
    HandedOutThen(s, ttl, e);
    TermsAreKept(t, ttl, more, hash, s.now + ttl.refresh);
    RunOnKeepsInv(t, ttl, more);
    TermEnds(Run(t, ttl, more), ttl, hash, s.now + ttl.refresh);
  }

  lemma HandedOutThen(s: State, ttl: Ttl, e: Event)
    requires Inv(s, ttl)
    ensures forall hash: nat ::
              HandsOutRefresh(s, Step(s, ttl, e), hash) ==> RefreshUntil(Step(s, ttl, e), hash, s.now + ttl.refresh)
    ensures forall tok: nat ::
              HandsOutAccess(s, Step(s, ttl, e), tok) ==> AccessUntil(Step(s, ttl, e), tok, s.now + ttl.access)
  {
    StepMovesTokens(s, ttl, e);
    HandedOutFor(s, Step(s, ttl, e), ttl);
  }

  lemma TermEnds(s: State, ttl: Ttl, hash: nat, until: int)
    requires Inv(s, ttl) && RefreshUntil(s, hash, until) && s.now >= until
    ensures !Present(s, ttl, hash).1.Rotated?
  {
    RotatesExactly(s, ttl, hash);
  }

  lemma {:induction false} RunOnKeepsInv(s: State, ttl: Ttl, es: seq<Event>)
    requires Inv(s, ttl)
    ensures Inv(Run(s, ttl, es), ttl)
  {
    if es != [] {
      RunOnKeepsInv(s, ttl, es[..|es| - 1]);
      StepKeepsInv(Run(s, ttl, es[..|es| - 1]), ttl, es[|es| - 1]);
    }
  }

  /** Somebody is let in with the access token: an unrevoked session holds it in its term, for an active account. */
  predicate LetsIn(s: State, tok: nat, id: nat) {
    && id in s.sessions && s.sessions[id].access == tok && !s.sessions[id].revoked && s.now < s.sessions[id].accessExp
    && s.sessions[id].user in s.users && s.users[s.sessions[id].user].active
  }

  lemma ResolvesExactly(s: State, tok: nat)
    ensures Resolves(s, tok) <==> exists id :: LetsIn(s, tok, id)
  {
    assert forall id :: ResolvesVia(s, tok, id) <==> LetsIn(s, tok, id);
  }

  /** The same of access tokens. */
  lemma LateAccessLetsNobodyIn(ttl: Ttl, es: seq<Event>, e: Event, more: seq<Event>, tok: nat, id: nat)
    requires var s := Run(Init(), ttl, es);
      && HandsOutAccess(s, Step(s, ttl, e), tok)
      && Run(Step(s, ttl, e), ttl, more).now >= s.now + ttl.access
    ensures !LetsIn(Run(Step(Run(Init(), ttl, es), ttl, e), ttl, more), tok, id)
  {
    var s := Run(Init(), ttl, es);
    RunKeepsInv(ttl, es);
    HandedOutThen(s, ttl, e);
    TermsAreKept(Step(s, ttl, e), ttl, more, tok, s.now + ttl.access);
  }

  // ---- Logging in and out ----

  /** A login needs an active account at the epoch that was proven, and opens one session, the first of its family. */
  lemma LoginOpensFamily(s: State, ttl: Ttl, uid: nat, epoch: nat) returns (id: nat)
    requires Inv(s, ttl)
    ensures var t := Step(s, ttl, Login(uid, epoch));
      if uid in s.users && s.users[uid].active && s.users[uid].epoch == epoch
      then
        && id !in s.sessions && OnlyMoves(s, t, id)
        && FreshTokens(s, t, ttl, id, t.sessions[id].access, t.sessions[id].refresh)
        && t.sessions[id].user == uid && t.sessions[id].born == s.now && t.sessions[id].family >= s.next
        && t == s.(next := t.next, sessions := t.sessions, births := s.births[t.sessions[id].family := s.now])
      else t == s
  {
    id := s.next;
    assert forall x :: x in s.sessions ==> RowInv(s, ttl, x);
  }

  /** The session belongs to a family that one of the two cookies names, by a token of today or by a trail. */
  ghost predicate IsNamed(s: State, access: Option<nat>, refresh: Option<nat>, x: nat)
    requires x in s.sessions
  {
    || (exists y :: y in s.sessions && s.sessions[y].family == s.sessions[x].family
                    && (access == Some(s.sessions[y].access) || refresh == Some(s.sessions[y].refresh)))
    || (refresh.Some? && refresh.value in s.used && s.used[refresh.value].family == s.sessions[x].family)
  }

  /** Whom a logout, a sign-out or a new password signs out. */
  ghost predicate SignsOut(s: State, e: Event, x: nat)
    requires x in s.sessions
  {
    match e
    case RevokeSession(uid, id) => x == id && s.sessions[x].user == uid
    case RevokeByTokens(access, refresh) => IsNamed(s, access, refresh, x)
    case RevokeAllForUser(uid) => s.sessions[x].user == uid
    case ChangePassword(uid, keep) => s.sessions[x].user == uid && x != keep
    case _ => false
  }

  /** A session ends by such a step exactly when it is one of those, and nothing else about any session changes. */
  lemma SignOutEndsExactly(s: State, ttl: Ttl, e: Event, x: nat)
    requires !e.PresentToken? && !e.Login? && !e.DeleteUser? && !e.Sweep?
    requires x in s.sessions
    ensures Step(s, ttl, e).sessions.Keys == s.sessions.Keys
    ensures Step(s, ttl, e).sessions[x] == s.sessions[x].(revoked := s.sessions[x].revoked || SignsOut(s, e, x))
  {
    if e.RevokeByTokens? {
      NamedExactly(s, e.access, e.refresh, x);
    }
  }

  lemma NamedExactly(s: State, access: Option<nat>, refresh: Option<nat>, x: nat)
    requires x in s.sessions
    ensures s.sessions[x].family in NamedFamilies(s, access, refresh) <==> IsNamed(s, access, refresh, x)
  {
  }

  /** A deleted account takes its sessions with it; the sweeper takes those whose refresh term ended long enough ago. */
  lemma DeletionTakesExactly(s: State, ttl: Ttl, e: Event, x: nat)
    requires (e.DeleteUser? || e.Sweep?) && x in s.sessions
    ensures var t := Step(s, ttl, e);
      && t.sessions.Keys <= s.sessions.Keys
      && (x in t.sessions <==>
            if e.DeleteUser? then s.sessions[x].user != e.uid else s.sessions[x].refreshExp >= s.now - e.retain)
      && (x in t.sessions ==> t.sessions[x] == s.sessions[x])
  {
  }

  /** A trail goes with its session, or once it is older than the retention; otherwise it stays as it was. */
  lemma TrailGoesExactly(s: State, ttl: Ttl, e: Event, h: nat)
    requires Inv(s, ttl) && !e.PresentToken? && h in s.used
    ensures var t := Step(s, ttl, e);
      && t.used.Keys <= s.used.Keys
      && (h in t.used <==> s.used[h].session in t.sessions && (e.Sweep? ==> s.used[h].at >= s.now - e.retain))
      && (h in t.used ==> t.used[h] == s.used[h])
  {
    assert UsedInv(s, ttl, h);
  }

  /** What each step does to an account: signing out everywhere, a new password and an edit move its epoch by one. */
  lemma AccountMovesExactly(s: State, ttl: Ttl, e: Event, u: nat)
    requires u in s.users
    ensures var t, moves := Step(s, ttl, e), (e.RevokeAllForUser? || e.ChangePassword? || e.SetStatus?) && e.uid == u;
      && (u in t.users <==> e != DeleteUser(u))
      && (u in t.users ==>
            t.users[u] == User(if e.SetStatus? && e.uid == u then e.active else s.users[u].active,
                               s.users[u].epoch + if moves then 1 else 0))
  {
  }

  /** Only the creation of an account adds one, active and at its first epoch. */
  lemma OnlyCreationAddsAccount(s: State, ttl: Ttl, e: Event, u: nat)
    requires u !in s.users
    ensures u in Step(s, ttl, e).users <==> e == AddUser(u)
    ensures e == AddUser(u) ==> Step(s, ttl, e).users[u] == User(true, 0)
  {
  }

  lemma ClockMovesExactly(s: State, ttl: Ttl, e: Event)
    ensures Step(s, ttl, e).now == s.now + if e.Tick? then e.seconds else 0
  {
  }

  /** Revoked, or gone for good. */
  predicate IsOver(s: State, x: nat) {
    x < s.next && (x in s.sessions ==> s.sessions[x].revoked)
  }

  lemma {:induction false} OverForever(s: State, ttl: Ttl, es: seq<Event>, x: nat)
    requires IsOver(s, x)
    ensures IsOver(Run(s, ttl, es), x)
  {
    if es != [] {
      OverForever(s, ttl, es[..|es| - 1], x);
      StaysOver(Run(s, ttl, es[..|es| - 1]), ttl, es[|es| - 1], x);
    }
  }

  lemma StaysOver(s: State, ttl: Ttl, e: Event, x: nat)
    requires IsOver(s, x)
    ensures IsOver(Step(s, ttl, e), x)
  {
    if e.PresentToken? {
      PresentStaysOver(s, ttl, e.hash, x);
    }
  }

  lemma PresentStaysOver(s: State, ttl: Ttl, hash: nat, x: nat)
    requires IsOver(s, x)
    ensures IsOver(Present(s, ttl, hash).0, x)
  {
    if hash !in s.used {
      if id :| HoldsLive(s, hash, id) && Present(s, ttl, hash) == PresentLive(s, ttl, id) {
        assert IsOver(PresentLive(s, ttl, id).0, x);
      }
    }
  }

  /**
    Signing out is for good: after a logout, a sign-out everywhere or a new
    password, the sessions it ended let nobody in and rotate nothing, in every
    continuation of the run.
  */
  lemma SignedOutForGood(ttl: Ttl, es: seq<Event>, e: Event, more: seq<Event>, x: nat, token: nat)
    requires x in Run(Init(), ttl, es).sessions && SignsOut(Run(Init(), ttl, es), e, x)
    ensures var later := Run(Step(Run(Init(), ttl, es), ttl, e), ttl, more);
            !LetsIn(later, token, x) && !MayRotate(later, ttl, token, x)
  {
    var s := Run(Init(), ttl, es);
    RunKeepsInv(ttl, es);
    assert RowInv(s, ttl, x);
    SignOutEndsExactly(s, ttl, e, x);
    NextOnlyGrows(s, ttl, e);
    OverForever(Step(s, ttl, e), ttl, more, x);
  }
}
