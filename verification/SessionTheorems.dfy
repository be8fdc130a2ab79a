/** The guarantees of refresh rotation, over every run of transactions. */
module SessionTheorems {
  import opened SessionModel
  import opened SessionRuns

  /** Access token `tok` still authenticates its owner, through session `id`. */
  predicate ResolvesVia(s: State, tok: nat, id: nat) {
    id in s.sessions && s.sessions[id].access == tok && !s.sessions[id].revoked && s.sessions[id].accessExp > s.now
    && Active(s, s.sessions[id].user)
  }

  ghost predicate Resolves(s: State, tok: nat) {
    exists id :: ResolvesVia(s, tok, id)
  }

  /** Every session of the family is revoked or gone. */
  ghost predicate FamilyDead(s: State, family: nat) {
    family < s.next && forall id :: id in s.sessions && s.sessions[id].family == family ==> s.sessions[id].revoked
  }

  /** A token that was issued and is no session's refresh token any more. */
  ghost predicate Spent(s: State, hash: nat) {
    hash < s.next && forall id :: id in s.sessions ==> s.sessions[id].refresh != hash
  }

  // ---- The absolute lifetime ----

  /**
    However often a family rotates or takes the grace path, none of its access
    tokens resolves once the absolute lifetime, one grace window and one access
    lifetime have passed since the login that opened it.
  */
  lemma AccessDiesWithItsFamily(ttl: Ttl, es: seq<Event>, tok: nat, id: nat)
    requires ResolvesVia(Run(Init(), ttl, es), tok, id)
    ensures var s := Run(Init(), ttl, es);
            s.sessions[id].family in s.births && s.now < s.births[s.sessions[id].family] + Ceiling(ttl)
  {
    RunKeepsInv(ttl, es);
    assert RowInv(Run(Init(), ttl, es), ttl, id);
  }

  /** A birth is written once, at the login that opens the family, and never moves. */
  lemma BirthsAreKept(s: State, ttl: Ttl, e: Event)
    requires Inv(s, ttl)
    ensures forall f :: f in s.births ==> f in Step(s, ttl, e).births && Step(s, ttl, e).births[f] == s.births[f]
    ensures forall f :: f in Step(s, ttl, e).births && f !in s.births
              ==> e.Login? && Step(s, ttl, e).births[f] == s.now && f == s.next
  {
  }

  const TIGHT := Ttl(3, 100, 10, 2)

  /** A family opened at 0 and about to be rotated at the last moment. */
  function TightStart(): (s: State) {
    State(10, 3, map[7 := User(true, 0)], map[0 := Session(7, 0, 1, 3, 2, 100, 0, false)], map[], map[0 := 0])
  }

  /** The same family at the very end of the grace window. */
  function TightReplay(): (s: State) {
    State(12, 5, map[7 := User(true, 0)], map[0 := Session(7, 0, 3, 13, 4, 110, 0, false)],
          map[2 := Used(0, 0, 10)], map[0 := 0])
  }

  lemma TightStartIsReached()
    ensures Run(Init(), TIGHT, [AddUser(7), Login(7, 0), Tick(10)]) == TightStart()
  {
    var es := [AddUser(7), Login(7, 0), Tick(10)];
    assert es[..2] == [AddUser(7), Login(7, 0)] && es[..2][..1] == [AddUser(7)] && es[..2][..1][..0] == [];
    assert Run(Init(), TIGHT, es[..2][..1]) == Init().(users := map[7 := User(true, 0)]);
  }

  lemma TightRotation()
    ensures Step(Step(TightStart(), TIGHT, PresentToken(2)), TIGHT, Tick(2)) == TightReplay()
  {
    var s := TightStart();
    assert HoldsLive(s, 2, 0) && forall id :: HoldsLive(s, 2, id) ==> id == 0;
    assert Present(s, TIGHT, 2) == PresentLive(s, TIGHT, 0);
  }

  lemma TightAnswer()
    ensures ResolvesVia(Step(Step(TightReplay(), TIGHT, PresentToken(2)), TIGHT, Tick(2)), 6, 5)
  {
    var s := TightReplay();
    assert LiveOf(s, 0) == {0};
    assert PresentConsumed(s, TIGHT, s.used[2]) == (Insert(s, TIGHT, 7, 0, 0), Replayed(5, 6, 7));
  }

  /** The ceiling is reached: no smaller bound holds of every run. */
  lemma CeilingIsTight() returns (es: seq<Event>)
    ensures var s := Run(Init(), TIGHT, es);
            ResolvesVia(s, 6, 5) && s.births == map[0 := s.now - Ceiling(TIGHT) + 1] && s.sessions[5].family == 0
  {
    var e3 := [AddUser(7), Login(7, 0), Tick(10)];
    var e4, e5 := e3 + [PresentToken(2)], e3 + [PresentToken(2), Tick(2)];
    var e6 := e5 + [PresentToken(2)];
    es := e6 + [Tick(2)];
    assert e4[..3] == e3 && e5[..4] == e4 && e6[..5] == e5 && es[..6] == e6;
    TightStartIsReached();
    TightRotation();
    TightAnswer();
    assert Run(Init(), TIGHT, e5) == TightReplay();
    assert LiveOf(TightReplay(), 0) == {0};
  }

  // ---- Consumed tokens ----

  lemma ConsumedIsNobodys(ttl: Ttl, es: seq<Event>, hash: nat)
    requires hash in Run(Init(), ttl, es).used
    ensures Spent(Run(Init(), ttl, es), hash)
  {
    RunKeepsInv(ttl, es);
    assert UsedInv(Run(Init(), ttl, es), ttl, hash);
  }

  /**
    What one transaction may do to a row: an old row keeps its family and birth,
    never comes back from revocation, and keeps its refresh token or gets a new
    one; a new row opens a new family or joins one that still has a live session.
  */
  ghost predicate RowMoved(s: State, t: State, id: nat)
    requires id in t.sessions
  {
    var row := t.sessions[id];
    && (row.refresh >= s.next || (id in s.sessions && row.refresh == s.sessions[id].refresh))
    && (id in s.sessions ==>
          && row.family == s.sessions[id].family && row.born == s.sessions[id].born
          && (s.sessions[id].revoked ==> row.revoked))
    && (id !in s.sessions ==> row.family >= s.next || !FamilyDead(s, row.family))
  }

  lemma ConsumedMovesRows(s: State, ttl: Ttl, hash: nat, id: nat)
    requires Inv(s, ttl) && hash in s.used && id in PresentConsumed(s, ttl, s.used[hash]).0.sessions
    ensures RowMoved(s, PresentConsumed(s, ttl, s.used[hash]).0, id)
  {
  }

  lemma LiveMovesRows(s: State, ttl: Ttl, holder: nat, id: nat)
    requires holder in s.sessions && id in PresentLive(s, ttl, holder).0.sessions
    ensures RowMoved(s, PresentLive(s, ttl, holder).0, id)
  {
  }

  lemma PresentMovesRows(s: State, ttl: Ttl, hash: nat, id: nat)
    requires Inv(s, ttl) && id in Present(s, ttl, hash).0.sessions
    ensures RowMoved(s, Present(s, ttl, hash).0, id)
  {
    if hash in s.used {
      ConsumedMovesRows(s, ttl, hash, id);
    } else if holder :| HoldsLive(s, hash, holder) && Present(s, ttl, hash) == PresentLive(s, ttl, holder) {
      LiveMovesRows(s, ttl, holder, id);
    }
  }

  lemma StepMovesRows(s: State, ttl: Ttl, e: Event, id: nat)
    requires Inv(s, ttl) && id in Step(s, ttl, e).sessions
    ensures RowMoved(s, Step(s, ttl, e), id)
  {
    if e.PresentToken? {
      PresentMovesRows(s, ttl, e.hash, id);
    }
  }

  lemma NextOnlyGrows(s: State, ttl: Ttl, e: Event)
    ensures Step(s, ttl, e).next >= s.next
  {
  }

  lemma SpentStaysSpent(s: State, ttl: Ttl, e: Event, hash: nat)
    requires Inv(s, ttl) && Spent(s, hash)
    ensures Spent(Step(s, ttl, e), hash)
  {
    NextOnlyGrows(s, ttl, e);
    forall id | id in Step(s, ttl, e).sessions ensures Step(s, ttl, e).sessions[id].refresh != hash {
      StepMovesRows(s, ttl, e, id);
    }
  }

  lemma RotatedIsSpent(s: State, ttl: Ttl, hash: nat)
    requires Inv(s, ttl) && Present(s, ttl, hash).1.Rotated?
    ensures Spent(Present(s, ttl, hash).0, hash)
    ensures !Spent(s, hash)
  {
  }

  lemma {:induction false} SpentForever(ttl: Ttl, es: seq<Event>, i: nat, hash: nat)
    requires i <= |es| && Spent(Run(Init(), ttl, es[..i]), hash)
    ensures Spent(Run(Init(), ttl, es), hash)
  {
    if i == |es| {
      assert es[..i] == es;
    } else {
      var n := |es| - 1;
      assert es[..n][..i] == es[..i];
      SpentForever(ttl, es[..n], i, hash);
      RunKeepsInv(ttl, es[..n]);
      SpentStaysSpent(Run(Init(), ttl, es[..n]), ttl, es[n], hash);
    }
  }

  /** In any run, a refresh token takes the live rotation path at most once. */
  lemma RotatesAtMostOnce(ttl: Ttl, es: seq<Event>, i: nat, j: nat, hash: nat)
    requires i < j < |es| && es[i] == PresentToken(hash) && es[j] == PresentToken(hash)
    requires Present(Run(Init(), ttl, es[..i]), ttl, hash).1.Rotated?
    ensures !Present(Run(Init(), ttl, es[..j]), ttl, hash).1.Rotated?
  {
    RunKeepsInv(ttl, es[..i]);
    RotatedIsSpent(Run(Init(), ttl, es[..i]), ttl, hash);
    assert es[..i + 1][..i] == es[..i] && es[..j][..i + 1] == es[..i + 1];
    SpentForever(ttl, es[..j], i + 1, hash);
    RunKeepsInv(ttl, es[..j]);
    if Present(Run(Init(), ttl, es[..j]), ttl, hash).1.Rotated? {
      RotatedIsSpent(Run(Init(), ttl, es[..j]), ttl, hash);
    }
  }

  // ---- Revoked families ----

  lemma DeadFamilyStaysDead(s: State, ttl: Ttl, e: Event, family: nat)
    requires Inv(s, ttl) && FamilyDead(s, family)
    ensures FamilyDead(Step(s, ttl, e), family)
  {
    var t := Step(s, ttl, e);
    NextOnlyGrows(s, ttl, e);
    forall id | id in t.sessions && t.sessions[id].family == family ensures t.sessions[id].revoked {
      StepMovesRows(s, ttl, e, id);
    }
  }

  /** Once every session of a family is revoked, no later transaction makes one live again. */
  lemma {:induction false} DeadFamilyForever(ttl: Ttl, es: seq<Event>, i: nat, family: nat)
    requires i <= |es| && FamilyDead(Run(Init(), ttl, es[..i]), family)
    ensures FamilyDead(Run(Init(), ttl, es), family)
  {
    if i == |es| {
      assert es[..i] == es;
    } else {
      var n := |es| - 1;
      assert es[..n][..i] == es[..i];
      DeadFamilyForever(ttl, es[..n], i, family);
      RunKeepsInv(ttl, es[..n]);
      DeadFamilyStaysDead(Run(Init(), ttl, es[..n]), ttl, es[n], family);
    }
  }

  /** The family a presented token belongs to. */
  ghost predicate BelongsTo(s: State, hash: nat, family: nat) {
    || (hash in s.used && s.used[hash].family == family)
    || (exists id :: id in s.sessions && s.sessions[id].refresh == hash && s.sessions[id].family == family)
  }

  lemma RevokedFamilyIsDead(s: State, family: nat)
    requires family < s.next
    ensures FamilyDead(Revoke(s, FamilyOf(s, family)), family)
    ensures FamilyDead(RevokeAndPurge(s, family), family)
  {
  }

  /**
    A replay, whether after the grace window or past the family cap, ends the
    whole family: no later transaction, even after its trail is purged, leaves
    any of its sessions live.
  */
  lemma ReuseEndsTheFamily(ttl: Ttl, es: seq<Event>, i: nat, hash: nat, family: nat)
    requires i < |es| && es[i] == PresentToken(hash)
    requires Present(Run(Init(), ttl, es[..i]), ttl, hash).1.Reuse?
    requires BelongsTo(Run(Init(), ttl, es[..i]), hash, family)
    ensures FamilyDead(Run(Init(), ttl, es), family)
  {
    var s := Run(Init(), ttl, es[..i]);
    RunKeepsInv(ttl, es[..i]);
    assert UsedInv(s, ttl, hash);
    assert RowInv(s, ttl, s.used[hash].session);
    RevokedFamilyIsDead(s, family);
    assert es[..i + 1][..i] == es[..i];
    DeadFamilyForever(ttl, es, i + 1, family);
  }

  /** A replay is answered as one exactly outside the grace window, or inside it when the family is full. */
  lemma ReuseExactly(s: State, ttl: Ttl, hash: nat)
    requires Inv(s, ttl)
    ensures Present(s, ttl, hash).1.Reuse? <==>
              && hash in s.used
              && (s.now - s.used[hash].at > ttl.grace
                  || (!s.sessions[s.used[hash].session].revoked
                      && |LiveOf(s, s.used[hash].family)| == MAX_LIVE_PER_FAMILY))
  {
  }

  // ---- Racing tabs ----

  lemma FamilyIsCapped(ttl: Ttl, es: seq<Event>, family: nat)
    ensures |LiveOf(Run(Init(), ttl, es), family)| <= 5
  {
    RunKeepsInv(ttl, es);
  }

  /** A replay inside the grace window takes no token away from anyone, and hands out a working one. */
  lemma GraceKeepsEveryToken(s: State, ttl: Ttl, hash: nat, tok: nat)
    requires Inv(s, ttl) && Present(s, ttl, hash).1.Replayed?
    ensures Resolves(s, tok) ==> Resolves(Present(s, ttl, hash).0, tok)
    ensures ttl.access > 0 && Active(s, s.sessions[s.used[hash].session].user) ==>
        Resolves(Present(s, ttl, hash).0, Present(s, ttl, hash).1.access)
  {
    var t := Present(s, ttl, hash).0;
    forall x | x in s.sessions ensures x != s.next {
      assert RowInv(s, ttl, x);
    }
    if id :| ResolvesVia(s, tok, id) {
      assert ResolvesVia(t, tok, id);
    }
    if ttl.access > 0 && Active(s, s.sessions[s.used[hash].session].user) {
      assert ResolvesVia(t, s.next + 1, s.next);
    }
  }

  /** A rotated answer comes from the one session that holds the token. */
  lemma RotatedVia(s: State, ttl: Ttl, hash: nat) returns (id: nat)
    requires Inv(s, ttl) && Present(s, ttl, hash).1.Rotated?
    ensures HoldsLive(s, hash, id) && Active(s, s.sessions[id].user)
    ensures Present(s, ttl, hash) == (RotateRow(s, ttl, id), Rotated(id, s.next, s.next + 1))
  {
    id :| HoldsLive(s, hash, id) && Present(s, ttl, hash) == PresentLive(s, ttl, id);
  }

  /**
    What the tabs' answers rest on: one tab's session `id`, the trail `u` of the
    token they all present, the session that token was rotated on, their account.
  */
  predicate Stands(s: State, id: nat, row: Session, hash: nat, u: Used) {
    && id in s.sessions && s.sessions[id] == row && !row.revoked && row.refreshExp >= u.at
    && hash in s.used && s.used[hash] == u && u.family == row.family
    && u.session in s.sessions && !s.sessions[u.session].revoked && s.sessions[u.session].refreshExp >= u.at
    && s.sessions[u.session].family == row.family && s.sessions[u.session].user == row.user
    && Active(s, row.user)
  }

  /**
    One more tab is answered from the same token, or the step has to do with other
    families or accounts, or with sessions of this one that the answers do not rest on.
  */
  ghost predicate Elsewhere(s: State, ttl: Ttl, e: Event, id: nat, row: Session, hash: nat, u: Used) {
    match e
    case PresentToken(h) => (h == hash && Present(s, ttl, h).1.Replayed?) || !BelongsTo(s, h, row.family)
    case RevokeSession(uid, i) => uid != row.user || (i != id && i != u.session)
    case RevokeByTokens(access, refresh) => row.family !in NamedFamilies(s, access, refresh)
    case RevokeAllForUser(uid) => uid != row.user
    case ChangePassword(uid, keep) => uid != row.user || keep == id == u.session
    case SetStatus(uid, active) => uid != row.user || active
    case DeleteUser(uid) => uid != row.user
    case Sweep(retain) => retain >= ttl.grace
    case Login(_, _) => true
    case AddUser(_) => true
    case Tick(_) => true
  }

  ghost predicate AllElsewhere(s: State, ttl: Ttl, es: seq<Event>, id: nat, row: Session, hash: nat, u: Used) {
    es == [] || (AllElsewhere(s, ttl, es[..|es| - 1], id, row, hash, u)
                 && Elsewhere(Run(s, ttl, es[..|es| - 1]), ttl, es[|es| - 1], id, row, hash, u))
  }

  lemma OtherConsumedStands(s: State, ttl: Ttl, h: nat, id: nat, row: Session, hash: nat, u: Used)
    requires Inv(s, ttl) && Stands(s, id, row, hash, u) && h in s.used && s.used[h].family != row.family
    ensures Stands(PresentConsumed(s, ttl, s.used[h]).0, id, row, hash, u)
  {
    assert RowInv(s, ttl, id) && RowInv(s, ttl, u.session);
  }

  /** Another tab gets a session of its own, and nobody's changes. */
  lemma SiblingStands(s: State, ttl: Ttl, id: nat, row: Session, hash: nat, u: Used)
    requires Inv(s, ttl) && Stands(s, id, row, hash, u) && Present(s, ttl, hash).1.Replayed?
    ensures Stands(Present(s, ttl, hash).0, id, row, hash, u)
  {
    assert RowInv(s, ttl, id) && RowInv(s, ttl, u.session);
  }

  lemma OtherLiveStands(s: State, ttl: Ttl, other: nat, id: nat, row: Session, hash: nat, u: Used)
    requires Inv(s, ttl) && Stands(s, id, row, hash, u) && other in s.sessions && s.sessions[other].family != row.family
    ensures Stands(PresentLive(s, ttl, other).0, id, row, hash, u)
  {
    assert UsedInv(s, ttl, hash);
  }

  lemma OtherTokenStands(s: State, ttl: Ttl, h: nat, id: nat, row: Session, hash: nat, u: Used)
    requires Inv(s, ttl) && Stands(s, id, row, hash, u) && !BelongsTo(s, h, row.family)
    ensures Stands(Present(s, ttl, h).0, id, row, hash, u)
  {
    if h in s.used {
      OtherConsumedStands(s, ttl, h, id, row, hash, u);
    } else if other :| HoldsLive(s, h, other) && Present(s, ttl, h) == PresentLive(s, ttl, other) {
      OtherLiveStands(s, ttl, other, id, row, hash, u);
    }
  }

  lemma ElsewhereStands(s: State, ttl: Ttl, e: Event, id: nat, row: Session, hash: nat, u: Used)
    requires Inv(s, ttl) && Stands(s, id, row, hash, u) && Elsewhere(s, ttl, e, id, row, hash, u)
    requires s.now - u.at <= ttl.grace
    ensures Stands(Step(s, ttl, e), id, row, hash, u)
  {
    if e.PresentToken? {
      if BelongsTo(s, e.hash, row.family) {
        SiblingStands(s, ttl, id, row, hash, u);
      } else {
        OtherTokenStands(s, ttl, e.hash, id, row, hash, u);
      }
    } else if e.Login? {
      assert RowInv(s, ttl, id) && RowInv(s, ttl, u.session);
    } else if e.DeleteUser? || e.Sweep? {
      DeletionStands(s, ttl, e, id, row, hash, u);
    } else {
      EditStands(s, ttl, e, id, row, hash, u);
    }
  }

  lemma DeletionStands(s: State, ttl: Ttl, e: Event, id: nat, row: Session, hash: nat, u: Used)
    requires Stands(s, id, row, hash, u) && (e.DeleteUser? || e.Sweep?)
    requires Elsewhere(s, ttl, e, id, row, hash, u) && s.now - u.at <= ttl.grace
    ensures Stands(Step(s, ttl, e), id, row, hash, u)
  {
  }

  lemma EditStands(s: State, ttl: Ttl, e: Event, id: nat, row: Session, hash: nat, u: Used)
    requires Stands(s, id, row, hash, u) && !e.PresentToken? && !e.Login? && !e.DeleteUser? && !e.Sweep?
    requires Elsewhere(s, ttl, e, id, row, hash, u)
    ensures Stands(Step(s, ttl, e), id, row, hash, u)
  {
  }

  lemma {:induction false} RunStands(s: State, ttl: Ttl, es: seq<Event>, id: nat, row: Session, hash: nat, u: Used)
    requires Inv(s, ttl) && Stands(s, id, row, hash, u) && AllElsewhere(s, ttl, es, id, row, hash, u)
    requires Run(s, ttl, es).now - u.at <= ttl.grace
    ensures Inv(Run(s, ttl, es), ttl) && Stands(Run(s, ttl, es), id, row, hash, u) && Run(s, ttl, es).now >= s.now
  {
    if es != [] {
      var t, e := Run(s, ttl, es[..|es| - 1]), es[|es| - 1];
      ClockOnlyRuns(t, ttl, e);
      RunStands(s, ttl, es[..|es| - 1], id, row, hash, u);
      StepKeepsInv(t, ttl, e);
      ElsewhereStands(t, ttl, e, id, row, hash, u);
    }
  }

  lemma ClockOnlyRuns(s: State, ttl: Ttl, e: Event)
    ensures Step(s, ttl, e).now >= s.now
  {
  }

  lemma NextTab(s: State, ttl: Ttl, id: nat, row: Session, hash: nat, u: Used)
    requires Inv(s, ttl) && Stands(s, id, row, hash, u) && row.accessExp > s.now
    requires s.now - u.at <= ttl.grace && ttl.access > 0 && |LiveOf(s, row.family)| < MAX_LIVE_PER_FAMILY
    ensures var (t, reply) := Present(s, ttl, hash);
            reply.Replayed? && Resolves(t, row.access) && Resolves(t, reply.access)
  {
    assert PresentConsumed(s, ttl, s.used[hash]).1.Replayed?;
    assert ResolvesVia(s, row.access, id);
    GraceKeepsEveryToken(s, ttl, hash, row.access);
  }

  /** Whichever way a tab is answered, its answer stands. */
  lemma FirstTab(s: State, ttl: Ttl, hash: nat)
    requires Inv(s, ttl) && (Present(s, ttl, hash).1.Rotated? || Present(s, ttl, hash).1.Replayed?)
    ensures var (t, first) := Present(s, ttl, hash);
      && first.session in t.sessions && hash in t.used && t.now == s.now && t.used[hash].at <= s.now
      && t.sessions[first.session].access == first.access && t.sessions[first.session].accessExp == s.now + ttl.access
      && var row := t.sessions[first.session];
         Active(t, row.user) ==> Stands(t, first.session, row, hash, t.used[hash])
  {
    if Present(s, ttl, hash).1.Rotated? {
      var id := RotatedVia(s, ttl, hash);
    } else {
      assert UsedInv(s, ttl, hash);
      assert RowInv(s, ttl, s.used[hash].session);
    }
  }

  /**
    Tabs that reload together present one refresh token. Take any two of them, the
    first answered by the rotation or by a sibling, the second within the grace
    window while the first answer's access token is fresh, and in between any
    other traffic, further tabs included, that leaves their sessions alone. Unless
    the family is full by then, both are answered and both access tokens work.
  */
  lemma RacingTabsBothWork(s: State, ttl: Ttl, hash: nat, between: seq<Event>)
    requires Inv(s, ttl) && (Present(s, ttl, hash).1.Rotated? || Present(s, ttl, hash).1.Replayed?)
    requires var (s1, first) := Present(s, ttl, hash);
             var later := Run(s1, ttl, between);
             && first.session in s1.sessions && hash in s1.used
             && var row, u := s1.sessions[first.session], s1.used[hash];
                && Active(s1, row.user) && AllElsewhere(s1, ttl, between, first.session, row, hash, u)
                && later.now - u.at <= ttl.grace && later.now - s.now < ttl.access
                && |LiveOf(later, row.family)| < MAX_LIVE_PER_FAMILY
    ensures var (s1, first) := Present(s, ttl, hash);
            var (s2, second) := Present(Run(s1, ttl, between), ttl, hash);
            second.Replayed? && Resolves(s2, first.access) && Resolves(s2, second.access)
  {
    var (s1, first) := Present(s, ttl, hash);
    var row, u := s1.sessions[first.session], s1.used[hash];
    FirstTab(s, ttl, hash);
    PresentKeepsInv(s, ttl, hash);
    RunStands(s1, ttl, between, first.session, row, hash, u);
    NextTab(Run(s1, ttl, between), ttl, first.session, row, hash, u);
  }
}
