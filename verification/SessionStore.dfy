/** The session tables as an object whose methods are the repository's transactions. */
module SessionStore {
  import opened Wrappers
  import opened SessionModel
  import opened SessionRuns
  import opened SessionTheorems
  import opened SessionAnswers

  const MAX_ROTATE_ATTEMPTS := 3

  datatype Error = SessionInvalid | UserNotActive | RetriesExhausted

  class Repository {
    const ttl: Ttl
    var now: int
    var next: nat
    var users: map<nat, User>
    var sessions: map<nat, Session>
    var used: map<nat, Used>
    ghost var births: map<nat, int>

    ghost function St(): (s: State)
      reads this
    {
      State(now, next, users, sessions, used, births)
    }

    /** What is proved of every run holds of the object at every moment. */
    ghost predicate Valid()
      reads this
    {
      Reachable(St(), ttl)
    }

    constructor (ttl: Ttl)
      ensures Valid() && St() == Init() && this.ttl == ttl
    {
      this.ttl := ttl;
      now, next := 0, 0;
      users, sessions, used := map[], map[], map[];
      births := map[];
      new;
      assert Run(Init(), ttl, []) == St();
    }

    /** One serializable attempt at exchanging a refresh token. */
    method RotateOnce(hash: nat) returns (r: Reply)
      requires Valid()
      modifies this
      ensures Valid() && (St(), r) == Present(old(St()), ttl, hash)
      ensures r.Rotated? <==>
                && hash !in old(used)
                && exists id :: id in old(sessions) && old(sessions)[id].refresh == hash && !old(sessions)[id].revoked
                                && old(now) < old(sessions)[id].refreshExp
                                && old(now) - old(sessions)[id].born <= ttl.absolute
                                && old(sessions)[id].user in old(users) && old(users)[old(sessions)[id].user].active
      ensures (&& hash !in old(used)
               && forall id :: id in old(sessions) && old(sessions)[id].refresh == hash && !old(sessions)[id].revoked
                               ==> old(sessions)[id].refreshExp <= old(now))
              ==> r == Invalid && St() == old(St())
    {
      StepIsReachable(St(), ttl, PresentToken(hash));
      AnswersExactly(St(), ttl, hash);
      if hash in used {
        r := HandleConsumed(hash);
        return;
      }
      if id: nat :| id in sessions && sessions[id].refresh == hash && !sessions[id].revoked
                    && sessions[id].refreshExp > now {
        LiveHolder(St(), ttl, hash, id);
        var row := sessions[id];
        if now - row.born > ttl.absolute {
          RevokeFamily(row.family);
          return Invalid;
        }
        if row.user !in users || !users[row.user].active {
          RevokeFamily(row.family);
          return NotActive;
        }
        r := Rotated(id, next, next + 1);
        WriteNewTokens(id);
      } else {
        r := Invalid;
      }
    }

    /** Telling a racing tab from a replay. */
    method HandleConsumed(hash: nat) returns (r: Reply)
      requires hash in used
      modifies this
      ensures (St(), r) == PresentConsumed(old(St()), ttl, old(used[hash]))
    {
      var u := used[hash];
      if now - u.at > ttl.grace {
        RevokeAndPurgeFamily(u.family);
        return Reuse;
      }
      if u.session !in sessions || sessions[u.session].revoked {
        return Invalid;
      }
      var live := set id | id in sessions && sessions[id].family == u.family && !sessions[id].revoked;
      assert live == LiveOf(St(), u.family);
      if |live| >= MAX_LIVE_PER_FAMILY {
        RevokeAndPurgeFamily(u.family);
        return Reuse;
      }
      var row := sessions[u.session];
      r := Replayed(next, next + 1, next + 2);
      InsertSession(row.user, u.family, row.born);
    }

    method InsertSession(uid: nat, family: nat, born: int)
      modifies this
      ensures St() == Insert(old(St()), ttl, uid, family, born)
    {
      sessions := sessions[next := Session(uid, family, next + 1, now + ttl.access, next + 2, now + ttl.refresh,
                                           born, false)];
      next := next + 3;
    }

    /** Marks the presented token used and installs a fresh triple on the same row. */
    method WriteNewTokens(id: nat)
      requires id in sessions
      modifies this
      ensures St() == RotateRow(old(St()), ttl, id)
    {
      var row := sessions[id];
      used := used[row.refresh := Used(row.family, id, now)];
      sessions := sessions[id := row.(access := next, accessExp := now + ttl.access,
                                      refresh := next + 1, refreshExp := now + ttl.refresh)];
      next := next + 2;
    }

    method RevokeRows(ids: set<nat>)
      modifies this
      ensures St() == Revoke(old(St()), ids)
    {
      sessions := map id | id in sessions ::
        if id in ids then sessions[id].(revoked := true) else sessions[id];
    }

    method RevokeFamily(family: nat)
      modifies this
      ensures St() == Revoke(old(St()), FamilyOf(old(St()), family))
    {
      RevokeRows(set id | id in sessions && sessions[id].family == family);
    }

    method RevokeAndPurgeFamily(family: nat)
      modifies this
      ensures St() == RevokeAndPurge(old(St()), family)
    {
      RevokeFamily(family);
      used := map h | h in used && used[h].family != family :: used[h];
    }

    /**
      Exchanging a refresh token, where the first `aborts` attempts lose to a
      concurrent transaction: at most three attempts, and a lost one leaves nothing behind.
    */
    method Rotate(hash: nat, aborts: nat) returns (r: Result<Reply, Error>)
      requires Valid()
      modifies this
      ensures Valid()
      ensures if aborts < MAX_ROTATE_ATTEMPTS
              then r.Ok? && (St(), r.value) == Present(old(St()), ttl, hash)
              else r == Err(RetriesExhausted) && St() == old(St())
      ensures r.Ok? && r.value.Rotated? <==>
                aborts < MAX_ROTATE_ATTEMPTS && hash !in old(used) && exists id :: old(MayRotate(St(), ttl, hash, id))
    {
      AnswersExactly(St(), ttl, hash);
      for attempt := 0 to MAX_ROTATE_ATTEMPTS
        invariant St() == old(St()) && attempt <= aborts
      {
        if attempt == aborts {
          var reply := RotateOnce(hash);
          return Ok(reply);
        }
      }
      r := Err(RetriesExhausted);
    }

    /** A successful login opens a new family. */
    method Issue(uid: nat, epoch: nat) returns (r: Result<(nat, nat), Error>)
      requires Valid()
      modifies this
      ensures Valid() && St() == IssueSession(old(St()), ttl, uid, epoch)
      ensures r.Ok? <==> Active(old(St()), uid) && old(users[uid].epoch) == epoch
      ensures r.Ok? && ttl.access > 0 ==> Resolves(St(), r.value.0)
      ensures r.Ok? ==> exists id :: id in sessions && id !in old(sessions) && sessions[id].user == uid
                                     && sessions[id].access == r.value.0 && sessions[id].refresh == r.value.1
      ensures r.Err? ==> r.error == SessionInvalid
    {
      StepIsReachable(St(), ttl, Login(uid, epoch));
      FreshSession(St(), ttl);
      if uid !in users || !users[uid].active || users[uid].epoch != epoch {
        return Err(SessionInvalid);
      }
      r := Ok((next + 1, next + 2));
      if ttl.access > 0 {
        IssuedResolves(old(St()), ttl, uid, epoch);
      }
      OpenFamily(uid);
    }

    /** A new family, born now, with its first session. */
    method OpenFamily(uid: nat)
      modifies this
      ensures St() == Insert(old(St()), ttl, uid, old(next), old(now)).(births := old(births)[old(next) := old(now)])
    {
      births := births[next := now];
      InsertSession(uid, next, now);
    }

    /** Turning an access token into its session. */
    method ResolveAccess(tok: nat) returns (r: Result<nat, Error>)
      requires Valid()
      ensures r.Ok? <==> Resolves(St(), tok)
      ensures r.Ok? ==> LetsIn(St(), tok, r.value)
      ensures r == Err(UserNotActive) <==>
                exists id :: id in sessions && sessions[id].access == tok && !sessions[id].revoked
                             && now < sessions[id].accessExp
                             && !(sessions[id].user in users && users[sessions[id].user].active)
    {
      if id: nat :| id in sessions && sessions[id].access == tok && !sessions[id].revoked
                    && sessions[id].accessExp > now {
        OneHolder(St(), ttl, tok, id);
        if sessions[id].user !in users || !users[sessions[id].user].active {
          return Err(UserNotActive);
        }
        assert ResolvesVia(St(), tok, id);
        r := Ok(id);
      } else {
        r := Err(SessionInvalid);
      }
    }

    /** Logging out by whatever cookies the browser still holds, rotated away or not. */
    method RevokeFamilyByTokens(access: Option<nat>, refresh: Option<nat>)
      requires Valid()
      modifies this
      ensures Valid() && St() == Step(old(St()), ttl, RevokeByTokens(access, refresh))
      ensures sessions.Keys == old(sessions.Keys)
      ensures forall x :: x in old(sessions) ==>
                sessions[x].revoked == (old(sessions)[x].revoked || IsNamed(old(St()), access, refresh, x))
    {
      StepIsReachable(St(), ttl, RevokeByTokens(access, refresh));
      SignsOutExactly(St(), ttl, RevokeByTokens(access, refresh));
      var families := (set id | id in sessions
                              && (access == Some(sessions[id].access) || refresh == Some(sessions[id].refresh))
                         :: sessions[id].family)
                      + (set h | h in used && refresh == Some(h) :: used[h].family);
      assert families == NamedFamilies(St(), access, refresh);
      RevokeRows(set id | id in sessions && sessions[id].family in families);
    }

    /** Signing an account out everywhere also moves its credential epoch. */
    method RevokeAll(uid: nat)
      requires Valid()
      modifies this
      ensures Valid() && St() == Step(old(St()), ttl, RevokeAllForUser(uid))
      ensures sessions.Keys == old(sessions.Keys)
      ensures forall x :: x in old(sessions) ==>
                sessions[x].revoked == (old(sessions)[x].revoked || old(sessions)[x].user == uid)
      ensures uid in old(users) ==> uid in users && users[uid].epoch == old(users)[uid].epoch + 1
    {
      StepIsReachable(St(), ttl, RevokeAllForUser(uid));
      SignsOutExactly(St(), ttl, RevokeAllForUser(uid));
      MoveEpoch(uid);
      RevokeRows(set id | id in sessions && sessions[id].user == uid);
    }

    method MoveEpoch(uid: nat)
      modifies this
      ensures St() == BumpEpoch(old(St()), uid)
    {
      if uid in users {
        users := users[uid := users[uid].(epoch := users[uid].epoch + 1)];
      }
    }

    /** Only the owner of a session ends it; ending one that is over is reported as finding none. */
    method RevokeSession(uid: nat, id: nat) returns (found: bool)
      requires Valid()
      modifies this
      ensures Valid() && St() == Step(old(St()), ttl, SessionRuns.RevokeSession(uid, id))
      ensures found <==> id in old(sessions) && old(sessions)[id].user == uid && !old(sessions)[id].revoked
      ensures found ==> id in sessions && sessions[id].revoked
      ensures sessions.Keys == old(sessions.Keys)
      ensures forall x :: x in old(sessions) && (x != id || !found) ==> sessions[x] == old(sessions)[x]
    {
      SignsOutExactly(St(), ttl, SessionRuns.RevokeSession(uid, id));
      found := id in sessions && sessions[id].user == uid && !sessions[id].revoked;
      StepIsReachable(St(), ttl, SessionRuns.RevokeSession(uid, id));
      RevokeOwn(uid, id);
    }

    method RevokeOwn(uid: nat, id: nat)
      modifies this
      ensures St() == Revoke(old(St()), SessionsOf(old(St()), uid) * {id})
    {
      SingledOut(St(), uid, id);
      RevokeRows(set x | x in sessions && sessions[x].user == uid && x == id);
    }

    /** A new password keeps the session it was set from. */
    method ChangePassword(uid: nat, keep: nat)
      requires Valid()
      modifies this
      ensures Valid() && St() == Step(old(St()), ttl, SessionRuns.ChangePassword(uid, keep))
      ensures sessions.Keys == old(sessions.Keys)
      ensures forall x :: x in old(sessions) ==>
                sessions[x].revoked == (old(sessions)[x].revoked || (old(sessions)[x].user == uid && x != keep))
      ensures uid in old(users) ==> uid in users && users[uid].epoch == old(users)[uid].epoch + 1
    {
      StepIsReachable(St(), ttl, SessionRuns.ChangePassword(uid, keep));
      SignsOutExactly(St(), ttl, SessionRuns.ChangePassword(uid, keep));
      MoveEpoch(uid);
      RevokeRows((set x | x in sessions && sessions[x].user == uid) - {keep});
    }

    method AddAccount(uid: nat)
      requires Valid() && uid !in users
      modifies this
      ensures Valid() && St() == Step(old(St()), ttl, AddUser(uid))
    {
      StepIsReachable(St(), ttl, AddUser(uid));
      users := users[uid := User(true, 0)];
    }

    method Advance(seconds: nat)
      requires Valid()
      modifies this
      ensures Valid() && St() == Step(old(St()), ttl, Tick(seconds))
    {
      StepIsReachable(St(), ttl, Tick(seconds));
      now := now + seconds;
    }
  }

  lemma AnswersExactly(s: State, ttl: Ttl, hash: nat)
    requires Reachable(s, ttl)
    ensures Present(s, ttl, hash).1.Rotated? <==> hash !in s.used && exists id :: MayRotate(s, ttl, hash, id)
    ensures (&& hash !in s.used
             && forall id :: id in s.sessions && s.sessions[id].refresh == hash && !s.sessions[id].revoked
                             ==> s.sessions[id].refreshExp <= s.now)
            ==> Present(s, ttl, hash) == (s, Invalid)
  {
    var es :| Run(Init(), ttl, es) == s;
    RunKeepsInv(ttl, es);
    RotatesExactly(s, ttl, hash);
    if hash !in s.used && forall id :: !HoldsInTerm(s, hash, id) {
      HeldByNone(s, ttl, hash);
    }
  }

  lemma SignsOutExactly(s: State, ttl: Ttl, e: Event)
    requires e.RevokeSession? || e.RevokeByTokens? || e.RevokeAllForUser? || e.ChangePassword?
    ensures Step(s, ttl, e).sessions.Keys == s.sessions.Keys
    ensures forall x :: x in s.sessions ==>
              Step(s, ttl, e).sessions[x] == s.sessions[x].(revoked := s.sessions[x].revoked || SignsOut(s, e, x))
  {
    forall x | x in s.sessions
      ensures Step(s, ttl, e).sessions.Keys == s.sessions.Keys
      ensures Step(s, ttl, e).sessions[x] == s.sessions[x].(revoked := s.sessions[x].revoked || SignsOut(s, e, x))
    {
      SignOutEndsExactly(s, ttl, e, x);
    }
  }

  lemma LiveHolder(s: State, ttl: Ttl, hash: nat, id: nat)
    requires Reachable(s, ttl) && HoldsLive(s, hash, id)
    ensures hash !in s.used ==> Present(s, ttl, hash) == PresentLive(s, ttl, id)
    ensures forall x :: x in s.sessions && s.sessions[x].refresh == hash ==> x == id
  {
    var es :| Run(Init(), ttl, es) == s;
    RunKeepsInv(ttl, es);
    assert forall x :: HoldsLive(s, hash, x) ==> x == id;
  }

  lemma FreshSession(s: State, ttl: Ttl)
    requires Reachable(s, ttl)
    ensures s.next !in s.sessions
  {
    var es :| Run(Init(), ttl, es) == s;
    RunKeepsInv(ttl, es);
    assert s.next in s.sessions ==> RowInv(s, ttl, s.next);
  }

  lemma SingledOut(s: State, uid: nat, id: nat)
    ensures SessionsOf(s, uid) * {id} == set x | x in s.sessions && s.sessions[x].user == uid && x == id
  {
  }

  lemma IssuedResolves(s: State, ttl: Ttl, uid: nat, epoch: nat)
    requires Active(s, uid) && s.users[uid].epoch == epoch && ttl.access > 0
    ensures Resolves(IssueSession(s, ttl, uid, epoch), s.next + 1)
  {
    assert ResolvesVia(IssueSession(s, ttl, uid, epoch), s.next + 1, s.next);
  }

  /** No two sessions have the same access token. */
  lemma OneHolder(s: State, ttl: Ttl, tok: nat, id: nat)
    requires Reachable(s, ttl) && id in s.sessions && s.sessions[id].access == tok
    ensures forall x :: x in s.sessions && s.sessions[x].access == tok ==> x == id
  {
    var es :| Run(Init(), ttl, es) == s;
    RunKeepsInv(ttl, es);
  }
}
