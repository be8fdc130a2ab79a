/** What holds of the session tables after every run of transactions. */
module SessionRuns {
  import opened Sets
  import opened Wrappers
  import opened SessionModel

  datatype Event =
    | PresentToken(hash: nat)
    | Login(uid: nat, epoch: nat)
    | RevokeSession(uid: nat, id: nat)
    | RevokeByTokens(access: Option<nat>, refresh: Option<nat>)
    | RevokeAllForUser(uid: nat)
    | ChangePassword(uid: nat, keep: nat)
    | SetStatus(uid: nat, active: bool)
    | AddUser(uid: nat)
    | DeleteUser(uid: nat)
    | Sweep(retain: nat)
    | Tick(seconds: nat)

  /** Opening a family: a login of an active account whose credential epoch is still the one proven. */
  function IssueSession(s: State, ttl: Ttl, uid: nat, epoch: nat): (r: State) {
    if Active(s, uid) && s.users[uid].epoch == epoch
    then Insert(s, ttl, uid, s.next, s.now).(births := s.births[s.next := s.now])
    else s
  }

  /** The families either cookie still names, directly or through a consumed refresh token. */
  function NamedFamilies(s: State, access: Option<nat>, refresh: Option<nat>): (r: set<nat>) {
    (set id | id in s.sessions && (access == Some(s.sessions[id].access) || refresh == Some(s.sessions[id].refresh))
       :: s.sessions[id].family)
    + (set h | h in s.used && refresh == Some(h) :: s.used[h].family)
  }

  function BumpEpoch(s: State, uid: nat): (r: State) {
    if uid in s.users then s.(users := s.users[uid := s.users[uid].(epoch := s.users[uid].epoch + 1)]) else s
  }

  function SweepOld(s: State, retain: nat): (r: State) {
    var s1 := Remove(s, set id | id in s.sessions && s.sessions[id].refreshExp < s.now - retain);
    s1.(used := map h | h in s1.used && s1.used[h].at >= s.now - retain :: s1.used[h])
  }

  ghost function Step(s: State, ttl: Ttl, e: Event): (r: State) {
    match e
    case PresentToken(hash) => Present(s, ttl, hash).0
    case Login(uid, epoch) => IssueSession(s, ttl, uid, epoch)
    case RevokeSession(uid, id) => Revoke(s, SessionsOf(s, uid) * {id})
    case RevokeByTokens(access, refresh) =>
      Revoke(s, set id | id in s.sessions && s.sessions[id].family in NamedFamilies(s, access, refresh))
    case RevokeAllForUser(uid) => Revoke(BumpEpoch(s, uid), SessionsOf(s, uid))
    case ChangePassword(uid, keep) => Revoke(BumpEpoch(s, uid), SessionsOf(s, uid) - {keep})
    case SetStatus(uid, active) =>
      if uid in s.users then BumpEpoch(s.(users := s.users[uid := s.users[uid].(active := active)]), uid) else s
    case AddUser(uid) => if uid in s.users then s else s.(users := s.users[uid := User(true, 0)])
    case DeleteUser(uid) => Remove(s, SessionsOf(s, uid)).(users := s.users - {uid})
    case Sweep(retain) => SweepOld(s, retain)
    case Tick(seconds) => s.(now := s.now + seconds)
  }

  ghost function Run(s: State, ttl: Ttl, es: seq<Event>): (r: State) {
    if es == [] then s else Step(Run(s, ttl, es[..|es| - 1]), ttl, es[|es| - 1])
  }

  /** The latest moment, counted from the login, at which an access token of a family may still resolve. */
  function Ceiling(ttl: Ttl): (r: nat) {
    ttl.absolute + ttl.grace + ttl.access
  }

  /** One session row: its values were issued, its birth is its family's, its access token dies in time. */
  ghost predicate RowInv(s: State, ttl: Ttl, id: nat)
    requires id in s.sessions
  {
    var row := s.sessions[id];
    && id < s.next && row.access < s.next && row.refresh < s.next && row.family < s.next
    && row.family in s.births && s.births[row.family] == row.born
    && row.accessExp <= row.born + Ceiling(ttl)
  }

  /** One consumed token: it is nobody's refresh token, and it was consumed before the absolute ceiling. */
  ghost predicate UsedInv(s: State, ttl: Ttl, h: nat)
    requires h in s.used
  {
    var u := s.used[h];
    && h < s.next
    && u.session in s.sessions && s.sessions[u.session].family == u.family
    && u.at <= s.sessions[u.session].born + ttl.absolute
    && u.at <= s.now && u.at <= s.sessions[u.session].refreshExp
    && (forall id :: id in s.sessions ==> s.sessions[id].refresh != h)
  }

  /** No token belongs to two sessions. */
  ghost predicate OwnTokens(s: State) {
    && (forall a, b :: a in s.sessions && b in s.sessions && s.sessions[a].refresh == s.sessions[b].refresh ==> a == b)
    && (forall a, b :: a in s.sessions && b in s.sessions && s.sessions[a].access == s.sessions[b].access ==> a == b)
  }

  ghost predicate Inv(s: State, ttl: Ttl) {
    && (forall id :: id in s.sessions ==> RowInv(s, ttl, id))
    && (forall h :: h in s.used ==> UsedInv(s, ttl, h))
    && (forall f :: f in s.births ==> f < s.next && s.births[f] <= s.now)
    && OwnTokens(s)
    && (forall f :: |LiveOf(s, f)| <= MAX_LIVE_PER_FAMILY)
  }

  lemma RevokeKeepsInv(s: State, ttl: Ttl, ids: set<nat>)
    requires Inv(s, ttl)
    ensures Inv(Revoke(s, ids), ttl)
  {
    var t := Revoke(s, ids);
    forall f ensures |LiveOf(t, f)| <= MAX_LIVE_PER_FAMILY {
      SubsetIsSmaller(LiveOf(t, f), LiveOf(s, f));
    }
  }

  lemma RemoveKeepsInv(s: State, ttl: Ttl, ids: set<nat>)
    requires Inv(s, ttl)
    ensures Inv(Remove(s, ids), ttl)
  {
    var t := Remove(s, ids);
    forall f ensures |LiveOf(t, f)| <= MAX_LIVE_PER_FAMILY {
      SubsetIsSmaller(LiveOf(t, f), LiveOf(s, f));
    }
  }

  /** Forgetting consumed tokens, moving the clock on and editing accounts leave the sessions alone. */
  lemma SameSessionsKeepInv(s: State, t: State, ttl: Ttl)
    requires Inv(s, ttl)
    requires t.sessions == s.sessions && t.next == s.next && t.births == s.births && t.now >= s.now
    requires forall h :: h in t.used ==> h in s.used && t.used[h] == s.used[h]
    ensures Inv(t, ttl)
  {
    forall h | h in t.used ensures UsedInv(t, ttl, h) {
      assert UsedInv(s, ttl, h);
    }
    forall f ensures LiveOf(t, f) == LiveOf(s, f) {
    }
  }

  /** A new row is sound when its family has room, shares its birth, and may still be extended. */
  lemma InsertKeepsInv(s: State, ttl: Ttl, uid: nat, family: nat, born: int)
    requires Inv(s, ttl)
    requires family in s.births && s.births[family] == born
    requires s.now <= born + ttl.absolute + ttl.grace
    requires |LiveOf(s, family)| < MAX_LIVE_PER_FAMILY
    ensures Inv(Insert(s, ttl, uid, family, born), ttl)
  {
    var t := Insert(s, ttl, uid, family, born);
    assert s.next !in s.sessions;
    forall id | id in t.sessions ensures RowInv(t, ttl, id) {
      if id != s.next {
        assert RowInv(s, ttl, id);
      }
    }
    forall h | h in t.used ensures UsedInv(t, ttl, h) {
      assert UsedInv(s, ttl, h);
    }
    forall f ensures |LiveOf(t, f)| <= MAX_LIVE_PER_FAMILY {
      InsertedLive(s, ttl, uid, family, born, f);
    }
    InsertKeepsOwnTokens(s, ttl, uid, family, born);
  }

  lemma InsertKeepsOwnTokens(s: State, ttl: Ttl, uid: nat, family: nat, born: int)
    requires OwnTokens(s) && forall id :: id in s.sessions ==> RowInv(s, ttl, id)
    ensures OwnTokens(Insert(s, ttl, uid, family, born))
  {
  }

  lemma InsertedLive(s: State, ttl: Ttl, uid: nat, family: nat, born: int, f: nat)
    requires s.next !in s.sessions
    ensures LiveOf(Insert(s, ttl, uid, family, born), f) == LiveOf(s, f) + (if f == family then {s.next} else {})
  {
  }

  lemma RotatedLive(s: State, ttl: Ttl, id: nat, f: nat)
    requires id in s.sessions
    ensures LiveOf(RotateRow(s, ttl, id), f) == LiveOf(s, f)
  {
  }

  lemma RotateKeepsInv(s: State, ttl: Ttl, id: nat)
    requires Inv(s, ttl) && id in s.sessions
    requires s.now - s.sessions[id].born <= ttl.absolute
    ensures Inv(RotateRow(s, ttl, id), ttl)
  {
    var t := RotateRow(s, ttl, id);
    RotateKeepsRows(s, ttl, id);
    RotateKeepsUsed(s, ttl, id);
    forall f ensures |LiveOf(t, f)| <= MAX_LIVE_PER_FAMILY {
      RotatedLive(s, ttl, id, f);
    }
  }

  lemma RotateKeepsRows(s: State, ttl: Ttl, id: nat)
    requires Inv(s, ttl) && id in s.sessions
    requires s.now - s.sessions[id].born <= ttl.absolute
    ensures forall x :: x in RotateRow(s, ttl, id).sessions ==> RowInv(RotateRow(s, ttl, id), ttl, x)
    ensures OwnTokens(RotateRow(s, ttl, id))
  {
    var t := RotateRow(s, ttl, id);
    forall x | x in t.sessions
      ensures RowInv(t, ttl, x)
      ensures x != id ==>
                t.sessions[x] == s.sessions[x] && s.sessions[x].refresh < s.next && s.sessions[x].access < s.next
    {
      assert RowInv(s, ttl, x);
    }
  }

  lemma RotateKeepsUsed(s: State, ttl: Ttl, id: nat)
    requires Inv(s, ttl) && id in s.sessions
    requires s.now - s.sessions[id].born <= ttl.absolute
    ensures forall h :: h in RotateRow(s, ttl, id).used ==> UsedInv(RotateRow(s, ttl, id), ttl, h)
  {
    assert RowInv(s, ttl, id);
    forall h | h in RotateRow(s, ttl, id).used ensures UsedInv(RotateRow(s, ttl, id), ttl, h) {
      if h != s.sessions[id].refresh {
        assert UsedInv(s, ttl, h);
      }
    }
  }

  lemma PurgeKeepsInv(s: State, ttl: Ttl, family: nat)
    requires Inv(s, ttl)
    ensures Inv(RevokeAndPurge(s, family), ttl)
  {
    RevokeKeepsInv(s, ttl, FamilyOf(s, family));
    SameSessionsKeepInv(Revoke(s, FamilyOf(s, family)), RevokeAndPurge(s, family), ttl);
  }

  lemma ConsumedKeepsInv(s: State, ttl: Ttl, hash: nat)
    requires Inv(s, ttl) && hash in s.used
    ensures Inv(PresentConsumed(s, ttl, s.used[hash]).0, ttl)
  {
    assert UsedInv(s, ttl, hash);
    var u := s.used[hash];
    PurgeKeepsInv(s, ttl, u.family);
    if PresentConsumed(s, ttl, u).1.Replayed? {
      assert RowInv(s, ttl, u.session);
      InsertKeepsInv(s, ttl, s.sessions[u.session].user, u.family, s.sessions[u.session].born);
    }
  }

  lemma LiveKeepsInv(s: State, ttl: Ttl, id: nat)
    requires Inv(s, ttl) && id in s.sessions
    ensures Inv(PresentLive(s, ttl, id).0, ttl)
  {
    RevokeKeepsInv(s, ttl, FamilyOf(s, s.sessions[id].family));
    if s.now - s.sessions[id].born <= ttl.absolute {
      RotateKeepsInv(s, ttl, id);
    }
  }

  lemma PresentKeepsInv(s: State, ttl: Ttl, hash: nat)
    requires Inv(s, ttl)
    ensures Inv(Present(s, ttl, hash).0, ttl)
  {
    if hash in s.used {
      ConsumedKeepsInv(s, ttl, hash);
    } else if id :| HoldsLive(s, hash, id) && Present(s, ttl, hash) == PresentLive(s, ttl, id) {
      LiveKeepsInv(s, ttl, id);
    }
  }

  lemma IssueKeepsInv(s: State, ttl: Ttl, uid: nat, epoch: nat)
    requires Inv(s, ttl)
    ensures Inv(IssueSession(s, ttl, uid, epoch), ttl)
  {
    var family := s.next;
    var t := Insert(s, ttl, uid, family, s.now).(births := s.births[family := s.now]);
    assert family !in s.births && s.next !in s.sessions;
    InsertKeepsOwnTokens(s, ttl, uid, family, s.now);
    forall id | id in t.sessions ensures RowInv(t, ttl, id) {
      if id != s.next {
        assert RowInv(s, ttl, id);
      }
    }
    forall h | h in t.used ensures UsedInv(t, ttl, h) {
      assert UsedInv(s, ttl, h);
    }
    forall f ensures |LiveOf(t, f)| <= MAX_LIVE_PER_FAMILY {
      InsertedLive(s, ttl, uid, family, s.now, f);
      NewFamilyIsEmpty(s, ttl, family);
      assert LiveOf(t, f) == LiveOf(Insert(s, ttl, uid, family, s.now), f);
    }
  }

  lemma NewFamilyIsEmpty(s: State, ttl: Ttl, family: nat)
    requires Inv(s, ttl) && family >= s.next
    ensures LiveOf(s, family) == {}
  {
  }

  lemma MoveOnKeepsInv(s: State, ttl: Ttl, uid: nat, ids: set<nat>)
    requires Inv(s, ttl)
    ensures Inv(Revoke(BumpEpoch(s, uid), ids), ttl)
  {
    SameSessionsKeepInv(s, BumpEpoch(s, uid), ttl);
    RevokeKeepsInv(BumpEpoch(s, uid), ttl, ids);
  }

  lemma AccountStepKeepsInv(s: State, ttl: Ttl, e: Event)
    requires Inv(s, ttl)
    requires e.RevokeAllForUser? || e.ChangePassword? || e.SetStatus? || e.AddUser? || e.DeleteUser?
    ensures Inv(Step(s, ttl, e), ttl)
  {
    match e
    case RevokeAllForUser(uid) => MoveOnKeepsInv(s, ttl, uid, SessionsOf(s, uid));
    case ChangePassword(uid, keep) => MoveOnKeepsInv(s, ttl, uid, SessionsOf(s, uid) - {keep});
    case DeleteUser(uid) =>
      RemoveKeepsInv(s, ttl, SessionsOf(s, uid));
      SameSessionsKeepInv(Remove(s, SessionsOf(s, uid)), Step(s, ttl, e), ttl);
    case _ => SameSessionsKeepInv(s, Step(s, ttl, e), ttl);
  }

  lemma StepKeepsInv(s: State, ttl: Ttl, e: Event)
    requires Inv(s, ttl)
    ensures Inv(Step(s, ttl, e), ttl)
  {
    match e
    case PresentToken(hash) => PresentKeepsInv(s, ttl, hash);
    case Login(uid, epoch) => IssueKeepsInv(s, ttl, uid, epoch);
    case RevokeSession(uid, id) => RevokeKeepsInv(s, ttl, SessionsOf(s, uid) * {id});
    case RevokeByTokens(access, refresh) =>
      RevokeKeepsInv(s, ttl, set id | id in s.sessions && s.sessions[id].family in NamedFamilies(s, access, refresh));
    case Sweep(retain) =>
      var dead := set id | id in s.sessions && s.sessions[id].refreshExp < s.now - retain;
      RemoveKeepsInv(s, ttl, dead);
      SameSessionsKeepInv(Remove(s, dead), SweepOld(s, retain), ttl);
    case Tick(seconds) => SameSessionsKeepInv(s, Step(s, ttl, e), ttl);
    case _ => AccountStepKeepsInv(s, ttl, e);
  }

  /** Every run from an empty instance keeps the invariant. */
  lemma {:induction false} RunKeepsInv(ttl: Ttl, es: seq<Event>)
    ensures Inv(Run(Init(), ttl, es), ttl)
  {
    if es != [] {
      RunKeepsInv(ttl, es[..|es| - 1]);
      StepKeepsInv(Run(Init(), ttl, es[..|es| - 1]), ttl, es[|es| - 1]);
    } else {
      forall f ensures LiveOf(Init(), f) == {} {
      }
    }
  }

  ghost predicate Reachable(s: State, ttl: Ttl) {
    exists es :: Run(Init(), ttl, es) == s
  }

  lemma StepIsReachable(s: State, ttl: Ttl, e: Event)
    requires Reachable(s, ttl)
    ensures Reachable(Step(s, ttl, e), ttl)
  {
    var es :| Run(Init(), ttl, es) == s;
    assert (es + [e])[..|es + [e]| - 1] == es;
    assert Run(Init(), ttl, es + [e]) == Step(s, ttl, e);
  }
}
