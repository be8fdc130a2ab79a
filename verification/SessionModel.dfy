/**
  Session families and refresh-token rotation, one committed transaction at a time.

  A token is stored only as its hash; hashing is injective, so a token stands for
  its own hash. Tokens, session ids and families are drawn from one counter,
  which makes every fresh value new. `births` records when each family was
  opened by a login; no transaction reads it.
*/
module SessionModel {

  datatype Ttl = Ttl(access: nat, refresh: nat, absolute: nat, grace: nat)

  datatype User = User(active: bool, epoch: nat)

  datatype Session = Session(user: nat, family: nat, access: nat, accessExp: int, refresh: nat, refreshExp: int,
                             born: int, revoked: bool)

  /** A refresh token that was rotated away, and when. */
  datatype Used = Used(family: nat, session: nat, at: int)

  datatype State = State(now: int, next: nat, users: map<nat, User>, sessions: map<nat, Session>,
                         used: map<nat, Used>, births: map<nat, int>)

  datatype Reply =
    | Rotated(session: nat, access: nat, refresh: nat)
    | Replayed(session: nat, access: nat, refresh: nat)
    | Invalid
    | NotActive
    | Reuse

  const MAX_LIVE_PER_FAMILY := 5

  function Init(): (s: State) {
    State(0, 0, map[], map[], map[], map[])
  }

  predicate Active(s: State, uid: nat) {
    uid in s.users && s.users[uid].active
  }

  function LiveOf(s: State, family: nat): (r: set<nat>) {
    set id | id in s.sessions && s.sessions[id].family == family && !s.sessions[id].revoked
  }

  function FamilyOf(s: State, family: nat): (r: set<nat>) {
    set id | id in s.sessions && s.sessions[id].family == family
  }

  function SessionsOf(s: State, uid: nat): (r: set<nat>) {
    set id | id in s.sessions && s.sessions[id].user == uid
  }

  /** UPDATE session SET revoked_at over the rows `ids`. */
  function Revoke(s: State, ids: set<nat>): (r: State) {
    s.(sessions := map id | id in s.sessions ::
         if id in ids then s.sessions[id].(revoked := true) else s.sessions[id])
  }

  /** Revoking a family and dropping its trail of consumed tokens. */
  function RevokeAndPurge(s: State, family: nat): (r: State) {
    Revoke(s, FamilyOf(s, family)).(used := map h | h in s.used && s.used[h].family != family :: s.used[h])
  }

  /** DELETE FROM session over the rows `ids`; their consumed tokens go with them. */
  function Remove(s: State, ids: set<nat>): (r: State) {
    s.(sessions := map id | id in s.sessions && id !in ids :: s.sessions[id],
       used := map h | h in s.used && s.used[h].session !in ids :: s.used[h])
  }

  /** A session row with fresh tokens, inserted under the id `s.next`. */
  function Insert(s: State, ttl: Ttl, uid: nat, family: nat, born: int): (r: State) {
    s.(next := s.next + 3,
       sessions := s.sessions[s.next := Session(uid, family, s.next + 1, s.now + ttl.access,
                                                s.next + 2, s.now + ttl.refresh, born, false)])
  }

  /** The live rotation: consume the presented token and install fresh ones on the same row. */
  function RotateRow(s: State, ttl: Ttl, id: nat): (r: State)
    requires id in s.sessions
  {
    var row := s.sessions[id];
    s.(next := s.next + 2,
       sessions := s.sessions[id := row.(access := s.next, accessExp := s.now + ttl.access,
                                         refresh := s.next + 1, refreshExp := s.now + ttl.refresh)],
       used := s.used[row.refresh := Used(row.family, id, s.now)])
  }

  predicate HoldsLive(s: State, hash: nat, id: nat) {
    id in s.sessions && s.sessions[id].refresh == hash && !s.sessions[id].revoked && s.sessions[id].refreshExp > s.now
  }

  /** Presenting a token that was already rotated away. */
  function PresentConsumed(s: State, ttl: Ttl, u: Used): (r: (State, Reply)) {
    if s.now - u.at > ttl.grace then (RevokeAndPurge(s, u.family), Reuse)
    else if u.session !in s.sessions || s.sessions[u.session].revoked then (s, Invalid)
    else if |LiveOf(s, u.family)| >= MAX_LIVE_PER_FAMILY then (RevokeAndPurge(s, u.family), Reuse)
    else
      var row := s.sessions[u.session];
      (Insert(s, ttl, row.user, u.family, row.born), Replayed(s.next, s.next + 1, s.next + 2))
  }

  /** Presenting a token held by the live session `id`. */
  function PresentLive(s: State, ttl: Ttl, id: nat): (r: (State, Reply))
    requires id in s.sessions
  {
    var row := s.sessions[id];
    if s.now - row.born > ttl.absolute then (Revoke(s, FamilyOf(s, row.family)), Invalid)
    else if !Active(s, row.user) then (Revoke(s, FamilyOf(s, row.family)), NotActive)
    else (RotateRow(s, ttl, id), Rotated(id, s.next, s.next + 1))
  }

  /** Exchanging a refresh token. */
  ghost function Present(s: State, ttl: Ttl, hash: nat): (r: (State, Reply)) {
    if hash in s.used then PresentConsumed(s, ttl, s.used[hash])
    else if id :| HoldsLive(s, hash, id) then PresentLive(s, ttl, id)
    else (s, Invalid)
  }
}
