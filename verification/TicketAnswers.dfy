/** What each request to the download table answers and changes, read off the tickets. */
module TicketAnswers {
  import opened Sets
  import opened Wrappers
  import opened DownloadTickets

  /** Still to be opened, and in time for it. */
  predicate CanWait(x: Ticket, now: int) {
    x.phase == Pending && now < x.expires
  }

  /** A result that has been kept long enough. */
  predicate IsOld(x: Ticket, now: int) {
    (x.phase == Complete || x.phase == Failed) && x.finished.Some? && x.finished.value + 600 <= now
  }

  /** What tidying makes of a ticket: the late one fails, the old result goes, the rest stays. */
  lemma TidyingAnswers(t: Table, now: int, id: nat)
    requires id in t
    ensures Cleaned(t, now).Keys <= t.Keys && (id in Cleaned(t, now) <==> !IsOld(t[id], now))
    ensures id in Cleaned(t, now) ==>
              Cleaned(t, now)[id] == if t[id].phase == Pending && t[id].expires <= now
                                     then t[id].(phase := Failed, finished := Some(now)) else t[id]
  {
  }

  /** A download starts exactly with its token, from the session it was issued to, while the ticket waits in time. */
  lemma OpeningAnswers(s: State, id: nat, token: nat, user: nat, session: nat, now: int)
    ensures var (t, ok) := Consumed(s, id, token, user, session, now);
      && (ok <==> && id in s.tickets && CanWait(s.tickets[id], now) && s.tickets[id].token == token
                  && s.tickets[id].user == user && s.tickets[id].session == session)
      && (ok ==> id in t.tickets && t.tickets[id] == s.tickets[id].(phase := Running))
      && (forall x :: x in t.tickets && (x != id || !ok) ==>
            x in Cleaned(s.tickets, now) && t.tickets[x] == Cleaned(s.tickets, now)[x])
      && t.tickets.Keys == Cleaned(s.tickets, now).Keys && t.next == s.next
  {
  }

  /** Only a running download completes, with its size; only a waiting or running one fails; no other ticket changes. */
  lemma EndingAnswers(t: Table, id: nat, size: nat, now: int)
    ensures Completed(t, id, size, now)
            == if id in t && t[id].phase == Running
               then t[id := t[id].(phase := Complete, size := size, finished := Some(now))] else t
    ensures Broken(t, id, now)
            == if id in t && (t[id].phase == Pending || t[id].phase == Running)
               then t[id := t[id].(phase := Failed, finished := Some(now))] else t
  {
  }

  // ---- Issuing ----

  /** The ticket counts against its user's four: it runs, or waits in time and is not the one being replaced. */
  predicate InUse(x: Ticket, user: nat, session: nat, now: int) {
    x.user == user && (x.phase == Running || (CanWait(x, now) && x.session != session))
  }

  function UsedBy(t: Table, user: nat, session: nat, now: int): (r: set<nat>) {
    set id | id in t && InUse(t[id], user, session, now)
  }

  lemma UsedIsActive(s: State, user: nat, session: nat, now: int)
    requires Inv(s)
    ensures ActiveOf(Prepared(s.tickets, user, session, now), user) == UsedBy(s.tickets, user, session, now)
  {
  }

  /** A user with four downloads in use elsewhere is refused, and nobody else for that reason. */
  lemma FourAreEnough(s: State, user: nat, session: nat, now: int, t: State, reply: Result<nat, Error>)
    requires Inv(s) && Issues(s, user, session, now, t, reply)
    ensures reply == Err(UserTicketsFull) <==> |UsedBy(s.tickets, user, session, now)| >= 4
  {
    UsedIsActive(s, user, session, now);
  }

  /** The ticket handed out: for this user and session, with a token of its own and a minute to be used in. */
  ghost predicate HandsOut(s: State, t: State, id: nat, user: nat, session: nat, now: int) {
    && id in t.tickets && s.next <= id < t.next
    && var x := t.tickets[id];
       && x.user == user && x.session == session && x.phase == Pending && x.created == now && x.expires == now + 60
       && s.next <= x.token < t.next && x.token != id && x.finished == None && x.size == 0
  }

  lemma IssueHandsOut(s: State, user: nat, session: nat, now: int, t: State, reply: Result<nat, Error>)
    requires Inv(s) && Issues(s, user, session, now, t, reply) && reply.Ok?
    ensures HandsOut(s, t, reply.value, user, session, now)
    ensures forall x :: x in t.tickets && x != reply.value ==> x in s.tickets
  {
  }

  /** The table before room is looked for: tidied, and without the ticket being replaced. */
  predicate Survives(t: Table, id: nat, user: nat, session: nat, now: int) {
    id in t && !IsOld(t[id], now) && !(CanWait(t[id], now) && t[id].user == user && t[id].session == session)
  }

  lemma PreparedSurvives(t: Table, user: nat, session: nat, now: int)
    ensures forall id :: id in Prepared(t, user, session, now) <==> Survives(t, id, user, session, now)
    ensures forall id :: id in Prepared(t, user, session, now) ==>
              Prepared(t, user, session, now)[id] == Cleaned(t, now)[id]
  {
  }

  /** Finished, so that it can make room. */
  predicate IsDone(x: Ticket) {
    x.phase == Complete || x.phase == Failed
  }

  function DoneAt(x: Ticket): (at: int) {
    if x.finished.Some? then x.finished.value else 0
  }

  /**
    Besides the one being replaced and the old results an issue takes at most one
    ticket away, only from a full table, and the longest finished; it is refused
    for want of room exactly when every ticket of a full table is still in use.
  */
  lemma IssueMakesRoom(s: State, user: nat, session: nat, now: int, t: State, reply: Result<nat, Error>)
    requires Inv(s) && Issues(s, user, session, now, t, reply) && reply != Err(UserTicketsFull)
    ensures MakesRoom(Prepared(s.tickets, user, session, now), t.tickets, reply)
  {
    var ready, x := Prepared(s.tickets, user, session, now), NewTicket(s.next, user, session, now);
    var u :| Evicts(ready, u) && Added(s.next, u, x, t, reply);
    PreparingShrinks(s, user, session, now);
    SubsetIsSmaller(ready.Keys, s.tickets.Keys);
    EvictionIs(ready, u);
    AddingMakesRoom(ready, u, s.next, x, t, reply);
  }

  ghost predicate MakesRoom(ready: Table, t: Table, reply: Result<nat, Error>) {
    && (reply == Err(TicketsFull) <==> |ready| >= 128 && forall id :: id in ready ==> !IsDone(ready[id]))
    && (forall id :: id in t && id in ready ==> t[id] == ready[id])
    && (forall id :: id in ready && id !in t ==> IsDone(ready[id]) && |ready| >= 128)
    && (forall id, kept :: id in ready && id !in t && kept in ready && kept in t && IsDone(ready[kept]) ==>
          DoneAt(ready[id]) <= DoneAt(ready[kept]))
    && |t| >= (if |ready| >= 128 then 127 else |ready|) + if reply.Ok? then 1 else 0
  }

  lemma AddingMakesRoom(ready: Table, u: Table, id: nat, x: Ticket, t: State, reply: Result<nat, Error>)
    requires Evicts(ready, u) && Added(id, u, x, t, reply) && id !in ready
    requires |u| >= if |ready| >= 128 then 127 else |ready|
    requires |u| >= 128 <==> |ready| >= 128 && forall i :: i in ready ==> !IsDone(ready[i])
    requires forall i :: i in ready && i !in u ==> IsDone(ready[i]) && |ready| >= 128
    ensures MakesRoom(ready, t.tickets, reply)
  {
  }

  lemma EvictionIs(t: Table, u: Table)
    requires Evicts(t, u) && |t| <= 128
    ensures |u| >= if |t| >= 128 then 127 else |t|
    ensures |u| >= 128 <==> |t| >= 128 && forall id :: id in t ==> !IsDone(t[id])
    ensures forall id :: id in t && id !in u ==> IsDone(t[id]) && |t| >= 128
  {
    assert t.Keys == u.Keys + (t.Keys - u.Keys) && |t.Keys| == |u.Keys| + |t.Keys - u.Keys|;
    assert |u| >= 128 ==> t.Keys - u.Keys == {};
    assert (forall id :: id in t ==> !IsDone(t[id])) ==> t.Keys - u.Keys == {};
  }

  // ---- A ticket over a run ----

  /** The request issues the ticket: to this user and session, at this moment. */
  ghost predicate IssuedBy(s: State, e: Event, t: State, id: nat) {
    e.EIssue? && HandsOut(s, t, id, e.user, e.session, e.now)
  }

  /** The ticket is still the one that was handed out, whatever became of it. */
  predicate IsSame(x: Ticket, y: Ticket) {
    x.user == y.user && x.session == y.session && x.token == y.token && x.expires == y.expires
  }

  lemma TicketIsOldOrIssued(s: State, e: Event, t: State, id: nat)
    requires Inv(s) && Step(s, e, t) && id in t.tickets
    ensures IssuedBy(s, e, t, id) || (id in s.tickets && IsSame(s.tickets[id], t.tickets[id]))
  {
    if e.EIssue? {
      var reply :| Issues(s, e.user, e.session, e.now, t, reply);
      if reply.Ok? {
        IssueHandsOut(s, e.user, e.session, e.now, t, reply);
      }
      IssueShrinks(s, e, t, reply, id);
    }
  }

  lemma IssueShrinks(s: State, e: Event, t: State, reply: Result<nat, Error>, id: nat)
    requires Inv(s) && e.EIssue? && Issues(s, e.user, e.session, e.now, t, reply) && id in t.tickets
    ensures reply == Ok(id) || (id in s.tickets && IsSame(s.tickets[id], t.tickets[id]))
  {
    PreparingShrinks(s, e.user, e.session, e.now);
  }

  /** The step `i` issued the ticket `x`. */
  ghost predicate IsOrigin(ss: seq<State>, es: seq<Event>, id: nat, i: nat, x: Ticket) {
    && i < |es| && |ss| == |es| + 1 && IssuedBy(ss[i], es[i], ss[i + 1], id) && IsSame(ss[i + 1].tickets[id], x)
  }

  lemma {:induction false} TicketWasIssued(ss: seq<State>, es: seq<Event>, id: nat, j: nat) returns (i: nat)
    requires IsRun(ss, es) && j <= |es| && id in ss[j].tickets
    ensures i < j && IsOrigin(ss, es, id, i, ss[j].tickets[id])
    decreases j
  {
    assert j > 0;
    var s, e, t := ss[j - 1], es[j - 1], ss[j];
    RunKeepsInv(ss, es, j - 1);
    TicketIsOldOrIssued(s, e, t, id);
    if IssuedBy(s, e, t, id) {
      i := j - 1;
    } else {
      i := TicketWasIssued(ss, es, id, j - 1);
      SameOrigin(ss, es, id, i, s.tickets[id], t.tickets[id]);
    }
  }

  lemma SameOrigin(ss: seq<State>, es: seq<Event>, id: nat, i: nat, x: Ticket, y: Ticket)
    requires IsOrigin(ss, es, id, i, x) && IsSame(x, y)
    ensures IsOrigin(ss, es, id, i, y)
  {
  }

  /**
    In every run a download is opened by the user and session its ticket was issued
    to, with the token handed out then, and by a clock less than a minute later.
  */
  lemma OpenedInTime(ss: seq<State>, es: seq<Event>, id: nat, j: nat) returns (i: nat)
    requires IsRun(ss, es) && j < |es| && Opened(ss[j], es[j], id)
    ensures i < j && IssuedBy(ss[i], es[i], ss[i + 1], id)
    ensures es[j].user == es[i].user && es[j].session == es[i].session && es[j].now < es[i].now + 60
    ensures es[j].token == ss[i + 1].tickets[id].token
  {
    OpeningAnswers(ss[j], id, es[j].token, es[j].user, es[j].session, es[j].now);
    i := TicketWasIssued(ss, es, id, j);
  }
}
