/**
  The in-memory table of backup downloads. The clock is read before the lock is
  taken, so the times the table sees need not be in order; ids and tokens are
  random and never repeat, which a counter stands for. Times are in seconds.
*/
module DownloadTickets {
  import opened Sets
  import opened Wrappers

  const TICKET_TTL := 60
  const RESULT_RETENTION := 600
  const MAX_TICKETS := 128
  const MAX_ACTIVE_PER_USER := 4

  datatype Phase = Pending | Running | Complete | Failed {
    predicate Active() { Pending? || Running? }
  }

  datatype Ticket = Ticket(token: nat, user: nat, session: nat, created: int, expires: int, finished: Option<int>,
                           phase: Phase, size: nat)

  type Table = map<nat, Ticket>

  datatype State = State(tickets: Table, next: nat)

  datatype Error = TicketsFull | UserTicketsFull

  // ---- What each critical section does ----

  function Expired(x: Ticket, now: int): (r: Ticket) {
    if x.phase.Pending? && now >= x.expires then x.(phase := Failed, finished := Some(now)) else x
  }

  predicate Forgotten(x: Ticket, now: int) {
    !x.phase.Active() && x.finished.Some? && now >= x.finished.value + RESULT_RETENTION
  }

  /** A pending ticket past its time fails; a result past its retention is dropped. */
  function Cleaned(t: Table, now: int): (r: Table) {
    map id | id in t && !Forgotten(Expired(t[id], now), now) :: Expired(t[id], now)
  }

  predicate IsPendingOf(x: Ticket, user: nat, session: nat) {
    x.phase.Pending? && x.user == user && x.session == session
  }

  function WithoutPending(t: Table, user: nat, session: nat): (r: Table) {
    map id | id in t && !IsPendingOf(t[id], user, session) :: t[id]
  }

  function ActiveOf(t: Table, user: nat): (r: set<nat>) {
    set id | id in t && t[id].user == user && t[id].phase.Active()
  }

  /** `u` is `t` without as many of its longest finished tickets as make room, or without all of them. */
  ghost predicate Evicts(t: Table, u: Table) {
    && (forall id :: id in u ==> id in t && u[id] == t[id])
    && (forall id :: id in t && id !in u ==> !t[id].phase.Active())
    && (|u| < MAX_TICKETS || forall id :: id in u ==> u[id].phase.Active())
    && (|t| < MAX_TICKETS ==> u == t)
    && (u != t ==> |u| >= MAX_TICKETS - 1)
    && (forall id, kept :: id in t && id !in u && kept in u && !u[kept].phase.Active() ==>
          FinishedAt(t[id]) <= FinishedAt(u[kept]))
  }

  function FinishedAt(x: Ticket): (at: int) {
    if x.finished.Some? then x.finished.value else 0
  }

  datatype Event =
    | EIssue(user: nat, session: nat, now: int)
    | EConsume(id: nat, token: nat, user: nat, session: nat, now: int)
    | EComplete(id: nat, size: nat, now: int)
    | EFail(id: nat, now: int)
    | EStatus(user: nat, now: int)

  /** The table before an issue looks for room: tidied, and without the caller's own pending ticket. */
  function Prepared(t: Table, user: nat, session: nat, now: int): (r: Table) {
    WithoutPending(Cleaned(t, now), user, session)
  }

  ghost predicate Issues(s: State, user: nat, session: nat, now: int, t: State, reply: Result<nat, Error>) {
    var ready := Prepared(s.tickets, user, session, now);
    if |ActiveOf(ready, user)| >= MAX_ACTIVE_PER_USER then t == s.(tickets := ready) && reply == Err(UserTicketsFull)
    else exists u :: Evicts(ready, u) && Added(s.next, u, NewTicket(s.next, user, session, now), t, reply)
  }

  function NewTicket(id: nat, user: nat, session: nat, now: int): (x: Ticket) {
    Ticket(id + 1, user, session, now, now + TICKET_TTL, None, Pending, 0)
  }

  predicate Added(id: nat, u: Table, x: Ticket, t: State, reply: Result<nat, Error>) {
    if |u| >= MAX_TICKETS then t == State(u, id) && reply == Err(TicketsFull)
    else t == State(u[id := x], id + 2) && reply == Ok(id)
  }

  predicate Opens(t: Table, id: nat, token: nat, user: nat, session: nat, now: int) {
    && id in t && t[id].phase.Pending? && now < t[id].expires
    && t[id].token == token && t[id].user == user && t[id].session == session
  }

  function Consumed(s: State, id: nat, token: nat, user: nat, session: nat, now: int): (r: (State, bool)) {
    var t := Cleaned(s.tickets, now);
    if Opens(t, id, token, user, session, now) then (s.(tickets := t[id := t[id].(phase := Running)]), true)
    else (s.(tickets := t), false)
  }

  function Completed(t: Table, id: nat, size: nat, now: int): (r: Table) {
    if id in t && t[id].phase.Running?
      then t[id := t[id].(phase := Complete, size := size, finished := Some(now))]
      else t
  }

  function Broken(t: Table, id: nat, now: int): (r: Table) {
    if id in t && t[id].phase.Active() then t[id := t[id].(phase := Failed, finished := Some(now))] else t
  }

  /** One critical section. */
  ghost predicate Step(s: State, e: Event, t: State) {
    match e
    case EIssue(user, session, now) => exists reply :: Issues(s, user, session, now, t, reply)
    case EConsume(id, token, user, session, now) => t == Consumed(s, id, token, user, session, now).0
    case EComplete(id, size, now) => t == s.(tickets := Completed(s.tickets, id, size, now))
    case EFail(id, now) => t == s.(tickets := Broken(s.tickets, id, now))
    case EStatus(_, now) => t == s.(tickets := Cleaned(s.tickets, now))
  }

  /** A run: the states between the critical sections, in the order the lock was taken. */
  ghost predicate IsRun(ss: seq<State>, es: seq<Event>) {
    && |ss| == |es| + 1 && ss[0] == State(map[], 0)
    && forall i :: 0 <= i < |es| ==> Step(ss[i], es[i], ss[i + 1])
  }

  // ---- What every state keeps ----

  ghost predicate OnePending(t: Table) {
    forall a, b ::
      (a in t && b in t && t[a].phase.Pending? && t[b].phase.Pending? && t[a].user == t[b].user
       && t[a].session == t[b].session) ==> a == b
  }

  ghost predicate FewActive(t: Table) {
    forall user :: |ActiveOf(t, user)| <= MAX_ACTIVE_PER_USER
  }

  ghost predicate Inv(s: State) {
    && |s.tickets| <= MAX_TICKETS
    && FewActive(s.tickets)
    && OnePending(s.tickets)
    && (forall id :: id in s.tickets ==> id < s.next)
    && (forall id :: id in s.tickets ==> (s.tickets[id].phase.Active() <==> s.tickets[id].finished.None?))
  }

  /** Tickets only disappear or move on. */
  ghost predicate Shrinks(t: Table, u: Table) {
    forall id :: id in u ==>
      && id in t && u[id].user == t[id].user && u[id].session == t[id].session && u[id].token == t[id].token
      && u[id].created == t[id].created && u[id].expires == t[id].expires
      && MovesOn(t[id].phase, u[id].phase) && (u[id].phase.Active() <==> u[id].finished.None?)
      && (t[id].phase == u[id].phase ==> u[id] == t[id])
  }

  /** Pending to running to finished, or pending straight to failed. */
  predicate MovesOn(a: Phase, b: Phase) {
    || a == b
    || (a.Pending? && (b.Running? || b.Failed?))
    || (a.Running? && (b.Complete? || b.Failed?))
  }

  lemma ShrinkingKeepsInv(s: State, u: Table)
    requires Inv(s) && Shrinks(s.tickets, u)
    ensures Inv(s.(tickets := u))
  {
    assert u.Keys <= s.tickets.Keys;
    SubsetIsSmaller(u.Keys, s.tickets.Keys);
    forall user ensures |ActiveOf(u, user)| <= MAX_ACTIVE_PER_USER {
      assert ActiveOf(u, user) <= ActiveOf(s.tickets, user);
      SubsetIsSmaller(ActiveOf(u, user), ActiveOf(s.tickets, user));
    }
  }

  lemma CleaningShrinks(s: State, now: int)
    requires Inv(s)
    ensures Shrinks(s.tickets, Cleaned(s.tickets, now))
  {
  }

  lemma PreparingShrinks(s: State, user: nat, session: nat, now: int)
    requires Inv(s)
    ensures Shrinks(s.tickets, Prepared(s.tickets, user, session, now))
    ensures forall id :: id in Prepared(s.tickets, user, session, now) ==>
              !IsPendingOf(Prepared(s.tickets, user, session, now)[id], user, session)
  {
  }

  lemma EvictionShrinks(s: State, u: Table)
    requires Inv(s) && Evicts(s.tickets, u)
    ensures Shrinks(s.tickets, u)
    ensures forall user :: ActiveOf(u, user) == ActiveOf(s.tickets, user)
  {
  }

  lemma AddingKeepsFew(t: Table, id: nat, x: Ticket)
    requires FewActive(t) && id !in t && |ActiveOf(t, x.user)| < MAX_ACTIVE_PER_USER
    ensures FewActive(t[id := x])
  {
    var u := t[id := x];
    forall user ensures |ActiveOf(u, user)| <= MAX_ACTIVE_PER_USER {
      assert ActiveOf(u, user) <= ActiveOf(t, user) + {id};
      if user == x.user {
        SubsetIsSmaller(ActiveOf(u, user), ActiveOf(t, user) + {id});
      } else {
        assert ActiveOf(u, user) == ActiveOf(t, user);
      }
    }
  }

  lemma AddingKeepsOnePending(t: Table, id: nat, x: Ticket)
    requires OnePending(t) && forall i :: i in t ==> !IsPendingOf(t[i], x.user, x.session)
    ensures OnePending(t[id := x])
  {
  }

  lemma AddingKeepsInv(s: State, x: Ticket)
    requires Inv(s) && |s.tickets| < MAX_TICKETS && |ActiveOf(s.tickets, x.user)| < MAX_ACTIVE_PER_USER
    requires x.phase.Pending? && x.finished.None?
    requires forall id :: id in s.tickets ==> !IsPendingOf(s.tickets[id], x.user, x.session)
    ensures Inv(State(s.tickets[s.next := x], s.next + 2))
  {
    AddingKeepsFew(s.tickets, s.next, x);
    AddingKeepsOnePending(s.tickets, s.next, x);
  }

  lemma IssueKeepsInv(s: State, user: nat, session: nat, now: int, t: State, reply: Result<nat, Error>)
    requires Inv(s) && Issues(s, user, session, now, t, reply)
    ensures Inv(t)
  {
    var ready := s.(tickets := Prepared(s.tickets, user, session, now));
    PreparingShrinks(s, user, session, now);
    ShrinkingKeepsInv(s, ready.tickets);
    if |ActiveOf(ready.tickets, user)| < MAX_ACTIVE_PER_USER {
      var u :| Evicts(ready.tickets, u) && Added(s.next, u, NewTicket(s.next, user, session, now), t, reply);
      RoomKeepsInv(ready, u, NewTicket(s.next, user, session, now), t, reply);
    }
  }

  lemma RoomKeepsInv(s: State, u: Table, x: Ticket, t: State, reply: Result<nat, Error>)
    requires Inv(s) && Evicts(s.tickets, u) && Added(s.next, u, x, t, reply)
    requires |ActiveOf(s.tickets, x.user)| < MAX_ACTIVE_PER_USER && x.phase.Pending? && x.finished.None?
    requires forall id :: id in s.tickets ==> !IsPendingOf(s.tickets[id], x.user, x.session)
    ensures Inv(t)
  {
    EvictionShrinks(s, u);
    ShrinkingKeepsInv(s, u);
    if |u| < MAX_TICKETS {
      AddingKeepsInv(s.(tickets := u), x);
    }
  }

  lemma ConsumingShrinks(s: State, e: Event)
    requires Inv(s) && e.EConsume?
    ensures var t := Consumed(s, e.id, e.token, e.user, e.session, e.now).0;
            Shrinks(s.tickets, t.tickets) && t.next == s.next
  {
  }

  lemma EndingShrinks(s: State, e: Event, t: State)
    requires Inv(s) && Step(s, e, t) && (e.EComplete? || e.EFail?)
    ensures Shrinks(s.tickets, t.tickets) && t.next == s.next
  {
  }

  lemma StepKeepsInv(s: State, e: Event, t: State)
    requires Inv(s) && Step(s, e, t)
    ensures Inv(t)
  {
    if e.EIssue? {
      var reply :| Issues(s, e.user, e.session, e.now, t, reply);
      IssueKeepsInv(s, e.user, e.session, e.now, t, reply);
    } else {
      if e.EConsume? {
        ConsumingShrinks(s, e);
      } else if e.EStatus? {
        CleaningShrinks(s, e.now);
      } else {
        EndingShrinks(s, e, t);
      }
      ShrinkingKeepsInv(s, t.tickets);
    }
  }

  /** Every state of every run: at most 128 tickets, four active per user, one pending per user and session. */
  lemma {:induction false} RunKeepsInv(ss: seq<State>, es: seq<Event>, i: nat)
    requires IsRun(ss, es) && i <= |es|
    ensures Inv(ss[i])
  {
    if i == 0 {
      assert forall user :: ActiveOf(ss[0].tickets, user) == {};
    } else {
      RunKeepsInv(ss, es, i - 1);
      StepKeepsInv(ss[i - 1], es[i - 1], ss[i]);
    }
  }

  // ---- What one ticket goes through ----

  /** The ticket `id` from one state to the next: it appears pending, moves on, or is gone for good. */
  ghost predicate Follows(s: State, t: State, id: nat) {
    && s.next <= t.next
    && (id in t.tickets && id < s.next ==>
          id in s.tickets && MovesOn(s.tickets[id].phase, t.tickets[id].phase))
  }

  lemma StepFollows(s: State, e: Event, t: State, id: nat)
    requires Inv(s) && Step(s, e, t)
    ensures Follows(s, t, id)
    ensures id in t.tickets && id !in s.tickets ==> t.tickets[id].phase.Pending?
  {
    if e.EIssue? {
      var reply :| Issues(s, e.user, e.session, e.now, t, reply);
      PreparingShrinks(s, e.user, e.session, e.now);
    }
  }

  /** A running ticket stays, and stays running until its own download ends. */
  lemma RunningIsKept(s: State, e: Event, t: State, id: nat)
    requires Inv(s) && Step(s, e, t) && id in s.tickets && s.tickets[id].phase.Running?
    ensures id in t.tickets
    ensures t.tickets[id].phase.Running? || ((e.EComplete? || e.EFail?) && e.id == id)
    ensures e.EComplete? && e.id == id ==> t.tickets[id].phase.Complete?
    ensures t.tickets[id].token == s.tickets[id].token && t.tickets[id].user == s.tickets[id].user
  {
    if e.EIssue? {
      RunningOutlivesIssue(s, e, t, id);
    }
  }

  lemma RunningOutlivesIssue(s: State, e: Event, t: State, id: nat)
    requires Step(s, e, t) && e.EIssue? && id in s.tickets && s.tickets[id].phase.Running? && id < s.next
    ensures id in t.tickets && t.tickets[id] == s.tickets[id]
  {
  }

  ghost predicate Opened(s: State, e: Event, id: nat) {
    e.EConsume? && e.id == id && Consumed(s, e.id, e.token, e.user, e.session, e.now).1
  }

  /** No longer pending, and never again. */
  predicate Used(s: State, id: nat) {
    id < s.next && (id in s.tickets ==> !s.tickets[id].phase.Pending?)
  }

  lemma {:induction false} UsedStays(ss: seq<State>, es: seq<Event>, id: nat, i: nat, j: nat)
    requires IsRun(ss, es) && i <= j <= |es| && Used(ss[i], id)
    ensures Used(ss[j], id)
    decreases j
  {
    if i < j {
      UsedStays(ss, es, id, i, j - 1);
      RunKeepsInv(ss, es, j - 1);
      StepStaysUsed(ss[j - 1], es[j - 1], ss[j], id);
    }
  }

  lemma StepStaysUsed(s: State, e: Event, t: State, id: nat)
    requires Inv(s) && Step(s, e, t) && Used(s, id)
    ensures Used(t, id)
  {
    StepFollows(s, e, t, id);
    NextOnlyGrows(s, e, t);
  }

  lemma NextOnlyGrows(s: State, e: Event, t: State)
    requires Step(s, e, t)
    ensures t.next >= s.next
  {
  }

  /** A ticket is opened at most once, however late and by whomever its link is presented again. */
  lemma OpenedAtMostOnce(ss: seq<State>, es: seq<Event>, id: nat, i: nat, j: nat)
    requires IsRun(ss, es) && i < j < |es| && Opened(ss[i], es[i], id)
    ensures !Opened(ss[j], es[j], id)
  {
    RunKeepsInv(ss, es, i);
    UsedStays(ss, es, id, i + 1, j);
  }

  // ---- When an issue is refused ----

  /** Finished tickets never keep a new one out: the table is full only of tickets still in use. */
  lemma FullMeansAllActive(s: State, user: nat, session: nat, now: int, t: State, reply: Result<nat, Error>)
    requires Inv(s) && Issues(s, user, session, now, t, reply)
    ensures reply == Err(TicketsFull) ==>
              |t.tickets| == MAX_TICKETS && forall id :: id in t.tickets ==> t.tickets[id].phase.Active()
  {
    IssueKeepsInv(s, user, session, now, t, reply);
  }

  /** A link opens exactly while its ticket is pending and in time, for the session it was issued to. */
  lemma OpensExactly(s: State, id: nat, token: nat, user: nat, session: nat, now: int)
    ensures Consumed(s, id, token, user, session, now).1 <==> Opens(s.tickets, id, token, user, session, now)
  {
  }

  // ---- The table as an object ----

  class Downloads {
    var tickets: Table
    var next: nat

    ghost function St(): (s: State)
      reads this
    {
      State(tickets, next)
    }

    ghost predicate Valid()
      reads this
    {
      Inv(St())
    }

    constructor ()
      ensures Valid() && St() == State(map[], 0)
    {
      tickets, next := map[], 0;
      new;
      assert forall user :: ActiveOf(tickets, user) == {};
    }

    /** Visits every ticket once, in whatever order the map yields them. */
    method Cleanup(now: int)
      modifies `tickets
      ensures tickets == Cleaned(old(tickets), now)
    {
      ghost var was := tickets;
      var left := tickets.Keys;
      while left != {}
        invariant left <= was.Keys && tickets.Keys <= was.Keys
        invariant forall id :: id in left ==> id in tickets && tickets[id] == was[id]
        invariant forall id :: id in was.Keys - left ==>
                    (id in tickets <==> !Forgotten(Expired(was[id], now), now))
                    && (id in tickets ==> tickets[id] == Expired(was[id], now))
      {
        var id: nat :| id in left;
        left := left - {id};
        if tickets[id].phase.Pending? && now >= tickets[id].expires {
          tickets := tickets[id := tickets[id].(phase := Failed, finished := Some(now))];
        }
        if !tickets[id].phase.Active() && tickets[id].finished.Some?
           && now >= tickets[id].finished.value + RESULT_RETENTION {
          tickets := tickets - {id};
        }
      }
    }

    /** Drops the caller's own pending ticket and counts the user's active ones. */
    method ReplacePending(user: nat, session: nat) returns (active: nat)
      modifies `tickets
      ensures tickets == WithoutPending(old(tickets), user, session)
      ensures active == |ActiveOf(tickets, user)|
    {
      ghost var was := tickets;
      ghost var counted: set<nat> := {};
      active := 0;
      var left := tickets.Keys;
      while left != {}
        invariant left <= was.Keys && tickets.Keys <= was.Keys && active == |counted|
        invariant forall id :: id in tickets ==> tickets[id] == was[id]
        invariant left <= tickets.Keys
        invariant forall id :: id in was.Keys - left ==> (id in tickets <==> !IsPendingOf(was[id], user, session))
        invariant forall id :: id in counted <==>
                    id in tickets && id !in left && was[id].user == user && was[id].phase.Active()
      {
        var id: nat :| id in left;
        left := left - {id};
        if IsPendingOf(tickets[id], user, session) {
          tickets := tickets - {id};
        } else if tickets[id].user == user && tickets[id].phase.Active() {
          active := active + 1;
          counted := counted + {id};
        }
      }
      assert counted == ActiveOf(tickets, user);
    }

    /** The longest finished ticket, if any ticket is finished. */
    method OldestFinished() returns (oldest: Option<nat>)
      ensures oldest.None? ==> forall id :: id in tickets ==> tickets[id].phase.Active()
      ensures oldest.Some? ==>
                && oldest.value in tickets && !tickets[oldest.value].phase.Active()
                && forall id :: id in tickets && !tickets[id].phase.Active() ==>
                     FinishedAt(tickets[oldest.value]) <= FinishedAt(tickets[id])
    {
      oldest := None;
      var left := tickets.Keys;
      while left != {}
        invariant left <= tickets.Keys
        invariant oldest.None? ==> forall id :: id in tickets && id !in left ==> tickets[id].phase.Active()
        invariant oldest.Some? ==>
                    && oldest.value in tickets && !tickets[oldest.value].phase.Active()
                    && forall id :: id in tickets && id !in left && !tickets[id].phase.Active() ==>
                         FinishedAt(tickets[oldest.value]) <= FinishedAt(tickets[id])
      {
        var id: nat :| id in left;
        left := left - {id};
        if !tickets[id].phase.Active()
           && (oldest.None? || FinishedAt(tickets[id]) < FinishedAt(tickets[oldest.value])) {
          oldest := Some(id);
        }
      }
    }

    /** Makes room by dropping finished tickets, the longest finished first. */
    method EvictFinished()
      modifies `tickets
      ensures Evicts(old(tickets), tickets)
    {
      ghost var was := tickets;
      while |tickets| >= MAX_TICKETS
        invariant forall id :: id in tickets ==> id in was && tickets[id] == was[id]
        invariant forall id :: id in was && id !in tickets ==> !was[id].phase.Active()
        invariant |was| < MAX_TICKETS ==> tickets == was
        invariant tickets != was ==> |tickets| >= MAX_TICKETS - 1
        invariant forall id, kept :: id in was && id !in tickets && kept in tickets && !tickets[kept].phase.Active() ==>
                    FinishedAt(was[id]) <= FinishedAt(tickets[kept])
        decreases |tickets|
      {
        var oldest := OldestFinished();
        if oldest.None? {
          return;
        }
        assert tickets.Keys == (tickets - {oldest.value}).Keys + {oldest.value};
        tickets := tickets - {oldest.value};
      }
    }

    method Issue(user: nat, session: nat, now: int) returns (reply: Result<nat, Error>)
      requires Valid()
      modifies this
      ensures Valid() && Issues(old(St()), user, session, now, St(), reply)
    {
      Cleanup(now);
      var active := ReplacePending(user, session);
      assert tickets == Prepared(old(tickets), user, session, now);
      if active >= MAX_ACTIVE_PER_USER {
        reply := Err(UserTicketsFull);
      } else {
        EvictFinished();
        ghost var room := tickets;
        if |tickets| >= MAX_TICKETS {
          reply := Err(TicketsFull);
        } else {
          tickets := tickets[next := NewTicket(next, user, session, now)];
          reply := Ok(next);
          next := next + 2;
        }
        assert Added(old(next), room, NewTicket(old(next), user, session, now), St(), reply);
      }
      IssueKeepsInv(old(St()), user, session, now, St(), reply);
    }

    method Consume(id: nat, token: nat, user: nat, session: nat, now: int) returns (ok: bool)
      requires Valid()
      modifies this
      ensures Valid() && (St(), ok) == Consumed(old(St()), id, token, user, session, now)
    {
      StepKeepsInv(St(), EConsume(id, token, user, session, now), Consumed(St(), id, token, user, session, now).0);
      Cleanup(now);
      if id !in tickets || !tickets[id].phase.Pending? || now >= tickets[id].expires {
        return false;
      }
      if tickets[id].token != token || tickets[id].user != user || tickets[id].session != session {
        return false;
      }
      tickets := tickets[id := tickets[id].(phase := Running)];
      ok := true;
    }

    method Finish(id: nat, size: nat, now: int)
      requires Valid()
      modifies this
      ensures Valid() && St() == old(St()).(tickets := Completed(old(tickets), id, size, now))
    {
      StepKeepsInv(St(), EComplete(id, size, now), St().(tickets := Completed(tickets, id, size, now)));
      if id in tickets && tickets[id].phase.Running? {
        tickets := tickets[id := tickets[id].(phase := Complete, size := size, finished := Some(now))];
      }
    }

    method Fail(id: nat, now: int)
      requires Valid()
      modifies this
      ensures Valid() && St() == old(St()).(tickets := Broken(old(tickets), id, now))
    {
      StepKeepsInv(St(), EFail(id, now), St().(tickets := Broken(tickets, id, now)));
      if id in tickets && tickets[id].phase.Active() {
        tickets := tickets[id := tickets[id].(phase := Failed, finished := Some(now))];
      }
    }

    /** Only the owner sees a ticket, whichever session asks. */
    method Status(id: nat, user: nat, now: int) returns (found: Option<Ticket>)
      requires Valid()
      modifies this
      ensures Valid() && St() == old(St()).(tickets := Cleaned(old(tickets), now))
      ensures found == if id in tickets && tickets[id].user == user then Some(tickets[id]) else None
    {
      StepKeepsInv(St(), EStatus(user, now), St().(tickets := Cleaned(tickets, now)));
      Cleanup(now);
      found := if id in tickets && tickets[id].user == user then Some(tickets[id]) else None;
    }
  }
}
