/**
  Who administers the instance: accounts, their roles and the sessions opened
  with them. A committed transaction is one step; a password or token that a
  caller must show is checked before these steps and is not modelled.
*/
module Ownership {
  import opened Sets
  import opened Wrappers

  datatype Role = Owner | Admin | Editor | Viewer {
    predicate IsAdmin() { Owner? || Admin? }
  }

  datatype Status = Active | Disabled | Pending

  datatype User = User(role: Role, status: Status, epoch: nat, email: nat)

  /** A live session and whether its account administered when it logged in. */
  datatype Login = Login(user: nat, asAdmin: bool)

  datatype State = State(next: nat, users: map<nat, User>, logins: map<nat, Login>)

  datatype Error =
    | AlreadySetUp | EmailTaken | SeatTaken | NoUser | InvalidRole | InvalidStatus | OwnerImmutable | LastAdmin
    | SelfTarget | NotTransferable

  datatype Reply = Failed(error: Error) | Done(id: nat)

  type Outcome = (State, Reply)

  predicate AnyActive(s: State) {
    exists u :: u in s.users && s.users[u].status.Active?
  }

  predicate IsPlaceholder(s: State, id: nat) {
    id in s.users && s.users[id].role.IsAdmin() && s.users[id].status.Pending?
  }

  /** The pending administrator with the smallest id. */
  predicate IsOldestPlaceholder(s: State, id: nat) {
    IsPlaceholder(s, id) && forall u :: IsPlaceholder(s, u) ==> id <= u
  }

  /** The unique index on addresses refuses the row `id` with this address. */
  predicate EmailRefused(s: State, id: nat, email: nat) {
    exists u :: u in s.users && u != id && s.users[u].email == email
  }

  /** The single-owner index refuses the row `id` as an owner. */
  predicate SeatRefused(s: State, id: nat) {
    exists u :: u in s.users && u != id && s.users[u].role.Owner?
  }

  /** Seats the first owner in the row `id`, claimed or new. */
  function Seat(s: State, id: nat, email: nat): (r: Outcome) {
    if EmailRefused(s, id, email) then (s, Failed(EmailTaken))
    else if SeatRefused(s, id) then (s, Failed(SeatTaken))
    else
      var epoch := if id in s.users then s.users[id].epoch else 0;
      (s.(next := if id < s.next then s.next else id + 1, users := s.users[id := User(Owner, Active, epoch, email)]),
       Done(id))
  }

  ghost function Bootstrap(s: State, email: nat): (r: Outcome) {
    if AnyActive(s) then (s, Failed(AlreadySetUp))
    else if id :| IsOldestPlaceholder(s, id) then Seat(s, id, email)
    else Seat(s, s.next, email)
  }

  function Insert(s: State, role: Role, email: nat): (r: Outcome) {
    if EmailRefused(s, s.next, email) then (s, Failed(EmailTaken))
    else (s.(next := s.next + 1, users := s.users[s.next := User(role, Active, 0, email)]), Done(s.next))
  }

  /** An administrator creates an account, or an invitation is accepted. */
  function CreateUser(s: State, role: Role, email: nat): (r: Outcome) {
    if role.Owner? then (s, Failed(InvalidRole)) else Insert(s, role, email)
  }

  /** A provider account provisions itself. */
  function Provision(s: State, role: Role, email: nat): (r: Outcome) {
    if role.IsAdmin() then (s, Failed(InvalidRole)) else Insert(s, role, email)
  }

  function ActiveAdmins(s: State): (r: set<nat>) {
    set u | u in s.users && s.users[u].role.IsAdmin() && s.users[u].status.Active?
  }

  /** Whether removing the account from the administrators would leave none. */
  predicate IsLastAdmin(s: State, id: nat)
    requires id in s.users
  {
    s.users[id].role.IsAdmin() && s.users[id].status.Active? && |ActiveAdmins(s)| <= 1
  }

  predicate IsDemoteOrDisable(role: Option<Role>, status: Option<Status>) {
    (role.Some? && !role.value.IsAdmin()) || status == Some(Disabled)
  }

  predicate IsPromotion(previous: Role, role: Option<Role>) {
    role.Some? && !previous.IsAdmin() && role.value.IsAdmin()
  }

  function WithoutLogins(s: State, uids: set<nat>): (r: State) {
    s.(logins := map l | l in s.logins && s.logins[l].user !in uids :: s.logins[l])
  }

  function Edited(u: User, role: Option<Role>, status: Option<Status>): (r: User) {
    User(if role.Some? then role.value else u.role,
         if status.Some? then status.value else u.status, u.epoch + 1, u.email)
  }

  /** The handler admits assignable roles and two statuses; the rest is one transaction. */
  function UpdateUser(s: State, id: nat, role: Option<Role>, status: Option<Status>): (r: Outcome) {
    if role == Some(Owner) then (s, Failed(InvalidRole))
    else if status == Some(Pending) then (s, Failed(InvalidStatus))
    else if id !in s.users then (s, Failed(NoUser))
    else if role.None? && status.None? then (s, Done(id))
    else if s.users[id].role.Owner? then (s, Failed(OwnerImmutable))
    else if IsDemoteOrDisable(role, status) && IsLastAdmin(s, id) then (s, Failed(LastAdmin))
    else
      var t := s.(users := s.users[id := Edited(s.users[id], role, status)]);
      (if IsPromotion(s.users[id].role, role) then WithoutLogins(t, {id}) else t, Done(id))
  }

  function DeleteUser(s: State, id: nat): (r: Outcome) {
    if id !in s.users then (s, Failed(NoUser))
    else if s.users[id].role.Owner? then (s, Failed(OwnerImmutable))
    else if IsLastAdmin(s, id) then (s, Failed(LastAdmin))
    else (WithoutLogins(s.(users := s.users - {id}), {id}), Done(id))
  }

  /**
    One UPDATE over both rows. The code counts on the single-owner index being
    checked once for the statement; a database that checks a plain unique index
    after each row refuses the promotion when it visits the new owner first, and
    `promotedFirst` leaves that to the environment.
  */
  function Transfer(s: State, from: nat, to: nat, promotedFirst: bool): (r: Outcome) {
    if from == to then (s, Failed(SelfTarget))
    else if from !in s.users || to !in s.users then (s, Failed(NoUser))
    else if !s.users[from].role.Owner? then (s, Failed(OwnerImmutable))
    else if !s.users[to].status.Active? then (s, Failed(NotTransferable))
    else if promotedFirst then (s, Failed(SeatTaken))
    else
      (WithoutLogins(s.(users := s.users[from := s.users[from].(role := Admin, epoch := s.users[from].epoch + 1)]
                                        [to := s.users[to].(role := Owner, epoch := s.users[to].epoch + 1)]),
                     {from, to}),
       Done(to))
  }

  function LogIn(s: State, uid: nat): (r: Outcome) {
    if uid !in s.users || !s.users[uid].status.Active? then (s, Failed(NoUser))
    else (s.(next := s.next + 1, logins := s.logins[s.next := Login(uid, s.users[uid].role.IsAdmin())]), Done(s.next))
  }

  function LogOut(s: State, id: nat): (r: Outcome) {
    (s.(logins := s.logins - {id}), Done(id))
  }

  datatype Event =
    | EBootstrap(email: nat)
    | ECreateUser(role: Role, email: nat)
    | EProvision(role: Role, email: nat)
    | EUpdateUser(id: nat, newRole: Option<Role>, newStatus: Option<Status>)
    | EDeleteUser(id: nat)
    | ETransfer(from: nat, to: nat, promotedFirst: bool)
    | ELogIn(uid: nat)
    | ELogOut(id: nat)

  ghost function Step(s: State, e: Event): (r: Outcome) {
    match e
    case EBootstrap(email) => Bootstrap(s, email)
    case ECreateUser(role, email) => CreateUser(s, role, email)
    case EProvision(role, email) => Provision(s, role, email)
    case EUpdateUser(id, role, status) => UpdateUser(s, id, role, status)
    case EDeleteUser(id) => DeleteUser(s, id)
    case ETransfer(from, to, promotedFirst) => Transfer(s, from, to, promotedFirst)
    case ELogIn(uid) => LogIn(s, uid)
    case ELogOut(id) => LogOut(s, id)
  }

  ghost function Play(s: State, es: seq<Event>): (t: State) {
    if es == [] then s else Step(Play(s, es[..|es| - 1]), es[|es| - 1]).0
  }

  // ---- What the tables always satisfy ----

  /** The two unique indexes, ids from one counter, and no session older than its account's rank. */
  predicate Inv(s: State) {
    && (forall u :: u in s.users ==> u < s.next)
    && (forall u, v :: u in s.users && v in s.users && s.users[u].role.Owner? && s.users[v].role.Owner? ==> u == v)
    && (forall u, v :: u in s.users && v in s.users && s.users[u].email == s.users[v].email ==> u == v)
    && (forall l :: l in s.logins ==> l < s.next && LoginInv(s, s.logins[l]))
  }

  predicate LoginInv(s: State, l: Login) {
    l.user in s.users && !s.users[l.user].status.Pending? && (s.users[l.user].role.IsAdmin() ==> l.asAdmin)
  }

  /** A migrated database: any accounts the indexes admit, and nobody logged in. */
  predicate Migrated(s: State) {
    Inv(s) && s.logins == map[]
  }

  predicate HoldsSeat(s: State, o: nat) {
    o in s.users && s.users[o].role.Owner? && s.users[o].status.Active?
  }

  predicate IsOnlyOwner(s: State, o: nat) {
    forall u :: u in s.users && s.users[u].role.Owner? ==> u == o
  }

  /** Somebody holds the seat, and can log in. */
  ghost predicate Owned(s: State) {
    exists o :: HoldsSeat(s, o)
  }

  /** Exactly one account is marked as the owner, and it is active. */
  ghost predicate OneActiveOwner(s: State) {
    exists o: nat :: HoldsSeat(s, o) && IsOnlyOwner(s, o)
  }

  lemma SeatKeepsInv(s: State, id: nat, email: nat)
    requires Inv(s) && !AnyActive(s) && (id in s.users ==> s.users[id].status.Pending?)
             && (id in s.users || id == s.next)
    ensures Inv(Seat(s, id, email).0)
    ensures Seat(s, id, email).1.Done? ==> Owned(Seat(s, id, email).0)
  {
    assert Seat(s, id, email).1.Done? ==> HoldsSeat(Seat(s, id, email).0, id);
  }

  lemma TransferKeepsInv(s: State, from: nat, to: nat, promotedFirst: bool)
    requires Inv(s)
    ensures Inv(Transfer(s, from, to, promotedFirst).0)
  {
  }

  lemma UpdateKeepsInv(s: State, id: nat, role: Option<Role>, status: Option<Status>)
    requires Inv(s)
    ensures Inv(UpdateUser(s, id, role, status).0)
  {
    if UpdateUser(s, id, role, status).0 != s {
      EditKeepsInv(s, id, role, status);
    }
  }

  lemma EditKeepsInv(s: State, id: nat, role: Option<Role>, status: Option<Status>)
    requires Inv(s) && id in s.users && !s.users[id].role.Owner? && role != Some(Owner) && status != Some(Pending)
    ensures var t := s.(users := s.users[id := Edited(s.users[id], role, status)]);
            Inv(if IsPromotion(s.users[id].role, role) then WithoutLogins(t, {id}) else t)
  {
  }

  lemma BootstrapKeepsInv(s: State, email: nat)
    requires Inv(s)
    ensures Inv(Bootstrap(s, email).0)
  {
    if !AnyActive(s) {
      if id :| IsOldestPlaceholder(s, id) && Bootstrap(s, email) == Seat(s, id, email) {
        SeatKeepsInv(s, id, email);
      } else {
        SeatKeepsInv(s, s.next, email);
      }
    }
  }

  lemma InsertKeepsInv(s: State, role: Role, email: nat)
    requires Inv(s) && !role.Owner?
    ensures Inv(Insert(s, role, email).0)
  {
  }

  lemma StepKeepsInv(s: State, e: Event)
    requires Inv(s)
    ensures Inv(Step(s, e).0)
  {
    match e
    case EBootstrap(email) => BootstrapKeepsInv(s, email);
    case ECreateUser(role, email) =>
      if !role.Owner? {
        InsertKeepsInv(s, role, email);
      }
    case EProvision(role, email) =>
      if !role.IsAdmin() {
        InsertKeepsInv(s, role, email);
      }
    case EUpdateUser(id, role, status) => UpdateKeepsInv(s, id, role, status);
    case ETransfer(from, to, promotedFirst) => TransferKeepsInv(s, from, to, promotedFirst);
    case EDeleteUser(id) => DeleteKeepsInv(s, id);
    case ELogIn(uid) => LogInKeepsInv(s, uid);
    case ELogOut(_) =>
  }

  lemma DeleteKeepsInv(s: State, id: nat)
    requires Inv(s)
    ensures Inv(DeleteUser(s, id).0)
  {
  }

  lemma LogInKeepsInv(s: State, uid: nat)
    requires Inv(s)
    ensures Inv(LogIn(s, uid).0)
  {
  }

  lemma {:induction false} PlayKeepsInv(s: State, es: seq<Event>)
    requires Inv(s)
    ensures Inv(Play(s, es))
  {
    if es != [] {
      PlayKeepsInv(s, es[..|es| - 1]);
      StepKeepsInv(Play(s, es[..|es| - 1]), es[|es| - 1]);
    }
  }

  // ---- The seat is never lost ----

  lemma StepKeepsOwner(s: State, e: Event)
    requires Owned(s) && Inv(s)
    ensures Owned(Step(s, e).0)
    ensures e.EBootstrap? ==> Step(s, e) == (s, Failed(AlreadySetUp))
  {
    var o :| HoldsSeat(s, o);
    var t := Step(s, e).0;
    assert AnyActive(s);
    assert HoldsSeat(t, o) || (e.ETransfer? && HoldsSeat(t, e.to));
  }

  /** With the owner active, no administrator but the owner can be the last. */
  lemma OwnerIsAnAdmin(s: State, e: Event)
    requires Owned(s)
    ensures Step(s, e).1 != Failed(LastAdmin)
    ensures |ActiveAdmins(s)| >= 1
  {
    var o :| HoldsSeat(s, o);
    assert o in ActiveAdmins(s);
    if (e.EUpdateUser? || e.EDeleteUser?) && e.id in ActiveAdmins(s) && e.id != o {
      assert {o, e.id} <= ActiveAdmins(s);
      SubsetIsSmaller({o, e.id}, ActiveAdmins(s));
    }
  }

  lemma {:induction false} PlayKeepsOwner(s: State, es: seq<Event>)
    requires Owned(s) && Inv(s)
    ensures Owned(Play(s, es))
  {
    if es != [] {
      PlayKeepsOwner(s, es[..|es| - 1]);
      PlayKeepsInv(s, es[..|es| - 1]);
      StepKeepsOwner(Play(s, es[..|es| - 1]), es[|es| - 1]);
    }
  }

  /**
    From the first successful bootstrap of any migrated database on, whatever is
    created, edited, deleted or handed over: exactly one account holds the seat
    and it is active, a second bootstrap is refused, the administrators are never
    none, and the guard against losing the last one never has to act.
  */
  lemma SeatIsNeverLost(s: State, before: seq<Event>, email: nat, after: seq<Event>, e: Event)
    requires Migrated(s) && Bootstrap(Play(s, before), email).1.Done?
    ensures var t := Play(Step(Play(s, before), EBootstrap(email)).0, after);
      && OneActiveOwner(t)
      && (forall other :: Bootstrap(t, other) == (t, Failed(AlreadySetUp)))
      && |ActiveAdmins(t)| >= 1
      && Step(t, e).1 != Failed(LastAdmin)
  {
    var b := Play(s, before);
    PlayKeepsInv(s, before);
    StepKeepsInv(b, EBootstrap(email));
    FirstOwner(b, email);
    var c := Step(b, EBootstrap(email)).0;
    PlayKeepsInv(c, after);
    PlayKeepsOwner(c, after);
    var t := Play(c, after);
    OwnerIsAnAdmin(t, e);
    OneHolder(t);
  }

  lemma OneHolder(t: State)
    requires Inv(t) && Owned(t)
    ensures OneActiveOwner(t) && AnyActive(t)
  {
  }

  lemma FirstOwner(s: State, email: nat)
    requires Inv(s) && Bootstrap(s, email).1.Done?
    ensures Owned(Bootstrap(s, email).0)
  {
    if id :| IsOldestPlaceholder(s, id) && Bootstrap(s, email) == Seat(s, id, email) {
      SeatKeepsInv(s, id, email);
    } else {
      SeatKeepsInv(s, s.next, email);
    }
  }

  // ---- When a bootstrap succeeds ----

  /** The row a bootstrap would seat its owner in. */
  ghost predicate Claims(s: State, id: nat) {
    IsOldestPlaceholder(s, id) || (id == s.next && forall u :: !IsPlaceholder(s, u))
  }

  lemma {:induction false} OldestExists(s: State, id: nat)
    requires IsPlaceholder(s, id)
    ensures exists o :: IsOldestPlaceholder(s, o)
    decreases id
  {
    if !IsOldestPlaceholder(s, id) {
      var u: nat :| IsPlaceholder(s, u) && u < id;
      OldestExists(s, u);
    }
  }

  /**
    A bootstrap claims the oldest pending administrator, or a new row when there
    is none. It succeeds exactly when no account is active, no other account has
    the address, and no other row is marked as the owner.
  */
  lemma BootstrapSucceeds(s: State, id: nat, email: nat)
    requires Inv(s) && Claims(s, id)
    ensures Bootstrap(s, email).1 == Done(id) <==>
              !AnyActive(s) && !EmailRefused(s, id, email)
              && IsOnlyOwner(s, id)
    ensures Bootstrap(s, email).1.Done? ==> Bootstrap(s, email).1.id == id
  {
  }

  /**
    The claim does not always find the marked row: with a pending owner behind a
    pending administrator of a smaller id, the single-owner index refuses every
    bootstrap, whatever the address. The migrations insert one pending row and
    the program makes no other, so it takes an edit of the database to get there.
  */
  lemma BootstrapCanBeStuck(email: nat)
    ensures var s := State(3, map[1 := User(Admin, Pending, 0, 11), 2 := User(Owner, Pending, 0, 12)], map[]);
            Migrated(s) && !Bootstrap(s, email).1.Done?
  {
    var s := State(3, map[1 := User(Admin, Pending, 0, 11), 2 := User(Owner, Pending, 0, 12)], map[]);
    assert IsOldestPlaceholder(s, 1);
    assert 2 in s.users && s.users[2].role.Owner?;
    BootstrapSucceeds(s, 1, email);
  }

  // ---- Handing the seat over ----

  /**
    Once there is an owner the seat can be handed to any other active account: a
    transfer succeeds exactly when the holder of the seat makes it, to another
    account that is active, and the database does not visit the promoted row first.
  */
  lemma TransferSucceeds(s: State, from: nat, to: nat, promotedFirst: bool)
    requires Inv(s) && Owned(s)
    ensures Transfer(s, from, to, promotedFirst).1.Done? <==>
              HoldsSeat(s, from) && to in s.users && s.users[to].status.Active? && to != from && !promotedFirst
    ensures Transfer(s, from, to, promotedFirst).1.Done? ==> HoldsSeat(Transfer(s, from, to, promotedFirst).0, to)
  {
    var o :| HoldsSeat(s, o);
    assert from in s.users && s.users[from].role.Owner? ==> from == o;
  }

  /** A transfer moves the seat and nothing else, ends both accounts' sessions and invalidates what they cached. */
  lemma TransferMovesSeat(s: State, from: nat, to: nat, promotedFirst: bool)
    requires Inv(s) && Transfer(s, from, to, promotedFirst).1.Done?
    ensures var t := Transfer(s, from, to, promotedFirst).0;
      && (forall u :: u in t.users <==> u in s.users)
      && (forall u :: u in t.users ==> (t.users[u].role.Owner? <==> u == to))
      && t.users[from].role == Admin
      && (forall u :: u in t.users && u != from && u != to ==> t.users[u] == s.users[u])
      && t.users[from].epoch > s.users[from].epoch && t.users[to].epoch > s.users[to].epoch
      && (forall l :: l in t.logins ==>
            l in s.logins && t.logins[l] == s.logins[l] && t.logins[l].user != from && t.logins[l].user != to)
  {
  }

  /**
    Administration needs a login made as an administrator: in every run, no live
    session of an account that administers was opened before it did.
  */
  lemma RankNeedsFreshLogin(s: State, es: seq<Event>, l: nat)
    requires Migrated(s)
    ensures var t := Play(s, es);
            l in t.logins && t.logins[l].user in t.users && t.users[t.logins[l].user].role.IsAdmin() ==>
              t.logins[l].asAdmin
  {
    PlayKeepsInv(s, es);
  }

  /**
    Whatever changes an account's role or status invalidates what was cached of it;
    only the first seating does not.
  */
  lemma RightsChangeMovesEpoch(s: State, e: Event, u: nat)
    requires Inv(s) && u in s.users && u in Step(s, e).0.users && !e.EBootstrap?
    ensures var a, b := s.users[u], Step(s, e).0.users[u];
            (a.role != b.role || a.status != b.status) ==> b.epoch == a.epoch + 1
    ensures s.users[u].email == Step(s, e).0.users[u].email
  {
  }

  /** An edit does what was asked to the account named and to no other. */
  lemma UpdateTouchesOne(s: State, id: nat, role: Option<Role>, status: Option<Status>)
    requires Inv(s) && UpdateUser(s, id, role, status).1.Done?
    ensures var t := UpdateUser(s, id, role, status).0;
      && id in t.users && (role.Some? ==> t.users[id].role == role.value)
         && (status.Some? ==> t.users[id].status == status.value)
      && (role.None? ==> t.users[id].role == s.users[id].role)
         && (status.None? ==> t.users[id].status == s.users[id].status)
      && t.users - {id} == s.users - {id}
      && (role.Some? || status.Some? ==> !s.users[id].role.Owner? && !t.users[id].role.Owner?)
      && (!s.users[id].role.IsAdmin() && t.users[id].role.IsAdmin() ==>
            forall l :: l in t.logins ==> t.logins[l].user != id)
  {
  }
}
