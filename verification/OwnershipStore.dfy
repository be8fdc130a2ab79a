/** The account table as an object whose methods are the repository's transactions. */
module OwnershipStore {
  import opened Wrappers
  import opened Ownership
  import opened OwnershipAnswers

  class Repository {
    var next: nat
    var users: map<nat, User>
    var logins: map<nat, Login>

    ghost function St(): (s: State)
      reads this
    {
      State(next, users, logins)
    }

    /** What the indexes hold the tables to, and no session above its rank. */
    ghost predicate Valid()
      reads this
    {
      Inv(St())
    }

    constructor (users: map<nat, User>, next: nat)
      requires Migrated(State(next, users, map[]))
      ensures Valid() && St() == State(next, users, map[])
    {
      this.users, this.next, logins := users, next, map[];
    }

    /** The id of the oldest pending administrator, if there is one. */
    method FindPlaceholder() returns (found: Option<nat>)
      ensures found.Some? ==> IsOldestPlaceholder(St(), found.value)
      ensures found.None? ==> forall u :: !IsPlaceholder(St(), u)
    {
      found := None;
      var left := users.Keys;
      while left != {}
        invariant left <= users.Keys
        invariant found.Some? ==> IsPlaceholder(St(), found.value)
        invariant forall u :: IsPlaceholder(St(), u) && u !in left ==> found.Some? && found.value <= u
      {
        var u: nat :| u in left;
        left := left - {u};
        if users[u].role.IsAdmin() && users[u].status.Pending? && (found.None? || u < found.value) {
          found := Some(u);
        }
      }
    }

    method Bootstrap(email: nat) returns (reply: Reply)
      requires Valid()
      modifies this
      ensures Valid() && (St(), reply) == Ownership.Bootstrap(old(St()), email)
      ensures old(Owned(St())) ==> Owned(St())
    {
      BootstrapKeepsInv(St(), email);
      if Owned(St()) {
        StepKeepsOwner(St(), EBootstrap(email));
      }
      if u: nat :| u in users && users[u].status.Active? {
        assert AnyActive(St());
        return Failed(AlreadySetUp);
      }
      var found := FindPlaceholder();
      reply := SeatOwner(if found.Some? then found.value else next, email);
    }

    method SeatOwner(id: nat, email: nat) returns (reply: Reply)
      modifies this
      ensures (St(), reply) == Seat(old(St()), id, email)
    {
      if u: nat :| u in users && u != id && users[u].email == email {
        return Failed(EmailTaken);
      }
      assert !EmailRefused(St(), id, email);
      if u: nat :| u in users && u != id && users[u].role.Owner? {
        return Failed(SeatTaken);
      }
      assert !SeatRefused(St(), id);
      users := users[id := User(Owner, Active, if id in users then users[id].epoch else 0, email)];
      next := if id < next then next else id + 1;
      reply := Done(id);
    }

    method CreateUser(role: Role, email: nat) returns (reply: Reply)
      requires Valid()
      modifies this
      ensures Valid() && (St(), reply) == Ownership.CreateUser(old(St()), role, email)
    {
      StepKeepsInv(St(), ECreateUser(role, email));
      if role.Owner? {
        return Failed(InvalidRole);
      }
      if u: nat :| u in users && u != next && users[u].email == email {
        return Failed(EmailTaken);
      }
      assert !EmailRefused(St(), next, email);
      users := users[next := User(role, Active, 0, email)];
      reply := Done(next);
      next := next + 1;
    }

    /** Refuses an operation that would leave nobody to administer. */
    method GuardLastAdmin(id: nat) returns (ok: bool)
      requires id in users
      ensures ok == !IsLastAdmin(St(), id)
    {
      if !users[id].role.IsAdmin() || !users[id].status.Active? {
        return true;
      }
      var admins := set u | u in users && users[u].role.IsAdmin() && users[u].status.Active?;
      assert admins == ActiveAdmins(St());
      ok := |admins| > 1;
    }

    method RevokeLogins(uids: set<nat>)
      modifies `logins
      ensures St() == WithoutLogins(old(St()), uids)
    {
      logins := map l | l in logins && logins[l].user !in uids :: logins[l];
    }

    method UpdateUser(id: nat, role: Option<Role>, status: Option<Status>) returns (reply: Reply)
      requires Valid()
      modifies this
      ensures Valid() && (St(), reply) == Ownership.UpdateUser(old(St()), id, role, status)
    {
      UpdateKeepsInv(St(), id, role, status);
      if role == Some(Owner) {
        return Failed(InvalidRole);
      }
      if status == Some(Pending) {
        return Failed(InvalidStatus);
      }
      if id !in users {
        return Failed(NoUser);
      }
      if role.None? && status.None? {
        return Done(id);
      }
      var before := users[id].role;
      if before.Owner? {
        return Failed(OwnerImmutable);
      }
      if IsDemoteOrDisable(role, status) {
        var ok := GuardLastAdmin(id);
        if !ok {
          return Failed(LastAdmin);
        }
      }
      users := users[id := Edited(users[id], role, status)];
      if IsPromotion(before, role) {
        RevokeLogins({id});
      }
      reply := Done(id);
    }

    method DeleteUser(id: nat) returns (reply: Reply)
      requires Valid()
      modifies this
      ensures Valid() && (St(), reply) == Ownership.DeleteUser(old(St()), id)
      ensures reply == Done(id) <==>
                && id in old(users) && old(users)[id].role != Owner
                && !(Administers(old(users)[id])
                     && forall u :: u in old(users) && Administers(old(users)[u]) ==> u == id)
      ensures reply.Done? ==> users == old(users) - {id} && next == old(next)
      ensures reply.Done? ==> forall l :: l in logins <==> l in old(logins) && old(logins)[l].user != id
      ensures reply.Done? ==> forall l :: l in logins ==> logins[l] == old(logins)[l]
      ensures !reply.Done? ==> St() == old(St())
    {
      DeletionAnswers(St(), id);
      StepKeepsInv(St(), EDeleteUser(id));
      if id !in users {
        return Failed(NoUser);
      }
      if users[id].role.Owner? {
        return Failed(OwnerImmutable);
      }
      var ok := GuardLastAdmin(id);
      if !ok {
        return Failed(LastAdmin);
      }
      users := users - {id};
      RevokeLogins({id});
      reply := Done(id);
    }

    /** Both rows are read in the order of their ids. */
    method ReadBoth(from: nat, to: nat) returns (ok: bool)
      ensures ok <==> from in users && to in users
    {
      var ids := if to < from then [to, from] else [from, to];
      for i := 0 to 2
        invariant forall j :: 0 <= j < i ==> ids[j] in users
      {
        if ids[i] !in users {
          return false;
        }
      }
      assert ids[0] in users && ids[1] in users;
      ok := true;
    }

    /** Reads both rows, then moves both in one statement. */
    method MoveSeat(from: nat, to: nat, promotedFirst: bool) returns (reply: Reply)
      modifies `users, `logins
      ensures (St(), reply) == Transfer(old(St()), from, to, promotedFirst)
    {
      if from == to {
        return Failed(SelfTarget);
      }
      var ok := ReadBoth(from, to);
      if !ok {
        return Failed(NoUser);
      }
      if !users[from].role.Owner? {
        return Failed(OwnerImmutable);
      }
      if !users[to].status.Active? {
        return Failed(NotTransferable);
      }
      if promotedFirst {
        return Failed(SeatTaken);
      }
      users := users[from := users[from].(role := Admin, epoch := users[from].epoch + 1)]
                    [to := users[to].(role := Owner, epoch := users[to].epoch + 1)];
      RevokeLogins({from, to});
      reply := Done(to);
    }

    method TransferOwnership(from: nat, to: nat, promotedFirst: bool) returns (reply: Reply)
      requires Valid()
      modifies this
      ensures Valid() && (St(), reply) == Transfer(old(St()), from, to, promotedFirst)
    {
      TransferKeepsInv(St(), from, to, promotedFirst);
      reply := MoveSeat(from, to, promotedFirst);
    }
  }
}
