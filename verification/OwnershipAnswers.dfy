/** What each edit of the accounts answers and changes, read off the columns of the account table. */
module OwnershipAnswers {
  import opened Sets
  import opened Wrappers
  import opened Ownership

  predicate Administers(u: User) {
    (u.role == Owner || u.role == Admin) && u.status == Active
  }

  /** The account administers, and no other account does. */
  predicate OnlyAdministrator(s: State, id: nat) {
    id in s.users && Administers(s.users[id]) && forall u :: u in s.users && Administers(s.users[u]) ==> u == id
  }

  lemma LastIsOnly(s: State, id: nat)
    requires id in s.users
    ensures IsLastAdmin(s, id) <==> OnlyAdministrator(s, id)
  {
    assert forall u :: u in ActiveAdmins(s) <==> u in s.users && Administers(s.users[u]);
    if Administers(s.users[id]) {
      if OnlyAdministrator(s, id) {
        assert ActiveAdmins(s) == {id};
      } else {
        var u :| u in s.users && Administers(s.users[u]) && u != id;
        SubsetIsSmaller({id, u}, ActiveAdmins(s));
      }
    }
  }

  /** The logins of these accounts end, and no other does. */
  ghost predicate LoginsEnd(s: State, t: State, uids: set<nat>) {
    && (forall l :: l in t.logins <==> l in s.logins && s.logins[l].user !in uids)
    && (forall l :: l in t.logins ==> t.logins[l] == s.logins[l])
  }

  // ---- Deleting ----

  /** What stands in the way of a deletion. */
  predicate MayDelete(s: State, id: nat) {
    id in s.users && s.users[id].role != Owner && !OnlyAdministrator(s, id)
  }

  /** Any account but the owner and the only administrator can be deleted; it goes with its logins and nothing else. */
  lemma DeletionAnswers(s: State, id: nat)
    ensures var (t, r) := DeleteUser(s, id);
      && (r == Done(id) <==> MayDelete(s, id)) && (r.Failed? <==> !MayDelete(s, id))
      && (r.Failed? ==> t == s)
      && (r == Failed(NoUser) <==> id !in s.users)
      && (r == Failed(OwnerImmutable) <==> id in s.users && s.users[id].role == Owner)
      && (r.Done? ==> t.users == s.users - {id} && LoginsEnd(s, t, {id}) && t.next == s.next)
  {
    if id in s.users {
      LastIsOnly(s, id);
    }
  }

  /** The id belonged to an account, and belongs to none. */
  predicate Deleted(s: State, id: nat) {
    id < s.next && id !in s.users && forall l :: l in s.logins ==> s.logins[l].user != id
  }

  lemma BootstrapLeavesDeleted(s: State, email: nat, id: nat)
    requires Deleted(s, id)
    ensures Deleted(Bootstrap(s, email).0, id)
  {
  }

  lemma DeletedStays(s: State, e: Event, id: nat)
    requires Deleted(s, id)
    ensures Deleted(Step(s, e).0, id)
    ensures e == ELogIn(id) ==> Step(s, e).1.Failed?
  {
    if e.EBootstrap? {
      BootstrapLeavesDeleted(s, e.email, id);
    }
  }

  lemma {:induction false} PlayLeavesDeleted(s: State, es: seq<Event>, id: nat)
    requires Deleted(s, id)
    ensures Deleted(Play(s, es), id)
  {
    if es != [] {
      PlayLeavesDeleted(s, es[..|es| - 1], id);
      DeletedStays(Play(s, es[..|es| - 1]), es[|es| - 1], id);
    }
  }

  /** A deleted account is gone for good: in no continuation of the run is there such an account, or does it log in. */
  lemma DeletedForGood(s: State, es: seq<Event>, id: nat, more: seq<Event>)
    requires Migrated(s) && DeleteUser(Play(s, es), id).1.Done?
    ensures var t := Play(DeleteUser(Play(s, es), id).0, more);
            id !in t.users && (forall l :: l in t.logins ==> t.logins[l].user != id) && LogIn(t, id).1.Failed?
  {
    PlayKeepsInv(s, es);
    DeletionAnswers(Play(s, es), id);
    PlayLeavesDeleted(DeleteUser(Play(s, es), id).0, more, id);
  }

  // ---- Editing ----

  predicate AdministersAs(role: Role) {
    role == Owner || role == Admin
  }

  /** The edit takes rank away, or the right to log in. */
  predicate TakesRights(role: Option<Role>, status: Option<Status>) {
    role == Some(Editor) || role == Some(Viewer) || status == Some(Disabled)
  }

  /** What an edit is told, in the order in which the reasons are looked at. */
  lemma UpdateAnswers(s: State, id: nat, role: Option<Role>, status: Option<Status>)
    ensures var (t, r) := UpdateUser(s, id, role, status);
      if role == Some(Owner) then r == Failed(InvalidRole) && t == s
      else if status == Some(Pending) then r == Failed(InvalidStatus) && t == s
      else if id !in s.users then r == Failed(NoUser) && t == s
      else if role.None? && status.None? then r == Done(id) && t == s
      else if s.users[id].role == Owner then r == Failed(OwnerImmutable) && t == s
      else if TakesRights(role, status) && OnlyAdministrator(s, id) then r == Failed(LastAdmin) && t == s
      else r == Done(id)
  {
    if id in s.users {
      LastIsOnly(s, id);
    }
  }

  /** A promotion to administrator ends the account's logins; no other edit ends any. */
  lemma UpdateEndsLogins(s: State, id: nat, role: Option<Role>, status: Option<Status>)
    requires UpdateUser(s, id, role, status).1.Done?
    ensures var t := UpdateUser(s, id, role, status).0;
      && id in s.users && t.next == s.next
      && LoginsEnd(s, t, if role == Some(Admin) && !AdministersAs(s.users[id].role) then {id} else {})
  {
  }

  // ---- Creating ----

  predicate AddressTaken(s: State, email: nat) {
    exists u :: u in s.users && s.users[u].email == email
  }

  /** An account is made with any role but the owner's, under an address of its own; nothing else changes. */
  lemma CreationAnswers(s: State, role: Role, email: nat)
    requires Inv(s)
    ensures var (t, r) := CreateUser(s, role, email);
      if role == Owner then r == Failed(InvalidRole) && t == s
      else if AddressTaken(s, email) then r == Failed(EmailTaken) && t == s
      else
        && r.Done? && r.id !in s.users && t.users == s.users[r.id := User(role, Active, 0, email)]
        && t.logins == s.logins && t.next > r.id
  {
    EverySeatIsOld(s);
  }

  lemma EverySeatIsOld(s: State)
    requires Inv(s)
    ensures s.next !in s.users && forall email: nat :: EmailRefused(s, s.next, email) <==> AddressTaken(s, email)
  {
  }

  /** A provider's account provisions itself, but never as an administrator. */
  lemma ProvisionAnswers(s: State, role: Role, email: nat)
    requires Inv(s)
    ensures var (t, r) := Provision(s, role, email);
      if AdministersAs(role) then r == Failed(InvalidRole) && t == s
      else if AddressTaken(s, email) then r == Failed(EmailTaken) && t == s
      else
        && r.Done? && r.id !in s.users && t.users == s.users[r.id := User(role, Active, 0, email)]
        && t.logins == s.logins && t.next > r.id
  {
    EverySeatIsOld(s);
  }

  /** An account that waits to become an administrator's. */
  predicate Waits(s: State, id: nat) {
    id in s.users && AdministersAs(s.users[id].role) && s.users[id].status == Pending
  }

  /** The row the first owner gets: the waiting account of the smallest id, or a new one when none waits. */
  ghost predicate IsClaimed(s: State, id: nat) {
    (Waits(s, id) && forall u :: Waits(s, u) ==> id <= u) || (id == s.next && forall u :: !Waits(s, u))
  }

  lemma ClaimIsFound(s: State, id: nat)
    requires IsClaimed(s, id)
    ensures Claims(s, id) && forall email: nat :: !AnyActive(s) ==> Bootstrap(s, email) == Seat(s, id, email)
  {
    assert forall u :: IsPlaceholder(s, u) <==> Waits(s, u);
    assert forall u :: IsOldestPlaceholder(s, u) ==> u == id;
  }

  /** What a bootstrap is told, and what the first owner's account becomes: a row claimed keeps its epoch. */
  lemma BootstrapAnswers(s: State, id: nat, email: nat)
    requires IsClaimed(s, id)
    ensures var (t, r) := Bootstrap(s, email);
      if exists u :: u in s.users && s.users[u].status == Active then r == Failed(AlreadySetUp) && t == s
      else if exists u :: u in s.users && u != id && s.users[u].email == email then r == Failed(EmailTaken) && t == s
      else if exists u :: u in s.users && u != id && s.users[u].role == Owner then r == Failed(SeatTaken) && t == s
      else
        && r == Done(id) && t.logins == s.logins && t.next >= s.next && t.next > id
        && t.users == s.users[id := User(Owner, Active, if id in s.users then s.users[id].epoch else 0, email)]
  {
    ClaimIsFound(s, id);
    assert EmailRefused(s, id, email) <==> exists u :: u in s.users && u != id && s.users[u].email == email;
    assert SeatRefused(s, id) <==> exists u :: u in s.users && u != id && s.users[u].role == Owner;
    assert AnyActive(s) <==> exists u :: u in s.users && s.users[u].status == Active;
  }

  lemma SomeRowIsClaimed(s: State)
    ensures exists id :: IsClaimed(s, id)
  {
    if u :| Waits(s, u) {
      OldestExists(s, u);
      var o :| IsOldestPlaceholder(s, o);
      assert Waits(s, o) && forall x :: Waits(s, x) ==> IsPlaceholder(s, x);
      assert IsClaimed(s, o);
    } else {
      assert IsClaimed(s, s.next);
    }
  }

  // ---- Handing over, logging in and out ----

  /** What a transfer is told, in the order in which the reasons are looked at. */
  lemma TransferAnswers(s: State, from: nat, to: nat, promotedFirst: bool)
    ensures var (t, r) := Transfer(s, from, to, promotedFirst);
      if from == to then r == Failed(SelfTarget) && t == s
      else if from !in s.users || to !in s.users then r == Failed(NoUser) && t == s
      else if s.users[from].role != Owner then r == Failed(OwnerImmutable) && t == s
      else if s.users[to].status != Active then r == Failed(NotTransferable) && t == s
      else if promotedFirst then r == Failed(SeatTaken) && t == s
      else
        && r == Done(to) && LoginsEnd(s, t, {from, to}) && t.next == s.next && t.users.Keys == s.users.Keys
        && forall u :: u in s.users ==>
             t.users[u] == if u == from then s.users[u].(role := Admin, epoch := s.users[u].epoch + 1)
                           else if u == to then s.users[u].(role := Owner, epoch := s.users[u].epoch + 1)
                           else s.users[u]
  {
  }

  /** Only an active account logs in, and its login remembers whether it administered then. */
  lemma LoginAnswers(s: State, uid: nat)
    requires Inv(s)
    ensures var (t, r) := LogIn(s, uid);
      if uid in s.users && s.users[uid].status == Active
      then
        && r.Done? && r.id !in s.logins && t.users == s.users && t.next > r.id
        && t.logins == s.logins[r.id := Login(uid, AdministersAs(s.users[uid].role))]
      else r == Failed(NoUser) && t == s
  {
  }

  lemma LogoutAnswers(s: State, id: nat)
    ensures var (t, r) := LogOut(s, id); r == Done(id) && t == s.(logins := s.logins - {id})
  {
  }
}
