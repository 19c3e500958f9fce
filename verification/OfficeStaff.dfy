/** Staff administration over whole runs: an organization keeps an active admin, every work
    request reaches the admins, and the audit trail tells everybody's role. */
module OfficeStaff {
  import opened Text
  import opened Numbering
  import opened Office
  import opened OfficeLifecycle
  import opened OfficeNotifications

  // ---------------------------------------------------------------- deleted means inactive

  ghost predicate DeletedInactive(db: Db) {
    forall u | u in db.users && db.users[u].Deleted() :: !db.users[u].active
  }

  lemma HandleKeepsDeletedInactive(db: Db, actor: nat, r: Request)
    requires DeletedInactive(db)
    ensures DeletedInactive(Handle(db, actor, r))
  {
  }

  lemma PerformKeepsDeletedInactive(db: Db, c: Call)
    requires DeletedInactive(db)
    ensures DeletedInactive(Perform(db, c))
  {
    if c.Call? {
      HandleKeepsDeletedInactive(db, c.actor, c.request);
    }
  }

  lemma {:induction false} DeletedStayInactive(db: Db, calls: seq<Call>)
    requires DeletedInactive(db)
    ensures DeletedInactive(Run(db, calls))
  {
    if calls != [] {
      var n := |calls| - 1;
      DeletedStayInactive(db, calls[..n]);
      PerformKeepsDeletedInactive(Run(db, calls[..n]), calls[n]);
    }
  }

  // ---------------------------------------------------------------- the last admin

  ghost predicate HasActiveAdmin(db: Db, org: nat) {
    exists u :: u in ActiveAdmins(db, org)
  }

  lemma OtherRemains(s: set<nat>, x: nat)
    requires |s| > 1
    ensures exists y | y in s :: y != x
  {
    var rest := s - {x};
    assert |rest| >= |s| - 1;
    var y :| y in rest;
  }

  // The one request that no guard stops: a plain update switching off the last active admin.
  predicate SwitchesOffLastAdmin(db: Db, actor: nat, r: Request, org: nat) {
    && Allowed(db, actor, r) && r.UpdateMemberReq?
    && IsMember(db, db.users[actor].org, r.target) && !UpdateClashes(db, r.target, r.memberUpdate)
    && r.memberUpdate.active == Some(false) && ActiveAdmins(db, org) == {r.target}
  }

  lemma UpdateAndAdmins(db: Db, actor: nat, target: nat, data: MemberUpdate, org: nat)
    requires actor in db.users && UpdateMember(db, actor, target, data).Ok?
    ensures var b := UpdateMember(db, actor, target, data).value;
            if data.active == Some(false) then ActiveAdmins(b, org) == ActiveAdmins(db, org) - {target}
            else ActiveAdmins(db, org) <= ActiveAdmins(b, org)
  {
  }

  lemma SetActiveKeepsAdmin(db: Db, actor: nat, target: nat, active: bool, org: nat)
    requires actor in db.users && HasActiveAdmin(db, org) && SetActive(db, actor, target, active).Ok?
    ensures HasActiveAdmin(SetActive(db, actor, target, active).value, org)
  {
    var b := SetActive(db, actor, target, active).value;
    if target in ActiveAdmins(db, org) && !active {
      OtherRemains(ActiveAdmins(db, org), target);
      var u :| u in ActiveAdmins(db, org) && u != target;
      assert u in ActiveAdmins(b, org);
    } else {
      var u :| u in ActiveAdmins(db, org);
      assert u in ActiveAdmins(b, org);
    }
  }

  lemma SetRoleKeepsAdmin(db: Db, actor: nat, target: nat, role: Role, org: nat)
    requires actor in db.users && HasActiveAdmin(db, org) && SetRole(db, actor, target, role).Ok?
    ensures HasActiveAdmin(SetRole(db, actor, target, role).value, org)
  {
    var b := SetRole(db, actor, target, role).value;
    if target in ActiveAdmins(db, org) && role == Employee {
      OtherRemains(ActiveAdmins(db, org), target);
      var u :| u in ActiveAdmins(db, org) && u != target;
      assert u in ActiveAdmins(b, org);
    } else {
      var u :| u in ActiveAdmins(db, org);
      assert u in ActiveAdmins(b, org);
    }
  }

  // The guard on deletion counts inactive admins too, so it alone would not do: the admin
  // who remains is the acting one, who is active and may not delete itself.
  lemma DeleteKeepsAdmin(db: Db, actor: nat, target: nat, org: nat)
    requires DeletedInactive(db) && actor in db.users && db.users[actor].active && db.users[actor].role == Admin
    requires HasActiveAdmin(db, org) && DeleteMember(db, actor, target).Ok?
    ensures HasActiveAdmin(DeleteMember(db, actor, target).value, org)
  {
    var b := DeleteMember(db, actor, target).value;
    var u :| u in ActiveAdmins(db, org);
    if db.users[actor].org == org {
      assert actor in ActiveAdmins(b, org);
    } else {
      assert u in ActiveAdmins(b, org);
    }
  }

  lemma OtherRequestsKeepAdmins(db: Db, actor: nat, r: Request, org: nat)
    requires actor in db.users && Serve(db, actor, r).Ok?
    requires !r.UpdateMemberReq? && !r.SetActiveReq? && !r.SetRoleReq? && !r.DeleteMemberReq?
    ensures ActiveAdmins(db, org) <= ActiveAdmins(Serve(db, actor, r).value, org)
  {
    var b := Serve(db, actor, r).value;
    assert forall u | u in db.users :: u in b.users && b.users[u] == db.users[u];
  }

  // A request costs an organization its last active admin exactly when it is that update.
  lemma LastAdminLostIff(db: Db, actor: nat, r: Request, org: nat)
    requires DeletedInactive(db) && HasActiveAdmin(db, org)
    ensures !HasActiveAdmin(Handle(db, actor, r), org) <==> SwitchesOffLastAdmin(db, actor, r, org)
  {
    if Allowed(db, actor, r) && Serve(db, actor, r).Ok? {
      match r
      case UpdateMemberReq(target, data) => UpdateLosesAdminIff(db, actor, target, data, org);
      case SetActiveReq(target, active) => SetActiveKeepsAdmin(db, actor, target, active, org);
      case SetRoleReq(target, role) => SetRoleKeepsAdmin(db, actor, target, role, org);
      case DeleteMemberReq(target) => DeleteKeepsAdmin(db, actor, target, org);
      case _ =>
        OtherRequestsKeepAdmins(db, actor, r, org);
        var u :| u in ActiveAdmins(db, org);
        assert u in ActiveAdmins(Serve(db, actor, r).value, org);
    }
  }

  lemma UpdateLosesAdminIff(db: Db, actor: nat, target: nat, data: MemberUpdate, org: nat)
    requires actor in db.users && HasActiveAdmin(db, org) && UpdateMember(db, actor, target, data).Ok?
    ensures !HasActiveAdmin(UpdateMember(db, actor, target, data).value, org) <==>
            data.active == Some(false) && ActiveAdmins(db, org) == {target}
  {
    var b := UpdateMember(db, actor, target, data).value;
    UpdateAndAdmins(db, actor, target, data, org);
    var u :| u in ActiveAdmins(db, org);
    if ActiveAdmins(db, org) != {target} {
      var v := if u != target then u else
        var w :| w in ActiveAdmins(db, org) && w != target; w;
      assert v in ActiveAdmins(b, org);
    } else if data.active != Some(false) {
      assert u in ActiveAdmins(b, org);
    }
  }

  // One active admin, who switches itself off by a plain update of its own record.
  lemma LastAdminMayGo() returns (db: Db, r: Request)
    ensures DeletedInactive(db) && ActiveAdmins(db, 0) == {0}
    ensures !HasActiveAdmin(Handle(db, 0, r), 0)
  {
    db := Db(map[0 := UserRow(0, Admin, true, None, "Asha", None, None)], map[], map[], {}, {}, [], {}, 0);
    r := UpdateMemberReq(0, MemberUpdate(None, None, None, Some(false)));
    LastAdminLostIff(db, 0, r, 0) by { assert 0 in ActiveAdmins(db, 0); }
  }

  ghost predicate NoSwitchOff(db: Db, calls: seq<Call>, org: nat) {
    forall k | 0 <= k < |calls| && calls[k].Call? ::
      !SwitchesOffLastAdmin(Run(db, calls[..k]), calls[k].actor, calls[k].request, org)
  }

  lemma SignUpKeepsAdmin(db: Db, id: nat, joined: nat, person: Person, org: nat)
    requires HasActiveAdmin(db, org)
    ensures HasActiveAdmin(SignedUp(db, id, joined, person), org)
  {
    var u :| u in ActiveAdmins(db, org);
    assert u in ActiveAdmins(SignedUp(db, id, joined, person), org);
  }

  // Over every run of staff and order requests without such an update, the organization
  // keeps an active admin.
  lemma {:induction false} LastAdminRemains(db: Db, calls: seq<Call>, org: nat)
    requires DeletedInactive(db) && HasActiveAdmin(db, org) && NoSwitchOff(db, calls, org)
    ensures HasActiveAdmin(Run(db, calls), org)
  {
    if calls != [] {
      var n := |calls| - 1;
      var init := calls[..n];
      forall k | 0 <= k < n && init[k].Call?
        ensures !SwitchesOffLastAdmin(Run(db, init[..k]), init[k].actor, init[k].request, org)
      {
        assert init[..k] == calls[..k];
      }
      LastAdminRemains(db, init, org);
      DeletedStayInactive(db, init);
      match calls[n]
      case Call(actor, r) => LastAdminLostIff(Run(db, init), actor, r, org);
      case SignUp(id, joined, person) => SignUpKeepsAdmin(Run(db, init), id, joined, person, org);
    }
  }

  // ---------------------------------------------------------------- requests reach the admins

  lemma RecipientsAreTheAdmins(db: Db, org: nat, actor: nat)
    requires DeletedInactive(db) && actor in db.users && db.users[actor].role == Employee
    ensures ActiveAdminIds(db, org, Some(actor)) == ActiveAdmins(db, org)
  {
  }

  ghost function NoticesFor(db: Db, org: nat, users: set<nat>, o: nat): set<Notification> {
    set u | u in users :: Notification(db.clock, org, u, WorkRequested, Some(o))
  }

  lemma {:induction false} OneNoticeEach(db: Db, org: nat, users: set<nat>, o: nat)
    ensures |NoticesFor(db, org, users, o)| == |users|
    decreases users
  {
    if users != {} {
      var u :| u in users;
      OneNoticeEach(db, org, users - {u}, o);
      var notice := Notification(db.clock, org, u, WorkRequested, Some(o));
      assert NoticesFor(db, org, users, o) == NoticesFor(db, org, users - {u}, o) + {notice};
    }
  }

  // Whatever happened before, an employee's work request adds one notification per active
  // admin - as many as the last-admin guard counts, and at least one - and no other.
  lemma EveryRequestReachesAnAdmin(
    db: Db, calls: seq<Call>, t: Db, org: nat, actor: nat, id: nat, day: string, data: NewOrder)
    requires DeletedInactive(db) && NotesOk(db) && HasActiveAdmin(db, org) && NoSwitchOff(db, calls, org)
    requires t == Run(db, calls)
    requires actor in t.users && t.users[actor].role == Employee && t.users[actor].org == org
    ensures CreateOrder(t, actor, id, day, data).Ok? ==>
            var sent := Sent(t, CreateOrder(t, actor, id, day, data).value);
            && sent == NoticesFor(t, org, ActiveAdmins(t, org), id)
            && |sent| == |ActiveAdmins(t, org)| >= 1
            && t.notifications <= CreateOrder(t, actor, id, day, data).value.notifications
  {
    DeletedStayInactive(db, calls);
    LastAdminRemains(db, calls, org);
    NotesOkThroughout(db, calls);
    RecipientsAreTheAdmins(t, org, actor);
    OneNoticeEach(t, org, ActiveAdmins(t, org), id);
    if CreateOrder(t, actor, id, day, data).Ok? {
      var b := CreateOrder(t, actor, id, day, data).value;
      assert b.notifications == t.notifications + NoticesFor(t, org, ActiveAdmins(t, org), id);
      assert forall n | n in NoticesFor(t, org, ActiveAdmins(t, org), id) :: n !in t.notifications;
    }
  }

  // ---------------------------------------------------------------- the role audit

  predicate RoleChange(row: AuditRow, u: nat) {
    row.affected == u && (row.action == RolePromoted || row.action == RoleDemoted)
  }

  // Folding somebody's role entries: each must start from the role reached so far, change it,
  // and be filed under the right action.
  function ReplayRole(audit: seq<AuditRow>, u: nat, start: Role): Option<Role> {
    if audit == [] then Some(start)
    else
      var before, last := ReplayRole(audit[..|audit| - 1], u, start), audit[|audit| - 1];
      if !RoleChange(last, u) then before
      else if && before.Some? && last.oldRole == before && last.newRole.Some? && last.newRole != last.oldRole
              && last.action == (if last.newRole == Some(Admin) then RolePromoted else RoleDemoted)
      then last.newRole
      else None
  }

  // Members present at the start begin with the role they had, later ones as employees.
  function StartRole(db: Db, u: nat): Role {
    if u in db.users then db.users[u].role else Employee
  }

  ghost predicate RolesReplay(start: Db, now: Db) {
    && start.users.Keys <= now.users.Keys && start.audit <= now.audit
    && forall u: nat ::
         ReplayRole(now.audit[|start.audit|..], u, StartRole(start, u))
         == Some(if u in now.users then now.users[u].role else Employee)
  }

  lemma NewEntry(start: Db, now: Db, row: AuditRow, u: nat)
    requires start.audit <= now.audit
    ensures ReplayRole((now.audit + [row])[|start.audit|..], u, StartRole(start, u))
         == var before := ReplayRole(now.audit[|start.audit|..], u, StartRole(start, u));
            if !RoleChange(row, u) then before
            else if && before.Some? && row.oldRole == before && row.newRole.Some? && row.newRole != row.oldRole
                    && row.action == (if row.newRole == Some(Admin) then RolePromoted else RoleDemoted)
            then row.newRole
            else None
  {
    var trail := (now.audit + [row])[|start.audit|..];
    assert trail == now.audit[|start.audit|..] + [row];
    assert trail[..|trail| - 1] == now.audit[|start.audit|..];
  }

  lemma SetRoleKeepsReplay(start: Db, now: Db, actor: nat, target: nat, role: Role)
    requires RolesReplay(start, now) && actor in now.users && SetRole(now, actor, target, role).Ok?
    ensures RolesReplay(start, SetRole(now, actor, target, role).value)
  {
    var b := SetRole(now, actor, target, role).value;
    if now.users[target].role != role {
      forall u: nat
        ensures ReplayRole(b.audit[|start.audit|..], u, StartRole(start, u))
             == Some(if u in b.users then b.users[u].role else Employee)
      {
        NewEntry(start, now, b.audit[|now.audit|], u);
      }
    }
  }

  // Every other request leaves the roles of existing members and their role entries alone.
  lemma SameRolesKeepReplay(start: Db, now: Db, b: Db)
    requires RolesReplay(start, now)
    requires now.users.Keys <= b.users.Keys
    requires forall u | u in now.users :: b.users[u].role == now.users[u].role
    requires forall u | u in b.users && u !in now.users :: b.users[u].role == Employee
    requires b.audit == now.audit
          || (|b.audit| == |now.audit| + 1 && b.audit[..|now.audit|] == now.audit
              && !RoleChange(b.audit[|now.audit|], b.audit[|now.audit|].affected))
    ensures RolesReplay(start, b)
  {
    if b.audit != now.audit {
      var row := b.audit[|now.audit|];
      assert b.audit == now.audit + [row];
      forall u: nat
        ensures ReplayRole(b.audit[|start.audit|..], u, StartRole(start, u))
             == ReplayRole(now.audit[|start.audit|..], u, StartRole(start, u))
      {
        NewEntry(start, now, row, u);
      }
    }
  }

  lemma OnlySetRoleMovesRoles(now: Db, actor: nat, r: Request)
    requires actor in now.users && Serve(now, actor, r).Ok? && !r.SetRoleReq?
    ensures var b := Serve(now, actor, r).value;
            && now.users.Keys <= b.users.Keys
            && (forall u | u in now.users :: b.users[u].role == now.users[u].role)
            && (forall u | u in b.users && u !in now.users :: b.users[u].role == Employee)
    ensures var b := Serve(now, actor, r).value;
            || b.audit == now.audit
            || (|b.audit| == |now.audit| + 1 && b.audit[..|now.audit|] == now.audit
                && !RoleChange(b.audit[|now.audit|], b.audit[|now.audit|].affected))
  {
  }

  lemma HandleKeepsReplay(start: Db, now: Db, actor: nat, r: Request)
    requires RolesReplay(start, now)
    ensures RolesReplay(start, Handle(now, actor, r))
  {
    if Allowed(now, actor, r) && Serve(now, actor, r).Ok? {
      if r.SetRoleReq? {
        SetRoleKeepsReplay(start, now, actor, r.target, r.role);
      } else {
        OnlySetRoleMovesRoles(now, actor, r);
        SameRolesKeepReplay(start, now, Serve(now, actor, r).value);
      }
    }
  }

  // Over every run, no-ops and refusals included, the audit trail replays to everybody's
  // current role: entries chain, alternate, and the last one names the role held now.
  lemma {:induction false} RoleAuditReplays(db: Db, calls: seq<Call>)
    ensures RolesReplay(db, Run(db, calls))
  {
    if calls == [] {
      assert db.audit[|db.audit|..] == [];
    } else {
      var n := |calls| - 1;
      RoleAuditReplays(db, calls[..n]);
      var now := Run(db, calls[..n]);
      match calls[n]
      case Call(actor, r) => HandleKeepsReplay(db, now, actor, r);
      case SignUp(id, org, person) => SameRolesKeepReplay(db, now, SignedUp(now, id, org, person));
    }
  }

  // ---------------------------------------------------------------- orders of deleted members

  ghost predicate NoActiveOrderOfDeleted(db: Db) {
    forall o | o in db.orders && ActiveStatus(db.orders[o].status) && db.orders[o].assignee.Some?
               && db.orders[o].assignee.value in db.users :: !db.users[db.orders[o].assignee.value].Deleted()
  }

  ghost predicate IsDeleted(db: Db, u: nat) {
    u in db.users && db.users[u].Deleted()
  }

  // The request hands an active order to a member already deleted.
  ghost predicate HandsToDeleted(db: Db, actor: nat, r: Request) {
    Allowed(db, actor, r) &&
    match r
    case CreateOrderReq(id, day, data) =>
      && db.users[actor].role == Admin && data.assignee.Some? && IsDeleted(db, data.assignee.value)
      && CanBeAssigned(db, db.users[actor].org, data.assignee.value)
      && CustomerOk(db, db.users[actor].org, data.customer) && id !in db.issued
    case AssignOrderReq(id, assignee, dueDate) =>
      && OwnOrder(db, actor, id) && (db.orders[id].status.AwaitingAssignment? || db.orders[id].status.Assigned?)
      && IsDeleted(db, assignee) && CanBeAssigned(db, db.orders[id].org, assignee)
    case UpdateOrderReq(id, data) =>
      && OwnOrder(db, actor, id) && ActiveStatus(db.orders[id].status) && !UpdateInvalid(db.orders[id], data)
      && data.assignee.Some? && data.assignee.value.Some? && IsDeleted(db, data.assignee.value.value)
      && CanBeAssigned(db, db.orders[id].org, data.assignee.value.value)
    case _ => false
  }

  lemma OneOrderChanged(db: Db, b: Db, id: nat)
    requires NoActiveOrderOfDeleted(db) && b.users == db.users && id in b.orders
    requires forall o | o in b.orders && o != id :: o in db.orders && b.orders[o] == db.orders[o]
    ensures NoActiveOrderOfDeleted(b) <==>
            !(ActiveStatus(b.orders[id].status) && b.orders[id].assignee.Some?
                && IsDeleted(b, b.orders[id].assignee.value))
  {
  }

  // Nothing else assigns or revives an order, and deleting a member checks its orders.
  lemma OthersKeepAssignees(db: Db, actor: nat, r: Request)
    requires actor in db.users && Serve(db, actor, r).Ok?
    requires !r.CreateOrderReq? && !r.AssignOrderReq? && !r.UpdateOrderReq?
    ensures var b := Serve(db, actor, r).value;
            && (forall o | o in b.orders ::
                  && o in db.orders && b.orders[o].assignee == db.orders[o].assignee
                  && (ActiveStatus(b.orders[o].status) ==> ActiveStatus(db.orders[o].status)))
            && (forall u | IsDeleted(b, u) :: IsDeleted(db, u) || !HasActiveWorkOrders(db, u))
  {
  }

  lemma UnassignedKeepsRule(db: Db, b: Db)
    requires NoActiveOrderOfDeleted(db)
    requires forall o | o in b.orders ::
               && o in db.orders && b.orders[o].assignee == db.orders[o].assignee
               && (ActiveStatus(b.orders[o].status) ==> ActiveStatus(db.orders[o].status))
    requires forall u | IsDeleted(b, u) :: IsDeleted(db, u) || !HasActiveWorkOrders(db, u)
    ensures NoActiveOrderOfDeleted(b)
  {
    forall o | o in b.orders && ActiveStatus(b.orders[o].status) && b.orders[o].assignee.Some?
      ensures !IsDeleted(b, b.orders[o].assignee.value)
    {
      assert HasActiveWorkOrders(db, b.orders[o].assignee.value);
    }
  }

  lemma AssigningKeepsRuleIff(db: Db, actor: nat, r: Request)
    requires NoActiveOrderOfDeleted(db) && Allowed(db, actor, r) && Serve(db, actor, r).Ok?
    requires r.CreateOrderReq? || r.AssignOrderReq? || r.UpdateOrderReq?
    ensures NoActiveOrderOfDeleted(Serve(db, actor, r).value) <==> !HandsToDeleted(db, actor, r)
  {
    match r
    case CreateOrderReq(id, day, data) => OneOrderChanged(db, CreateOrder(db, actor, id, day, data).value, id);
    case AssignOrderReq(id, assignee, dueDate) =>
      OneOrderChanged(db, AssignOrder(db, actor, id, assignee, dueDate).value, id);
    case UpdateOrderReq(id, data) => OneOrderChanged(db, UpdateOrder(db, actor, id, data).value, id);
  }

  // Deleting a member checks that it holds no active order, but nothing checks the other way
  // round: exactly the requests that assign to a deleted member break the rule.
  lemma ActiveOrderOfDeletedIff(db: Db, actor: nat, r: Request)
    requires NoActiveOrderOfDeleted(db)
    ensures NoActiveOrderOfDeleted(Handle(db, actor, r)) <==> !HandsToDeleted(db, actor, r)
  {
    if Allowed(db, actor, r) && Serve(db, actor, r).Ok? {
      if r.CreateOrderReq? || r.AssignOrderReq? || r.UpdateOrderReq? {
        AssigningKeepsRuleIff(db, actor, r);
      } else {
        OthersKeepAssignees(db, actor, r);
        UnassignedKeepsRule(db, Serve(db, actor, r).value);
      }
    }
  }

  // An order waits, an employee is deleted, and then the order is assigned to that employee.
  lemma DeletedMayBeAssigned() returns (db: Db, calls: seq<Call>)
    ensures NoActiveOrderOfDeleted(db) && !NoActiveOrderOfDeleted(Run(db, calls))
  {
    var admin := UserRow(0, Admin, true, None, "Asha", None, None);
    var employee := UserRow(0, Employee, true, None, "Ravi", None, None);
    var order := OrderRow(0, "WO-20240101-01", Some(0), AwaitingAssignment, None, None, None, None,
                          Some(GstWork), None, "98765", [CreatedWith(0, AwaitingAssignment)], []);
    db := Db(map[0 := admin, 1 := employee], map[], map[5 := order], {5}, {}, [], {}, 0);
    var first, second := Call(0, DeleteMemberReq(1)), Call(0, AssignOrderReq(5, 1, None));
    calls := [first, second];
    var t := Handle(db, 0, DeleteMemberReq(1));
    assert t.users[1].Deleted() && t.orders[5].status.AwaitingAssignment? && t.orders[5].org == 0;
    ActiveOrderOfDeletedIff(db, 0, DeleteMemberReq(1));
    ActiveOrderOfDeletedIff(t, 0, AssignOrderReq(5, 1, None));
    assert calls[..1] == [first] && [first][..0] == [];
    assert Run(db, [first]) == t;
  }

  // ---------------------------------------------------------------- order numbers

  ghost predicate NumbersUnique(db: Db) {
    forall o, p | o in db.orders && p in db.orders && o != p && db.orders[o].org == db.orders[p].org ::
      db.orders[o].number != db.orders[p].number
  }

  lemma CreationKeepsNumbersUnique(db: Db, actor: nat, id: nat, day: string, data: NewOrder)
    requires OrdersOk(db) && NumbersUnique(db)
    requires actor in db.users && CreateOrder(db, actor, id, day, data).Ok?
    ensures NumbersUnique(CreateOrder(db, actor, id, day, data).value)
  {
    var org := db.users[actor].org;
    NextIsFresh(WorkOrderNumber, OrderPrefix(day), NumbersOf(db, org));
    assert forall o | o in db.orders && db.orders[o].org == org :: db.orders[o].number in NumbersOf(db, org);
  }

  lemma HandleKeepsNumbersUnique(db: Db, actor: nat, r: Request)
    requires OrdersOk(db) && NumbersUnique(db)
    ensures NumbersUnique(Handle(db, actor, r))
  {
    if Allowed(db, actor, r) && Serve(db, actor, r).Ok? {
      if r.CreateOrderReq? {
        CreationKeepsNumbersUnique(db, actor, r.id, r.day, r.newOrder);
      } else {
        OthersKeepNumbers(db, actor, r);
      }
    }
  }

  lemma OthersKeepNumbers(db: Db, actor: nat, r: Request)
    requires actor in db.users && Serve(db, actor, r).Ok? && !r.CreateOrderReq?
    ensures forall o | o in Serve(db, actor, r).value.orders ::
              && o in db.orders
              && Serve(db, actor, r).value.orders[o].org == db.orders[o].org
              && Serve(db, actor, r).value.orders[o].number == db.orders[o].number
  {
  }

  // Work-order numbers are unique in their organization in every reachable state: taken one
  // request at a time, the generated number never meets the unique constraint.
  lemma {:induction false} OrderNumbersStayUnique(db: Db, calls: seq<Call>)
    requires OrdersOk(db) && NumbersUnique(db)
    ensures NumbersUnique(Run(db, calls))
  {
    if calls != [] {
      var n := |calls| - 1;
      OrderNumbersStayUnique(db, calls[..n]);
      TimelineReplaysToState(db, calls[..n]);
      if calls[n].Call? {
        HandleKeepsNumbersUnique(Run(db, calls[..n]), calls[n].actor, calls[n].request);
      }
    }
  }
}
