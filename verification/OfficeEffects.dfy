/** What each request of an admin takes and leaves behind: when it is served, what it changes,
    what it leaves alone, and who is told. */
module OfficeEffects {
  import opened Text
  import opened Numbering
  import opened Office
  import opened OfficeLifecycle
  import opened OfficeNotifications
  import opened OfficeStaff

  // ---------------------------------------------------------------- activity and roles

  lemma OnlyElement(s: set<nat>, x: nat)
    requires x in s
    ensures |s| <= 1 <==> s == {x}
  {
    assert |s - {x}| == |s| - 1;
  }

  // Only one member differs between the two databases, and the trail grew by these entries.
  ghost predicate MemberSet(db: Db, b: Db, target: nat, row: UserRow, entries: seq<AuditRow>) {
    && target in db.users && b.users.Keys == db.users.Keys && b.users[target] == row
    && (forall u | u in db.users && u != target :: b.users[u] == db.users[u])
    && b.audit == db.audit + entries
    && b.orders == db.orders && b.issued == db.issued && b.notifications == db.notifications
    && b.customers == db.customers && b.closedOrgs == db.closedOrgs && b.clock == db.clock
  }

  // (De)activation is refused only for switching off the organization's one active admin;
  // served, it takes effect, and leaves exactly one entry when it changes anything.
  lemma SetActiveEffect(db: Db, actor: nat, target: nat, active: bool)
    requires Allowed(db, actor, SetActiveReq(target, active)) && DeletedInactive(db)
    ensures var b := Handle(db, actor, SetActiveReq(target, active));
            var org := db.users[actor].org;
            if IsMember(db, org, target) && !(!active && ActiveAdmins(db, org) == {target})
            then && MemberSet(db, b, target, db.users[target].(active := active),
                              if db.users[target].active == active then []
                              else [AuditRow(org, actor, target, if active then StatusActivated
                                  else StatusDeactivated, None, None)])
                 && b.users[target].active == active
            else b == db
  {
    var org := db.users[actor].org;
    if target in ActiveAdmins(db, org) {
      OnlyElement(ActiveAdmins(db, org), target);
    } else {
      assert ActiveAdmins(db, org) != {target};
    }
    assert db.audit + [] == db.audit;
  }

  // A role change is refused only for demoting the organization's one active admin; served,
  // the member has the role asked for.
  lemma SetRoleEffect(db: Db, actor: nat, target: nat, role: Role)
    requires Allowed(db, actor, SetRoleReq(target, role)) && DeletedInactive(db)
    ensures var b := Handle(db, actor, SetRoleReq(target, role));
            var org := db.users[actor].org;
            if IsMember(db, org, target) && !(role == Employee && ActiveAdmins(db, org) == {target})
            then && MemberSet(db, b, target, db.users[target].(role := role),
                              if db.users[target].role == role then []
                              else [AuditRow(org, actor, target, if role == Admin then RolePromoted else RoleDemoted,
                                             Some(db.users[target].role), Some(role))])
                 && b.users[target].role == role
            else b == db
  {
    var org := db.users[actor].org;
    if target in ActiveAdmins(db, org) {
      OnlyElement(ActiveAdmins(db, org), target);
    } else {
      assert ActiveAdmins(db, org) != {target};
    }
    assert db.audit + [] == db.audit;
  }

  // ---------------------------------------------------------------- deletion

  // The member holds an order that still has to be done.
  predicate HoldsOpenOrder(db: Db, target: nat) {
    exists o | o in db.orders ::
      && db.orders[o].assignee == Some(target)
      && (db.orders[o].status == AwaitingAssignment || db.orders[o].status == Assigned
          || db.orders[o].status == InProgress)
  }

  predicate MayDelete(db: Db, actor: nat, target: nat)
    requires actor in db.users
  {
    && IsMember(db, db.users[actor].org, target) && target != actor
    && !HoldsOpenOrder(db, target) && Admins(db, db.users[actor].org) != {target}
  }

  lemma DeleteServedIff(db: Db, actor: nat, target: nat)
    requires actor in db.users
    ensures DeleteMember(db, actor, target).Ok? <==> MayDelete(db, actor, target)
  {
    var org := db.users[actor].org;
    if target in Admins(db, org) {
      OnlyElement(Admins(db, org), target);
    } else {
      assert Admins(db, org) != {target};
    }
    assert HoldsOpenOrder(db, target) <==> HasActiveWorkOrders(db, target);
  }

  // Deletion is soft: the member stays with the mark and switched off, its orders show its
  // name as deleted, and nothing else changes.
  lemma DeleteEffect(db: Db, actor: nat, target: nat)
    requires Allowed(db, actor, DeleteMemberReq(target))
    ensures var b := Handle(db, actor, DeleteMemberReq(target));
            if !MayDelete(db, actor, target) then b == db
            else
              && b.users.Keys == db.users.Keys
              && b.users[target] == db.users[target].(deletedBy := Some(actor), active := false)
              && (forall u | u in db.users && u != target :: b.users[u] == db.users[u])
              && b.orders.Keys == db.orders.Keys
              && (forall o | o in db.orders ::
                    b.orders[o] == if db.orders[o].assignee == Some(target)
                                   then db.orders[o].(assigneeName := Some(db.users[target].name + " (Deleted)"))
                                   else db.orders[o])
              && b.audit == db.audit + [AuditRow(db.users[actor].org, actor, target, UserDeleted, None, None)]
              && b.notifications == db.notifications
  {
    DeleteServedIff(db, actor, target);
  }

  // ---------------------------------------------------------------- assigning

  // Assigning needs an order not yet begun and an employee of the organization. It takes
  // effect at once, and the assignee, and nobody else, is told.
  lemma AssignEffect(db: Db, actor: nat, id: nat, assignee: nat, dueDate: Option<nat>)
    requires Allowed(db, actor, AssignOrderReq(id, assignee, dueDate)) && NotesOk(db)
    ensures var b := Handle(db, actor, AssignOrderReq(id, assignee, dueDate));
            var org := db.users[actor].org;
            if && id in db.orders && db.orders[id].org == org
               && (db.orders[id].status == AwaitingAssignment || db.orders[id].status == Assigned)
               && assignee in db.users && db.users[assignee].org == org && db.users[assignee].role == Employee
            then && b.orders == db.orders[id := b.orders[id]]
                 && b.orders[id] == db.orders[id].(
                      status := Assigned, assignee := Some(assignee), assigneeName := Some(db.users[assignee].name),
                      dueDate := if dueDate == None then db.orders[id].dueDate else dueDate,
                      history := db.orders[id].history + [Changed(actor, AssignedTo, db.orders[id].status, Assigned)])
                 && Sent(db, b) == {Notification(db.clock, org, assignee, WorkAssigned, Some(id))}
                 && b.users == db.users && b.audit == db.audit
            else b == db
  {
    var r := AssignOrderReq(id, assignee, dueDate);
    if Serve(db, actor, r).Ok? {
      var b := Handle(db, actor, r);
      var notice := Notification(db.clock, db.users[actor].org, assignee, WorkAssigned, Some(id));
      assert notice !in db.notifications;
      assert b.notifications == db.notifications + {notice};
    }
  }

  // ---------------------------------------------------------------- creating

  predicate CanCreate(db: Db, actor: nat, id: nat, data: NewOrder)
    requires actor in db.users
  {
    var org := db.users[actor].org;
    && id !in db.issued
    && (data.customer.Some? ==> data.customer.value in db.customers && db.customers[data.customer.value] == org)
    && (db.users[actor].role == Admin && data.assignee.Some? ==>
          && data.assignee.value in db.users && db.users[data.assignee.value].org == org
          && db.users[data.assignee.value].role == Employee)
  }

  lemma CreateServedIff(db: Db, actor: nat, id: nat, day: string, data: NewOrder)
    requires actor in db.users
    ensures CreateOrder(db, actor, id, day, data).Ok? <==> CanCreate(db, actor, id, data)
  {
  }

  // A new order carries its creator, the day's next number and its status from the start;
  // what an admin may decide is empty when an employee raises it.
  lemma CreateEffect(db: Db, actor: nat, id: nat, day: string, data: NewOrder)
    requires actor in db.users && CanCreate(db, actor, id, data) && db.orders.Keys <= db.issued
    ensures CreateOrder(db, actor, id, day, data).Ok?
    ensures var b := CreateOrder(db, actor, id, day, data).value;
            var admin := db.users[actor].role == Admin;
            && id in b.orders && id !in db.orders && b.orders == db.orders[id := b.orders[id]]
            && b.users == db.users && b.audit == db.audit && b.issued == db.issued + {id}
            && var o := b.orders[id];
               && o.org == db.users[actor].org && o.requestedBy == Some(actor) && o.completedAt == None && o.notes == []
               && o.number == Next(WorkOrderNumber, "WO-" + day + "-", NumbersOf(db, o.org))
               && o.assignee == (if admin then data.assignee else None)
               && o.status == (if o.assignee == None then AwaitingAssignment else Assigned)
               && o.history == [CreatedWith(actor, o.status)]
               && o.dueDate == (if admin then data.dueDate else None)
               && (o.assignee.Some? ==> o.assigneeName == Some(db.users[o.assignee.value].name))
               && (o.assignee == None ==> o.assigneeName == if admin then Clean(data.assignedName) else None)
               && o.contact == Strip(data.contact) && o.category == Some(data.category)
  {
  }

  // An order assigned on creation is told to its assignee, and to nobody else.
  lemma CreateTells(db: Db, actor: nat, id: nat, day: string, data: NewOrder)
    requires actor in db.users && CanCreate(db, actor, id, data) && NotesOk(db) && db.users[actor].role == Admin
    ensures CreateOrder(db, actor, id, day, data).Ok?
    ensures Sent(db, CreateOrder(db, actor, id, day, data).value)
         == match data.assignee
            case None => {}
            case Some(u) => {Notification(db.clock, db.users[actor].org, u, WorkAssigned, Some(id))}
  {
    var b := CreateOrder(db, actor, id, day, data).value;
    if data.assignee.Some? {
      var notice := Notification(db.clock, db.users[actor].org, data.assignee.value, WorkAssigned, Some(id));
      assert notice !in db.notifications && b.notifications == db.notifications + {notice};
    }
  }

  // ---------------------------------------------------------------- completing

  // The admins told of something are the active ones of the organization, without the one
  // left out; deleted ones are not among them as they are never active.
  lemma ToldAdminsAre(db: Db, org: nat, exclude: Option<nat>)
    requires DeletedInactive(db)
    ensures ActiveAdminIds(db, org, exclude)
         == ActiveAdmins(db, org) - (if exclude.Some? then {exclude.value} else {})
  {
  }

  ghost function CompletionNotices(db: Db, org: nat, users: set<nat>, id: nat): set<Notification> {
    set u | u in users :: Notification(db.clock, org, u, WorkCompleted, Some(id))
  }

  // Completing tells every active admin of the organization, the actor included, and nobody
  // else; any other progress tells nobody.
  lemma ProgressTells(db: Db, actor: nat, id: nat, status: Status, note: string)
    requires Allowed(db, actor, UpdateStatusReq(id, status, note)) && NotesOk(db) && DeletedInactive(db)
    requires Serve(db, actor, UpdateStatusReq(id, status, note)).Ok?
    ensures var b := Handle(db, actor, UpdateStatusReq(id, status, note));
            var org := db.users[actor].org;
            && id in db.orders
            && Sent(db, b) == (if status == Completed && db.orders[id].status == InProgress
                               then CompletionNotices(db, org, ActiveAdmins(db, org), id) else {})
            && db.notifications <= b.notifications
  {
    var b := Handle(db, actor, UpdateStatusReq(id, status, note));
    var org := db.users[actor].org;
    assert ActiveAdminIds(db, org, None) == ActiveAdmins(db, org);
    if status == Completed && db.orders[id].status == InProgress {
      assert b.notifications == db.notifications + CompletionNotices(db, org, ActiveAdmins(db, org), id);
      assert forall n | n in CompletionNotices(db, org, ActiveAdmins(db, org), id) :: n !in db.notifications;
    }
  }

  // ---------------------------------------------------------------- closing and cancelling

  // Only a completed order closes; its requester, if it has one, and nobody else, is told.
  lemma CloseEffect(db: Db, actor: nat, id: nat)
    requires Allowed(db, actor, CloseOrderReq(id)) && NotesOk(db)
    ensures var b := Handle(db, actor, CloseOrderReq(id));
            if id in db.orders && db.orders[id].org == db.users[actor].org && db.orders[id].status == Completed
            then && b.orders == db.orders[id := b.orders[id]]
                 && b.orders[id] == db.orders[id].(
                      status := Closed, history := db.orders[id].history + [Changed(actor, ClosedByAdmin, Completed,
                          Closed)])
                 && Sent(db, b) == (match db.orders[id].requestedBy
                                    case None => {}
                                    case Some(u) => {Notification(db.clock, db.orders[id].org, u, WorkClosed,
                                        Some(id))})
                 && b.users == db.users && b.audit == db.audit
            else b == db
  {
    var b := Handle(db, actor, CloseOrderReq(id));
    if Serve(db, actor, CloseOrderReq(id)).Ok? && db.orders[id].requestedBy.Some? {
      var notice := Notification(db.clock, db.orders[id].org, db.orders[id].requestedBy.value, WorkClosed, Some(id));
      assert notice !in db.notifications && b.notifications == db.notifications + {notice};
    }
  }

  // An order that waits, is assigned or in progress can be cancelled; nobody is told.
  lemma CancelEffect(db: Db, actor: nat, id: nat)
    requires Allowed(db, actor, CancelOrderReq(id))
    ensures var b := Handle(db, actor, CancelOrderReq(id));
            if && id in db.orders && db.orders[id].org == db.users[actor].org
               && (db.orders[id].status == AwaitingAssignment || db.orders[id].status == Assigned
                   || db.orders[id].status == InProgress)
            then && b.orders == db.orders[id := b.orders[id]]
                 && b.orders[id] == db.orders[id].(
                      status := Cancelled,
                      history := db.orders[id].history + [Changed(actor, CancelledByAdmin, db.orders[id].status,
                          Cancelled)])
                 && b.notifications == db.notifications && b.users == db.users && b.audit == db.audit
            else b == db
  {
  }

  // ---------------------------------------------------------------- deleting an order

  // The order goes and stays gone; what was sent about it is kept without the link, and every
  // other order and notification is as before.
  lemma DeleteOrderEffect(db: Db, actor: nat, id: nat)
    requires Allowed(db, actor, DeleteOrderReq(id))
    ensures var b := Handle(db, actor, DeleteOrderReq(id));
            if id in db.orders && db.orders[id].org == db.users[actor].org
            then && b.orders == db.orders - {id} && b.issued == db.issued
                 && (forall n | n in db.notifications && n.order != Some(id) :: n in b.notifications)
                 && (forall n | n in db.notifications && n.order == Some(id) :: n.(order := None) in b.notifications)
                 && (forall n | n in b.notifications ::
                       n.order != Some(id) && (n in db.notifications || n.order == None))
                 && b.users == db.users && b.audit == db.audit
            else b == db
  {
    var b := Handle(db, actor, DeleteOrderReq(id));
    if b != db {
      forall n | n in db.notifications
        ensures Unlink(n, id) in b.notifications
      {
      }
    }
  }

  // ---------------------------------------------------------------- editing an order

  // What an edit sets a field to: what was given, or what it was.
  function Given<T>(given: Option<T>, before: T): T {
    if given.Some? then given.value else before
  }

  // An edit changes the given fields of one order; the status, the timeline and the
  // notifications are not touched.
  lemma UpdateOrderEffect(db: Db, actor: nat, id: nat, data: OrderUpdate)
    requires Allowed(db, actor, UpdateOrderReq(id, data)) && Serve(db, actor, UpdateOrderReq(id, data)).Ok?
    ensures var b := Handle(db, actor, UpdateOrderReq(id, data));
            && id in db.orders && db.orders[id].org == db.users[actor].org && b.orders == db.orders[id := b.orders[id]]
            && b.notifications == db.notifications && b.users == db.users && b.audit == db.audit
    ensures var o, was := Handle(db, actor, UpdateOrderReq(id, data)).orders[id], db.orders[id];
            && o.status == was.status && o.history == was.history && o.completedAt == was.completedAt
            && o.notes == was.notes && o.number == was.number && o.requestedBy == was.requestedBy
            && o.dueDate == Given(data.dueDate, was.dueDate) && o.assignee == Given(data.assignee, was.assignee)
            && (data.category.Some? ==> o.category == data.category)
            && (data.category == None ==> o.category == was.category)
            && (data.contact.Some? ==> Some(o.contact) == Clean(data.contact.value))
            && (data.contact == None ==> o.contact == was.contact)
  {
  }

  function Typed(data: OrderUpdate): Option<string> {
    if data.assignedName.Some? then Clean(data.assignedName.value) else None
  }

  // The name shown follows the assignee the edit gives, an employee of the organization;
  // without one it is what was typed, and without that what it was.
  lemma UpdateOrderShows(db: Db, actor: nat, id: nat, data: OrderUpdate)
    requires Allowed(db, actor, UpdateOrderReq(id, data)) && Serve(db, actor, UpdateOrderReq(id, data)).Ok?
    ensures id in db.orders && id in Handle(db, actor, UpdateOrderReq(id, data)).orders
    ensures data.assignee.Some? && data.assignee.value.Some? ==>
              var u := data.assignee.value.value;
              && u in db.users && db.users[u].org == db.users[actor].org && db.users[u].role == Employee
              && Handle(db, actor, UpdateOrderReq(id, data)).orders[id].assigneeName == Some(db.users[u].name)
    ensures data.assignee == Some(None) ==>
              Handle(db, actor, UpdateOrderReq(id, data)).orders[id].assigneeName == Typed(data)
    ensures data.assignee == None ==>
              Handle(db, actor, UpdateOrderReq(id, data)).orders[id].assigneeName
              == if data.assignedName == None then db.orders[id].assigneeName else Typed(data)
  {
  }

  // An edit is refused for another organization's order, for a blank contact, for category
  // OTHERS without a description, and for an assignee who is no employee of the organization.
  lemma UpdateOrderServedIff(db: Db, actor: nat, id: nat, data: OrderUpdate)
    requires actor in db.users
    ensures UpdateOrder(db, actor, id, data).Ok? <==>
            && id in db.orders && db.orders[id].org == db.users[actor].org
            && (data.contact.Some? ==> Clean(data.contact.value).Some?)
            && (Given(if data.category.Some? then Some(data.category) else None, db.orders[id].category)
                == Some(Others) ==>
                  Clean(if data.categoryOther.Some? then data.categoryOther.value
                      else db.orders[id].categoryOther).Some?)
            && (data.assignee.Some? && data.assignee.value.Some? ==>
                  var u := data.assignee.value.value;
                  u in db.users && db.users[u].org == db.users[actor].org && db.users[u].role == Employee)
  {
    if data.categoryOther.Some? {
      CleanTwice(data.categoryOther.value);
    }
  }
}
