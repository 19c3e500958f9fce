/** The office database as the services hold it: one mutable object per member and per work
    order, and tables that map identifiers to them. */
module OfficeStore {
  import opened Text
  import opened Numbering
  import opened Office

  class User {
    const id: nat
    const org: nat
    var role: Role
    var active: bool
    var deletedBy: Option<nat>
    var name: string
    var phone: Option<string>
    var email: Option<string>

    constructor (id: nat, row: UserRow)
      ensures this.id == id && Row() == row
    {
      this.id, this.org, this.role, this.active := id, row.org, row.role, row.active;
      this.deletedBy, this.name, this.phone, this.email := row.deletedBy, row.name, row.phone, row.email;
    }

    function Row(): UserRow
      reads this
    {
      UserRow(org, role, active, deletedBy, name, phone, email)
    }

    // Only the fields the update mentions change; the email may be cleared.
    method Edit(data: MemberUpdate)
      modifies this
      ensures Row() == UpdatedMember(old(Row()), data)
    {
      if data.phone.Some? && data.phone.value != "" {
        phone := Some(Strip(data.phone.value));
      }
      if data.email.Some? {
        email := CleanEmail(data.email.value);
      }
      if data.name.Some? && data.name.value != "" {
        name := Strip(data.name.value);
      }
      if data.active.Some? {
        active := data.active.value;
      }
    }

    method MarkDeleted(performedBy: nat)
      modifies this
      ensures Row() == old(Row()).(deletedBy := Some(performedBy), active := false)
    {
      deletedBy := Some(performedBy);
      active := false;
    }
  }

  class WorkOrder {
    const id: nat
    const org: nat
    const number: string
    const requestedBy: Option<nat>
    var status: Status
    var assignee: Option<nat>
    var assigneeName: Option<string>
    var completedAt: Option<nat>
    var dueDate: Option<nat>
    var category: Option<Category>
    var categoryOther: Option<string>
    var contact: string
    var history: seq<Event>
    var notes: seq<string>

    constructor (id: nat, row: OrderRow)
      ensures this.id == id && Row() == row
    {
      this.id, this.org, this.number, this.requestedBy := id, row.org, row.number, row.requestedBy;
      this.status, this.assignee, this.assigneeName := row.status, row.assignee, row.assigneeName;
      this.completedAt, this.dueDate := row.completedAt, row.dueDate;
      this.category, this.categoryOther, this.contact := row.category, row.categoryOther, row.contact;
      this.history, this.notes := row.history, row.notes;
    }

    function Row(): OrderRow
      reads this
    {
      OrderRow(org, number, requestedBy, status, assignee, assigneeName, completedAt, dueDate,
               category, categoryOther, contact, history, notes)
    }

    method AddEvent(e: Event)
      modifies this`history
      ensures history == old(history) + [e]
    {
      history := history + [e];
    }

    method Transition(actor: nat, kind: EventType, to: Status)
      modifies this
      ensures Row() == Move(old(Row()), actor, kind, to)
    {
      var previous := status;
      status := to;
      AddEvent(Changed(actor, kind, previous, to));
    }

    method Progress(actor: nat, to: Status, note: string, now: nat)
      modifies this
      ensures Row() == Progressed(old(Row()), actor, to, note, now)
    {
      var previous := status;
      if to != previous {
        status := to;
        completedAt := if to.Completed? then Some(now) else None;
      }
      if Strip(note) != "" {
        notes := notes + [Strip(note)];
      }
      if status != previous {
        AddEvent(Changed(actor, StatusChanged, previous, status));
      }
    }

    method Reassign(actor: nat, employee: nat, name: string, due: Option<nat>)
      modifies this
      ensures Row() == Reassigned(old(Row()), actor, employee, name, due)
    {
      var previous := status;
      assignee := Some(employee);
      assigneeName := Some(name);
      if due.Some? {
        dueDate := due;
      }
      status := Assigned;
      AddEvent(Changed(actor, AssignedTo, previous, Assigned));
    }

    method EditCategory(data: OrderUpdate)
      modifies this
      ensures Row() == old(Row()).(
                category := UpdatedCategory(old(Row()), data),
                categoryOther := var c := UpdatedCategory(old(Row()), data);
                                 if c.Some? && c.value != Others then None else UpdatedOther(old(Row()), data))
    {
      if data.category.Some? {
        category := data.category;
      }
      if data.categoryOther.Some? {
        categoryOther := Clean(data.categoryOther.value);
      }
      if category.Some? && category.value != Others {
        categoryOther := None;
      }
    }

    method EditAssignee(data: OrderUpdate, name: Option<string>)
      modifies this
      ensures Row() == old(Row()).(
                assignee := if data.assignee.Some? then data.assignee.value else old(assignee),
                assigneeName := UpdatedName(old(Row()), data, name))
    {
      if data.assignedName.Some? {
        assigneeName := Clean(data.assignedName.value);
      }
      if data.assignee.Some? {
        assignee := data.assignee.value;
        if assignee.Some? {
          assigneeName := name;
        } else if data.assignedName.None? {
          assigneeName := None;
        }
      }
    }

    method Edit(data: OrderUpdate, name: Option<string>)
      modifies this
      ensures Row() == UpdatedRow(old(Row()), data, name)
    {
      EditCategory(data);
      if data.contact.Some? && Clean(data.contact.value).Some? {
        contact := Clean(data.contact.value).value;
      }
      EditAssignee(data, name);
      if data.dueDate.Some? {
        dueDate := data.dueDate.value;
      }
    }
  }

  class Database {
    var users: map<nat, User>
    var customers: map<nat, nat>
    var orders: map<nat, WorkOrder>
    var issued: set<nat>
    var notifications: set<Notification>
    var audit: seq<AuditRow>
    var closedOrgs: set<nat>
    var clock: nat

    ghost predicate Valid()
      reads this`users, this`orders
    {
      && (forall u | u in users :: users[u].id == u)
      && (forall o | o in orders :: orders[o].id == o)
    }

    ghost function UserRows(): map<nat, UserRow>
      reads this`users, users.Values
    {
      map u | u in users :: users[u].Row()
    }

    ghost function OrderRows(): map<nat, OrderRow>
      reads this`orders, orders.Values
    {
      map o | o in orders :: orders[o].Row()
    }

    ghost function Abs(): Db
      reads this, users.Values, orders.Values
    {
      Db(UserRows(), customers, OrderRows(), issued, notifications, audit, closedOrgs, clock)
    }

    // ------------------------------------------------ queries

    method CountActiveAdmins(org: nat) returns (n: nat)
      ensures n == |ActiveAdmins(Abs(), org)|
    {
      var found := set u | u in users && users[u].org == org && users[u].role == Admin
                           && users[u].active && users[u].deletedBy.None?;
      assert found == ActiveAdmins(Abs(), org);
      return |found|;
    }

    method CountAdmins(org: nat) returns (n: nat)
      ensures n == |Admins(Abs(), org)|
    {
      var found := set u | u in users && users[u].org == org && users[u].role == Admin && users[u].deletedBy.None?;
      assert found == Admins(Abs(), org);
      return |found|;
    }

    method FindActiveAdminIds(org: nat, exclude: Option<nat>) returns (ids: set<nat>)
      ensures ids == ActiveAdminIds(Abs(), org, exclude)
    {
      ids := set u | u in users && users[u].org == org && users[u].role == Admin && users[u].active
          && exclude != Some(u);
    }

    method IsPhoneTaken(phone: string, exclude: Option<nat>) returns (taken: bool)
      ensures taken == PhoneTaken(Abs(), phone, exclude)
    {
      taken := exists u | u in users :: users[u].phone == Some(Strip(phone)) && exclude != Some(u);
      assert forall u | u in users :: Abs().users[u] == users[u].Row();
    }

    method IsEmailTaken(email: string, exclude: Option<nat>) returns (taken: bool)
      ensures taken == EmailTaken(Abs(), email, exclude)
    {
      taken := exists u | u in users ::
        users[u].email.Some? && Lower(users[u].email.value) == Lower(email) && exclude != Some(u);
      assert forall u | u in users :: Abs().users[u] == users[u].Row();
    }

    method HoldsActiveOrders(user: nat) returns (holds: bool)
      ensures holds == HasActiveWorkOrders(Abs(), user)
    {
      holds := exists o | o in orders :: orders[o].assignee == Some(user) && ActiveStatus(orders[o].status);
      assert forall o | o in orders :: Abs().orders[o] == orders[o].Row();
    }

    method NextOrderNumber(org: nat, day: string) returns (number: string)
      ensures number == Next(WorkOrderNumber, OrderPrefix(day), NumbersOf(Abs(), org))
      ensures number !in NumbersOf(Abs(), org)
    {
      var numbers := set o | o in orders && orders[o].org == org :: orders[o].number;
      assert numbers == NumbersOf(Abs(), org) by {
        assert forall o | o in orders :: Abs().orders[o] == orders[o].Row();
      }
      NextIsFresh(WorkOrderNumber, OrderPrefix(day), numbers);
      number := NextNumber(WorkOrderNumber, OrderPrefix(day), numbers);
    }

    method IsNumberTaken(org: nat, number: string) returns (taken: bool)
      ensures taken == (number in NumbersOf(Abs(), org))
    {
      taken := exists o | o in orders :: orders[o].org == org && orders[o].number == number;
      assert forall o | o in orders :: Abs().orders[o] == orders[o].Row();
    }

    // ------------------------------------------------ writes

    // Members of different ids are different objects, so changing one member changes its row only.
    twostate lemma UserChanged(t: nat)
      requires old(Valid()) && users == old(users) && orders == old(orders) && t in users
      requires forall u | u in users && u != t :: users[u].Row() == old(users[u].Row())
      requires forall o | o in orders :: orders[o].Row() == old(orders[o].Row())
      ensures UserRows() == old(UserRows())[t := users[t].Row()] && OrderRows() == old(OrderRows())
    {
    }

    twostate lemma OrderChanged(t: nat)
      requires old(Valid()) && users == old(users) && orders == old(orders) && t in orders
      requires forall o | o in orders && o != t :: orders[o].Row() == old(orders[o].Row())
      requires forall u | u in users :: users[u].Row() == old(users[u].Row())
      ensures OrderRows() == old(OrderRows())[t := orders[t].Row()] && UserRows() == old(UserRows())
    {
    }

    method AddUser(id: nat, row: UserRow)
      requires Valid() && id !in users
      modifies this`users
      ensures Valid() && Abs() == SetUser(old(Abs()), id, row)
    {
      var user := new User(id, row);
      users := users[id := user];
      assert UserRows() == old(UserRows())[id := row];
    }

    method EditUser(id: nat, data: MemberUpdate)
      requires Valid() && id in users
      modifies users[id]
      ensures Valid() && Abs() == SetUser(old(Abs()), id, UpdatedMember(old(Abs()).users[id], data))
    {
      users[id].Edit(data);
      UserChanged(id);
    }

    method SetUserActive(id: nat, active: bool)
      requires Valid() && id in users
      modifies users[id]
      ensures Valid() && Abs() == SetUser(old(Abs()), id, old(Abs()).users[id].(active := active))
    {
      users[id].active := active;
      UserChanged(id);
    }

    method SetUserRole(id: nat, role: Role)
      requires Valid() && id in users
      modifies users[id]
      ensures Valid() && Abs() == SetUser(old(Abs()), id, old(Abs()).users[id].(role := role))
    {
      users[id].role := role;
      UserChanged(id);
    }

    method MarkUserDeleted(id: nat, performedBy: nat)
      requires Valid() && id in users
      modifies users[id]
      ensures Valid()
      ensures Abs() == SetUser(old(Abs()), id, old(Abs()).users[id].(deletedBy := Some(performedBy), active := false))
    {
      users[id].MarkDeleted(performedBy);
      UserChanged(id);
    }

    method RecordAudit(org: nat, performedBy: nat, affected: nat, action: AuditAction,
                       oldRole: Option<Role>, newRole: Option<Role>)
      modifies this`audit
      ensures Abs() == Record(old(Abs()), org, performedBy, affected, action, oldRole, newRole)
    {
      audit := audit + [AuditRow(org, performedBy, affected, action, oldRole, newRole)];
    }

    // One notification per recipient, in whatever order the recipients come.
    method NotifyAll(org: nat, recipients: set<nat>, ntype: NotificationType, order: nat)
      modifies this`notifications
      ensures Abs() == Notify(old(Abs()), org, recipients, ntype, order)
    {
      var rest := recipients;
      while rest != {}
        invariant rest <= recipients
        invariant notifications == old(notifications)
                                   + set u | u in recipients - rest :: Notification(clock, org, u, ntype, Some(order))
        decreases rest
      {
        var u :| u in rest;
        rest := rest - {u};
        notifications := notifications + {Notification(clock, org, u, ntype, Some(order))};
      }
    }

    method RestampNames(user: nat, shown: string)
      requires Valid()
      modifies orders.Values
      ensures Valid() && Abs() == old(Abs()).(orders := Restamp(old(Abs()).orders, user, shown))
    {
      forall o | o in orders && orders[o].assignee == Some(user) {
        orders[o].assigneeName := Some(shown);
      }
      assert OrderRows() == Restamp(old(OrderRows()), user, shown);
      assert UserRows() == old(UserRows());
    }

    // Soft deletion: the member is marked and its orders carry the new label.
    method RemoveUser(id: nat, performedBy: nat)
      requires Valid() && id in users
      modifies users[id], orders.Values
      ensures Valid()
      ensures var u := old(Abs()).users[id];
              Abs() == SetUser(old(Abs()), id, u.(deletedBy := Some(performedBy), active := false)).(
                orders := Restamp(old(Abs()).orders, id, u.name + DELETED_SUFFIX))
    {
      var shown := users[id].name + DELETED_SUFFIX;
      MarkUserDeleted(id, performedBy);
      RestampNames(id, shown);
    }

    method Tick()
      modifies this`clock
      ensures Abs() == old(Abs()).(clock := old(Abs()).clock + 1)
    {
      clock := clock + 1;
    }

    method AddOrder(id: nat, row: OrderRow)
      requires Valid()
      modifies this`orders, this`issued, this`clock
      ensures Valid() && Abs() == SetOrder(old(Abs()), id, row).(issued := old(Abs()).issued + {id})
    {
      var order := new WorkOrder(id, row);
      orders := orders[id := order];
      issued := issued + {id};
      assert OrderRows() == old(OrderRows())[id := row];
      Tick();
    }

    method RemoveOrder(id: nat)
      requires Valid()
      modifies this`orders, this`notifications, this`clock
      ensures Valid()
      ensures Abs() == old(Abs()).(orders := old(Abs()).orders - {id},
                                   notifications := set n | n in old(Abs()).notifications :: Unlink(n, id),
                                   clock := old(Abs()).clock + 1)
    {
      orders := orders - {id};
      notifications := set n | n in notifications :: Unlink(n, id);
      assert OrderRows() == old(OrderRows()) - {id};
      Tick();
    }

    method TransitionOrder(id: nat, actor: nat, kind: EventType, to: Status)
      requires Valid() && id in orders
      modifies orders[id], this`clock
      ensures Valid() && Abs() == SetOrder(old(Abs()), id, Move(old(Abs()).orders[id], actor, kind, to))
    {
      orders[id].Transition(actor, kind, to);
      OrderChanged(id);
      Tick();
    }

    method ProgressOrder(id: nat, actor: nat, to: Status, note: string)
      requires Valid() && id in orders
      modifies orders[id], this`clock
      ensures Valid()
      ensures Abs() == SetOrder(old(Abs()), id, Progressed(old(Abs()).orders[id], actor, to, note, old(clock)))
    {
      orders[id].Progress(actor, to, note, clock);
      OrderChanged(id);
      Tick();
    }

    method ReassignOrder(id: nat, actor: nat, assignee: nat, name: string, dueDate: Option<nat>)
      requires Valid() && id in orders
      modifies orders[id], this`clock
      ensures Valid()
      ensures Abs() == SetOrder(old(Abs()), id, Reassigned(old(Abs()).orders[id], actor, assignee, name, dueDate))
    {
      orders[id].Reassign(actor, assignee, name, dueDate);
      OrderChanged(id);
      Tick();
    }

    method EditOrder(id: nat, data: OrderUpdate, name: Option<string>)
      requires Valid() && id in orders
      modifies orders[id], this`clock
      ensures Valid() && Abs() == SetOrder(old(Abs()), id, UpdatedRow(old(Abs()).orders[id], data, name))
    {
      orders[id].Edit(data, name);
      OrderChanged(id);
      Tick();
    }
  }
}
