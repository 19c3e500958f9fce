/** The office database - staff, work orders, notifications and the audit trail - and what
    each request does to it, taken as one atomic step. */
module Office {
  import opened Text
  import opened Numbering

  // ---------------------------------------------------------------- rows

  datatype Role = Admin | Employee

  datatype Status = AwaitingAssignment | Assigned | InProgress | Completed | Closed | Cancelled

  datatype Category =
    | IncomeTaxWork | GstWork | ProjectReport | AuditWork | Roc | FinancialStatement | Tds | Accounting | Others

  // `deletedBy` is set exactly for soft-deleted members.
  datatype UserRow = UserRow(org: nat, role: Role, active: bool, deletedBy: Option<nat>,
                             name: string, phone: Option<string>, email: Option<string>)
  {
    predicate Deleted() { deletedBy.Some? }
  }

  // A timeline entry carries the statuses its message spells out.
  datatype EventType = StatusChanged | AssignedTo | ClosedByAdmin | CancelledByAdmin

  datatype Event =
    | CreatedWith(actor: nat, status: Status)
    | Changed(actor: nat, kind: EventType, from: Status, to: Status)

  datatype OrderRow = OrderRow(
    org: nat, number: string, requestedBy: Option<nat>,
    status: Status, assignee: Option<nat>, assigneeName: Option<string>, completedAt: Option<nat>,
    dueDate: Option<nat>, category: Option<Category>, categoryOther: Option<string>, contact: string,
    history: seq<Event>, notes: seq<string>)

  datatype NotificationType = WorkRequested | WorkAssigned | WorkCompleted | WorkClosed

  // `stamp` tells apart the notifications of different requests.
  datatype Notification = Notification(stamp: nat, org: nat, user: nat, ntype: NotificationType, order: Option<nat>)

  datatype AuditAction = RolePromoted | RoleDemoted | StatusActivated | StatusDeactivated | UserDeleted

  datatype AuditRow = AuditRow(org: nat, performedBy: nat, affected: nat, action: AuditAction,
                               oldRole: Option<Role>, newRole: Option<Role>)

  // `issued` are the order ids ever handed out: identifiers are never reused. No request
  // switches an organization off or on.
  datatype Db = Db(users: map<nat, UserRow>, customers: map<nat, nat>, orders: map<nat, OrderRow>, issued: set<nat>,
                   notifications: set<Notification>, audit: seq<AuditRow>, closedOrgs: set<nat>, clock: nat)

  datatype Error = Unauthenticated | Forbidden | NotFound | Conflict | Invalid

  datatype Result<+T> = Ok(value: T) | Err(error: Error)

  // ---------------------------------------------------------------- staff queries

  function ActiveAdmins(db: Db, org: nat): set<nat> {
    set u | u in db.users && db.users[u].org == org && db.users[u].role == Admin
            && db.users[u].active && !db.users[u].Deleted()
  }

  function Admins(db: Db, org: nat): set<nat> {
    set u | u in db.users && db.users[u].org == org && db.users[u].role == Admin && !db.users[u].Deleted()
  }

  // The recipients of admin notifications: this query does not look at deletion.
  function ActiveAdminIds(db: Db, org: nat, exclude: Option<nat>): set<nat> {
    set u | u in db.users && db.users[u].org == org && db.users[u].role == Admin
            && db.users[u].active && exclude != Some(u)
  }

  predicate IsMember(db: Db, org: nat, target: nat) {
    target in db.users && db.users[target].org == org && !db.users[target].Deleted()
  }

  predicate PhoneTaken(db: Db, phone: string, exclude: Option<nat>) {
    exists u | u in db.users :: db.users[u].phone == Some(Strip(phone)) && exclude != Some(u)
  }

  predicate EmailTaken(db: Db, email: string, exclude: Option<nat>) {
    exists u | u in db.users ::
      db.users[u].email.Some? && Lower(db.users[u].email.value) == Lower(email) && exclude != Some(u)
  }

  predicate ActiveStatus(s: Status) {
    s.AwaitingAssignment? || s.Assigned? || s.InProgress?
  }

  predicate HasActiveWorkOrders(db: Db, user: nat) {
    exists o | o in db.orders :: db.orders[o].assignee == Some(user) && ActiveStatus(db.orders[o].status)
  }

  function CleanEmail(s: Option<string>): Option<string> {
    if Clean(s).None? then None else Some(Lower(Clean(s).value))
  }

  // ---------------------------------------------------------------- staff requests

  datatype NewMember = NewMember(name: string, phone: string, email: Option<string>, active: bool)

  // Fields left out of an update are None; an email may be set to nothing.
  datatype MemberUpdate = MemberUpdate(phone: Option<string>, email: Option<Option<string>>, name: Option<string>,
                                       active: Option<bool>)

  function Record(db: Db, org: nat, performedBy: nat, affected: nat, action: AuditAction,
                  oldRole: Option<Role>, newRole: Option<Role>): Db
  {
    db.(audit := db.audit + [AuditRow(org, performedBy, affected, action, oldRole, newRole)])
  }

  function CreateMember(db: Db, actor: nat, id: nat, data: NewMember): Result<Db>
    requires actor in db.users
  {
    if PhoneTaken(db, Strip(data.phone), None) then Err(Conflict)
    else if CleanEmail(data.email).Some? && EmailTaken(db, CleanEmail(data.email).value, None) then Err(Conflict)
    else if id in db.users then Err(Conflict)
    else
      Ok(db.(users := db.users[id := UserRow(db.users[actor].org, Employee, data.active, None,
                                             Strip(data.name), Some(Strip(data.phone)), CleanEmail(data.email))]))
  }

  function UpdatedMember(u: UserRow, data: MemberUpdate): UserRow {
    u.(phone := if data.phone.Some? && data.phone.value != "" then Some(Strip(data.phone.value)) else u.phone,
       email := if data.email.Some? then CleanEmail(data.email.value) else u.email,
       name := if data.name.Some? && data.name.value != "" then Strip(data.name.value) else u.name,
       active := if data.active.Some? then data.active.value else u.active)
  }

  predicate UpdateClashes(db: Db, target: nat, data: MemberUpdate) {
    || (data.phone.Some? && data.phone.value != "" && PhoneTaken(db, Strip(data.phone.value), Some(target)))
    || (data.email.Some? && CleanEmail(data.email.value).Some?
        && EmailTaken(db, CleanEmail(data.email.value).value, Some(target)))
  }

  function SetUser(db: Db, id: nat, u: UserRow): Db {
    db.(users := db.users[id := u])
  }

  function UpdateMember(db: Db, actor: nat, target: nat, data: MemberUpdate): Result<Db>
    requires actor in db.users
  {
    if !IsMember(db, db.users[actor].org, target) then Err(NotFound)
    else if UpdateClashes(db, target, data) then Err(Conflict)
    else Ok(SetUser(db, target, UpdatedMember(db.users[target], data)))
  }

  function SetActive(db: Db, actor: nat, target: nat, active: bool): Result<Db>
    requires actor in db.users
  {
    var org := db.users[actor].org;
    if !IsMember(db, org, target) then Err(NotFound)
    else
      var u := db.users[target];
      if u.active == active then Ok(db)
      else if !active && u.role == Admin && u.active && |ActiveAdmins(db, org)| <= 1 then Err(Conflict)
      else
        Ok(Record(SetUser(db, target, u.(active := active)), org, actor, target,
                  if active then StatusActivated else StatusDeactivated, None, None))
  }

  function SetRole(db: Db, actor: nat, target: nat, role: Role): Result<Db>
    requires actor in db.users
  {
    var org := db.users[actor].org;
    if !IsMember(db, org, target) then Err(NotFound)
    else
      var u := db.users[target];
      if u.role == role then Ok(db)
      else if u.role == Admin && role == Employee && u.active && |ActiveAdmins(db, org)| <= 1 then Err(Conflict)
      else
        Ok(Record(SetUser(db, target, u.(role := role)), org, actor, target,
                  if role == Admin then RolePromoted else RoleDemoted, Some(u.role), Some(role)))
  }

  const DELETED_SUFFIX := " (Deleted)"

  // Every order assigned to the member shows the label from now on.
  function Restamp(orders: map<nat, OrderRow>, user: nat, shown: string): map<nat, OrderRow> {
    map o | o in orders ::
      if orders[o].assignee == Some(user) then orders[o].(assigneeName := Some(shown)) else orders[o]
  }

  function DeleteMember(db: Db, actor: nat, target: nat): Result<Db>
    requires actor in db.users
  {
    var org := db.users[actor].org;
    if !IsMember(db, org, target) then Err(NotFound)
    else
      var u := db.users[target];
      if u.role == Admin && |Admins(db, org)| <= 1 then Err(Conflict)
      else if target == actor then Err(Invalid)
      else if HasActiveWorkOrders(db, target) then Err(Conflict)
      else
        var gone := SetUser(db, target, u.(deletedBy := Some(actor), active := false));
        Ok(Record(gone.(orders := Restamp(db.orders, target, u.name + DELETED_SUFFIX)),
                  org, actor, target, UserDeleted, None, None))
  }

  // ---------------------------------------------------------------- work-order requests

  datatype NewOrder = NewOrder(category: Category, categoryOther: Option<string>, customer: Option<nat>,
                               contact: string, assignee: Option<nat>, assignedName: Option<string>,
                               dueDate: Option<nat>)

  // Fields left out of an update are None; most may also be set to nothing.
  datatype OrderUpdate = OrderUpdate(category: Option<Category>, categoryOther: Option<Option<string>>,
                                     contact: Option<Option<string>>, assignedName: Option<Option<string>>,
                                     assignee: Option<Option<nat>>, dueDate: Option<Option<nat>>)

  function OrderPrefix(day: string): string {
    "WO-" + day + "-"
  }

  ghost function NumbersOf(db: Db, org: nat): set<string> {
    set o | o in db.orders && db.orders[o].org == org :: db.orders[o].number
  }

  // An assignee must be an employee of the organization; being inactive or deleted is no obstacle.
  predicate CanBeAssigned(db: Db, org: nat, user: nat) {
    user in db.users && db.users[user].org == org && db.users[user].role == Employee
  }

  predicate AssigneeOk(db: Db, org: nat, assignee: Option<nat>) {
    assignee.Some? ==> CanBeAssigned(db, org, assignee.value)
  }

  function NameOf(db: Db, org: nat, assignee: Option<nat>): Option<string>
    requires AssigneeOk(db, org, assignee)
  {
    if assignee.Some? then Some(db.users[assignee.value].name) else None
  }

  function Notify(db: Db, org: nat, users: set<nat>, ntype: NotificationType, order: nat): Db {
    db.(notifications := db.notifications + set u | u in users :: Notification(db.clock, org, u, ntype, Some(order)))
  }

  predicate CustomerOk(db: Db, org: nat, customer: Option<nat>) {
    customer.Some? ==> customer.value in db.customers && db.customers[customer.value] == org
  }

  // The row of a new order. Only admins may assign, name somebody or set a due date.
  function StartedOrder(db: Db, actor: nat, number: string, data: NewOrder): OrderRow
    requires actor in db.users
    requires db.users[actor].role == Admin ==> AssigneeOk(db, db.users[actor].org, data.assignee)
  {
    var org := db.users[actor].org;
    var admin := db.users[actor].role == Admin;
    var assignee := if admin then data.assignee else None;
    var status := if assignee.Some? then Assigned else AwaitingAssignment;
    OrderRow(org, number, Some(actor), status, assignee,
             if assignee.Some? then NameOf(db, org, assignee) else if admin then Clean(data.assignedName) else None,
             None, if admin then data.dueDate else None,
             Some(data.category), if data.category == Others then Clean(data.categoryOther) else None,
             Strip(data.contact), [CreatedWith(actor, status)], [])
  }

  // A request goes to the admins, an order assigned on creation to its assignee.
  function CreationNotices(db: Db, actor: nat, id: nat, data: NewOrder): Db
    requires actor in db.users
  {
    var org := db.users[actor].org;
    if db.users[actor].role != Admin then Notify(db, org, ActiveAdminIds(db, org, Some(actor)), WorkRequested, id)
    else if data.assignee.Some? then Notify(db, org, {data.assignee.value}, WorkAssigned, id)
    else db
  }

  // The day's next number in the acting member's organization.
  ghost function NextOrder(db: Db, actor: nat, day: string): string
    requires actor in db.users
  {
    Next(WorkOrderNumber, OrderPrefix(day), NumbersOf(db, db.users[actor].org))
  }

  function CreatedOrder(db: Db, actor: nat, id: nat, number: string, data: NewOrder): Db
    requires actor in db.users
    requires db.users[actor].role == Admin ==> AssigneeOk(db, db.users[actor].org, data.assignee)
  {
    SetOrder(CreationNotices(db, actor, id, data), id, StartedOrder(db, actor, number, data)).(
      issued := db.issued + {id})
  }

  ghost function CreateOrder(db: Db, actor: nat, id: nat, day: string, data: NewOrder): Result<Db>
    requires actor in db.users
  {
    var org := db.users[actor].org;
    if db.users[actor].role == Admin && !AssigneeOk(db, org, data.assignee) then Err(Invalid)
    else if !CustomerOk(db, org, data.customer) then Err(Invalid)
    else if id in db.issued then Err(Conflict)
    else
      Ok(CreatedOrder(db, actor, id, NextOrder(db, actor, day), data))
  }

  predicate OwnOrder(db: Db, actor: nat, id: nat)
    requires actor in db.users
  {
    id in db.orders && db.orders[id].org == db.users[actor].org
  }

  function SetOrder(db: Db, id: nat, row: OrderRow): Db {
    db.(orders := db.orders[id := row], clock := db.clock + 1)
  }

  function Move(row: OrderRow, actor: nat, kind: EventType, to: Status): OrderRow {
    row.(status := to, history := row.history + [Changed(actor, kind, row.status, to)])
  }

  predicate NextProgress(from: Status, to: Status) {
    (from.Assigned? && to.InProgress?) || (from.InProgress? && to.Completed?)
  }

  // One progress step with its timeline entry; completing stamps the time.
  function Progressed(row: OrderRow, actor: nat, status: Status, note: string, now: nat): OrderRow {
    var noted := if Strip(note) != "" then row.(notes := row.notes + [Strip(note)]) else row;
    if status == row.status then noted
    else Move(noted, actor, StatusChanged, status).(completedAt := if status.Completed? then Some(now) else None)
  }

  // Every active admin hears of a completion.
  function ProgressNotices(db: Db, id: nat, status: Status): Db
    requires id in db.orders
  {
    var row := db.orders[id];
    if status.Completed? && row.status != Completed
    then Notify(db, row.org, ActiveAdminIds(db, row.org, None), WorkCompleted, id)
    else db
  }

  function UpdateStatus(db: Db, actor: nat, id: nat, status: Status, note: string): Result<Db>
    requires actor in db.users
  {
    if !OwnOrder(db, actor, id) then Err(NotFound)
    else
      var row := db.orders[id];
      if db.users[actor].role != Admin && row.assignee != Some(actor) then Err(Forbidden)
      else if status != row.status && !NextProgress(row.status, status) then Err(Invalid)
      else
        Ok(SetOrder(ProgressNotices(db, id, status), id, Progressed(row, actor, status, note, db.clock)))
  }

  function Reassigned(row: OrderRow, actor: nat, assignee: nat, name: string, dueDate: Option<nat>): OrderRow {
    Move(row, actor, AssignedTo, Assigned).(
      assignee := Some(assignee), assigneeName := Some(name),
      dueDate := if dueDate.Some? then dueDate else row.dueDate)
  }

  function AssignOrder(db: Db, actor: nat, id: nat, assignee: nat, dueDate: Option<nat>): Result<Db>
    requires actor in db.users
  {
    if !OwnOrder(db, actor, id) then Err(NotFound)
    else
      var row := db.orders[id];
      if !(row.status.AwaitingAssignment? || row.status.Assigned?) then Err(Invalid)
      else if !CanBeAssigned(db, row.org, assignee) then Err(Invalid)
      else
        Ok(SetOrder(Notify(db, row.org, {assignee}, WorkAssigned, id), id,
                    Reassigned(row, actor, assignee, db.users[assignee].name, dueDate)))
  }

  // The requester hears of the closing, when there is one.
  function ClosingNotices(db: Db, id: nat): Db
    requires id in db.orders
  {
    var row := db.orders[id];
    if row.requestedBy.Some? then Notify(db, row.org, {row.requestedBy.value}, WorkClosed, id) else db
  }

  function CloseOrder(db: Db, actor: nat, id: nat): Result<Db>
    requires actor in db.users
  {
    if !OwnOrder(db, actor, id) then Err(NotFound)
    else
      var row := db.orders[id];
      if !row.status.Completed? then Err(Invalid)
      else
        Ok(SetOrder(ClosingNotices(db, id), id, Move(row, actor, ClosedByAdmin, Closed)))
  }

  function CancelOrder(db: Db, actor: nat, id: nat): Result<Db>
    requires actor in db.users
  {
    if !OwnOrder(db, actor, id) then Err(NotFound)
    else
      var row := db.orders[id];
      if !ActiveStatus(row.status) then Err(Invalid)
      else Ok(SetOrder(db, id, Move(row, actor, CancelledByAdmin, Cancelled)))
  }

  function UpdatedCategory(row: OrderRow, data: OrderUpdate): Option<Category> {
    if data.category.Some? then data.category else row.category
  }

  function UpdatedOther(row: OrderRow, data: OrderUpdate): Option<string> {
    if data.categoryOther.Some? then Clean(data.categoryOther.value) else row.categoryOther
  }

  // The assignee's name after an update; `name` is that of the assignee the update gives.
  function UpdatedName(row: OrderRow, data: OrderUpdate, name: Option<string>): Option<string> {
    var typed := if data.assignedName.Some? then Clean(data.assignedName.value) else row.assigneeName;
    if data.assignee.None? then typed
    else if data.assignee.value.Some? then name
    else if data.assignedName.None? then None
    else typed
  }

  // The status is not touched.
  function UpdatedRow(row: OrderRow, data: OrderUpdate, name: Option<string>): OrderRow {
    var category := UpdatedCategory(row, data);
    row.(category := category,
         categoryOther := if category.Some? && category.value != Others then None else UpdatedOther(row, data),
         contact := if data.contact.Some? && Clean(data.contact.value).Some? then Clean(data.contact.value).value
                    else row.contact,
         assignee := if data.assignee.Some? then data.assignee.value else row.assignee,
         assigneeName := UpdatedName(row, data, name),
         dueDate := if data.dueDate.Some? then data.dueDate.value else row.dueDate)
  }

  predicate UpdateInvalid(row: OrderRow, data: OrderUpdate) {
    || (UpdatedCategory(row, data) == Some(Others) && Clean(UpdatedOther(row, data)).None?)
    || (data.contact.Some? && Clean(data.contact.value).None?)
  }

  function UpdateOrder(db: Db, actor: nat, id: nat, data: OrderUpdate): Result<Db>
    requires actor in db.users
  {
    if !OwnOrder(db, actor, id) then Err(NotFound)
    else
      var row := db.orders[id];
      var assignee := if data.assignee.Some? then data.assignee.value else None;
      if UpdateInvalid(row, data) then Err(Invalid)
      else if !AssigneeOk(db, row.org, assignee) then Err(Invalid)
      else Ok(SetOrder(db, id, UpdatedRow(row, data, NameOf(db, row.org, assignee))))
  }

  function Unlink(n: Notification, id: nat): Notification {
    if n.order == Some(id) then n.(order := None) else n
  }

  // Deleting an order takes its timeline and notes along and unlinks its notifications.
  function DeleteOrder(db: Db, actor: nat, id: nat): Result<Db>
    requires actor in db.users
  {
    if !OwnOrder(db, actor, id) then Err(NotFound)
    else
      Ok(db.(orders := db.orders - {id},
             notifications := set n | n in db.notifications :: Unlink(n, id),
             clock := db.clock + 1))
  }

  // ---------------------------------------------------------------- requests and runs

  datatype Request =
    | CreateMemberReq(id: nat, newMember: NewMember)
    | UpdateMemberReq(target: nat, memberUpdate: MemberUpdate)
    | SetActiveReq(target: nat, active: bool)
    | SetRoleReq(target: nat, role: Role)
    | DeleteMemberReq(target: nat)
    | CreateOrderReq(id: nat, day: string, newOrder: NewOrder)
    | UpdateStatusReq(id: nat, status: Status, note: string)
    | AssignOrderReq(id: nat, assignee: nat, dueDate: Option<nat>)
    | CloseOrderReq(id: nat)
    | CancelOrderReq(id: nat)
    | UpdateOrderReq(id: nat, orderUpdate: OrderUpdate)
    | DeleteOrderReq(id: nat)

  // Raising a work request and progressing one are open to employees; the rest is not.
  predicate AdminOnly(r: Request) {
    !r.CreateOrderReq? && !r.UpdateStatusReq?
  }

  // What the request schema lets through.
  predicate WellFormed(r: Request) {
    match r
    case UpdateStatusReq(_, status, _) => status.InProgress? || status.Completed?
    case CreateOrderReq(_, _, data) => data.category == Others ==> Clean(data.categoryOther).Some?
    case _ => true
  }

  ghost function Serve(db: Db, actor: nat, r: Request): Result<Db>
    requires actor in db.users
  {
    match r
    case CreateMemberReq(id, data) => CreateMember(db, actor, id, data)
    case UpdateMemberReq(target, data) => UpdateMember(db, actor, target, data)
    case SetActiveReq(target, active) => SetActive(db, actor, target, active)
    case SetRoleReq(target, role) => SetRole(db, actor, target, role)
    case DeleteMemberReq(target) => DeleteMember(db, actor, target)
    case CreateOrderReq(id, day, data) => CreateOrder(db, actor, id, day, data)
    case UpdateStatusReq(id, status, note) => UpdateStatus(db, actor, id, status, note)
    case AssignOrderReq(id, assignee, dueDate) => AssignOrder(db, actor, id, assignee, dueDate)
    case CloseOrderReq(id) => CloseOrder(db, actor, id)
    case CancelOrderReq(id) => CancelOrder(db, actor, id)
    case UpdateOrderReq(id, data) => UpdateOrder(db, actor, id, data)
    case DeleteOrderReq(id) => DeleteOrder(db, actor, id)
  }

  // Who may have a request served: an active user of an organization that is not switched
  // off, an admin where the route asks for one.
  predicate Allowed(db: Db, actor: nat, r: Request) {
    && actor in db.users && db.users[actor].active && db.users[actor].org !in db.closedOrgs && WellFormed(r)
    && (AdminOnly(r) ==> db.users[actor].role == Admin)
  }

  // A refused request leaves the database as it was.
  ghost function Handle(db: Db, actor: nat, r: Request): Db {
    if Allowed(db, actor, r) && Serve(db, actor, r).Ok? then Serve(db, actor, r).value else db
  }

  // ---------------------------------------------------------------- signing up

  // Who signs up, without anybody acting for them; the name is given or derived beforehand.
  datatype Person = Person(name: string, phone: Option<string>, email: Option<string>)

  function EmailGiven(person: Person): Option<string> {
    if person.email.None? then None else Clean(Some(Lower(person.email.value)))
  }

  predicate HasAdmin(db: Db, org: nat) {
    exists u | u in db.users :: db.users[u].org == org && db.users[u].role == Admin && !db.users[u].Deleted()
  }

  // The organization that takes in whoever signs up is one with an admin, if there is any.
  predicate TakesIn(db: Db, org: nat) {
    forall u | u in db.users && db.users[u].role == Admin && !db.users[u].Deleted() :: HasAdmin(db, org)
  }

  predicate CanSignUp(db: Db, id: nat, org: nat, person: Person) {
    && (EmailGiven(person).Some? || Clean(person.phone).Some?)
    && (EmailGiven(person).Some? ==> !EmailTaken(db, EmailGiven(person).value, None))
    && (Clean(person.phone).Some? ==> !PhoneTaken(db, Clean(person.phone).value, None))
    && TakesIn(db, org) && id !in db.users
  }

  // Signing up adds an active employee.
  function SignedUp(db: Db, id: nat, org: nat, person: Person): Db {
    if CanSignUp(db, id, org, person)
    then SetUser(db, id, UserRow(org, Employee, true, None, person.name, Clean(person.phone), EmailGiven(person)))
    else db
  }

  datatype Call = Call(actor: nat, request: Request) | SignUp(id: nat, org: nat, person: Person)

  ghost function Perform(db: Db, c: Call): Db {
    match c
    case Call(actor, r) => Handle(db, actor, r)
    case SignUp(id, org, person) => SignedUp(db, id, org, person)
  }

  ghost function Run(db: Db, calls: seq<Call>): Db {
    if calls == [] then db else Perform(Run(db, calls[..|calls| - 1]), calls[|calls| - 1])
  }
}
