/** Who may do what: outsiders change nothing, employees touch only the orders they raise and
    the progress of those assigned to them, everything else takes an admin. */
module OfficeRights {
  import opened Text
  import opened Office

  // An unknown or inactive user, or one whose organization is switched off, changes nothing.
  lemma OutsiderChangesNothing(db: Db, actor: nat, r: Request)
    requires actor !in db.users || !db.users[actor].active || db.users[actor].org in db.closedOrgs
    ensures Handle(db, actor, r) == db
  {
  }

  // Everybody active in an open organization may raise an order and ask for progress; the rest
  // is for admins. A description comes with category OTHERS, and progress is to one of two.
  lemma AllowedIff(db: Db, actor: nat, r: Request)
    ensures Allowed(db, actor, r) <==>
            && actor in db.users && db.users[actor].active && db.users[actor].org !in db.closedOrgs
            && match r
               case CreateOrderReq(_, _, data) => data.category == Others ==> Clean(data.categoryOther).Some?
               case UpdateStatusReq(_, status, _) => status == InProgress || status == Completed
               case _ => db.users[actor].role == Admin
  {
  }

  // What an employee may make of an order assigned to it: progress and notes, nothing else.
  predicate OnlyProgressed(a: OrderRow, b: OrderRow) {
    && b == a.(status := b.status, completedAt := b.completedAt, history := b.history, notes := b.notes)
    && (b.status != a.status ==>
          || (a.status == Assigned && b.status == InProgress)
          || (a.status == InProgress && b.status == Completed))
    && a.history <= b.history && a.notes <= b.notes
  }

  // An order an employee raises is its own request and waits for an admin.
  predicate OnlyRequested(row: OrderRow, org: nat, actor: nat) {
    && row.org == org && row.requestedBy == Some(actor) && row.status == AwaitingAssignment
    && row.assignee == None && row.assigneeName == None && row.dueDate == None
  }

  // Members and the audit trail are as they were; an order that changed was assigned to the
  // employee and at most progressed; an order that appeared is the employee's request.
  ghost predicate EmployeeChange(db: Db, b: Db, actor: nat)
    requires actor in db.users
  {
    && b.users == db.users && b.audit == db.audit && b.customers == db.customers
    && (forall o | o in db.orders :: o in b.orders)
    && (forall o | o in db.orders && b.orders[o] != db.orders[o] ::
          && db.orders[o].assignee == Some(actor) && db.orders[o].org == db.users[actor].org
          && OnlyProgressed(db.orders[o], b.orders[o]))
    && (forall o | o in b.orders && o !in db.orders :: OnlyRequested(b.orders[o], db.users[actor].org, actor))
  }

  lemma EmployeeRequests(db: Db, actor: nat, r: Request)
    requires actor in db.users && db.users[actor].role == Employee && Allowed(db, actor, r) && Serve(db, actor, r).Ok?
    ensures r.CreateOrderReq? || r.UpdateStatusReq?
  {
  }

  lemma RequestingIsEmployeeChange(db: Db, actor: nat, id: nat, day: string, data: NewOrder)
    requires actor in db.users && db.users[actor].role == Employee && db.orders.Keys <= db.issued
    requires CreateOrder(db, actor, id, day, data).Ok?
    ensures EmployeeChange(db, CreateOrder(db, actor, id, day, data).value, actor)
  {
  }

  lemma ProgressingIsEmployeeChange(db: Db, actor: nat, id: nat, status: Status, note: string)
    requires actor in db.users && db.users[actor].role == Employee && UpdateStatus(db, actor, id, status, note).Ok?
    ensures EmployeeChange(db, UpdateStatus(db, actor, id, status, note).value, actor)
  {
    var b := UpdateStatus(db, actor, id, status, note).value;
    assert forall o | o in db.orders && o != id :: b.orders[o] == db.orders[o];
  }

  // No request of an employee changes a role, a member, the audit trail, or an order it
  // neither creates nor is assigned.
  lemma EmployeeChangesLittle(db: Db, actor: nat, r: Request)
    requires actor in db.users && db.users[actor].role == Employee && db.orders.Keys <= db.issued
    ensures EmployeeChange(db, Handle(db, actor, r), actor)
  {
    if Allowed(db, actor, r) && Serve(db, actor, r).Ok? {
      EmployeeRequests(db, actor, r);
      match r
      case CreateOrderReq(id, day, data) => RequestingIsEmployeeChange(db, actor, id, day, data);
      case UpdateStatusReq(id, status, note) => ProgressingIsEmployeeChange(db, actor, id, status, note);
    }
  }

  // ---------------------------------------------------------------- progressing an order

  predicate ForwardStep(from: Status, to: Status) {
    (from == Assigned && to == InProgress) || (from == InProgress && to == Completed)
  }

  // The assignee and the admins of its organization may progress an order, one step forward
  // or none, and nobody else.
  lemma ProgressServedIff(db: Db, actor: nat, id: nat, status: Status, note: string)
    requires actor in db.users
    ensures var r := UpdateStatusReq(id, status, note);
            Allowed(db, actor, r) && Serve(db, actor, r).Ok? <==>
            && db.users[actor].active && db.users[actor].org !in db.closedOrgs
            && (status == InProgress || status == Completed)
            && id in db.orders && db.orders[id].org == db.users[actor].org
            && (db.users[actor].role == Admin || db.orders[id].assignee == Some(actor))
            && (status == db.orders[id].status || ForwardStep(db.orders[id].status, status))
  {
  }

  // What a served progress step leaves behind.
  lemma ProgressEffect(db: Db, actor: nat, id: nat, status: Status, note: string)
    requires Allowed(db, actor, UpdateStatusReq(id, status, note))
    requires Serve(db, actor, UpdateStatusReq(id, status, note)).Ok?
    ensures var b := Handle(db, actor, UpdateStatusReq(id, status, note));
            && b.orders.Keys == db.orders.Keys && b.users == db.users && b.audit == db.audit
            && (forall o | o in db.orders && o != id :: b.orders[o] == db.orders[o])
            && OnlyProgressed(db.orders[id], b.orders[id]) && b.orders[id].status == status
            && b.orders[id].notes == db.orders[id].notes + (if Strip(note) == "" then [] else [Strip(note)])
            && (status != db.orders[id].status ==>
                  && b.orders[id].completedAt == (if status == Completed then Some(db.clock) else None)
                  && b.orders[id].history
                     == db.orders[id].history + [Changed(actor, StatusChanged, db.orders[id].status, status)])
            && (status == db.orders[id].status ==>
                  b.orders[id].completedAt == db.orders[id].completedAt
                      && b.orders[id].history == db.orders[id].history)
            && b.clock == db.clock + 1 && b.closedOrgs == db.closedOrgs
  {
  }

  // An active employee takes an order assigned to it to completion by two requests, whatever
  // notes it adds.
  lemma AssigneeCompletes(db: Db, actor: nat, id: nat, note: string, note': string)
    requires actor in db.users && db.users[actor].active && db.users[actor].org !in db.closedOrgs
    requires id in db.orders && db.orders[id].org == db.users[actor].org
    requires db.orders[id].assignee == Some(actor) && db.orders[id].status == Assigned
    ensures var first := Call(actor, UpdateStatusReq(id, InProgress, note));
            var second := Call(actor, UpdateStatusReq(id, Completed, note'));
            var t := Run(db, [first, second]);
            && id in t.orders && t.orders[id].status == Completed && t.orders[id].completedAt == Some(db.clock + 1)
            && t.orders[id].history == db.orders[id].history
               + [Changed(actor, StatusChanged, Assigned, InProgress)]
               + [Changed(actor, StatusChanged, InProgress, Completed)]
            && t.orders[id].assignee == Some(actor)
  {
    var first := Call(actor, UpdateStatusReq(id, InProgress, note));
    var second := Call(actor, UpdateStatusReq(id, Completed, note'));
    ProgressServedIff(db, actor, id, InProgress, note);
    ProgressEffect(db, actor, id, InProgress, note);
    var mid := Handle(db, actor, first.request);
    ProgressServedIff(mid, actor, id, Completed, note');
    ProgressEffect(mid, actor, id, Completed, note');
    RunOfTwo(db, first, second);
  }

  lemma RunOfTwo(db: Db, first: Call, second: Call)
    ensures Run(db, [first, second]) == Perform(Perform(db, first), second)
  {
    assert [first, second][..1] == [first] && [first][..0] == [];
    assert Run(db, [first]) == Perform(db, first);
  }

  // ---------------------------------------------------------------- runs without an admin

  // No admin makes a request in the run.
  ghost predicate NoAdminActs(db: Db, calls: seq<Call>) {
    forall k | 0 <= k < |calls| && calls[k].Call? ::
      var t := Run(db, calls[..k]);
      calls[k].actor in t.users ==> t.users[calls[k].actor].role == Employee
  }

  // What such a run can have made of a database.
  ghost predicate NothingManaged(db: Db, t: Db) {
    && (forall u | u in db.users :: u in t.users && t.users[u] == db.users[u])
    && (forall u | u in t.users && u !in db.users :: t.users[u].role == Employee)
    && t.audit == db.audit
    && (forall o | o in db.orders ::
          && o in t.orders && t.orders[o].assignee == db.orders[o].assignee
              && t.orders[o].dueDate == db.orders[o].dueDate
          && (db.orders[o].assignee == None ==> t.orders[o] == db.orders[o])
          && (t.orders[o].status == db.orders[o].status || t.orders[o].status == InProgress
              || t.orders[o].status == Completed))
    && (forall o | o in t.orders && o !in db.orders ::
          t.orders[o].status == AwaitingAssignment && t.orders[o].assignee == None)
    && t.orders.Keys <= t.issued
  }

  lemma EmployeeStepManagesNothing(db: Db, t: Db, b: Db, actor: nat)
    requires NothingManaged(db, t) && actor in t.users && EmployeeChange(t, b, actor) && b.orders.Keys <= b.issued
    ensures NothingManaged(db, b)
  {
    forall o | o in db.orders
      ensures o in b.orders && b.orders[o].assignee == db.orders[o].assignee
          && b.orders[o].dueDate == db.orders[o].dueDate
      ensures db.orders[o].assignee == None ==> b.orders[o] == db.orders[o]
      ensures b.orders[o].status == db.orders[o].status || b.orders[o].status == InProgress
          || b.orders[o].status == Completed
    {
      if b.orders[o] != t.orders[o] {
        assert OnlyProgressed(t.orders[o], b.orders[o]);
      }
    }
    forall o | o in b.orders && o !in db.orders
      ensures b.orders[o].status == AwaitingAssignment && b.orders[o].assignee == None
    {
      if o in t.orders {
        assert b.orders[o] == t.orders[o];
      }
    }
  }

  lemma HandleIssuesIds(db: Db, actor: nat, r: Request)
    requires db.orders.Keys <= db.issued
    ensures Handle(db, actor, r).orders.Keys <= Handle(db, actor, r).issued
  {
  }

  // Without an admin acting no member changes, nothing is audited, and no order is assigned,
  // re-scheduled, closed, cancelled or deleted, over any run of employees' requests and sign-ups.
  lemma {:induction false} OnlyAdminsManage(db: Db, calls: seq<Call>)
    requires db.orders.Keys <= db.issued && NoAdminActs(db, calls)
    ensures NothingManaged(db, Run(db, calls))
  {
    if calls != [] {
      var n := |calls| - 1;
      var init := calls[..n];
      forall k | 0 <= k < n && init[k].Call?
        ensures var t := Run(db, init[..k]); init[k].actor in t.users ==> t.users[init[k].actor].role == Employee
      {
        assert init[..k] == calls[..k];
      }
      OnlyAdminsManage(db, init);
      var t := Run(db, init);
      match calls[n]
      case Call(actor, r) =>
        HandleIssuesIds(t, actor, r);
        if actor in t.users {
          EmployeeChangesLittle(t, actor, r);
          EmployeeStepManagesNothing(db, t, Handle(t, actor, r), actor);
        }
      case SignUp(id, org, person) =>
    }
  }
}
