/** The work-order lifecycle over whole runs: the timeline replays to the current status, the
    status only moves forward, and completion and closing are announced exactly once. */
module OfficeLifecycle {
  import opened Text
  import opened Office

  // ---------------------------------------------------------------- one order

  // The legal transitions, by the action that makes them.
  predicate Legal(kind: EventType, from: Status, to: Status) {
    match kind
    case StatusChanged => (from.Assigned? && to.InProgress?) || (from.InProgress? && to.Completed?)
    case AssignedTo => (from.AwaitingAssignment? || from.Assigned?) && to.Assigned?
    case ClosedByAdmin => from.Completed? && to.Closed?
    case CancelledByAdmin => (from.AwaitingAssignment? || from.Assigned? || from.InProgress?) && to.Cancelled?
  }

  // Folding a timeline: it opens with a creation, every later entry starts from the status
  // reached so far and is a legal transition; anything else does not replay.
  function Replay(history: seq<Event>): Option<Status> {
    if history == [] then None
    else
      var before, last := history[..|history| - 1], history[|history| - 1];
      match last
      case CreatedWith(_, s) => if before == [] then Some(s) else None
      case Changed(_, kind, from, to) =>
        if Replay(before) == Some(from) && Legal(kind, from, to) then Some(to) else None
  }

  lemma ReplaySnoc(history: seq<Event>, e: Event)
    requires e.Changed?
    ensures Replay(history + [e])
         == if Replay(history) == Some(e.from) && Legal(e.kind, e.from, e.to) then Some(e.to) else None
  {
    assert (history + [e])[..|history|] == history;
  }

  predicate CompletedOrClosed(s: Status) {
    s.Completed? || s.Closed?
  }

  predicate CategoryDescribed(row: OrderRow) {
    row.category.Some? ==> (row.category.value == Others <==> Clean(row.categoryOther).Some?)
  }

  predicate OrderOk(row: OrderRow) {
    && Replay(row.history) == Some(row.status)
    && (row.completedAt.Some? <==> CompletedOrClosed(row.status))
    && CategoryDescribed(row)
  }

  function Rank(s: Status): nat {
    match s
    case AwaitingAssignment => 0
    case Assigned => 1
    case InProgress => 2
    case Completed => 3
    case Closed => 4
    case Cancelled => 4
  }

  predicate Terminal(s: Status) {
    s.Closed? || s.Cancelled?
  }

  // What a request may do to an order it does not delete: leave its lifecycle alone, or take
  // one legal transition and note it down.
  ghost predicate OrderSteps(a: OrderRow, b: OrderRow) {
    && b.org == a.org && b.number == a.number && b.requestedBy == a.requestedBy
    && (CategoryDescribed(a) ==> CategoryDescribed(b))
    && (|| (b.status == a.status && b.history == a.history && b.completedAt == a.completedAt)
        || (exists actor, kind ::
              && b.history == a.history + [Changed(actor, kind, a.status, b.status)] && Legal(kind, a.status, b.status)
              && (b.completedAt.Some? <==> b.status.Completed? || (b.status.Closed? && a.completedAt.Some?))))
  }

  lemma OrderStepKeepsOk(a: OrderRow, b: OrderRow)
    requires OrderOk(a) && OrderSteps(a, b)
    ensures OrderOk(b)
    ensures Rank(a.status) <= Rank(b.status) && (Terminal(a.status) ==> b.status == a.status)
  {
    if b.history != a.history {
      var actor, kind :| b.history == a.history + [Changed(actor, kind, a.status, b.status)]
          && Legal(kind, a.status, b.status)
        && (b.completedAt.Some? <==> b.status.Completed? || (b.status.Closed? && a.completedAt.Some?));
      ReplaySnoc(a.history, Changed(actor, kind, a.status, b.status));
    }
  }

  ghost predicate OrderStarts(row: OrderRow) {
    && row.completedAt.None? && CategoryDescribed(row) && (row.status.AwaitingAssignment? || row.status.Assigned?)
    && exists actor :: row.history == [CreatedWith(actor, row.status)]
  }

  lemma OrderStartOk(row: OrderRow)
    requires OrderStarts(row)
    ensures OrderOk(row)
  {
    assert row.history[..0] == [];
  }

  // ---------------------------------------------------------------- all orders

  // From one database to the next: orders step, start, or disappear for good.
  ghost predicate OrdersStep(a: Db, b: Db) {
    && a.issued <= b.issued
    && (forall o | o in b.orders && o in a.orders :: OrderSteps(a.orders[o], b.orders[o]))
    && (forall o | o in b.orders && o !in a.orders :: OrderStarts(b.orders[o]) && o in b.issued && o !in a.issued)
  }

  lemma MemberRequestsKeepOrders(a: Db, b: Db)
    requires b.issued == a.issued && b.orders.Keys == a.orders.Keys
    requires forall o | o in a.orders ::
               b.orders[o] == a.orders[o].(assigneeName := b.orders[o].assigneeName)
    ensures OrdersStep(a, b)
  {
  }

  lemma SetOrderSteps(a: Db, b: Db, id: nat, row: OrderRow)
    requires id in a.orders && b.orders == a.orders[id := row] && b.issued == a.issued
    requires OrderSteps(a.orders[id], row)
    ensures OrdersStep(a, b)
  {
  }

  lemma MoveSteps(a: OrderRow, b: OrderRow, actor: nat, kind: EventType)
    requires b.org == a.org && b.number == a.number && b.requestedBy == a.requestedBy
    requires b.category == a.category && b.categoryOther == a.categoryOther
    requires b.history == a.history + [Changed(actor, kind, a.status, b.status)] && Legal(kind, a.status, b.status)
    requires b.completedAt.Some? <==> b.status.Completed? || (b.status.Closed? && a.completedAt.Some?)
    ensures OrderSteps(a, b)
  {
  }

  lemma CleanTwice(s: Option<string>)
    ensures Clean(Clean(s)) == Clean(s)
  {
    if Clean(s).Some? {
      StripFacts(s.value);
      StripFacts(Strip(s.value));
    }
  }

  lemma CreateOrderSteps(db: Db, actor: nat, id: nat, day: string, data: NewOrder)
    requires actor in db.users && CreateOrder(db, actor, id, day, data).Ok? && db.orders.Keys <= db.issued
    requires data.category == Others ==> Clean(data.categoryOther).Some?
    ensures OrdersStep(db, CreateOrder(db, actor, id, day, data).value)
  {
    var db' := CreateOrder(db, actor, id, day, data).value;
    CleanTwice(data.categoryOther);
    assert db'.orders[id].history == [CreatedWith(actor, db'.orders[id].status)];
    assert OrderStarts(db'.orders[id]);
    assert forall o | o in db.orders :: db'.orders[o] == db.orders[o];
  }

  lemma UpdateStatusSteps(db: Db, actor: nat, id: nat, status: Status, note: string)
    requires actor in db.users && UpdateStatus(db, actor, id, status, note).Ok?
    requires id in db.orders ==> OrderOk(db.orders[id])
    ensures OrdersStep(db, UpdateStatus(db, actor, id, status, note).value)
  {
    var db' := UpdateStatus(db, actor, id, status, note).value;
    var a, b := db.orders[id], db'.orders[id];
    if status != a.status {
      MoveSteps(a, b, actor, StatusChanged);
    }
    SetOrderSteps(db, db', id, b);
  }

  lemma AssignOrderSteps(db: Db, actor: nat, id: nat, assignee: nat, dueDate: Option<nat>)
    requires actor in db.users && AssignOrder(db, actor, id, assignee, dueDate).Ok?
    requires id in db.orders ==> OrderOk(db.orders[id])
    ensures OrdersStep(db, AssignOrder(db, actor, id, assignee, dueDate).value)
  {
    var db' := AssignOrder(db, actor, id, assignee, dueDate).value;
    MoveSteps(db.orders[id], db'.orders[id], actor, AssignedTo);
    SetOrderSteps(db, db', id, db'.orders[id]);
  }

  lemma CloseOrderSteps(db: Db, actor: nat, id: nat)
    requires actor in db.users && CloseOrder(db, actor, id).Ok?
    requires id in db.orders ==> OrderOk(db.orders[id])
    ensures OrdersStep(db, CloseOrder(db, actor, id).value)
  {
    var db' := CloseOrder(db, actor, id).value;
    MoveSteps(db.orders[id], db'.orders[id], actor, ClosedByAdmin);
    SetOrderSteps(db, db', id, db'.orders[id]);
  }

  lemma CancelOrderSteps(db: Db, actor: nat, id: nat)
    requires actor in db.users && CancelOrder(db, actor, id).Ok?
    requires id in db.orders ==> OrderOk(db.orders[id])
    ensures OrdersStep(db, CancelOrder(db, actor, id).value)
  {
    var db' := CancelOrder(db, actor, id).value;
    MoveSteps(db.orders[id], db'.orders[id], actor, CancelledByAdmin);
    SetOrderSteps(db, db', id, db'.orders[id]);
  }

  lemma UpdateOrderSteps(db: Db, actor: nat, id: nat, data: OrderUpdate)
    requires actor in db.users && UpdateOrder(db, actor, id, data).Ok?
    ensures OrdersStep(db, UpdateOrder(db, actor, id, data).value)
  {
    var db' := UpdateOrder(db, actor, id, data).value;
    SetOrderSteps(db, db', id, db'.orders[id]);
  }

  // Every served request moves the orders this way.
  lemma ServeSteps(db: Db, actor: nat, r: Request)
    requires actor in db.users && WellFormed(r) && Serve(db, actor, r).Ok?
    requires db.orders.Keys <= db.issued && forall o | o in db.orders :: OrderOk(db.orders[o])
    ensures OrdersStep(db, Serve(db, actor, r).value)
  {
    match r
    case CreateOrderReq(id, day, data) => CreateOrderSteps(db, actor, id, day, data);
    case UpdateStatusReq(id, status, note) => UpdateStatusSteps(db, actor, id, status, note);
    case AssignOrderReq(id, assignee, dueDate) => AssignOrderSteps(db, actor, id, assignee, dueDate);
    case CloseOrderReq(id) => CloseOrderSteps(db, actor, id);
    case CancelOrderReq(id) => CancelOrderSteps(db, actor, id);
    case UpdateOrderReq(id, data) => UpdateOrderSteps(db, actor, id, data);
    case DeleteOrderReq(id) =>
    case _ => MemberRequestsKeepOrders(db, Serve(db, actor, r).value);
  }

  ghost predicate OrdersOk(db: Db) {
    db.orders.Keys <= db.issued && forall o | o in db.orders :: OrderOk(db.orders[o])
  }

  lemma StepKeepsOrdersOk(a: Db, b: Db)
    requires OrdersOk(a) && OrdersStep(a, b)
    ensures OrdersOk(b)
  {
    forall o | o in b.orders
      ensures OrderOk(b.orders[o]) && o in b.issued
    {
      if o in a.orders {
        OrderStepKeepsOk(a.orders[o], b.orders[o]);
      } else {
        OrderStartOk(b.orders[o]);
      }
    }
  }

  lemma HandleKeepsOrdersOk(db: Db, actor: nat, r: Request)
    requires OrdersOk(db)
    ensures OrdersOk(Handle(db, actor, r)) && OrdersStep(db, Handle(db, actor, r))
  {
    if Allowed(db, actor, r) && Serve(db, actor, r).Ok? {
      ServeSteps(db, actor, r);
      StepKeepsOrdersOk(db, Serve(db, actor, r).value);
    }
  }

  lemma PerformKeepsOrdersOk(db: Db, c: Call)
    requires OrdersOk(db)
    ensures OrdersOk(Perform(db, c)) && OrdersStep(db, Perform(db, c))
  {
    match c
    case Call(actor, r) => HandleKeepsOrdersOk(db, actor, r);
    case SignUp(id, org, person) => MemberRequestsKeepOrders(db, SignedUp(db, id, org, person));
  }

  // In every reachable state each order's timeline replays to its status, it has a completion
  // time exactly when completed or closed, and a category description exactly for OTHERS.
  lemma {:induction false} TimelineReplaysToState(db: Db, calls: seq<Call>)
    requires OrdersOk(db)
    ensures OrdersOk(Run(db, calls))
  {
    if calls != [] {
      var n := |calls| - 1;
      TimelineReplaysToState(db, calls[..n]);
      PerformKeepsOrdersOk(Run(db, calls[..n]), calls[n]);
    }
  }

  // Over any run an order that still exists has not moved back, and a closed or cancelled
  // one has not moved at all; an order once deleted stays deleted.
  lemma {:induction false} StatusNeverMovesBack(db: Db, calls: seq<Call>, o: nat)
    requires OrdersOk(db) && o in db.issued
    ensures o in Run(db, calls).issued
    ensures o in Run(db, calls).orders ==>
              && o in db.orders
              && Rank(db.orders[o].status) <= Rank(Run(db, calls).orders[o].status)
              && (Terminal(db.orders[o].status) ==> Run(db, calls).orders[o].status == db.orders[o].status)
              && db.orders[o].history <= Run(db, calls).orders[o].history
  {
    if calls != [] {
      var n := |calls| - 1;
      StatusNeverMovesBack(db, calls[..n], o);
      TimelineReplaysToState(db, calls[..n]);
      var before := Run(db, calls[..n]);
      PerformKeepsOrdersOk(before, calls[n]);
      if o in Run(db, calls).orders {
        OrderStepKeepsOk(before.orders[o], Run(db, calls).orders[o]);
      }
    }
  }
}
