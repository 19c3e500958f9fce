/** Who is told what, exactly once: completions reach each admin at most once per order, and
    the requester hears of the closing once, and only if the order is closed. */
module OfficeNotifications {
  import opened Text
  import opened Office
  import opened OfficeLifecycle

  predicate About(n: Notification, ntype: NotificationType, o: nat) {
    n.ntype == ntype && n.order == Some(o)
  }

  // Every notification was sent by an earlier request, about an order that still exists or
  // about none.
  ghost predicate Linked(db: Db) {
    forall n | n in db.notifications :: n.stamp < db.clock && (n.order.Some? ==> n.order.value in db.orders)
  }

  ghost predicate CompletionToldOnce(db: Db) {
    && (forall n, o | n in db.notifications && About(n, WorkCompleted, o) && o in db.orders ::
          CompletedOrClosed(db.orders[o].status))
    && (forall n, m | n in db.notifications && m in db.notifications && n.ntype == WorkCompleted
        && m.ntype == WorkCompleted
                      && n.order == m.order && n.order.Some? && n.user == m.user :: n == m)
  }

  ghost predicate ToldClosed(db: Db, o: nat, user: nat) {
    exists n | n in db.notifications :: About(n, WorkClosed, o) && n.user == user
  }

  ghost predicate ClosingToldOnce(db: Db) {
    && (forall n, o | n in db.notifications && About(n, WorkClosed, o) && o in db.orders ::
          db.orders[o].status.Closed? && db.orders[o].requestedBy == Some(n.user))
    && (forall n, m | n in db.notifications && m in db.notifications && n.ntype == WorkClosed && m.ntype == WorkClosed
                      && n.order == m.order && n.order.Some? :: n == m)
    && (forall o | o in db.orders && db.orders[o].status.Closed? && db.orders[o].requestedBy.Some? ::
          ToldClosed(db, o, db.orders[o].requestedBy.value))
  }

  ghost predicate NotesOk(db: Db) {
    OrdersOk(db) && Linked(db) && CompletionToldOnce(db) && ClosingToldOnce(db)
  }

  // ---------------------------------------------------------------- steps that announce neither

  // Orders stay, none is closed anew, and what is sent is a request or an assignment.
  ghost predicate Plain(a: Db, b: Db, sent: set<Notification>) {
    && OrdersStep(a, b) && a.orders.Keys <= b.orders.Keys && a.clock <= b.clock
    && b.notifications == a.notifications + sent
    && (forall n | n in sent ::
          && n.stamp == a.clock < b.clock && n.order.Some? && n.order.value in b.orders
          && (n.ntype == WorkRequested || n.ntype == WorkAssigned))
    && (forall o | o in b.orders && b.orders[o].status.Closed? :: o in a.orders && a.orders[o].status.Closed?)
  }

  lemma StepFacts(a: Db, b: Db, o: nat)
    requires OrdersOk(a) && OrdersStep(a, b) && o in a.orders && o in b.orders
    ensures CompletedOrClosed(a.orders[o].status) ==> CompletedOrClosed(b.orders[o].status)
    ensures a.orders[o].status.Closed? ==> b.orders[o].status.Closed?
    ensures b.orders[o].requestedBy == a.orders[o].requestedBy
  {
    OrderStepKeepsOk(a.orders[o], b.orders[o]);
    assert OrderSteps(a.orders[o], b.orders[o]);
  }

  lemma PlainKeepsCompletion(a: Db, b: Db, sent: set<Notification>)
    requires NotesOk(a) && Plain(a, b, sent)
    ensures CompletionToldOnce(b)
  {
    forall n, o | n in b.notifications && About(n, WorkCompleted, o) && o in b.orders
      ensures CompletedOrClosed(b.orders[o].status)
    {
      assert n in a.notifications;
      StepFacts(a, b, o);
    }
  }

  lemma PlainKeepsClosing(a: Db, b: Db, sent: set<Notification>)
    requires NotesOk(a) && Plain(a, b, sent)
    ensures ClosingToldOnce(b)
  {
    forall n, o | n in b.notifications && About(n, WorkClosed, o) && o in b.orders
      ensures b.orders[o].status.Closed? && b.orders[o].requestedBy == Some(n.user)
    {
      assert n in a.notifications;
      StepFacts(a, b, o);
    }
    forall o | o in b.orders && b.orders[o].status.Closed? && b.orders[o].requestedBy.Some?
      ensures ToldClosed(b, o, b.orders[o].requestedBy.value)
    {
      StepFacts(a, b, o);
      assert ToldClosed(a, o, b.orders[o].requestedBy.value);
      var n :| n in a.notifications && About(n, WorkClosed, o) && n.user == b.orders[o].requestedBy.value;
      assert n in b.notifications;
    }
  }

  lemma PlainKeepsNotes(a: Db, b: Db, sent: set<Notification>)
    requires NotesOk(a) && Plain(a, b, sent)
    ensures NotesOk(b)
  {
    StepKeepsOrdersOk(a, b);
    PlainKeepsCompletion(a, b, sent);
    PlainKeepsClosing(a, b, sent);
  }

  // ---------------------------------------------------------------- completing, closing, deleting

  // Only order `id` moves, and each of `users` is sent one notification about it.
  ghost predicate Tells(a: Db, b: Db, id: nat, users: set<nat>, ntype: NotificationType) {
    && id in a.orders && OrdersStep(a, b) && b.orders.Keys == a.orders.Keys
    && (forall o | o in a.orders && o != id :: b.orders[o] == a.orders[o])
    && b.clock == a.clock + 1
    && b.notifications == a.notifications
                          + set u | u in users :: Notification(a.clock, a.orders[id].org, u, ntype, Some(id))
  }

  // What was told before is kept, what is new is about `id`.
  lemma TellsFacts(a: Db, b: Db, id: nat, users: set<nat>, ntype: NotificationType)
    requires Tells(a, b, id, users, ntype)
    ensures forall n | n in a.notifications :: n in b.notifications
    ensures forall n | n in b.notifications && n !in a.notifications ::
              About(n, ntype, id) && n.user in users && n.stamp == a.clock && n.org == a.orders[id].org
  {
  }

  lemma TellsKeepsLinked(a: Db, b: Db, id: nat, users: set<nat>, ntype: NotificationType)
    requires Tells(a, b, id, users, ntype) && NotesOk(a)
    ensures OrdersOk(b) && Linked(b)
  {
    TellsFacts(a, b, id, users, ntype);
    StepKeepsOrdersOk(a, b);
  }

  lemma CompletingKeepsCompletion(a: Db, b: Db, id: nat, users: set<nat>)
    requires Tells(a, b, id, users, WorkCompleted) && NotesOk(a)
    requires a.orders[id].status.InProgress? && b.orders[id].status.Completed?
    ensures CompletionToldOnce(b)
  {
    TellsFacts(a, b, id, users, WorkCompleted);
    // Before this request nobody had been told: the order was in progress.
    assert forall n | n in a.notifications :: !About(n, WorkCompleted, id);
  }

  // Closings told before stay told when no order is closed anew.
  lemma CompletingKeepsClosing(a: Db, b: Db, id: nat, users: set<nat>)
    requires Tells(a, b, id, users, WorkCompleted) && NotesOk(a)
    requires a.orders[id].status.InProgress? && b.orders[id].status.Completed?
    ensures ClosingToldOnce(b)
  {
    TellsFacts(a, b, id, users, WorkCompleted);
    assert forall n | n in a.notifications :: !About(n, WorkClosed, id);
    ToldStaysTold(a, b);
  }

  lemma ToldStaysTold(a: Db, b: Db)
    requires forall n | n in a.notifications :: n in b.notifications
    ensures forall o, user | ToldClosed(a, o, user) :: ToldClosed(b, o, user)
  {
    forall o, user | ToldClosed(a, o, user)
      ensures ToldClosed(b, o, user)
    {
      var n :| n in a.notifications && About(n, WorkClosed, o) && n.user == user;
      assert n in b.notifications;
    }
  }

  lemma CompletingKeepsNotes(db: Db, actor: nat, id: nat, note: string)
    requires NotesOk(db) && actor in db.users && UpdateStatus(db, actor, id, Completed, note).Ok?
    requires db.orders[id].status != Completed
    ensures NotesOk(UpdateStatus(db, actor, id, Completed, note).value)
    ensures Tells(db, UpdateStatus(db, actor, id, Completed, note).value, id,
                  ActiveAdminIds(db, db.orders[id].org, None), WorkCompleted)
  {
    var b := UpdateStatus(db, actor, id, Completed, note).value;
    var admins := ActiveAdminIds(db, db.orders[id].org, None);
    UpdateStatusSteps(db, actor, id, Completed, note);
    TellsKeepsLinked(db, b, id, admins, WorkCompleted);
    CompletingKeepsCompletion(db, b, id, admins);
    CompletingKeepsClosing(db, b, id, admins);
  }

  lemma ClosingKeepsCompletion(a: Db, b: Db, id: nat, users: set<nat>)
    requires Tells(a, b, id, users, WorkClosed) && NotesOk(a)
    requires a.orders[id].status.Completed? && b.orders[id].status.Closed?
    ensures CompletionToldOnce(b)
  {
    TellsFacts(a, b, id, users, WorkClosed);
  }

  lemma ClosingKeepsClosing(a: Db, b: Db, id: nat, users: set<nat>)
    requires Tells(a, b, id, users, WorkClosed) && NotesOk(a)
    requires a.orders[id].status.Completed? && b.orders[id].status.Closed?
    requires b.orders[id].requestedBy == a.orders[id].requestedBy
    requires users == if a.orders[id].requestedBy.Some? then {a.orders[id].requestedBy.value} else {}
    ensures ClosingToldOnce(b)
  {
    TellsFacts(a, b, id, users, WorkClosed);
    assert forall n | n in a.notifications :: !About(n, WorkClosed, id);
    ToldStaysTold(a, b);
    if a.orders[id].requestedBy.Some? {
      var user := a.orders[id].requestedBy.value;
      assert Notification(a.clock, a.orders[id].org, user, WorkClosed, Some(id)) in b.notifications;
      assert ToldClosed(b, id, user);
    }
  }

  lemma ClosingKeepsNotes(db: Db, actor: nat, id: nat)
    requires NotesOk(db) && actor in db.users && CloseOrder(db, actor, id).Ok?
    ensures NotesOk(CloseOrder(db, actor, id).value)
  {
    var b := CloseOrder(db, actor, id).value;
    var told := if db.orders[id].requestedBy.Some? then {db.orders[id].requestedBy.value} else {};
    CloseOrderSteps(db, actor, id);
    assert Tells(db, b, id, told, WorkClosed);
    TellsKeepsLinked(db, b, id, told, WorkClosed);
    ClosingKeepsCompletion(db, b, id, told);
    ClosingKeepsClosing(db, b, id, told);
  }

  lemma DeletingKeepsNotes(db: Db, actor: nat, id: nat)
    requires NotesOk(db) && actor in db.users && DeleteOrder(db, actor, id).Ok?
    ensures NotesOk(DeleteOrder(db, actor, id).value)
  {
    var b := DeleteOrder(db, actor, id).value;
    StepKeepsOrdersOk(db, b);
    forall n | n in b.notifications
      ensures n.order != Some(id) && (n.order.Some? ==> n in db.notifications) && n.stamp < b.clock
    {
      var m :| m in db.notifications && n == Unlink(m, id);
    }
    forall o | o in b.orders && b.orders[o].status.Closed? && b.orders[o].requestedBy.Some?
      ensures ToldClosed(b, o, b.orders[o].requestedBy.value)
    {
      var user := b.orders[o].requestedBy.value;
      assert ToldClosed(db, o, user);
      var n :| n in db.notifications && About(n, WorkClosed, o) && n.user == user;
      assert Unlink(n, id) == n;
      assert n in b.notifications;
    }
  }

  // ---------------------------------------------------------------- every request

  ghost function Sent(a: Db, b: Db): set<Notification> {
    b.notifications - a.notifications
  }

  lemma ServeKeepsNotes(db: Db, actor: nat, r: Request)
    requires NotesOk(db) && actor in db.users && WellFormed(r) && Serve(db, actor, r).Ok?
    ensures NotesOk(Serve(db, actor, r).value)
  {
    match r
    case UpdateStatusReq(id, status, note) =>
      if status.Completed? && db.orders[id].status != Completed {
        CompletingKeepsNotes(db, actor, id, note);
      } else {
        ProgressSendsNothing(db, actor, id, status, note);
        PlainKeepsNotes(db, Serve(db, actor, r).value, {});
      }
    case CloseOrderReq(id) => ClosingKeepsNotes(db, actor, id);
    case DeleteOrderReq(id) =>
      ServeSteps(db, actor, r);
      DeletingKeepsNotes(db, actor, id);
    case CreateOrderReq(id, day, data) => CreateIsPlain(db, actor, id, day, data);
    case AssignOrderReq(id, assignee, dueDate) => AssignIsPlain(db, actor, id, assignee, dueDate);
    case _ =>
      OthersSendNothing(db, actor, r);
      PlainKeepsNotes(db, Serve(db, actor, r).value, {});
  }

  lemma OthersSendNothing(db: Db, actor: nat, r: Request)
    requires NotesOk(db) && actor in db.users && WellFormed(r) && Serve(db, actor, r).Ok?
    requires !r.UpdateStatusReq? && !r.CloseOrderReq? && !r.DeleteOrderReq? && !r.CreateOrderReq? && !r.AssignOrderReq?
    ensures Plain(db, Serve(db, actor, r).value, {})
  {
    ServeSteps(db, actor, r);
  }

  lemma ProgressSendsNothing(db: Db, actor: nat, id: nat, status: Status, note: string)
    requires NotesOk(db) && actor in db.users && UpdateStatus(db, actor, id, status, note).Ok?
    requires !(status.Completed? && db.orders[id].status != Completed) && !status.Closed?
    ensures Plain(db, UpdateStatus(db, actor, id, status, note).value, {})
  {
    UpdateStatusSteps(db, actor, id, status, note);
  }

  lemma CreateIsPlain(db: Db, actor: nat, id: nat, day: string, data: NewOrder)
    requires NotesOk(db) && actor in db.users && CreateOrder(db, actor, id, day, data).Ok?
    requires data.category == Others ==> Clean(data.categoryOther).Some?
    ensures NotesOk(CreateOrder(db, actor, id, day, data).value)
  {
    var b := CreateOrder(db, actor, id, day, data).value;
    CreateOrderSteps(db, actor, id, day, data);
    PlainKeepsNotes(db, b, Sent(db, b));
  }

  lemma AssignIsPlain(db: Db, actor: nat, id: nat, assignee: nat, dueDate: Option<nat>)
    requires NotesOk(db) && actor in db.users && AssignOrder(db, actor, id, assignee, dueDate).Ok?
    ensures NotesOk(AssignOrder(db, actor, id, assignee, dueDate).value)
  {
    var b := AssignOrder(db, actor, id, assignee, dueDate).value;
    AssignOrderSteps(db, actor, id, assignee, dueDate);
    PlainKeepsNotes(db, b, Sent(db, b));
  }

  lemma PerformKeepsNotes(db: Db, c: Call)
    requires NotesOk(db)
    ensures NotesOk(Perform(db, c))
  {
    match c
    case Call(actor, r) =>
      if Allowed(db, actor, r) && Serve(db, actor, r).Ok? {
        ServeKeepsNotes(db, actor, r);
      }
    case SignUp(id, org, person) =>
      MemberRequestsKeepOrders(db, SignedUp(db, id, org, person));
      PlainKeepsNotes(db, SignedUp(db, id, org, person), {});
  }

  lemma {:induction false} NotesOkThroughout(db: Db, calls: seq<Call>)
    requires NotesOk(db)
    ensures NotesOk(Run(db, calls))
  {
    if calls != [] {
      var n := |calls| - 1;
      NotesOkThroughout(db, calls[..n]);
      PerformKeepsNotes(Run(db, calls[..n]), calls[n]);
    }
  }

  // In every reachable state: nobody was told twice that an order was completed, and the
  // requester has exactly one closing notification if the order is closed and none if not.
  lemma AnnouncedExactlyOnce(db: Db, calls: seq<Call>, o: nat)
    requires NotesOk(db) && o in Run(db, calls).orders && Run(db, calls).orders[o].requestedBy.Some?
    ensures var t := Run(db, calls);
            var user := t.orders[o].requestedBy.value;
            && (t.orders[o].status.Closed? <==> ToldClosed(t, o, user))
            && (forall n, m | n in t.notifications && m in t.notifications && About(n, WorkClosed, o)
                && About(m, WorkClosed, o) ::
                  n == m && n.user == user)
            && (forall n, m | n in t.notifications && m in t.notifications && About(n, WorkCompleted, o)
                              && About(m, WorkCompleted, o) && n.user == m.user :: n == m)
            && (forall n | n in t.notifications && About(n, WorkCompleted, o) :: CompletedOrClosed(t.orders[o].status))
  {
    NotesOkThroughout(db, calls);
  }
}
