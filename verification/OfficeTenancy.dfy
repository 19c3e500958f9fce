/** Tenant isolation: whatever the members of one organization do, the orders and members of
    every other stay exactly as they are; only public sign-up adds a member from outside. */
module OfficeTenancy {
  import opened Text
  import opened Office

  function OrdersOf(db: Db, org: nat): map<nat, OrderRow> {
    map o | o in db.orders && db.orders[o].org == org :: db.orders[o]
  }

  function MembersOf(db: Db, org: nat): map<nat, UserRow> {
    map u | u in db.users && db.users[u].org == org :: db.users[u]
  }

  // Orders are assigned within their organization. Relabelling the orders of a deleted member
  // looks at no organization, so isolation rests on this.
  ghost predicate AssigneesLocal(db: Db) {
    forall o | o in db.orders && db.orders[o].assignee.Some? ::
      && db.orders[o].assignee.value in db.users
      && db.users[db.orders[o].assignee.value].org == db.orders[o].org
  }

  // Members stay, in their organization.
  ghost predicate MembersStay(db: Db, b: Db) {
    forall u | u in db.users :: u in b.users && b.users[u].org == db.users[u].org
  }

  lemma ServeKeepsMembers(db: Db, actor: nat, r: Request)
    requires actor in db.users && Serve(db, actor, r).Ok?
    ensures MembersStay(db, Serve(db, actor, r).value)
  {
  }

  // An order a request leaves behind was there and kept its organization and assignee, or its
  // assignee is an employee of its organization.
  lemma ServeAssigns(db: Db, actor: nat, r: Request)
    requires actor in db.users && Serve(db, actor, r).Ok?
    ensures var b := Serve(db, actor, r).value;
            forall o | o in b.orders ::
              || (o in db.orders && b.orders[o].org == db.orders[o].org
                  && b.orders[o].assignee == db.orders[o].assignee)
              || AssigneeOk(db, b.orders[o].org, b.orders[o].assignee)
  {
  }

  lemma HandleKeepsLocal(db: Db, actor: nat, r: Request)
    requires AssigneesLocal(db)
    ensures AssigneesLocal(Handle(db, actor, r))
  {
    if Allowed(db, actor, r) && Serve(db, actor, r).Ok? {
      var b := Serve(db, actor, r).value;
      ServeKeepsMembers(db, actor, r);
      ServeAssigns(db, actor, r);
      forall o | o in b.orders && b.orders[o].assignee.Some?
        ensures b.orders[o].assignee.value in b.users && b.users[b.orders[o].assignee.value].org == b.orders[o].org
      {
        assert b.orders[o].assignee.value in db.users;
      }
    }
  }

  lemma {:induction false} AssigneesStayLocal(db: Db, calls: seq<Call>)
    requires AssigneesLocal(db)
    ensures AssigneesLocal(Run(db, calls))
  {
    if calls != [] {
      var n := |calls| - 1;
      AssigneesStayLocal(db, calls[..n]);
      if calls[n].Call? {
        HandleKeepsLocal(Run(db, calls[..n]), calls[n].actor, calls[n].request);
      }
    }
  }

  // ---------------------------------------------------------------- isolation

  ghost predicate SameElsewhere(db: Db, b: Db, org: nat) {
    && (forall o | o in db.orders && db.orders[o].org != org :: o in b.orders && b.orders[o] == db.orders[o])
    && (forall o | o in b.orders && o !in db.orders :: b.orders[o].org == org)
    && (forall o | o in b.orders && o in db.orders :: b.orders[o].org == db.orders[o].org)
    && (forall u | u in db.users && db.users[u].org != org :: u in b.users && b.users[u] == db.users[u])
    && (forall u | u in b.users && u !in db.users :: b.users[u].org == org)
  }

  lemma DeletingStaysInside(db: Db, actor: nat, target: nat)
    requires AssigneesLocal(db) && actor in db.users && DeleteMember(db, actor, target).Ok?
    ensures SameElsewhere(db, DeleteMember(db, actor, target).value, db.users[actor].org)
  {
  }

  lemma CreatingStaysInside(db: Db, actor: nat, id: nat, day: string, data: NewOrder)
    requires actor in db.users && db.orders.Keys <= db.issued && CreateOrder(db, actor, id, day, data).Ok?
    ensures SameElsewhere(db, CreateOrder(db, actor, id, day, data).value, db.users[actor].org)
  {
  }

  lemma MemberRequestsStayInside(db: Db, actor: nat, r: Request)
    requires actor in db.users && Serve(db, actor, r).Ok?
    requires r.CreateMemberReq? || r.UpdateMemberReq? || r.SetActiveReq? || r.SetRoleReq?
    ensures SameElsewhere(db, Serve(db, actor, r).value, db.users[actor].org)
  {
    assert Serve(db, actor, r).value.orders == db.orders;
  }

  lemma OrderRequestsStayInside(db: Db, actor: nat, r: Request)
    requires actor in db.users && Serve(db, actor, r).Ok?
    requires r.UpdateStatusReq? || r.AssignOrderReq? || r.CloseOrderReq? || r.CancelOrderReq? || r.UpdateOrderReq?
        || r.DeleteOrderReq?
    ensures SameElsewhere(db, Serve(db, actor, r).value, db.users[actor].org)
  {
    assert Serve(db, actor, r).value.users == db.users;
  }

  // A request changes nothing outside the acting member's organization.
  lemma RequestStaysInside(db: Db, actor: nat, r: Request, org: nat)
    requires AssigneesLocal(db) && db.orders.Keys <= db.issued
    requires Allowed(db, actor, r) ==> db.users[actor].org != org
    ensures OrdersOf(Handle(db, actor, r), org) == OrdersOf(db, org)
    ensures MembersOf(Handle(db, actor, r), org) == MembersOf(db, org)
  {
    if Allowed(db, actor, r) && Serve(db, actor, r).Ok? {
      match r {
        case DeleteMemberReq(target) => DeletingStaysInside(db, actor, target);
        case CreateOrderReq(id, day, data) => CreatingStaysInside(db, actor, id, day, data);
        case _ =>
          if r.CreateMemberReq? || r.UpdateMemberReq? || r.SetActiveReq? || r.SetRoleReq? {
            MemberRequestsStayInside(db, actor, r);
          } else {
            OrderRequestsStayInside(db, actor, r);
          }
      }
      ServeKeepsMembers(db, actor, r);
      SameOf(db, Serve(db, actor, r).value, db.users[actor].org, org);
    }
  }

  lemma SameOf(db: Db, b: Db, org: nat, other: nat)
    requires SameElsewhere(db, b, org) && MembersStay(db, b) && org != other
    ensures OrdersOf(b, other) == OrdersOf(db, other) && MembersOf(b, other) == MembersOf(db, other)
  {
  }

  lemma {:induction false} IdsAreIssued(db: Db, calls: seq<Call>)
    requires db.orders.Keys <= db.issued
    ensures Run(db, calls).orders.Keys <= Run(db, calls).issued
  {
    if calls != [] {
      var n := |calls| - 1;
      IdsAreIssued(db, calls[..n]);
      if calls[n].Call? {
        HandleIssues(Run(db, calls[..n]), calls[n].actor, calls[n].request);
      }
    }
  }

  lemma HandleIssues(db: Db, actor: nat, r: Request)
    requires db.orders.Keys <= db.issued
    ensures Handle(db, actor, r).orders.Keys <= Handle(db, actor, r).issued
  {
  }

  // Nobody of the organization makes a request in the run.
  ghost predicate NobodyOf(db: Db, calls: seq<Call>, org: nat) {
    forall k | 0 <= k < |calls| && calls[k].Call? ::
      var t := Run(db, calls[..k]);
      Allowed(t, calls[k].actor, calls[k].request) ==> t.users[calls[k].actor].org != org
  }

  lemma NobodyOfInit(db: Db, calls: seq<Call>, org: nat)
    requires calls != [] && NobodyOf(db, calls, org)
    ensures NobodyOf(db, calls[..|calls| - 1], org)
  {
    var init := calls[..|calls| - 1];
    forall k | 0 <= k < |init| && init[k].Call?
      ensures var t := Run(db, init[..k]);
              Allowed(t, init[k].actor, init[k].request) ==> t.users[init[k].actor].org != org
    {
      assert init[..k] == calls[..k] && init[k] == calls[k];
    }
  }

  // The members an organization gains by sign-up in a run.
  ghost function Joined(db: Db, calls: seq<Call>, org: nat): map<nat, UserRow> {
    if calls == [] then map[]
    else
      var init, last := calls[..|calls| - 1], calls[|calls| - 1];
      if last.SignUp? && last.org == org && CanSignUp(Run(db, init), last.id, org, last.person)
      then Joined(db, init, org)[last.id := Perform(Run(db, init), last).users[last.id]]
      else Joined(db, init, org)
  }

  lemma {:induction false} JoinedAreEmployees(db: Db, calls: seq<Call>, org: nat)
    ensures forall u | u in Joined(db, calls, org) :: Joined(db, calls, org)[u].role == Employee
  {
    if calls != [] {
      JoinedAreEmployees(db, calls[..|calls| - 1], org);
    }
  }

  lemma SignUpStaysInside(db: Db, id: nat, joined: nat, person: Person, org: nat)
    ensures var b := SignedUp(db, id, joined, person);
            && OrdersOf(b, org) == OrdersOf(db, org)
            && MembersOf(b, org) == if joined == org && CanSignUp(db, id, joined, person)
                                    then MembersOf(db, org)[id := b.users[id]] else MembersOf(db, org)
  {
  }

  // An organization none of whose members acts keeps its orders and members unchanged over
  // any run, but for the employees that sign up to it: only its own members can touch them.
  lemma {:induction false} OnlyOwnMembersTouch(db: Db, calls: seq<Call>, org: nat)
    requires AssigneesLocal(db) && db.orders.Keys <= db.issued && NobodyOf(db, calls, org)
    ensures OrdersOf(Run(db, calls), org) == OrdersOf(db, org)
    ensures MembersOf(Run(db, calls), org) == MembersOf(db, org) + Joined(db, calls, org)
    ensures MembersOf(db, org).Keys !! Joined(db, calls, org).Keys
  {
    if calls != [] {
      var n := |calls| - 1;
      var init := calls[..n];
      NobodyOfInit(db, calls, org);
      OnlyOwnMembersTouch(db, init, org);
      AssigneesStayLocal(db, init);
      IdsAreIssued(db, init);
      match calls[n]
      case Call(actor, r) => RequestStaysInside(Run(db, init), actor, r, org);
      case SignUp(id, joined, person) =>
        SignUpStaysInside(Run(db, init), id, joined, person, org);
        if joined == org && CanSignUp(Run(db, init), id, joined, person) {
          NewMemberWasAbsent(db, init, id, org);
        }
    }
  }

  // Members are never removed, so an identifier free now was free at the start.
  lemma NewMemberWasAbsent(db: Db, calls: seq<Call>, id: nat, org: nat)
    requires id !in Run(db, calls).users
    ensures id !in MembersOf(db, org)
  {
    UsersStay(db, calls);
  }

  lemma {:induction false} UsersStay(db: Db, calls: seq<Call>)
    ensures db.users.Keys <= Run(db, calls).users.Keys
  {
    if calls != [] {
      var n := |calls| - 1;
      UsersStay(db, calls[..n]);
      var t := Run(db, calls[..n]);
      if calls[n].Call? && Allowed(t, calls[n].actor, calls[n].request)
          && Serve(t, calls[n].actor, calls[n].request).Ok? {
        ServeKeepsMembers(t, calls[n].actor, calls[n].request);
      }
    }
  }

  // Without that invariant isolation fails: an order assigned across organizations is
  // relabelled by the deletion of its assignee.
  lemma ForeignAssigneeBreaksIsolation() returns (db: Db)
    ensures !AssigneesLocal(db) && Allowed(db, 0, DeleteMemberReq(1)) && db.users[0].org == 0
    ensures OrdersOf(Handle(db, 0, DeleteMemberReq(1)), 9) != OrdersOf(db, 9)
  {
    var admin := UserRow(0, Admin, true, None, "Asha", None, None);
    var employee := UserRow(0, Employee, true, None, "Ravi", None, None);
    var order := OrderRow(9, "WO-20240101-01", None, Closed, Some(1), Some("Ravi"), None, None, None, None,
                          "98765", [], []);
    db := Db(map[0 := admin, 1 := employee], map[], map[5 := order], {5}, {}, [], {}, 0);
    var t := Handle(db, 0, DeleteMemberReq(1));
    assert t.orders[5].assigneeName == Some("Ravi" + DELETED_SUFFIX);
    assert OrdersOf(t, 9)[5] != OrdersOf(db, 9)[5] by { assert |"Ravi" + DELETED_SUFFIX| > |"Ravi"|; }
  }
}
