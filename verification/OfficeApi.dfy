/** Serving one request: the acting user is checked, then the service the route belongs to runs. */
module OfficeApi {
  import opened Text
  import opened Office
  import opened OfficeStore
  import opened OfficeServices

  class Api {
    const db: Database
    const staff: EmployeeService
    const orders: WorkOrderService

    constructor (db: Database)
      ensures this.db == db && staff.db == db && orders.db == db
    {
      this.db := db;
      this.staff := new EmployeeService(db);
      this.orders := new WorkOrderService(db);
    }

    ghost predicate Valid()
      reads this, db
    {
      staff.db == db && orders.db == db && db.Valid()
    }

    // An active user, with the admin's permissions where the route asks for them.
    method Authorize(actor: nat, r: Request) returns (allowed: bool)
      ensures allowed == Allowed(db.Abs(), actor, r)
    {
      allowed := && actor in db.users && db.users[actor].active && db.users[actor].org !in db.closedOrgs
          && WellFormed(r)
                 && (AdminOnly(r) ==> db.users[actor].role == Admin);
    }

    method ServeStaff(actor: nat, r: Request) returns (failure: Option<Error>)
      requires Valid() && actor in db.users
      requires r.CreateMemberReq? || r.UpdateMemberReq? || r.SetActiveReq? || r.SetRoleReq? || r.DeleteMemberReq?
      modifies db, db.users.Values, db.orders.Values
      ensures Valid() && Meets(Serve(old(db.Abs()), actor, r), old(db.Abs()), db.Abs(), failure)
    {
      match r
      case CreateMemberReq(id, data) => failure := staff.Create(actor, id, data);
      case UpdateMemberReq(target, data) => failure := staff.Update(actor, target, data);
      case SetActiveReq(target, active) => failure := staff.SetActive(actor, target, active);
      case SetRoleReq(target, role) => failure := staff.SetRole(actor, target, role);
      case DeleteMemberReq(target) => failure := staff.Delete(actor, target);
    }

    method ServeOrders(actor: nat, r: Request) returns (failure: Option<Error>)
      requires Valid() && actor in db.users
      requires !(r.CreateMemberReq? || r.UpdateMemberReq? || r.SetActiveReq? || r.SetRoleReq? || r.DeleteMemberReq?)
      modifies db, db.orders.Values
      ensures Valid() && Meets(Serve(old(db.Abs()), actor, r), old(db.Abs()), db.Abs(), failure)
    {
      match r
      case CreateOrderReq(id, day, data) => failure := orders.Create(actor, id, day, data);
      case UpdateStatusReq(id, status, note) => failure := orders.UpdateStatus(actor, id, status, note);
      case AssignOrderReq(id, assignee, dueDate) => failure := orders.Assign(actor, id, assignee, dueDate);
      case CloseOrderReq(id) => failure := orders.Close(actor, id);
      case CancelOrderReq(id) => failure := orders.Cancel(actor, id);
      case UpdateOrderReq(id, data) => failure := orders.Update(actor, id, data);
      case DeleteOrderReq(id) => failure := orders.Delete(actor, id);
    }

    // The stored objects follow the run of the database the properties are about.
    method Handle(actor: nat, r: Request)
      requires Valid()
      modifies db, db.users.Values, db.orders.Values
      ensures Valid() && db.Abs() == Office.Handle(old(db.Abs()), actor, r)
    {
      var allowed := Authorize(actor, r);
      if !allowed {
        return;
      }
      if r.CreateMemberReq? || r.UpdateMemberReq? || r.SetActiveReq? || r.SetRoleReq? || r.DeleteMemberReq? {
        var _ := ServeStaff(actor, r);
      } else {
        var _ := ServeOrders(actor, r);
      }
    }

    // The organization of some admin, if there is one; otherwise the one given.
    method DefaultOrganization(fallback: nat) returns (org: nat)
      ensures TakesIn(db.Abs(), org)
    {
      assert forall u | u in db.users :: db.Abs().users[u] == db.users[u].Row();
      if u :| u in db.users && db.users[u].role == Admin && db.users[u].deletedBy.None? {
        assert HasAdmin(db.Abs(), db.users[u].org);
        return db.users[u].org;
      }
      return fallback;
    }

    // The checks of a sign-up, in their order.
    method CheckSignUp(id: nat, org: nat, person: Person) returns (ok: bool)
      requires TakesIn(db.Abs(), org)
      ensures ok == CanSignUp(db.Abs(), id, org, person)
    {
      var email, phone := EmailGiven(person), Clean(person.phone);
      if email.None? && phone.None? {
        return false;
      }
      if email.Some? {
        var taken := db.IsEmailTaken(email.value, None);
        if taken {
          return false;
        }
      }
      if phone.Some? {
        var taken := db.IsPhoneTaken(phone.value, None);
        if taken {
          return false;
        }
      }
      return id !in db.users;
    }

    // Public sign-up: nobody acts, and the new employee joins the default organization.
    method SignUp(id: nat, person: Person, fallback: nat) returns (org: nat)
      requires Valid()
      modifies db
      ensures Valid() && TakesIn(old(db.Abs()), org) && db.Abs() == SignedUp(old(db.Abs()), id, org, person)
    {
      org := DefaultOrganization(fallback);
      var ok := CheckSignUp(id, org, person);
      if ok {
        db.AddUser(id, UserRow(org, Employee, true, None, person.name, Clean(person.phone), EmailGiven(person)));
      }
    }
  }
}
