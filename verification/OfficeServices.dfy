/** The services over the office database: each method checks, changes the stored objects step
    by step, and equates the whole database with what the request is to do to it. */
module OfficeServices {
  import opened Text
  import opened Numbering
  import opened Office
  import opened OfficeStore

  // Nothing is reported on success; on failure the database is as it was.
  ghost predicate Meets(expected: Result<Db>, before: Db, after: Db, failure: Option<Error>) {
    match expected
    case Ok(db) => failure.None? && after == db
    case Err(e) => failure == Some(e) && after == before
  }

  class EmployeeService {
    const db: Database

    constructor (db: Database)
      ensures this.db == db
    {
      this.db := db;
    }

    // The acting user's organization and the member looked up in it.
    method Find(actor: nat, target: nat) returns (org: nat, found: bool)
      requires actor in db.users
      ensures org == db.Abs().users[actor].org && found == IsMember(db.Abs(), org, target)
    {
      org := db.users[actor].org;
      found := target in db.users && db.users[target].org == org && db.users[target].deletedBy.None?;
    }

    method Create(actor: nat, id: nat, data: NewMember) returns (failure: Option<Error>)
      requires db.Valid() && actor in db.users
      modifies db
      ensures db.Valid() && Meets(CreateMember(old(db.Abs()), actor, id, data), old(db.Abs()), db.Abs(), failure)
    {
      var email, phone := CleanEmail(data.email), Strip(data.phone);
      var taken := db.IsPhoneTaken(phone, None);
      if taken {
        return Some(Conflict);
      }
      if email.Some? {
        taken := db.IsEmailTaken(email.value, None);
        if taken {
          return Some(Conflict);
        }
      }
      if id in db.users {
        return Some(Conflict);
      }
      db.AddUser(id, UserRow(db.users[actor].org, Employee, data.active, None, Strip(data.name), Some(phone), email));
      return None;
    }

    method Clashes(target: nat, data: MemberUpdate) returns (clash: bool)
      ensures clash == UpdateClashes(db.Abs(), target, data)
    {
      clash := false;
      if data.phone.Some? && data.phone.value != "" {
        clash := db.IsPhoneTaken(Strip(data.phone.value), Some(target));
      }
      if !clash && data.email.Some? && CleanEmail(data.email.value).Some? {
        clash := db.IsEmailTaken(CleanEmail(data.email.value).value, Some(target));
      }
    }

    method Update(actor: nat, target: nat, data: MemberUpdate) returns (failure: Option<Error>)
      requires db.Valid() && actor in db.users
      modifies db, db.users.Values
      ensures db.Valid() && Meets(UpdateMember(old(db.Abs()), actor, target, data), old(db.Abs()), db.Abs(), failure)
    {
      var org, found := Find(actor, target);
      if !found {
        return Some(NotFound);
      }
      var clash := Clashes(target, data);
      if clash {
        return Some(Conflict);
      }
      db.EditUser(target, data);
      return None;
    }

    method SetActive(actor: nat, target: nat, active: bool) returns (failure: Option<Error>)
      requires db.Valid() && actor in db.users
      modifies db, db.users.Values
      ensures db.Valid()
      ensures Meets(Office.SetActive(old(db.Abs()), actor, target, active), old(db.Abs()), db.Abs(), failure)
    {
      var org, found := Find(actor, target);
      if !found {
        return Some(NotFound);
      }
      var member := db.users[target];
      if member.active == active {
        return None;
      }
      if !active && member.role == Admin && member.active {
        var n := db.CountActiveAdmins(org);
        if n <= 1 {
          return Some(Conflict);
        }
      }
      db.SetUserActive(target, active);
      db.RecordAudit(org, actor, target, if active then StatusActivated else StatusDeactivated, None, None);
      return None;
    }

    method SetRole(actor: nat, target: nat, role: Role) returns (failure: Option<Error>)
      requires db.Valid() && actor in db.users
      modifies db, db.users.Values
      ensures db.Valid()
      ensures Meets(Office.SetRole(old(db.Abs()), actor, target, role), old(db.Abs()), db.Abs(), failure)
    {
      var org, found := Find(actor, target);
      if !found {
        return Some(NotFound);
      }
      var member := db.users[target];
      if member.role == role {
        return None;
      }
      if member.role == Admin && role == Employee && member.active {
        var n := db.CountActiveAdmins(org);
        if n <= 1 {
          return Some(Conflict);
        }
      }
      var oldRole := member.role;
      db.SetUserRole(target, role);
      var action := if role == Admin then RolePromoted else RoleDemoted;
      db.RecordAudit(org, actor, target, action, Some(oldRole), Some(role));
      return None;
    }

    // The four rules of deletion, in the order they are applied.
    method CheckDelete(actor: nat, target: nat) returns (failure: Option<Error>)
      requires db.Valid() && actor in db.users
      ensures failure == match DeleteMember(db.Abs(), actor, target) case Ok(_) => None case Err(e) => Some(e)
    {
      var org, found := Find(actor, target);
      if !found {
        return Some(NotFound);
      }
      if db.users[target].role == Admin {
        var n := db.CountAdmins(org);
        if n <= 1 {
          return Some(Conflict);
        }
      }
      if target == actor {
        return Some(Invalid);
      }
      var holds := db.HoldsActiveOrders(target);
      return if holds then Some(Conflict) else None;
    }

    method Delete(actor: nat, target: nat) returns (failure: Option<Error>)
      requires db.Valid() && actor in db.users
      modifies db, db.users.Values, db.orders.Values
      ensures db.Valid() && Meets(DeleteMember(old(db.Abs()), actor, target), old(db.Abs()), db.Abs(), failure)
    {
      failure := CheckDelete(actor, target);
      if failure.Some? {
        return;
      }
      var org := db.users[actor].org;
      db.RemoveUser(target, actor);
      db.RecordAudit(org, actor, target, UserDeleted, None, None);
    }
  }

  class WorkOrderService {
    const db: Database

    constructor (db: Database)
      ensures this.db == db
    {
      this.db := db;
    }

    // The tenant guard: another organization's order is not found.
    method Find(actor: nat, id: nat) returns (found: bool)
      requires actor in db.users
      ensures found == OwnOrder(db.Abs(), actor, id)
    {
      found := id in db.orders && db.orders[id].org == db.users[actor].org;
    }

    method Resolve(org: nat, assignee: Option<nat>) returns (found: bool, name: Option<string>)
      ensures found == AssigneeOk(db.Abs(), org, assignee)
      ensures found ==> name == NameOf(db.Abs(), org, assignee)
    {
      if assignee.None? {
        return true, None;
      }
      found := assignee.value in db.users && db.users[assignee.value].org == org
          && db.users[assignee.value].role == Employee;
      name := if found then Some(db.users[assignee.value].name) else None;
    }

    method SendCreationNotices(actor: nat, id: nat, data: NewOrder)
      requires actor in db.users
      modifies db`notifications
      ensures db.Abs() == CreationNotices(old(db.Abs()), actor, id, data)
    {
      var user := db.users[actor];
      if user.role != Admin {
        var admins := db.FindActiveAdminIds(user.org, Some(actor));
        db.NotifyAll(user.org, admins, WorkRequested, id);
      } else if data.assignee.Some? {
        db.NotifyAll(user.org, {data.assignee.value}, WorkAssigned, id);
      }
    }

    // The row to insert: the assignee only for admins, the status from the assignee.
    method Draft(actor: nat, number: string, data: NewOrder, name: Option<string>) returns (row: OrderRow)
      requires actor in db.users
      requires db.users[actor].role == Admin ==>
                 AssigneeOk(db.Abs(), db.users[actor].org, data.assignee)
                     && name == NameOf(db.Abs(), db.users[actor].org, data.assignee)
      ensures row == StartedOrder(db.Abs(), actor, number, data)
    {
      var user := db.users[actor];
      var assignee, shown, dueDate := None, None, None;
      if user.role == Admin {
        assignee, dueDate := data.assignee, data.dueDate;
        shown := if assignee.Some? then name else Clean(data.assignedName);
      }
      var status := if assignee.Some? then Assigned else AwaitingAssignment;
      row := OrderRow(user.org, number, Some(actor), status, assignee, shown, None, dueDate,
                      Some(data.category), if data.category == Others then Clean(data.categoryOther) else None,
                      Strip(data.contact), [CreatedWith(actor, status)], []);
    }

    method CheckCreate(actor: nat, id: nat, data: NewOrder) returns (failure: Option<Error>, name: Option<string>)
      requires actor in db.users
      ensures forall day ::
                failure == match CreateOrder(db.Abs(), actor, id, day, data) case Ok(_) => None case Err(e) => Some(e)
      ensures failure.None? && db.users[actor].role == Admin ==>
                AssigneeOk(db.Abs(), db.users[actor].org, data.assignee)
                && name == NameOf(db.Abs(), db.users[actor].org, data.assignee)
    {
      var user := db.users[actor];
      name := None;
      if user.role == Admin {
        var found;
        found, name := Resolve(user.org, data.assignee);
        if !found {
          return Some(Invalid), None;
        }
      }
      if data.customer.Some?
          && !(data.customer.value in db.customers && db.customers[data.customer.value] == user.org) {
        return Some(Invalid), None;
      }
      failure := if id in db.issued then Some(Conflict) else None;
    }

    method Insert(actor: nat, id: nat, number: string, data: NewOrder, name: Option<string>)
      requires db.Valid() && actor in db.users
      requires db.users[actor].role == Admin ==>
                 AssigneeOk(db.Abs(), db.users[actor].org, data.assignee)
                     && name == NameOf(db.Abs(), db.users[actor].org, data.assignee)
      modifies db
      ensures db.Valid()
      ensures db.Abs() == CreatedOrder(old(db.Abs()), actor, id, number, data)
    {
      var row := Draft(actor, number, data, name);
      SendCreationNotices(actor, id, data);
      db.AddOrder(id, row);
    }

    // The insert, unless the unique constraint on numbers refuses it.
    method TryInsert(actor: nat, id: nat, number: string, data: NewOrder, name: Option<string>) returns (stored: bool)
      requires db.Valid() && actor in db.users
      requires db.users[actor].role == Admin ==>
                 AssigneeOk(db.Abs(), db.users[actor].org, data.assignee)
                     && name == NameOf(db.Abs(), db.users[actor].org, data.assignee)
      modifies db
      ensures db.Valid() && stored == (number !in NumbersOf(old(db.Abs()), old(db.Abs()).users[actor].org))
      ensures db.Abs() == if stored then CreatedOrder(old(db.Abs()), actor, id, number, data) else old(db.Abs())
    {
      var taken := db.IsNumberTaken(db.users[actor].org, number);
      if taken {
        return false;
      }
      Insert(actor, id, number, data, name);
      return true;
    }

    // Draw a number and insert, starting over while somebody else took the number. Requests
    // being served one at a time here, the first try succeeds; `Allocation` lets them race.
    method InsertNumbered(actor: nat, id: nat, day: string, data: NewOrder, name: Option<string>) returns (stored: bool)
      requires db.Valid() && actor in db.users
      requires db.users[actor].role == Admin ==>
                 AssigneeOk(db.Abs(), db.users[actor].org, data.assignee)
                     && name == NameOf(db.Abs(), db.users[actor].org, data.assignee)
      modifies db
      ensures db.Valid() && stored
      ensures db.Abs() == CreatedOrder(old(db.Abs()), actor, id, NextOrder(old(db.Abs()), actor, day), data)
    {
      var attempt := 0;
      stored := false;
      while !stored && attempt < MAX_NUMBER_RETRIES
        invariant db.Valid() && (attempt > 0 ==> stored)
        invariant !stored ==> db.Abs() == old(db.Abs()) && db.users == old(db.users)
        invariant stored ==>
            db.Abs() == CreatedOrder(old(db.Abs()), actor, id, NextOrder(old(db.Abs()), actor, day), data)
        decreases MAX_NUMBER_RETRIES - attempt
      {
        var number := db.NextOrderNumber(db.users[actor].org, day);
        stored := TryInsert(actor, id, number, data, name);
        attempt := attempt + 1;
      }
    }

    method Create(actor: nat, id: nat, day: string, data: NewOrder) returns (failure: Option<Error>)
      requires db.Valid() && actor in db.users
      modifies db
      ensures db.Valid() && Meets(CreateOrder(old(db.Abs()), actor, id, day, data), old(db.Abs()), db.Abs(), failure)
    {
      var name;
      failure, name := CheckCreate(actor, id, data);
      assert failure == match CreateOrder(db.Abs(), actor, id, day, data) case Ok(_) => None case Err(e) => Some(e);
      if failure.Some? {
        return;
      }
      var stored := InsertNumbered(actor, id, day, data, name);
      failure := if stored then None else Some(Conflict);
    }

    method SendProgressNotices(id: nat, status: Status)
      requires id in db.orders
      modifies db`notifications
      ensures db.Abs() == ProgressNotices(old(db.Abs()), id, status)
    {
      var wo := db.orders[id];
      if status.Completed? && wo.status != Completed {
        var admins := db.FindActiveAdminIds(wo.org, None);
        db.NotifyAll(wo.org, admins, WorkCompleted, id);
      }
    }

    method UpdateStatus(actor: nat, id: nat, status: Status, note: string) returns (failure: Option<Error>)
      requires db.Valid() && actor in db.users
      modifies db, db.orders.Values
      ensures db.Valid()
      ensures Meets(Office.UpdateStatus(old(db.Abs()), actor, id, status, note), old(db.Abs()), db.Abs(), failure)
    {
      var found := Find(actor, id);
      if !found {
        return Some(NotFound);
      }
      var wo := db.orders[id];
      if db.users[actor].role != Admin && wo.assignee != Some(actor) {
        return Some(Forbidden);
      }
      if status != wo.status && !NextProgress(wo.status, status) {
        return Some(Invalid);
      }
      SendProgressNotices(id, status);
      db.ProgressOrder(id, actor, status, note);
      return None;
    }

    method Assign(actor: nat, id: nat, assignee: nat, dueDate: Option<nat>) returns (failure: Option<Error>)
      requires db.Valid() && actor in db.users
      modifies db, db.orders.Values
      ensures db.Valid()
      ensures Meets(AssignOrder(old(db.Abs()), actor, id, assignee, dueDate), old(db.Abs()), db.Abs(), failure)
    {
      var found := Find(actor, id);
      if !found {
        return Some(NotFound);
      }
      var wo := db.orders[id];
      if !(wo.status.AwaitingAssignment? || wo.status.Assigned?) {
        return Some(Invalid);
      }
      var name;
      found, name := Resolve(wo.org, Some(assignee));
      if !found {
        return Some(Invalid);
      }
      db.NotifyAll(wo.org, {assignee}, WorkAssigned, id);
      db.ReassignOrder(id, actor, assignee, name.value, dueDate);
      return None;
    }

    method SendClosingNotices(id: nat)
      requires id in db.orders
      modifies db`notifications
      ensures db.Abs() == ClosingNotices(old(db.Abs()), id)
    {
      var wo := db.orders[id];
      if wo.requestedBy.Some? {
        db.NotifyAll(wo.org, {wo.requestedBy.value}, WorkClosed, id);
      }
    }

    method Close(actor: nat, id: nat) returns (failure: Option<Error>)
      requires db.Valid() && actor in db.users
      modifies db, db.orders.Values
      ensures db.Valid() && Meets(CloseOrder(old(db.Abs()), actor, id), old(db.Abs()), db.Abs(), failure)
    {
      var found := Find(actor, id);
      if !found {
        return Some(NotFound);
      }
      var wo := db.orders[id];
      if !wo.status.Completed? {
        return Some(Invalid);
      }
      SendClosingNotices(id);
      db.TransitionOrder(id, actor, ClosedByAdmin, Closed);
      return None;
    }

    method Cancel(actor: nat, id: nat) returns (failure: Option<Error>)
      requires db.Valid() && actor in db.users
      modifies db, db.orders.Values
      ensures db.Valid() && Meets(CancelOrder(old(db.Abs()), actor, id), old(db.Abs()), db.Abs(), failure)
    {
      var found := Find(actor, id);
      if !found {
        return Some(NotFound);
      }
      if !ActiveStatus(db.orders[id].status) {
        return Some(Invalid);
      }
      db.TransitionOrder(id, actor, CancelledByAdmin, Cancelled);
      return None;
    }

    method Update(actor: nat, id: nat, data: OrderUpdate) returns (failure: Option<Error>)
      requires db.Valid() && actor in db.users
      modifies db, db.orders.Values
      ensures db.Valid() && Meets(UpdateOrder(old(db.Abs()), actor, id, data), old(db.Abs()), db.Abs(), failure)
    {
      var found := Find(actor, id);
      if !found {
        return Some(NotFound);
      }
      var wo := db.orders[id];
      if UpdateInvalid(wo.Row(), data) {
        return Some(Invalid);
      }
      var name;
      found, name := Resolve(wo.org, if data.assignee.Some? then data.assignee.value else None);
      if !found {
        return Some(Invalid);
      }
      db.EditOrder(id, data, name);
      return None;
    }

    method Delete(actor: nat, id: nat) returns (failure: Option<Error>)
      requires db.Valid() && actor in db.users
      modifies db
      ensures db.Valid() && Meets(DeleteOrder(old(db.Abs()), actor, id), old(db.Abs()), db.Abs(), failure)
    {
      var found := Find(actor, id);
      if !found {
        return Some(NotFound);
      }
      db.RemoveOrder(id);
      return None;
    }
  }
}
