/** Members' contacts: what creating and updating a member stores, and that no two members ever
    share a phone number or an e-mail address. */
module OfficeContacts {
  import opened Text
  import opened Office

  // ---------------------------------------------------------------- creating and updating members

  // A member created is an employee of the acting admin's organization, under its trimmed
  // name and phone, on or off as asked; nobody else changes.
  lemma CreateMemberEffect(db: Db, actor: nat, id: nat, data: NewMember)
    requires Allowed(db, actor, CreateMemberReq(id, data)) && CreateMember(db, actor, id, data).Ok?
    ensures var b := Handle(db, actor, CreateMemberReq(id, data));
            && id !in db.users && b.users == db.users[id := b.users[id]] && b.audit == db.audit && b.orders == db.orders
            && b.users[id].org == db.users[actor].org && b.users[id].role == Employee && b.users[id].deletedBy == None
            && b.users[id].active == data.active && b.users[id].name == Strip(data.name)
            && b.users[id].phone == Some(Strip(data.phone))
            && (Clean(data.email) == None ==> b.users[id].email == None)
            && (Clean(data.email).Some? ==>
                  b.users[id].email.Some? && SameText(b.users[id].email.value, Strip(data.email.value)))
  {
    if Clean(data.email).Some? {
      LowerTwice(Strip(data.email.value));
    }
  }

  lemma LowerTwice(s: string)
    ensures SameText(Lower(s), s)
  {
    assert Lower(Lower(s)) == Lower(s);
    LowerForgetsCase(Lower(s), s);
  }

  // An update changes the given fields of one member of the organization, its activity too;
  // the role, the organization and the audit trail stay.
  lemma UpdateMemberEffect(db: Db, actor: nat, target: nat, data: MemberUpdate)
    requires Allowed(db, actor, UpdateMemberReq(target, data)) && UpdateMember(db, actor, target, data).Ok?
    ensures var b := Handle(db, actor, UpdateMemberReq(target, data));
            && target in db.users && db.users[target].org == db.users[actor].org && db.users[target].deletedBy == None
            && b.users == db.users[target := b.users[target]] && b.audit == db.audit && b.orders == db.orders
    ensures var was, now := db.users[target], Handle(db, actor, UpdateMemberReq(target, data)).users[target];
            && now.org == was.org && now.role == was.role && now.deletedBy == None
            && now.active == (if data.active == None then was.active else data.active.value)
            && now.phone == (if data.phone == None || data.phone == Some("") then was.phone
                else Some(Strip(data.phone.value)))
            && now.name == (if data.name == None || data.name == Some("") then was.name else Strip(data.name.value))
            && (data.email == None ==> now.email == was.email)
            && (data.email.Some? && Clean(data.email.value) == None ==> now.email == None)
            && (data.email.Some? && Clean(data.email.value).Some? ==>
                  now.email.Some? && SameText(now.email.value, Strip(data.email.value.value)))
  {
    if data.email.Some? && Clean(data.email.value).Some? {
      LowerTwice(Strip(data.email.value.value));
    }
  }

  // Who signs up becomes an active employee, in an organization that has an admin when any
  // has one; or nothing changes.
  lemma SignUpEffect(db: Db, id: nat, org: nat, person: Person)
    ensures var b := SignedUp(db, id, org, person);
            b == db ||
            (&& id !in db.users && b == db.(users := db.users[id := b.users[id]])
             && b.users[id].org == org && b.users[id].role == Employee && b.users[id].active
                 && b.users[id].deletedBy == None
             && b.users[id].phone == Clean(person.phone) && b.users[id].name == person.name
             && (b.users[id].phone.Some? || b.users[id].email.Some?)
             && ((exists u | u in db.users :: db.users[u].role == Admin && db.users[u].deletedBy == None) ==>
                   exists u | u in db.users ::
                     db.users[u].org == org && db.users[u].role == Admin && db.users[u].deletedBy == None))
  {
  }

  // It is refused only for want of a contact, for a contact somebody has, or where no admin is.
  lemma SignUpServedIff(db: Db, id: nat, org: nat, person: Person)
    ensures id in SignedUp(db, id, org, person).users && id !in db.users <==>
            && id !in db.users && TakesIn(db, org)
            && (EmailGiven(person).Some? || Clean(person.phone).Some?)
            && (EmailGiven(person).Some? ==>
                  forall u | u in db.users && db.users[u].email.Some? ::
                    !SameText(db.users[u].email.value, EmailGiven(person).value))
            && (Clean(person.phone).Some? ==>
                  forall u | u in db.users :: db.users[u].phone != Some(Strip(person.phone.value)))
  {
    if Clean(person.phone).Some? {
      StripTwice(person.phone.value);
    }
    if EmailGiven(person).Some? {
      forall u | u in db.users && db.users[u].email.Some?
        ensures Lower(db.users[u].email.value) == Lower(EmailGiven(person).value)
            <==> SameText(db.users[u].email.value, EmailGiven(person).value)
      {
        LowerForgetsCase(db.users[u].email.value, EmailGiven(person).value);
      }
    }
  }

  // ---------------------------------------------------------------- nobody shares a contact

  predicate SharesContact(a: UserRow, b: UserRow) {
    || (a.email.Some? && b.email.Some? && SameText(a.email.value, b.email.value))
    || (a.phone.Some? && a.phone == b.phone)
  }

  ghost predicate ContactsUnique(db: Db) {
    forall u, v | u in db.users && v in db.users && u != v :: !SharesContact(db.users[u], db.users[v])
  }

  // A member stored under contacts that nobody else has.
  lemma NewContactsKeepUnique(db: Db, b: Db, id: nat)
    requires ContactsUnique(db) && id in b.users && b.users == db.users[id := b.users[id]]
    requires forall v | v in db.users && v != id :: !SharesContact(b.users[id], db.users[v])
    ensures ContactsUnique(b)
  {
    forall u, v | u in b.users && v in b.users && u != v
      ensures !SharesContact(b.users[u], b.users[v])
    {
      if v == id {
        SharesBack(b.users[u], b.users[v]);
      }
    }
  }

  lemma SharesBack(a: UserRow, b: UserRow)
    ensures SharesContact(a, b) <==> SharesContact(b, a)
  {
  }

  lemma SameContactsKeepUnique(db: Db, b: Db)
    requires ContactsUnique(db) && b.users.Keys == db.users.Keys
    requires forall u | u in db.users :: b.users[u].phone == db.users[u].phone && b.users[u].email == db.users[u].email
    ensures ContactsUnique(b)
  {
    forall u, v | u in b.users && v in b.users && u != v
      ensures !SharesContact(b.users[u], b.users[v])
    {
      assert !SharesContact(db.users[u], db.users[v]);
    }
  }

  // Contacts that the lookups of the service find with nobody but `except`.
  predicate Free(db: Db, phone: Option<string>, email: Option<string>, except: Option<nat>) {
    && (phone.Some? ==> Strip(phone.value) == phone.value && !PhoneTaken(db, phone.value, except))
    && (email.Some? ==> !EmailTaken(db, email.value, except))
  }

  lemma FreeIsUnshared(db: Db, row: UserRow, except: Option<nat>)
    requires Free(db, row.phone, row.email, except)
    ensures forall v | v in db.users && except != Some(v) :: !SharesContact(row, db.users[v])
  {
    forall v | v in db.users && except != Some(v)
      ensures !SharesContact(row, db.users[v])
    {
      if row.email.Some? && db.users[v].email.Some? {
        LowerForgetsCase(row.email.value, db.users[v].email.value);
      }
    }
  }

  lemma StripTwice(s: string)
    ensures Strip(Strip(s)) == Strip(s)
  {
    StripFacts(s);
    StripFacts(Strip(s));
  }

  lemma CreationKeepsContacts(db: Db, actor: nat, id: nat, data: NewMember)
    requires ContactsUnique(db) && actor in db.users && CreateMember(db, actor, id, data).Ok?
    ensures ContactsUnique(CreateMember(db, actor, id, data).value)
  {
    var b := CreateMember(db, actor, id, data).value;
    StripTwice(data.phone);
    FreeIsUnshared(db, b.users[id], None);
    NewContactsKeepUnique(db, b, id);
  }

  lemma SignUpKeepsContacts(db: Db, id: nat, org: nat, person: Person)
    requires ContactsUnique(db)
    ensures ContactsUnique(SignedUp(db, id, org, person))
  {
    if CanSignUp(db, id, org, person) {
      var b := SignedUp(db, id, org, person);
      if person.phone.Some? {
        StripTwice(person.phone.value);
      }
      FreeIsUnshared(db, b.users[id], None);
      NewContactsKeepUnique(db, b, id);
    }
  }

  // Contacts an update leaves alone are the member's own already.
  lemma UpdatedIsUnshared(db: Db, target: nat, data: MemberUpdate, v: nat)
    requires ContactsUnique(db) && target in db.users && !UpdateClashes(db, target, data)
    requires v in db.users && v != target
    ensures !SharesContact(UpdatedMember(db.users[target], data), db.users[v])
  {
    var row := UpdatedMember(db.users[target], data);
    assert !SharesContact(db.users[target], db.users[v]);
    if data.phone.Some? && data.phone.value != "" {
      StripTwice(data.phone.value);
      assert !PhoneTaken(db, Strip(data.phone.value), Some(target));
    }
    if data.email.Some? && row.email.Some? {
      assert !EmailTaken(db, row.email.value, Some(target));
      if db.users[v].email.Some? {
        LowerForgetsCase(row.email.value, db.users[v].email.value);
      }
    }
  }

  lemma UpdateKeepsContacts(db: Db, actor: nat, target: nat, data: MemberUpdate)
    requires ContactsUnique(db) && actor in db.users && UpdateMember(db, actor, target, data).Ok?
    ensures ContactsUnique(UpdateMember(db, actor, target, data).value)
  {
    var b := UpdateMember(db, actor, target, data).value;
    forall v | v in db.users && v != target
      ensures !SharesContact(b.users[target], db.users[v])
    {
      UpdatedIsUnshared(db, target, data, v);
    }
    NewContactsKeepUnique(db, b, target);
  }

  lemma OthersKeepContacts(db: Db, actor: nat, r: Request)
    requires actor in db.users && Serve(db, actor, r).Ok? && !r.CreateMemberReq? && !r.UpdateMemberReq?
    ensures Serve(db, actor, r).value.users.Keys == db.users.Keys
    ensures forall u | u in db.users ::
              && Serve(db, actor, r).value.users[u].phone == db.users[u].phone
              && Serve(db, actor, r).value.users[u].email == db.users[u].email
  {
  }

  lemma PerformKeepsContacts(db: Db, c: Call)
    requires ContactsUnique(db)
    ensures ContactsUnique(Perform(db, c))
  {
    match c
    case SignUp(id, org, person) => SignUpKeepsContacts(db, id, org, person);
    case Call(actor, r) =>
      if Allowed(db, actor, r) && Serve(db, actor, r).Ok? {
        if r.CreateMemberReq? {
          CreationKeepsContacts(db, actor, r.id, r.newMember);
        } else if r.UpdateMemberReq? {
          UpdateKeepsContacts(db, actor, r.target, r.memberUpdate);
        } else {
          OthersKeepContacts(db, actor, r);
          SameContactsKeepUnique(db, Serve(db, actor, r).value);
        }
      }
  }

  // Over every run, sign-ups included, no two members of any organizations share a phone
  // number or an e-mail address, whatever the case of its letters; deleted members count too.
  lemma {:induction false} ContactsStayUnique(db: Db, calls: seq<Call>)
    requires ContactsUnique(db)
    ensures ContactsUnique(Run(db, calls))
  {
    if calls != [] {
      ContactsStayUnique(db, calls[..|calls| - 1]);
      PerformKeepsContacts(Run(db, calls[..|calls| - 1]), calls[|calls| - 1]);
    }
  }

  // A creation is refused only for a contact somebody has or an identifier in use.
  lemma CreateServedIff(db: Db, actor: nat, id: nat, data: NewMember)
    requires actor in db.users
    ensures CreateMember(db, actor, id, data).Ok? <==>
            && id !in db.users
            && (forall u | u in db.users :: db.users[u].phone != Some(Strip(data.phone)))
            && (Clean(data.email).Some? ==>
                  forall u | u in db.users && db.users[u].email.Some? ::
                    !SameText(db.users[u].email.value, Strip(data.email.value)))
  {
    StripTwice(data.phone);
    if Clean(data.email).Some? {
      LowerTwice(Strip(data.email.value));
      forall u | u in db.users && db.users[u].email.Some?
        ensures Lower(db.users[u].email.value) == Lower(Lower(Strip(data.email.value)))
            <==> SameText(db.users[u].email.value, Strip(data.email.value))
      {
        assert Lower(Lower(Strip(data.email.value))) == Lower(Strip(data.email.value));
        LowerForgetsCase(db.users[u].email.value, Strip(data.email.value));
      }
    }
  }
}
