/** Who gets in: which password an account accepts after a request set one, where tokens come
    from, and whom a login identifier finds. */
module AuthAccess {
  import opened Text
  import opened Auth
  import opened AuthProperties

  // ---------------------------------------------------------------- which password is accepted

  // The two passwords agree on their first 72 bytes, as far as they reach.
  predicate AgreeOn72(p: string, q: string) {
    && (|p| == |q| || (|p| >= 72 && |q| >= 72))
    && forall i | 0 <= i < |p| && i < 72 :: p[i] == q[i]
  }

  lemma SignificantIff(p: string, q: string)
    ensures Significant(p) == Significant(q) <==> AgreeOn72(p, q)
  {
    if Significant(p) == Significant(q) {
      assert |Significant(p)| == |Significant(q)|;
      forall i | 0 <= i < |p| && i < 72
        ensures p[i] == q[i]
      {
        assert Significant(p)[i] == p[i] && Significant(q)[i] == q[i];
      }
    }
  }

  // The password a request sets, for the account it sets it for.
  function PasswordSet(r: Request): string {
    match r
    case ChangeReq(_, _, password) => password
    case ResetReq(_, password) => password
    case StaffReq(_, _, Some(password)) => password
    case _ => ""
  }

  // A changed, reset or staff-set password is the one that logs in from then on, and no other
  // that differs from it within the first 72 bytes.
  lemma PasswordReplaced(db: AuthDb, r: Request, now: nat, p: string, ticket: Ticket)
    requires PasswordTarget(db, r).Some? && Serve(db, r, now).Ok? && ticket.jti !in Handle(db, r, now).tokens
    ensures var user, after := PasswordTarget(db, r).value, Handle(db, r, now);
            && user in after.accounts
            && (Login(after, Some(user), p, ticket).Ok? <==>
                  after.accounts[user].active && !LockedOut(after, user) && AgreeOn72(p, PasswordSet(r)))
  {
    SignificantIff(p, PasswordSet(r));
  }

  // Nothing else about the account changes, but for the activity a staff update gives, and
  // every other account stays as it was.
  lemma PasswordReplacedOnly(db: AuthDb, r: Request, now: nat, u: nat)
    requires PasswordTarget(db, r).Some? && Serve(db, r, now).Ok? && u in db.accounts
    ensures var a, b := db.accounts[u], Handle(db, r, now).accounts[u];
            if u != PasswordTarget(db, r).value then b == a
            else b == a.(password := b.password, active := if r.StaffReq? && r.active.Some? then r.active.value
                else a.active)
    ensures Handle(db, r, now).accounts.Keys == db.accounts.Keys
  {
  }

  // A sign-up needs an e-mail address or a phone number, and neither may be somebody else's.
  lemma RegisterServedIff(db: AuthDb, user: nat, data: NewAccount, ticket: Ticket, now: nat)
    ensures Register(db, user, data, ticket, now).Ok? <==>
            && user !in db.accounts && ticket.jti !in db.tokens
            && (EmailGiven(data).Some? || Clean(data.phone).Some?)
            && (EmailGiven(data).Some? ==>
                  forall u | u in db.accounts && db.accounts[u].email.Some? ::
                    !SameText(db.accounts[u].email.value, EmailGiven(data).value))
            && (Clean(data.phone).Some? ==>
                  forall u | u in db.accounts :: db.accounts[u].phone != Some(Strip(data.phone.value)))
  {
    if Clean(data.phone).Some? {
      StripFacts(data.phone.value);
      StripFacts(Strip(data.phone.value));
    }
    if EmailGiven(data).Some? {
      forall u | u in db.accounts && db.accounts[u].email.Some?
        ensures HasEmail(db.accounts[u], EmailGiven(data).value)
            <==> SameText(db.accounts[u].email.value, EmailGiven(data).value)
      {
        LowerForgetsCase(db.accounts[u].email.value, EmailGiven(data).value);
      }
    }
  }

  // A sign-up adds one account, under the trimmed phone number and the e-mail address given.
  lemma RegisteredStored(db: AuthDb, user: nat, data: NewAccount, ticket: Ticket, now: nat)
    requires Register(db, user, data, ticket, now).Ok?
    ensures var b := Register(db, user, data, ticket, now).value;
            && b.accounts == db.accounts[user := b.accounts[user]]
            && b.accounts[user].org == Some(data.org) && b.accounts[user].active && b.accounts[user].created == now
            && (if data.phone.None? || Strip(data.phone.value) == "" then b.accounts[user].phone == None
                else b.accounts[user].phone == Some(Strip(data.phone.value)))
            && (if data.email.None? || Strip(data.email.value) == "" then b.accounts[user].email == None
                else b.accounts[user].email.Some? && SameText(b.accounts[user].email.value, Strip(data.email.value)))
  {
    if data.email.Some? {
      var email := data.email.value;
      assert Lower(Lower(email)) == Lower(email);
      LowerForgetsCase(Lower(email), email);
      StripForgetsCase(Lower(email), email);
    }
  }

  // After signing up the chosen password logs in, and only one that agrees with it.
  lemma RegisteredLogsIn(db: AuthDb, user: nat, data: NewAccount, ticket: Ticket, now: nat, p: string, other: Ticket)
    requires Register(db, user, data, ticket, now).Ok?
    requires other.jti !in Register(db, user, data, ticket, now).value.tokens
    ensures Login(Register(db, user, data, ticket, now).value, Some(user), p, other).Ok? <==>
            data.org !in db.closedOrgs && AgreeOn72(p, data.password)
  {
    SignificantIff(p, data.password);
  }

  // ---------------------------------------------------------------- where tokens come from

  // A token appears only for an active account that signs up, logs in with its password while
  // its organization is open, or presents a live, unexpired token of its own.
  lemma NewTokenIsEarned(db: AuthDb, r: Request, now: nat, j: nat)
    requires j !in db.tokens && j in Handle(db, r, now).tokens
    ensures var after := Handle(db, r, now);
            var user := after.tokens[j].user;
            && user in after.accounts && after.accounts[user].active && Live(after, j)
            && match r
               case RegisterReq(u, _, ticket) => u == user && user !in db.accounts && ticket.jti == j
               case LoginReq(_, found, password, ticket) =>
                 && found == Some(user) && ticket.jti == j && !LockedOut(db, user)
                 && Verify(password, db.accounts[user].password)
               case RefreshReq(jti, ticket) =>
                 && ticket.jti == j && jti.Some? && jti.value in db.tokens && db.tokens[jti.value].user == user
                 && Live(db, jti.value) && !Live(after, jti.value) && now <= db.tokens[jti.value].expires
               case _ => false
  {
  }

  // The token issued is accepted until it expires.
  lemma IssuedTokenWorks(db: AuthDb, r: Request, now: nat, later: nat)
    requires (r.RegisterReq? || r.LoginReq? || r.RefreshReq?) && Serve(db, r, now).Ok?
    ensures Refreshable(Handle(db, r, now), Some(r.ticket.jti), later) <==> later <= r.ticket.expires
  {
  }

  function TokensOf(db: AuthDb, user: nat): set<nat> {
    set j | j in db.tokens && db.tokens[j].user == user
  }

  // An account that stays off gains no token over any run.
  lemma {:induction false} InactiveGainsNothing(s: State, calls: seq<Call>, user: nat)
    requires user in s.db.accounts && !s.db.accounts[user].active
    requires forall k | 0 <= k <= |calls| :: !SwitchedOn(false, calls[..k], user)
    ensures TokensOf(Run(s, calls).db, user) == TokensOf(s.db, user)
  {
    if calls != [] {
      var n := |calls| - 1;
      var init := calls[..n];
      forall k | 0 <= k <= n
        ensures !SwitchedOn(false, init[..k], user)
      {
        assert init[..k] == calls[..k];
      }
      InactiveGainsNothing(s, init, user);
      assert calls[..|calls|] == calls;
      ActiveAfterRun(s, calls, user);
      var before, after := Run(s, init).db, Run(s, calls).db;
      StepAges(before, calls[n].request, calls[n].now);
      forall j | j in after.tokens && j !in before.tokens
        ensures after.tokens[j].user != user
      {
        NewTokenIsEarned(before, calls[n].request, calls[n].now, j);
      }
    }
  }

  // Tokens are revoked at the time of the request that revokes them.
  lemma RevokedNow(db: AuthDb, r: Request, now: nat, j: nat)
    requires Live(db, j) && !Live(Handle(db, r, now), j)
    ensures j in Handle(db, r, now).tokens && Handle(db, r, now).tokens[j].revokedAt == Some(now)
  {
  }

  // A reset token asked for can be used once, until it expires.
  lemma ForgottenCanReset(db: AuthDb, user: nat, ticket: Ticket, password: string, later: nat)
    requires user in db.accounts && db.accounts[user].active && ticket.jti !in db.resets
    ensures ForgotPassword(db, Some(user), ticket).Ok?
    ensures ResetPassword(ForgotPassword(db, Some(user), ticket).value, Some(ticket.jti), password, later).Ok?
            <==> later <= ticket.expires
  {
  }

  // Asking for one changes nothing for an account that is off or does not exist.
  lemma ForgottenNeedsActive(db: AuthDb, found: Option<nat>, ticket: Ticket)
    requires found.None? || found.value !in db.accounts || !db.accounts[found.value].active
    ensures ForgotPassword(db, found, ticket) == Ok(db)
  {
  }

  // ---------------------------------------------------------------- whom an identifier finds

  ghost predicate ContactsUnique(db: AuthDb) {
    forall u, v | u in db.accounts && v in db.accounts && u != v ::
      && (db.accounts[u].email.Some? && db.accounts[v].email.Some? ==>
            !SameText(db.accounts[u].email.value, db.accounts[v].email.value))
      && (db.accounts[u].phone.Some? ==> db.accounts[u].phone != db.accounts[v].phone)
  }

  lemma RegisterKeepsContacts(db: AuthDb, user: nat, data: NewAccount, ticket: Ticket, now: nat)
    requires ContactsUnique(db) && Register(db, user, data, ticket, now).Ok?
    ensures ContactsUnique(Register(db, user, data, ticket, now).value)
  {
    var row := NewAccountRow(data, now);
    forall u | u in db.accounts
      ensures row.email.Some? && db.accounts[u].email.Some? ==> !SameText(row.email.value, db.accounts[u].email.value)
      ensures row.email.Some? && db.accounts[u].email.Some? ==> !SameText(db.accounts[u].email.value, row.email.value)
      ensures row.phone.Some? ==> row.phone != db.accounts[u].phone
    {
      if row.email.Some? && db.accounts[u].email.Some? {
        LowerForgetsCase(row.email.value, db.accounts[u].email.value);
        LowerForgetsCase(db.accounts[u].email.value, row.email.value);
        assert !HasEmail(db.accounts[u], row.email.value);
      }
      if row.phone.Some? {
        StripFacts(data.phone.value);
        StripFacts(Strip(data.phone.value));
      }
    }
  }

  lemma OthersKeepContacts(db: AuthDb, r: Request, now: nat)
    requires !r.RegisterReq?
    ensures Handle(db, r, now).accounts.Keys == db.accounts.Keys
    ensures forall u | u in db.accounts ::
              && Handle(db, r, now).accounts[u].email == db.accounts[u].email
              && Handle(db, r, now).accounts[u].phone == db.accounts[u].phone
  {
  }

  // Over every run no two accounts share an e-mail address, case aside, or a phone number.
  lemma {:induction false} ContactsStayUnique(s: State, calls: seq<Call>)
    requires ContactsUnique(s.db)
    ensures ContactsUnique(Run(s, calls).db)
  {
    if calls != [] {
      var n := |calls| - 1;
      ContactsStayUnique(s, calls[..n]);
      var before, r, now := Run(s, calls[..n]).db, calls[n].request, calls[n].now;
      if r.RegisterReq? && Serve(before, r, now).Ok? {
        RegisterKeepsContacts(before, r.newUser, r.newAccount, r.ticket, now);
      } else if !r.RegisterReq? {
        OthersKeepContacts(before, r, now);
      }
    }
  }

  // So in every reachable state an e-mail address, in any case, finds its owner and nobody else.
  lemma EmailFindsOwner(s: State, calls: seq<Call>, user: nat, email: string, found: Option<nat>)
    requires ContactsUnique(s.db) && user in Run(s, calls).db.accounts
    requires Run(s, calls).db.accounts[user].email.Some?
    requires SameText(Run(s, calls).db.accounts[user].email.value, email)
    ensures FoundByEmail(Run(s, calls).db, email, found) <==> found == Some(user)
  {
    var db := Run(s, calls).db;
    forall u | u in db.accounts
      ensures HasEmail(db.accounts[u], email) <==> u == user
    {
      OnlyOwnerHasEmail(s, calls, user, email, u);
    }
  }

  // Two accounts may answer one identifier, the e-mail address of the one being the phone text
  // of the other; an active one is found first.
  lemma LoginPrefersActive(db: AuthDb, identifier: string, found: Option<nat>, user: nat)
    requires FoundByLogin(db, identifier, found)
    requires user in db.accounts && db.accounts[user].active && Answers(db.accounts[user], identifier)
    ensures found.Some? && found.value in db.accounts && db.accounts[found.value].active
    ensures db.accounts[found.value].created <= db.accounts[user].created
  {
  }

  // A phone number finds its owner to log in, as long as it is nobody's e-mail address.
  lemma PhoneFindsOwner(s: State, calls: seq<Call>, user: nat, identifier: string, found: Option<nat>)
    requires ContactsUnique(s.db) && user in Run(s, calls).db.accounts
    requires Run(s, calls).db.accounts[user].phone == Some(Strip(identifier))
    requires forall u | u in Run(s, calls).db.accounts && Run(s, calls).db.accounts[u].email.Some? ::
               !SameText(Run(s, calls).db.accounts[u].email.value, Strip(identifier))
    ensures FoundByLogin(Run(s, calls).db, identifier, found) <==> found == Some(user)
  {
    ContactsStayUnique(s, calls);
    var db := Run(s, calls).db;
    forall u | u in db.accounts
      ensures Answers(db.accounts[u], identifier) <==> u == user
    {
      if db.accounts[u].email.Some? {
        LowerForgetsCase(db.accounts[u].email.value, Strip(identifier));
      }
    }
  }

  // And an e-mail address, in any case, as long as it is nobody's phone number.
  lemma EmailLogsInOwner(s: State, calls: seq<Call>, user: nat, identifier: string, found: Option<nat>)
    requires ContactsUnique(s.db) && user in Run(s, calls).db.accounts && Run(s, calls).db.accounts[user].email.Some?
    requires SameText(Run(s, calls).db.accounts[user].email.value, Strip(identifier))
    requires forall u | u in Run(s, calls).db.accounts :: Run(s, calls).db.accounts[u].phone != Some(Strip(identifier))
    ensures FoundByLogin(Run(s, calls).db, identifier, found) <==> found == Some(user)
  {
    var db := Run(s, calls).db;
    forall u | u in db.accounts
      ensures Answers(db.accounts[u], identifier) <==> u == user
    {
      OnlyOwnerHasEmail(s, calls, user, Strip(identifier), u);
    }
  }

  lemma OnlyOwnerHasEmail(s: State, calls: seq<Call>, user: nat, email: string, u: nat)
    requires ContactsUnique(s.db) && user in Run(s, calls).db.accounts && u in Run(s, calls).db.accounts
    requires Run(s, calls).db.accounts[user].email.Some?
    requires SameText(Run(s, calls).db.accounts[user].email.value, email)
    ensures HasEmail(Run(s, calls).db.accounts[u], email) <==> u == user
  {
    ContactsStayUnique(s, calls);
    var db := Run(s, calls).db;
    LowerForgetsCase(db.accounts[user].email.value, email);
    if db.accounts[u].email.Some? {
      LowerForgetsCase(db.accounts[u].email.value, email);
      LowerForgetsCase(db.accounts[u].email.value, db.accounts[user].email.value);
    }
  }
}
