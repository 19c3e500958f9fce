/** The authentication repository and service: accounts and tokens as mutable objects, and
    methods whose contracts equate the tables with what each request is to do to them. */
module AuthService {
  import opened Text
  import opened Auth

  class Account {
    const id: nat
    const org: Option<nat>
    const email: Option<string>
    const phone: Option<string>
    const created: nat
    var password: Hash
    var active: bool

    constructor (id: nat, row: AccountRow)
      ensures this.id == id && Row() == row
    {
      this.id, this.org, this.email, this.phone := id, row.org, row.email, row.phone;
      this.created, this.password, this.active := row.created, row.password, row.active;
    }

    function Row(): AccountRow
      reads this
    {
      AccountRow(org, email, phone, password, active, created)
    }

    method Edit(active: Option<bool>, password: Option<string>)
      modifies this
      ensures Row() == EditedAccount(old(Row()), active, password)
    {
      if active.Some? {
        this.active := active.value;
      }
      if password.Some? && password.value != "" {
        this.password := HashPassword(password.value);
      }
    }
  }

  class RefreshToken {
    const jti: nat
    const user: nat
    const expires: nat
    var revokedAt: Option<nat>

    constructor (jti: nat, user: nat, expires: nat)
      ensures this.jti == jti && Row() == TokenRow(user, expires, None)
    {
      this.jti, this.user, this.expires, this.revokedAt := jti, user, expires, None;
    }

    function Row(): TokenRow
      reads this
    {
      TokenRow(user, expires, revokedAt)
    }
  }

  class PasswordResetToken {
    const jti: nat
    const user: nat
    const expires: nat
    var usedAt: Option<nat>

    constructor (jti: nat, user: nat, expires: nat)
      ensures this.jti == jti && Row() == ResetRow(user, expires, None)
    {
      this.jti, this.user, this.expires, this.usedAt := jti, user, expires, None;
    }

    function Row(): ResetRow
      reads this
    {
      ResetRow(user, expires, usedAt)
    }
  }

  class AuthRepository {
    var accounts: map<nat, Account>
    var tokens: map<nat, RefreshToken>
    var resets: map<nat, PasswordResetToken>
    var closedOrgs: set<nat>

    ghost predicate Valid()
      reads this
    {
      && (forall u | u in accounts :: accounts[u].id == u)
      && (forall j | j in tokens :: tokens[j].jti == j)
      && (forall j | j in resets :: resets[j].jti == j)
    }

    ghost function Accounts(): map<nat, AccountRow>
      reads this`accounts, accounts.Values
    {
      map u | u in accounts :: accounts[u].Row()
    }

    ghost function Tokens(): map<nat, TokenRow>
      reads this`tokens, tokens.Values
    {
      map j | j in tokens :: tokens[j].Row()
    }

    ghost function Resets(): map<nat, ResetRow>
      reads this`resets, resets.Values
    {
      map j | j in resets :: resets[j].Row()
    }

    ghost function Abs(): AuthDb
      reads this, accounts.Values, tokens.Values, resets.Values
    {
      AuthDb(Accounts(), Tokens(), Resets(), closedOrgs)
    }

    // The first of the candidates, in the order of the query.
    method First(candidates: set<nat>, activeFirst: bool) returns (found: Option<nat>)
      requires candidates <= accounts.Keys
      ensures found.None? ==> candidates == {}
      ensures found.Some? ==> found.value in candidates
      ensures found.Some? ==> forall u | u in candidates ::
                if activeFirst then ComesFirst(accounts[found.value].Row(), accounts[u].Row())
                else accounts[found.value].created <= accounts[u].created
    {
      found := None;
      var rest := candidates;
      while rest != {}
        invariant rest <= candidates
        invariant found.None? ==> rest == candidates
        invariant found.Some? ==> found.value in candidates - rest
        invariant found.Some? ==> forall u | u in candidates - rest ::
            if activeFirst then ComesFirst(accounts[found.value].Row(), accounts[u].Row())
            else accounts[found.value].created <= accounts[u].created
        decreases rest
      {
        var u :| u in rest;
        rest := rest - {u};
        if found.None? {
          found := Some(u);
        } else {
          var best, next := accounts[found.value], accounts[u];
          if (activeFirst && !ComesFirst(best.Row(), next.Row())) || (!activeFirst && next.created < best.created) {
            found := Some(u);
          }
        }
      }
    }

    method GetUserByLogin(identifier: string) returns (found: Option<nat>)
      ensures FoundByLogin(Abs(), identifier, found)
    {
      var answering := set u | u in accounts && Answers(accounts[u].Row(), identifier);
      found := First(answering, true);
      assert forall u | u in accounts :: Abs().accounts[u] == accounts[u].Row();
      assert found.None? ==> forall u | u in accounts :: u !in answering;
    }

    method GetUserByEmail(email: string) returns (found: Option<nat>)
      ensures FoundByEmail(Abs(), email, found)
    {
      var answering := set u | u in accounts && HasEmail(accounts[u].Row(), email);
      found := First(answering, false);
      assert forall u | u in accounts :: Abs().accounts[u] == accounts[u].Row();
      assert found.None? ==> forall u | u in accounts :: u !in answering;
    }

    method IsEmailTaken(email: string) returns (taken: bool)
      ensures taken == EmailExists(Abs(), email)
    {
      var found := GetUserByEmail(email);
      return found.Some?;
    }

    method IsPhoneTaken(phone: string) returns (taken: bool)
      ensures taken == PhoneExists(Abs(), phone)
    {
      taken := exists u | u in accounts :: accounts[u].phone == Some(Strip(phone));
      assert forall u | u in accounts :: Abs().accounts[u].phone == accounts[u].phone;
    }

    method AddAccount(user: nat, row: AccountRow)
      requires Valid() && user !in accounts
      modifies this`accounts
      ensures Valid()
      ensures Abs() == old(Abs()).(accounts := old(Abs()).accounts[user := row])
    {
      var account := new Account(user, row);
      accounts := accounts[user := account];
      assert Accounts() == old(Accounts())[user := row];
    }

    method StorePassword(user: nat, password: Hash)
      requires Valid() && user in accounts
      modifies accounts[user]
      ensures Valid()
      ensures Abs() == old(Abs()).(
                accounts := old(Abs()).accounts[user := old(Abs()).accounts[user].(password := password)])
    {
      accounts[user].password := password;
      assert Accounts() == old(Accounts())[user := old(Accounts())[user].(password := password)];
    }

    method EditAccount(user: nat, active: Option<bool>, password: Option<string>)
      requires Valid() && user in accounts
      modifies accounts[user]
      ensures Valid()
      ensures Abs() == old(Abs()).(
                accounts := old(Abs()).accounts[user := EditedAccount(old(Abs()).accounts[user], active, password)])
    {
      accounts[user].Edit(active, password);
      assert Accounts() == old(Accounts())[user := EditedAccount(old(Accounts())[user], active, password)];
    }

    method AddRefreshToken(user: nat, ticket: Ticket)
      requires Valid() && ticket.jti !in tokens
      modifies this`tokens
      ensures Valid()
      ensures Abs() == old(Abs()).(tokens := old(Abs()).tokens[ticket.jti := TokenRow(user, ticket.expires, None)])
    {
      var token := new RefreshToken(ticket.jti, user, ticket.expires);
      tokens := tokens[ticket.jti := token];
      assert Tokens() == old(Tokens())[ticket.jti := TokenRow(user, ticket.expires, None)];
    }

    method RevokeRefreshToken(jti: nat, now: nat)
      requires Valid() && jti in tokens
      modifies tokens[jti]
      ensures Valid()
      ensures Abs() == old(Abs()).(tokens := old(Abs()).tokens[jti := old(Abs()).tokens[jti].(revokedAt := Some(now))])
    {
      tokens[jti].revokedAt := Some(now);
      assert Tokens() == old(Tokens())[jti := old(Tokens())[jti].(revokedAt := Some(now))];
    }

    // One live token of the user after another, as the query returns them.
    method RevokeAllUserRefreshTokens(user: nat, now: nat)
      requires Valid()
      modifies tokens.Values
      ensures Valid() && Abs() == old(Abs()).(tokens := RevokeAll(old(Abs()).tokens, user, now))
    {
      var rest := set j | j in tokens && tokens[j].user == user && tokens[j].revokedAt.None?;
      ghost var live := rest;
      while rest != {}
        invariant rest <= live <= tokens.Keys && Valid()
        invariant forall j | j in tokens ::
            tokens[j].Row() == if j in live - rest then old(tokens[j].Row()).(revokedAt := Some(now))
                               else old(tokens[j].Row())
        decreases rest
      {
        var j :| j in rest;
        rest := rest - {j};
        tokens[j].revokedAt := Some(now);
      }
      assert Tokens() == RevokeAll(old(Tokens()), user, now);
    }

    method AddResetToken(user: nat, ticket: Ticket)
      requires Valid() && ticket.jti !in resets
      modifies this`resets
      ensures Valid()
      ensures Abs() == old(Abs()).(resets := old(Abs()).resets[ticket.jti := ResetRow(user, ticket.expires, None)])
    {
      var reset := new PasswordResetToken(ticket.jti, user, ticket.expires);
      resets := resets[ticket.jti := reset];
      assert Resets() == old(Resets())[ticket.jti := ResetRow(user, ticket.expires, None)];
    }

    method MarkResetUsed(jti: nat, now: nat)
      requires Valid() && jti in resets
      modifies resets[jti]
      ensures Valid()
      ensures Abs() == old(Abs()).(resets := old(Abs()).resets[jti := old(Abs()).resets[jti].(usedAt := Some(now))])
    {
      resets[jti].usedAt := Some(now);
      assert Resets() == old(Resets())[jti := old(Resets())[jti].(usedAt := Some(now))];
    }
  }

  // A request that fails leaves the tables as they were.
  ghost predicate Meets(expected: Result<AuthDb>, before: AuthDb, after: AuthDb, ok: bool) {
    match expected
    case Ok(db) => ok && after == db
    case Err => !ok && after == before
  }

  // The request as it is served: its account is the one its identifier resolves to.
  ghost predicate Served(db: AuthDb, r: Request, served: Request) {
    match r
    case LoginReq(identifier, _, password, ticket) =>
      && served.LoginReq? && served == LoginReq(identifier, served.found, password, ticket)
      && FoundByLogin(db, identifier, served.found)
    case ForgotReq(email, _, ticket) =>
      served.ForgotReq? && served == ForgotReq(email, served.found, ticket) && FoundByEmail(db, email, served.found)
    case _ => served == r
  }

  class AuthenticationService {
    const repo: AuthRepository

    constructor (repo: AuthRepository)
      ensures this.repo == repo
    {
      this.repo := repo;
    }

    // The checks of a sign-up, in their order.
    method CheckSignUp(user: nat, data: NewAccount) returns (ok: bool)
      ensures ok == CanRegister(repo.Abs(), user, data)
    {
      var email, phone := EmailGiven(data), Clean(data.phone);
      if email.None? && phone.None? {
        return false;
      }
      if email.Some? {
        var taken := repo.IsEmailTaken(email.value);
        if taken {
          return false;
        }
      }
      if phone.Some? {
        var taken := repo.IsPhoneTaken(phone.value);
        if taken {
          return false;
        }
      }
      return user !in repo.accounts;
    }

    method SignUp(user: nat, data: NewAccount, ticket: Ticket, now: nat) returns (ok: bool)
      requires repo.Valid()
      modifies repo
      ensures repo.Valid() && Meets(Register(old(repo.Abs()), user, data, ticket, now), old(repo.Abs()), repo.Abs(), ok)
    {
      ok := CheckSignUp(user, data);
      if !ok || ticket.jti in repo.tokens {
        return false;
      }
      repo.AddAccount(user, NewAccountRow(data, now));
      repo.AddRefreshToken(user, ticket);
      return true;
    }

    method LogIn(identifier: string, password: string, ticket: Ticket) returns (ok: bool, ghost found: Option<nat>)
      requires repo.Valid()
      modifies repo
      ensures FoundByLogin(old(repo.Abs()), identifier, found)
      ensures repo.Valid() && Meets(Login(old(repo.Abs()), found, password, ticket), old(repo.Abs()), repo.Abs(), ok)
    {
      var user := repo.GetUserByLogin(identifier);
      found := user;
      if user.None? {
        return false, found;
      }
      var account := repo.accounts[user.value];
      if !Verify(password, account.password) || !account.active {
        return false, found;
      }
      if account.org.Some? && account.org.value in repo.closedOrgs {
        return false, found;
      }
      if ticket.jti in repo.tokens {
        return false, found;
      }
      repo.AddRefreshToken(user.value, ticket);
      return true, found;
    }

    method Rotate(jti: Option<nat>, ticket: Ticket, now: nat) returns (ok: bool)
      requires repo.Valid()
      modifies repo, repo.tokens.Values
      ensures repo.Valid() && Meets(Refresh(old(repo.Abs()), jti, ticket, now), old(repo.Abs()), repo.Abs(), ok)
    {
      if jti.None? || jti.value !in repo.tokens {
        return false;
      }
      var stored := repo.tokens[jti.value];
      if stored.revokedAt.Some? || stored.expires < now {
        return false;
      }
      if stored.user !in repo.accounts || !repo.accounts[stored.user].active {
        return false;
      }
      if ticket.jti in repo.tokens {
        return false;
      }
      repo.RevokeRefreshToken(jti.value, now);
      repo.AddRefreshToken(stored.user, ticket);
      return true;
    }

    method LogOut(jti: Option<nat>, now: nat) returns (ok: bool)
      requires repo.Valid()
      modifies repo.tokens.Values
      ensures repo.Valid() && Meets(Logout(old(repo.Abs()), jti, now), old(repo.Abs()), repo.Abs(), ok)
    {
      if jti.Some? && jti.value in repo.tokens && repo.tokens[jti.value].revokedAt.None? {
        repo.RevokeRefreshToken(jti.value, now);
      }
      return true;
    }

    method Forgot(email: string, ticket: Ticket) returns (ok: bool, ghost found: Option<nat>)
      requires repo.Valid()
      modifies repo
      ensures FoundByEmail(old(repo.Abs()), email, found)
      ensures repo.Valid() && Meets(ForgotPassword(old(repo.Abs()), found, ticket), old(repo.Abs()), repo.Abs(), ok)
    {
      var user := repo.GetUserByEmail(email);
      found := user;
      if user.Some? && repo.accounts[user.value].active {
        if ticket.jti in repo.resets {
          return false, found;
        }
        repo.AddResetToken(user.value, ticket);
      }
      return true, found;
    }

    method Reset(jti: Option<nat>, password: string, now: nat) returns (ok: bool)
      requires repo.Valid()
      modifies repo.accounts.Values, repo.tokens.Values, repo.resets.Values
      ensures repo.Valid() && Meets(ResetPassword(old(repo.Abs()), jti, password, now), old(repo.Abs()), repo.Abs(), ok)
    {
      if jti.None? || jti.value !in repo.resets {
        return false;
      }
      var stored := repo.resets[jti.value];
      if stored.usedAt.Some? || stored.expires < now || stored.user !in repo.accounts {
        return false;
      }
      repo.StorePassword(stored.user, HashPassword(password));
      repo.MarkResetUsed(jti.value, now);
      repo.RevokeAllUserRefreshTokens(stored.user, now);
      return true;
    }

    method Change(user: nat, current: string, password: string, now: nat) returns (ok: bool)
      requires repo.Valid()
      modifies repo.accounts.Values, repo.tokens.Values
      ensures repo.Valid()
      ensures Meets(ChangePassword(old(repo.Abs()), user, current, password, now), old(repo.Abs()), repo.Abs(), ok)
    {
      if user !in repo.accounts || !repo.accounts[user].active {
        return false;
      }
      if repo.accounts[user].org.Some? && repo.accounts[user].org.value in repo.closedOrgs {
        return false;
      }
      if !Verify(current, repo.accounts[user].password) || current == password {
        return false;
      }
      repo.StorePassword(user, HashPassword(password));
      repo.RevokeAllUserRefreshTokens(user, now);
      return true;
    }

    // What staff administration does to an account: no token is touched.
    method StaffEdit(user: nat, active: Option<bool>, password: Option<string>) returns (ok: bool)
      requires repo.Valid()
      modifies repo.accounts.Values
      ensures repo.Valid()
      ensures Meets(StaffUpdate(old(repo.Abs()), user, active, password), old(repo.Abs()), repo.Abs(), ok)
    {
      if user !in repo.accounts {
        return false;
      }
      repo.EditAccount(user, active, password);
      return true;
    }

    // The tables follow the run the properties are about; `served` is the request with the
    // account that the lookup found.
    method Handle(r: Request, now: nat) returns (ghost served: Request)
      requires repo.Valid()
      modifies repo, repo.accounts.Values, repo.tokens.Values, repo.resets.Values
      ensures repo.Valid() && Served(old(repo.Abs()), r, served)
          && repo.Abs() == Auth.Handle(old(repo.Abs()), served, now)
    {
      served := r;
      match r {
        case RegisterReq(user, data, ticket) => var _ := SignUp(user, data, ticket, now);
        case LoginReq(identifier, _, password, ticket) =>
          ghost var found;
          var ok;
          ok, found := LogIn(identifier, password, ticket);
          served := LoginReq(identifier, found, password, ticket);
        case RefreshReq(jti, ticket) => var _ := Rotate(jti, ticket, now);
        case LogoutReq(jti) => var _ := LogOut(jti, now);
        case ForgotReq(email, _, ticket) =>
          ghost var found;
          var ok;
          ok, found := Forgot(email, ticket);
          served := ForgotReq(email, found, ticket);
        case ResetReq(jti, password) => var _ := Reset(jti, password, now);
        case ChangeReq(user, current, password) => var _ := Change(user, current, password, now);
        case StaffReq(user, active, password) => var _ := StaffEdit(user, active, password);
      }
    }
  }
}
