/** Sessions and passwords: refresh tokens that rotate, reset tokens for single use, and what
    each authentication request does to them. */
module Auth {
  import opened Text

  // ---------------------------------------------------------------- passwords

  const BCRYPT_MAX_BYTES := 72

  // bcrypt reads the first 72 bytes; beyond that a password makes no difference.
  function Significant(password: string): string {
    if |password| <= BCRYPT_MAX_BYTES then password else password[..BCRYPT_MAX_BYTES]
  }

  // A stored hash stands for the bytes it was made from; salting and cost are not modelled.
  datatype Hash = Hash(bytes: string)

  function HashPassword(password: string): Hash {
    Hash(Significant(password))
  }

  predicate Verify(password: string, hash: Hash) {
    HashPassword(password) == hash
  }

  // ---------------------------------------------------------------- tables

  datatype AccountRow = AccountRow(org: Option<nat>, email: Option<string>, phone: Option<string>,
                                   password: Hash, active: bool, created: nat)

  datatype TokenRow = TokenRow(user: nat, expires: nat, revokedAt: Option<nat>)

  datatype ResetRow = ResetRow(user: nat, expires: nat, usedAt: Option<nat>)

  // Tokens are kept by their unique identifier (jti). No request switches an organization off.
  datatype AuthDb = AuthDb(accounts: map<nat, AccountRow>, tokens: map<nat, TokenRow>, resets: map<nat, ResetRow>,
                           closedOrgs: set<nat>)

  datatype Result<+T> = Ok(value: T) | Err

  // The identifier and expiry time a new token is given.
  datatype Ticket = Ticket(jti: nat, expires: nat)

  // ---------------------------------------------------------------- looking accounts up

  predicate HasEmail(a: AccountRow, email: string) {
    a.email.Some? && Lower(a.email.value) == Lower(email)
  }

  // A login identifier is an e-mail address or a phone number.
  predicate Answers(a: AccountRow, identifier: string) {
    HasEmail(a, Strip(identifier)) || a.phone == Some(Strip(identifier))
  }

  // The order of the lookup by login: active accounts first, then the earliest created.
  predicate ComesFirst(a: AccountRow, b: AccountRow) {
    if a.active != b.active then a.active else a.created <= b.created
  }

  // What the lookup finds: the first account that answers, any one of several created at once.
  predicate FoundByLogin(db: AuthDb, identifier: string, found: Option<nat>) {
    match found
    case None => forall u | u in db.accounts :: !Answers(db.accounts[u], identifier)
    case Some(v) =>
      && v in db.accounts && Answers(db.accounts[v], identifier)
      && forall u | u in db.accounts && Answers(db.accounts[u], identifier) ::
           ComesFirst(db.accounts[v], db.accounts[u])
  }

  // The lookup by e-mail finds the earliest created account with it, active or not.
  predicate FoundByEmail(db: AuthDb, email: string, found: Option<nat>) {
    match found
    case None => forall u | u in db.accounts :: !HasEmail(db.accounts[u], email)
    case Some(v) =>
      && v in db.accounts && HasEmail(db.accounts[v], email)
      && forall u | u in db.accounts && HasEmail(db.accounts[u], email) ::
           db.accounts[v].created <= db.accounts[u].created
  }

  predicate EmailExists(db: AuthDb, email: string) {
    exists u | u in db.accounts :: HasEmail(db.accounts[u], email)
  }

  predicate PhoneExists(db: AuthDb, phone: string) {
    exists u | u in db.accounts :: db.accounts[u].phone == Some(Strip(phone))
  }

  // A deactivated organization locks its members out.
  predicate LockedOut(db: AuthDb, user: nat)
    requires user in db.accounts
  {
    db.accounts[user].org.Some? && db.accounts[user].org.value in db.closedOrgs
  }

  // ---------------------------------------------------------------- operations

  function IssueToken(db: AuthDb, user: nat, ticket: Ticket): Result<AuthDb> {
    if ticket.jti in db.tokens then Err
    else Ok(db.(tokens := db.tokens[ticket.jti := TokenRow(user, ticket.expires, None)]))
  }

  function RevokeAll(tokens: map<nat, TokenRow>, user: nat, now: nat): map<nat, TokenRow> {
    map j | j in tokens ::
      if tokens[j].user == user && tokens[j].revokedAt.None? then tokens[j].(revokedAt := Some(now)) else tokens[j]
  }

  function SetPassword(db: AuthDb, user: nat, password: string): AuthDb
    requires user in db.accounts
  {
    db.(accounts := db.accounts[user := db.accounts[user].(password := HashPassword(password))])
  }

  // What somebody signs up with, and the organization that takes them in.
  datatype NewAccount = NewAccount(email: Option<string>, phone: Option<string>, org: nat, password: string)

  function EmailGiven(data: NewAccount): Option<string> {
    if data.email.None? then None else Clean(Some(Lower(data.email.value)))
  }

  // Signing up takes an e-mail address or a phone number that no account has.
  predicate CanRegister(db: AuthDb, user: nat, data: NewAccount) {
    && (EmailGiven(data).Some? || Clean(data.phone).Some?)
    && (EmailGiven(data).Some? ==> !EmailExists(db, EmailGiven(data).value))
    && (Clean(data.phone).Some? ==> !PhoneExists(db, Clean(data.phone).value))
    && user !in db.accounts
  }

  function NewAccountRow(data: NewAccount, now: nat): AccountRow {
    AccountRow(Some(data.org), EmailGiven(data), Clean(data.phone), HashPassword(data.password), true, now)
  }

  function Register(db: AuthDb, user: nat, data: NewAccount, ticket: Ticket, now: nat): Result<AuthDb> {
    if !CanRegister(db, user, data) then Err
    else IssueToken(db.(accounts := db.accounts[user := NewAccountRow(data, now)]), user, ticket)
  }

  // `found` is the account the login identifier resolves to, if any.
  function Login(db: AuthDb, found: Option<nat>, password: string, ticket: Ticket): Result<AuthDb> {
    if found.None? || found.value !in db.accounts then Err
    else if !Verify(password, db.accounts[found.value].password) then Err
    else if !db.accounts[found.value].active then Err
    else if LockedOut(db, found.value) then Err
    else IssueToken(db, found.value, ticket)
  }

  // Whether the presented token would be accepted. `jti` is what the token decodes to, if it does.
  predicate Refreshable(db: AuthDb, jti: Option<nat>, now: nat) {
    && jti.Some? && jti.value in db.tokens
    && db.tokens[jti.value].revokedAt.None? && db.tokens[jti.value].expires >= now
    && db.tokens[jti.value].user in db.accounts && db.accounts[db.tokens[jti.value].user].active
  }

  // Rotation: the presented token is revoked and a fresh one issued to its user.
  function Refresh(db: AuthDb, jti: Option<nat>, ticket: Ticket, now: nat): Result<AuthDb> {
    if !Refreshable(db, jti, now) then Err
    else
      var token := db.tokens[jti.value];
      IssueToken(db.(tokens := db.tokens[jti.value := token.(revokedAt := Some(now))]), token.user, ticket)
  }

  // Logging out never fails.
  function Logout(db: AuthDb, jti: Option<nat>, now: nat): Result<AuthDb> {
    if jti.Some? && jti.value in db.tokens && db.tokens[jti.value].revokedAt.None?
    then Ok(db.(tokens := db.tokens[jti.value := db.tokens[jti.value].(revokedAt := Some(now))]))
    else Ok(db)
  }

  // The response is the same whether or not an active account was found.
  function ForgotPassword(db: AuthDb, found: Option<nat>, ticket: Ticket): Result<AuthDb> {
    if found.None? || found.value !in db.accounts || !db.accounts[found.value].active then Ok(db)
    else if ticket.jti in db.resets then Err
    else Ok(db.(resets := db.resets[ticket.jti := ResetRow(found.value, ticket.expires, None)]))
  }

  function ResetPassword(db: AuthDb, jti: Option<nat>, password: string, now: nat): Result<AuthDb> {
    if jti.None? || jti.value !in db.resets then Err
    else
      var reset := db.resets[jti.value];
      if reset.usedAt.Some? || reset.expires < now || reset.user !in db.accounts then Err
      else
        Ok(SetPassword(db, reset.user, password).(
          resets := db.resets[jti.value := reset.(usedAt := Some(now))],
          tokens := RevokeAll(db.tokens, reset.user, now)))
  }

  function ChangePassword(db: AuthDb, user: nat, current: string, password: string, now: nat): Result<AuthDb> {
    if user !in db.accounts || !db.accounts[user].active || LockedOut(db, user) then Err
    else if !Verify(current, db.accounts[user].password) then Err
    else if current == password then Err
    else Ok(SetPassword(db, user, password).(tokens := RevokeAll(db.tokens, user, now)))
  }

  function EditedAccount(account: AccountRow, active: Option<bool>, password: Option<string>): AccountRow {
    account.(
      password := if password.Some? && password.value != "" then HashPassword(password.value) else account.password,
      active := if active.Some? then active.value else account.active)
  }

  // Staff administration may switch an account on or off and give it a new password; neither
  // touches its tokens.
  function StaffUpdate(db: AuthDb, user: nat, active: Option<bool>, password: Option<string>): Result<AuthDb> {
    if user !in db.accounts then Err
    else Ok(db.(accounts := db.accounts[user := EditedAccount(db.accounts[user], active, password)]))
  }

  datatype Request =
    | RegisterReq(newUser: nat, newAccount: NewAccount, ticket: Ticket)
    | LoginReq(identifier: string, found: Option<nat>, password: string, ticket: Ticket)
    | RefreshReq(jti: Option<nat>, ticket: Ticket)
    | LogoutReq(jti: Option<nat>)
    | ForgotReq(email: string, found: Option<nat>, ticket: Ticket)
    | ResetReq(jti: Option<nat>, password: string)
    | ChangeReq(user: nat, current: string, password: string)
    | StaffReq(user: nat, active: Option<bool>, staffPassword: Option<string>)

  function Serve(db: AuthDb, r: Request, now: nat): Result<AuthDb> {
    match r
    case RegisterReq(user, data, ticket) => Register(db, user, data, ticket, now)
    case LoginReq(_, found, password, ticket) => Login(db, found, password, ticket)
    case RefreshReq(jti, ticket) => Refresh(db, jti, ticket, now)
    case LogoutReq(jti) => Logout(db, jti, now)
    case ForgotReq(_, found, ticket) => ForgotPassword(db, found, ticket)
    case ResetReq(jti, password) => ResetPassword(db, jti, password, now)
    case ChangeReq(user, current, password) => ChangePassword(db, user, current, password, now)
    case StaffReq(user, active, password) => StaffUpdate(db, user, active, password)
  }

  function Handle(db: AuthDb, r: Request, now: nat): AuthDb {
    if Serve(db, r, now).Ok? then Serve(db, r, now).value else db
  }

  // ---------------------------------------------------------------- runs and their history

  // Which session each token belongs to, whose session it is, and which tokens were refreshed
  // and reset, in order. Kept beside the tables: the code does not store it.
  datatype History = History(chain: map<nat, nat>, owner: seq<nat>, refreshed: seq<nat>, reset: seq<nat>)

  // Registering and logging in start a session; refreshing continues that of the presented token.
  function Record(h: History, db: AuthDb, r: Request, now: nat): History {
    if Serve(db, r, now).Err? then h
    else
      match r
      case RegisterReq(user, _, ticket) => h.(chain := h.chain[ticket.jti := |h.owner|], owner := h.owner + [user])
      case LoginReq(_, found, _, ticket) =>
        h.(chain := h.chain[ticket.jti := |h.owner|], owner := h.owner + [found.value])
      case RefreshReq(jti, ticket) =>
        if jti.value in h.chain
        then h.(chain := h.chain[ticket.jti := h.chain[jti.value]], refreshed := h.refreshed + [jti.value])
        else h
      case ResetReq(jti, _) => h.(reset := h.reset + [jti.value])
      case _ => h
  }

  datatype State = State(db: AuthDb, history: History)

  datatype Call = Call(request: Request, now: nat)

  function Next(s: State, c: Call): State {
    State(Handle(s.db, c.request, c.now), Record(s.history, s.db, c.request, c.now))
  }

  function Run(s: State, calls: seq<Call>): State {
    if calls == [] then s else Next(Run(s, calls[..|calls| - 1]), calls[|calls| - 1])
  }
}
