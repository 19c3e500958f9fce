/** Session safety over whole runs: one live token per session, tokens that die once and for
    all, and what changing a password cuts off. */
module AuthProperties {
  import opened Text
  import opened Auth

  predicate Live(db: AuthDb, jti: nat) {
    jti in db.tokens && db.tokens[jti].revokedAt.None?
  }

  // ---------------------------------------------------------------- tokens only die

  // Tokens keep their user and expiry, are never removed, and a revocation is final; the
  // same holds of the use of reset tokens.
  ghost predicate TokensAge(a: AuthDb, b: AuthDb) {
    && (forall j | j in a.tokens ::
          && j in b.tokens && b.tokens[j].user == a.tokens[j].user && b.tokens[j].expires == a.tokens[j].expires
          && (a.tokens[j].revokedAt.Some? ==> b.tokens[j].revokedAt == a.tokens[j].revokedAt))
    && (forall j | j in a.resets ::
          && j in b.resets && b.resets[j].user == a.resets[j].user
          && (a.resets[j].usedAt.Some? ==> b.resets[j].usedAt == a.resets[j].usedAt))
  }

  lemma StepAges(db: AuthDb, r: Request, now: nat)
    ensures TokensAge(db, Handle(db, r, now))
  {
  }

  // Over any run a revocation time, once written, is never overwritten.
  lemma {:induction false} RevocationIsWriteOnce(s: State, calls: seq<Call>)
    ensures TokensAge(s.db, Run(s, calls).db)
  {
    if calls != [] {
      var n := |calls| - 1;
      RevocationIsWriteOnce(s, calls[..n]);
      StepAges(Run(s, calls[..n]).db, calls[n].request, calls[n].now);
    }
  }

  // ---------------------------------------------------------------- sessions

  ghost predicate ChainsOk(s: State) {
    && s.history.chain.Keys == s.db.tokens.Keys
    && (forall j | j in s.db.tokens ::
          s.history.chain[j] < |s.history.owner| && s.history.owner[s.history.chain[j]] == s.db.tokens[j].user)
  }

  ghost predicate OneLivePerChain(s: State) {
    forall j, k | j in s.history.chain && k in s.history.chain && Live(s.db, j) && Live(s.db, k)
                  && s.history.chain[j] == s.history.chain[k] :: j == k
  }

  ghost predicate RefreshedOk(s: State) {
    && (forall i | 0 <= i < |s.history.refreshed| ::
          s.history.refreshed[i] in s.db.tokens && !Live(s.db, s.history.refreshed[i]))
    && (forall i, k | 0 <= i < k < |s.history.refreshed| :: s.history.refreshed[i] != s.history.refreshed[k])
  }

  ghost predicate ResetsOk(s: State) {
    && (forall i | 0 <= i < |s.history.reset| ::
          s.history.reset[i] in s.db.resets && s.db.resets[s.history.reset[i]].usedAt.Some?)
    && (forall i, k | 0 <= i < k < |s.history.reset| :: s.history.reset[i] != s.history.reset[k])
  }

  ghost predicate DistinctAndDead(s: State) {
    RefreshedOk(s) && ResetsOk(s)
  }

  ghost predicate SessionsOk(s: State) {
    ChainsOk(s) && OneLivePerChain(s) && DistinctAndDead(s)
  }

  lemma StepKeepsKeys(s: State, c: Call)
    requires s.history.chain.Keys == s.db.tokens.Keys
    ensures Next(s, c).history.chain.Keys == Next(s, c).db.tokens.Keys
  {
  }

  lemma StepKeepsChains(s: State, c: Call)
    requires ChainsOk(s)
    ensures ChainsOk(Next(s, c))
  {
    StepKeepsKeys(s, c);
    StepAges(s.db, c.request, c.now);
  }

  // Old tokens keep their session and never revive; the one new token opens a session, or
  // takes over that of a live token which the same step revokes.
  lemma ChainStep(s: State, c: Call)
    requires ChainsOk(s)
    ensures var t := Next(s, c);
            && (forall j | j in s.history.chain ::
                  j in t.history.chain && t.history.chain[j] == s.history.chain[j] && (Live(t.db, j) ==> Live(s.db, j)))
            && (forall j | j in t.history.chain && j !in s.history.chain ::
                  || t.history.chain[j] == |s.history.owner|
                  || (exists k :: k in s.history.chain && Live(s.db, k) && !Live(t.db, k)
                                  && t.history.chain[j] == s.history.chain[k]))
            && (forall j, k | j in t.history.chain && k in t.history.chain
                              && j !in s.history.chain && k !in s.history.chain :: j == k)
  {
  }

  lemma StepKeepsOneLive(s: State, c: Call)
    requires ChainsOk(s) && OneLivePerChain(s)
    ensures OneLivePerChain(Next(s, c))
  {
    ChainStep(s, c);
  }

  lemma RefreshedStayDistinct(s: State, c: Call)
    requires ChainsOk(s) && RefreshedOk(s)
    ensures RefreshedOk(Next(s, c))
  {
    StepAges(s.db, c.request, c.now);
  }

  lemma ResetsStayDistinct(s: State, c: Call)
    requires ResetsOk(s)
    ensures ResetsOk(Next(s, c))
  {
    StepAges(s.db, c.request, c.now);
  }

  lemma StepKeepsDistinct(s: State, c: Call)
    requires ChainsOk(s) && DistinctAndDead(s)
    ensures DistinctAndDead(Next(s, c))
  {
    RefreshedStayDistinct(s, c);
    ResetsStayDistinct(s, c);
  }

  lemma StepKeepsSessions(s: State, c: Call)
    requires SessionsOk(s)
    ensures SessionsOk(Next(s, c))
  {
    StepKeepsChains(s, c);
    StepKeepsOneLive(s, c);
    StepKeepsDistinct(s, c);
  }

  // In every reachable state each session has at most one live token, no token was refreshed
  // twice and no reset token used twice.
  lemma {:induction false} RunKeepsSessions(s: State, calls: seq<Call>)
    requires SessionsOk(s)
    ensures SessionsOk(Run(s, calls))
  {
    if calls != [] {
      RunKeepsSessions(s, calls[..|calls| - 1]);
      StepKeepsSessions(Run(s, calls[..|calls| - 1]), calls[|calls| - 1]);
    }
  }

  ghost function LiveTokens(db: AuthDb, user: nat): set<nat> {
    set j | j in db.tokens && db.tokens[j].user == user && db.tokens[j].revokedAt.None?
  }

  // The sessions the user ever opened: one per successful login and one for registering.
  function SessionsOf(h: History, user: nat): set<nat> {
    set c | 0 <= c < |h.owner| && h.owner[c] == user
  }

  lemma {:induction false} InjectionBounds(live: set<nat>, chain: map<nat, nat>, sessions: set<nat>)
    requires forall j | j in live :: j in chain && chain[j] in sessions
    requires forall j, k | j in live && k in live && chain[j] == chain[k] :: j == k
    ensures |live| <= |sessions|
    decreases live
  {
    if live != {} {
      var j :| j in live;
      InjectionBounds(live - {j}, chain, sessions - {chain[j]});
    }
  }

  // A user never has more live tokens than sessions opened.
  lemma LiveTokensAtMostSessions(s: State, calls: seq<Call>, user: nat)
    requires SessionsOk(s)
    ensures |LiveTokens(Run(s, calls).db, user)| <= |SessionsOf(Run(s, calls).history, user)|
  {
    RunKeepsSessions(s, calls);
    var t := Run(s, calls);
    InjectionBounds(LiveTokens(t.db, user), t.history.chain, SessionsOf(t.history, user));
  }

  // ---------------------------------------------------------------- refreshing once

  // A token that was refreshed is rejected by every later refresh, whatever happens between.
  lemma RefreshSucceedsOnce(s: State, jti: nat, ticket: Ticket, now: nat, calls: seq<Call>, other: Ticket, later: nat)
    requires Refresh(s.db, Some(jti), ticket, now).Ok?
    ensures Refresh(Run(Next(s, Call(RefreshReq(Some(jti), ticket), now)), calls).db, Some(jti), other, later).Err?
  {
    RevocationIsWriteOnce(Next(s, Call(RefreshReq(Some(jti), ticket), now)), calls);
  }

  // A reset token that was used is rejected ever after.
  lemma ResetSucceedsOnce(s: State, jti: nat, password: string, now: nat, calls: seq<Call>,
                          password': string, later: nat)
    requires ResetPassword(s.db, Some(jti), password, now).Ok?
    ensures ResetPassword(Run(Next(s, Call(ResetReq(Some(jti), password), now)), calls).db,
                          Some(jti), password', later).Err?
  {
    RevocationIsWriteOnce(Next(s, Call(ResetReq(Some(jti), password), now)), calls);
  }

  // ---------------------------------------------------------------- changing a password

  // The account a request gives a new password, if it does.
  function PasswordTarget(db: AuthDb, r: Request): Option<nat> {
    match r
    case ChangeReq(user, _, _) => Some(user)
    case ResetReq(jti, _) =>
      if jti.Some? && jti.value in db.resets then Some(db.resets[jti.value].user) else None
    case StaffReq(user, _, password) => if password.Some? && password.value != "" then Some(user) else None
    case _ => None
  }

  // Changing or resetting a password rejects, in all later states, every refresh token the
  // user had; other users' tokens are exactly as before.
  lemma PasswordChangeCutsSessions(s: State, r: Request, now: nat, calls: seq<Call>,
                                   jti: nat, ticket: Ticket, later: nat)
    requires (r.ChangeReq? || r.ResetReq?) && Serve(s.db, r, now).Ok?
    requires jti in s.db.tokens
    ensures var user := PasswordTarget(s.db, r).value;
            if s.db.tokens[jti].user == user
            then Refresh(Run(Next(s, Call(r, now)), calls).db, Some(jti), ticket, later).Err?
            else jti in Next(s, Call(r, now)).db.tokens && Next(s, Call(r, now)).db.tokens[jti] == s.db.tokens[jti]
  {
    RevocationIsWriteOnce(Next(s, Call(r, now)), calls);
  }

  // ---------------------------------------------------------------- which sessions survive

  // The request revokes the token: it refreshes it, logs it out, or changes or resets its
  // user's password.
  predicate Cuts(db: AuthDb, r: Request, now: nat, j: nat) {
    j in db.tokens &&
    match r
    case RefreshReq(jti, ticket) => jti == Some(j) && Refreshable(db, jti, now) && ticket.jti !in db.tokens
    case LogoutReq(jti) => jti == Some(j)
    case ResetReq(jti, _) =>
      && jti.Some? && jti.value in db.resets && db.resets[jti.value].user == db.tokens[j].user
      && db.resets[jti.value].usedAt.None? && db.resets[jti.value].expires >= now && db.tokens[j].user in db.accounts
    case ChangeReq(user, current, password) =>
      && user == db.tokens[j].user && user in db.accounts && db.accounts[user].active && !LockedOut(db, user)
      && Verify(current, db.accounts[user].password) && current != password
    case _ => false
  }

  lemma LiveStepIff(db: AuthDb, r: Request, now: nat, j: nat)
    requires j in db.tokens
    ensures j in Handle(db, r, now).tokens
    ensures Live(Handle(db, r, now), j) <==> Live(db, j) && !Cuts(db, r, now, j)
  {
  }

  ghost predicate NeverCut(s: State, calls: seq<Call>, j: nat) {
    forall k | 0 <= k < |calls| :: !Cuts(Run(s, calls[..k]).db, calls[k].request, calls[k].now, j)
  }

  // A token is live after a run exactly when it was before and no request of the run cut it.
  lemma {:induction false} LiveAfterRunIff(s: State, calls: seq<Call>, j: nat)
    requires j in s.db.tokens
    ensures j in Run(s, calls).db.tokens && (Live(Run(s, calls).db, j) <==> Live(s.db, j) && NeverCut(s, calls, j))
  {
    if calls != [] {
      var n := |calls| - 1;
      LiveAfterRunIff(s, calls[..n], j);
      LiveStepIff(Run(s, calls[..n]).db, calls[n].request, calls[n].now, j);
      NeverCutSnoc(s, calls, j);
    }
  }

  lemma NeverCutSnoc(s: State, calls: seq<Call>, j: nat)
    requires calls != []
    ensures var n := |calls| - 1;
            NeverCut(s, calls, j) <==>
            NeverCut(s, calls[..n], j) && !Cuts(Run(s, calls[..n]).db, calls[n].request, calls[n].now, j)
  {
    var n := |calls| - 1;
    assert forall k | 0 <= k < n :: calls[..n][..k] == calls[..k] && calls[..n][k] == calls[k];
  }

  // Whether an account is on after a run: as the last staff update that says so left it.
  function SwitchedOn(active: bool, calls: seq<Call>, user: nat): bool {
    if calls == [] then active
    else
      match calls[|calls| - 1].request
      case StaffReq(u, Some(on), _) => if u == user then on else SwitchedOn(active, calls[..|calls| - 1], user)
      case _ => SwitchedOn(active, calls[..|calls| - 1], user)
  }

  lemma {:induction false} ActiveAfterRun(s: State, calls: seq<Call>, user: nat)
    requires user in s.db.accounts
    ensures user in Run(s, calls).db.accounts
    ensures Run(s, calls).db.accounts[user].active == SwitchedOn(s.db.accounts[user].active, calls, user)
  {
    if calls != [] {
      ActiveAfterRun(s, calls[..|calls| - 1], user);
    }
  }

  // What is left of a user's token once their password has been set: it is accepted at some
  // later time exactly when it was a staff update that set it, the token was live, has not
  // expired, was not cut since, and the account is on.
  lemma SessionsSurviveIff(s: State, r: Request, now: nat, calls: seq<Call>, j: nat, later: nat)
    requires PasswordTarget(s.db, r).Some? && Serve(s.db, r, now).Ok?
    requires j in s.db.tokens && s.db.tokens[j].user == PasswordTarget(s.db, r).value
    ensures var user, next := PasswordTarget(s.db, r).value, Next(s, Call(r, now));
            && user in next.db.accounts
            && (Refreshable(Run(next, calls).db, Some(j), later) <==>
                  && r.StaffReq? && Live(s.db, j) && later <= s.db.tokens[j].expires
                  && NeverCut(next, calls, j) && SwitchedOn(next.db.accounts[user].active, calls, user))
  {
    var user, next := PasswordTarget(s.db, r).value, Next(s, Call(r, now));
    StepAges(s.db, r, now);
    RevocationIsWriteOnce(next, calls);
    ActiveAfterRun(next, calls, user);
    LiveAfterRunIff(next, calls, j);
    PasswordSetLeavesLiveIff(s.db, r, now, j);
  }

  lemma PasswordSetLeavesLiveIff(db: AuthDb, r: Request, now: nat, j: nat)
    requires PasswordTarget(db, r).Some? && Serve(db, r, now).Ok?
    requires j in db.tokens && db.tokens[j].user == PasswordTarget(db, r).value
    ensures Live(Handle(db, r, now), j) <==> r.StaffReq? && Live(db, j)
  {
  }

  // A session that outlives the new password staff administration set.
  lemma StaffPasswordLeavesSession() returns (s: State, r: Request)
    ensures r.StaffReq? && PasswordTarget(s.db, r) == Some(0) && Serve(s.db, r, 10).Ok?
    ensures 7 in s.db.tokens && s.db.tokens[7].user == 0
    ensures Refreshable(Next(s, Call(r, 10)).db, Some(7), 20)
  {
    var account := AccountRow(Some(0), None, Some("98765"), HashPassword("old password"), true, 1);
    s := State(AuthDb(map[0 := account], map[7 := TokenRow(0, 100, None)], map[], {}),
               History(map[7 := 0], [0], [], []));
    r := StaffReq(0, None, Some("new password"));
    LiveStepIff(s.db, r, 10, 7);
  }

  // After a change the old password still logs in exactly when it agrees with the new one on
  // the first 72 bytes: the check that they differ looks further than the hash does.
  lemma OldPasswordStillWorksIff(db: AuthDb, user: nat, current: string, password: string, now: nat, ticket: Ticket)
    requires ChangePassword(db, user, current, password, now).Ok? && ticket.jti !in db.tokens
    ensures Login(ChangePassword(db, user, current, password, now).value, Some(user), current, ticket).Ok?
            <==> Significant(current) == Significant(password)
    ensures Login(ChangePassword(db, user, current, password, now).value, Some(user), password, ticket).Ok?
  {
  }

  // Two passwords of 73 characters that differ only in the last: both log in after the change.
  lemma OldPasswordStillWorks() returns (db: AuthDb, current: string, password: string)
    ensures ChangePassword(db, 0, current, password, 10).Ok? && current != password && |current| == |password| == 73
    ensures Login(ChangePassword(db, 0, current, password, 10).value, Some(0), current, Ticket(1, 100)).Ok?
  {
    var common := seq(72, _ => 'a');
    current, password := common + "b", common + "c";
    assert current[72] != password[72];
    assert current[..72] == common && password[..72] == common;
    db := AuthDb(map[0 := AccountRow(Some(0), None, Some("98765"), HashPassword(current), true, 1)], map[], map[], {});
    OldPasswordStillWorksIff(db, 0, current, password, 10, Ticket(1, 100));
  }
}
