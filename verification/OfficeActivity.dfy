/** The audit trail and members' activity: with the unaudited plain updates filled in, the
    entries replay to who is active now. */
module OfficeActivity {
  import opened Text
  import opened Office

  // What bears on one member's activity: an audit entry, or a plain update that gives it.
  datatype Switch = Logged(action: AuditAction) | Edited(on: bool)

  predicate BearsOnActivity(row: AuditRow, u: nat) {
    row.affected == u
    && (row.action == StatusActivated || row.action == StatusDeactivated || row.action == UserDeleted)
  }

  // The entries about the member among those added to the trail.
  function LoggedIn(entries: seq<AuditRow>, u: nat): seq<Switch> {
    if entries == [] then []
    else
      LoggedIn(entries[..|entries| - 1], u)
      + (if BearsOnActivity(entries[|entries| - 1], u) then [Logged(entries[|entries| - 1].action)] else [])
  }

  // The plain update of the member in this call, when it is served and gives an activity.
  ghost function EditIn(db: Db, c: Call, u: nat): seq<Switch> {
    match c
    case Call(actor, UpdateMemberReq(target, data)) =>
      if target == u && data.active.Some? && Allowed(db, actor, UpdateMemberReq(target, data))
         && IsMember(db, db.users[actor].org, target) && !UpdateClashes(db, target, data)
      then [Edited(data.active.value)] else []
    case _ => []
  }

  ghost function SwitchesIn(db: Db, c: Call, u: nat): seq<Switch>
    requires db.audit <= Perform(db, c).audit
  {
    EditIn(db, c, u) + LoggedIn(Perform(db, c).audit[|db.audit|..], u)
  }

  lemma AuditOnlyGrows(db: Db, c: Call)
    ensures db.audit <= Perform(db, c).audit && |Perform(db, c).audit| <= |db.audit| + 1
  {
  }

  ghost function Switches(db: Db, calls: seq<Call>, u: nat): seq<Switch> {
    if calls == [] then []
    else
      var t, c := Run(db, calls[..|calls| - 1]), calls[|calls| - 1];
      AuditOnlyGrows(t, c);
      Switches(db, calls[..|calls| - 1], u) + SwitchesIn(t, c, u)
  }

  // An entry of activation finds the member off, one of deactivation finds it on; a deletion
  // switches it off, and an update sets what it gives.
  function After(before: Option<bool>, s: Switch): Option<bool> {
    match s
    case Edited(on) => if before.Some? then Some(on) else None
    case Logged(action) =>
      if action == StatusActivated && before == Some(false) then Some(true)
      else if action == StatusDeactivated && before == Some(true) then Some(false)
      else if action == UserDeleted && before.Some? then Some(false)
      else None
  }

  function Replay(start: bool, switches: seq<Switch>): Option<bool> {
    if switches == [] then Some(start)
    else After(Replay(start, switches[..|switches| - 1]), switches[|switches| - 1])
  }

  lemma {:induction false} ReplayAppend(start: bool, a: seq<Switch>, b: seq<Switch>)
    requires Replay(start, a).Some?
    ensures Replay(start, a + b) == Replay(Replay(start, a).value, b)
  {
    if b == [] {
      assert a + b == a;
    } else {
      var n := |b| - 1;
      ReplayAppend(start, a, b[..n]);
      assert (a + b)[..|a + b| - 1] == a + b[..n];
    }
  }

  lemma ReplayOne(start: bool, s: Switch)
    ensures Replay(start, [s]) == After(Some(start), s)
  {
    assert [s][..0] == [];
  }

  lemma LoggedOne(row: AuditRow, u: nat)
    ensures LoggedIn([row], u) == if BearsOnActivity(row, u) then [Logged(row.action)] else []
  {
    assert [row][..0] == [];
  }

  // At most one entry is added, and only if there is no plain update; the member's activity
  // follows the entry or the update, and stays when neither bears on it.
  ghost predicate Follows(db: Db, b: Db, edit: seq<Switch>, u: nat)
    requires u in db.users && (edit == [] || (|edit| == 1 && edit[0].Edited?))
  {
    && u in b.users
    && (b.audit == db.audit ==> b.users[u].active == if edit == [] then db.users[u].active else edit[0].on)
    && (b.audit != db.audit ==>
          && edit == [] && |b.audit| == |db.audit| + 1 && b.audit[..|db.audit|] == db.audit
          && (if BearsOnActivity(b.audit[|db.audit|], u)
              then Some(b.users[u].active) == After(Some(db.users[u].active), Logged(b.audit[|db.audit|].action))
              else b.users[u].active == db.users[u].active))
  }

  lemma UpdateFollows(db: Db, actor: nat, target: nat, data: MemberUpdate, u: nat)
    requires u in db.users
    ensures Follows(db, Handle(db, actor, UpdateMemberReq(target, data)),
                    EditIn(db, Call(actor, UpdateMemberReq(target, data)), u), u)
  {
  }

  lemma SetActiveFollows(db: Db, actor: nat, target: nat, active: bool, u: nat)
    requires u in db.users
    ensures Follows(db, Handle(db, actor, SetActiveReq(target, active)), [], u)
  {
  }

  lemma SetRoleFollows(db: Db, actor: nat, target: nat, role: Role, u: nat)
    requires u in db.users
    ensures Follows(db, Handle(db, actor, SetRoleReq(target, role)), [], u)
  {
  }

  lemma DeleteFollows(db: Db, actor: nat, target: nat, u: nat)
    requires u in db.users
    ensures Follows(db, Handle(db, actor, DeleteMemberReq(target)), [], u)
  {
  }

  lemma OthersFollow(db: Db, actor: nat, r: Request, u: nat)
    requires u in db.users
    requires !r.UpdateMemberReq? && !r.SetActiveReq? && !r.SetRoleReq? && !r.DeleteMemberReq?
    ensures Follows(db, Handle(db, actor, r), [], u)
  {
  }

  lemma ActivityStep(db: Db, c: Call, u: nat)
    requires u in db.users
    ensures Follows(db, Perform(db, c), EditIn(db, c, u), u)
  {
    match c
    case SignUp(id, org, person) =>
    case Call(actor, r) =>
      match r
      case UpdateMemberReq(target, data) => UpdateFollows(db, actor, target, data, u);
      case SetActiveReq(target, active) => SetActiveFollows(db, actor, target, active, u);
      case SetRoleReq(target, role) => SetRoleFollows(db, actor, target, role, u);
      case DeleteMemberReq(target) => DeleteFollows(db, actor, target, u);
      case _ => OthersFollow(db, actor, r, u);
  }

  lemma EditInIs(db: Db, c: Call, u: nat)
    ensures EditIn(db, c, u) == [] || (|EditIn(db, c, u)| == 1 && EditIn(db, c, u)[0].Edited?)
  {
  }

  lemma SwitchesReplay(db: Db, c: Call, u: nat)
    requires u in db.users && db.audit <= Perform(db, c).audit
    ensures u in Perform(db, c).users
    ensures Replay(db.users[u].active, SwitchesIn(db, c, u)) == Some(Perform(db, c).users[u].active)
  {
    var b, edit := Perform(db, c), EditIn(db, c, u);
    ActivityStep(db, c, u);
    EditInIs(db, c, u);
    if b.audit == db.audit {
      assert b.audit[|db.audit|..] == [] && edit + [] == edit;
      if edit != [] {
        assert edit == [edit[0]];
        ReplayOne(db.users[u].active, edit[0]);
      }
    } else {
      var row := b.audit[|db.audit|];
      assert b.audit[|db.audit|..] == [row];
      LoggedOne(row, u);
      assert [] + LoggedIn([row], u) == LoggedIn([row], u);
      if BearsOnActivity(row, u) {
        ReplayOne(db.users[u].active, Logged(row.action));
      }
    }
  }

  // Over every run, refusals and sign-ups included, a member's activation, deactivation and
  // deletion entries, with the plain updates in their places, replay to its activity now.
  lemma {:induction false} ActivityReplays(db: Db, calls: seq<Call>, u: nat)
    requires u in db.users
    ensures u in Run(db, calls).users
    ensures Replay(db.users[u].active, Switches(db, calls, u)) == Some(Run(db, calls).users[u].active)
  {
    if calls != [] {
      var init, c := calls[..|calls| - 1], calls[|calls| - 1];
      ActivityReplays(db, init, u);
      var t := Run(db, init);
      AuditOnlyGrows(t, c);
      SwitchesReplay(t, c, u);
      ReplayAppend(db.users[u].active, Switches(db, init, u), SwitchesIn(t, c, u));
    }
  }
}
