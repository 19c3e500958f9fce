/** Whether a number is ever given out twice. Without deletions it never is, and a day's numbers
    are 1 to n however their creators race. With deletions the next number read repeats one
    exactly when the newest is gone, and an insert exactly when it stores another number than
    the one past the newest. */
module AllocationReuse {
  import opened Text
  import opened Numbering
  import opened Allocation

  // Only work orders can be deleted.
  predicate NothingDeleted(kind: Kind, steps: seq<Step>) {
    kind.WorkOrderNumber? ==> NoDeletes(steps)
  }

  lemma {:induction false} RowsFollowLog(s: System, steps: seq<Step>)
    requires Initial(s) && NothingDeleted(s.kind, steps)
    ensures Run(s, steps).rows == s.rows + Run(s, steps).log && Run(s, steps).kind == s.kind
  {
    if steps != [] {
      RowsFollowLog(s, steps[..|steps| - 1]);
      assert s.kind.WorkOrderNumber? ==> !steps[|steps| - 1].Delete?;
    }
  }

  lemma UniqueTail(rows: seq<Row>, more: seq<Row>)
    requires UniqueRows(rows + more)
    ensures UniqueRows(more)
  {
    forall i, j | 0 <= i < j < |more|
      ensures more[i].scope != more[j].scope || more[i].number != more[j].number
    {
      assert (rows + more)[|rows| + i] == more[i] && (rows + more)[|rows| + j] == more[j];
    }
  }

  // Without deletions the table is the log: every committed number is still stored, so no
  // number of a scope is ever given out twice.
  lemma NoNumberTwiceWithoutDeletes(s: System, steps: seq<Step>)
    requires Initial(s) && NothingDeleted(s.kind, steps)
    ensures Run(s, steps).rows == s.rows + Run(s, steps).log
    ensures UniqueRows(Run(s, steps).log)
  {
    RowsFollowLog(s, steps);
    RunKeepsInv(s, steps);
    UniqueTail(s.rows, Run(s, steps).log);
  }

  // Deleting the newest work order of a day gives its number to the next one.
  lemma DeletedNumberComesBack(prefix: string) returns (s: System, steps: seq<Step>)
    requires ProperPrefix(WorkOrderNumber, prefix)
    ensures Initial(s) && !UniqueRows(Run(s, steps).log)
  {
    s := System(WorkOrderNumber, [Creator(0, Ready, 0), Creator(0, Ready, 0)], [], []);
    var first, second := [Read(0, prefix), Insert(0)], [Read(1, prefix), Insert(1)];
    steps := first + [Delete(0)] + second;
    assert NumbersIn([], 0) == {};
    RunKeepsInv(s, []);
    UndisturbedCreation(s, 0, prefix);
    var t := Run(s, first);
    RunSnoc(s, first, Delete(0));
    var u := Run(s, first + [Delete(0)]);
    assert u.rows == [];
    RunKeepsInv(s, first + [Delete(0)]);
    UndisturbedCreation(u, 1, prefix);
    RunAppend(s, first + [Delete(0)], second);
    var log := Run(s, steps).log;
    assert log[0].number == log[1].number && log[0].scope == log[1].scope;
  }

  // ---------------------------------------------------------------- when a number comes back

  // Every number of the scope ever stored: those there at the start and those committed since.
  function Issued(start: System, now: System, scope: nat): set<string> {
    NumbersIn(start.rows, scope) + NumbersIn(now.log, scope)
  }

  // Days are written alike, so the prefixes read are all as long as this one.
  predicate PrefixesAlike(steps: seq<Step>, prefix: string) {
    forall i | 0 <= i < |steps| && steps[i].Read? :: |steps[i].prefix| == |prefix|
  }

  // A number somebody of the scope holds under the prefix is at most one past the newest issued.
  ghost predicate HeldInSequence(s: System, scope: nat, prefix: string, n: nat) {
    forall i | 0 <= i < |s.creators| && s.creators[i].scope == scope && s.creators[i].phase.Holding?
               && prefix <= s.creators[i].phase.number ::
      exists k | 1 <= k <= n + 1 :: s.creators[i].phase.number == Format(s.kind, prefix, k)
  }

  // What was ever issued under the prefix is 1 to n; what is stored is among it.
  ghost predicate InSequence(s: System, ever: set<string>, scope: nat, prefix: string, n: nat) {
    && GapFree(s.kind, prefix, ever, n) && NumbersIn(s.rows, scope) <= ever
    && HeldInSequence(s, scope, prefix, n)
  }

  lemma ReadInSequence(s: System, ever: set<string>, scope: nat, prefix: string, n: nat, who: nat, read: string)
    requires InSequence(s, ever, scope, prefix, n) && ProperPrefix(s.kind, prefix) && |read| == |prefix|
    ensures InSequence(After(s, Read(who, read)), ever, scope, prefix, n)
  {
    var t := After(s, Read(who, read));
    forall i | 0 <= i < |t.creators| && t.creators[i].scope == scope && t.creators[i].phase.Holding?
               && prefix <= t.creators[i].phase.number
      ensures exists k | 1 <= k <= n + 1 :: t.creators[i].phase.number == Format(s.kind, prefix, k)
    {
      if t.creators[i] != s.creators[i] {
        var now := NumbersIn(s.rows, scope);
        PrefixesApart(prefix, read, Pad(Print(MaxSeq(s.kind, UnderPrefix(read, now)) + 1), Width(s.kind)));
        var k := NextAfterSome(s.kind, prefix, now, ever, n);
      }
    }
  }

  lemma CommitInSequence(s: System, ever: set<string>, scope: nat, prefix: string, n: nat, who: nat) returns (n': nat)
    requires InSequence(s, ever, scope, prefix, n) && ProperPrefix(s.kind, prefix)
    requires who < |s.creators| && s.creators[who].phase.Holding?
    ensures var number := s.creators[who].phase.number;
            InSequence(Commit(s, who, number), ever + (if s.creators[who].scope == scope then {number} else {}), scope,
                prefix, n')
  {
    var number := s.creators[who].phase.number;
    StoredAfterCommit(s.rows, Row(who, s.creators[who].scope, number), scope);
    n' := n;
    if s.creators[who].scope == scope && prefix <= number {
      var k :| 1 <= k <= n + 1 && number == Format(s.kind, prefix, k);
      InFirstN(s.kind, prefix, n, k);
      if k <= n {
        assert number in UnderPrefix(prefix, ever);
        assert ever + {number} == ever;
      } else {
        GapFreeStep(s.kind, prefix, ever, n, number);
        n' := n + 1;
      }
    } else if s.creators[who].scope == scope {
      UnderPrefixGrows(prefix, ever, number);
    }
    HeldAfterCommit(s, scope, prefix, n, n', who, number);
  }

  lemma HeldAfterCommit(s: System, scope: nat, prefix: string, n: nat, n': nat, who: nat, number: string)
    requires HeldInSequence(s, scope, prefix, n) && n <= n' && who < |s.creators|
    ensures HeldInSequence(Commit(s, who, number), scope, prefix, n')
  {
    var t := Commit(s, who, number);
    forall i | 0 <= i < |t.creators| && t.creators[i].scope == scope && t.creators[i].phase.Holding?
               && prefix <= t.creators[i].phase.number
      ensures exists k | 1 <= k <= n' + 1 :: t.creators[i].phase.number == Format(t.kind, prefix, k)
    {
      assert t.creators[i] == s.creators[i];
      var k :| 1 <= k <= n + 1 && s.creators[i].phase.number == Format(s.kind, prefix, k);
    }
  }

  lemma DeleteInSequence(s: System, ever: set<string>, scope: nat, prefix: string, n: nat, row: nat)
    requires InSequence(s, ever, scope, prefix, n)
    ensures InSequence(After(s, Delete(row)), ever, scope, prefix, n)
  {
    var t := After(s, Delete(row));
    if t != s {
      forall r | 0 <= r < |t.rows| && t.rows[r].scope == scope
        ensures t.rows[r].number in NumbersIn(s.rows, scope)
      {
        assert t.rows[r] == if r < row then s.rows[r] else s.rows[r + 1];
      }
    }
    assert HeldInSequence(t, scope, prefix, n);
  }

  lemma FailureInSequence(s: System, ever: set<string>, scope: nat, prefix: string, n: nat, who: nat)
    requires InSequence(s, ever, scope, prefix, n) && who < |s.creators| && s.creators[who].phase.Holding?
    requires Taken(s.rows, s.creators[who].scope, s.creators[who].phase.number)
    ensures InSequence(After(s, Insert(who)), ever, scope, prefix, n)
  {
    var t := After(s, Insert(who));
    forall i | 0 <= i < |t.creators| && t.creators[i].phase.Holding?
      ensures t.creators[i] == s.creators[i]
    {
    }
  }

  lemma StepInSequence(start: System, s: System, step: Step, scope: nat, prefix: string, n: nat) returns (n': nat)
    requires InSequence(s, Issued(start, s, scope), scope, prefix, n) && ProperPrefix(s.kind, prefix)
    requires (step.Read? ==> |step.prefix| == |prefix|) && (s.kind.InvoiceNumber? ==> !step.InsertExplicit?)
    ensures InSequence(After(s, step), Issued(start, After(s, step), scope), scope, prefix, n')
  {
    var t := After(s, step);
    n' := n;
    match step
    case Read(who, read) => ReadInSequence(s, Issued(start, s, scope), scope, prefix, n, who, read);
    case Delete(row) => DeleteInSequence(s, Issued(start, s, scope), scope, prefix, n, row);
    case InsertExplicit(who, number) =>
    case Insert(who) =>
      if who < |s.creators| && s.creators[who].phase.Holding? {
        if Taken(s.rows, s.creators[who].scope, s.creators[who].phase.number) {
          FailureInSequence(s, Issued(start, s, scope), scope, prefix, n, who);
        } else {
          n' := CommitInSequence(s, Issued(start, s, scope), scope, prefix, n, who);
          IssuedAfterCommit(start, s, scope, who);
        }
      }
  }

  lemma IssuedAfterCommit(start: System, s: System, scope: nat, who: nat)
    requires who < |s.creators| && s.creators[who].phase.Holding?
    ensures var number := s.creators[who].phase.number;
            Issued(start, Commit(s, who, number), scope)
            == Issued(start, s, scope) + (if s.creators[who].scope == scope then {number} else {})
  {
    StoredAfterCommit(s.log, Row(who, s.creators[who].scope, s.creators[who].phase.number), scope);
  }

  // All numbers are drawn by the generator; only invoices can be given one explicitly.
  predicate AllDrawn(kind: Kind, steps: seq<Step>) {
    kind.InvoiceNumber? ==> forall i | 0 <= i < |steps| :: !steps[i].InsertExplicit?
  }

  // However creators race and whatever is deleted meanwhile, the numbers ever issued for a day
  // are 1 to n.
  lemma {:induction false} IssuedIsGapFree(s: System, steps: seq<Step>, scope: nat, prefix: string, n0: nat)
      returns (n: nat)
    requires Initial(s) && AllDrawn(s.kind, steps) && ProperPrefix(s.kind, prefix) && PrefixesAlike(steps, prefix)
    requires GapFree(s.kind, prefix, NumbersIn(s.rows, scope), n0)
    ensures Run(s, steps).kind == s.kind
    ensures InSequence(Run(s, steps), Issued(s, Run(s, steps), scope), scope, prefix, n)
  {
    if steps == [] {
      n := n0;
      assert Issued(s, s, scope) == NumbersIn(s.rows, scope);
    } else {
      var init := steps[..|steps| - 1];
      n := IssuedIsGapFree(s, init, scope, prefix, n0);
      n := StepInSequence(s, Run(s, init), steps[|steps| - 1], scope, prefix, n);
    }
  }

  // So the invoices of a date, drawn automatically by any number of racing creators, carry
  // exactly the numbers 1 to n.
  lemma StoredIsGapFree(s: System, steps: seq<Step>, scope: nat, prefix: string, n0: nat) returns (n: nat)
    requires Initial(s) && AllDrawn(s.kind, steps) && ProperPrefix(s.kind, prefix) && PrefixesAlike(steps, prefix)
    requires GapFree(s.kind, prefix, NumbersIn(s.rows, scope), n0) && NothingDeleted(s.kind, steps)
    ensures GapFree(s.kind, prefix, NumbersIn(Run(s, steps).rows, scope), n)
  {
    n := IssuedIsGapFree(s, steps, scope, prefix, n0);
    RowsFollowLog(s, steps);
    NumbersOfBoth(s.rows, Run(s, steps).log, scope);
  }

  lemma NumbersOfBoth(rows: seq<Row>, more: seq<Row>, scope: nat)
    ensures NumbersIn(rows + more, scope) == NumbersIn(rows, scope) + NumbersIn(more, scope)
  {
    var all := rows + more;
    assert forall r | 0 <= r < |rows| :: all[r] == rows[r];
    assert forall r | 0 <= r < |more| :: all[|rows| + r] == more[r];
    forall x | x in NumbersIn(all, scope)
      ensures x in NumbersIn(rows, scope) + NumbersIn(more, scope)
    {
      var r :| 0 <= r < |all| && all[r].scope == scope && all[r].number == x;
      assert all[r] == if r < |rows| then rows[r] else more[r - |rows|];
    }
  }

  // In every reachable state the number drawn next was issued before exactly when the newest
  // number ever issued for the day is no longer stored: when its order was deleted.
  lemma NumberComesBackIff(s: System, steps: seq<Step>, scope: nat, prefix: string, n0: nat) returns (n: nat)
    requires Initial(s) && AllDrawn(s.kind, steps) && ProperPrefix(s.kind, prefix) && PrefixesAlike(steps, prefix)
    requires GapFree(s.kind, prefix, NumbersIn(s.rows, scope), n0)
    ensures var t := Run(s, steps);
            && GapFree(s.kind, prefix, Issued(s, t, scope), n)
            && (Next(s.kind, prefix, NumbersIn(t.rows, scope)) in Issued(s, t, scope)
                <==> n > 0 && Format(s.kind, prefix, n) !in NumbersIn(t.rows, scope))
  {
    n := IssuedIsGapFree(s, steps, scope, prefix, n0);
    var t := Run(s, steps);
    NextComesBackIff(s.kind, prefix, NumbersIn(t.rows, scope), Issued(s, t, scope), n);
  }

  // So a work order created undisturbed repeats a number exactly then.
  lemma CreationRepeatsIff(s: System, steps: seq<Step>, who: nat, prefix: string, n0: nat) returns (n: nat)
    requires Initial(s) && AllDrawn(s.kind, steps) && ProperPrefix(s.kind, prefix) && PrefixesAlike(steps, prefix)
    requires who < |Run(s, steps).creators| && Run(s, steps).creators[who].phase.Ready?
    requires GapFree(s.kind, prefix, NumbersIn(s.rows, Run(s, steps).creators[who].scope), n0)
    ensures var t, u := Run(s, steps), Run(s, steps + [Read(who, prefix), Insert(who)]);
            var scope := t.creators[who].scope;
            && GapFree(s.kind, prefix, Issued(s, t, scope), n)
            && |u.log| == |t.log| + 1 && u.log[|t.log|].who == who
            && (u.log[|t.log|].number in Issued(s, t, scope)
                <==> n > 0 && Format(s.kind, prefix, n) !in NumbersIn(t.rows, scope))
  {
    var t := Run(s, steps);
    RunKeepsInv(s, steps);
    n := NumberComesBackIff(s, steps, t.creators[who].scope, prefix, n0);
    RunAppend(s, steps, [Read(who, prefix), Insert(who)]);
    KindStays(s, steps);
    UndisturbedCreation(t, who, prefix);
  }

  lemma {:induction false} KindStays(s: System, steps: seq<Step>)
    ensures Run(s, steps).kind == s.kind
  {
    if steps != [] {
      KindStays(s, steps[..|steps| - 1]);
    }
  }

  // And any insert, whatever happened since its read, commits a number issued before exactly
  // when the number is free and is not the one past the newest ever issued.
  lemma InsertRepeatsIff(s: System, steps: seq<Step>, who: nat, prefix: string, n0: nat) returns (n: nat)
    requires Initial(s) && AllDrawn(s.kind, steps) && ProperPrefix(s.kind, prefix) && PrefixesAlike(steps, prefix)
    requires who < |Run(s, steps).creators| && Run(s, steps).creators[who].phase.Holding?
    requires prefix <= Run(s, steps).creators[who].phase.number
    requires GapFree(s.kind, prefix, NumbersIn(s.rows, Run(s, steps).creators[who].scope), n0)
    ensures var t := Run(s, steps);
            var scope, number := t.creators[who].scope, t.creators[who].phase.number;
            && GapFree(s.kind, prefix, Issued(s, t, scope), n)
            && (After(t, Insert(who)).log != t.log && number in Issued(s, t, scope)
                <==> !Taken(t.rows, scope, number) && number != Format(s.kind, prefix, n + 1))
  {
    var t := Run(s, steps);
    var scope, number := t.creators[who].scope, t.creators[who].phase.number;
    n := IssuedIsGapFree(s, steps, scope, prefix, n0);
    var k :| 1 <= k <= n + 1 && number == Format(s.kind, prefix, k);
    InFirstN(s.kind, prefix, n, k);
    assert number in UnderPrefix(prefix, Issued(s, t, scope)) <==> number in Issued(s, t, scope);
    if number == Format(s.kind, prefix, n + 1) {
      FormatInjective(s.kind, prefix, k, n + 1);
    }
  }

  // ---------------------------------------------------------------- a late insert

  // Three creators of an empty table: the first reads, the other two take 01 and 02, and 01 is
  // deleted before the first inserts.
  function LateSteps(prefix: string): seq<Step> {
    [Read(0, prefix), Read(1, prefix), Insert(1), Read(2, prefix), Insert(2), Delete(0)]
  }

  function FirstNumber(prefix: string): string {
    Format(WorkOrderNumber, prefix, 1)
  }

  function SecondNumber(prefix: string): string {
    Format(WorkOrderNumber, prefix, 2)
  }

  // The state they lead to, the two numbers being `a` and `b`.
  function LateState(a: string, b: string): System {
    System(WorkOrderNumber,
           [Creator(0, Holding(a, 0), 0), Creator(0, Done(a), 0), Creator(0, Done(b), 0)],
           [Row(2, 0, b)], [Row(1, 0, a), Row(2, 0, b)])
  }

  lemma TwoNumbers(prefix: string)
    requires ProperPrefix(WorkOrderNumber, prefix)
    ensures FirstNumber(prefix) != SecondNumber(prefix)
    ensures Next(WorkOrderNumber, prefix, {}) == FirstNumber(prefix)
    ensures Next(WorkOrderNumber, prefix, {FirstNumber(prefix)}) == SecondNumber(prefix)
  {
    if FirstNumber(prefix) == SecondNumber(prefix) {
      FormatInjective(WorkOrderNumber, prefix, 1, 2);
    }
    var none: set<string> := {};
    assert FirstN(WorkOrderNumber, prefix, 0) == none == UnderPrefix(prefix, none);
    NextWhenGapFree(WorkOrderNumber, prefix, none, 0);
    GapFreeStep(WorkOrderNumber, prefix, none, 0, FirstNumber(prefix));
    assert none + {FirstNumber(prefix)} == {FirstNumber(prefix)};
    NextWhenGapFree(WorkOrderNumber, prefix, {FirstNumber(prefix)}, 1);
  }

  lemma NumbersOfOne(row: Row)
    ensures NumbersIn([], row.scope) == {} && NumbersIn([row], row.scope) == {row.number}
  {
    assert [row][0] == row;
  }

  function ThreeReady(): System {
    System(WorkOrderNumber, [Creator(0, Ready, 0), Creator(0, Ready, 0), Creator(0, Ready, 0)], [], [])
  }

  function OneStored(prefix: string): System {
    System(WorkOrderNumber,
           [Creator(0, Holding(FirstNumber(prefix), 0), 0), Creator(0, Done(FirstNumber(prefix)), 0),
               Creator(0, Ready, 0)],
           [Row(1, 0, FirstNumber(prefix))], [Row(1, 0, FirstNumber(prefix))])
  }

  lemma FirstStored(prefix: string)
    requires ProperPrefix(WorkOrderNumber, prefix)
    ensures After(After(After(ThreeReady(), Read(0, prefix)), Read(1, prefix)), Insert(1)) == OneStored(prefix)
  {
    TwoNumbers(prefix);
    NumbersOfOne(Row(1, 0, FirstNumber(prefix)));
    assert [] + [Row(1, 0, FirstNumber(prefix))] == [Row(1, 0, FirstNumber(prefix))];
  }

  lemma SecondStored(prefix: string)
    requires ProperPrefix(WorkOrderNumber, prefix)
    ensures After(After(After(OneStored(prefix), Read(2, prefix)), Insert(2)), Delete(0))
         == LateState(FirstNumber(prefix), SecondNumber(prefix))
  {
    var first, second := Row(1, 0, FirstNumber(prefix)), Row(2, 0, SecondNumber(prefix));
    TwoNumbers(prefix);
    NumbersOfOne(first);
    assert [first] + [second] == [first, second];
    assert [first, second][..0] + [first, second][1..] == [second];
  }

  lemma LateRun(prefix: string)
    requires ProperPrefix(WorkOrderNumber, prefix)
    ensures Run(ThreeReady(), LateSteps(prefix)) == LateState(FirstNumber(prefix), SecondNumber(prefix))
  {
    var steps := LateSteps(prefix);
    RunAppend(ThreeReady(), steps[..3], steps[3..]);
    assert steps[..3] + steps[3..] == steps;
    RunThree(ThreeReady(), steps[0], steps[1], steps[2]);
    RunThree(OneStored(prefix), steps[3], steps[4], steps[5]);
    assert steps[..3] == [steps[0], steps[1], steps[2]] && steps[3..] == [steps[3], steps[4], steps[5]];
    FirstStored(prefix);
    SecondStored(prefix);
  }

  lemma RunThree(s: System, a: Step, b: Step, c: Step)
    ensures Run(s, [a, b, c]) == After(After(After(s, a), b), c)
  {
    RunTwo(s, a, b);
    RunSnoc(s, [a, b], c);
    assert [a, b] + [c] == [a, b, c];
  }

  lemma LateInsert(a: string, b: string)
    requires a != b
    ensures var t := LateState(a, b);
            && b in NumbersIn(t.rows, 0) && a in NumbersIn(t.log, 0)
            && After(t, Insert(0)).log == t.log + [Row(0, 0, a)]
  {
    var t := LateState(a, b);
    assert t.rows[0].number == b && t.log[0].number == a;
  }

  // The late insert commits 01 a second time while 02, the newest ever issued, is still stored.
  lemma LateInsertRepeats(prefix: string)
    requires ProperPrefix(WorkOrderNumber, prefix)
    ensures var t := Run(ThreeReady(), LateSteps(prefix));
            && Initial(ThreeReady()) && SecondNumber(prefix) in NumbersIn(t.rows, 0)
            && FirstNumber(prefix) in Issued(ThreeReady(), t, 0)
            && After(t, Insert(0)).log == t.log + [Row(0, 0, FirstNumber(prefix))]
  {
    hide After, Run, Next, Format, LateState, NumbersIn;
    LateRun(prefix);
    TwoNumbers(prefix);
    LateInsert(FirstNumber(prefix), SecondNumber(prefix));
  }
}
