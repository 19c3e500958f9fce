/** The retry loop and the concurrent system tell the same story: a creator of the system fails
    and succeeds as the loop does. */
module AllocationLoop {
  import opened Numbering
  import opened Allocation

  // Steps of other creators, and deletions.
  predicate OthersOnly(steps: seq<Step>, who: nat) {
    forall i | 0 <= i < |steps| :: steps[i].Delete? || steps[i].who != who
  }

  lemma {:induction false} OthersLeaveMeAlone(s: System, steps: seq<Step>, who: nat)
    requires who < |s.creators| && OthersOnly(steps, who)
    ensures var t := Run(s, steps);
            t.kind == s.kind && |t.creators| == |s.creators| && t.creators[who] == s.creators[who]
  {
    if steps != [] {
      OthersLeaveMeAlone(s, steps[..|steps| - 1], who);
    }
  }

  lemma {:induction false} RowsOnlyGrow(s: System, steps: seq<Step>)
    requires NoDeletes(steps)
    ensures s.rows <= Run(s, steps).rows
  {
    if steps != [] {
      RowsOnlyGrow(s, steps[..|steps| - 1]);
    }
  }

  // The state in which creator `who` inserts what it read before the others' steps.
  ghost function BeforeInsert(s: System, who: nat, prefix: string, others: seq<Step>): System {
    Run(After(s, Read(who, prefix)), others)
  }

  ghost function Try(s: System, who: nat, prefix: string, others: seq<Step>): System {
    After(BeforeInsert(s, who, prefix, others), Insert(who))
  }

  predicate IsReady(s: System, who: nat, scope: nat, failures: nat) {
    who < |s.creators| && s.creators[who] == Creator(scope, Ready, failures)
  }

  lemma NumbersGrow(rows: seq<Row>, more: seq<Row>, scope: nat)
    requires rows <= more
    ensures NumbersIn(rows, scope) <= NumbersIn(more, scope)
  {
    assert forall r | 0 <= r < |rows| :: more[r] == rows[r];
  }

  // What creator `who` holds when it inserts is the number after those it read.
  lemma HoldsNextNumber(s: System, who: nat, prefix: string, others: seq<Step>, scope: nat, failures: nat)
    requires IsReady(s, who, scope, failures) && ProperPrefix(s.kind, prefix) && OthersOnly(others, who)
    ensures var t := BeforeInsert(s, who, prefix, others);
            && t.kind == s.kind && |t.creators| == |s.creators|
            && t.creators[who] == Creator(scope, Holding(Next(s.kind, prefix, NumbersIn(s.rows, scope)), |s.log|),
                failures)
  {
    OthersLeaveMeAlone(After(s, Read(who, prefix)), others, who);
  }

  lemma TakenIsStored(rows: seq<Row>, scope: nat, number: string)
    ensures Taken(rows, scope, number) <==> number in NumbersIn(rows, scope)
  {
  }

  // One try, among any steps of others, deletions included: it fails exactly when the number
  // read is stored by the time of the insert.
  lemma TryEffect(s: System, who: nat, prefix: string, others: seq<Step>, scope: nat, failures: nat)
    requires IsReady(s, who, scope, failures) && ProperPrefix(s.kind, prefix) && OthersOnly(others, who)
    ensures var number := Next(s.kind, prefix, NumbersIn(s.rows, scope));
            var t, u := BeforeInsert(s, who, prefix, others), Try(s, who, prefix, others);
            && u.kind == s.kind && |u.creators| == |s.creators|
            && (number in NumbersIn(t.rows, scope) ==>
                  u.rows == t.rows && u.creators[who] == Creator(
                    scope, if failures + 1 == MAX_NUMBER_RETRIES then Exhausted else Ready, failures + 1))
            && (number !in NumbersIn(t.rows, scope) ==>
                  u.rows == t.rows + [Row(who, scope, number)]
                      && u.creators[who] == Creator(scope, Done(number), failures))
  {
    HoldsNextNumber(s, who, prefix, others, scope, failures);
    TakenIsStored(BeforeInsert(s, who, prefix, others).rows, scope, Next(s.kind, prefix, NumbersIn(s.rows, scope)));
  }

  // Try number a of creator `who`, from one state to the next; `stored` are the numbers in
  // the table when it inserts, which the loop sees as the others' commits.
  ghost predicate IsTry(s: System, s': System, who: nat, scope: nat, prefix: string, others: seq<Step>,
                        stored: set<string>, a: nat)
  {
    && IsReady(s, who, scope, a) && ProperPrefix(s.kind, prefix) && OthersOnly(others, who) && NoDeletes(others)
    && s' == Try(s, who, prefix, others)
    && stored == NumbersIn(BeforeInsert(s, who, prefix, others).rows, scope)
  }

  // The states of up to five tries in a row, each but the last begun ready.
  ghost predicate Tries(states: seq<System>, who: nat, scope: nat, prefixes: seq<string>, others: seq<seq<Step>>,
                        stored: seq<set<string>>)
  {
    && |prefixes| == |others| == |stored| == MAX_NUMBER_RETRIES && 1 <= |states| <= MAX_NUMBER_RETRIES + 1
    && forall a | 0 <= a < |states| - 1 ::
         IsTry(states[a], states[a + 1], who, scope, prefixes[a], others[a], stored[a], a)
  }

  // A failed try read a number that was stored between its read and its insert.
  lemma FailedTry(s: System, who: nat, prefix: string, others: seq<Step>, scope: nat, failures: nat)
    requires IsReady(s, who, scope, failures) && ProperPrefix(s.kind, prefix) && OthersOnly(others, who)
        && NoDeletes(others)
    requires who < |Try(s, who, prefix, others).creators|
    requires Try(s, who, prefix, others).creators[who].failures == failures + 1
    ensures var read := NumbersIn(s.rows, scope);
            var stored := NumbersIn(BeforeInsert(s, who, prefix, others).rows, scope);
            && read <= stored == NumbersIn(Try(s, who, prefix, others).rows, scope)
            && Next(s.kind, prefix, read) in stored - read
    ensures Try(s, who, prefix, others).kind == s.kind
  {
    TryEffect(s, who, prefix, others, scope, failures);
    TryKeepsNumbers(s, who, prefix, others, scope, failures);
    NextIsFresh(s.kind, prefix, NumbersIn(s.rows, scope));
  }

  lemma CollisionAdds(kind: Kind, prefixes: seq<string>, numbers: set<string>, others: seq<set<string>>, b: nat,
                      read: set<string>, stored: set<string>)
    requires |prefixes| == |others| && b < |others| && others[b] == stored && read <= stored
    requires Committed(numbers, others, b) == read && Next(kind, prefixes[b], read) in stored - read
    requires AllCollide(kind, prefixes, numbers, others, b)
    ensures Committed(numbers, others, b + 1) == stored
    ensures AllCollide(kind, prefixes, numbers, others, b + 1)
  {
    assert Collides(kind, prefixes, numbers, others, b);
  }

  // As long as creator `who` has failed every try, the loop's account of collisions is the
  // system's: the same numbers are stored, and each candidate was committed in its window.
  lemma {:induction false} FailedTriesCollide(
    states: seq<System>, who: nat, scope: nat, prefixes: seq<string>, others: seq<seq<Step>>, stored: seq<set<string>>)
    requires Tries(states, who, scope, prefixes, others, stored)
    requires var t := states[|states| - 1]; who < |t.creators| && t.creators[who].failures == |states| - 1
    ensures var n := |states| - 1;
            && Committed(NumbersIn(states[0].rows, scope), stored, n) == NumbersIn(states[n].rows, scope)
            && AllCollide(states[0].kind, prefixes, NumbersIn(states[0].rows, scope), stored, n)
            && states[n].kind == states[0].kind
  {
    var n := |states| - 1;
    if n > 0 {
      var t, u := states[n - 1], states[n];
      assert IsTry(t, u, who, scope, prefixes[n - 1], others[n - 1], stored[n - 1], n - 1);
      FailedTriesCollide(states[..n], who, scope, prefixes, others, stored);
      FailedTry(t, who, prefixes[n - 1], others[n - 1], scope, n - 1);
      CollisionAdds(states[0].kind, prefixes, NumbersIn(states[0].rows, scope), stored, n - 1,
                    NumbersIn(t.rows, scope), stored[n - 1]);
    }
  }

  // A try that succeeded stored the number it read, which nobody had stored by then.
  lemma SuccessfulTry(s: System, who: nat, prefix: string, others: seq<Step>, scope: nat, failures: nat)
    requires IsReady(s, who, scope, failures) && ProperPrefix(s.kind, prefix) && OthersOnly(others, who)
    requires who < |Try(s, who, prefix, others).creators|
    requires Try(s, who, prefix, others).creators[who].phase.Done?
    ensures var number := Next(s.kind, prefix, NumbersIn(s.rows, scope));
            var stored := NumbersIn(BeforeInsert(s, who, prefix, others).rows, scope);
            && Try(s, who, prefix, others).creators[who].phase.number == number
            && number !in stored && NumbersIn(Try(s, who, prefix, others).rows, scope) == stored + {number}
  {
    var number := Next(s.kind, prefix, NumbersIn(s.rows, scope));
    TryEffect(s, who, prefix, others, scope, failures);
    StoredAfterCommit(BeforeInsert(s, who, prefix, others).rows, Row(who, scope, number), scope);
  }

  lemma TryKeepsNumbers(s: System, who: nat, prefix: string, others: seq<Step>, scope: nat, failures: nat)
    requires IsReady(s, who, scope, failures) && OthersOnly(others, who) && NoDeletes(others)
    ensures NumbersIn(s.rows, scope) <= NumbersIn(BeforeInsert(s, who, prefix, others).rows, scope)
  {
    RowsOnlyGrow(After(s, Read(who, prefix)), others);
    NumbersGrow(s.rows, BeforeInsert(s, who, prefix, others).rows, scope);
  }

  lemma SuccessIs(kind: Kind, prefixes: seq<string>, numbers: set<string>, others: seq<set<string>>, a: nat,
                  read: set<string>, stored: set<string>, number: string)
    requires |prefixes| == |others| && a < |others| && others[a] == stored && read <= stored
    requires Committed(numbers, others, a) == read && number == Next(kind, prefixes[a], read) && number !in stored
    ensures Succeeds(kind, prefixes, numbers, others, a, number, stored + {number})
  {
    assert read + stored == stored;
  }

  // And the first try that does not fail stores what the loop says it stores.
  lemma FirstSuccessSucceeds(
    states: seq<System>, who: nat, scope: nat, prefixes: seq<string>, others: seq<seq<Step>>, stored: seq<set<string>>)
    requires Tries(states, who, scope, prefixes, others, stored) && |states| >= 2
    requires var u := states[|states| - 1]; who < |u.creators| && u.creators[who].phase.Done?
    ensures var n, u := |states| - 2, states[|states| - 1];
            && AllCollide(states[0].kind, prefixes, NumbersIn(states[0].rows, scope), stored, n)
            && Succeeds(states[0].kind, prefixes, NumbersIn(states[0].rows, scope), stored, n,
                        u.creators[who].phase.number, NumbersIn(u.rows, scope))
  {
    var n := |states| - 2;
    var t, u := states[n], states[n + 1];
    assert IsTry(t, u, who, scope, prefixes[n], others[n], stored[n], n);
    FailedTriesCollide(states[..n + 1], who, scope, prefixes, others, stored);
    SuccessfulTry(t, who, prefixes[n], others[n], scope, n);
    TryKeepsNumbers(t, who, prefixes[n], others[n], scope, n);
    SuccessIs(states[0].kind, prefixes, NumbersIn(states[0].rows, scope), stored, n, NumbersIn(t.rows, scope), stored[n],
              Next(t.kind, prefixes[n], NumbersIn(t.rows, scope)));
  }
}
