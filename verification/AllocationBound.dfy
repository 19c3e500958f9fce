/** How often a creator can fail: each failed try has a conflicting commit of its own, so five
    tries serve exactly up to five creators of one scope. */
module AllocationBound {
  import opened Text
  import opened Numbering
  import opened Allocation

  // A failed try: the number it held, and how long the log was at its read and at its insert.
  datatype Attempt = Attempt(number: string, readAt: nat, failedAt: nat)

  // The try of creator i that this step fails, if it does.
  ghost function FailureIn(s: System, step: Step, i: nat): seq<Attempt> {
    if step == Insert(i) && i < |s.creators| && s.creators[i].phase.Holding?
       && Taken(s.rows, s.creators[i].scope, s.creators[i].phase.number)
    then [Attempt(s.creators[i].phase.number, s.creators[i].phase.readAt, |s.log|)]
    else []
  }

  // The tries creator i failed along a run, in order.
  ghost function FailedAttempts(s: System, steps: seq<Step>, i: nat): seq<Attempt> {
    if steps == [] then []
    else
      var init := steps[..|steps| - 1];
      FailedAttempts(s, init, i) + FailureIn(Run(s, init), steps[|steps| - 1], i)
  }

  // The commit in the given place of the log is why the attempt failed: another creator of
  // the scope committed the very number, after it was read and before it was inserted.
  ghost predicate Conflicts(log: seq<Row>, i: nat, scope: nat, attempt: Attempt, place: nat) {
    && attempt.readAt <= place < attempt.failedAt <= |log|
    && log[place].who != i && log[place].scope == scope && log[place].number == attempt.number
  }

  // Each failed try of creator i has its conflicting commit; no two tries overlap, so no two
  // have the same one.
  ghost predicate Charged(s: System, i: nat, attempts: seq<Attempt>, charges: seq<nat>)
    requires i < |s.creators|
  {
    && |attempts| == |charges| == s.creators[i].failures
    && (forall k | 0 <= k < |charges| :: Conflicts(s.log, i, s.creators[i].scope, attempts[k], charges[k]))
    && (forall k, m | 0 <= k < m < |attempts| :: attempts[k].failedAt <= attempts[m].readAt)
    && (s.creators[i].phase.Holding? ==>
          forall k | 0 <= k < |attempts| :: attempts[k].failedAt <= s.creators[i].phase.readAt)
  }

  // What one step can do to a creator's count: nothing, or one failed insert.
  lemma StepEffect(s: System, step: Step, i: nat)
    requires i < |s.creators| && HoldsFairly(s, i)
    ensures var s' := After(s, step);
            && |s'.creators| == |s.creators| && s.log <= s'.log
            && s'.creators[i].scope == s.creators[i].scope
    ensures var c, c' := s.creators[i], After(s, step).creators[i];
            && c'.failures == c.failures + |FailureIn(s, step, i)|
            && (c'.phase.Holding?
                ==> FailureIn(s, step, i) == [] && (c'.phase == c.phase || c'.phase.readAt == |s.log|))
  {
  }

  lemma ConflictsPersist(log: seq<Row>, more: seq<Row>, i: nat, scope: nat, attempt: Attempt, place: nat)
    requires Conflicts(log, i, scope, attempt, place) && log <= more
    ensures Conflicts(more, i, scope, attempt, place)
  {
    assert more[place] == log[place];
  }

  lemma ChargeStep(s: System, step: Step, i: nat, attempts: seq<Attempt>, charges: seq<nat>)
      returns (charges': seq<nat>)
    requires Inv(s) && i < |s.creators| && Charged(s, i, attempts, charges)
    ensures |After(s, step).creators| == |s.creators|
    ensures Charged(After(s, step), i, attempts + FailureIn(s, step, i), charges')
  {
    assert HoldsFairly(s, i);
    StepEffect(s, step, i);
    var failed := FailureIn(s, step, i);
    charges' := charges;
    if failed != [] {
      var j := ConflictingCommit(s, i);
      charges' := charges + [j];
    }
    forall k | 0 <= k < |charges'|
      ensures Conflicts(After(s, step).log, i, s.creators[i].scope, (attempts + failed)[k], charges'[k])
    {
      ConflictsPersist(s.log, After(s, step).log, i, s.creators[i].scope, (attempts + failed)[k], charges'[k]);
    }
  }

  lemma ConflictingCommit(s: System, i: nat) returns (j: nat)
    requires i < |s.creators| && HoldsFairly(s, i) && s.creators[i].phase.Holding?
    requires Taken(s.rows, s.creators[i].scope, s.creators[i].phase.number)
    ensures Conflicts(s.log, i, s.creators[i].scope,
                      Attempt(s.creators[i].phase.number, s.creators[i].phase.readAt, |s.log|), j)
  {
    var c := s.creators[i];
    j :| c.phase.readAt <= j < |s.log| && s.log[j].who != i && s.log[j].scope == c.scope
        && s.log[j].number == c.phase.number;
  }

  // Every failure of every creator, over every run, is charged to a conflicting commit of its
  // own: another creator of the scope committed the number it held between its read and its
  // insert.
  lemma {:induction false} EveryFailureIsCharged(s: System, steps: seq<Step>, i: nat) returns (charges: seq<nat>)
    requires Initial(s) && i < |s.creators|
    ensures |Run(s, steps).creators| == |s.creators| && Charged(Run(s, steps), i, FailedAttempts(s, steps, i), charges)
    ensures forall k, m | 0 <= k < m < |charges| :: charges[k] < charges[m]
  {
    if steps == [] {
      charges := [];
    } else {
      var init := steps[..|steps| - 1];
      charges := EveryFailureIsCharged(s, init, i);
      RunKeepsInv(s, init);
      charges := ChargeStep(Run(s, init), steps[|steps| - 1], i, FailedAttempts(s, init, i), charges);
    }
    ChargesIncrease(Run(s, steps), i, FailedAttempts(s, steps, i), charges);
  }

  lemma ChargesIncrease(s: System, i: nat, attempts: seq<Attempt>, charges: seq<nat>)
    requires i < |s.creators| && Charged(s, i, attempts, charges)
    ensures forall k, m | 0 <= k < m < |charges| :: charges[k] < charges[m]
  {
    forall k, m | 0 <= k < m < |charges|
      ensures charges[k] < charges[m]
    {
      assert Conflicts(s.log, i, s.creators[i].scope, attempts[k], charges[k]);
      assert Conflicts(s.log, i, s.creators[i].scope, attempts[m], charges[m]);
    }
  }

  // The creators charged are as many as the charges.
  lemma {:induction false} ChargedCreatorsDistinct(log: seq<Row>, charges: seq<nat>, n: nat) returns (who: set<nat>)
    requires n <= |charges| && forall k | 0 <= k < |charges| :: charges[k] < |log|
    requires forall k, m | 0 <= k < m < |charges| :: log[charges[k]].who != log[charges[m]].who
    ensures |who| == n
    ensures forall w | w in who :: exists k | 0 <= k < n :: w == log[charges[k]].who
  {
    if n == 0 {
      who := {};
    } else {
      who := ChargedCreatorsDistinct(log, charges, n - 1);
      who := who + {log[charges[n - 1]].who};
    }
  }

  // The creators that draw from one sequence.
  function InScope(s: System, scope: nat): set<nat> {
    set j | 0 <= j < |s.creators| && s.creators[j].scope == scope
  }

  lemma {:induction false} ScopesStay(s: System, steps: seq<Step>)
    ensures |Run(s, steps).creators| == |s.creators|
    ensures forall j | 0 <= j < |s.creators| :: Run(s, steps).creators[j].scope == s.creators[j].scope
  {
    if steps != [] {
      ScopesStay(s, steps[..|steps| - 1]);
    }
  }

  lemma SubsetAtMost<T>(a: set<T>, b: set<T>)
    requires a <= b
    ensures |a| <= |b|
  {
    assert b == a + (b - a);
  }

  lemma ChargesBelowCreators(s: System, i: nat, attempts: seq<Attempt>, charges: seq<nat>)
    requires LogFaithful(s) && i < |s.creators| && Charged(s, i, attempts, charges)
    ensures |charges| < |InScope(s, s.creators[i].scope)|
  {
    ChargesIncrease(s, i, attempts, charges);
    forall k | 0 <= k < |charges|
      ensures charges[k] < |s.log| && s.log[charges[k]].who in InScope(s, s.creators[i].scope) - {i}
    {
      assert Conflicts(s.log, i, s.creators[i].scope, attempts[k], charges[k]);
    }
    forall k, m | 0 <= k < m < |charges|
      ensures s.log[charges[k]].who != s.log[charges[m]].who
    {
      assert charges[k] < charges[m];
    }
    var who := ChargedCreatorsDistinct(s.log, charges, |charges|);
    SubsetAtMost(who + {i}, InScope(s, s.creators[i].scope));
  }

  // Nobody fails as often as there are creators in its own scope.
  lemma FailuresBelowCreators(s: System, steps: seq<Step>, i: nat)
    requires Initial(s) && i < |s.creators|
    ensures |Run(s, steps).creators| == |s.creators|
    ensures Run(s, steps).creators[i].failures < |InScope(s, s.creators[i].scope)|
  {
    RunKeepsInv(s, steps);
    ScopesStay(s, steps);
    var charges := EveryFailureIsCharged(s, steps, i);
    ChargesBelowCreators(Run(s, steps), i, FailedAttempts(s, steps, i), charges);
    assert InScope(Run(s, steps), s.creators[i].scope) == InScope(s, s.creators[i].scope);
  }

  // ---------------------------------------------------------------- the bound is exact

  // One round in which k commits the number i is holding.
  function CollisionRound(i: nat, k: nat, prefix: string): seq<Step> {
    [Read(i, prefix), Read(k, prefix), Insert(k), Insert(i)]
  }

  lemma RunRound(s: System, i: nat, k: nat, prefix: string)
    ensures Run(s, CollisionRound(i, k, prefix))
         == After(Run(After(s, Read(i, prefix)), [Read(k, prefix), Insert(k)]), Insert(i))
  {
    var read, other := [Read(i, prefix)], [Read(k, prefix), Insert(k)];
    RunSnoc(s, [], Read(i, prefix));
    RunAppend(s, read, other);
    assert [] + read == read && read + other + [Insert(i)] == CollisionRound(i, k, prefix);
    RunSnoc(s, read + other, Insert(i));
  }

  // The states of a round, for whatever number both creators read.
  ghost function AfterRound(s: System, i: nat, k: nat, number: string): System
    requires i < |s.creators| && k < |s.creators|
  {
    var s1 := SetPhase(s, i, Holding(number, |s.log|), s.creators[i].failures);
    var s2 := SetPhase(s1, k, Holding(number, |s.log|), s.creators[k].failures);
    After(Commit(s2, k, number), Insert(i))
  }

  lemma AfterRoundCosts(s: System, i: nat, k: nat, number: string)
    requires i < |s.creators| && k < |s.creators| && i != k && s.creators[i].scope == s.creators[k].scope
    ensures var t := AfterRound(s, i, k, number);
            && |t.creators| == |s.creators| && t.kind == s.kind
            && t.creators[i] == Creator(s.creators[i].scope,
                                        if s.creators[i].failures + 1 == MAX_NUMBER_RETRIES then Exhausted else Ready,
                                        s.creators[i].failures + 1)
            && forall j | 0 <= j < |s.creators| && j != i && j != k :: t.creators[j] == s.creators[j]
  {
    var s1 := SetPhase(s, i, Holding(number, |s.log|), s.creators[i].failures);
    var s2 := SetPhase(s1, k, Holding(number, |s.log|), s.creators[k].failures);
    var s3 := Commit(s2, k, number);
    assert s3.rows[|s.rows|] == Row(k, s.creators[k].scope, number);
    assert Taken(s3.rows, s.creators[i].scope, number);
  }

  // A round in which k commits the number i is holding is such a sequence of states.
  lemma CollisionRoundRuns(s: System, i: nat, k: nat, prefix: string)
    requires Inv(s) && i < |s.creators| && k < |s.creators| && i != k && ProperPrefix(s.kind, prefix)
    requires s.creators[i].scope == s.creators[k].scope && s.creators[i].phase.Ready? && s.creators[k].phase.Ready?
    ensures Run(s, CollisionRound(i, k, prefix))
         == AfterRound(s, i, k, Next(s.kind, prefix, NumbersIn(s.rows, s.creators[i].scope)))
  {
    RunRound(s, i, k, prefix);
    ReadKeepsInv(s, i, prefix);
    UndisturbedCreation(After(s, Read(i, prefix)), k, prefix);
  }

  // Creator v has used n tries, and of its rivals only the first n have moved.
  ghost predicate AfterRounds(t: System, kind: Kind, scope: nat, v: nat, rivals: seq<nat>, n: nat) {
    && t.kind == kind && v < |t.creators| && v !in rivals && n <= |rivals|
    && (forall m | 0 <= m < |rivals| :: rivals[m] < |t.creators|)
    && (forall k, m | 0 <= k < m < |rivals| :: rivals[k] != rivals[m])
    && t.creators[v] == Creator(scope, if n == MAX_NUMBER_RETRIES then Exhausted else Ready, n)
    && (forall m | n <= m < |rivals| :: t.creators[rivals[m]] == Creator(scope, Ready, 0))
  }

  // A round with a rival that has not moved costs creator v one more try.
  lemma RoundAfterRounds(t: System, kind: Kind, scope: nat, v: nat, rivals: seq<nat>, n: nat, number: string)
    requires AfterRounds(t, kind, scope, v, rivals, n) && n < |rivals| && n < MAX_NUMBER_RETRIES
    ensures AfterRounds(AfterRound(t, v, rivals[n], number), kind, scope, v, rivals, n + 1)
  {
    assert rivals[n] in rivals;
    AfterRoundCosts(t, v, rivals[n], number);
    OneMoreRound(t, AfterRound(t, v, rivals[n], number), kind, scope, v, rivals, n);
  }

  lemma OneMoreRound(t: System, t': System, kind: Kind, scope: nat, v: nat, rivals: seq<nat>, n: nat)
    requires AfterRounds(t, kind, scope, v, rivals, n) && n < |rivals|
    requires |t'.creators| == |t.creators| && t'.kind == kind
    requires t'.creators[v] == Creator(scope, if n + 1 == MAX_NUMBER_RETRIES then Exhausted else Ready, n + 1)
    requires forall j | 0 <= j < |t.creators| && j != v && j != rivals[n] :: t'.creators[j] == t.creators[j]
    ensures AfterRounds(t', kind, scope, v, rivals, n + 1)
  {
    forall m | n + 1 <= m < |rivals|
      ensures t'.creators[rivals[m]] == Creator(scope, Ready, 0)
    {
      assert rivals[n] != rivals[m] && rivals[m] in rivals;
    }
  }

  lemma NextRound(t: System, kind: Kind, scope: nat, v: nat, rivals: seq<nat>, n: nat, prefix: string)
    requires Inv(t) && AfterRounds(t, kind, scope, v, rivals, n) && n < |rivals| && n < MAX_NUMBER_RETRIES
    requires ProperPrefix(kind, prefix)
    ensures AfterRounds(Run(t, CollisionRound(v, rivals[n], prefix)), kind, scope, v, rivals, n + 1)
  {
    assert rivals[n] in rivals;
    CollisionRoundRuns(t, v, rivals[n], prefix);
    RoundAfterRounds(t, kind, scope, v, rivals, n, Next(kind, prefix, NumbersIn(t.rows, scope)));
  }

  // n rounds against n rivals cost creator v exactly n tries.
  lemma {:induction false} RoundsCost(s: System, prefix: string, scope: nat, v: nat, rivals: seq<nat>, n: nat)
    returns (steps: seq<Step>)
    requires Initial(s) && AfterRounds(s, s.kind, scope, v, rivals, 0) && ProperPrefix(s.kind, prefix)
    requires n <= MAX_NUMBER_RETRIES && n <= |rivals|
    ensures AfterRounds(Run(s, steps), s.kind, scope, v, rivals, n)
  {
    if n == 0 {
      steps := [];
    } else {
      var before := RoundsCost(s, prefix, scope, v, rivals, n - 1);
      RunKeepsInv(s, before);
      steps := before + CollisionRound(v, rivals[n - 1], prefix);
      RunAppend(s, before, CollisionRound(v, rivals[n - 1], prefix));
      NextRound(Run(s, before), s.kind, scope, v, rivals, n - 1, prefix);
    }
  }

  // Some n elements of a set, each once.
  lemma {:induction false} Choose(from: set<nat>, n: nat) returns (chosen: seq<nat>)
    requires n <= |from|
    ensures |chosen| == n && forall k | 0 <= k < n :: chosen[k] in from
    ensures forall k, m | 0 <= k < m < n :: chosen[k] != chosen[m]
  {
    if n == 0 {
      chosen := [];
    } else {
      var x :| x in from;
      chosen := Choose(from - {x}, n - 1);
      chosen := chosen + [x];
    }
  }

  ghost predicate NobodyExhausts(s: System, scope: nat) {
    forall steps, i | 0 <= i < |Run(s, steps).creators| && Run(s, steps).creators[i].scope == scope ::
      !Run(s, steps).creators[i].phase.Exhausted?
  }

  // More than five creators of a scope can be interleaved so that one of them runs out of tries.
  lemma SixCanExhaust(s: System, prefix: string, scope: nat)
    requires Initial(s) && ProperPrefix(s.kind, prefix) && |InScope(s, scope)| > MAX_NUMBER_RETRIES
    ensures !NobodyExhausts(s, scope)
  {
    var v :| v in InScope(s, scope);
    var rivals := Choose(InScope(s, scope) - {v}, MAX_NUMBER_RETRIES);
    forall m | 0 <= m < |rivals|
      ensures rivals[m] != v && rivals[m] < |s.creators| && s.creators[rivals[m]] == Creator(scope, Ready, 0)
    {
      assert rivals[m] in InScope(s, scope) - {v};
    }
    var steps := RoundsCost(s, prefix, scope, v, rivals, MAX_NUMBER_RETRIES);
    assert Run(s, steps).creators[v].phase.Exhausted?;
  }

  // Five tries are enough exactly for up to five creators of a scope: no interleaving, with
  // any number of creators elsewhere, exhausts one of at most five, and six can exhaust one.
  lemma FiveTriesServeFiveCreators(s: System, prefix: string, scope: nat)
    requires Initial(s) && ProperPrefix(s.kind, prefix)
    ensures NobodyExhausts(s, scope) <==> |InScope(s, scope)| <= 5
  {
    if |InScope(s, scope)| <= MAX_NUMBER_RETRIES {
      forall steps, i | 0 <= i < |Run(s, steps).creators| && Run(s, steps).creators[i].scope == scope
        ensures !Run(s, steps).creators[i].phase.Exhausted?
      {
        RunKeepsInv(s, steps);
        ScopesStay(s, steps);
        FailuresBelowCreators(s, steps, i);
        assert HoldsFairly(Run(s, steps), i);
      }
    } else {
      SixCanExhaust(s, prefix, scope);
    }
  }
}
