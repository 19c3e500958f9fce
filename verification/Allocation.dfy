/** Allocating generated numbers under concurrency. Reading the highest number and inserting
    the next one are separate steps, so creators of one table can be handed the same number;
    the unique constraint rejects the later insert and the creator starts over, five times. */
module Allocation {
  import opened Text
  import opened Numbering

  // ---------------------------------------------------------------- the retry loop

  class NumberTable {
    var numbers: set<string>

    // One creator's loop. Between its read and its insert in attempt a, others commit the
    // numbers others[a]; prefixes[a] is the day's prefix at that attempt.
    method Allocate(kind: Kind, prefixes: seq<string>, others: seq<set<string>>) returns (number: Option<string>)
      requires |prefixes| == |others| == MAX_NUMBER_RETRIES
      requires forall p | p in prefixes :: ProperPrefix(kind, p)
      modifies this
      ensures number.Some? ==> exists a | 0 <= a < MAX_NUMBER_RETRIES ::
                && AllCollide(kind, prefixes, old(numbers), others, a)
                && Succeeds(kind, prefixes, old(numbers), others, a, number.value, numbers)
      ensures number.None? ==>
                && AllCollide(kind, prefixes, old(numbers), others, MAX_NUMBER_RETRIES)
                && numbers == Committed(old(numbers), others, MAX_NUMBER_RETRIES)
    {
      hide Next, Collides, Succeeds;
      ghost var before := numbers;
      for attempt := 0 to MAX_NUMBER_RETRIES
        invariant numbers == Committed(before, others, attempt)
        invariant AllCollide(kind, prefixes, before, others, attempt)
      {
        var candidate, stored := TryOnce(kind, prefixes[attempt], others[attempt]);
        AttemptOutcome(kind, prefixes, before, others, attempt, candidate);
        if stored {
          return Some(candidate);
        }
      }
      return None;
    }

    // One attempt: read the next number, let the others commit, insert unless it is taken by then.
    method TryOnce(kind: Kind, prefix: string, meanwhile: set<string>) returns (number: string, stored: bool)
      requires ProperPrefix(kind, prefix)
      modifies this
      ensures number == Next(kind, prefix, old(numbers))
      ensures stored == (number !in old(numbers) + meanwhile)
      ensures numbers == old(numbers) + meanwhile + (if stored then {number} else {})
    {
      number := NextNumber(kind, prefix, numbers);
      numbers := numbers + meanwhile;
      stored := number !in numbers;
      if stored {
        numbers := numbers + {number};
      }
    }

    // Creating an invoice: a number given explicitly gets one try and is stored as it is, or
    // refused as a duplicate; otherwise the loop above draws one.
    method CreateInvoice(requested: string, prefixes: seq<string>, others: seq<set<string>>)
        returns (number: Option<string>)
      requires |prefixes| == |others| == MAX_NUMBER_RETRIES
      requires forall p | p in prefixes :: ProperPrefix(InvoiceNumber, p)
      modifies this
      ensures old(numbers) <= numbers && (number.Some? ==> number.value in numbers && number.value !in old(numbers))
      ensures Strip(requested) != "" ==>
                && number == (if Strip(requested) in old(numbers) then None else Some(Strip(requested)))
                && numbers == old(numbers) + {Strip(requested)}
      ensures Strip(requested) == "" && number.Some? ==> exists a | 0 <= a < MAX_NUMBER_RETRIES ::
                && AllCollide(InvoiceNumber, prefixes, old(numbers), others, a)
                && Succeeds(InvoiceNumber, prefixes, old(numbers), others, a, number.value, numbers)
      ensures Strip(requested) == "" && number.None? ==>
                && AllCollide(InvoiceNumber, prefixes, old(numbers), others, MAX_NUMBER_RETRIES)
                && numbers == Committed(old(numbers), others, MAX_NUMBER_RETRIES)
    {
      var explicit := Strip(requested);
      if explicit != "" {
        if explicit in numbers {
          return None;
        }
        numbers := numbers + {explicit};
        return Some(explicit);
      }
      CommittedGrows(numbers, others);
      number := Allocate(InvoiceNumber, prefixes, others);
    }
  }

  lemma {:induction false} CommittedGrowsTo(numbers: set<string>, others: seq<set<string>>, k: nat)
    requires k <= |others|
    ensures numbers <= Committed(numbers, others, k)
  {
    if k > 0 {
      CommittedGrowsTo(numbers, others, k - 1);
    }
  }

  lemma CommittedGrows(numbers: set<string>, others: seq<set<string>>)
    ensures forall k | 0 <= k <= |others| :: numbers <= Committed(numbers, others, k)
  {
    forall k | 0 <= k <= |others|
      ensures numbers <= Committed(numbers, others, k)
    {
      CommittedGrowsTo(numbers, others, k);
    }
  }

  // The numbers stored once the others' commits of the first k attempts are in.
  function Committed(numbers: set<string>, others: seq<set<string>>, k: nat): set<string>
    requires k <= |others|
  {
    if k == 0 then numbers else Committed(numbers, others, k - 1) + others[k - 1]
  }

  // The number read in attempt b was committed by someone else before the insert, and not before the read.
  ghost predicate Collides(kind: Kind, prefixes: seq<string>, numbers: set<string>, others: seq<set<string>>, b: nat)
    requires |prefixes| == |others| && b < |others|
  {
    var candidate := Next(kind, prefixes[b], Committed(numbers, others, b));
    candidate in others[b] && candidate !in Committed(numbers, others, b)
  }

  ghost predicate AllCollide(kind: Kind, prefixes: seq<string>, numbers: set<string>, others: seq<set<string>>, k: nat)
    requires |prefixes| == |others| && k <= |others|
  {
    forall b | 0 <= b < k :: Collides(kind, prefixes, numbers, others, b)
  }

  // Attempt a stored the number it had read, which nobody stored in between.
  ghost predicate Succeeds(kind: Kind, prefixes: seq<string>, numbers: set<string>, others: seq<set<string>>,
                           a: nat, number: string, after: set<string>)
    requires |prefixes| == |others| && a < |others|
  {
    && number == Next(kind, prefixes[a], Committed(numbers, others, a))
    && number !in Committed(numbers, others, a) + others[a]
    && after == Committed(numbers, others, a) + others[a] + {number}
  }

  lemma AttemptOutcome(kind: Kind, prefixes: seq<string>, numbers: set<string>, others: seq<set<string>>,
                       a: nat, number: string)
    requires |prefixes| == |others| && a < |others| && ProperPrefix(kind, prefixes[a])
    requires number == Next(kind, prefixes[a], Committed(numbers, others, a))
    ensures number in Committed(numbers, others, a) + others[a] ==> Collides(kind, prefixes, numbers, others, a)
    ensures number !in Committed(numbers, others, a) + others[a] ==>
              Succeeds(kind, prefixes, numbers, others, a, number, Committed(numbers, others, a) + others[a] + {number})
  {
    NextIsFresh(kind, prefixes[a], Committed(numbers, others, a));
  }

  // ---------------------------------------------------------------- any number of creators

  // A creator holding a number read it when `readAt` commits had been made.
  datatype Phase = Ready | Holding(number: string, readAt: nat) | Done(number: string) | Rejected | Exhausted

  datatype Creator = Creator(scope: nat, phase: Phase, failures: nat)

  datatype Row = Row(who: nat, scope: nat, number: string)

  // `scope` is the organization for work orders and the one shared scope for invoices;
  // `log` lists every commit ever made, `rows` what is stored now.
  datatype System = System(kind: Kind, creators: seq<Creator>, rows: seq<Row>, log: seq<Row>)

  datatype Step =
    | Read(who: nat, prefix: string)
    | Insert(who: nat)
    | InsertExplicit(who: nat, number: string)
    | Delete(row: nat)

  predicate Taken(rows: seq<Row>, scope: nat, number: string) {
    exists r | 0 <= r < |rows| :: rows[r].scope == scope && rows[r].number == number
  }

  function NumbersIn(rows: seq<Row>, scope: nat): set<string> {
    set r | 0 <= r < |rows| && rows[r].scope == scope :: rows[r].number
  }

  function SetPhase(s: System, who: nat, phase: Phase, failures: nat): System
    requires who < |s.creators|
  {
    s.(creators := s.creators[who := s.creators[who].(phase := phase, failures := failures)])
  }

  function Commit(s: System, who: nat, number: string): System
    requires who < |s.creators|
  {
    var row := Row(who, s.creators[who].scope, number);
    SetPhase(s, who, Done(number), s.creators[who].failures).(rows := s.rows + [row], log := s.log + [row])
  }

  // A step that is not possible leaves the system as it is. Explicit numbers exist for
  // invoices only and get a single try; only work orders can be deleted.
  ghost function After(s: System, step: Step): System {
    match step
    case Read(who, prefix) =>
      if who < |s.creators| && s.creators[who].phase.Ready? && ProperPrefix(s.kind, prefix) then
        var number := Next(s.kind, prefix, NumbersIn(s.rows, s.creators[who].scope));
        SetPhase(s, who, Holding(number, |s.log|), s.creators[who].failures)
      else s
    case Insert(who) =>
      if who < |s.creators| && s.creators[who].phase.Holding? then
        var c := s.creators[who];
        if Taken(s.rows, c.scope, c.phase.number) then
          SetPhase(s, who, if c.failures + 1 == MAX_NUMBER_RETRIES then Exhausted else Ready, c.failures + 1)
        else Commit(s, who, c.phase.number)
      else s
    case InsertExplicit(who, number) =>
      if s.kind.InvoiceNumber? && who < |s.creators| && s.creators[who].phase.Ready?
          && s.creators[who].failures == 0 then
        if Taken(s.rows, s.creators[who].scope, number) then SetPhase(s, who, Rejected, 0)
        else Commit(s, who, number)
      else s
    case Delete(row) =>
      if s.kind.WorkOrderNumber? && row < |s.rows| then s.(rows := s.rows[..row] + s.rows[row + 1..])
      else s
  }

  ghost function Run(s: System, steps: seq<Step>): System {
    if steps == [] then s else After(Run(s, steps[..|steps| - 1]), steps[|steps| - 1])
  }

  ghost predicate Initial(s: System) {
    && s.log == [] && UniqueRows(s.rows)
    && forall i | 0 <= i < |s.creators| :: s.creators[i].phase == Ready && s.creators[i].failures == 0
  }

  ghost predicate UniqueRows(rows: seq<Row>) {
    forall i, j | 0 <= i < j < |rows| :: rows[i].scope != rows[j].scope || rows[i].number != rows[j].number
  }

  // ---------------------------------------------------------------- invariants

  // Someone else committed the number after it was read.
  ghost predicate TakenSince(log: seq<Row>, readAt: nat, who: nat, scope: nat, number: string) {
    exists j | readAt <= j < |log| :: log[j].who != who && log[j].scope == scope && log[j].number == number
  }

  ghost predicate HoldsFairly(s: System, i: nat)
    requires i < |s.creators|
  {
    var c := s.creators[i];
    && (c.phase.Holding? ==>
          && c.phase.readAt <= |s.log|
          && (Taken(s.rows, c.scope, c.phase.number) ==> TakenSince(s.log, c.phase.readAt, i, c.scope, c.phase.number)))
    && (c.phase.Exhausted? <==> c.failures == MAX_NUMBER_RETRIES)
    && c.failures <= MAX_NUMBER_RETRIES
  }

  // Every commit is its creator's only one.
  ghost predicate LogFaithful(s: System) {
    && (forall j | 0 <= j < |s.log| ::
          && s.log[j].who < |s.creators|
          && s.creators[s.log[j].who].phase == Done(s.log[j].number)
          && s.creators[s.log[j].who].scope == s.log[j].scope)
    && (forall j, k | 0 <= j < k < |s.log| :: s.log[j].who != s.log[k].who)
  }

  ghost predicate Inv(s: System) {
    UniqueRows(s.rows) && LogFaithful(s) && forall i | 0 <= i < |s.creators| :: HoldsFairly(s, i)
  }

  lemma ReadKeepsInv(s: System, who: nat, prefix: string)
    requires Inv(s)
    ensures Inv(After(s, Read(who, prefix)))
  {
    if who < |s.creators| && s.creators[who].phase.Ready? && ProperPrefix(s.kind, prefix) {
      var scope := s.creators[who].scope;
      NextIsFresh(s.kind, prefix, NumbersIn(s.rows, scope));
      assert forall number :: Taken(s.rows, scope, number) ==> number in NumbersIn(s.rows, scope);
      var s' := After(s, Read(who, prefix));
      forall i | 0 <= i < |s'.creators|
        ensures HoldsFairly(s', i)
      {
        assert HoldsFairly(s, i);
      }
    }
  }

  lemma CommitKeepsInv(s: System, who: nat, number: string)
    requires Inv(s) && who < |s.creators| && (s.creators[who].phase.Ready? || s.creators[who].phase.Holding?)
    requires !Taken(s.rows, s.creators[who].scope, number)
    ensures Inv(Commit(s, who, number))
  {
    var s' := Commit(s, who, number);
    var n := |s.log|;
    forall i | 0 <= i < |s'.creators|
      ensures HoldsFairly(s', i)
    {
      assert HoldsFairly(s, i);
      var c := s'.creators[i];
      if i != who && c.phase.Holding? && Taken(s'.rows, c.scope, c.phase.number) {
        if Taken(s.rows, c.scope, c.phase.number) {
          var j :| c.phase.readAt <= j < |s.log| && s.log[j].who != i && s.log[j].scope == c.scope
              && s.log[j].number == c.phase.number;
          assert s'.log[j] == s.log[j];
        } else {
          assert s'.log[n].who == who;
        }
      }
    }
  }

  lemma FailureKeepsInv(s: System, who: nat)
    requires Inv(s) && who < |s.creators| && s.creators[who].phase.Holding?
    requires Taken(s.rows, s.creators[who].scope, s.creators[who].phase.number)
    ensures Inv(After(s, Insert(who)))
  {
    var s' := After(s, Insert(who));
    forall i | 0 <= i < |s'.creators|
      ensures HoldsFairly(s', i)
    {
      assert HoldsFairly(s, i) && HoldsFairly(s, who);
    }
  }

  lemma DeleteKeepsInv(s: System, row: nat)
    requires Inv(s)
    ensures Inv(After(s, Delete(row)))
  {
    var s' := After(s, Delete(row));
    if s' != s {
      forall scope, number | Taken(s'.rows, scope, number)
        ensures Taken(s.rows, scope, number)
      {
        var r :| 0 <= r < |s'.rows| && s'.rows[r].scope == scope && s'.rows[r].number == number;
        assert s'.rows[r] == if r < row then s.rows[r] else s.rows[r + 1];
      }
      forall i | 0 <= i < |s'.creators|
        ensures HoldsFairly(s', i)
      {
        assert HoldsFairly(s, i);
      }
    }
  }

  lemma StepKeepsInv(s: System, step: Step)
    requires Inv(s)
    ensures Inv(After(s, step))
    ensures |After(s, step).creators| == |s.creators|
  {
    match step
    case Read(who, prefix) => ReadKeepsInv(s, who, prefix);
    case Insert(who) =>
      if who < |s.creators| && s.creators[who].phase.Holding? {
        if Taken(s.rows, s.creators[who].scope, s.creators[who].phase.number) {
          FailureKeepsInv(s, who);
        } else {
          CommitKeepsInv(s, who, s.creators[who].phase.number);
        }
      }
    case InsertExplicit(who, number) =>
      if s.kind.InvoiceNumber? && who < |s.creators| && s.creators[who].phase.Ready? && s.creators[who].failures == 0 {
        if Taken(s.rows, s.creators[who].scope, number) {
          var s' := After(s, step);
          forall i | 0 <= i < |s'.creators| ensures HoldsFairly(s', i) { assert HoldsFairly(s, i); }
        } else {
          CommitKeepsInv(s, who, number);
        }
      }
    case Delete(row) => DeleteKeepsInv(s, row);
  }

  // Stored numbers are unique in their scope in every reachable state.
  lemma {:induction false} RunKeepsInv(s: System, steps: seq<Step>)
    requires Initial(s)
    ensures Inv(Run(s, steps)) && UniqueRows(Run(s, steps).rows)
    ensures |Run(s, steps).creators| == |s.creators|
  {
    if steps != [] {
      RunKeepsInv(s, steps[..|steps| - 1]);
      StepKeepsInv(Run(s, steps[..|steps| - 1]), steps[|steps| - 1]);
    }
  }

  // ---------------------------------------------------------------- pieces of runs

  predicate NoDeletes(steps: seq<Step>) {
    forall i | 0 <= i < |steps| :: !steps[i].Delete?
  }

  lemma RunSnoc(s: System, steps: seq<Step>, step: Step)
    ensures Run(s, steps + [step]) == After(Run(s, steps), step)
  {
    assert (steps + [step])[..|steps|] == steps;
  }

  lemma RunTwo(s: System, a: Step, b: Step)
    ensures Run(s, [a, b]) == After(After(s, a), b)
  {
    RunSnoc(s, [], a);
    RunSnoc(s, [a], b);
    assert [] + [a] == [a] && [a] + [b] == [a, b];
  }

  // Reading and inserting undisturbed commits the next number.
  lemma UndisturbedCreation(s: System, who: nat, prefix: string)
    requires Inv(s) && who < |s.creators| && s.creators[who].phase.Ready? && ProperPrefix(s.kind, prefix)
    ensures var number := Next(s.kind, prefix, NumbersIn(s.rows, s.creators[who].scope));
            Run(s, [Read(who, prefix), Insert(who)])
            == Commit(After(s, Read(who, prefix)), who, number)
  {
    RunTwo(s, Read(who, prefix), Insert(who));
    ReadKeepsInv(s, who, prefix);
    UndisturbedInsertCommits(After(s, Read(who, prefix)), who);
  }

  lemma {:induction false} RunAppend(s: System, a: seq<Step>, b: seq<Step>)
    ensures Run(s, a + b) == Run(Run(s, a), b)
  {
    if b == [] {
      assert a + b == a;
    } else {
      assert (a + b)[..|a + b| - 1] == a + b[..|b| - 1];
      RunAppend(s, a, b[..|b| - 1]);
    }
  }

  // A creator whose read-insert window no commit falls into succeeds.
  lemma UndisturbedInsertCommits(s: System, who: nat)
    requires Inv(s) && who < |s.creators|
    requires s.creators[who].phase.Holding? && s.creators[who].phase.readAt == |s.log|
    ensures After(s, Insert(who)) == Commit(s, who, s.creators[who].phase.number)
  {
    assert HoldsFairly(s, who);
  }

  lemma StoredAfterCommit(rows: seq<Row>, row: Row, scope: nat)
    ensures NumbersIn(rows + [row], scope) == NumbersIn(rows, scope) + (if row.scope == scope then {row.number} else {})
  {
    var more := rows + [row];
    assert more[|rows|] == row;
    assert forall r | 0 <= r < |rows| :: more[r] == rows[r];
  }
}
