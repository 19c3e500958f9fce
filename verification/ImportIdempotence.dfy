/** When importing the same lines again leaves the table alone: exactly when no line finds a
    blank to fill or a customer to create, which can be checked before the import. */
module ImportIdempotence {
  import opened Text
  import opened CustomerTable
  import opened ImportProperties
  import opened ImportConvergence

  // The line neither creates a customer in this table nor fills a blank of any customer it
  // may be matched with.
  ghost predicate Quiet(t: Table, org: nat, fields: Fields) {
    Named(fields) ==>
      && (NoDuplicate(t, org, fields) ==> NextSeq(t, org).None?)
      && forall i | 0 <= i < |t| && IsDuplicate(t, org, fields, i) :: !Fillable(t[i].values, fields)
  }

  ghost predicate AllQuiet(t: Table, org: nat, items: seq<Item>) {
    forall k | 0 <= k < |items| :: Quiet(t, org, items[k].fields)
  }

  ghost predicate LeavesAlone(t: Table, org: nat, items: seq<Item>) {
    forall ts, outs | Import(ts, org, items, outs) && ts[0] == t :: Last(ts) == t
  }

  // ---------------------------------------------------------------- quiet lines change nothing

  lemma {:induction false} QuietRun(ts: seq<Table>, org: nat, items: seq<Item>, outs: seq<RowOutcome>)
    requires Import(ts, org, items, outs) && AllQuiet(ts[0], org, items)
    ensures Last(ts) == ts[0]
  {
    if |items| > 0 {
      var n := |items| - 1;
      ImportPrefix(ts, org, items, outs, n);
      QuietRun(ts[..n + 1], org, items[..n], outs[..n]);
      QuietStep(ts[n], ts[n + 1], org, items[n], outs[n]);
    }
  }

  lemma QuietStep(t: Table, t': Table, org: nat, item: Item, o: RowOutcome)
    requires RowStep(t, t', org, item, o) && Quiet(t, org, item.fields)
    ensures t' == t
  {
  }

  // ---------------------------------------------------------------- a change is never undone

  // More rows, or as many rows and fewer blanks.
  predicate Advanced(t: Table, t': Table) {
    |t| < |t'| || (|t| == |t'| && Blanks(t') < Blanks(t))
  }

  lemma StepAdvances(t: Table, t': Table, org: nat, item: Item, o: RowOutcome)
    requires RowStep(t, t', org, item, o) && ValidFields(item.fields)
    ensures t' == t || Advanced(t, t')
  {
    if !o.Created? {
      StepShrinksBlanks(t, t', org, item, o);
    }
  }

  lemma {:induction false} RunAdvances(ts: seq<Table>, org: nat, items: seq<Item>, outs: seq<RowOutcome>)
    requires Import(ts, org, items, outs)
    ensures Last(ts) == ts[0] || Advanced(ts[0], Last(ts))
  {
    if |items| > 0 {
      var n := |items| - 1;
      ImportPrefix(ts, org, items, outs, n);
      RunAdvances(ts[..n + 1], org, items[..n], outs[..n]);
      StepAdvances(ts[n], ts[n + 1], org, items[n], outs[n]);
    }
  }

  // ---------------------------------------------------------------- a loud line can change the table

  lemma StepExists(t: Table, org: nat, item: Item) returns (t': Table, o: RowOutcome)
    ensures RowStep(t, t', org, item, o)
  {
    t' := t;
    if !Named(item.fields) {
      o := Ignored;
    } else if NoDuplicate(t, org, item.fields) {
      t', o := CreateOrFail(t, org, item);
    } else {
      var k :| 0 <= k < |KEYS| && HasMatch(t, org, KEYS[k], item.fields)
               && forall j | 0 <= j < k :: !HasMatch(t, org, KEYS[j], item.fields) by { FirstKey(t, org, item.fields); }
      var i :| 0 <= i < |t| && KeyMatch(t[i], org, KEYS[k], item.fields);
      assert MatchedBy(t, org, item.fields, k, i);
      t', o := FillOrSkip(t, org, item, i);
    }
  }

  lemma FirstKey(t: Table, org: nat, fields: Fields)
    requires !NoDuplicate(t, org, fields)
    ensures exists k | 0 <= k < |KEYS| ::
              HasMatch(t, org, KEYS[k], fields) && forall j | 0 <= j < k :: !HasMatch(t, org, KEYS[j], fields)
  {
    var k := 0;
    while !HasMatch(t, org, KEYS[k], fields)
      invariant k < |KEYS| && forall j | 0 <= j < k :: !HasMatch(t, org, KEYS[j], fields)
      decreases |KEYS| - k
    {
      k := k + 1;
    }
  }

  lemma CreateOrFail(t: Table, org: nat, item: Item) returns (t': Table, o: RowOutcome)
    requires Named(item.fields) && NoDuplicate(t, org, item.fields)
    ensures RowStep(t, t', org, item, o) && (NextSeq(t, org).Some? ==> |t'| > |t|)
  {
    if NextSeq(t, org).Some? {
      t', o := t + [NewRow(org, NextSeq(t, org).value, item)], Created;
    } else {
      t', o := t, Failed;
    }
  }

  lemma FillOrSkip(t: Table, org: nat, item: Item, i: nat) returns (t': Table, o: RowOutcome)
    requires Named(item.fields) && i < |t| && IsDuplicate(t, org, item.fields, i)
    ensures RowStep(t, t', org, item, o) && (o.Updated? <==> Fillable(t[i].values, item.fields))
  {
    if Fillable(t[i].values, item.fields) {
      t', o := t[i := t[i].(values := Fill(t[i].values, item.fields))], Updated(i);
    } else {
      t', o := t, Skipped(i);
    }
  }

  lemma LoudStep(t: Table, org: nat, item: Item) returns (t': Table, o: RowOutcome)
    requires !Quiet(t, org, item.fields) && ValidFields(item.fields)
    ensures RowStep(t, t', org, item, o) && t' != t
  {
    if NoDuplicate(t, org, item.fields) && NextSeq(t, org).Some? {
      t', o := CreateOrFail(t, org, item);
    } else {
      var i :| 0 <= i < |t| && IsDuplicate(t, org, item.fields, i) && Fillable(t[i].values, item.fields);
      t', o := FillOrSkip(t, org, item, i);
      StepShrinksBlanks(t, t', org, item, o);
    }
  }

  lemma {:induction false} RunExists(t: Table, org: nat, items: seq<Item>)
      returns (ts: seq<Table>, outs: seq<RowOutcome>)
    requires AllValid(items)
    ensures Import(ts, org, items, outs) && ts[0] == t
  {
    if items == [] {
      ts, outs := [t], [];
      EmptyImport(t, org);
    } else {
      var n := |items| - 1;
      ts, outs := RunExists(t, org, items[..n]);
      var t', o := StepExists(Last(ts), org, items[n]);
      ImportSnoc(ts, t', org, items[..n], items[n], outs, o);
      assert items[..n] + [items[n]] == items;
      ts, outs := ts + [t'], outs + [o];
    }
  }

  // Some run over the lines up to and including a loud one leaves another table behind.
  lemma LoudPrefix(t: Table, org: nat, items: seq<Item>, item: Item) returns (ts: seq<Table>, outs: seq<RowOutcome>)
    requires AllValid(items) && ValidFields(item.fields) && !Quiet(t, org, item.fields)
    ensures Import(ts, org, items + [item], outs) && ts[0] == t && Last(ts) != t
  {
    ts, outs := RunExists(t, org, items);
    RunAdvances(ts, org, items, outs);
    var u, t', o := Last(ts), [], Ignored;
    if u == t {
      t', o := LoudStep(u, org, item);
    } else {
      t', o := StepExists(u, org, item);
    }
    StepAdvances(u, t', org, item, o);
    ImportSnoc(ts, t', org, items, item, outs, o);
    ts, outs := ts + [t'], outs + [o];
  }

  lemma LoudRun(t: Table, org: nat, items: seq<Item>, k: nat) returns (ts: seq<Table>, outs: seq<RowOutcome>)
    requires AllValid(items) && k < |items| && !Quiet(t, org, items[k].fields)
    ensures Import(ts, org, items, outs) && ts[0] == t && Last(ts) != t
  {
    var before, after := items[..k] + [items[k]], items[k + 1..];
    ts, outs := LoudPrefix(t, org, items[..k], items[k]);
    RunAdvances(ts, org, before, outs);
    var us, rest := RunExists(Last(ts), org, after);
    RunAdvances(us, org, after, rest);
    ImportAppend(ts, us, org, before, after, outs, rest);
    assert before + after == items;
    ts, outs := ts + us[1..], outs + rest;
  }

  // An import leaves a table alone, whatever ties it picks, exactly when no line has anything
  // to create or to fill in that table. Taken at the table a first run left behind, this says
  // when the import is idempotent.
  lemma ImportLeavesAloneIff(t: Table, org: nat, items: seq<Item>)
    requires AllValid(items)
    ensures LeavesAlone(t, org, items) <==> AllQuiet(t, org, items)
  {
    if AllQuiet(t, org, items) {
      forall ts, outs | Import(ts, org, items, outs) && ts[0] == t
        ensures Last(ts) == t
      {
        QuietRun(ts, org, items, outs);
      }
    } else {
      var k :| 0 <= k < |items| && !Quiet(t, org, items[k].fields);
      var ts, outs := LoudRun(t, org, items, k);
    }
  }

  // A blank of some customer the line may be matched with is still to be filled.
  ghost predicate MayFill(t: Table, org: nat, fields: Fields) {
    Named(fields) && exists i | 0 <= i < |t| :: IsDuplicate(t, org, fields, i) && Fillable(t[i].values, fields)
  }

  // With a trimmed key on every named line, the second import changes something exactly when
  // after the first some line may still fill a blank.
  lemma SecondImportIdempotentIff(ts: seq<Table>, org: nat, items: seq<Item>, outs: seq<RowOutcome>)
    requires Import(ts, org, items, outs)
    requires forall k | 0 <= k < |items| && Named(items[k].fields) :: Findable(items[k].fields)
    ensures LeavesAlone(Last(ts), org, items) <==>
            forall k | 0 <= k < |items| :: !MayFill(Last(ts), org, items[k].fields)
  {
    RunSettles(ts, org, items, outs);
    ImportLeavesAloneIff(Last(ts), org, items);
    forall k | 0 <= k < |items|
      ensures Quiet(Last(ts), org, items[k].fields) <==> !MayFill(Last(ts), org, items[k].fields)
    {
      assert Settled(Last(ts), org, items[k].fields);
    }
  }

  // No import of any of these lines, in any order, creates a customer in the table.
  ghost predicate CreatesNothing(t: Table, org: nat, items: seq<Item>) {
    forall ts, again, outs | Import(ts, org, again, outs) && ts[0] == t
        && (forall j | 0 <= j < |again| :: again[j] in items) ::
      CountCreated(outs) == 0
  }

  lemma SettledCreatesNothing(ts: seq<Table>, org: nat, items: seq<Item>, again: seq<Item>, outs: seq<RowOutcome>)
    requires Import(ts, org, again, outs) && AllSettled(ts[0], org, items)
    requires forall j | 0 <= j < |again| :: again[j] in items
    ensures CountCreated(outs) == 0
  {
    forall j | 0 <= j < |again|
      ensures Settled(ts[0], org, again[j].fields)
    {
      var k :| 0 <= k < |items| && items[k] == again[j];
    }
    SettledRunCreatesNothing(ts, org, again, outs);
  }

  lemma UnsettledLineCreates(t: Table, org: nat, item: Item) returns (ts: seq<Table>, outs: seq<RowOutcome>)
    requires ValidFields(item.fields) && !Settled(t, org, item.fields)
    ensures Import(ts, org, [item], outs) && ts[0] == t && CountCreated(outs) == 1
  {
    var t', o := CreateOrFail(t, org, item);
    EmptyImport(t, org);
    ImportSnoc([t], t', org, [], item, [], o);
    assert [] + [item] == [item] && [] + [o] == [o];
    ts, outs := [t] + [t'], [o];
    assert outs[..0] == [];
  }

  // Re-running creates no duplicate exactly when every line finds its customer in the table,
  // or no code can be drawn for one.
  lemma CreatesNothingIff(t: Table, org: nat, items: seq<Item>)
    requires AllValid(items)
    ensures CreatesNothing(t, org, items) <==> AllSettled(t, org, items)
  {
    if AllSettled(t, org, items) {
      forall ts, again, outs | Import(ts, org, again, outs) && ts[0] == t && forall j | 0 <= j < |again| ::
          again[j] in items
        ensures CountCreated(outs) == 0
      {
        SettledCreatesNothing(ts, org, items, again, outs);
      }
    } else {
      var k :| 0 <= k < |items| && !Settled(t, org, items[k].fields);
      var ts, outs := UnsettledLineCreates(t, org, items[k]);
      assert forall j | 0 <= j < |[items[k]]| :: [items[k]][j] in items;
    }
  }
}
