/** Repeated imports of the same lines: updates run out after as many of them as there were
    blank fields to fill, and a fixed choice among ties reaches a table that no later run changes. */
module ImportConvergence {
  import opened Text
  import opened HeaderMap
  import opened CustomerTable
  import opened ImportProperties

  // The fields an import may still fill.
  function BlankFields(values: Fields): set<Field> {
    set f: Field | f != ClientName && Blank(values, f)
  }

  function Blanks(t: Table): nat {
    if t == [] then 0 else Blanks(t[..|t| - 1]) + |BlankFields(Last(t).values)|
  }

  lemma {:induction false} BlanksAfterUpdate(t: Table, i: nat, row: CustomerRow)
    requires i < |t|
    ensures Blanks(t[i := row]) == Blanks(t) - |BlankFields(t[i].values)| + |BlankFields(row.values)|
  {
    var n := |t| - 1;
    if i < n {
      BlanksAfterUpdate(t[..n], i, row);
      assert t[i := row][..n] == t[..n][i := row];
    } else {
      assert t[i := row][..n] == t[..n];
    }
  }

  lemma SubsetSmaller<T>(a: set<T>, b: set<T>)
    requires a < b
    ensures |a| < |b|
  {
    assert b == a + (b - a);
    assert |b - a| > 0;
  }

  lemma FillShrinksBlanks(values: Fields, fields: Fields)
    requires Fillable(values, fields) && ValidFields(fields)
    ensures |BlankFields(Fill(values, fields))| < |BlankFields(values)|
  {
    var f :| f in fields && f != ClientName && Blank(values, f);
    assert f in BlankFields(values) && f !in BlankFields(Fill(values, fields));
    SubsetSmaller(BlankFields(Fill(values, fields)), BlankFields(values));
  }

  lemma StepShrinksBlanks(t: Table, t': Table, org: nat, item: Item, o: RowOutcome)
    requires RowStep(t, t', org, item, o) && ValidFields(item.fields) && !o.Created?
    ensures Blanks(t') + (if o.Updated? then 1 else 0) <= Blanks(t)
    ensures o.Updated? <==> t' != t
  {
    if o.Updated? {
      var row := t[o.at].(values := Fill(t[o.at].values, item.fields));
      BlanksAfterUpdate(t, o.at, row);
      FillShrinksBlanks(t[o.at].values, item.fields);
    }
  }

  // A run that creates nothing fills at least one blank per update it reports, and reports
  // no update exactly when it leaves the table alone.
  lemma {:induction false} RunShrinksBlanks(ts: seq<Table>, org: nat, items: seq<Item>, outs: seq<RowOutcome>)
    requires Import(ts, org, items, outs) && CountCreated(outs) == 0
    ensures Blanks(Last(ts)) + CountUpdated(outs) <= Blanks(ts[0])
    ensures CountUpdated(outs) == 0 <==> Last(ts) == ts[0]
  {
    if |items| > 0 {
      var n := |items| - 1;
      ImportPrefix(ts, org, items, outs, n);
      RunShrinksBlanks(ts[..n + 1], org, items[..n], outs[..n]);
      StepShrinksBlanks(ts[n], ts[n + 1], org, items[n], outs[n]);
    }
  }

  // ---------------------------------------------------------------- any sequence of re-runs

  datatype Rerun = Rerun(ts: seq<Table>, outs: seq<RowOutcome>)

  ghost function TableAfter(rs: seq<Rerun>, t: Table): Table {
    if rs == [] || Last(rs).ts == [] then t else Last(Last(rs).ts)
  }

  // Re-runs over the same lines, each starting where the previous one ended.
  ghost predicate Reruns(rs: seq<Rerun>, t: Table, org: nat, items: seq<Item>) {
    rs != [] ==>
      var n := |rs| - 1;
      && Reruns(rs[..n], t, org, items)
      && Import(rs[n].ts, org, items, rs[n].outs)
      && rs[n].ts[0] == TableAfter(rs[..n], t)
  }

  function TotalUpdated(rs: seq<Rerun>): nat {
    if rs == [] then 0 else TotalUpdated(rs[..|rs| - 1]) + CountUpdated(Last(rs).outs)
  }

  lemma SettledRunShrinksBlanks(ts: seq<Table>, org: nat, items: seq<Item>, outs: seq<RowOutcome>)
    requires Import(ts, org, items, outs) && AllSettled(ts[0], org, items)
    ensures AllSettled(Last(ts), org, items) && CountCreated(outs) == 0
    ensures Blanks(Last(ts)) + CountUpdated(outs) <= Blanks(ts[0])
    ensures CountUpdated(outs) == 0 <==> Last(ts) == ts[0]
  {
    SettledRunCreatesNothing(ts, org, items, outs);
    RunShrinksBlanks(ts, org, items, outs);
  }

  lemma {:induction false} RerunsShrinkBlanks(rs: seq<Rerun>, t: Table, org: nat, items: seq<Item>)
    requires Reruns(rs, t, org, items) && AllSettled(t, org, items)
    ensures AllSettled(TableAfter(rs, t), org, items)
    ensures Blanks(TableAfter(rs, t)) + TotalUpdated(rs) <= Blanks(t)
  {
    if rs != [] {
      var n := |rs| - 1;
      RerunsShrinkBlanks(rs[..n], t, org, items);
      SettledRunShrinksBlanks(rs[n].ts, org, items, rs[n].outs);
    }
  }

  // Each of the re-runs is one of the runs the relation allows and creates nothing.
  lemma {:induction false} EachRerunQuiet(rs: seq<Rerun>, t: Table, org: nat, items: seq<Item>, r: nat)
    requires Reruns(rs, t, org, items) && AllSettled(t, org, items) && r < |rs|
    ensures rs[r].ts != [] && (CountUpdated(rs[r].outs) == 0 <==> Last(rs[r].ts) == rs[r].ts[0])
  {
    var n := |rs| - 1;
    if r == n {
      RerunsShrinkBlanks(rs[..n], t, org, items);
      SettledRunShrinksBlanks(rs[n].ts, org, items, rs[n].outs);
    } else {
      EachRerunQuiet(rs[..n], t, org, items, r);
    }
  }

  lemma {:induction false} BusyRerunsCount(rs: seq<Rerun>)
    requires forall r | 0 <= r < |rs| :: CountUpdated(rs[r].outs) > 0
    ensures |rs| <= TotalUpdated(rs)
  {
    if rs != [] {
      BusyRerunsCount(rs[..|rs| - 1]);
    }
  }

  // Once every keyed line has been imported, all re-runs together update at most as often
  // as there were blank fields left, whatever ties they pick; so among more re-runs than
  // that, one changes nothing.
  lemma RerunUpdatesAreBounded(
    ts: seq<Table>, outs: seq<RowOutcome>, rs: seq<Rerun>, org: nat, items: seq<Item>)
    requires Import(ts, org, items, outs) && Reruns(rs, Last(ts), org, items)
    requires forall k | 0 <= k < |items| && Named(items[k].fields) :: Findable(items[k].fields)
    ensures TotalUpdated(rs) <= Blanks(Last(ts))
    ensures |rs| > Blanks(Last(ts)) ==> exists r | 0 <= r < |rs| :: rs[r].ts != [] && Last(rs[r].ts) == rs[r].ts[0]
  {
    RunSettles(ts, org, items, outs);
    RerunsShrinkBlanks(rs, Last(ts), org, items);
    if |rs| > Blanks(Last(ts)) {
      if forall r | 0 <= r < |rs| :: CountUpdated(rs[r].outs) > 0 {
        BusyRerunsCount(rs);
      }
      var r :| 0 <= r < |rs| && CountUpdated(rs[r].outs) == 0;
      EachRerunQuiet(rs, Last(ts), org, items, r);
    }
  }

  // ---------------------------------------------------------------- a fixed choice converges

  // How the database breaks ties, as a function of the table and the line.
  type Picker = (Table, Fields) -> nat

  ghost predicate Picks(pick: Picker, org: nat) {
    forall t, fields :: !NoDuplicate(t, org, fields) ==> IsDuplicate(t, org, fields, pick(t, fields))
  }

  ghost function OutcomeOf(t: Table, org: nat, item: Item, pick: Picker): RowOutcome {
    if !Named(item.fields) then Ignored
    else if NoDuplicate(t, org, item.fields) then (if NextSeq(t, org).Some? then Created else Failed)
    else
      var i := pick(t, item.fields);
      if i < |t| && Fillable(t[i].values, item.fields) then Updated(i) else Skipped(i)
  }

  ghost function ApplyRow(t: Table, org: nat, item: Item, pick: Picker): Table {
    match OutcomeOf(t, org, item, pick)
    case Created => t + [NewRow(org, NextSeq(t, org).value, item)]
    case Updated(i) => t[i := t[i].(values := Fill(t[i].values, item.fields))]
    case _ => t
  }

  ghost function PassTables(t: Table, org: nat, items: seq<Item>, pick: Picker): (ts: seq<Table>)
    ensures |ts| == |items| + 1 && ts[0] == t
  {
    if items == [] then [t]
    else
      var n := |items| - 1;
      var ts := PassTables(t, org, items[..n], pick);
      ts + [ApplyRow(Last(ts), org, items[n], pick)]
  }

  ghost function PassOutcomes(t: Table, org: nat, items: seq<Item>, pick: Picker): (outs: seq<RowOutcome>)
    ensures |outs| == |items|
  {
    if items == [] then []
    else
      var n := |items| - 1;
      PassOutcomes(t, org, items[..n], pick)
      + [OutcomeOf(Last(PassTables(t, org, items[..n], pick)), org, items[n], pick)]
  }

  ghost function Pass(t: Table, org: nat, items: seq<Item>, pick: Picker): Table {
    Last(PassTables(t, org, items, pick))
  }

  ghost function Passes(t: Table, org: nat, items: seq<Item>, pick: Picker, n: nat): Table
    decreases n
  {
    if n == 0 then t else Passes(Pass(t, org, items, pick), org, items, pick, n - 1)
  }

  ghost predicate AllValid(items: seq<Item>) {
    forall k | 0 <= k < |items| :: ValidFields(items[k].fields)
  }

  lemma ApplyRowIsStep(t: Table, org: nat, item: Item, pick: Picker)
    requires Picks(pick, org)
    ensures RowStep(t, ApplyRow(t, org, item, pick), org, item, OutcomeOf(t, org, item, pick))
  {
    assert !NoDuplicate(t, org, item.fields) ==> IsDuplicate(t, org, item.fields, pick(t, item.fields));
  }

  lemma PassStep(ts: seq<Table>, org: nat, items: seq<Item>, item: Item, outs: seq<RowOutcome>, pick: Picker)
    requires Picks(pick, org) && Import(ts, org, items, outs) && ValidFields(item.fields)
    ensures Import(ts + [ApplyRow(Last(ts), org, item, pick)], org, items + [item],
                   outs + [OutcomeOf(Last(ts), org, item, pick)])
  {
    ApplyRowIsStep(Last(ts), org, item, pick);
    ImportSnoc(ts, ApplyRow(Last(ts), org, item, pick), org, items, item, outs, OutcomeOf(Last(ts), org, item, pick));
  }

  // The function above is one of the runs the relation allows.
  lemma {:induction false} PassIsImport(t: Table, org: nat, items: seq<Item>, pick: Picker)
    requires Picks(pick, org) && AllValid(items)
    ensures Import(PassTables(t, org, items, pick), org, items, PassOutcomes(t, org, items, pick))
  {
    if items == [] {
      EmptyImport(t, org);
    } else {
      var n := |items| - 1;
      var ts, outs := PassTables(t, org, items[..n], pick), PassOutcomes(t, org, items[..n], pick);
      PassIsImport(t, org, items[..n], pick);
      PassStep(ts, org, items[..n], items[n], outs, pick);
      assert items[..n] + [items[n]] == items;
    }
  }

  lemma PassSettled(t: Table, org: nat, items: seq<Item>, pick: Picker)
    requires Picks(pick, org) && AllValid(items) && AllSettled(t, org, items)
    ensures AllSettled(Pass(t, org, items, pick), org, items)
    ensures Pass(t, org, items, pick) == t || Blanks(Pass(t, org, items, pick)) < Blanks(t)
  {
    PassIsImport(t, org, items, pick);
    SettledRunShrinksBlanks(PassTables(t, org, items, pick), org, items, PassOutcomes(t, org, items, pick));
  }

  lemma {:induction false} SettledConverges(t: Table, org: nat, items: seq<Item>, pick: Picker) returns (n: nat)
    requires Picks(pick, org) && AllValid(items) && AllSettled(t, org, items)
    ensures n <= Blanks(t)
    ensures Pass(Passes(t, org, items, pick, n), org, items, pick) == Passes(t, org, items, pick, n)
    decreases Blanks(t)
  {
    var next := Pass(t, org, items, pick);
    PassSettled(t, org, items, pick);
    if next == t {
      n := 0;
    } else {
      n := SettledConverges(next, org, items, pick);
      n := n + 1;
    }
  }

  lemma {:induction false} FixedForever(t: Table, org: nat, items: seq<Item>, pick: Picker, m: nat)
    requires Pass(t, org, items, pick) == t
    ensures Passes(t, org, items, pick, m) == t
    decreases m
  {
    if m > 0 {
      FixedForever(t, org, items, pick, m - 1);
    }
  }

  lemma {:induction false} PassesAdd(t: Table, org: nat, items: seq<Item>, pick: Picker, n: nat, m: nat)
    ensures Passes(t, org, items, pick, n + m) == Passes(Passes(t, org, items, pick, n), org, items, pick, m)
    decreases n
  {
    if n > 0 {
      PassesAdd(Pass(t, org, items, pick), org, items, pick, n - 1, m);
    }
  }

  // With ties broken the same way every time, the table stops changing after the first run
  // plus at most as many re-runs as it left blank fields, and never changes again.
  lemma ImportConverges(t: Table, org: nat, items: seq<Item>, pick: Picker) returns (n: nat)
    requires Picks(pick, org) && AllValid(items)
    requires forall k | 0 <= k < |items| && Named(items[k].fields) :: Findable(items[k].fields)
    ensures n <= Blanks(Pass(t, org, items, pick))
    ensures forall m | m >= n + 1 :: Passes(t, org, items, pick, m) == Passes(t, org, items, pick, n + 1)
  {
    PassIsImport(t, org, items, pick);
    RunSettles(PassTables(t, org, items, pick), org, items, PassOutcomes(t, org, items, pick));
    var first := Pass(t, org, items, pick);
    n := SettledConverges(first, org, items, pick);
    forall m | m >= n + 1
      ensures Passes(t, org, items, pick, m) == Passes(t, org, items, pick, n + 1)
    {
      var fixed := Passes(first, org, items, pick, n);
      PassesAdd(first, org, items, pick, n, m - 1 - n);
      FixedForever(fixed, org, items, pick, m - 1 - n);
    }
  }
}
