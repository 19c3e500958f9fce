/** What holds of every run of the register import, whatever the rows, the table it starts
    from, and the choices made among equally good matches. */
module ImportProperties {
  import opened Text
  import opened HeaderMap
  import opened CustomerTable

  // ---------------------------------------------------------------- nothing is lost

  ghost predicate RowKept(a: CustomerRow, b: CustomerRow) {
    && a.org == b.org && a.code == b.code && a.ctype == b.ctype
    && Lookup(a.values, ClientName) == Lookup(b.values, ClientName)
    && forall f | !Blank(a.values, f) :: Lookup(b.values, f) == Some(a.values[f])
  }

  // Every customer is still there, with its code, type, name and every non-blank field;
  // customers of other organizations are untouched and the new rows belong to `org`.
  ghost predicate Kept(t: Table, t': Table, org: nat) {
    && |t| <= |t'|
    && (forall i | 0 <= i < |t| :: RowKept(t[i], t'[i]))
    && (forall i | 0 <= i < |t| && t[i].org != org :: t'[i] == t[i])
    && (forall i | |t| <= i < |t'| :: t'[i].org == org)
  }

  lemma StepKeeps(t: Table, t': Table, org: nat, item: Item, o: RowOutcome)
    requires RowStep(t, t', org, item, o)
    ensures Kept(t, t', org)
    ensures |t'| == |t| + (if o.Created? then 1 else 0)
  {
  }

  lemma KeptTransitive(a: Table, b: Table, c: Table, org: nat)
    requires Kept(a, b, org) && Kept(b, c, org)
    ensures Kept(a, c, org)
  {
    forall i | 0 <= i < |a|
      ensures RowKept(a[i], c[i])
    {
      assert RowKept(a[i], b[i]) && RowKept(b[i], c[i]);
    }
  }

  // From any line of a run to its end.
  lemma {:induction false} RunKeepsFrom(ts: seq<Table>, org: nat, items: seq<Item>, outs: seq<RowOutcome>, k: nat)
    requires Import(ts, org, items, outs) && k <= |items|
    ensures Kept(ts[k], Last(ts), org)
    decreases |items| - k
  {
    if k < |items| {
      StepKeeps(ts[k], ts[k + 1], org, items[k], outs[k]);
      RunKeepsFrom(ts, org, items, outs, k + 1);
      KeptTransitive(ts[k], ts[k + 1], Last(ts), org);
    }
  }

  // A run removes nobody, rewrites nothing, and adds exactly the rows it counts as created.
  lemma {:induction false} RunKeeps(ts: seq<Table>, org: nat, items: seq<Item>, outs: seq<RowOutcome>)
    requires Import(ts, org, items, outs)
    ensures Kept(ts[0], Last(ts), org)
    ensures |Last(ts)| == |ts[0]| + CountCreated(outs)
  {
    RunKeepsFrom(ts, org, items, outs, 0);
    if |items| > 0 {
      var n := |items| - 1;
      ImportPrefix(ts, org, items, outs, n);
      RunKeeps(ts[..n + 1], org, items[..n], outs[..n]);
      StepKeeps(ts[n], ts[n + 1], org, items[n], outs[n]);
    }
  }

  // ---------------------------------------------------------------- re-importing

  // The row carries a dedup key that its own lookup can find again.
  predicate Findable(fields: Fields) {
    exists k | 0 <= k < |KEYS| :: !Blank(fields, KEYS[k]) && Trimmed(fields[KEYS[k]])
  }

  // This row will not be created from this table on.
  ghost predicate Settled(t: Table, org: nat, fields: Fields) {
    Named(fields) ==> !NoDuplicate(t, org, fields) || NextSeq(t, org).None?
  }

  // A key never matches a blank column.
  lemma KeyMatchNonBlank(row: CustomerRow, org: nat, f: Field, fields: Fields)
    requires KeyMatch(row, org, f, fields) && ValidFields(fields)
    ensures !Blank(row.values, f)
  {
    StripNonBlank(fields[f]);
    assert |Lower(row.values[f])| == |row.values[f]|;
  }

  lemma SettledPersists(t: Table, t': Table, org: nat, fields: Fields)
    requires Settled(t, org, fields) && Kept(t, t', org) && ValidFields(fields)
    ensures Settled(t', org, fields)
  {
    if Named(fields) && !NoDuplicate(t, org, fields) {
      var k :| 0 <= k < |KEYS| && HasMatch(t, org, KEYS[k], fields);
      var i :| 0 <= i < |t| && KeyMatch(t[i], org, KEYS[k], fields);
      KeyMatchNonBlank(t[i], org, KEYS[k], fields);
      assert RowKept(t[i], t'[i]);
      assert KeyMatch(t'[i], org, KEYS[k], fields);
    } else if Named(fields) {
      var i :| 0 <= i < |t| && t[i].org == org && !Castable(t[i].code);
      assert RowKept(t[i], t'[i]);
    }
  }

  // A row just created is matched by its own key exactly when the row is findable.
  lemma CreatedMatchesItself(t: Table, t': Table, org: nat, item: Item)
    requires RowStep(t, t', org, item, Created) && ValidFields(item.fields)
    ensures NoDuplicate(t', org, item.fields) <==> !Findable(item.fields)
  {
    var n := |t|;
    forall k | 0 <= k < |KEYS|
      ensures HasMatch(t', org, KEYS[k], item.fields) <==>
              !Blank(item.fields, KEYS[k]) && Trimmed(item.fields[KEYS[k]])
    {
      assert !HasMatch(t, org, KEYS[k], item.fields);
      assert HasMatch(t', org, KEYS[k], item.fields) <==> KeyMatch(t'[n], org, KEYS[k], item.fields);
      if !Blank(item.fields, KEYS[k]) {
        LowerStripMatches(item.fields[KEYS[k]]);
      }
    }
  }

  lemma StepSettles(t: Table, t': Table, org: nat, item: Item, o: RowOutcome)
    requires RowStep(t, t', org, item, o) && ValidFields(item.fields)
    requires Named(item.fields) ==> Findable(item.fields)
    ensures Settled(t', org, item.fields)
  {
    match o
    case Ignored =>
    case Failed =>
    case Created => CreatedMatchesItself(t, t', org, item);
    case Updated(i) => StepKeeps(t, t', org, item, o); SettledPersists(t, t', org, item.fields);
    case Skipped(i) =>
  }

  ghost predicate AllSettled(t: Table, org: nat, items: seq<Item>) {
    forall k | 0 <= k < |items| :: Settled(t, org, items[k].fields)
  }

  // After one run every line is settled, for good.
  lemma RunSettles(ts: seq<Table>, org: nat, items: seq<Item>, outs: seq<RowOutcome>)
    requires Import(ts, org, items, outs)
    requires forall k | 0 <= k < |items| && Named(items[k].fields) :: Findable(items[k].fields)
    ensures AllSettled(Last(ts), org, items)
  {
    forall k | 0 <= k < |items|
      ensures Settled(Last(ts), org, items[k].fields)
    {
      StepSettles(ts[k], ts[k + 1], org, items[k], outs[k]);
      RunKeepsFrom(ts, org, items, outs, k + 1);
      SettledPersists(ts[k + 1], Last(ts), org, items[k].fields);
    }
  }

  lemma {:induction false} SettledRunCreatesNothing(ts: seq<Table>, org: nat, items: seq<Item>, outs: seq<RowOutcome>)
    requires Import(ts, org, items, outs) && AllSettled(ts[0], org, items)
    ensures CountCreated(outs) == 0 && AllSettled(Last(ts), org, items)
  {
    forall k | 0 <= k < |items|
      ensures Settled(Last(ts), org, items[k].fields)
    {
      RunKeepsFrom(ts, org, items, outs, 0);
      SettledPersists(ts[0], Last(ts), org, items[k].fields);
    }
    if |items| > 0 {
      var n := |items| - 1;
      ImportPrefix(ts, org, items, outs, n);
      SettledRunCreatesNothing(ts[..n + 1], org, items[..n], outs[..n]);
      RunKeepsFrom(ts[..n + 1], org, items[..n], outs[..n], 0);
      SettledPersists(ts[0], ts[n], org, items[n].fields);
      assert RowStep(ts[n], ts[n + 1], org, items[n], outs[n]);
    }
  }

  // Re-running the import never creates a customer, provided every named line has a trimmed
  // key: the second run may come after any other change that keeps the table, and may take
  // the lines in any order and choose any of the tied matches.
  lemma ReimportCreatesNothing(
    ts: seq<Table>, us: seq<Table>, org: nat,
    items: seq<Item>, again: seq<Item>, outs: seq<RowOutcome>, outs': seq<RowOutcome>)
    requires Import(ts, org, items, outs) && Import(us, org, again, outs')
    requires Kept(Last(ts), us[0], org)
    requires forall k | 0 <= k < |items| && Named(items[k].fields) :: Findable(items[k].fields)
    requires forall j | 0 <= j < |again| && Named(again[j].fields) :: again[j] in items
    ensures CountCreated(outs') == 0
  {
    RunSettles(ts, org, items, outs);
    forall j | 0 <= j < |again|
      ensures Settled(us[0], org, again[j].fields)
    {
      if Named(again[j].fields) {
        var k :| 0 <= k < |items| && items[k] == again[j];
        SettledPersists(Last(ts), us[0], org, items[k].fields);
      }
    }
    SettledRunCreatesNothing(us, org, again, outs');
  }

  // Exactly when a line, just created, is created once more by the next run.
  lemma CreatedAgainIffNotFindable(t: Table, t': Table, org: nat, item: Item)
    requires RowStep(t, t', org, item, Created) && ValidFields(item.fields)
    ensures (exists t'' :: RowStep(t', t'', org, item, Created))
            <==> !Findable(item.fields) && NextSeq(t', org).Some?
  {
    CreatedMatchesItself(t, t', org, item);
    if !Findable(item.fields) && NextSeq(t', org).Some? {
      var t'' := t' + [NewRow(org, NextSeq(t', org).value, item)];
      assert RowStep(t', t'', org, item, Created);
    }
  }
}
