/** The register importer itself: customers as mutable rows, the repository that looks them
    up, and the loop that upserts one register line after another. */
module CustomerImport {
  import opened Text
  import opened HeaderMap
  import opened Numbering
  import opened CustomerTable

  // ---------------------------------------------------------------- cells to fields

  // A parsed date, as the eight digits of its ISO form.
  type DateText = s: string | |s| == 8 && AllDigits(s) witness "00000000"

  // A data row: its headers in sheet order and their cells.
  datatype RawRow = RawRow(keys: seq<string>, cells: map<string, string>)

  // Column widths of the customers table; the address lines and remarks are unbounded.
  function MaxLen(f: Field): Option<nat> {
    match f
    case ClientName | BusinessName | ProprietorName | Email => Some(255)
    case MobileNumber | AlternateMobile => Some(40)
    case GstNumber | PanNumber | AadhaarNumber => Some(20)
    case City | State => Some(120)
    case Pincode => Some(12)
    case _ => None
  }

  function Cap(f: Field, text: string): string {
    match MaxLen(f)
    case Some(cap) => if |text| > cap then text[..cap] else text
    case None => text
  }

  function CellValue(f: Field, raw: string, dates: string -> Option<DateText>): Option<string> {
    if raw == "" then None
    else if f == DateOfBirth then
      match dates(raw)
      case Some(d) => Some(d)
      case None => None
    else
      var text := Strip(raw);
      if text == "" then None else Some(Cap(f, if f == Email then Lower(text) else text))
  }

  function Cell(row: RawRow, header: string): string {
    if header in row.cells then row.cells[header] else ""
  }

  function FieldsOf(row: RawRow, mapping: map<Field, string>, dates: string -> Option<DateText>): Fields {
    map f | f in mapping && CellValue(f, Cell(row, mapping[f]), dates).Some? ::
      CellValue(f, Cell(row, mapping[f]), dates).value
  }

  method RowToFields(row: RawRow, mapping: map<Field, string>, dates: string -> Option<DateText>)
    returns (fields: Fields)
    ensures fields == FieldsOf(row, mapping, dates)
  {
    fields := map[];
    var rest := mapping.Keys;
    while rest != {}
      invariant rest <= mapping.Keys
      invariant fields == map f | f in mapping.Keys - rest && CellValue(f, Cell(row, mapping[f]), dates).Some? ::
                            CellValue(f, Cell(row, mapping[f]), dates).value
      decreases rest
    {
      var f :| f in rest;
      rest := rest - {f};
      match CellValue(f, Cell(row, mapping[f]), dates)
      case None =>
      case Some(v) => fields := fields[f := v];
    }
  }

  // A cell's value is visible from its first character on and fits its column.
  lemma CellValueFits(f: Field, raw: string, dates: string -> Option<DateText>)
    requires CellValue(f, raw, dates).Some?
    ensures var v := CellValue(f, raw, dates).value;
            && v != "" && !IsSpace(v[0]) && (MaxLen(f).Some? ==> |v| <= MaxLen(f).value)
            && (f == Email ==> Lower(v) == v)
  {
    var v := CellValue(f, raw, dates).value;
    if f == DateOfBirth {
      assert IsDigit(v[0]);
    } else {
      StripFacts(raw);
    }
  }

  // Mapped values are never blank, start with a visible character and fit their columns, so
  // the database has no length to object to; e-mail addresses are in lower case.
  lemma FieldsOfValid(row: RawRow, mapping: map<Field, string>, dates: string -> Option<DateText>)
    ensures ValidFields(FieldsOf(row, mapping, dates))
    ensures forall f | f in FieldsOf(row, mapping, dates) && MaxLen(f).Some? ::
              |FieldsOf(row, mapping, dates)[f]| <= MaxLen(f).value
    ensures Email in FieldsOf(row, mapping, dates) ==>
              Lower(FieldsOf(row, mapping, dates)[Email]) == FieldsOf(row, mapping, dates)[Email]
  {
    var fields := FieldsOf(row, mapping, dates);
    forall f | f in fields
      ensures fields[f] != "" && !IsSpace(fields[f][0]) && (MaxLen(f).Some? ==> |fields[f]| <= MaxLen(f).value)
      ensures f == Email ==> Lower(fields[f]) == fields[f]
    {
      CellValueFits(f, Cell(row, mapping[f]), dates);
    }
  }

  // A mapped text comes out trimmed unless the cut at its column width falls behind a space:
  // the one way an imported key escapes its own lookup.
  lemma TrimmedIffCutClean(f: Field, raw: string, dates: string -> Option<DateText>)
    requires f != DateOfBirth && CellValue(f, raw, dates).Some?
    ensures Trimmed(CellValue(f, raw, dates).value) <==>
            !(MaxLen(f).Some? && |Strip(raw)| > MaxLen(f).value && IsSpace(Strip(raw)[MaxLen(f).value - 1]))
  {
    StripFacts(raw);
  }

  // ---------------------------------------------------------------- rows and repository

  class Customer {
    const org: nat
    const code: string
    const ctype: CustomerType
    var values: Fields

    constructor (org: nat, code: string, ctype: CustomerType, values: Fields)
      ensures Row() == CustomerRow(org, code, ctype, values)
    {
      this.org, this.code, this.ctype, this.values := org, code, ctype, values;
    }

    function Row(): CustomerRow
      reads this
    {
      CustomerRow(org, code, ctype, values)
    }

    // Fill the blank fields, one after another; the name is never touched.
    method FillBlanks(fields: Fields) returns (changed: bool)
      modifies this
      ensures values == Fill(old(values), fields)
      ensures changed == Fillable(old(values), fields)
    {
      changed := false;
      ghost var before, done: Fields := values, map[];
      var rest := fields.Keys;
      while rest != {}
        invariant done.Keys == fields.Keys - rest && forall f | f in done :: done[f] == fields[f]
        invariant values == Fill(before, done) && changed == Fillable(before, done)
        decreases rest
      {
        var f :| f in rest;
        FillOneMore(before, done, f, fields[f]);
        done := done[f := fields[f]];
        rest := rest - {f};
        if f != ClientName && Blank(values, f) {
          values := values[f := fields[f]];
          changed := true;
        }
      }
      assert done == fields;
    }
  }

  lemma FillLookup(values: Fields, fields: Fields, f: Field)
    ensures Lookup(Fill(values, fields), f)
         == if f in fields && f != ClientName && Blank(values, f) then Some(fields[f]) else Lookup(values, f)
  {
  }

  // Filling one more field is filling all of them.
  lemma FillOneMore(before: Fields, done: Fields, f: Field, v: string)
    requires f !in done
    ensures Blank(Fill(before, done), f) <==> Blank(before, f)
    ensures Fill(before, done[f := v])
         == if f != ClientName && Blank(before, f) then Fill(before, done)[f := v] else Fill(before, done)
    ensures Fillable(before, done[f := v]) <==> Fillable(before, done) || (f != ClientName && Blank(before, f))
  {
    FillLookup(before, done, f);
    var more := if f != ClientName && Blank(before, f) then Fill(before, done)[f := v] else Fill(before, done);
    forall g
      ensures Lookup(Fill(before, done[f := v]), g) == Lookup(more, g)
    {
      FillLookup(before, done, g);
      FillLookup(before, done[f := v], g);
    }
    SameLookups(Fill(before, done[f := v]), more);
    FillableOneMore(before, done, f, v);
  }

  lemma FillableOneMore(before: Fields, done: Fields, f: Field, v: string)
    requires f !in done
    ensures Fillable(before, done[f := v]) <==> Fillable(before, done) || (f != ClientName && Blank(before, f))
  {
    assert f in done[f := v];
    if Fillable(before, done) {
      var g :| g in done && g != ClientName && Blank(before, g);
      assert g in done[f := v];
    }
  }

  class CustomerRepository {
    var customers: seq<Customer>

    constructor ()
      ensures Valid() && customers == []
    {
      customers := [];
    }

    ghost predicate Valid()
      reads this
    {
      forall i, j | 0 <= i < j < |customers| :: customers[i] != customers[j]
    }

    ghost function Objects(): set<object>
      reads this
    {
      set c | c in customers
    }

    ghost function Rows(): (t: Table)
      reads this, customers
      ensures |t| == |customers|
    {
      seq(|customers|, i requires 0 <= i < |customers| reads this, customers => customers[i].Row())
    }

    // Some customer matching by one key, if any: the query imposes no order.
    method FirstBy(org: nat, f: Field, fields: Fields) returns (found: Option<nat>)
      ensures found.None? <==> !HasMatch(Rows(), org, f, fields)
      ensures found.Some? ==> found.value < |customers| && KeyMatch(Rows()[found.value], org, f, fields)
    {
      if i :| 0 <= i < |customers| && KeyMatch(customers[i].Row(), org, f, fields) {
        assert Rows()[i] == customers[i].Row();
        return Some(i);
      }
      assert forall i | 0 <= i < |customers| :: Rows()[i] == customers[i].Row();
      return None;
    }

    method FindDuplicate(org: nat, fields: Fields) returns (found: Option<nat>)
      ensures found.None? <==> NoDuplicate(Rows(), org, fields)
      ensures found.Some? ==> found.value < |customers| && IsDuplicate(Rows(), org, fields, found.value)
    {
      for k := 0 to |KEYS|
        invariant forall j | 0 <= j < k :: !HasMatch(Rows(), org, KEYS[j], fields)
      {
        found := FirstBy(org, KEYS[k], fields);
        if found.Some? {
          assert MatchedBy(Rows(), org, fields, k, found.value);
          return;
        }
      }
      found := None;
    }

    method NextCodeSequence(org: nat) returns (next: Option<nat>)
      ensures next == NextSeq(Rows(), org)
    {
      var codes := set c | c in customers && c.org == org :: c.code;
      CodesOfRows(org);
      if exists c | c in codes :: !Castable(c) {
        return None;
      }
      var highest := HighestSuffix(CustomerCode, codes);
      return Some(highest + 1);
    }

    lemma CodesOfRows(org: nat)
      ensures CodesOf(Rows(), org) == set c | c in customers && c.org == org :: c.code
      ensures AllCastable(Rows(), org) <==> forall c | c in customers && c.org == org :: Castable(c.code)
    {
      var t := Rows();
      assert forall i | 0 <= i < |t| :: t[i] == customers[i].Row();
      forall c | c in customers
        ensures exists i | 0 <= i < |t| :: t[i].org == c.org && t[i].code == c.code
      {
        var i :| 0 <= i < |customers| && customers[i] == c;
        assert t[i].org == c.org && t[i].code == c.code;
      }
    }

    method FillAt(i: nat, fields: Fields) returns (changed: bool)
      requires Valid() && i < |customers|
      modifies customers[i]
      ensures Valid() && changed == Fillable(old(Rows())[i].values, fields)
      ensures Rows() == old(Rows())[i := old(Rows())[i].(values := Fill(old(Rows())[i].values, fields))]
    {
      ghost var t := Rows();
      assert t[i] == customers[i].Row();
      changed := customers[i].FillBlanks(fields);
      forall j | 0 <= j < |t|
        ensures Rows()[j] == if j == i then t[i].(values := Fill(t[i].values, fields)) else t[j]
      {
        assert Rows()[j] == customers[j].Row();
        assert j != i ==> customers[j] != customers[i];
      }
    }

    method Add(customer: Customer)
      requires customer !in customers && Valid()
      modifies this
      ensures Valid() && customers == old(customers) + [customer]
      ensures Rows() == old(Rows()) + [customer.Row()]
    {
      customers := customers + [customer];
    }
  }

  // ---------------------------------------------------------------- the import loop

  datatype ImportError =
    | NoNameColumn(ctype: CustomerType)
    | RowFailed(ctype: CustomerType, line: nat)
    | SheetUnavailable(ctype: CustomerType)

  datatype Figures = Figures(created: nat, updated: nat, skipped: nat, errors: seq<ImportError>)

  function AddFigures(a: Figures, b: Figures): Figures {
    Figures(a.created + b.created, a.updated + b.updated, a.skipped + b.skipped, a.errors + b.errors)
  }

  class ImportSummary {
    var created: nat
    var updated: nat
    var skipped: nat
    var errors: seq<ImportError>

    function Abs(): Figures
      reads this
    {
      Figures(created, updated, skipped, errors)
    }

    constructor ()
      ensures Abs() == Figures(0, 0, 0, [])
    {
      created, updated, skipped, errors := 0, 0, 0, [];
    }

    method Merge(other: ImportSummary)
      modifies this
      ensures Abs() == AddFigures(old(Abs()), old(other.Abs()))
    {
      created := created + other.created;
      updated := updated + other.updated;
      skipped := skipped + other.skipped;
      errors := errors + other.errors;
    }
  }

  // No customer matched: create one under the next code. A failing code sequence leaves the
  // table alone, every line being in a savepoint of its own.
  method CreateRow(repo: CustomerRepository, org: nat, item: Item) returns (result: RowOutcome)
    requires repo.Valid() && Named(item.fields) && NoDuplicate(repo.Rows(), org, item.fields)
    modifies repo
    ensures repo.Valid() && fresh(repo.Objects() - old(repo.Objects()))
    ensures RowStep(old(repo.Rows()), repo.Rows(), org, item, result)
  {
    var next := repo.NextCodeSequence(org);
    match next
    case None =>
      result := Failed;
    case Some(n) =>
      var customer := new Customer(org, CodeFor(n), item.ctype, item.fields);
      repo.Add(customer);
      result := Created;
  }

  // A customer matched: fill what it has blank.
  method UpdateRow(repo: CustomerRepository, org: nat, item: Item, i: nat) returns (result: RowOutcome)
    requires repo.Valid() && Named(item.fields)
    requires i < |repo.customers| && IsDuplicate(repo.Rows(), org, item.fields, i)
    modifies repo.Objects()
    ensures repo.Valid()
    ensures RowStep(old(repo.Rows()), repo.Rows(), org, item, result)
  {
    ghost var t := repo.Rows();
    var changed := repo.FillAt(i, item.fields);
    if changed {
      result := Updated(i);
    } else {
      NothingToFill(t[i].values, item.fields);
      result := Skipped(i);
    }
  }

  method ImportRow(repo: CustomerRepository, org: nat, item: Item) returns (result: RowOutcome)
    requires repo.Valid()
    modifies repo, repo.Objects()
    ensures repo.Valid() && fresh(repo.Objects() - old(repo.Objects()))
    ensures RowStep(old(repo.Rows()), repo.Rows(), org, item, result)
  {
    if Blank(item.fields, ClientName) {
      return Ignored;
    }
    var existing := repo.FindDuplicate(org, item.fields);
    match existing
    case None => result := CreateRow(repo, org, item);
    case Some(i) => result := UpdateRow(repo, org, item, i);
  }

  function ItemsOf(rows: seq<RawRow>, ctype: CustomerType, mapping: map<Field, string>,
                   dates: string -> Option<DateText>): seq<Item>
  {
    if rows == [] then []
    else ItemsOf(rows[..|rows| - 1], ctype, mapping, dates) + [Item(ctype, FieldsOf(Last(rows), mapping, dates))]
  }

  lemma ItemsOfSnoc(rows: seq<RawRow>, i: nat, ctype: CustomerType, mapping: map<Field, string>,
                    dates: string -> Option<DateText>)
    requires i < |rows|
    ensures ItemsOf(rows[..i + 1], ctype, mapping, dates)
         == ItemsOf(rows[..i], ctype, mapping, dates) + [Item(ctype, FieldsOf(rows[i], mapping, dates))]
  {
    assert rows[..i + 1][..i] == rows[..i];
  }

  function CountSkipped(outs: seq<RowOutcome>): nat {
    if outs == [] then 0 else CountSkipped(outs[..|outs| - 1]) + (if Last(outs).Skipped? then 1 else 0)
  }

  // The errors a run reports: one per line whose code sequence failed. Lines are numbered
  // from 2, below the header.
  function FailedLines(ctype: CustomerType, outs: seq<RowOutcome>): seq<ImportError> {
    if outs == [] then []
    else
      FailedLines(ctype, outs[..|outs| - 1])
      + (if Last(outs).Failed? then [RowFailed(ctype, |outs| + 1)] else [])
  }

  function KeysOf(rows: seq<RawRow>): seq<seq<string>> {
    seq(|rows|, i requires 0 <= i < |rows| => rows[i].keys)
  }

  // The figures of a run.
  function FiguresOf(ctype: CustomerType, outs: seq<RowOutcome>): Figures {
    Figures(CountCreated(outs), CountUpdated(outs), CountSkipped(outs), FailedLines(ctype, outs))
  }

  method Tally(summary: ImportSummary, ctype: CustomerType, result: RowOutcome, line: nat, ghost outs: seq<RowOutcome>)
    requires summary.Abs() == FiguresOf(ctype, outs) && line == |outs| + 2
    modifies summary
    ensures summary.Abs() == FiguresOf(ctype, outs + [result])
  {
    assert (outs + [result])[..|outs|] == outs;
    match result
    case Ignored =>
    case Created => summary.created := summary.created + 1;
    case Updated(_) => summary.updated := summary.updated + 1;
    case Skipped(_) => summary.skipped := summary.skipped + 1;
    case Failed => summary.errors := summary.errors + [RowFailed(ctype, line)];
  }

  // One line: mapped, imported and tallied.
  method ImportLine(
    repo: CustomerRepository, summary: ImportSummary, org: nat, ctype: CustomerType, row: RawRow,
    headerMap: map<Field, string>, dates: string -> Option<DateText>, line: nat, ghost outs: seq<RowOutcome>)
    returns (ghost result: RowOutcome)
    requires repo.Valid() && summary.Abs() == FiguresOf(ctype, outs) && line == |outs| + 2
    modifies repo, repo.Objects(), summary
    ensures repo.Valid() && fresh(repo.Objects() - old(repo.Objects()))
    ensures RowStep(old(repo.Rows()), repo.Rows(), org, Item(ctype, FieldsOf(row, headerMap, dates)), result)
    ensures summary.Abs() == FiguresOf(ctype, outs + [result])
  {
    var fields := RowToFields(row, headerMap, dates);
    var o := ImportRow(repo, org, Item(ctype, fields));
    Tally(summary, ctype, o, line, outs);
    result := o;
  }

  // The tables and outcomes of a run over the mapped lines.
  ghost predicate LinesRun(ts: seq<Table>, org: nat, rows: seq<RawRow>, ctype: CustomerType,
                           mapping: map<Field, string>, dates: string -> Option<DateText>,
                           outs: seq<RowOutcome>, before: Table, after: Table)
  {
    Import(ts, org, ItemsOf(rows, ctype, mapping, dates), outs) && ts[0] == before && Last(ts) == after
  }

  lemma NoLinesRun(t: Table, org: nat, ctype: CustomerType, mapping: map<Field, string>,
                   dates: string -> Option<DateText>)
    ensures LinesRun([t], org, [], ctype, mapping, dates, [], t, t)
  {
    EmptyImport(t, org);
  }

  lemma OneMoreLine(ts: seq<Table>, t: Table, org: nat, rows: seq<RawRow>, i: nat, ctype: CustomerType,
                    mapping: map<Field, string>, dates: string -> Option<DateText>, outs: seq<RowOutcome>,
                    o: RowOutcome, before: Table, after: Table)
    requires i < |rows| && LinesRun(ts, org, rows[..i], ctype, mapping, dates, outs, before, after)
    requires RowStep(after, t, org, Item(ctype, FieldsOf(rows[i], mapping, dates)), o)
    ensures LinesRun(ts + [t], org, rows[..i + 1], ctype, mapping, dates, outs + [o], before, t)
  {
    var items, item := ItemsOf(rows[..i], ctype, mapping, dates), Item(ctype, FieldsOf(rows[i], mapping, dates));
    FieldsOfValid(rows[i], mapping, dates);
    ImportSnoc(ts, t, org, items, item, outs, o);
    ItemsOfSnoc(rows, i, ctype, mapping, dates);
  }

  // The row loop: the table moves along a run of the mapped lines and the summary tallies it.
  method ImportRows(
    repo: CustomerRepository, summary: ImportSummary, org: nat, ctype: CustomerType, rows: seq<RawRow>,
    headerMap: map<Field, string>, dates: string -> Option<DateText>)
    returns (ghost ts: seq<Table>, ghost outs: seq<RowOutcome>)
    requires repo.Valid() && summary.Abs() == FiguresOf(ctype, [])
    modifies repo, repo.Objects(), summary
    ensures repo.Valid() && fresh(repo.Objects() - old(repo.Objects()))
    ensures LinesRun(ts, org, rows, ctype, headerMap, dates, outs, old(repo.Rows()), repo.Rows())
    ensures summary.Abs() == FiguresOf(ctype, outs)
  {
    ts, outs := [repo.Rows()], [];
    NoLinesRun(repo.Rows(), org, ctype, headerMap, dates);
    for i := 0 to |rows|
      invariant repo.Valid() && summary.Abs() == FiguresOf(ctype, outs) && |outs| == i
      invariant fresh(repo.Objects() - old(repo.Objects()))
      invariant LinesRun(ts, org, rows[..i], ctype, headerMap, dates, outs, old(repo.Rows()), repo.Rows())
    {
      ghost var t := repo.Rows();
      ghost var result := ImportLine(repo, summary, org, ctype, rows[i], headerMap, dates, i + 2, outs);
      OneMoreLine(ts, repo.Rows(), org, rows, i, ctype, headerMap, dates, outs, result, old(repo.Rows()), t);
      ts, outs := ts + [repo.Rows()], outs + [result];
    }
    assert rows[..|rows|] == rows;
  }

  // What one register contributes: its mapped lines, or an error and no line at all when no
  // column holds the client's name.
  ghost predicate RegisterRun(aliases: seq<Alias>, rows: seq<RawRow>, ctype: CustomerType,
                              dates: string -> Option<DateText>,
                              items: seq<Item>, outs: seq<RowOutcome>, errors: seq<ImportError>)
  {
    if rows == [] then items == [] && outs == [] && errors == []
    else exists mapping ::
      && SerialGreedy(aliases, Columns(Distinct(Flatten(KeysOf(rows)))), mapping)
      && if ClientName in mapping
         then items == ItemsOf(rows, ctype, mapping, dates) && errors == FailedLines(ctype, outs)
         else items == [] && outs == [] && errors == [NoNameColumn(ctype)]
  }

  // The register's header row, turned into a header map.
  method MapHeaders(aliases: seq<Alias>, rows: seq<RawRow>) returns (headerMap: map<Field, string>)
    requires DistinctFields(aliases)
    ensures SerialGreedy(aliases, Columns(Distinct(Flatten(KeysOf(rows)))), headerMap)
  {
    var headers := OrderedHeaders(KeysOf(rows));
    headerMap := BuildHeaderMap(aliases, headers);
  }

  // What a register's run leaves behind, figures and all.
  ghost predicate RegisterDone(
    aliases: seq<Alias>, rows: seq<RawRow>, ctype: CustomerType, dates: string -> Option<DateText>, org: nat,
    before: Table, after: Table, figures: Figures, ts: seq<Table>, items: seq<Item>, outs: seq<RowOutcome>)
  {
    && Import(ts, org, items, outs) && ts[0] == before && Last(ts) == after
    && RegisterRun(aliases, rows, ctype, dates, items, outs, figures.errors)
    && figures.created == CountCreated(outs) && figures.updated == CountUpdated(outs)
    && figures.skipped == CountSkipped(outs)
  }

  lemma EmptyRegister(aliases: seq<Alias>, ctype: CustomerType, dates: string -> Option<DateText>, org: nat, t: Table)
    ensures RegisterDone(aliases, [], ctype, dates, org, t, t, Figures(0, 0, 0, []), [t], [], [])
  {
    EmptyImport(t, org);
  }

  lemma NamelessRegister(aliases: seq<Alias>, rows: seq<RawRow>, ctype: CustomerType, dates: string -> Option<DateText>,
                         org: nat, t: Table, mapping: map<Field, string>)
    requires rows != [] && ClientName !in mapping
    requires SerialGreedy(aliases, Columns(Distinct(Flatten(KeysOf(rows)))), mapping)
    ensures RegisterDone(aliases, rows, ctype, dates, org, t, t, Figures(0, 0, 0, [NoNameColumn(ctype)]), [t], [], [])
  {
    EmptyImport(t, org);
  }

  lemma MappedRegister(aliases: seq<Alias>, rows: seq<RawRow>, ctype: CustomerType, dates: string -> Option<DateText>,
                       org: nat, before: Table, after: Table, mapping: map<Field, string>,
                       ts: seq<Table>, outs: seq<RowOutcome>)
    requires rows != [] && ClientName in mapping
    requires SerialGreedy(aliases, Columns(Distinct(Flatten(KeysOf(rows)))), mapping)
    requires LinesRun(ts, org, rows, ctype, mapping, dates, outs, before, after)
    ensures RegisterDone(aliases, rows, ctype, dates, org, before, after, FiguresOf(ctype, outs), ts,
                         ItemsOf(rows, ctype, mapping, dates), outs)
  {
  }

  // The register once its headers are mapped: without a name column nothing is imported.
  method ImportMapped(
    repo: CustomerRepository, summary: ImportSummary, org: nat, ctype: CustomerType, aliases: seq<Alias>,
    rows: seq<RawRow>, headerMap: map<Field, string>, dates: string -> Option<DateText>)
    returns (ghost ts: seq<Table>, ghost items: seq<Item>, ghost outs: seq<RowOutcome>)
    requires repo.Valid() && summary.Abs() == Figures(0, 0, 0, []) && rows != []
    requires SerialGreedy(aliases, Columns(Distinct(Flatten(KeysOf(rows)))), headerMap)
    modifies repo, repo.Objects(), summary
    ensures repo.Valid() && fresh(repo.Objects() - old(repo.Objects()))
    ensures RegisterDone(aliases, rows, ctype, dates, org, old(repo.Rows()), repo.Rows(), summary.Abs(),
                         ts, items, outs)
  {
    if ClientName !in headerMap {
      ts, items, outs := [repo.Rows()], [], [];
      NamelessRegister(aliases, rows, ctype, dates, org, repo.Rows(), headerMap);
      summary.errors := summary.errors + [NoNameColumn(ctype)];
    } else {
      ts, outs := ImportRows(repo, summary, org, ctype, rows, headerMap, dates);
      items := ItemsOf(rows, ctype, headerMap, dates);
      MappedRegister(aliases, rows, ctype, dates, org, old(repo.Rows()), repo.Rows(), headerMap, ts, outs);
    }
  }

  method ImportRegister(
    repo: CustomerRepository, org: nat, ctype: CustomerType, aliases: seq<Alias>, rows: seq<RawRow>,
    dates: string -> Option<DateText>)
    returns (summary: ImportSummary, ghost ts: seq<Table>, ghost items: seq<Item>, ghost outs: seq<RowOutcome>)
    requires repo.Valid() && DistinctFields(aliases)
    modifies repo, repo.Objects()
    ensures repo.Valid() && fresh(summary) && fresh(repo.Objects() - old(repo.Objects()))
    ensures RegisterDone(aliases, rows, ctype, dates, org, old(repo.Rows()), repo.Rows(), summary.Abs(),
                         ts, items, outs)
  {
    hide RegisterDone, SerialGreedy, Import;
    summary := new ImportSummary();
    assert repo.Rows() == old(repo.Rows());
    if rows == [] {
      ts, items, outs := [repo.Rows()], [], [];
      EmptyRegister(aliases, ctype, dates, org, repo.Rows());
    } else {
      var headerMap := MapHeaders(aliases, rows);
      ts, items, outs := ImportMapped(repo, summary, org, ctype, aliases, rows, headerMap, dates);
    }
  }

  // What one sheet contributes: its register's lines, or only the report that it was unavailable.
  ghost predicate SheetRun(aliases: seq<Alias>, sheet: Option<seq<RawRow>>, ctype: CustomerType,
                           dates: string -> Option<DateText>,
                           items: seq<Item>, outs: seq<RowOutcome>, errors: seq<ImportError>)
  {
    match sheet
    case None => items == [] && outs == [] && errors == [SheetUnavailable(ctype)]
    case Some(rows) => RegisterRun(aliases, rows, ctype, dates, items, outs, errors)
  }

  // The lines a sheet contributed to a run, what became of them, and what was reported.
  datatype Lines = Lines(items: seq<Item>, outs: seq<RowOutcome>, errors: seq<ImportError>)

  ghost predicate SheetLines(aliases: seq<Alias>, sheet: Option<seq<RawRow>>, ctype: CustomerType,
                             dates: string -> Option<DateText>, lines: Lines)
  {
    SheetRun(aliases, sheet, ctype, dates, lines.items, lines.outs, lines.errors)
  }

  function SheetFigures(lines: Lines): Figures {
    Figures(CountCreated(lines.outs), CountUpdated(lines.outs), CountSkipped(lines.outs), lines.errors)
  }

  // A run over the lines of one sheet.
  ghost predicate SheetImport(ts: seq<Table>, org: nat, lines: Lines, before: Table, after: Table) {
    Import(ts, org, lines.items, lines.outs) && ts[0] == before && Last(ts) == after
  }

  lemma UnavailableSheet(aliases: seq<Alias>, ctype: CustomerType, dates: string -> Option<DateText>,
                         org: nat, t: Table)
    ensures var lines := Lines([], [], [SheetUnavailable(ctype)]);
            && SheetImport([t], org, lines, t, t) && SheetLines(aliases, None, ctype, dates, lines)
            && SheetFigures(lines) == Figures(0, 0, 0, [SheetUnavailable(ctype)])
  {
    EmptyImport(t, org);
  }

  lemma ReadSheet(aliases: seq<Alias>, rows: seq<RawRow>, ctype: CustomerType,
                  dates: string -> Option<DateText>, org: nat, before: Table, after: Table, figures: Figures,
                  ts: seq<Table>, items: seq<Item>, outs: seq<RowOutcome>)
    requires RegisterDone(aliases, rows, ctype, dates, org, before, after, figures, ts, items, outs)
    ensures var lines := Lines(items, outs, figures.errors);
            && SheetImport(ts, org, lines, before, after) && SheetLines(aliases, Some(rows), ctype, dates, lines)
            && SheetFigures(lines) == figures
  {
  }

  // One sheet of the import: read and merged, or reported as unavailable and passed over.
  method ImportSheet(
    repo: CustomerRepository, total: ImportSummary, org: nat, ctype: CustomerType, aliases: seq<Alias>,
    sheet: Option<seq<RawRow>>, dates: string -> Option<DateText>)
    returns (ghost ts: seq<Table>, ghost lines: Lines)
    requires repo.Valid() && DistinctFields(aliases)
    modifies repo, repo.Objects(), total
    ensures repo.Valid() && fresh(repo.Objects() - old(repo.Objects()))
    ensures SheetImport(ts, org, lines, old(repo.Rows()), repo.Rows())
    ensures SheetLines(aliases, sheet, ctype, dates, lines)
    ensures total.Abs() == AddFigures(old(total.Abs()), SheetFigures(lines))
  {
    match sheet
    case None =>
      ts, lines := [repo.Rows()], Lines([], [], [SheetUnavailable(ctype)]);
      UnavailableSheet(aliases, ctype, dates, org, repo.Rows());
      total.errors := total.errors + [SheetUnavailable(ctype)];
    case Some(rows) =>
      var result;
      ghost var items, outs;
      result, ts, items, outs := ImportRegister(repo, org, ctype, aliases, rows, dates);
      lines := Lines(items, outs, result.errors);
      ReadSheet(aliases, rows, ctype, dates, org, old(repo.Rows()), repo.Rows(), result.Abs(), ts, items, outs);
      total.Merge(result);
  }

  lemma SheetsAppend(ts: seq<Table>, us: seq<Table>, org: nat, a: Lines, b: Lines, t0: Table, t1: Table, t2: Table)
    returns (all: seq<Table>)
    requires SheetImport(ts, org, a, t0, t1) && SheetImport(us, org, b, t1, t2)
    ensures SheetImport(all, org, Lines(a.items + b.items, a.outs + b.outs, a.errors + b.errors), t0, t2)
  {
    all := ts + us[1..];
    ImportAppend(ts, us, org, a.items, b.items, a.outs, b.outs);
  }

  lemma AddToNothing(f: Figures)
    ensures AddFigures(Figures(0, 0, 0, []), f) == f
  {
    assert [] + f.errors == f.errors;
  }

  // Both registers, GST first. Together they are one run over the lines of both sheets.
  method ImportCustomers(
    repo: CustomerRepository, org: nat, aliases: seq<Alias>, gst: Option<seq<RawRow>>,
    incomeTax: Option<seq<RawRow>>, dates: string -> Option<DateText>)
    returns (total: ImportSummary, ghost ts: seq<Table>, ghost a: Lines, ghost b: Lines)
    requires repo.Valid() && DistinctFields(aliases)
    modifies repo, repo.Objects()
    ensures repo.Valid()
    ensures SheetLines(aliases, gst, Gst, dates, a) && SheetLines(aliases, incomeTax, IncomeTax, dates, b)
    ensures SheetImport(ts, org, Lines(a.items + b.items, a.outs + b.outs, a.errors + b.errors),
                        old(repo.Rows()), repo.Rows())
    ensures total.Abs() == AddFigures(SheetFigures(a), SheetFigures(b))
  {
    hide *;
    total := new ImportSummary();
    ghost var us;
    ts, a := ImportSheet(repo, total, org, Gst, aliases, gst, dates);
    AddToNothing(SheetFigures(a));
    ghost var between := repo.Rows();
    us, b := ImportSheet(repo, total, org, IncomeTax, aliases, incomeTax, dates);
    ts := SheetsAppend(ts, us, org, a, b, old(repo.Rows()), between, repo.Rows());
  }
}
