/** The customers table as the register import sees it: duplicate detection, the next
    code, and what one imported row may do to the table. Columns that are NULL are absent
    from a row's `values`; a column holding "" counts as blank too. */
module CustomerTable {
  import opened Text
  import opened HeaderMap
  import opened Numbering

  datatype CustomerType = Gst | IncomeTax

  type Fields = map<Field, string>

  datatype CustomerRow = CustomerRow(org: nat, code: string, ctype: CustomerType, values: Fields)

  type Table = seq<CustomerRow>

  // One register line after header mapping.
  datatype Item = Item(ctype: CustomerType, fields: Fields)

  // What an import did with one line; `at` is the customer it matched.
  datatype RowOutcome = Ignored | Created | Updated(at: nat) | Skipped(at: nat) | Failed

  predicate Blank(values: Fields, f: Field) {
    f !in values || values[f] == ""
  }

  predicate Named(fields: Fields) {
    !Blank(fields, ClientName)
  }

  // Mapped texts are stripped before they are capped, so they start with a visible character.
  predicate ValidFields(fields: Fields) {
    forall f | f in fields :: fields[f] != "" && !IsSpace(fields[f][0])
  }

  // ---------------------------------------------------------------- duplicate detection

  // The dedup keys, highest priority first.
  const KEYS: seq<Field> := [GstNumber, PanNumber, MobileNumber, Email]

  predicate KeyMatch(row: CustomerRow, org: nat, f: Field, fields: Fields) {
    && row.org == org && !Blank(fields, f)
    && f in row.values && Lower(row.values[f]) == Lower(Strip(fields[f]))
  }

  predicate HasMatch(t: Table, org: nat, f: Field, fields: Fields) {
    exists i | 0 <= i < |t| :: KeyMatch(t[i], org, f, fields)
  }

  predicate NoDuplicate(t: Table, org: nat, fields: Fields) {
    forall k | 0 <= k < |KEYS| :: !HasMatch(t, org, KEYS[k], fields)
  }

  // A match by key number k, every higher key having found nobody. Among several customers
  // sharing the key the database may return any one.
  ghost predicate MatchedBy(t: Table, org: nat, fields: Fields, k: nat, i: nat) {
    && k < |KEYS| && i < |t| && KeyMatch(t[i], org, KEYS[k], fields)
    && forall j | 0 <= j < k :: !HasMatch(t, org, KEYS[j], fields)
  }

  ghost predicate IsDuplicate(t: Table, org: nat, fields: Fields, i: nat) {
    exists k: nat :: MatchedBy(t, org, fields, k, i)
  }

  // ---------------------------------------------------------------- codes

  const CODE_PREFIX := "CUS-"
  const MAX_INT4 := 2147483647

  ghost function CodesOf(t: Table, org: nat): set<string> {
    set i | 0 <= i < |t| && t[i].org == org :: t[i].code
  }

  // A code whose digits can be cast to a 4-byte integer column expression.
  predicate Castable(code: string) {
    Suffix(CustomerCode, code).Some? && Suffix(CustomerCode, code).value <= MAX_INT4
  }

  predicate AllCastable(t: Table, org: nat) {
    forall i | 0 <= i < |t| && t[i].org == org :: Castable(t[i].code)
  }

  // Highest code of the organization plus one; no value when the cast fails on some code.
  ghost function NextSeq(t: Table, org: nat): Option<nat> {
    if AllCastable(t, org) then Some(MaxSeq(CustomerCode, CodesOf(t, org)) + 1) else None
  }

  function CodeFor(n: nat): string {
    Format(CustomerCode, CODE_PREFIX, n)
  }

  // ---------------------------------------------------------------- one row

  function Fill(values: Fields, fields: Fields): Fields {
    map f | f in values.Keys + (fields.Keys - {ClientName}) ::
      if f in fields && f != ClientName && Blank(values, f) then fields[f] else values[f]
  }

  predicate Fillable(values: Fields, fields: Fields) {
    exists f | f in fields :: f != ClientName && Blank(values, f)
  }

  lemma NothingToFill(values: Fields, fields: Fields)
    requires !Fillable(values, fields)
    ensures Fill(values, fields) == values
  {
  }

  function NewRow(org: nat, n: nat, item: Item): CustomerRow {
    CustomerRow(org, CodeFor(n), item.ctype, item.fields)
  }

  ghost predicate RowStep(t: Table, t': Table, org: nat, item: Item, o: RowOutcome) {
    match o
    case Ignored => !Named(item.fields) && t' == t
    case Created =>
      && Named(item.fields) && NoDuplicate(t, org, item.fields) && NextSeq(t, org).Some?
      && t' == t + [NewRow(org, NextSeq(t, org).value, item)]
    case Failed =>
      Named(item.fields) && NoDuplicate(t, org, item.fields) && NextSeq(t, org).None? && t' == t
    case Updated(i) =>
      && Named(item.fields) && IsDuplicate(t, org, item.fields, i) && i < |t|
      && Fillable(t[i].values, item.fields)
      && t' == t[i := t[i].(values := Fill(t[i].values, item.fields))]
    case Skipped(i) =>
      && Named(item.fields) && IsDuplicate(t, org, item.fields, i) && i < |t|
      && !Fillable(t[i].values, item.fields) && t' == t
  }

  // ---------------------------------------------------------------- a whole run

  // The tables a run passes through, one per processed line.
  ghost predicate Import(ts: seq<Table>, org: nat, items: seq<Item>, outs: seq<RowOutcome>) {
    && |ts| == |items| + 1 && |outs| == |items|
    && (forall k | 0 <= k < |items| :: ValidFields(items[k].fields))
    && (forall k | 0 <= k < |items| :: RowStep(ts[k], ts[k + 1], org, items[k], outs[k]))
  }

  function Last<T>(xs: seq<T>): T
    requires xs != []
  {
    xs[|xs| - 1]
  }

  function CountCreated(outs: seq<RowOutcome>): nat {
    if outs == [] then 0 else CountCreated(outs[..|outs| - 1]) + (if Last(outs).Created? then 1 else 0)
  }

  function CountUpdated(outs: seq<RowOutcome>): nat {
    if outs == [] then 0 else CountUpdated(outs[..|outs| - 1]) + (if Last(outs).Updated? then 1 else 0)
  }

  lemma ImportPrefix(ts: seq<Table>, org: nat, items: seq<Item>, outs: seq<RowOutcome>, n: nat)
    requires Import(ts, org, items, outs) && n <= |items|
    ensures Import(ts[..n + 1], org, items[..n], outs[..n])
  {
  }

  lemma EmptyImport(t: Table, org: nat)
    ensures Import([t], org, [], [])
  {
  }

  lemma ImportSnoc(ts: seq<Table>, t: Table, org: nat, items: seq<Item>, item: Item, outs: seq<RowOutcome>,
                   o: RowOutcome)
    requires Import(ts, org, items, outs) && RowStep(Last(ts), t, org, item, o) && ValidFields(item.fields)
    ensures Import(ts + [t], org, items + [item], outs + [o])
  {
  }

  // Two runs end to end are one run.
  lemma ImportAppend(ts: seq<Table>, us: seq<Table>, org: nat,
                     items: seq<Item>, more: seq<Item>, outs: seq<RowOutcome>, rest: seq<RowOutcome>)
    requires Import(ts, org, items, outs) && Import(us, org, more, rest) && Last(ts) == us[0]
    ensures Import(ts + us[1..], org, items + more, outs + rest)
    ensures (ts + us[1..])[0] == ts[0] && Last(ts + us[1..]) == Last(us)
  {
    var all, every, results := ts + us[1..], items + more, outs + rest;
    forall k | 0 <= k < |every|
      ensures RowStep(all[k], all[k + 1], org, every[k], results[k])
    {
      if k >= |items| {
        var j := k - |items|;
        assert RowStep(us[j], us[j + 1], org, more[j], rest[j]);
        assert all[k] == us[j];
      }
    }
  }
}
