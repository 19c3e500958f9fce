/** Reading a register's header row: which of a sheet's columns feeds which customer field. */
module HeaderMap {
  import opened Text

  datatype Field =
    | GstNumber | PanNumber | AadhaarNumber | AlternateMobile | MobileNumber | Email
    | DateOfBirth | BusinessName | ProprietorName | AddressLine2 | AddressLine1
    | City | State | Pincode | Remarks | ClientName

  datatype Alias = Alias(field: Field, names: seq<string>)

  // Field order is resolution order: the specific columns come before their broader cousins.
  function FieldAliases(): seq<Alias> {
    [ Alias(GstNumber, ["gstin", "gst no", "gst number", "gst"]),
      Alias(PanNumber, ["pan no", "pan number", "pan"]),
      Alias(AadhaarNumber, ["aadhaar", "aadhar", "uid"]),
      Alias(AlternateMobile, ["alternate", "alt mobile", "alt phone", "secondary", "mobile 2", "phone 2", "contact 2"]),
      Alias(MobileNumber, ["mobile no", "mobile", "phone", "contact no", "contact number", "cell", "whatsapp",
                            "ph no"]),
      Alias(Email, ["email", "e-mail", "mail id", "gmail", "mail"]),
      Alias(DateOfBirth, ["date of birth", "dob", "birth"]),
      Alias(BusinessName, ["business name", "firm name", "trade name", "company name", "firm", "business", "trade"]),
      Alias(ProprietorName, ["proprietor", "prop name", "owner", "contact person", "authorized person", "partner"]),
      Alias(AddressLine2, ["address 2", "address line 2", "address2", "street 2"]),
      Alias(AddressLine1, ["address 1", "address line 1", "address", "addr", "door no", "street"]),
      Alias(City, ["city", "town", "place", "district"]),
      Alias(State, ["state"]),
      Alias(Pincode, ["pincode", "pin code", "postal", "zip", "pin"]),
      Alias(Remarks, ["remark", "remarks", "notes", "note", "comment", "status detail"]),
      Alias(ClientName, ["client name", "customer name", "name of the client", "name of assessee", "assessee",
                          "party name", "client", "name"]) ]
  }

  predicate DistinctFields(aliases: seq<Alias>) {
    forall i, j | 0 <= i < j < |aliases| :: aliases[i].field != aliases[j].field
  }

  function Position(f: Field): nat {
    match f
    case GstNumber => 0
    case PanNumber => 1
    case AadhaarNumber => 2
    case AlternateMobile => 3
    case MobileNumber => 4
    case Email => 5
    case DateOfBirth => 6
    case BusinessName => 7
    case ProprietorName => 8
    case AddressLine2 => 9
    case AddressLine1 => 10
    case City => 11
    case State => 12
    case Pincode => 13
    case Remarks => 14
    case ClientName => 15
  }

  // Every field has its one place in the resolution order.
  lemma FieldAliasesDistinct()
    ensures DistinctFields(FieldAliases())
    ensures |FieldAliases()| == 16 && forall i | 0 <= i < 16 :: Position(FieldAliases()[i].field) == i
  {
    var aliases := FieldAliases();
    assert forall i | 0 <= i < 16 :: Position(aliases[i].field) == i;
  }

  function Norm(header: string): string {
    Lower(Strip(header))
  }

  predicate ExactMatch(alias: Alias, header: string) {
    Norm(header) in alias.names
  }

  // The second pass: some alias occurs inside the normalised header.
  predicate LooseMatch(alias: Alias, header: string) {
    exists i | 0 <= i < |alias.names| :: Contains(Norm(header), alias.names[i])
  }

  predicate Matches(alias: Alias, header: string, wantExact: bool) {
    if wantExact then ExactMatch(alias, header) else LooseMatch(alias, header)
  }

  lemma ExactIsLoose(alias: Alias, header: string)
    requires ExactMatch(alias, header)
    ensures LooseMatch(alias, header)
  {
    var i :| 0 <= i < |alias.names| && alias.names[i] == Norm(header);
    ContainsSelf(Norm(header));
  }

  // Headers are matched whatever the case of their letters.
  lemma MatchingIgnoresCase(alias: Alias, g: string, h: string, wantExact: bool)
    requires SameText(g, h)
    ensures Matches(alias, g, wantExact) <==> Matches(alias, h, wantExact)
  {
    StripForgetsCase(g, h);
    LowerForgetsCase(Strip(g), Strip(h));
  }

  // ---------------------------------------------------------------- columns of a sheet

  // The distinct texts of a list, each at its first appearance.
  function Distinct(xs: seq<string>): (ds: seq<string>)
    ensures forall x :: x in ds <==> x in xs
    ensures forall i, j | 0 <= i < j < |ds| :: ds[i] != ds[j]
  {
    if xs == [] then []
    else
      var ds := Distinct(xs[..|xs| - 1]);
      assert xs == xs[..|xs| - 1] + [xs[|xs| - 1]];
      if xs[|xs| - 1] in ds then ds else ds + [xs[|xs| - 1]]
  }

  function NonBlank(xs: seq<string>): (ys: seq<string>)
    ensures forall y :: y in ys <==> y in xs && Strip(y) != ""
  {
    if xs == [] then []
    else
      assert xs == xs[..|xs| - 1] + [xs[|xs| - 1]];
      NonBlank(xs[..|xs| - 1]) + (if Strip(xs[|xs| - 1]) != "" then [xs[|xs| - 1]] else [])
  }

  function Columns(headers: seq<string>): seq<string> {
    Distinct(NonBlank(headers))
  }

  function Flatten(rows: seq<seq<string>>): seq<string> {
    if rows == [] then [] else Flatten(rows[..|rows| - 1]) + rows[|rows| - 1]
  }

  lemma {:induction false} DistinctSnoc(xs: seq<string>, x: string)
    ensures Distinct(xs + [x]) == if x in Distinct(xs) then Distinct(xs) else Distinct(xs) + [x]
  {
    assert (xs + [x])[..|xs|] == xs;
  }

  lemma {:induction false} DistinctAppendRow(before: seq<string>, row: seq<string>, j: nat)
    requires j < |row|
    ensures Distinct(before + row[..j + 1])
         == var ds := Distinct(before + row[..j]); if row[j] in ds then ds else ds + [row[j]]
  {
    DistinctSnoc(before + row[..j], row[j]);
    assert before + row[..j + 1] == before + row[..j] + [row[j]];
  }

  method AddKeys(seen0: seq<string>, row: seq<string>, ghost before: seq<string>) returns (seen: seq<string>)
    requires seen0 == Distinct(before)
    ensures seen == Distinct(before + row)
  {
    seen := seen0;
    assert before + row[..0] == before;
    for j := 0 to |row|
      invariant seen == Distinct(before + row[..j])
    {
      DistinctAppendRow(before, row, j);
      if row[j] !in seen {
        seen := seen + [row[j]];
      }
    }
    assert row[..|row|] == row;
  }

  // The keys of all rows, each once, in order of first appearance.
  method OrderedHeaders(rows: seq<seq<string>>) returns (seen: seq<string>)
    ensures seen == Distinct(Flatten(rows))
  {
    seen := [];
    for i := 0 to |rows|
      invariant seen == Distinct(Flatten(rows[..i]))
    {
      seen := AddKeys(seen, rows[i], Flatten(rows[..i]));
      assert rows[..i + 1][..i] == rows[..i];
    }
    assert rows[..|rows|] == rows;
  }

  // ---------------------------------------------------------------- the header map

  // `header` is the first unclaimed column that matches in the given pass.
  ghost predicate FirstUnclaimed(cols: seq<string>, claimed: set<string>, alias: Alias, wantExact: bool,
                                 header: string)
  {
    exists i | 0 <= i < |cols| ::
      && cols[i] == header && cols[i] !in claimed && Matches(alias, cols[i], wantExact)
      && forall j | 0 <= j < i :: cols[j] in claimed || !Matches(alias, cols[j], wantExact)
  }

  ghost predicate NoUnclaimed(cols: seq<string>, claimed: set<string>, alias: Alias, wantExact: bool) {
    forall j | 0 <= j < |cols| :: cols[j] in claimed || !Matches(alias, cols[j], wantExact)
  }

  // The rule for one field: an exact header if any is left, else a header containing an alias.
  ghost predicate Resolved(cols: seq<string>, claimed: set<string>, alias: Alias, choice: Option<string>) {
    match choice
    case None => NoUnclaimed(cols, claimed, alias, true) && NoUnclaimed(cols, claimed, alias, false)
    case Some(header) =>
      || FirstUnclaimed(cols, claimed, alias, true, header)
      || (NoUnclaimed(cols, claimed, alias, true) && FirstUnclaimed(cols, claimed, alias, false, header))
  }

  function Lookup(mapping: map<Field, string>, field: Field): Option<string> {
    if field in mapping then Some(mapping[field]) else None
  }

  // Columns taken by the first k fields.
  ghost function ClaimedBy(aliases: seq<Alias>, mapping: map<Field, string>, k: nat): set<string>
    requires k <= |aliases|
  {
    set j | 0 <= j < k && aliases[j].field in mapping :: mapping[aliases[j].field]
  }

  // Serial greedy assignment: every field, in order, resolved against the columns that
  // the fields before it left unclaimed.
  ghost predicate SerialGreedy(aliases: seq<Alias>, cols: seq<string>, mapping: map<Field, string>) {
    && (forall f | f in mapping :: exists k | 0 <= k < |aliases| :: aliases[k].field == f)
    && (forall k | 0 <= k < |aliases| ::
          Resolved(cols, ClaimedBy(aliases, mapping, k), aliases[k], Lookup(mapping, aliases[k].field)))
  }

  method FindUnclaimed(cols: seq<string>, claimed: set<string>, alias: Alias, wantExact: bool)
    returns (found: Option<string>)
    ensures found.Some? ==> FirstUnclaimed(cols, claimed, alias, wantExact, found.value)
    ensures found.None? ==> NoUnclaimed(cols, claimed, alias, wantExact)
  {
    found := None;
    for i := 0 to |cols|
      invariant found == None
      invariant forall j | 0 <= j < i :: cols[j] in claimed || !Matches(alias, cols[j], wantExact)
    {
      if cols[i] in claimed {
        continue;
      }
      if Matches(alias, cols[i], wantExact) {
        return Some(cols[i]);
      }
    }
  }

  lemma ClaimedGrows(aliases: seq<Alias>, before: map<Field, string>, after: map<Field, string>, k: nat)
    requires k < |aliases| && DistinctFields(aliases)
    requires after == before
          || (aliases[k].field in after && after == before[aliases[k].field := after[aliases[k].field]])
    ensures forall i | 0 <= i <= k :: ClaimedBy(aliases, after, i) == ClaimedBy(aliases, before, i)
    ensures ClaimedBy(aliases, after, k + 1)
         == ClaimedBy(aliases, before, k)
            + (if aliases[k].field in after then {after[aliases[k].field]} else {})
  {
  }

  method BuildHeaderMap(aliases: seq<Alias>, headers: seq<string>) returns (mapping: map<Field, string>)
    requires DistinctFields(aliases)
    ensures SerialGreedy(aliases, Columns(headers), mapping)
  {
    var cols := Columns(headers);
    var claimed: set<string> := {};
    mapping := map[];
    for k := 0 to |aliases|
      invariant claimed == ClaimedBy(aliases, mapping, k)
      invariant forall f | f in mapping :: exists j | 0 <= j < k :: aliases[j].field == f
      invariant forall i | 0 <= i < k ::
          Resolved(cols, ClaimedBy(aliases, mapping, i), aliases[i], Lookup(mapping, aliases[i].field))
    {
      ghost var before := mapping;
      var field := aliases[k].field;
      assert field !in mapping;
      var found := FindUnclaimed(cols, claimed, aliases[k], true);
      if found.None? {
        found := FindUnclaimed(cols, claimed, aliases[k], false);
      }
      assert Resolved(cols, claimed, aliases[k], found);
      if found.Some? {
        mapping := mapping[field := found.value];
        claimed := claimed + {found.value};
      }
      ClaimedGrows(aliases, before, mapping, k);
      assert forall i | 0 <= i < k :: Lookup(mapping, aliases[i].field) == Lookup(before, aliases[i].field);
      assert Lookup(mapping, field) == found;
    }
  }

  // ---------------------------------------------------------------- what the map guarantees

  ghost predicate AgreeUpTo(aliases: seq<Alias>, m1: map<Field, string>, m2: map<Field, string>, k: nat)
    requires k <= |aliases|
  {
    forall i | 0 <= i < k :: Lookup(m1, aliases[i].field) == Lookup(m2, aliases[i].field)
  }

  lemma ClaimedBySubset(aliases: seq<Alias>, m1: map<Field, string>, m2: map<Field, string>, k: nat)
    requires k <= |aliases| && AgreeUpTo(aliases, m1, m2, k)
    ensures ClaimedBy(aliases, m1, k) <= ClaimedBy(aliases, m2, k)
  {
    forall h | h in ClaimedBy(aliases, m1, k)
      ensures h in ClaimedBy(aliases, m2, k)
    {
      var j :| 0 <= j < k && aliases[j].field in m1 && m1[aliases[j].field] == h;
      assert Lookup(m2, aliases[j].field) == Some(h);
    }
  }

  lemma ResolvedAt(aliases: seq<Alias>, cols: seq<string>, mapping: map<Field, string>, k: nat)
    requires SerialGreedy(aliases, cols, mapping) && k < |aliases|
    ensures Resolved(cols, ClaimedBy(aliases, mapping, k), aliases[k], Lookup(mapping, aliases[k].field))
  {
  }

  lemma SameClaims(aliases: seq<Alias>, m1: map<Field, string>, m2: map<Field, string>, k: nat)
    requires k <= |aliases| && AgreeUpTo(aliases, m1, m2, k)
    ensures ClaimedBy(aliases, m1, k) == ClaimedBy(aliases, m2, k)
  {
    ClaimedBySubset(aliases, m1, m2, k);
    ClaimedBySubset(aliases, m2, m1, k);
  }

  lemma SameChoice(aliases: seq<Alias>, cols: seq<string>, m1: map<Field, string>, m2: map<Field, string>, k: nat)
    requires SerialGreedy(aliases, cols, m1) && SerialGreedy(aliases, cols, m2)
    requires k < |aliases| && AgreeUpTo(aliases, m1, m2, k)
    ensures AgreeUpTo(aliases, m1, m2, k + 1)
  {
    var alias, claimed := aliases[k], ClaimedBy(aliases, m1, k);
    var a, b := Lookup(m1, alias.field), Lookup(m2, alias.field);
    assert Resolved(cols, claimed, alias, a) by { ResolvedAt(aliases, cols, m1, k); }
    assert Resolved(cols, claimed, alias, b) by {
      ResolvedAt(aliases, cols, m2, k);
      SameClaims(aliases, m1, m2, k);
    }
    ResolvedUnique(cols, claimed, alias, a, b);
  }

  lemma {:induction false} SerialGreedyAgree(
    aliases: seq<Alias>, cols: seq<string>, m1: map<Field, string>, m2: map<Field, string>, k: nat)
    requires SerialGreedy(aliases, cols, m1) && SerialGreedy(aliases, cols, m2) && k <= |aliases|
    ensures AgreeUpTo(aliases, m1, m2, k)
  {
    if k > 0 {
      SerialGreedyAgree(aliases, cols, m1, m2, k - 1);
      SameChoice(aliases, cols, m1, m2, k - 1);
    }
  }

  // The rule leaves no freedom: two maps that follow it are the same map.
  lemma SerialGreedyUnique(aliases: seq<Alias>, cols: seq<string>, m1: map<Field, string>, m2: map<Field, string>)
    requires SerialGreedy(aliases, cols, m1) && SerialGreedy(aliases, cols, m2)
    ensures m1 == m2
  {
    SerialGreedyAgree(aliases, cols, m1, m2, |aliases|);
    forall f
      ensures Lookup(m1, f) == Lookup(m2, f)
    {
      if f in m1 || f in m2 {
        var k :| 0 <= k < |aliases| && aliases[k].field == f;
      }
    }
    SameLookups(m1, m2);
  }

  lemma SameLookups(a: map<Field, string>, b: map<Field, string>)
    requires forall f :: Lookup(a, f) == Lookup(b, f)
    ensures a == b
  {
    assert forall f :: f in a <==> Lookup(a, f).Some?;
    assert forall f :: f in b <==> Lookup(b, f).Some?;
  }

  lemma ResolvedUnique(cols: seq<string>, claimed: set<string>, alias: Alias, a: Option<string>, b: Option<string>)
    requires Resolved(cols, claimed, alias, a) && Resolved(cols, claimed, alias, b)
    ensures a == b
  {
  }

  // No column feeds two fields.
  lemma HeaderMapInjective(aliases: seq<Alias>, cols: seq<string>, mapping: map<Field, string>, f: Field, g: Field)
    requires SerialGreedy(aliases, cols, mapping)
    requires f in mapping && g in mapping && mapping[f] == mapping[g]
    ensures f == g
  {
    var i :| 0 <= i < |aliases| && aliases[i].field == f;
    var j :| 0 <= j < |aliases| && aliases[j].field == g;
    assert Lookup(mapping, f).Some? && Lookup(mapping, g).Some?;
    if i < j {
      assert mapping[aliases[i].field] in ClaimedBy(aliases, mapping, j);
    } else if j < i {
      assert mapping[aliases[j].field] in ClaimedBy(aliases, mapping, i);
    }
  }

  // A field stays unmapped exactly when earlier fields took every column that fits it;
  // a mapped field has a column of its own that fits it.
  lemma UnmappedIffAllTaken(aliases: seq<Alias>, cols: seq<string>, mapping: map<Field, string>, k: nat)
    requires SerialGreedy(aliases, cols, mapping) && DistinctFields(aliases) && k < |aliases|
    ensures aliases[k].field !in mapping <==>
            forall h | h in cols && LooseMatch(aliases[k], h) ::
              exists j | 0 <= j < k :: Lookup(mapping, aliases[j].field) == Some(h)
    ensures aliases[k].field in mapping ==>
            mapping[aliases[k].field] in cols && LooseMatch(aliases[k], mapping[aliases[k].field])
  {
    var claimed := ClaimedBy(aliases, mapping, k);
    var choice := Lookup(mapping, aliases[k].field);
    assert Resolved(cols, claimed, aliases[k], choice);
    if choice.Some? {
      var h := choice.value;
      if ExactMatch(aliases[k], h) { ExactIsLoose(aliases[k], h); }
      assert h in cols && LooseMatch(aliases[k], h) && h !in claimed;
      assert forall j | 0 <= j < k :: Lookup(mapping, aliases[j].field) != Some(h);
    } else {
      forall h | h in cols && LooseMatch(aliases[k], h)
        ensures exists j | 0 <= j < k :: Lookup(mapping, aliases[j].field) == Some(h)
      {
        assert Matches(aliases[k], h, false);
        assert h in claimed;
        var j :| 0 <= j < k && aliases[j].field in mapping && mapping[aliases[j].field] == h;
        assert Lookup(mapping, aliases[j].field) == Some(h);
      }
    }
  }

  // ---------------------------------------------------------------- locating the header row

  predicate HasHeaderFor(alias: Alias, cells: seq<string>) {
    exists i | 0 <= i < |cells| :: cells[i] != "" && LooseMatch(alias, cells[i])
  }

  function Score(aliases: seq<Alias>, cells: seq<string>): nat {
    if aliases == [] then 0
    else Score(aliases[..|aliases| - 1], cells)
         + (if HasHeaderFor(aliases[|aliases| - 1], cells) then 1 else 0)
  }

  // The fields some non-empty cell of the row names, by an alias in any case within it.
  ghost function NamedFields(aliases: seq<Alias>, cells: seq<string>): set<Field> {
    set k | 0 <= k < |aliases| && HasHeaderFor(aliases[k], cells) :: aliases[k].field
  }

  lemma NamedFieldsSnoc(aliases: seq<Alias>, cells: seq<string>)
    requires aliases != []
    ensures var n := |aliases| - 1;
            NamedFields(aliases, cells)
            == NamedFields(aliases[..n], cells) + (if HasHeaderFor(aliases[n], cells) then {aliases[n].field} else {})
  {
    var n := |aliases| - 1;
    forall f | f in NamedFields(aliases, cells)
      ensures f in NamedFields(aliases[..n], cells) || (HasHeaderFor(aliases[n], cells) && f == aliases[n].field)
    {
      var k :| 0 <= k < |aliases| && HasHeaderFor(aliases[k], cells) && aliases[k].field == f;
      assert k < n ==> aliases[..n][k] == aliases[k];
    }
    forall f | f in NamedFields(aliases[..n], cells)
      ensures f in NamedFields(aliases, cells)
    {
      var k :| 0 <= k < n && HasHeaderFor(aliases[..n][k], cells) && aliases[..n][k].field == f;
      assert aliases[..n][k] == aliases[k];
    }
  }

  // The score is the number of fields named: a row naming one field only never reaches two.
  lemma {:induction false} ScoreCountsFields(aliases: seq<Alias>, cells: seq<string>)
    requires DistinctFields(aliases)
    ensures Score(aliases, cells) == |NamedFields(aliases, cells)|
  {
    if aliases != [] {
      var n := |aliases| - 1;
      ScoreCountsFields(aliases[..n], cells);
      NamedFieldsSnoc(aliases, cells);
      assert forall f | f in NamedFields(aliases[..n], cells) :: f != aliases[n].field;
    }
  }

  method ScoreHeaderRow(aliases: seq<Alias>, cells: seq<string>) returns (score: nat)
    ensures score == Score(aliases, cells)
  {
    score := 0;
    for k := 0 to |aliases|
      invariant score == Score(aliases[..k], cells)
    {
      assert aliases[..k + 1][..k] == aliases[..k];
      if HasHeaderFor(aliases[k], cells) {
        score := score + 1;
      }
    }
    assert aliases[..|aliases|] == aliases;
  }

  // The first best-scoring row among the first fifteen, when it reaches two fields.
  method FindHeaderRow(aliases: seq<Alias>, rows: seq<seq<string>>) returns (headerIdx: Option<nat>)
    ensures headerIdx.None? <==> forall i | 0 <= i < |rows| && i < 15 :: Score(aliases, rows[i]) <= 1
    ensures headerIdx.Some? ==>
              && headerIdx.value < |rows| && headerIdx.value < 15
              && (forall i | 0 <= i < |rows| && i < 15 ::
                    Score(aliases, rows[i]) <= Score(aliases, rows[headerIdx.value]))
              && (forall i | 0 <= i < headerIdx.value ::
                    Score(aliases, rows[i]) < Score(aliases, rows[headerIdx.value]))
  {
    headerIdx := None;
    var best := 1;
    var last := if |rows| < 15 then |rows| else 15;
    for i := 0 to last
      invariant headerIdx.None? ==> best == 1
      invariant headerIdx.Some? ==>
          headerIdx.value < i && best > 1 && best == Score(aliases, rows[headerIdx.value])
      invariant forall j | 0 <= j < i :: Score(aliases, rows[j]) <= best
      invariant headerIdx.Some? ==>
          forall j | 0 <= j < headerIdx.value :: Score(aliases, rows[j]) < best
    {
      var score := ScoreHeaderRow(aliases, rows[i]);
      if score > best {
        best, headerIdx := score, Some(i);
      }
    }
  }

  lemma ColumnIsCell(alias: Alias, headers: seq<string>, h: string)
    requires h in Columns(headers) && LooseMatch(alias, h)
    ensures HasHeaderFor(alias, headers)
  {
    assert h in headers && Strip(h) != "";
    assert h != "";
  }

  lemma SubsetAtMost(a: set<Field>, b: set<Field>)
    requires a <= b
    ensures |a| <= |b|
  {
    assert b == a + (b - a);
  }

  // The score used to find the header row never undercounts: a row chosen for its score
  // maps at most that many fields.
  lemma MapSizeAtMostScore(aliases: seq<Alias>, headers: seq<string>, mapping: map<Field, string>)
    requires SerialGreedy(aliases, Columns(headers), mapping) && DistinctFields(aliases)
    ensures |mapping| <= Score(aliases, headers)
  {
    forall f | f in mapping
      ensures f in NamedFields(aliases, headers)
    {
      var k :| 0 <= k < |aliases| && aliases[k].field == f;
      UnmappedIffAllTaken(aliases, Columns(headers), mapping, k);
      ColumnIsCell(aliases[k], headers, mapping[f]);
    }
    SubsetAtMost(mapping.Keys, NamedFields(aliases, headers));
    ScoreCountsFields(aliases, headers);
    assert |mapping| == |mapping.Keys|;
  }
}
