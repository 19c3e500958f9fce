/** A register of three lines as it comes from a sheet, and what the importer makes of it. */
module SampleRegister {
  import opened Text
  import opened HeaderMap
  import opened CustomerTable
  import opened CustomerImport

  // Two lines share a mobile number and two share a PAN.
  const COLUMNS := ["name", "pan", "cell"]
  const ROWS := [Row("A", "P", "M"), Row("B", "Q", "M"), Row("C", "Q", "")]

  function Row(name: string, pan: string, cell: string): RawRow {
    RawRow(COLUMNS, map["name" := name, "pan" := pan, "cell" := cell])
  }

  const MAPPING := map[PanNumber := "pan", MobileNumber := "cell", ClientName := "name"]

  const A := Item(Gst, map[ClientName := "A", PanNumber := "P", MobileNumber := "M"])
  const B := Item(Gst, map[ClientName := "B", PanNumber := "Q", MobileNumber := "M"])
  const C := Item(Gst, map[ClientName := "C", PanNumber := "Q"])
  const REGISTER := [A, B, C]

  // ---------------------------------------------------------------- its columns

  lemma {:induction false} DistinctItself(xs: seq<string>)
    requires forall i, j | 0 <= i < j < |xs| :: xs[i] != xs[j]
    ensures Distinct(xs) == xs
  {
    if xs != [] {
      DistinctItself(xs[..|xs| - 1]);
    }
  }

  lemma {:induction false} DistinctRepeated(xs: seq<string>, ys: seq<string>)
    requires forall y | y in ys :: y in xs
    ensures Distinct(xs + ys) == Distinct(xs)
  {
    if ys == [] {
      assert xs + ys == xs;
    } else {
      var n := |ys| - 1;
      DistinctRepeated(xs, ys[..n]);
      DistinctSnoc(xs + ys[..n], ys[n]);
      assert xs + ys == xs + ys[..n] + [ys[n]];
    }
  }

  lemma NonBlankSnoc(xs: seq<string>, x: string)
    requires Strip(x) != ""
    ensures NonBlank(xs + [x]) == NonBlank(xs) + [x]
  {
    assert (xs + [x])[..|xs|] == xs;
  }

  lemma NonBlankThree(a: string, b: string, c: string)
    requires Strip(a) != "" && Strip(b) != "" && Strip(c) != ""
    ensures NonBlank([a, b, c]) == [a, b, c]
  {
    NonBlankSnoc([], a);
    NonBlankSnoc([a], b);
    NonBlankSnoc([a, b], c);
    assert [] + [a] == [a] && [a] + [b] == [a, b] && [a, b] + [c] == [a, b, c];
  }

  lemma ColumnsNormal(h: string)
    requires h in COLUMNS
    ensures Strip(h) == h && Norm(h) == h
  {
    StripFacts(h);
    assert Lower(h) == h;
  }

  lemma FlattenSnoc(rows: seq<seq<string>>, row: seq<string>)
    ensures Flatten(rows + [row]) == Flatten(rows) + row
  {
    assert (rows + [row])[..|rows|] == rows;
  }

  lemma FlattenThree(keys: seq<string>)
    ensures Flatten([keys, keys, keys]) == keys + keys + keys
  {
    FlattenSnoc([], keys);
    FlattenSnoc([keys], keys);
    FlattenSnoc([keys, keys], keys);
    assert [] + [keys] == [keys] && [keys] + [keys] == [keys, keys] && [keys, keys] + [keys] == [keys, keys, keys];
    assert [] + keys == keys;
  }

  lemma RowKeys()
    ensures KeysOf(ROWS) == [COLUMNS, COLUMNS, COLUMNS]
  {
  }

  lemma SampleColumns()
    ensures Columns(Distinct(Flatten(KeysOf(ROWS)))) == COLUMNS
  {
    RowKeys();
    FlattenThree(COLUMNS);
    DistinctItself(COLUMNS);
    DistinctRepeated(COLUMNS, COLUMNS);
    DistinctRepeated(COLUMNS + COLUMNS, COLUMNS);
    ColumnsNormal("name");
    ColumnsNormal("pan");
    ColumnsNormal("cell");
    NonBlankThree("name", "pan", "cell");
  }

  // ---------------------------------------------------------------- their fields

  // Too long for the header, or with a character it does not have.
  predicate Foreign(name: string, header: string) {
    || |name| > |header|
    || (|name| >= 2 && (name[0] !in header || name[1] !in header || name[|name| - 1] !in header))
  }

  lemma OccurrenceCharacters(header: string, name: string, i: nat)
    requires OccursAt(header, name, i)
    ensures |name| <= |header| && forall j | 0 <= j < |name| :: name[j] in header
  {
    forall j | 0 <= j < |name|
      ensures name[j] in header
    {
      assert header[i..i + |name|][j] == header[i + j];
    }
  }

  lemma ForeignNotContained(header: string, name: string)
    requires Foreign(name, header)
    ensures !Contains(header, name)
  {
    forall i: nat | i <= |header|
      ensures !OccursAt(header, name, i)
    {
      if OccursAt(header, name, i) {
        OccurrenceCharacters(header, name, i);
      }
    }
  }

  lemma ForeignNoMatch(alias: Alias, header: string, wantExact: bool)
    requires Norm(header) == header
    requires forall i | 0 <= i < |alias.names| :: Foreign(alias.names[i], header)
    ensures !Matches(alias, header, wantExact)
  {
    forall i | 0 <= i < |alias.names|
      ensures !Contains(header, alias.names[i])
    {
      ForeignNotContained(header, alias.names[i]);
    }
    if ExactMatch(alias, header) {
      ExactIsLoose(alias, header);
    }
  }

  // The columns not claimed by the fields before the k-th.
  function LeftAt(k: nat): set<string> {
    {"name"} + (if k <= 4 then {"cell"} else {}) + (if k <= 1 then {"pan"} else {})
  }

  lemma OtherFieldsForeign(k: nat)
    requires k < 16 && k != 1 && k != 4 && k != 15
    ensures forall h, i | h in LeftAt(k) && 0 <= i < |FieldAliases()[k].names| :: Foreign(FieldAliases()[k].names[i], h)
  {
  }

  lemma SampleClaims(k: nat)
    requires k <= 15
    ensures ClaimedBy(FieldAliases(), MAPPING, k) == (if k > 1 then {"pan"} else {}) + (if k > 4 then {"cell"} else {})
  {
    var aliases := FieldAliases();
    FieldAliasesDistinct();
    assert aliases[1].field == PanNumber && aliases[4].field == MobileNumber && aliases[15].field == ClientName;
    forall j | 0 <= j < k && aliases[j].field in MAPPING
      ensures j == 1 || j == 4
    {
      assert Position(aliases[j].field) == j;
    }
  }

  lemma ForeignUnmapped(cols: seq<string>, claimed: set<string>, alias: Alias)
    requires forall h | h in cols && h !in claimed ::
               Norm(h) == h && forall i | 0 <= i < |alias.names| :: Foreign(alias.names[i], h)
    ensures Resolved(cols, claimed, alias, None)
  {
    forall j, wantExact | 0 <= j < |cols| && cols[j] !in claimed
      ensures !Matches(alias, cols[j], wantExact)
    {
      ForeignNoMatch(alias, cols[j], wantExact);
    }
  }

  lemma OtherFieldUnmapped(k: nat)
    requires k < 16 && k != 1 && k != 4 && k != 15
    ensures Resolved(COLUMNS, ClaimedBy(FieldAliases(), MAPPING, k), FieldAliases()[k], None)
  {
    SampleClaims(k);
    forall h | h in COLUMNS && h !in ClaimedBy(FieldAliases(), MAPPING, k)
      ensures Norm(h) == h && forall i | 0 <= i < |FieldAliases()[k].names| :: Foreign(FieldAliases()[k].names[i], h)
    {
      ColumnsNormal(h);
      OtherFieldsForeign(k);
      assert h in LeftAt(k);
    }
    ForeignUnmapped(COLUMNS, ClaimedBy(FieldAliases(), MAPPING, k), FieldAliases()[k]);
  }

  lemma PanColumn()
    ensures FirstUnclaimed(COLUMNS, {}, FieldAliases()[1], true, "pan")
  {
    ColumnsNormal("name");
    ColumnsNormal("pan");
    assert COLUMNS[1] == "pan" && FieldAliases()[1].names[2] == "pan";
    assert Matches(FieldAliases()[1], COLUMNS[1], true) && !Matches(FieldAliases()[1], COLUMNS[0], true);
  }

  lemma CellColumn()
    ensures FirstUnclaimed(COLUMNS, {"pan"}, FieldAliases()[4], true, "cell")
  {
    ColumnsNormal("name");
    ColumnsNormal("cell");
    assert COLUMNS[2] == "cell" && FieldAliases()[4].names[5] == "cell";
    assert Matches(FieldAliases()[4], COLUMNS[2], true) && !Matches(FieldAliases()[4], COLUMNS[0], true);
  }

  lemma NameColumn()
    ensures FirstUnclaimed(COLUMNS, {"pan", "cell"}, FieldAliases()[15], true, "name")
  {
    ColumnsNormal("name");
    assert COLUMNS[0] == "name" && FieldAliases()[15].names[7] == "name";
    assert Matches(FieldAliases()[15], COLUMNS[0], true);
  }

  lemma FieldAt(k: nat)
    requires k < 16
    ensures Lookup(MAPPING, FieldAliases()[k].field)
         == if k == 1 then Some("pan") else if k == 4 then Some("cell") else if k == 15 then Some("name") else None
  {
    FieldAliasesDistinct();
    assert Position(FieldAliases()[k].field) == k;
  }

  lemma FieldResolved(k: nat)
    requires k < 16
    ensures Resolved(COLUMNS, ClaimedBy(FieldAliases(), MAPPING, k), FieldAliases()[k],
        Lookup(MAPPING, FieldAliases()[k].field))
  {
    FieldAt(k);
    if k == 1 {
      SampleClaims(1);
      PanColumn();
    } else if k == 4 {
      SampleClaims(4);
      CellColumn();
    } else if k == 15 {
      SampleClaims(15);
      NameColumn();
    } else {
      OtherFieldUnmapped(k);
    }
  }

  lemma SampleMapping()
    ensures SerialGreedy(FieldAliases(), COLUMNS, MAPPING)
  {
    hide Resolved, ClaimedBy;
    forall k | 0 <= k < 16
      ensures Resolved(COLUMNS, ClaimedBy(FieldAliases(), MAPPING, k), FieldAliases()[k],
          Lookup(MAPPING, FieldAliases()[k].field))
    {
      FieldResolved(k);
    }
    forall f | f in MAPPING
      ensures exists k | 0 <= k < 16 :: FieldAliases()[k].field == f
    {
      assert FieldAliases()[1].field == PanNumber && FieldAliases()[4].field == MobileNumber
          && FieldAliases()[15].field == ClientName;
    }
  }

  // ---------------------------------------------------------------- its lines

  // A visible letter is stored as it stands.
  lemma LetterCell(f: Field, s: string, dates: string -> Option<DateText>)
    requires f == ClientName || f == PanNumber || f == MobileNumber
    requires |s| == 1 && !IsSpace(s[0])
    ensures CellValue(f, s, dates) == Some(s)
  {
    StripFacts(s);
  }

  lemma RowCells(name: string, pan: string, cell: string)
    ensures Cell(Row(name, pan, cell), "name") == name
    ensures Cell(Row(name, pan, cell), "pan") == pan
    ensures Cell(Row(name, pan, cell), "cell") == cell
  {
    assert "name"[0] != "pan"[0] && "name"[0] != "cell"[0] && "pan"[0] != "cell"[0];
  }

  lemma FieldsOfLookup(row: RawRow, mapping: map<Field, string>, dates: string -> Option<DateText>, f: Field)
    ensures Lookup(FieldsOf(row, mapping, dates), f)
         == if f in mapping then CellValue(f, Cell(row, mapping[f]), dates) else None
  {
  }

  function LineFields(name: string, pan: string, cell: string): Fields {
    var named := map[ClientName := name, PanNumber := pan];
    if cell == "" then named else named[MobileNumber := cell]
  }

  lemma SampleLine(name: string, pan: string, cell: string, dates: string -> Option<DateText>)
    requires |name| == 1 && |pan| == 1 && !IsSpace(name[0]) && !IsSpace(pan[0])
    requires cell == "" || (|cell| == 1 && !IsSpace(cell[0]))
    ensures FieldsOf(Row(name, pan, cell), MAPPING, dates) == LineFields(name, pan, cell)
  {
    var row := Row(name, pan, cell);
    RowCells(name, pan, cell);
    LetterCell(ClientName, name, dates);
    LetterCell(PanNumber, pan, dates);
    if cell != "" {
      LetterCell(MobileNumber, cell, dates);
    }
    forall f
      ensures Lookup(FieldsOf(row, MAPPING, dates), f) == Lookup(LineFields(name, pan, cell), f)
    {
      FieldsOfLookup(row, MAPPING, dates, f);
    }
    SameLookups(FieldsOf(row, MAPPING, dates), LineFields(name, pan, cell));
  }

  lemma SampleItems(dates: string -> Option<DateText>)
    ensures ItemsOf(ROWS, Gst, MAPPING, dates) == REGISTER
  {
    SampleLine("A", "P", "M", dates);
    SampleLine("B", "Q", "M", dates);
    SampleLine("C", "Q", "", dates);
    assert ROWS[..0] == [] && ROWS[..3] == ROWS;
    ItemsOfSnoc(ROWS, 0, Gst, MAPPING, dates);
    ItemsOfSnoc(ROWS, 1, Gst, MAPPING, dates);
    ItemsOfSnoc(ROWS, 2, Gst, MAPPING, dates);
  }

  // The importer reads these three lines from the register.
  lemma SampleRegisterRun(dates: string -> Option<DateText>, outs: seq<RowOutcome>)
    ensures RegisterRun(FieldAliases(), ROWS, Gst, dates, REGISTER, outs, FailedLines(Gst, outs))
  {
    SampleColumns();
    SampleMapping();
    SampleItems(dates);
    assert ClientName in MAPPING;
  }
}
