/** A sheet whose headers are written as people write them - in mixed case, and one of them
    only containing an alias - and the one map the importer makes of it. */
module SampleHeaders {
  import opened Text
  import opened HeaderMap
  import opened SampleRegister

  const HEADERS := ["Email ID", "GSTIN", "Mobile No", "Client Name"]

  const HEADER_MAP :=
    map[GstNumber := "GSTIN", MobileNumber := "Mobile No", Email := "Email ID", ClientName := "Client Name"]

  lemma MixedNorms()
    ensures Norm("Email ID") == "email id" && Norm("GSTIN") == "gstin"
    ensures Norm("Mobile No") == "mobile no" && Norm("Client Name") == "client name"
  {
    StripFacts("Email ID");
    StripFacts("GSTIN");
    StripFacts("Mobile No");
    StripFacts("Client Name");
    assert Lower("Email ID") == "email id" && Lower("GSTIN") == "gstin";
    assert Lower("Mobile No") == "mobile no" && Lower("Client Name") == "client name";
  }

  // Each alias is too long for the text or has, at the given place, a character it lacks.
  predicate AllForeign(alias: Alias, text: string, places: seq<nat>) {
    && |places| == |alias.names|
    && forall i | 0 <= i < |places| ::
         |alias.names[i]| > |text| || (places[i] < |alias.names[i]| && alias.names[i][places[i]] !in text)
  }

  predicate NotNamed(alias: Alias, header: string) {
    !Matches(alias, header, true) && !Matches(alias, header, false)
  }

  lemma ForeignHeader(alias: Alias, header: string, text: string, places: seq<nat>)
    requires Norm(header) == text && AllForeign(alias, text, places)
    ensures NotNamed(alias, header)
  {
    forall i, at: nat | 0 <= i < |alias.names| && at <= |text|
      ensures !OccursAt(text, alias.names[i], at)
    {
      if OccursAt(text, alias.names[i], at) {
        OccurrenceCharacters(text, alias.names[i], at);
      }
    }
    if ExactMatch(alias, header) {
      ExactIsLoose(alias, header);
    }
  }

  // ---------------------------------------------------------------- fields without a column

  lemma PanNumberNotEmail()
    ensures NotNamed(FieldAliases()[1], "Email ID")
  {
    MixedNorms();
    ForeignHeader(FieldAliases()[1], "Email ID", "email id", [0, 0, 0]);
  }

  lemma PanNumberNotMobile()
    ensures NotNamed(FieldAliases()[1], "Mobile No")
  {
    MixedNorms();
    ForeignHeader(FieldAliases()[1], "Mobile No", "mobile no", [0, 0, 0]);
  }

  lemma PanNumberNotClient()
    ensures NotNamed(FieldAliases()[1], "Client Name")
  {
    MixedNorms();
    ForeignHeader(FieldAliases()[1], "Client Name", "client name", [0, 0, 0]);
  }

  lemma AadhaarNumberNotEmail()
    ensures NotNamed(FieldAliases()[2], "Email ID")
  {
    MixedNorms();
    ForeignHeader(FieldAliases()[2], "Email ID", "email id", [3, 3, 0]);
  }

  lemma AadhaarNumberNotMobile()
    ensures NotNamed(FieldAliases()[2], "Mobile No")
  {
    MixedNorms();
    ForeignHeader(FieldAliases()[2], "Mobile No", "mobile no", [0, 0, 0]);
  }

  lemma AadhaarNumberNotClient()
    ensures NotNamed(FieldAliases()[2], "Client Name")
  {
    MixedNorms();
    ForeignHeader(FieldAliases()[2], "Client Name", "client name", [2, 2, 0]);
  }

  lemma AlternateMobileNotEmail()
    ensures NotNamed(FieldAliases()[3], "Email ID")
  {
    MixedNorms();
    ForeignHeader(FieldAliases()[3], "Email ID", "email id", [0, 0, 0, 0, 1, 0, 0]);
  }

  lemma AlternateMobileNotMobile()
    ensures NotNamed(FieldAliases()[3], "Mobile No")
  {
    MixedNorms();
    ForeignHeader(FieldAliases()[3], "Mobile No", "mobile no", [0, 0, 0, 0, 7, 0, 0]);
  }

  lemma AlternateMobileNotClient()
    ensures NotNamed(FieldAliases()[3], "Client Name")
  {
    MixedNorms();
    ForeignHeader(FieldAliases()[3], "Client Name", "client name", [4, 5, 4, 0, 1, 0, 1]);
  }

  lemma DateOfBirthNotClient()
    ensures NotNamed(FieldAliases()[6], "Client Name")
  {
    MixedNorms();
    ForeignHeader(FieldAliases()[6], "Client Name", "client name", [0, 0, 0]);
  }

  lemma BusinessNameNotClient()
    ensures NotNamed(FieldAliases()[7], "Client Name")
  {
    MixedNorms();
    ForeignHeader(FieldAliases()[7], "Client Name", "client name", [0, 0, 1, 0, 0, 0, 1]);
  }

  lemma ProprietorNameNotClient()
    ensures NotNamed(FieldAliases()[8], "Client Name")
  {
    MixedNorms();
    ForeignHeader(FieldAliases()[8], "Client Name", "client name", [0, 0, 0, 0, 0, 0]);
  }

  lemma AddressLine2NotClient()
    ensures NotNamed(FieldAliases()[9], "Client Name")
  {
    MixedNorms();
    ForeignHeader(FieldAliases()[9], "Client Name", "client name", [1, 0, 1, 0]);
  }

  lemma AddressLine1NotClient()
    ensures NotNamed(FieldAliases()[10], "Client Name")
  {
    MixedNorms();
    ForeignHeader(FieldAliases()[10], "Client Name", "client name", [1, 0, 1, 1, 0, 0]);
  }

  lemma CityNotClient()
    ensures NotNamed(FieldAliases()[11], "Client Name")
  {
    MixedNorms();
    ForeignHeader(FieldAliases()[11], "Client Name", "client name", [3, 1, 0, 0]);
  }

  lemma StateNotClient()
    ensures NotNamed(FieldAliases()[12], "Client Name")
  {
    MixedNorms();
    ForeignHeader(FieldAliases()[12], "Client Name", "client name", [0]);
  }

  lemma PincodeNotClient()
    ensures NotNamed(FieldAliases()[13], "Client Name")
  {
    MixedNorms();
    ForeignHeader(FieldAliases()[13], "Client Name", "client name", [0, 0, 0, 0, 0]);
  }

  lemma RemarksNotClient()
    ensures NotNamed(FieldAliases()[14], "Client Name")
  {
    MixedNorms();
    ForeignHeader(FieldAliases()[14], "Client Name", "client name", [0, 0, 1, 1, 1, 0]);
  }

  // The fields that no column is left for.
  predicate Columnless(k: nat) {
    1 <= k <= 3 || 6 <= k <= 14
  }

  lemma EarlyFieldsUnnamed(k: nat)
    requires 1 <= k <= 3
    ensures NotNamed(FieldAliases()[k], "Email ID") && NotNamed(FieldAliases()[k], "Mobile No")
    ensures NotNamed(FieldAliases()[k], "Client Name")
  {
    hide NotNamed, FieldAliases;
    if k == 1 {
      PanNumberNotEmail();
      PanNumberNotMobile();
      PanNumberNotClient();
    } else if k == 2 {
      AadhaarNumberNotEmail();
      AadhaarNumberNotMobile();
      AadhaarNumberNotClient();
    } else {
      AlternateMobileNotEmail();
      AlternateMobileNotMobile();
      AlternateMobileNotClient();
    }
  }

  lemma LateFieldsUnnamed(k: nat)
    requires 6 <= k <= 14
    ensures NotNamed(FieldAliases()[k], "Client Name")
  {
    hide NotNamed, FieldAliases;
    match k
    case 6 => DateOfBirthNotClient();
    case 7 => BusinessNameNotClient();
    case 8 => ProprietorNameNotClient();
    case 9 => AddressLine2NotClient();
    case 10 => AddressLine1NotClient();
    case 11 => CityNotClient();
    case 12 => StateNotClient();
    case 13 => PincodeNotClient();
    case 14 => RemarksNotClient();
  }

  // ---------------------------------------------------------------- the map

  function ClaimedAt(k: nat): set<string> {
    if k == 0 then {} else if k <= 4 then {"GSTIN"} else if k == 5 then {"GSTIN", "Mobile No"}
    else {"GSTIN", "Mobile No", "Email ID"}
  }

  lemma HeaderClaims(k: nat)
    requires k <= 15
    ensures ClaimedBy(FieldAliases(), HEADER_MAP, k) == ClaimedAt(k)
  {
    var aliases := FieldAliases();
    FieldAliasesDistinct();
    assert aliases[0].field == GstNumber && aliases[4].field == MobileNumber;
    assert aliases[5].field == Email && aliases[15].field == ClientName;
    forall j | 0 <= j < k && aliases[j].field in HEADER_MAP
      ensures j == 0 || j == 4 || j == 5
    {
      assert Position(aliases[j].field) == j;
    }
  }

  lemma UnnamedResolved(cols: seq<string>, claimed: set<string>, alias: Alias)
    requires forall h | h in cols && h !in claimed :: NotNamed(alias, h)
    ensures Resolved(cols, claimed, alias, None)
  {
  }

  lemma ColumnlessResolved(k: nat)
    requires Columnless(k)
    ensures Resolved(HEADERS, ClaimedBy(FieldAliases(), HEADER_MAP, k), FieldAliases()[k], None)
  {
    hide NotNamed;
    HeaderClaims(k);
    if k <= 3 {
      EarlyFieldsUnnamed(k);
    } else {
      LateFieldsUnnamed(k);
    }
    UnnamedResolved(HEADERS, ClaimedBy(FieldAliases(), HEADER_MAP, k), FieldAliases()[k]);
  }

  lemma GstColumn()
    ensures FirstUnclaimed(HEADERS, {}, FieldAliases()[0], true, "GSTIN")
  {
    MixedNorms();
    assert HEADERS[1] == "GSTIN" && FieldAliases()[0].names[0] == "gstin";
    assert Matches(FieldAliases()[0], HEADERS[1], true) && !Matches(FieldAliases()[0], HEADERS[0], true);
  }

  lemma MobileColumn()
    ensures FirstUnclaimed(HEADERS, {"GSTIN"}, FieldAliases()[4], true, "Mobile No")
  {
    MixedNorms();
    assert HEADERS[2] == "Mobile No" && FieldAliases()[4].names[0] == "mobile no";
    assert Matches(FieldAliases()[4], HEADERS[2], true) && !Matches(FieldAliases()[4], HEADERS[0], true);
  }

  // No header is an e-mail alias, and the first one contains one.
  lemma EmailColumn()
    ensures NoUnclaimed(HEADERS, {"GSTIN", "Mobile No"}, FieldAliases()[5], true)
    ensures FirstUnclaimed(HEADERS, {"GSTIN", "Mobile No"}, FieldAliases()[5], false, "Email ID")
  {
    MixedNorms();
    var alias := FieldAliases()[5];
    assert !Matches(alias, "Email ID", true) && !Matches(alias, "Client Name", true);
    assert alias.names[0] == "email" && "email id"[0..5] == "email";
    assert OccursAt("email id", alias.names[0], 0);
    assert HEADERS[0] == "Email ID" && Matches(alias, HEADERS[0], false);
  }

  lemma NameColumn()
    ensures FirstUnclaimed(HEADERS, {"GSTIN", "Mobile No", "Email ID"}, FieldAliases()[15], true, "Client Name")
  {
    MixedNorms();
    assert HEADERS[3] == "Client Name" && FieldAliases()[15].names[0] == "client name";
    assert Matches(FieldAliases()[15], HEADERS[3], true);
  }

  function ColumnOf(k: nat): Option<string> {
    if k == 0 then Some("GSTIN") else if k == 4 then Some("Mobile No")
    else if k == 5 then Some("Email ID") else if k == 15 then Some("Client Name") else None
  }

  lemma MappedTo(k: nat)
    requires k < 16
    ensures Lookup(HEADER_MAP, FieldAliases()[k].field) == ColumnOf(k)
  {
    FieldAliasesDistinct();
    assert Position(FieldAliases()[k].field) == k;
  }

  lemma HeaderResolved(k: nat)
    requires k < 16
    ensures Resolved(HEADERS, ClaimedBy(FieldAliases(), HEADER_MAP, k), FieldAliases()[k], ColumnOf(k))
  {
    hide FieldAliases, FirstUnclaimed, NoUnclaimed, ClaimedBy;
    if Columnless(k) {
      ColumnlessResolved(k);
    } else {
      HeaderClaims(k);
      if k == 0 {
        GstColumn();
      } else if k == 4 {
        MobileColumn();
      } else if k == 5 {
        EmailColumn();
      } else {
        NameColumn();
      }
    }
  }

  lemma HeadersAreColumns()
    ensures Columns(HEADERS) == HEADERS
  {
    MixedNorms();
    StripFacts("Email ID");
    StripFacts("GSTIN");
    StripFacts("Mobile No");
    StripFacts("Client Name");
    NonBlankThree("Email ID", "GSTIN", "Mobile No");
    NonBlankSnoc(["Email ID", "GSTIN", "Mobile No"], "Client Name");
    assert ["Email ID", "GSTIN", "Mobile No"] + ["Client Name"] == HEADERS;
    DistinctItself(HEADERS);
  }

  lemma HeadersMapped()
    ensures SerialGreedy(FieldAliases(), HEADERS, HEADER_MAP)
  {
    hide Resolved, ClaimedBy;
    forall k | 0 <= k < 16
      ensures Resolved(HEADERS, ClaimedBy(FieldAliases(), HEADER_MAP, k), FieldAliases()[k],
                       Lookup(HEADER_MAP, FieldAliases()[k].field))
    {
      HeaderResolved(k);
      MappedTo(k);
    }
    forall f | f in HEADER_MAP
      ensures exists k | 0 <= k < 16 :: FieldAliases()[k].field == f
    {
      assert FieldAliases()[0].field == GstNumber && FieldAliases()[4].field == MobileNumber;
      assert FieldAliases()[5].field == Email && FieldAliases()[15].field == ClientName;
    }
  }

  // Whatever the case of its letters, each header is found by the field it names, exactly or
  // by containing an alias; the only map that follows the rule is this one.
  lemma MixedHeadersMapped(mapping: map<Field, string>)
    ensures SerialGreedy(FieldAliases(), Columns(HEADERS), mapping) <==> mapping == HEADER_MAP
  {
    hide SerialGreedy, Columns, FieldAliases;
    HeadersAreColumns();
    HeadersMapped();
    if SerialGreedy(FieldAliases(), HEADERS, mapping) {
      SerialGreedyUnique(FieldAliases(), HEADERS, mapping, HEADER_MAP);
    }
  }
}
