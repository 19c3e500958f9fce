/** What one register line is matched with, column by column, and what a customer it creates
    looks like. */
module ImportLookup {
  import opened Text
  import opened HeaderMap
  import opened Numbering
  import opened CustomerTable
  import opened CustomerImport
  import opened ImportProperties
  import opened ImportWitnesses

  // ---------------------------------------------------------------- the priority of the keys

  // A customer of the organization has the line's value of the field, case and outer blanks aside.
  predicate Shares(t: Table, org: nat, fields: Fields, f: Field, i: nat) {
    && i < |t| && t[i].org == org && f in fields && fields[f] != "" && f in t[i].values
    && SameText(t[i].values[f], Strip(fields[f]))
  }

  predicate Nobody(t: Table, org: nat, fields: Fields, f: Field) {
    forall i | 0 <= i < |t| :: !Shares(t, org, fields, f, i)
  }

  lemma SharesIffMatches(t: Table, org: nat, fields: Fields, f: Field, i: nat)
    requires i < |t|
    ensures Shares(t, org, fields, f, i) <==> KeyMatch(t[i], org, f, fields)
  {
    if f in fields && f in t[i].values {
      LowerForgetsCase(t[i].values[f], Strip(fields[f]));
    }
  }

  lemma NobodyIffNoMatch(t: Table, org: nat, fields: Fields, f: Field)
    ensures Nobody(t, org, fields, f) <==> !HasMatch(t, org, f, fields)
  {
    forall i | 0 <= i < |t|
      ensures Shares(t, org, fields, f, i) <==> KeyMatch(t[i], org, f, fields)
    {
      SharesIffMatches(t, org, fields, f, i);
    }
  }

  // A line is matched by its GST number; only when nobody has it by its PAN; only when nobody
  // has that either by its mobile number; and only then by its e-mail address.
  lemma DuplicateIff(t: Table, org: nat, fields: Fields, i: nat)
    requires i < |t|
    ensures IsDuplicate(t, org, fields, i) <==>
            || Shares(t, org, fields, GstNumber, i)
            || (Nobody(t, org, fields, GstNumber) && Shares(t, org, fields, PanNumber, i))
            || (Nobody(t, org, fields, GstNumber) && Nobody(t, org, fields, PanNumber)
                && Shares(t, org, fields, MobileNumber, i))
            || (Nobody(t, org, fields, GstNumber) && Nobody(t, org, fields, PanNumber)
                && Nobody(t, org, fields, MobileNumber) && Shares(t, org, fields, Email, i))
  {
    assert KEYS[0] == GstNumber && KEYS[1] == PanNumber && KEYS[2] == MobileNumber && KEYS[3] == Email;
    forall f
      ensures Shares(t, org, fields, f, i) <==> KeyMatch(t[i], org, f, fields)
      ensures Nobody(t, org, fields, f) <==> !HasMatch(t, org, f, fields)
    {
      SharesIffMatches(t, org, fields, f, i);
      NobodyIffNoMatch(t, org, fields, f);
    }
    forall k: nat | k < |KEYS|
      ensures MatchedBy(t, org, fields, k, i) <==>
              KeyMatch(t[i], org, KEYS[k], fields) && forall j | 0 <= j < k :: !HasMatch(t, org, KEYS[j], fields)
    {
    }
    if Shares(t, org, fields, GstNumber, i) {
      assert MatchedBy(t, org, fields, 0, i);
    } else if Nobody(t, org, fields, GstNumber) && Shares(t, org, fields, PanNumber, i) {
      assert MatchedBy(t, org, fields, 1, i);
    } else if Nobody(t, org, fields, GstNumber) && Nobody(t, org, fields, PanNumber) {
      if Shares(t, org, fields, MobileNumber, i) {
        assert MatchedBy(t, org, fields, 2, i);
      } else if Nobody(t, org, fields, MobileNumber) && Shares(t, org, fields, Email, i) {
        assert MatchedBy(t, org, fields, 3, i);
      }
    }
  }

  lemma NoDuplicateIff(t: Table, org: nat, fields: Fields)
    ensures NoDuplicate(t, org, fields) <==>
            && Nobody(t, org, fields, GstNumber) && Nobody(t, org, fields, PanNumber)
            && Nobody(t, org, fields, MobileNumber) && Nobody(t, org, fields, Email)
  {
    assert KEYS[0] == GstNumber && KEYS[1] == PanNumber && KEYS[2] == MobileNumber && KEYS[3] == Email;
    NobodyIffNoMatch(t, org, fields, GstNumber);
    NobodyIffNoMatch(t, org, fields, PanNumber);
    NobodyIffNoMatch(t, org, fields, MobileNumber);
    NobodyIffNoMatch(t, org, fields, Email);
  }

  const WITH_MOBILE := CustomerRow(0, CodeFor(1), Gst, map[ClientName := "A", MobileNumber := "M"])
  const WITH_EMAIL := CustomerRow(0, CodeFor(2), Gst, map[ClientName := "B", Email := "E"])
  const WITH_BOTH := Item(Gst, map[ClientName := "C", MobileNumber := "M", Email := "E"])

  // A line with the mobile number of one customer and the e-mail address of another belongs
  // to the first and not to the second.
  lemma MobileBeatsEmail()
    ensures IsDuplicate([WITH_MOBILE, WITH_EMAIL], 0, WITH_BOTH.fields, 0)
    ensures !IsDuplicate([WITH_MOBILE, WITH_EMAIL], 0, WITH_BOTH.fields, 1)
  {
    var t := [WITH_MOBILE, WITH_EMAIL];
    LetterPick(t, WITH_BOTH.fields, 2, 0);
    DuplicateIff(t, 0, WITH_BOTH.fields, 1);
    LetterFacts("M", "M");
    assert Shares(t, 0, WITH_BOTH.fields, MobileNumber, 0);
    assert MobileNumber !in WITH_EMAIL.values && GstNumber !in WITH_EMAIL.values && PanNumber !in WITH_EMAIL.values;
  }

  // ---------------------------------------------------------------- what is stored

  // Every customer a run creates stands at the end of the table of its moment and carries its
  // line's register and fields; from there on it keeps its code, register and filled fields.
  lemma CreatedCarriesLine(ts: seq<Table>, org: nat, items: seq<Item>, outs: seq<RowOutcome>, k: nat)
    requires Import(ts, org, items, outs) && k < |items| && outs[k].Created?
    ensures var n := |ts[k]|;
            && |ts[k + 1]| == n + 1
            && ts[k + 1][n].org == org && ts[k + 1][n].ctype == items[k].ctype && ts[k + 1][n].values == items[k].fields
            && n < |Last(ts)| && RowKept(ts[k + 1][n], Last(ts)[n]) && Last(ts)[n].ctype == items[k].ctype
  {
    assert RowStep(ts[k], ts[k + 1], org, items[k], outs[k]);
    RunKeepsFrom(ts, org, items, outs, k + 1);
    assert RowKept(ts[k + 1][|ts[k]|], Last(ts)[|ts[k]|]);
  }

  // Some field but the name, given by the line, is blank with the customer.
  predicate HasBlankFor(values: Fields, fields: Fields) {
    exists f | f in fields :: f != ClientName && (f !in values || values[f] == "")
  }

  // What becomes of a line: without a name it is passed over; matched, it updates its customer
  // exactly when that has a blank for it, and is skipped otherwise; unmatched, it creates one
  // exactly when every code of the organization can be cast.
  lemma OutcomeIs(t: Table, t': Table, org: nat, item: Item, o: RowOutcome)
    requires RowStep(t, t', org, item, o)
    ensures o.Ignored? <==> ClientName !in item.fields || item.fields[ClientName] == ""
    ensures o.Created? || o.Failed? ==>
              && Nobody(t, org, item.fields, GstNumber) && Nobody(t, org, item.fields, PanNumber)
              && Nobody(t, org, item.fields, MobileNumber) && Nobody(t, org, item.fields, Email)
              && (o.Created? <==> forall i | 0 <= i < |t| && t[i].org == org :: Castable(t[i].code))
    ensures o.Updated? || o.Skipped? ==>
              && o.at < |t| && IsDuplicate(t, org, item.fields, o.at)
              && (o.Updated? <==> HasBlankFor(t[o.at].values, item.fields))
    ensures !o.Created? && !o.Updated? ==> t' == t
  {
    NoDuplicateIff(t, org, item.fields);
    if o.Updated? || o.Skipped? {
      assert HasBlankFor(t[o.at].values, item.fields) <==> Fillable(t[o.at].values, item.fields);
    }
  }

  // A customer a step updates takes the line's value in exactly its blank fields.
  lemma UpdatedTakesBlanks(t: Table, t': Table, org: nat, item: Item, i: nat, f: Field)
    requires RowStep(t, t', org, item, Updated(i))
    ensures Lookup(t'[i].values, f)
         == if f in item.fields && f != ClientName && (f !in t[i].values || t[i].values[f] == "")
            then Some(item.fields[f]) else Lookup(t[i].values, f)
    ensures |t'| == |t| && forall j | 0 <= j < |t| && j != i :: t'[j] == t[j]
  {
    FillLookup(t[i].values, item.fields, f);
  }

  // The first customer of an organization is CUS-0001.
  lemma FirstCodeIs(org: nat)
    ensures NextSeq([], org) == Some(1) && CodeFor(1) == "CUS-0001"
  {
    assert CodesOf([], org) == {};
    MaxSeqUnique(CustomerCode, {}, 0);
    assert Print(1) == "1" && "0" + "1" == "01" && "0" + "01" == "001" && "0" + "001" == "0001";
    assert Pad("001", 4) == "0001";
    assert Pad("01", 4) == "0001";
    assert Pad("1", 4) == "0001";
  }

  // The columns of the customers table, None for those without a limit.
  function ColumnWidth(f: Field): Option<nat> {
    match f
    case ClientName => Some(255)
    case BusinessName => Some(255)
    case ProprietorName => Some(255)
    case MobileNumber => Some(40)
    case AlternateMobile => Some(40)
    case Email => Some(255)
    case DateOfBirth => None
    case GstNumber => Some(20)
    case PanNumber => Some(20)
    case AadhaarNumber => Some(20)
    case AddressLine1 => None
    case AddressLine2 => None
    case City => Some(120)
    case State => Some(120)
    case Pincode => Some(12)
    case Remarks => None
  }

  // Whatever a cell holds fits its column, and a text that fits is not shortened.
  lemma CellFitsColumn(f: Field, raw: string, dates: string -> Option<DateText>)
    requires CellValue(f, raw, dates).Some? && f != DateOfBirth
    ensures var v := CellValue(f, raw, dates).value;
            && (ColumnWidth(f).Some? ==> |v| <= ColumnWidth(f).value)
            && (ColumnWidth(f).None? || |Strip(raw)| <= ColumnWidth(f).value ==> SameText(v, Strip(raw)))
            && (f != Email ==> v <= Strip(raw))
  {
    CellValueFits(f, raw, dates);
    StripFacts(raw);
  }

  // A date of birth is what the date reader makes of the cell, and nothing if it cannot.
  lemma DatesAreRead(raw: string, dates: string -> Option<DateText>)
    ensures CellValue(DateOfBirth, raw, dates).Some? <==> raw != "" && dates(raw).Some?
    ensures raw != "" && dates(raw).Some? ==> CellValue(DateOfBirth, raw, dates).value == dates(raw).value
  {
  }

  // ---------------------------------------------------------------- what is reported

  // The lines reported as failed are exactly those that failed, counted from 2 below the header.
  lemma {:induction false} FailedLinesAre(ctype: CustomerType, outs: seq<RowOutcome>, line: nat)
    ensures RowFailed(ctype, line) in FailedLines(ctype, outs) <==>
            line >= 2 && line - 2 < |outs| && outs[line - 2].Failed?
  {
    if outs != [] {
      FailedLinesAre(ctype, outs[..|outs| - 1], line);
    }
  }
}
