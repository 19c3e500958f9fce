/** Concrete registers on which the importer does less than its documentation promises. */
module ImportWitnesses {
  import opened Text
  import opened HeaderMap
  import opened Numbering
  import opened CustomerTable
  import opened ImportProperties
  import opened ImportUniqueness
  import opened CustomerImport
  import opened SampleRegister

  // One-letter values: trimmed, visible, and equal up to case only to themselves.
  predicate Letter(s: string) {
    |s| == 1 && 'A' <= s[0] <= 'Z'
  }

  lemma LetterFacts(s: string, t: string)
    requires Letter(s) && Letter(t)
    ensures Trimmed(s) && Strip(s) == s
    ensures Lower(s) == Lower(Strip(t)) <==> s == t
  {
    StripFacts(s);
    StripFacts(t);
    assert Lower(s)[0] == LowerChar(s[0]) && Lower(t)[0] == LowerChar(t[0]);
  }

  predicate Letters(fields: Fields) {
    forall f | f in fields :: Letter(fields[f])
  }

  // Among letter-valued fields a key matches exactly on equality.
  lemma LetterMatch(row: CustomerRow, org: nat, f: Field, fields: Fields)
    requires Letters(fields) && Letters(row.values) && row.org == org
    ensures KeyMatch(row, org, f, fields) <==> f in fields && f in row.values && row.values[f] == fields[f]
  {
    if f in fields && f in row.values {
      LetterFacts(row.values[f], fields[f]);
    }
  }

  lemma LetterMatches(t: Table, org: nat, fields: Fields)
    requires Letters(fields) && forall i | 0 <= i < |t| :: t[i].org == org && Letters(t[i].values)
    ensures forall i, f | 0 <= i < |t| ::
              KeyMatch(t[i], org, f, fields) <==> f in fields && f in t[i].values && t[i].values[f] == fields[f]
  {
    forall i, f | 0 <= i < |t|
      ensures KeyMatch(t[i], org, f, fields) <==> f in fields && f in t[i].values && t[i].values[f] == fields[f]
    {
      LetterMatch(t[i], org, f, fields);
    }
  }

  const ONE := CustomerRow(0, CodeFor(1), Gst, A.fields)
  const TWO := CustomerRow(0, CodeFor(2), Gst, C.fields)
  const TWO_FILLED := CustomerRow(0, CodeFor(2), Gst, C.fields[MobileNumber := "M"])

  lemma NextCodes()
    ensures NextSeq([], 0) == Some(1) && NextSeq([ONE], 0) == Some(2)
  {
    assert CodesOf([], 0) == {};
    MaxSeqUnique(CustomerCode, {}, 0);
    CreationTakesNextCode([], 0, A);
    assert [] + [NewRow(0, 1, A)] == [ONE];
  }

  lemma FirstStep()
    ensures RowStep([], [ONE], 0, A, Created)
  {
    NextCodes();
    assert [] + [NewRow(0, 1, A)] == [ONE];
  }

  // Key number k picks customer i: it carries the line's value, and the line has no higher
  // key that anybody carries.
  lemma LetterPick(t: Table, fields: Fields, k: nat, i: nat)
    requires Letters(fields) && forall j | 0 <= j < |t| :: t[j].org == 0 && Letters(t[j].values)
    requires k < |KEYS| && i < |t| && KEYS[k] in fields
    requires Lookup(t[i].values, KEYS[k]) == Some(fields[KEYS[k]])
    requires forall m, j | 0 <= m < k && 0 <= j < |t| ::
               KEYS[m] in fields ==> Lookup(t[j].values, KEYS[m]) != Some(fields[KEYS[m]])
    ensures IsDuplicate(t, 0, fields, i)
  {
    LetterMatches(t, 0, fields);
    assert MatchedBy(t, 0, fields, k, i);
  }

  // No customer carries any of the line's keys.
  lemma LetterNobody(t: Table, fields: Fields)
    requires Letters(fields) && forall j | 0 <= j < |t| :: t[j].org == 0 && Letters(t[j].values)
    requires forall k, j | 0 <= k < |KEYS| && 0 <= j < |t| ::
               KEYS[k] in fields ==> Lookup(t[j].values, KEYS[k]) != Some(fields[KEYS[k]])
    ensures NoDuplicate(t, 0, fields)
  {
    LetterMatches(t, 0, fields);
  }

  lemma BPicksOne()
    ensures IsDuplicate([ONE], 0, B.fields, 0)
  {
    LetterPick([ONE], B.fields, 2, 0);
  }

  lemma SecondStep()
    ensures RowStep([ONE], [ONE], 0, B, Skipped(0))
  {
    BPicksOne();
  }

  lemma UpdateStep(t: Table, item: Item, i: nat, row: CustomerRow)
    requires Named(item.fields) && IsDuplicate(t, 0, item.fields, i) && i < |t|
    requires Fillable(t[i].values, item.fields) && row == t[i].(values := Fill(t[i].values, item.fields))
    ensures RowStep(t, t[i := row], 0, item, Updated(i))
  {
  }

  lemma BFillsTwo()
    ensures Fillable(TWO.values, B.fields) && Fill(TWO.values, B.fields) == TWO_FILLED.values
  {
    assert MobileNumber in B.fields && Blank(TWO.values, MobileNumber);
    assert Fill(TWO.values, B.fields).Keys == TWO_FILLED.values.Keys;
  }

  lemma CreateStep(t: Table, item: Item, n: nat)
    requires Named(item.fields) && NoDuplicate(t, 0, item.fields) && NextSeq(t, 0) == Some(n)
    ensures RowStep(t, t + [NewRow(0, n, item)], 0, item, Created)
  {
  }

  lemma CFindsNobody()
    ensures NoDuplicate([ONE], 0, C.fields)
  {
    LetterNobody([ONE], C.fields);
  }

  lemma ThirdStep()
    ensures RowStep([ONE], [ONE, TWO], 0, C, Created)
  {
    NextCodes();
    CFindsNobody();
    CreateStep([ONE], C, 2);
    assert [ONE] + [NewRow(0, 2, C)] == [ONE, TWO];
  }

  lemma AgainFirst()
    ensures RowStep([ONE, TWO], [ONE, TWO], 0, A, Skipped(0))
  {
    LetterPick([ONE, TWO], A.fields, 1, 0);
  }

  lemma BPicksTwo()
    ensures IsDuplicate([ONE, TWO], 0, B.fields, 1)
  {
    LetterPick([ONE, TWO], B.fields, 1, 1);
  }

  lemma AgainSecond()
    ensures RowStep([ONE, TWO], [ONE, TWO_FILLED], 0, B, Updated(1))
  {
    BPicksTwo();
    BFillsTwo();
    UpdateStep([ONE, TWO], B, 1, TWO_FILLED);
    assert [ONE, TWO][1 := TWO_FILLED] == [ONE, TWO_FILLED];
  }

  lemma AgainThird()
    ensures RowStep([ONE, TWO_FILLED], [ONE, TWO_FILLED], 0, C, Skipped(1))
  {
    LetterPick([ONE, TWO_FILLED], C.fields, 1, 1);
  }

  lemma TwoSteps(t0: Table, t1: Table, t2: Table, o1: RowOutcome, o2: RowOutcome)
    requires RowStep(t0, t1, 0, A, o1) && RowStep(t1, t2, 0, B, o2)
    ensures Import([t0, t1, t2], 0, [A, B], [o1, o2])
  {
    ValidLetters();
    EmptyImport(t0, 0);
    ImportSnoc([t0], t1, 0, [], A, [], o1);
    assert [t0] + [t1] == [t0, t1] && [] + [A] == [A] && [] + [o1] == [o1];
    ImportSnoc([t0, t1], t2, 0, [A], B, [o1], o2);
    assert [t0, t1] + [t2] == [t0, t1, t2] && [A] + [B] == [A, B] && [o1] + [o2] == [o1, o2];
  }

  lemma ThreeSteps(t0: Table, t1: Table, t2: Table, t3: Table, o1: RowOutcome, o2: RowOutcome, o3: RowOutcome)
    requires RowStep(t0, t1, 0, A, o1) && RowStep(t1, t2, 0, B, o2) && RowStep(t2, t3, 0, C, o3)
    ensures Import([t0, t1, t2, t3], 0, REGISTER, [o1, o2, o3])
  {
    ValidLetters();
    TwoSteps(t0, t1, t2, o1, o2);
    ImportSnoc([t0, t1, t2], t3, 0, [A, B], C, [o1, o2], o3);
    assert [t0, t1, t2] + [t3] == [t0, t1, t2, t3] && [A, B] + [C] == REGISTER;
    assert [o1, o2] + [o3] == [o1, o2, o3];
  }

  lemma ValidLetters()
    ensures ValidFields(A.fields) && ValidFields(B.fields) && ValidFields(C.fields)
  {
  }

  lemma RegisterFindable()
    ensures forall k | 0 <= k < |REGISTER| :: Findable(REGISTER[k].fields)
  {
    assert KEYS[1] == PanNumber;
  }

  // One register of three lines, all with trimmed keys and no ties: the second run over the
  // very same sheet still updates a customer, so the import is not idempotent after one run.
  lemma SecondRunMayUpdate(dates: string -> Option<DateText>)
    returns (ts: seq<Table>, us: seq<Table>, outs: seq<RowOutcome>, outs': seq<RowOutcome>)
    ensures RegisterRun(FieldAliases(), ROWS, Gst, dates, REGISTER, outs, [])
    ensures RegisterRun(FieldAliases(), ROWS, Gst, dates, REGISTER, outs', [])
    ensures Import(ts, 0, REGISTER, outs) && ts[0] == []
    ensures Import(us, 0, REGISTER, outs') && us[0] == Last(ts)
    ensures forall k | 0 <= k < |REGISTER| :: Findable(REGISTER[k].fields)
    ensures Last(us) != us[0] && exists k | 0 <= k < |outs'| :: outs'[k].Updated?
  {
    hide RegisterRun, Import;
    ts, outs := FirstRun();
    us, outs' := SecondRun();
    SampleRegisterRun(dates, outs);
    SampleRegisterRun(dates, outs');
    RegisterFindable();
    assert MobileNumber in TWO_FILLED.values && MobileNumber !in TWO.values;
  }

  lemma FirstRun() returns (ts: seq<Table>, outs: seq<RowOutcome>)
    ensures Import(ts, 0, REGISTER, outs) && ts[0] == [] && Last(ts) == [ONE, TWO] && FailedLines(Gst, outs) == []
  {
    FirstStep();
    SecondStep();
    ThirdStep();
    ThreeSteps([], [ONE], [ONE], [ONE, TWO], Created, Skipped(0), Created);
    ts, outs := [[], [ONE], [ONE], [ONE, TWO]], [Created, Skipped(0), Created];
    NoFailedLines(outs);
  }

  lemma SecondRun() returns (us: seq<Table>, outs: seq<RowOutcome>)
    ensures Import(us, 0, REGISTER, outs) && us[0] == [ONE, TWO] && Last(us) == [ONE, TWO_FILLED]
    ensures |outs| == 3 && outs[1].Updated? && FailedLines(Gst, outs) == []
  {
    AgainFirst();
    AgainSecond();
    AgainThird();
    var t, u := [ONE, TWO], [ONE, TWO_FILLED];
    ThreeSteps(t, t, u, u, Skipped(0), Updated(1), Skipped(1));
    us, outs := [t, t, u, u], [Skipped(0), Updated(1), Skipped(1)];
    NoFailedLines(outs);
  }

  lemma {:induction false} NoFailedLines(outs: seq<RowOutcome>)
    requires forall k | 0 <= k < |outs| :: !outs[k].Failed?
    ensures FailedLines(Gst, outs) == []
  {
    if outs != [] {
      NoFailedLines(outs[..|outs| - 1]);
    }
  }

  // ---------------------------------------------------------------- duplicates

  // A line without a key its own lookup finds - no key at all, or only keys cut behind a
  // space - is imported anew every time: twice into an empty table makes two customers.
  lemma UnfindableLineIsDuplicated(item: Item)
    requires Named(item.fields) && ValidFields(item.fields) && !Findable(item.fields)
    ensures exists t, t' :: RowStep([], t, 0, item, Created) && RowStep(t, t', 0, item, Created) && |t'| == 2
  {
    assert CodesOf([], 0) == {};
    MaxSeqUnique(CustomerCode, {}, 0);
    CreationTakesNextCode([], 0, item);
    var t := [] + [NewRow(0, 1, item)];
    assert RowStep([], t, 0, item, Created);
    CreatedMatchesItself([], t, 0, item);
    var t' := t + [NewRow(0, 2, item)];
    assert RowStep(t, t', 0, item, Created);
  }

  const HAS_GST := CustomerRow(0, CodeFor(1), Gst, map[ClientName := "A", GstNumber := "G"])
  const HAS_PAN := CustomerRow(0, CodeFor(2), IncomeTax, map[ClientName := "B", PanNumber := "P"])
  const BOTH := Item(Gst, map[ClientName := "C", GstNumber := "G", PanNumber := "P"])

  const NOW_BOTH := CustomerRow(0, CodeFor(1), Gst, map[ClientName := "A", GstNumber := "G", PanNumber := "P"])

  lemma GstPicksFirst()
    ensures IsDuplicate([HAS_GST, HAS_PAN], 0, BOTH.fields, 0)
  {
    LetterPick([HAS_GST, HAS_PAN], BOTH.fields, 0, 0);
  }

  lemma PanIsFilled()
    ensures Fillable(HAS_GST.values, BOTH.fields) && Fill(HAS_GST.values, BOTH.fields) == NOW_BOTH.values
  {
    assert PanNumber in BOTH.fields && Blank(HAS_GST.values, PanNumber);
    assert Fill(HAS_GST.values, BOTH.fields).Keys == NOW_BOTH.values.Keys;
  }

  // One line carrying the GST number of one customer and the PAN of another gives both the
  // same PAN.
  lemma PanMayBecomeShared()
    ensures ValidFields(BOTH.fields) && UniqueKey([HAS_GST, HAS_PAN], 0, PanNumber)
    ensures exists t' :: RowStep([HAS_GST, HAS_PAN], t', 0, BOTH, Updated(0)) && !UniqueKey(t', 0, PanNumber)
  {
    GstPicksFirst();
    PanIsFilled();
    UpdateStep([HAS_GST, HAS_PAN], BOTH, 0, NOW_BOTH);
    var t' := [HAS_GST, HAS_PAN][0 := NOW_BOTH];
    SharedPan(t');
    assert RowStep([HAS_GST, HAS_PAN], t', 0, BOTH, Updated(0));
  }

  lemma SharedPan(t: Table)
    requires t == [NOW_BOTH, HAS_PAN]
    ensures !UniqueKey(t, 0, PanNumber)
  {
    assert t[0].values[PanNumber] == "P" && t[1].values[PanNumber] == "P";
  }
}
