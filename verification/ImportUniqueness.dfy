/** Which identifiers an import keeps unique: generated codes always, GST numbers when they
    are trimmed, PAN numbers not even then. */
module ImportUniqueness {
  import opened Text
  import opened HeaderMap
  import opened Numbering
  import opened CustomerTable
  import opened ImportProperties

  // ---------------------------------------------------------------- GST and PAN numbers

  // No two customers of the organization share a non-blank value of the field, case aside.
  ghost predicate UniqueKey(t: Table, org: nat, f: Field) {
    forall i, j | 0 <= i < j < |t| && t[i].org == org && t[j].org == org
                  && !Blank(t[i].values, f) && !Blank(t[j].values, f) ::
      Lower(t[i].values[f]) != Lower(t[j].values[f])
  }

  predicate TrimmedIn(fields: Fields, f: Field) {
    !Blank(fields, f) ==> Trimmed(fields[f])
  }

  // Some customer of the organization has the value already, case aside.
  ghost predicate Held(t: Table, org: nat, f: Field, value: string) {
    exists i | 0 <= i < |t| :: t[i].org == org && !Blank(t[i].values, f) && Lower(t[i].values[f]) == Lower(value)
  }

  // The lookup asks whether the stripped value is held: the same thing when it is trimmed.
  lemma HeldIffMatched(t: Table, org: nat, f: Field, fields: Fields)
    requires ValidFields(fields) && !Blank(fields, f) && Trimmed(fields[f])
    ensures Held(t, org, f, fields[f]) <==> HasMatch(t, org, f, fields)
  {
    StripFacts(fields[f]);
    if HasMatch(t, org, f, fields) {
      var i :| 0 <= i < |t| && KeyMatch(t[i], org, f, fields);
      KeyMatchNonBlank(t[i], org, f, fields);
    }
    if Held(t, org, f, fields[f]) {
      var i :| 0 <= i < |t| && t[i].org == org && !Blank(t[i].values, f) && Lower(t[i].values[f]) == Lower(fields[f]);
      assert KeyMatch(t[i], org, f, fields);
    }
  }

  // Writing a value keeps the field unique exactly when nobody holds it.
  lemma WriteKeepsUniqueIff(t: Table, t': Table, org: nat, f: Field, value: string, w: nat)
    requires UniqueKey(t, org, f) && value != ""
    requires w < |t'| <= |t| + 1 && (|t'| == |t| + 1 ==> w == |t|) && |t| <= |t'|
    requires forall i | 0 <= i < |t'| && i != w :: t'[i] == t[i]
    requires t'[w].org == org && Lookup(t'[w].values, f) == Some(value) && (w < |t| ==> Blank(t[w].values, f))
    ensures UniqueKey(t', org, f) <==> !Held(t, org, f, value)
  {
    if Held(t, org, f, value) {
      var i :| 0 <= i < |t| && t[i].org == org && !Blank(t[i].values, f) && Lower(t[i].values[f]) == Lower(value);
      assert i != w && t'[i] == t[i];
    } else {
      forall i, j | 0 <= i < j < |t'| && t'[i].org == org && t'[j].org == org
                    && !Blank(t'[i].values, f) && !Blank(t'[j].values, f)
        ensures Lower(t'[i].values[f]) != Lower(t'[j].values[f])
      {
        assert i != w ==> t'[i] == t[i];
        assert j != w ==> t'[j] == t[j];
      }
    }
  }

  lemma UntouchedKeepsUnique(t: Table, t': Table, org: nat, f: Field)
    requires UniqueKey(t, org, f) && |t| <= |t'|
    requires forall i | 0 <= i < |t| :: t'[i].org == t[i].org && Lookup(t'[i].values, f) == Lookup(t[i].values, f)
    requires forall i | |t| <= i < |t'| :: Blank(t'[i].values, f)
    ensures UniqueKey(t', org, f)
  {
    forall i, j | 0 <= i < j < |t'| && t'[i].org == org && t'[j].org == org
                  && !Blank(t'[i].values, f) && !Blank(t'[j].values, f)
      ensures Lower(t'[i].values[f]) != Lower(t'[j].values[f])
    {
      assert Lookup(t'[i].values, f) == Lookup(t[i].values, f);
      assert Lookup(t'[j].values, f) == Lookup(t[j].values, f);
    }
  }

  // The field a step writes, and where.
  ghost predicate Writes(t: Table, item: Item, o: RowOutcome, f: Field) {
    && f != ClientName && !Blank(item.fields, f)
    && (o.Created? || (o.Updated? && o.at < |t| && Blank(t[o.at].values, f)))
  }

  lemma StepWithoutWriteKeepsUnique(t: Table, t': Table, org: nat, item: Item, o: RowOutcome, f: Field)
    requires RowStep(t, t', org, item, o) && ValidFields(item.fields) && f != ClientName
    requires UniqueKey(t, org, f) && !Writes(t, item, o, f)
    ensures UniqueKey(t', org, f)
  {
    UntouchedKeepsUnique(t, t', org, f);
  }

  lemma DuplicateInOrg(t: Table, org: nat, fields: Fields, i: nat)
    requires IsDuplicate(t, org, fields, i)
    ensures i < |t| && t[i].org == org
  {
  }

  // A step loses the uniqueness of a field exactly when it writes a value somebody holds.
  lemma StepKeepsUniqueIff(t: Table, t': Table, org: nat, item: Item, o: RowOutcome, f: Field)
    requires RowStep(t, t', org, item, o) && ValidFields(item.fields) && f != ClientName && UniqueKey(t, org, f)
    ensures UniqueKey(t', org, f) <==> !(Writes(t, item, o, f) && Held(t, org, f, item.fields[f]))
  {
    if !Writes(t, item, o, f) {
      StepWithoutWriteKeepsUnique(t, t', org, item, o, f);
    } else {
      if o.Updated? {
        DuplicateInOrg(t, org, item.fields, o.at);
      }
      WriteKeepsUniqueIff(t, t', org, f, item.fields[f], if o.Created? then |t| else o.at);
    }
  }

  // The line may have its value of the field written: on a customer it creates, or on one it
  // may be matched with whose field is blank.
  ghost predicate MayWrite(t: Table, org: nat, fields: Fields, f: Field) {
    && Named(fields) && f != ClientName && !Blank(fields, f)
    && ((NoDuplicate(t, org, fields) && NextSeq(t, org).Some?)
        || exists i | 0 <= i < |t| :: IsDuplicate(t, org, fields, i) && Blank(t[i].values, f))
  }

  lemma WritesWhenItMay(t: Table, org: nat, item: Item, f: Field) returns (t': Table, o: RowOutcome)
    requires MayWrite(t, org, item.fields, f)
    ensures RowStep(t, t', org, item, o) && Writes(t, item, o, f)
  {
    if NoDuplicate(t, org, item.fields) && NextSeq(t, org).Some? {
      t', o := t + [NewRow(org, NextSeq(t, org).value, item)], Created;
    } else {
      var i :| 0 <= i < |t| && IsDuplicate(t, org, item.fields, i) && Blank(t[i].values, f);
      t', o := t[i := t[i].(values := Fill(t[i].values, item.fields))], Updated(i);
    }
  }

  // For every field: a line keeps its values distinct in a table, whatever ties are picked,
  // exactly when it cannot write a value that somebody holds.
  lemma KeyStaysUniqueIff(t: Table, org: nat, item: Item, f: Field)
    requires ValidFields(item.fields) && f != ClientName && UniqueKey(t, org, f)
    ensures (forall t', o | RowStep(t, t', org, item, o) :: UniqueKey(t', org, f))
            <==> !(MayWrite(t, org, item.fields, f) && Held(t, org, f, item.fields[f]))
  {
    forall t', o | RowStep(t, t', org, item, o)
      ensures UniqueKey(t', org, f) <==> !(Writes(t, item, o, f) && Held(t, org, f, item.fields[f]))
      ensures Writes(t, item, o, f) ==> MayWrite(t, org, item.fields, f)
    {
      StepKeepsUniqueIff(t, t', org, item, o, f);
    }
    if MayWrite(t, org, item.fields, f) && Held(t, org, f, item.fields[f]) {
      var t', o := WritesWhenItMay(t, org, item, f);
      assert !UniqueKey(t', org, f);
    }
  }

  // GST is looked up first, so a GST number is only ever written when nobody holds it.
  lemma GstWrittenOnlyWhenUnheld(t: Table, t': Table, org: nat, item: Item, o: RowOutcome)
    requires RowStep(t, t', org, item, o) && ValidFields(item.fields) && Writes(t, item, o, GstNumber)
    ensures !HasMatch(t, org, GstNumber, item.fields)
  {
    assert KEYS[0] == GstNumber;
    if o.Updated? {
      var k: nat :| MatchedBy(t, org, item.fields, k, o.at);
      forall i | 0 <= i < |t| && KeyMatch(t[i], org, GstNumber, item.fields)
        ensures !Blank(t[i].values, GstNumber)
      {
        KeyMatchNonBlank(t[i], org, GstNumber, item.fields);
      }
      assert k != 0;
    }
  }

  lemma StepKeepsGstUnique(t: Table, t': Table, org: nat, item: Item, o: RowOutcome)
    requires RowStep(t, t', org, item, o) && ValidFields(item.fields)
    requires UniqueKey(t, org, GstNumber) && TrimmedIn(item.fields, GstNumber)
    ensures UniqueKey(t', org, GstNumber)
  {
    StepKeepsUniqueIff(t, t', org, item, o, GstNumber);
    if Writes(t, item, o, GstNumber) {
      GstWrittenOnlyWhenUnheld(t, t', org, item, o);
      HeldIffMatched(t, org, GstNumber, item.fields);
    }
  }

  // GST numbers distinct before an import of trimmed GST numbers are distinct after it.
  lemma {:induction false} GstStaysUnique(ts: seq<Table>, org: nat, items: seq<Item>, outs: seq<RowOutcome>)
    requires Import(ts, org, items, outs) && UniqueKey(ts[0], org, GstNumber)
    requires forall k | 0 <= k < |items| :: TrimmedIn(items[k].fields, GstNumber)
    ensures UniqueKey(Last(ts), org, GstNumber)
  {
    if |items| > 0 {
      var n := |items| - 1;
      ImportPrefix(ts, org, items, outs, n);
      GstStaysUnique(ts[..n + 1], org, items[..n], outs[..n]);
      StepKeepsGstUnique(ts[n], ts[n + 1], org, items[n], outs[n]);
    }
  }

  // A line is safe for every table with unique GST numbers exactly when its own GST number
  // is trimmed: one cut at its column width behind a space gets past the lookup.
  lemma GstSafeIffTrimmed(org: nat, item: Item)
    requires ValidFields(item.fields) && Named(item.fields)
    ensures (forall t, t', o | RowStep(t, t', org, item, o) && UniqueKey(t, org, GstNumber) ::
               UniqueKey(t', org, GstNumber))
            <==> TrimmedIn(item.fields, GstNumber)
  {
    if TrimmedIn(item.fields, GstNumber) {
      forall t, t', o | RowStep(t, t', org, item, o) && UniqueKey(t, org, GstNumber)
        ensures UniqueKey(t', org, GstNumber)
      {
        StepKeepsGstUnique(t, t', org, item, o);
      }
    } else {
      var gst := item.fields[GstNumber];
      var held := CustomerRow(org, CodeFor(1), item.ctype, map[GstNumber := gst]);
      var t := [held];
      FormatRoundTrip(CustomerCode, CODE_PREFIX, 1) by { CodePrefixHasNoDigits(); }
      LowerStripMatches(gst);
      assert NoDuplicate(t, org, item.fields);
      assert NextSeq(t, org).Some?;
      var t' := t + [NewRow(org, NextSeq(t, org).value, item)];
      assert RowStep(t, t', org, item, Created);
      assert t'[0].values[GstNumber] == t'[1].values[GstNumber];
    }
  }

  // PAN numbers are looked up second. A line puts their uniqueness at risk exactly when
  // somebody holds its PAN and a customer with its GST number has none.
  lemma PanStaysUniqueIff(t: Table, org: nat, item: Item)
    requires ValidFields(item.fields) && Named(item.fields) && TrimmedIn(item.fields, PanNumber)
    requires UniqueKey(t, org, PanNumber)
    ensures (forall t', o | RowStep(t, t', org, item, o) :: UniqueKey(t', org, PanNumber))
            <==> !(&& HasMatch(t, org, PanNumber, item.fields)
                   && exists i | 0 <= i < |t| ::
                       KeyMatch(t[i], org, GstNumber, item.fields) && Blank(t[i].values, PanNumber))
  {
    KeyStaysUniqueIff(t, org, item, PanNumber);
    if Blank(item.fields, PanNumber) {
      assert !HasMatch(t, org, PanNumber, item.fields);
    } else {
      HeldIffMatched(t, org, PanNumber, item.fields);
      if HasMatch(t, org, PanNumber, item.fields) {
        PanWrittenThoughHeldIff(t, org, item.fields);
      }
    }
  }

  lemma PanWrittenThoughHeldIff(t: Table, org: nat, fields: Fields)
    requires ValidFields(fields) && Named(fields) && HasMatch(t, org, PanNumber, fields)
    ensures MayWrite(t, org, fields, PanNumber) <==>
            exists i | 0 <= i < |t| :: KeyMatch(t[i], org, GstNumber, fields) && Blank(t[i].values, PanNumber)
  {
    assert KEYS[0] == GstNumber && KEYS[1] == PanNumber;
    assert !NoDuplicate(t, org, fields);
    forall i | 0 <= i < |t| && Blank(t[i].values, PanNumber)
      ensures IsDuplicate(t, org, fields, i) <==> KeyMatch(t[i], org, GstNumber, fields)
    {
      if IsDuplicate(t, org, fields, i) {
        var k: nat :| MatchedBy(t, org, fields, k, i);
        if k == 1 {
          KeyMatchNonBlank(t[i], org, PanNumber, fields);
        }
      } else if KeyMatch(t[i], org, GstNumber, fields) {
        assert MatchedBy(t, org, fields, 0, i);
      }
    }
  }

  // ---------------------------------------------------------------- customer codes

  lemma CodePrefixHasNoDigits()
    ensures OnlyDigits(CODE_PREFIX) == ""
  {
    assert OnlyDigits("C") == "" && OnlyDigits("CU") == "" && OnlyDigits("CUS") == "";
    assert CODE_PREFIX[..3] == "CUS" && "CUS"[..2] == "CU" && "CU"[..1] == "C";
  }

  ghost predicate UniqueCodes(t: Table, org: nat) {
    forall i, j | 0 <= i < j < |t| && t[i].org == org && t[j].org == org :: t[i].code != t[j].code
  }

  lemma CodesOfAppend(t: Table, org: nat, row: CustomerRow)
    requires row.org == org
    ensures CodesOf(t + [row], org) == CodesOf(t, org) + {row.code}
  {
    var t' := t + [row];
    assert t'[|t|] == row && forall i | 0 <= i < |t| :: t'[i] == t[i];
    forall c ensures c in CodesOf(t', org) <==> c in CodesOf(t, org) + {row.code} {
      if c in CodesOf(t, org) {
        var i :| 0 <= i < |t| && t[i].org == org && t[i].code == c;
        assert t'[i].org == org && t'[i].code == c;
      }
    }
  }

  lemma CodeRoundTrip(n: nat)
    ensures Suffix(CustomerCode, CodeFor(n)) == Some(n)
    ensures Castable(CodeFor(n)) <==> n <= 2147483647
  {
    CodePrefixHasNoDigits();
    FormatRoundTrip(CustomerCode, CODE_PREFIX, n);
  }

  lemma CodeIsFresh(t: Table, org: nat)
    requires NextSeq(t, org).Some?
    ensures CodeFor(NextSeq(t, org).value) !in CodesOf(t, org)
  {
    CodeRoundTrip(NextSeq(t, org).value);
    MaxSeqIs(CustomerCode, CodesOf(t, org));
  }

  lemma CastableAppend(t: Table, org: nat, row: CustomerRow)
    requires NextSeq(t, org).Some? && row.org == org
    ensures NextSeq(t + [row], org).Some? <==> Castable(row.code)
  {
    var t' := t + [row];
    assert t'[|t|] == row;
    assert forall i | 0 <= i < |t| :: t'[i] == t[i];
  }

  // One creation takes the announced number, differs from every code the organization has,
  // and leaves the next number one higher, until a code outgrows the 4-byte cast.
  lemma CreationTakesNextCode(t: Table, org: nat, item: Item)
    requires NextSeq(t, org).Some?
    ensures CodeFor(NextSeq(t, org).value) !in CodesOf(t, org)
    ensures NextSeq(t + [NewRow(org, NextSeq(t, org).value, item)], org)
         == if NextSeq(t, org).value <= MAX_INT4 then Some(NextSeq(t, org).value + 1) else None
  {
    var n := NextSeq(t, org).value;
    var row := NewRow(org, n, item);
    CodeIsFresh(t, org);
    CodeRoundTrip(n);
    CastableAppend(t, org, row);
    CodesOfAppend(t, org, row);
    MaxAfterNext(CodesOf(t, org), n);
  }

  lemma MaxAfterNext(codes: set<string>, n: nat)
    requires n == MaxSeq(CustomerCode, codes) + 1
    ensures MaxSeq(CustomerCode, codes + {CodeFor(n)}) == n
  {
    CodeRoundTrip(n);
    MaxWithNext(CustomerCode, codes, CodeFor(n), n);
  }

  lemma SameCodes(t: Table, t': Table, org: nat)
    requires |t| == |t'|
    requires forall i | 0 <= i < |t| :: t[i].org == t'[i].org && t[i].code == t'[i].code
    ensures NextSeq(t', org) == NextSeq(t, org)
  {
    forall c ensures c in CodesOf(t', org) <==> c in CodesOf(t, org) {
      if c in CodesOf(t, org) {
        var i :| 0 <= i < |t| && t[i].org == org && t[i].code == c;
        assert t'[i].org == org && t'[i].code == c;
      }
    }
    assert CodesOf(t', org) == CodesOf(t, org);
    assert forall i | 0 <= i < |t| :: Castable(t[i].code) <==> Castable(t'[i].code);
  }

  lemma StepCodes(t: Table, t': Table, org: nat, item: Item, o: RowOutcome)
    requires RowStep(t, t', org, item, o)
    ensures UniqueCodes(t, org) ==> UniqueCodes(t', org)
    ensures forall i | 0 <= i < |t| && i < |t'| :: t'[i].code == t[i].code
    ensures o.Created? ==> NextSeq(t, org).Some? && t'[|t|].code == CodeFor(NextSeq(t, org).value)
    ensures o.Created? && NextSeq(t', org).Some? ==> NextSeq(t', org).value == NextSeq(t, org).value + 1
    ensures !o.Created? ==> NextSeq(t', org) == NextSeq(t, org)
  {
    if o.Created? {
      CreationTakesNextCode(t, org, item);
      assert forall i | 0 <= i < |t| && t[i].org == org :: t[i].code in CodesOf(t, org);
    } else {
      StepKeeps(t, t', org, item, o);
      forall i | 0 <= i < |t|
        ensures t[i].org == t'[i].org && t[i].code == t'[i].code
      {
        assert RowKept(t[i], t'[i]);
      }
      SameCodes(t, t', org);
    }
  }

  lemma {:induction false} CodesStayUnique(ts: seq<Table>, org: nat, items: seq<Item>, outs: seq<RowOutcome>)
    requires Import(ts, org, items, outs) && UniqueCodes(ts[0], org)
    ensures UniqueCodes(Last(ts), org)
  {
    if |items| > 0 {
      var n := |items| - 1;
      ImportPrefix(ts, org, items, outs, n);
      CodesStayUnique(ts[..n + 1], org, items[..n], outs[..n]);
      StepCodes(ts[n], ts[n + 1], org, items[n], outs[n]);
    }
  }

  // The k-th customer a run creates carries the k-th code after the organization's highest.
  ghost predicate NumberedFrom(t: Table, from: nat, first: nat) {
    forall i | from <= i < |t| :: t[i].code == CodeFor(first + (i - from))
  }

  lemma NumberedExtends(t: Table, t': Table, from: nat, first: nat)
    requires NumberedFrom(t, from, first) && from <= |t| <= |t'| <= |t| + 1
    requires forall i | 0 <= i < |t| :: t'[i].code == t[i].code
    requires |t'| == |t| + 1 ==> t'[|t|].code == CodeFor(first + (|t| - from))
    ensures NumberedFrom(t', from, first)
  {
  }

  // With `created` customers created after the first `size`, and `first` and `next` the
  // next code before and now: the new codes are consecutive, and a table whose codes
  // cannot all be cast gets no new customer.
  ghost predicate ConsecutiveCodes(t: Table, size: nat, first: Option<nat>, next: Option<nat>, created: nat) {
    && |t| == size + created
    && (first.Some? ==> NumberedFrom(t, size, first.value))
    && (next.Some? ==> first.Some? && next.value == first.value + created)
    && (first.None? ==> created == 0)
  }

  lemma StepKeepsConsecutive(
    t: Table, t': Table, size: nat, first: Option<nat>, next: Option<nat>, next': Option<nat>, created: nat, more: nat)
    requires ConsecutiveCodes(t, size, first, next, created)
    requires more <= 1 && |t'| == |t| + more
    requires forall i | 0 <= i < |t| :: t'[i].code == t[i].code
    requires more == 1 ==> next.Some? && t'[|t|].code == CodeFor(next.value)
    requires more == 1 && next'.Some? ==> next'.value == next.value + 1
    requires more == 0 ==> next' == next
    ensures ConsecutiveCodes(t', size, first, next', created + more)
  {
    if first.Some? {
      NumberedExtends(t, t', size, first.value);
    }
  }

  // A run numbers the customers it creates consecutively, in the order it creates them,
  // starting right after the organization's highest code.
  lemma {:induction false} CreatedCodesAreConsecutive(
    ts: seq<Table>, org: nat, items: seq<Item>, outs: seq<RowOutcome>)
    requires Import(ts, org, items, outs)
    ensures ConsecutiveCodes(Last(ts), |ts[0]|, NextSeq(ts[0], org), NextSeq(Last(ts), org), CountCreated(outs))
  {
    if |items| > 0 {
      var n := |items| - 1;
      ImportPrefix(ts, org, items, outs, n);
      CreatedCodesAreConsecutive(ts[..n + 1], org, items[..n], outs[..n]);
      StepCodes(ts[n], ts[n + 1], org, items[n], outs[n]);
      StepKeeps(ts[n], ts[n + 1], org, items[n], outs[n]);
      StepKeepsConsecutive(ts[n], ts[n + 1], |ts[0]|, NextSeq(ts[0], org), NextSeq(ts[n], org),
                           NextSeq(ts[n + 1], org), CountCreated(outs[..n]), if outs[n].Created? then 1 else 0);
    }
  }
}
