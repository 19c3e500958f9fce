/** The three "highest suffix so far, plus one" generators: work-order numbers per
    organization and day, invoice numbers per date, and customer codes per organization. */
module Numbering {
  import opened Text

  datatype Kind = WorkOrderNumber | InvoiceNumber | CustomerCode

  // A creator that loses the race for a number starts over, this often in all.
  const MAX_NUMBER_RETRIES := 5

  function Width(kind: Kind): nat {
    match kind
    case WorkOrderNumber => 2
    case InvoiceNumber => 3
    case CustomerCode => 4
  }

  // The longest run of digits ending the text.
  function DigitTail(s: string): (tail: string)
    ensures AllDigits(tail)
  {
    if s != "" && IsDigit(s[|s| - 1]) then DigitTail(s[..|s| - 1]) + [s[|s| - 1]] else ""
  }

  // What follows the last hyphen (the whole text when there is none).
  function AfterLastDash(s: string): string {
    if s != "" && s[|s| - 1] != '-' then AfterLastDash(s[..|s| - 1]) + [s[|s| - 1]] else ""
  }

  // The text with every non-digit removed.
  function OnlyDigits(s: string): (d: string)
    ensures AllDigits(d)
  {
    if s == "" then ""
    else OnlyDigits(s[..|s| - 1]) + (if IsDigit(s[|s| - 1]) then [s[|s| - 1]] else "")
  }

  // The sequence number a stored number carries, when it carries one.
  function Suffix(kind: Kind, number: string): Option<nat> {
    var digits :=
      match kind
      case WorkOrderNumber => DigitTail(number)
      case InvoiceNumber => AfterLastDash(number)
      case CustomerCode => OnlyDigits(number);
    if digits != "" && AllDigits(digits) then Some(Parse(digits)) else None
  }

  function Format(kind: Kind, prefix: string, n: nat): string {
    prefix + Pad(Print(n), Width(kind))
  }

  predicate ProperPrefix(kind: Kind, prefix: string) {
    match kind
    case CustomerCode => OnlyDigits(prefix) == ""
    case _ => prefix != "" && prefix[|prefix| - 1] == '-'
  }

  ghost predicate IsMaxSeq(kind: Kind, numbers: set<string>, m: nat) {
    && (forall x | x in numbers && Suffix(kind, x).Some? :: Suffix(kind, x).value <= m)
    && (m != 0 ==> exists x | x in numbers :: Suffix(kind, x) == Some(m))
  }

  function Larger(found: Option<nat>, m: nat): nat {
    if found.Some? && found.value > m then found.value else m
  }

  lemma IsMaxSeqGrows(kind: Kind, numbers: set<string>, m: nat, x: string)
    requires IsMaxSeq(kind, numbers, m)
    ensures IsMaxSeq(kind, numbers + {x}, Larger(Suffix(kind, x), m))
  {
    assert x in numbers + {x};
  }

  // The highest sequence number carried by any of the numbers, 0 when there is none.
  ghost function MaxSeq(kind: Kind, numbers: set<string>): nat {
    if numbers == {} then 0
    else
      var x :| x in numbers;
      Larger(Suffix(kind, x), MaxSeq(kind, numbers - {x}))
  }

  lemma {:induction false} MaxSeqIs(kind: Kind, numbers: set<string>)
    ensures IsMaxSeq(kind, numbers, MaxSeq(kind, numbers))
  {
    if numbers != {} {
      var x :| x in numbers && MaxSeq(kind, numbers) == Larger(Suffix(kind, x), MaxSeq(kind, numbers - {x}));
      MaxSeqIs(kind, numbers - {x});
      IsMaxSeqGrows(kind, numbers - {x}, MaxSeq(kind, numbers - {x}), x);
      assert numbers - {x} + {x} == numbers;
    }
  }

  ghost function UnderPrefix(prefix: string, numbers: set<string>): set<string> {
    set x | x in numbers && prefix <= x
  }

  ghost function Next(kind: Kind, prefix: string, numbers: set<string>): string {
    Format(kind, prefix, MaxSeq(kind, UnderPrefix(prefix, numbers)) + 1)
  }

  // ---------------------------------------------------------------- parsing back

  lemma {:induction false} DigitTailAfter(prefix: string, d: string)
    requires AllDigits(d)
    requires prefix == "" || !IsDigit(prefix[|prefix| - 1])
    ensures DigitTail(prefix + d) == d
  {
    if d == "" {
      assert prefix + d == prefix;
    } else {
      assert (prefix + d)[..|prefix + d| - 1] == prefix + d[..|d| - 1];
      DigitTailAfter(prefix, d[..|d| - 1]);
    }
  }

  lemma {:induction false} AfterLastDashAfter(prefix: string, d: string)
    requires AllDigits(d)
    requires prefix != "" && prefix[|prefix| - 1] == '-'
    ensures AfterLastDash(prefix + d) == d
  {
    if d == "" {
      assert prefix + d == prefix;
    } else {
      assert (prefix + d)[..|prefix + d| - 1] == prefix + d[..|d| - 1];
      AfterLastDashAfter(prefix, d[..|d| - 1]);
    }
  }

  lemma {:induction false} OnlyDigitsAfter(prefix: string, d: string)
    requires AllDigits(d)
    ensures OnlyDigits(prefix + d) == OnlyDigits(prefix) + d
  {
    if d == "" {
      assert prefix + d == prefix;
    } else {
      assert (prefix + d)[..|prefix + d| - 1] == prefix + d[..|d| - 1];
      OnlyDigitsAfter(prefix, d[..|d| - 1]);
    }
  }

  // Each generator's own parser reads back the sequence number its formatter wrote,
  // for every n: numbers wider than the padding are no exception.
  lemma FormatRoundTrip(kind: Kind, prefix: string, n: nat)
    requires ProperPrefix(kind, prefix)
    ensures Suffix(kind, Format(kind, prefix, n)) == Some(n)
  {
    var d := Pad(Print(n), Width(kind));
    PaddedRoundTrip(n, Width(kind));
    match kind
    case WorkOrderNumber => DigitTailAfter(prefix, d);
    case InvoiceNumber => AfterLastDashAfter(prefix, d);
    case CustomerCode => OnlyDigitsAfter(prefix, d); assert "" + d == d;
  }

  // Numbers as they are written: work orders with two digits, invoices with three, customer
  // codes with four, and more when they do not fit.
  lemma NumbersWritten()
    ensures Format(WorkOrderNumber, "WO-20240101-", 7) == "WO-20240101-07"
    ensures Format(WorkOrderNumber, "WO-20240101-", 100) == "WO-20240101-100"
    ensures Format(InvoiceNumber, "INV-20240101-", 12) == "INV-20240101-012"
    ensures Format(CustomerCode, "CUS-", 12) == "CUS-0012"
  {
    assert Print(7) == "7" && Pad("7", 2) == Pad("07", 2) == "07";
    assert Print(1) == "1" && Print(10) == "10" && Print(100) == "100" && Print(12) == "12";
    assert Pad("12", 3) == Pad("012", 3) == "012";
    assert Pad("12", 4) == Pad("012", 4) == Pad("0012", 4) == "0012";
  }

  lemma {:induction false} AfterLastDashIs(prefix: string, tail: string)
    requires prefix == "" || prefix[|prefix| - 1] == '-'
    requires forall i | 0 <= i < |tail| :: tail[i] != '-'
    ensures AfterLastDash(prefix + tail) == tail
  {
    if tail == "" {
      assert prefix + tail == prefix;
    } else {
      assert (prefix + tail)[..|prefix + tail| - 1] == prefix + tail[..|tail| - 1];
      AfterLastDashIs(prefix, tail[..|tail| - 1]);
    }
  }

  lemma {:induction false} NoDigitsIff(s: string)
    ensures OnlyDigits(s) == "" <==> forall i | 0 <= i < |s| :: !IsDigit(s[i])
  {
    if s != "" {
      NoDigitsIff(s[..|s| - 1]);
      assert forall i | 0 <= i < |s| - 1 :: s[..|s| - 1][i] == s[i];
    }
  }

  // What each generator reads in any number, its own or not. Of a work order's number it is
  // the digits it ends in.
  lemma WorkOrderSuffix(prefix: string, tail: string)
    requires AllDigits(tail) && (prefix == "" || !IsDigit(prefix[|prefix| - 1]))
    ensures Suffix(WorkOrderNumber, prefix + tail) == if tail == "" then None else Some(Parse(tail))
  {
    DigitTailAfter(prefix, tail);
  }

  // Of an invoice's number what follows the last hyphen, if that is all digits.
  lemma InvoiceSuffix(prefix: string, tail: string)
    requires prefix == "" || prefix[|prefix| - 1] == '-'
    requires forall i | 0 <= i < |tail| :: tail[i] != '-'
    ensures Suffix(InvoiceNumber, prefix + tail) == if tail != "" && AllDigits(tail) then Some(Parse(tail)) else None
  {
    AfterLastDashIs(prefix, tail);
  }

  // Of a customer's code all its digits together.
  lemma CustomerSuffix(prefix: string, tail: string)
    requires AllDigits(tail)
    ensures Suffix(CustomerCode, prefix + tail)
         == if OnlyDigits(prefix) + tail == "" then None else Some(Parse(OnlyDigits(prefix) + tail))
    ensures OnlyDigits(prefix) == "" <==> forall i | 0 <= i < |prefix| :: !IsDigit(prefix[i])
  {
    OnlyDigitsAfter(prefix, tail);
    NoDigitsIff(prefix);
  }

  lemma FormatInjective(kind: Kind, prefix: string, m: nat, n: nat)
    requires Format(kind, prefix, m) == Format(kind, prefix, n)
    ensures m == n
  {
    assert Format(kind, prefix, m)[|prefix|..] == Pad(Print(m), Width(kind));
    assert Format(kind, prefix, n)[|prefix|..] == Pad(Print(n), Width(kind));
    PaddedInjective(m, n, Width(kind));
  }

  // A generated number differs from every number already stored, whatever those look like.
  lemma NextIsFresh(kind: Kind, prefix: string, numbers: set<string>)
    requires ProperPrefix(kind, prefix)
    ensures Next(kind, prefix, numbers) !in numbers
  {
    var n := MaxSeq(kind, UnderPrefix(prefix, numbers)) + 1;
    MaxSeqIs(kind, UnderPrefix(prefix, numbers));
    FormatRoundTrip(kind, prefix, n);
    assert Next(kind, prefix, numbers) !in UnderPrefix(prefix, numbers);
    assert prefix <= Next(kind, prefix, numbers);
  }

  // The maximum is what its two facts say it is, however it is computed.
  lemma MaxSeqUnique(kind: Kind, numbers: set<string>, m: nat)
    requires IsMaxSeq(kind, numbers, m)
    ensures MaxSeq(kind, numbers) == m
  {
    MaxSeqIs(kind, numbers);
  }

  // Storing the next number makes it the highest.
  lemma MaxWithNext(kind: Kind, numbers: set<string>, x: string, n: nat)
    requires Suffix(kind, x) == Some(n) && n == MaxSeq(kind, numbers) + 1
    ensures MaxSeq(kind, numbers + {x}) == n
  {
    MaxSeqIs(kind, numbers);
    IsMaxSeqGrows(kind, numbers, n - 1, x);
    MaxSeqUnique(kind, numbers + {x}, n);
  }

  // The query's rows arrive in no particular order; the loop keeps the largest suffix.
  method HighestSuffix(kind: Kind, rows: set<string>) returns (maxSeq: nat)
    ensures maxSeq == MaxSeq(kind, rows)
  {
    var rest := rows;
    maxSeq := 0;
    while rest != {}
      invariant rest <= rows
      invariant IsMaxSeq(kind, rows - rest, maxSeq)
      decreases rest
    {
      var x :| x in rest;
      IsMaxSeqGrows(kind, rows - rest, maxSeq, x);
      assert rows - (rest - {x}) == rows - rest + {x};
      rest := rest - {x};
      match Suffix(kind, x)
      case None =>
      case Some(n) => if n > maxSeq { maxSeq := n; }
    }
    assert rows - rest == rows;
    MaxSeqUnique(kind, rows, maxSeq);
  }

  method NextNumber(kind: Kind, prefix: string, numbers: set<string>) returns (number: string)
    ensures number == Next(kind, prefix, numbers)
  {
    var rows := set x | x in numbers && prefix <= x;
    var maxSeq := HighestSuffix(kind, rows);
    number := Format(kind, prefix, maxSeq + 1);
  }

  // ---------------------------------------------------------------- gap-free dates

  // The first n numbers of a prefix's sequence.
  ghost function FirstN(kind: Kind, prefix: string, n: nat): set<string> {
    set k | 1 <= k <= n :: Format(kind, prefix, k)
  }

  lemma {:induction false} FirstNMax(kind: Kind, prefix: string, n: nat)
    requires ProperPrefix(kind, prefix)
    ensures MaxSeq(kind, FirstN(kind, prefix, n)) == n
  {
    forall k: nat
      ensures Suffix(kind, Format(kind, prefix, k)) == Some(k)
    {
      FormatRoundTrip(kind, prefix, k);
    }
    if n != 0 {
      assert Format(kind, prefix, n) in FirstN(kind, prefix, n);
    }
    MaxSeqUnique(kind, FirstN(kind, prefix, n), n);
  }

  // What is stored under a prefix is the first n numbers of its sequence and nothing else.
  ghost predicate GapFree(kind: Kind, prefix: string, numbers: set<string>, n: nat) {
    UnderPrefix(prefix, numbers) == FirstN(kind, prefix, n)
  }

  // Drawing numbers automatically for a list of prefixes, one committed after another.
  ghost function AutoRun(kind: Kind, numbers: set<string>, prefixes: seq<string>): set<string> {
    if prefixes == [] then numbers
    else
      var before := AutoRun(kind, numbers, prefixes[..|prefixes| - 1]);
      before + {Next(kind, prefixes[|prefixes| - 1], before)}
  }

  function Occurrences(prefix: string, prefixes: seq<string>): nat {
    if prefixes == [] then 0
    else Occurrences(prefix, prefixes[..|prefixes| - 1])
         + (if prefixes[|prefixes| - 1] == prefix then 1 else 0)
  }

  lemma PrefixesApart(p: string, q: string, tail: string)
    requires |p| == |q|
    ensures p <= q + tail <==> p == q
  {
    assert (q + tail)[..|q|] == q;
  }

  lemma FirstNGrows(kind: Kind, prefix: string, n: nat)
    ensures FirstN(kind, prefix, n + 1) == FirstN(kind, prefix, n) + {Format(kind, prefix, n + 1)}
  {
  }

  lemma UnderPrefixGrows(prefix: string, numbers: set<string>, x: string)
    ensures UnderPrefix(prefix, numbers + {x})
         == UnderPrefix(prefix, numbers) + (if prefix <= x then {x} else {})
  {
  }

  // One more number, the next of the prefix's own sequence or one from elsewhere.
  lemma GapFreeStep(kind: Kind, prefix: string, numbers: set<string>, n: nat, x: string)
    requires GapFree(kind, prefix, numbers, n)
    requires prefix <= x ==> x == Format(kind, prefix, n + 1)
    ensures GapFree(kind, prefix, numbers + {x}, if prefix <= x then n + 1 else n)
  {
    UnderPrefixGrows(prefix, numbers, x);
    FirstNGrows(kind, prefix, n);
  }

  lemma NextWhenGapFree(kind: Kind, prefix: string, numbers: set<string>, n: nat)
    requires ProperPrefix(kind, prefix) && GapFree(kind, prefix, numbers, n)
    ensures Next(kind, prefix, numbers) == Format(kind, prefix, n + 1)
  {
    FirstNMax(kind, prefix, n);
  }

  // ---------------------------------------------------------------- numbers that come back

  lemma MaxOfFirstN(kind: Kind, prefix: string, some: set<string>, n: nat)
    requires ProperPrefix(kind, prefix) && some <= FirstN(kind, prefix, n)
    ensures MaxSeq(kind, some) <= n
    ensures MaxSeq(kind, some) == n <==> n == 0 || Format(kind, prefix, n) in some
  {
    var m := MaxSeq(kind, some);
    MaxSeqIs(kind, some);
    FormatRoundTrip(kind, prefix, n);
    if m != 0 {
      var x :| x in some && Suffix(kind, x) == Some(m);
      var k :| 1 <= k <= n && x == Format(kind, prefix, k);
      FormatRoundTrip(kind, prefix, k);
    }
  }

  lemma InFirstN(kind: Kind, prefix: string, n: nat, k: nat)
    ensures Format(kind, prefix, k) in FirstN(kind, prefix, n) <==> 1 <= k <= n
  {
    if Format(kind, prefix, k) in FirstN(kind, prefix, n) {
      var j :| 1 <= j <= n && Format(kind, prefix, k) == Format(kind, prefix, j);
      FormatInjective(kind, prefix, k, j);
    }
  }

  // Of the numbers ever issued under a prefix some may be gone. The next number is one past
  // the highest left, so it is at most one past the newest ever issued.
  lemma NextAfterSome(kind: Kind, prefix: string, now: set<string>, ever: set<string>, n: nat) returns (k: nat)
    requires ProperPrefix(kind, prefix) && now <= ever && GapFree(kind, prefix, ever, n)
    ensures 1 <= k <= n + 1 && Next(kind, prefix, now) == Format(kind, prefix, k)
    ensures k <= n <==> n > 0 && Format(kind, prefix, n) !in now
  {
    k := MaxSeq(kind, UnderPrefix(prefix, now)) + 1;
    assert UnderPrefix(prefix, now) <= UnderPrefix(prefix, ever);
    MaxOfFirstN(kind, prefix, UnderPrefix(prefix, now), n);
    assert prefix <= Format(kind, prefix, n);
  }

  // A number comes back exactly when the newest one ever issued is no longer stored.
  lemma NextComesBackIff(kind: Kind, prefix: string, now: set<string>, ever: set<string>, n: nat)
    requires ProperPrefix(kind, prefix) && now <= ever && GapFree(kind, prefix, ever, n)
    ensures Next(kind, prefix, now) in ever <==> n > 0 && Format(kind, prefix, n) !in now
  {
    var k := NextAfterSome(kind, prefix, now, ever, n);
    InFirstN(kind, prefix, n, k);
    assert prefix <= Format(kind, prefix, k);
    assert Format(kind, prefix, k) in UnderPrefix(prefix, ever) <==> Format(kind, prefix, k) in ever;
  }

  // ---------------------------------------------------------------- drawing for several prefixes

  lemma DrawnUnderPrefix(kind: Kind, numbers: set<string>, prefix: string, drawnFor: string, n: nat)
    requires ProperPrefix(kind, prefix) && |drawnFor| == |prefix|
    requires GapFree(kind, prefix, numbers, n)
    ensures GapFree(kind, prefix, numbers + {Next(kind, drawnFor, numbers)},
                    if drawnFor == prefix then n + 1 else n)
  {
    var m := MaxSeq(kind, UnderPrefix(drawnFor, numbers)) + 1;
    PrefixesApart(prefix, drawnFor, Pad(Print(m), Width(kind)));
    if drawnFor == prefix {
      NextWhenGapFree(kind, prefix, numbers, n);
    }
    GapFreeStep(kind, prefix, numbers, n, Next(kind, drawnFor, numbers));
  }

  // With automatic numbers only, the numbers of every date are exactly 1..n, n being how
  // many were drawn for it: other dates of the same shape never leave a gap or a repeat.
  lemma {:induction false} AutoRunIsGapFree(
    kind: Kind, numbers: set<string>, prefixes: seq<string>, prefix: string, n0: nat)
    requires ProperPrefix(kind, prefix) && GapFree(kind, prefix, numbers, n0)
    requires forall i | 0 <= i < |prefixes| :: |prefixes[i]| == |prefix|
    ensures GapFree(kind, prefix, AutoRun(kind, numbers, prefixes), n0 + Occurrences(prefix, prefixes))
  {
    if prefixes != [] {
      var init, last := prefixes[..|prefixes| - 1], prefixes[|prefixes| - 1];
      var before, n := AutoRun(kind, numbers, init), n0 + Occurrences(prefix, init);
      AutoRunIsGapFree(kind, numbers, init, prefix, n0);
      DrawnUnderPrefix(kind, before, prefix, last, n);
      assert AutoRun(kind, numbers, prefixes) == before + {Next(kind, last, before)};
    }
  }
}
