/** Text primitives the services lean on: ASCII lower-casing and trimming, substring
    search, and the decimal printing and parsing behind every generated number. */
module Text {

  datatype Option<+T> = None | Some(value: T)

  // ---------------------------------------------------------------- trimming and case

  predicate IsSpace(c: char) {
    c == ' ' || '\t' <= c <= '\r' || '\U{1c}' <= c <= '\U{1f}'
  }

  function TrimLeft(s: string): string {
    if s != "" && IsSpace(s[0]) then TrimLeft(s[1..]) else s
  }

  function TrimRight(s: string): string {
    if s != "" && IsSpace(s[|s| - 1]) then TrimRight(s[..|s| - 1]) else s
  }

  function Strip(s: string): string {
    TrimRight(TrimLeft(s))
  }

  function LowerChar(c: char): char {
    if 'A' <= c <= 'Z' then ((c as int) + 32) as char else c
  }

  function Lower(s: string): string {
    seq(|s|, i requires 0 <= i < |s| => LowerChar(s[i]))
  }

  predicate Trimmed(s: string) {
    s != "" ==> !IsSpace(s[0]) && !IsSpace(s[|s| - 1])
  }

  lemma {:induction false} TrimRightFacts(s: string)
    ensures |TrimRight(s)| <= |s| && TrimRight(s) == s[..|TrimRight(s)|]
    ensures TrimRight(s) != "" ==> !IsSpace(TrimRight(s)[|TrimRight(s)| - 1])
    ensures s != "" && !IsSpace(s[|s| - 1]) ==> TrimRight(s) == s
    ensures s != "" && !IsSpace(s[0]) ==> TrimRight(s) != ""
    ensures s != "" && IsSpace(s[|s| - 1]) ==> |TrimRight(s)| < |s|
  {
    if s != "" && IsSpace(s[|s| - 1]) {
      TrimRightFacts(s[..|s| - 1]);
    }
  }

  lemma {:induction false} TrimLeftFacts(s: string)
    ensures |TrimLeft(s)| <= |s|
    ensures TrimLeft(s) != "" ==> !IsSpace(TrimLeft(s)[0])
    ensures s != "" && !IsSpace(s[0]) ==> TrimLeft(s) == s
    ensures s != "" && IsSpace(s[0]) ==> |TrimLeft(s)| < |s|
  {
    if s != "" && IsSpace(s[0]) {
      TrimLeftFacts(s[1..]);
    }
  }

  // What is trimmed off: the blank, the controls from tab to carriage return, and the four
  // separators.
  lemma SpacesAre(c: char)
    ensures IsSpace(c) <==> c as int in {9, 10, 11, 12, 13, 28, 29, 30, 31, 32}
  {
  }

  // A text given, stripped; one that is blank counts as not given.
  function Clean(s: Option<string>): Option<string> {
    if s.None? || Strip(s.value) == "" then None else Some(Strip(s.value))
  }

  // Stripping leaves exactly the trimmed texts alone, and always yields one.
  lemma StripFacts(s: string)
    ensures Trimmed(Strip(s))
    ensures Strip(s) == s <==> Trimmed(s)
    ensures |Strip(s)| <= |s|
    ensures |Strip(s)| == |s| <==> Trimmed(s)
  {
    TrimLeftFacts(s);
    TrimRightFacts(TrimLeft(s));
  }

  // A text that starts with a non-blank character stays non-blank when stripped.
  lemma StripNonBlank(s: string)
    requires s != "" && !IsSpace(s[0])
    ensures Strip(s) != ""
  {
    TrimLeftFacts(s);
    TrimRightFacts(s);
  }

  // Case folding never repairs a stray blank: a text equals its own stripped form
  // up to case exactly when it was trimmed to begin with.
  lemma LowerStripMatches(s: string)
    ensures Lower(s) == Lower(Strip(s)) <==> Trimmed(s)
  {
    StripFacts(s);
    if !Trimmed(s) {
      assert |Lower(s)| == |s| && |Lower(Strip(s))| == |Strip(s)|;
    }
  }

  // The same character, or one letter in its two cases.
  predicate SameButCase(a: char, b: char) {
    || a == b
    || ('A' <= a <= 'Z' && b as int == a as int + 32)
    || ('A' <= b <= 'Z' && a as int == b as int + 32)
  }

  predicate SameText(s: string, t: string) {
    |s| == |t| && forall i | 0 <= i < |s| :: SameButCase(s[i], t[i])
  }

  // Lower-casing forgets the case of letters and nothing else.
  lemma LowerForgetsCase(s: string, t: string)
    ensures Lower(s) == Lower(t) <==> SameText(s, t)
  {
    if Lower(s) == Lower(t) {
      assert |s| == |Lower(s)| == |Lower(t)| == |t|;
      forall i | 0 <= i < |s|
        ensures SameButCase(s[i], t[i])
      {
        assert Lower(s)[i] == LowerChar(s[i]) && Lower(t)[i] == LowerChar(t[i]);
      }
    }
  }

  lemma {:induction false} TrimLeftForgetsCase(s: string, t: string)
    requires SameText(s, t)
    ensures SameText(TrimLeft(s), TrimLeft(t))
  {
    if s != "" && IsSpace(s[0]) {
      TrimLeftForgetsCase(s[1..], t[1..]);
    }
  }

  lemma {:induction false} TrimRightForgetsCase(s: string, t: string)
    requires SameText(s, t)
    ensures SameText(TrimRight(s), TrimRight(t))
  {
    if s != "" && IsSpace(s[|s| - 1]) {
      TrimRightForgetsCase(s[..|s| - 1], t[..|t| - 1]);
    }
  }

  lemma StripForgetsCase(s: string, t: string)
    requires SameText(s, t)
    ensures SameText(Strip(s), Strip(t))
  {
    TrimLeftForgetsCase(s, t);
    TrimRightForgetsCase(TrimLeft(s), TrimLeft(t));
  }

  predicate OccursAt(s: string, sub: string, i: nat) {
    i + |sub| <= |s| && s[i..i + |sub|] == sub
  }

  predicate Contains(s: string, sub: string) {
    exists i: nat | i <= |s| :: OccursAt(s, sub, i)
  }

  lemma ContainsSelf(s: string)
    ensures Contains(s, s)
  {
    assert OccursAt(s, s, 0);
  }

  // ---------------------------------------------------------------- decimal numbers

  predicate IsDigit(c: char) {
    '0' <= c <= '9'
  }

  predicate AllDigits(s: string) {
    forall i | 0 <= i < |s| :: IsDigit(s[i])
  }

  function DigitValue(c: char): nat
    requires IsDigit(c)
  {
    (c as int) - ('0' as int)
  }

  function DigitChar(d: nat): (c: char)
    requires d < 10
    ensures IsDigit(c) && DigitValue(c) == d
  {
    ('0' as int + d) as char
  }

  function Print(n: nat): string {
    if n < 10 then [DigitChar(n)] else Print(n / 10) + [DigitChar(n % 10)]
  }

  function Parse(s: string): nat
    requires AllDigits(s)
  {
    if s == "" then 0 else 10 * Parse(s[..|s| - 1]) + DigitValue(s[|s| - 1])
  }

  // Zero padding on the left up to `width`; longer texts are left alone.
  function Pad(s: string, width: nat): string
    decreases width - |s|
  {
    if |s| >= width then s else Pad("0" + s, width)
  }

  lemma {:induction false} PrintParse(n: nat)
    ensures AllDigits(Print(n)) && Print(n) != "" && Parse(Print(n)) == n
  {
    if n >= 10 {
      PrintParse(n / 10);
      var s := Print(n);
      assert s[..|s| - 1] == Print(n / 10);
    } else {
      assert Print(n)[..0] == "";
    }
  }

  lemma {:induction false} ParseLeadingZero(s: string)
    requires AllDigits(s)
    ensures AllDigits("0" + s) && Parse("0" + s) == Parse(s)
  {
    var z := "0" + s;
    assert AllDigits(z);
    if s == "" {
      assert z[..0] == "";
    } else {
      ParseLeadingZero(s[..|s| - 1]);
      assert z[..|z| - 1] == "0" + s[..|s| - 1];
    }
  }

  lemma {:induction false} PadKeepsValue(s: string, width: nat)
    requires AllDigits(s)
    ensures AllDigits(Pad(s, width)) && Parse(Pad(s, width)) == Parse(s)
    ensures |Pad(s, width)| == if |s| >= width then |s| else width
    decreases width - |s|
  {
    if |s| < width {
      ParseLeadingZero(s);
      PadKeepsValue("0" + s, width);
    }
  }

  // Printing padded and parsing back is the identity at every width, overflow included.
  lemma PaddedRoundTrip(n: nat, width: nat)
    ensures AllDigits(Pad(Print(n), width)) && Pad(Print(n), width) != ""
    ensures Parse(Pad(Print(n), width)) == n
    ensures |Pad(Print(n), width)| >= width
  {
    PrintParse(n);
    PadKeepsValue(Print(n), width);
  }

  lemma PaddedInjective(m: nat, n: nat, width: nat)
    requires Pad(Print(m), width) == Pad(Print(n), width)
    ensures m == n
  {
    PaddedRoundTrip(m, width);
    PaddedRoundTrip(n, width);
  }
}
