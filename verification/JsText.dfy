/** The string operations the client relies on: `trim`, decimal numerals, padding. */
module JsText {

  /** ECMAScript's WhiteSpace and LineTerminator characters, the ones `trim` strips. */
  predicate IsSpace(c: char) {
    var code := c as int;
    || 0x09 <= code <= 0x0D || code == 0x20 || code == 0xA0 || code == 0x1680
    || 0x2000 <= code <= 0x200A || code == 0x2028 || code == 0x2029 || code == 0x202F
    || code == 0x205F || code == 0x3000 || code == 0xFEFF
  }

  function TrimStart(s: string): string {
    if s != [] && IsSpace(s[0]) then TrimStart(s[1..]) else s
  }

  function TrimEnd(s: string): string {
    if s != [] && IsSpace(s[|s| - 1]) then TrimEnd(s[..|s| - 1]) else s
  }

  function Trim(s: string): string { TrimEnd(TrimStart(s)) }

  predicate IsTrimmed(s: string) {
    s == [] || (!IsSpace(s[0]) && !IsSpace(s[|s| - 1]))
  }

  lemma {:induction false} TrimEndKeepsStart(s: string)
    ensures TrimEnd(s) <= s
    ensures TrimEnd(s) != [] ==> !IsSpace(TrimEnd(s)[|TrimEnd(s)| - 1])
  {
    if s != [] && IsSpace(s[|s| - 1]) {
      TrimEndKeepsStart(s[..|s| - 1]);
    }
  }

  lemma {:induction false} TrimStartStops(s: string)
    ensures TrimStart(s) != [] ==> !IsSpace(TrimStart(s)[0])
  {
    if s != [] && IsSpace(s[0]) {
      TrimStartStops(s[1..]);
    }
  }

  /** Trimming leaves no space at either end, and nothing else to trim. */
  lemma TrimIsTrimmed(s: string)
    ensures IsTrimmed(Trim(s)) && Trim(Trim(s)) == Trim(s)
  {
    TrimStartStops(s);
    TrimEndKeepsStart(TrimStart(s));
    TrimmedStays(Trim(s));
  }

  lemma TrimmedStays(s: string)
    requires IsTrimmed(s)
    ensures Trim(s) == s
  {
  }

  predicate AllSpace(s: string) {
    forall i :: 0 <= i < |s| ==> IsSpace(s[i])
  }

  lemma {:induction false} TrimStartTakesSpace(s: string) returns (space: string)
    ensures AllSpace(space) && s == space + TrimStart(s)
  {
    if s != [] && IsSpace(s[0]) {
      var rest := TrimStartTakesSpace(s[1..]);
      space := [s[0]] + rest;
    } else {
      space := "";
    }
  }

  lemma {:induction false} TrimEndTakesSpace(s: string) returns (space: string)
    ensures AllSpace(space) && s == TrimEnd(s) + space
  {
    if s != [] && IsSpace(s[|s| - 1]) {
      var rest := TrimEndTakesSpace(s[..|s| - 1]);
      space := rest + [s[|s| - 1]];
    } else {
      space := "";
    }
  }

  lemma {:induction false} TrimStartSkips(space: string, s: string)
    requires AllSpace(space)
    ensures TrimStart(space + s) == TrimStart(s)
  {
    if space == "" {
      assert space + s == s;
    } else {
      TrimStartSkips(space[1..], s);
      assert (space + s)[1..] == space[1..] + s;
    }
  }

  lemma {:induction false} TrimEndSkips(s: string, space: string)
    requires AllSpace(space)
    ensures TrimEnd(s + space) == TrimEnd(s)
  {
    if space == "" {
      assert s + space == s;
    } else {
      TrimEndSkips(s, space[..|space| - 1]);
      assert (s + space)[..|s + space| - 1] == s + space[..|space| - 1];
    }
  }

  /** A text within spaces. */
  predicate Within(s: string, text: string, before: string, after: string) {
    AllSpace(before) && AllSpace(after) && s == before + text + after
  }

  lemma TrimIsWithin(s: string)
    ensures exists before, after :: Within(s, Trim(s), before, after)
  {
    var before := TrimStartTakesSpace(s);
    var after := TrimEndTakesSpace(TrimStart(s));
    assert before + (Trim(s) + after) == before + Trim(s) + after;
    assert Within(s, Trim(s), before, after);
  }

  lemma TextWithinSpaces(text: string, after: string)
    requires IsTrimmed(text) && AllSpace(after)
    ensures Trim(text + after) == text
  {
    if text == "" {
      assert text + after == after + "";
      TrimStartSkips(after, "");
    } else {
      TrimEndSkips(text, after);
    }
  }

  /** What `trim` gives is the one text without space at either end that spaces were put around. */
  lemma TrimIff(s: string, text: string)
    ensures Trim(s) == text <==> IsTrimmed(text) && exists before, after :: Within(s, text, before, after)
  {
    TrimIsTrimmed(s);
    TrimIsWithin(s);
    forall before, after | IsTrimmed(text) && Within(s, text, before, after) ensures Trim(s) == text {
      assert s == before + (text + after);
      TrimStartSkips(before, text + after);
      TextWithinSpaces(text, after);
    }
  }

  predicate IsDigit(c: char) { '0' <= c <= '9' }

  predicate IsNumeral(s: string) {
    forall i :: 0 <= i < |s| ==> IsDigit(s[i])
  }

  function DigitValue(c: char): nat
    requires IsDigit(c)
  {
    c as int - '0' as int
  }

  /** `Number` of a string of digits. */
  function Value(s: string): nat
    requires IsNumeral(s)
  {
    if s == [] then 0 else 10 * Value(s[..|s| - 1]) + DigitValue(s[|s| - 1])
  }

  function DigitChar(d: nat): (c: char)
    requires d < 10
    ensures IsDigit(c) && DigitValue(c) == d
  {
    ('0' as int + d) as char
  }

  /** `String` of a natural number. */
  function ToDecimal(n: nat): (s: string)
    ensures s != [] && IsNumeral(s)
  {
    if n < 10 then [DigitChar(n)] else ToDecimal(n / 10) + [DigitChar(n % 10)]
  }

  /** A printed number reads back as itself. */
  lemma {:induction false} DecimalRoundTrip(n: nat)
    ensures Value(ToDecimal(n)) == n
  {
    if n < 10 {
      assert Value([DigitChar(n)][..0]) == 0;
    } else {
      DecimalRoundTrip(n / 10);
      var s := ToDecimal(n);
      assert s[..|s| - 1] == ToDecimal(n / 10);
    }
  }

  function PadStart(s: string, width: nat, fill: char): string {
    if |s| < width then seq(width - |s|, _ => fill) + s else s
  }
}
