/** Base64 as the client reads it: sections 4 and 5 of RFC 4648, and the browser's forgiving `atob`. */
module Base64 {
  import opened Options

  type Byte = b: int | 0 <= b < 256
  type Sextet = v: int | 0 <= v < 64

  // ---------- Groups of three bytes and four sextets ----------

  function ToSextets(bytes: seq<Byte>): seq<Sextet> {
    if |bytes| == 0 then []
    else if |bytes| == 1 then [bytes[0] / 4, bytes[0] % 4 * 16]
    else if |bytes| == 2 then [bytes[0] / 4, bytes[0] % 4 * 16 + bytes[1] / 16, bytes[1] % 16 * 4]
    else
      [bytes[0] / 4, bytes[0] % 4 * 16 + bytes[1] / 16, bytes[1] % 16 * 4 + bytes[2] / 64, bytes[2] % 64]
      + ToSextets(bytes[3..])
  }

  function FirstByte(p: Sextet, q: Sextet): Byte { (p as int) * 4 + (q as int) / 16 }

  function SecondByte(q: Sextet, r: Sextet): Byte { (q as int) % 16 * 16 + (r as int) / 4 }

  function ThirdByte(r: Sextet, s: Sextet): Byte { (r as int) % 4 * 64 + s as int }

  /** Whole groups, then a last one whose unused bits are dropped. */
  function FromSextets(v: seq<Sextet>): seq<Byte>
    requires |v| % 4 != 1
  {
    if |v| == 0 then []
    else if |v| == 2 then [FirstByte(v[0], v[1])]
    else if |v| == 3 then [FirstByte(v[0], v[1]), SecondByte(v[1], v[2])]
    else [FirstByte(v[0], v[1]), SecondByte(v[1], v[2]), ThirdByte(v[2], v[3])] + FromSextets(v[4..])
  }

  lemma {:induction false} SextetCount(bytes: seq<Byte>)
    ensures |ToSextets(bytes)| % 4 == (if |bytes| % 3 == 0 then 0 else |bytes| % 3 + 1)
    ensures bytes != [] ==> ToSextets(bytes) != []
  {
    if |bytes| >= 3 {
      SextetCount(bytes[3..]);
    }
  }

  lemma GroupArithmetic(x: Byte, y: Byte, z: Byte)
    ensures FirstByte(x / 4, x % 4 * 16 + y / 16) == x
    ensures SecondByte(x % 4 * 16 + y / 16, y % 16 * 4 + z / 64) == y
    ensures ThirdByte(y % 16 * 4 + z / 64, z % 64) == z
  {
  }

  /** Regrouping six bits at a time and back gives the bytes back. */
  lemma {:induction false} SextetRoundTrip(bytes: seq<Byte>)
    ensures |ToSextets(bytes)| % 4 != 1 && FromSextets(ToSextets(bytes)) == bytes
  {
    SextetCount(bytes);
    var v := ToSextets(bytes);
    if |bytes| >= 3 {
      SextetRoundTrip(bytes[3..]);
      GroupArithmetic(bytes[0], bytes[1], bytes[2]);
      assert v[4..] == ToSextets(bytes[3..]);
      assert bytes == [bytes[0], bytes[1], bytes[2]] + bytes[3..];
    } else if |bytes| == 2 {
      GroupArithmetic(bytes[0], bytes[1], 0);
    } else if |bytes| == 1 {
      GroupArithmetic(bytes[0], 0, 0);
    }
  }

  // ---------- The alphabets ----------

  /** A base64url digit (section 5). */
  function UrlDigit(v: Sextet): char {
    if v < 26 then ('A' as int + v) as char
    else if v < 52 then ('a' as int + v - 26) as char
    else if v < 62 then ('0' as int + v - 52) as char
    else if v == 62 then '-' else '_'
  }

  /** What a base64 digit (section 4) is worth. */
  function DigitOf(c: char): Option<Sextet> {
    if 'A' <= c <= 'Z' then Some(c as int - 'A' as int)
    else if 'a' <= c <= 'z' then Some(c as int - 'a' as int + 26)
    else if '0' <= c <= '9' then Some(c as int - '0' as int + 52)
    else if c == '+' then Some(62)
    else if c == '/' then Some(63)
    else None
  }

  function Swap(c: char): char { if c == '-' then '+' else if c == '_' then '/' else c }

  /** `replace(/-/g, '+').replace(/_/g, '/')` */
  function SwapAlphabet(s: string): string {
    seq(|s|, i requires 0 <= i < |s| => Swap(s[i]))
  }

  /** The unpadded base64url encoding (section 2 of RFC 7515). */
  function EncodeUrl(bytes: seq<Byte>): string {
    var v := ToSextets(bytes);
    seq(|v|, i requires 0 <= i < |v| => UrlDigit(v[i]))
  }

  /** The digits are the sixty-four there are, each worth its place, in the swapped alphabet. */
  lemma DigitIff(c: char, v: Sextet)
    ensures DigitOf(c) == Some(v) <==> c == Swap(UrlDigit(v))
  {
  }

  lemma SwappedDigit(v: Sextet)
    ensures DigitOf(Swap(UrlDigit(v))) == Some(v) && UrlDigit(v) != '.'
  {
  }

  // ---------- `atob` ----------

  predicate IsAsciiSpace(c: char) { c in {'\t', '\n', '\U{000C}', '\r', ' '} }

  function StripSpace(s: string): string {
    if s == [] then [] else (if IsAsciiSpace(s[0]) then [] else [s[0]]) + StripSpace(s[1..])
  }

  lemma {:induction false} StripAppend(a: string, b: string)
    ensures StripSpace(a + b) == StripSpace(a) + StripSpace(b)
  {
    if a == [] {
      assert a + b == b;
    } else {
      StripAppend(a[1..], b);
      assert (a + b)[1..] == a[1..] + b;
      Regroup(if IsAsciiSpace(a[0]) then [] else [a[0]], StripSpace(a[1..]), StripSpace(b));
    }
  }

  lemma Regroup(a: string, b: string, c: string)
    ensures a + (b + c) == (a + b) + c
  {
  }

  /** One or two equals signs at the end of whole groups of four are padding. */
  function StripPadding(s: string): string {
    if |s| % 4 == 0 && |s| >= 2 && s[|s| - 1] == '=' then
      if s[|s| - 2] == '=' then s[..|s| - 2] else s[..|s| - 1]
    else s
  }

  predicate AllDigits(s: string) {
    forall i :: 0 <= i < |s| ==> DigitOf(s[i]).Some?
  }

  function Values(s: string): seq<Sextet>
    requires AllDigits(s)
  {
    seq(|s|, i requires 0 <= i < |s| => DigitOf(s[i]).value)
  }

  /** Whitespace and padding aside, every character must be a digit, and no digit may stand alone. */
  function Atob(s: string): Option<seq<Byte>> {
    var digits := StripPadding(StripSpace(s));
    if |digits| % 4 == 1 || !AllDigits(digits) then None else Some(FromSextets(Values(digits)))
  }

  /** A tab, a line feed, a form feed, a carriage return or a space is ignored, wherever it is. */
  lemma SpaceIsIgnored(a: string, c: char, b: string)
    requires c as int in {9, 10, 12, 13, 32}
    ensures Atob(a + [c] + b) == Atob(a + b)
  {
    StripAppend(a + [c], b);
    StripAppend(a, [c]);
    StripAppend(a, b);
    assert StripSpace([c]) == [];
    assert StripSpace(a) + [] == StripSpace(a);
  }

  // ---------- The client's arithmetic ----------

  /** `padEnd(Math.ceil(length / 4) * 4, '=')` */
  function RestorePadding(s: string): string {
    s + seq((|s| + 3) / 4 * 4 - |s|, _ => '=')
  }

  function DecodeUrl(s: string): Option<seq<Byte>> { Atob(RestorePadding(SwapAlphabet(s))) }

  lemma {:induction false} NothingToStrip(s: string)
    requires forall i :: 0 <= i < |s| ==> !IsAsciiSpace(s[i])
    ensures StripSpace(s) == s
  {
    if s != [] {
      NothingToStrip(s[1..]);
    }
  }

  function EqualsSigns(length: nat): string { ["", "===", "==", "="][length % 4] }

  lemma GroupsOfFour(length: nat)
    ensures (length + 3) / 4 * 4 == length + (4 - length % 4) % 4
    ensures (length + 3) / 4 * 4 % 4 == 0
  {
    var q, r := length / 4, length % 4;
    if r == 0 {
      assert (length + 3) / 4 == q;
    } else {
      assert (length + 3) / 4 == q + 1;
    }
  }

  lemma RestoredPadding(s: string)
    ensures RestorePadding(s) == s + EqualsSigns(|s|) && |RestorePadding(s)| % 4 == 0
  {
    GroupsOfFour(|s|);
    var missing := (4 - |s| % 4) % 4;
    assert RestorePadding(s) == s + seq(missing, _ => '=');
    assert seq(missing, _ => '=') == EqualsSigns(|s|);
  }

  /** The padding restored after digits comes off again, unless one digit stands alone: then one equals sign is left over. */
  lemma PaddingComesOff(s: string)
    requires AllDigits(s)
    ensures StripPadding(StripSpace(RestorePadding(s))) == s + if |s| % 4 == 1 then "=" else ""
  {
    var padded := RestorePadding(s);
    RestoredPadding(s);
    NothingToStrip(padded);
    StripRestored(s, padded);
  }

  lemma StripRestored(s: string, padded: string)
    requires AllDigits(s) && padded == s + EqualsSigns(|s|) && |padded| % 4 == 0
    ensures StripPadding(padded) == s + if |s| % 4 == 1 then "=" else ""
  {
    match |s| % 4
    case 0 => NoSign(s);
    case 1 => ThreeSigns(s);
    case 2 => TwoSigns(s);
    case _ => OneSign(s);
  }

  lemma NoSign(s: string)
    requires AllDigits(s)
    ensures StripPadding(s + "") == s + ""
  {
    assert s + "" == s;
    if s != "" {
      assert DigitOf(s[|s| - 1]).Some?;
    }
  }

  lemma OneSign(s: string)
    requires AllDigits(s) && |s| % 4 == 3
    ensures StripPadding(s + "=") == s + ""
  {
    var padded := s + "=";
    assert padded[|padded| - 2] == s[|s| - 1] && padded[..|padded| - 1] == s;
    assert s + "" == s;
  }

  lemma TwoSigns(s: string)
    requires |s| % 4 == 2
    ensures StripPadding(s + "==") == s + ""
  {
    assert (s + "==")[..|s|] == s && s + "" == s;
  }

  lemma ThreeSigns(s: string)
    requires |s| % 4 == 1
    ensures StripPadding(s + "===") == s + "="
  {
    assert (s + "===")[..|s| + 1] == s + "=";
  }

  /** Every byte string survives unpadded base64url, the alphabet swap, the restored padding and `atob`. */
  lemma UrlRoundTrip(bytes: seq<Byte>)
    ensures DecodeUrl(EncodeUrl(bytes)) == Some(bytes)
  {
    var v, swapped := ToSextets(bytes), SwapAlphabet(EncodeUrl(bytes));
    forall i | 0 <= i < |v| ensures DigitOf(swapped[i]) == Some(v[i]) {
      SwappedDigit(v[i]);
    }
    SextetRoundTrip(bytes);
    PaddingComesOff(swapped);
    assert swapped + "" == swapped;
    assert Values(swapped) == v;
  }

  lemma {:induction false} StripKeepsForeign(s: string, k: nat)
    requires k < |s| && !IsAsciiSpace(s[k])
    ensures s[k] in StripSpace(s)
  {
    if k > 0 {
      StripKeepsForeign(s[1..], k - 1);
    }
  }

  lemma PaddingIsEqualsSigns(s: string, c: char)
    requires c in s && c != '='
    ensures c in StripPadding(s)
  {
    var i :| 0 <= i < |s| && s[i] == c;
    assert i < |StripPadding(s)| && StripPadding(s)[i] == c;
  }

  /** A text with a character that is no digit of either alphabet, no space and no equals sign does not decode. */
  lemma ForeignCharacterDoesNotDecode(s: string, k: nat)
    requires k < |s| && DigitOf(Swap(s[k])).None? && !IsAsciiSpace(s[k]) && s[k] != '='
    ensures DecodeUrl(s).None?
  {
    var padded := RestorePadding(SwapAlphabet(s));
    assert padded[k] == Swap(s[k]) == s[k];
    StripKeepsForeign(padded, k);
    PaddingIsEqualsSigns(StripSpace(padded), s[k]);
  }

  /** Digits of the swapped alphabet decode if and only if none stands alone after the groups of four. */
  lemma DigitsDecodeIff(s: string)
    requires AllDigits(SwapAlphabet(s))
    ensures DecodeUrl(s).Some? <==> |s| % 4 != 1
  {
    var swapped := SwapAlphabet(s);
    PaddingComesOff(swapped);
    if |s| % 4 == 1 {
      assert (swapped + "=")[|s|] == '=';
    } else {
      assert swapped + "" == swapped;
    }
  }
}
