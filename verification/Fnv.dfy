/** FNV-1a, 32 bits, as the client's loop computes it in JavaScript's signed 32-bit arithmetic. */
module Fnv {
  import opened JsText

  type Byte = b: int | 0 <= b < 256

  const TWO_32 := 0x1_0000_0000
  const FNV_OFFSET := 0x811c_9dc5
  const FNV_PRIME := 0x0100_0193

  // ---------- The definition: draft-eastlake-fnv, section 2 ----------

  /** Bitwise exclusive or of two unsigned numbers. */
  function Xor(a: nat, b: nat): nat {
    if a == 0 && b == 0 then 0
    else 2 * Xor(a / 2, b / 2) + if a % 2 == b % 2 then 0 else 1
  }

  function FnvStep(hash: nat, octet: Byte): nat {
    Xor(hash, octet) * FNV_PRIME % TWO_32
  }

  function FnvFrom(hash: nat, bytes: seq<Byte>): nat {
    if bytes == [] then hash else FnvStep(FnvFrom(hash, bytes[..|bytes| - 1]), bytes[|bytes| - 1])
  }

  function Fnv1a(bytes: seq<Byte>): nat { FnvFrom(FNV_OFFSET, bytes) }

  // ---------- JavaScript's operators on integral numbers ----------

  function ToUint32(x: int): nat { x % TWO_32 }

  function ToInt32(x: int): int {
    var u := x % TWO_32;
    if u < 0x8000_0000 then u else u - TWO_32
  }

  /** `a ^ b` */
  function JsXor(a: int, b: int): int { ToInt32(Xor(ToUint32(a), ToUint32(b))) }

  /** `Math.imul(a, b)` */
  function Imul(a: int, b: int): int { ToInt32(ToInt32(a) * ToInt32(b)) }

  /** `x >>> 0` */
  function Unsigned(x: int): nat { ToUint32(x) }

  // ---------- Exclusive or ----------

  lemma {:induction false} XorUndoes(a: nat, b: nat)
    ensures Xor(Xor(a, b), b) == a
    decreases a + b
  {
    if a != 0 || b != 0 {
      XorUndoes(a / 2, b / 2);
      var x := Xor(a, b);
      assert x / 2 == Xor(a / 2, b / 2) && x % 2 == if a % 2 == b % 2 then 0 else 1;
    }
  }

  lemma {:induction false} XorCommutes(a: nat, b: nat)
    ensures Xor(a, b) == Xor(b, a)
    decreases a + b
  {
    if a != 0 || b != 0 {
      XorCommutes(a / 2, b / 2);
    }
  }

  function Power2(bits: nat): nat { if bits == 0 then 1 else 2 * Power2(bits - 1) }

  lemma {:induction false} XorStaysInWidth(a: nat, b: nat, bits: nat)
    requires a < Power2(bits) && b < Power2(bits)
    ensures Xor(a, b) < Power2(bits)
    decreases bits
  {
    if bits > 0 {
      XorStaysInWidth(a / 2, b / 2, bits - 1);
    }
  }

  lemma Width32()
    ensures Power2(32) == TWO_32
  {
    assert Power2(8) == 256;
    assert Power2(16) == 0x1_0000;
    assert Power2(24) == 0x100_0000;
  }

  // ---------- The loop ----------

  lemma SmallNumbers(x: int)
    requires 0 <= x < TWO_32
    ensures ToUint32(x) == x && (ToInt32(x) == x || ToInt32(x) == x - TWO_32)
    ensures ToInt32(ToInt32(x)) == ToInt32(x)
  {
  }

  /** The signed exclusive or is the unsigned one, give or take a whole turn. */
  lemma SignedXor(hash: nat, octet: Byte)
    requires hash < TWO_32
    ensures Xor(hash, octet) < TWO_32
    ensures JsXor(hash, octet) == Xor(hash, octet) || JsXor(hash, octet) == Xor(hash, octet) - TWO_32
    ensures ToInt32(JsXor(hash, octet)) == JsXor(hash, octet)
  {
    Width32();
    XorStaysInWidth(hash, octet, 32);
    SmallNumbers(hash);
    SmallNumbers(octet);
    SmallNumbers(Xor(hash, octet));
  }

  lemma SignsComeOff(x: int)
    ensures ToUint32(ToInt32(x)) == x % TWO_32
  {
  }

  /** One turn of the loop, signs and all, is one step of the definition. */
  lemma LoopTurnIsFnvStep(hash: nat, octet: Byte)
    requires hash < TWO_32
    ensures Unsigned(Imul(JsXor(hash, octet), FNV_PRIME)) == FnvStep(hash, octet) < TWO_32
  {
    SignedXor(hash, octet);
    var signed := JsXor(hash, octet);
    assert ToInt32(FNV_PRIME) == FNV_PRIME;
    SameProduct(Xor(hash, octet), signed);
    SignsComeOff(signed * FNV_PRIME);
  }

  lemma WholeTurns(x: int, turns: int)
    ensures (x + TWO_32 * turns) % TWO_32 == x % TWO_32
  {
    var q, r := x / TWO_32, x % TWO_32;
    assert x + TWO_32 * turns == TWO_32 * (q + turns) + r;
  }

  lemma SameProduct(x: int, signed: int)
    requires signed == x || signed == x - TWO_32
    ensures signed * FNV_PRIME % TWO_32 == x * FNV_PRIME % TWO_32
  {
    if signed == x - TWO_32 {
      WholeTurns(x * FNV_PRIME, -FNV_PRIME);
    }
  }

  /** `fnv1a32` over the bytes of its text: eight hex digits of the FNV-1a hash. */
  method Fnv1a32(bytes: seq<Byte>) returns (text: string)
    ensures text == HashText(bytes)
  {
    var hash: int := FNV_OFFSET;
    for i := 0 to |bytes|
      invariant 0 <= hash < TWO_32
      invariant hash == Fnv1a(bytes[..i])
    {
      assert bytes[..i + 1][..i] == bytes[..i];
      LoopTurnIsFnvStep(hash, bytes[i]);
      hash := JsXor(hash, bytes[i]);
      hash := Unsigned(Imul(hash, FNV_PRIME));
    }
    assert bytes[..|bytes|] == bytes;
    text := PadStart(ToHex(hash), 8, '0');
  }

  function HashText(bytes: seq<Byte>): string { PadStart(ToHex(Fnv1a(bytes)), 8, '0') }

  // ---------- Hexadecimal ----------

  predicate IsHexDigit(c: char) { '0' <= c <= '9' || 'a' <= c <= 'f' }

  function HexDigit(d: nat): (c: char)
    requires d < 16
    ensures IsHexDigit(c) && HexDigitValue(c) == d
  {
    if d < 10 then ('0' as int + d) as char else ('a' as int + d - 10) as char
  }

  function HexDigitValue(c: char): nat
    requires IsHexDigit(c)
  {
    if c <= '9' then c as int - '0' as int else c as int - 'a' as int + 10
  }

  predicate IsHex(s: string) {
    forall i :: 0 <= i < |s| ==> IsHexDigit(s[i])
  }

  function HexValue(s: string): nat
    requires IsHex(s)
  {
    if s == [] then 0 else 16 * HexValue(s[..|s| - 1]) + HexDigitValue(s[|s| - 1])
  }

  /** `toString(16)` */
  function ToHex(n: nat): (s: string)
    ensures s != [] && IsHex(s)
  {
    if n < 16 then [HexDigit(n)] else ToHex(n / 16) + [HexDigit(n % 16)]
  }

  lemma {:induction false} HexRoundTrip(n: nat)
    ensures HexValue(ToHex(n)) == n
  {
    if n < 16 {
      assert HexValue([HexDigit(n)][..0]) == 0;
    } else {
      HexRoundTrip(n / 16);
      var s := ToHex(n);
      assert s[..|s| - 1] == ToHex(n / 16);
    }
  }

  function Power16(n: nat): nat { if n == 0 then 1 else 16 * Power16(n - 1) }

  lemma {:induction false} HexWidth(n: nat, width: nat)
    requires n < Power16(width) && 0 < width
    ensures |ToHex(n)| <= width
    decreases width
  {
    if 16 <= n {
      assert width > 1;
      HexWidth(n / 16, width - 1);
    }
  }

  lemma {:induction false} LeadingZeros(s: string, zeros: nat)
    requires IsHex(s)
    ensures IsHex(seq(zeros, _ => '0') + s) && HexValue(seq(zeros, _ => '0') + s) == HexValue(s)
    decreases |s|
  {
    var padded := seq(zeros, _ => '0') + s;
    if s == [] {
      assert padded == seq(zeros, _ => '0');
      OnlyZeros(zeros);
    } else {
      LeadingZeros(s[..|s| - 1], zeros);
      assert padded[..|padded| - 1] == seq(zeros, _ => '0') + s[..|s| - 1];
    }
  }

  lemma {:induction false} OnlyZeros(zeros: nat)
    ensures HexValue(seq(zeros, _ => '0')) == 0
  {
    if zeros > 0 {
      OnlyZeros(zeros - 1);
      var s := seq(zeros, _ => '0');
      assert s[..|s| - 1] == seq(zeros - 1, _ => '0');
    }
  }

  lemma {:induction false} HashFits(hash: nat, bytes: seq<Byte>)
    requires hash < TWO_32
    ensures FnvFrom(hash, bytes) < TWO_32
  {
  }

  lemma EightDigitsSuffice()
    ensures Power16(8) == TWO_32
  {
    assert Power16(2) == 256;
    assert Power16(4) == 0x1_0000;
    assert Power16(6) == 0x100_0000;
  }

  /** A hash is always printed as exactly eight lower-case hex digits, and they are worth the hash. */
  lemma AlwaysEightHexDigits(bytes: seq<Byte>)
    ensures |HashText(bytes)| == 8 && IsHex(HashText(bytes)) && HexValue(HashText(bytes)) == Fnv1a(bytes)
  {
    HashFits(FNV_OFFSET, bytes);
    var hash := Fnv1a(bytes);
    EightDigitsSuffice();
    HexWidth(hash, 8);
    HexRoundTrip(hash);
    LeadingZeros(ToHex(hash), 8 - |ToHex(hash)|);
  }

  /** The hash of no bytes at all is the offset basis. */
  lemma EmptyTextHashes()
    ensures IsHex(HashText([])) && HexValue(HashText([])) == 0x811c_9dc5
  {
    AlwaysEightHexDigits([]);
  }

  // ---------- No two strings one byte apart collide ----------

  /** The inverse of the prime modulo 2^32. */
  const FNV_PRIME_INVERSE := 0x359c_449b

  lemma PrimeMultiplicationIsInvertible(x: int)
    requires 0 <= x < TWO_32
    ensures (x * FNV_PRIME % TWO_32) * FNV_PRIME_INVERSE % TWO_32 == x
  {
    var q, r := x * FNV_PRIME / TWO_32, x * FNV_PRIME % TWO_32;
    assert FNV_PRIME * FNV_PRIME_INVERSE == 1 + TWO_32 * (FNV_PRIME * FNV_PRIME_INVERSE / TWO_32);
    assert x * FNV_PRIME == q * TWO_32 + r;
    assert r * FNV_PRIME_INVERSE == x + TWO_32 * (x * (FNV_PRIME * FNV_PRIME_INVERSE / TWO_32) - q * FNV_PRIME_INVERSE);
  }

  /** Each step is one-to-one in the hash, and in the byte. */
  lemma StepIsInjective(a: nat, b: nat, x: Byte, y: Byte)
    requires a < TWO_32 && b < TWO_32 && FnvStep(a, x) == FnvStep(b, y)
    ensures x == y ==> a == b
    ensures a == b ==> x == y
  {
    Width32();
    XorStaysInWidth(a, x, 32);
    XorStaysInWidth(b, y, 32);
    PrimeMultiplicationIsInvertible(Xor(a, x));
    PrimeMultiplicationIsInvertible(Xor(b, y));
    XorUndoes(a, x);
    XorUndoes(b, y);
    XorCommutes(a, x);
    XorCommutes(b, y);
    XorUndoes(x, a);
    XorUndoes(y, b);
  }

  lemma {:induction false} TailKeepsApart(a: nat, b: nat, tail: seq<Byte>)
    requires a < TWO_32 && b < TWO_32 && a != b
    ensures FnvFrom(a, tail) != FnvFrom(b, tail)
  {
    if tail != [] {
      var last := |tail| - 1;
      TailKeepsApart(a, b, tail[..last]);
      HashFits(a, tail[..last]);
      HashFits(b, tail[..last]);
      if FnvFrom(a, tail) == FnvFrom(b, tail) {
        StepIsInjective(FnvFrom(a, tail[..last]), FnvFrom(b, tail[..last]), tail[last], tail[last]);
      }
    }
  }

  lemma {:induction false} FnvAppend(hash: nat, head: seq<Byte>, tail: seq<Byte>)
    ensures FnvFrom(hash, head + tail) == FnvFrom(FnvFrom(hash, head), tail)
  {
    if tail == [] {
      assert head + tail == head;
    } else {
      var last := |tail| - 1;
      FnvAppend(hash, head, tail[..last]);
      assert (head + tail)[..|head + tail| - 1] == head + tail[..last];
    }
  }

  /** Two byte strings of one length that differ in exactly one byte never have the same printed hash. */
  lemma OneByteApartNeverCollide(head: seq<Byte>, x: Byte, y: Byte, tail: seq<Byte>)
    requires x != y
    ensures HashText(head + [x] + tail) != HashText(head + [y] + tail)
  {
    var hash := Fnv1a(head);
    HashFits(FNV_OFFSET, head);
    var a, b := FnvStep(hash, x), FnvStep(hash, y);
    if a == b {
      StepIsInjective(hash, hash, x, y);
    }
    TailKeepsApart(a, b, tail);
    FnvAppend(FNV_OFFSET, head, [x]);
    FnvAppend(FNV_OFFSET, head, [y]);
    FnvAppend(FNV_OFFSET, head + [x], tail);
    FnvAppend(FNV_OFFSET, head + [y], tail);
    assert FnvFrom(hash, [x]) == a && FnvFrom(hash, [y]) == b;
    AlwaysEightHexDigits(head + [x] + tail);
    AlwaysEightHexDigits(head + [y] + tail);
  }
}
