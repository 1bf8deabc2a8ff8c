/** The fingerprint of one account's warned cards, by which a hidden reminder is remembered. */
module CardExpiryDismissal {
  import opened CardExpiry
  import opened Fnv

  datatype Entry = Entry(id: string, status: Status)

  function StatusName(status: Status): string {
    match status
    case Valid => "valid"
    case Expiring => "expiring"
    case Expired => "expired"
  }

  function PairOf(entry: Entry): string { entry.id + ":" + StatusName(entry.status) }

  function PairsOf(entries: seq<Entry>): seq<string> {
    seq(|entries|, i requires 0 <= i < |entries| => PairOf(entries[i]))
  }

  // ---------- Sorting ----------

  /** The order `sort` uses: by the first character that differs, then by length. */
  predicate AtMost(a: string, b: string) {
    a == [] || (b != [] && (a[0] < b[0] || (a[0] == b[0] && AtMost(a[1..], b[1..]))))
  }

  lemma {:induction false} AtMostIsTotal(a: string, b: string)
    ensures AtMost(a, b) || AtMost(b, a)
    ensures AtMost(a, b) && AtMost(b, a) ==> a == b
  {
    if a != [] && b != [] && a[0] == b[0] {
      AtMostIsTotal(a[1..], b[1..]);
      assert a == [a[0]] + a[1..] && b == [b[0]] + b[1..];
    }
  }

  lemma {:induction false} AtMostIsTransitive(a: string, b: string, c: string)
    requires AtMost(a, b) && AtMost(b, c)
    ensures AtMost(a, c)
  {
    if a != [] && a[0] == b[0] && b[0] == c[0] {
      AtMostIsTransitive(a[1..], b[1..], c[1..]);
    }
  }

  /** `a` comes first at the first character that differs, or is a prefix. */
  ghost predicate Precedes(a: string, b: string, k: nat) {
    k <= |a| && k <= |b| && a[..k] == b[..k] && (k == |a| || (k < |b| && a[k] < b[k]))
  }

  lemma {:induction false} AtMostIsLexicographic(a: string, b: string)
    ensures AtMost(a, b) <==> exists k: nat :: Precedes(a, b, k)
  {
    if a == [] {
      assert Precedes(a, b, 0);
    } else if b != [] && a[0] < b[0] {
      assert Precedes(a, b, 0);
    } else if b != [] && a[0] == b[0] {
      AtMostIsLexicographic(a[1..], b[1..]);
      if k: nat :| Precedes(a[1..], b[1..], k) {
        assert a[..k + 1] == [a[0]] + a[1..][..k] && b[..k + 1] == [b[0]] + b[1..][..k];
        assert Precedes(a, b, k + 1);
      }
      if k: nat :| Precedes(a, b, k) {
        assert k > 0;
        assert a[1..][..k - 1] == a[..k][1..] && b[1..][..k - 1] == b[..k][1..];
        assert Precedes(a[1..], b[1..], k - 1);
      }
    } else {
      forall k: nat ensures !Precedes(a, b, k) {
        if k > 0 && b != [] && k <= |a| && k <= |b| {
          assert a[..k][0] == a[0] && b[..k][0] == b[0];
        }
      }
    }
  }

  predicate IsSorted(s: seq<string>) {
    forall i, j :: 0 <= i < j < |s| ==> AtMost(s[i], s[j])
  }

  function Insert(x: string, s: seq<string>): seq<string> {
    if s == [] then [x] else if AtMost(x, s[0]) then [x] + s else [s[0]] + Insert(x, s[1..])
  }

  function Sort(s: seq<string>): seq<string> {
    if s == [] then [] else Insert(s[0], Sort(s[1..]))
  }

  lemma {:induction false} InsertAdds(x: string, s: seq<string>)
    ensures multiset(Insert(x, s)) == multiset{x} + multiset(s)
  {
    if s != [] && !AtMost(x, s[0]) {
      InsertAdds(x, s[1..]);
      assert s == [s[0]] + s[1..];
    }
  }

  lemma {:induction false} InsertSorts(x: string, s: seq<string>)
    requires IsSorted(s)
    ensures IsSorted(Insert(x, s))
  {
    if s != [] {
      if AtMost(x, s[0]) {
        forall j | 0 < j < |s| ensures AtMost(x, s[j]) {
          AtMostIsTransitive(x, s[0], s[j]);
        }
      } else {
        AtMostIsTotal(x, s[0]);
        InsertSorts(x, s[1..]);
        InsertAdds(x, s[1..]);
        FirstIsLeast(s[0], Insert(x, s[1..]), x, s[1..]);
      }
    }
  }

  lemma FirstIsLeast(first: string, rest: seq<string>, x: string, tail: seq<string>)
    requires IsSorted(rest) && multiset(rest) == multiset{x} + multiset(tail)
    requires AtMost(first, x) && forall y :: y in tail ==> AtMost(first, y)
    ensures IsSorted([first] + rest)
  {
    forall j | 0 <= j < |rest| ensures AtMost(first, rest[j]) {
      assert rest[j] in multiset(rest);
    }
  }

  lemma {:induction false} SortSorts(s: seq<string>)
    ensures IsSorted(Sort(s)) && multiset(Sort(s)) == multiset(s)
  {
    if s != [] {
      SortSorts(s[1..]);
      InsertSorts(s[0], Sort(s[1..]));
      InsertAdds(s[0], Sort(s[1..]));
      assert s == [s[0]] + s[1..];
    }
  }

  lemma LeastIsFirst(s: seq<string>, x: string)
    requires IsSorted(s) && x in multiset(s)
    ensures s != [] && AtMost(s[0], x)
  {
    AtMostIsTotal(s[0], s[0]);
  }

  lemma DropFirst(s: seq<string>)
    requires s != []
    ensures multiset(s[1..]) == multiset(s) - multiset{s[0]} && s[0] in multiset(s)
  {
    assert s == [s[0]] + s[1..];
  }

  lemma SameFirst(a: seq<string>, b: seq<string>)
    requires IsSorted(a) && IsSorted(b) && multiset(a) == multiset(b) && a != []
    ensures b != [] && a[0] == b[0]
  {
    DropFirst(a);
    LeastIsFirst(b, a[0]);
    DropFirst(b);
    LeastIsFirst(a, b[0]);
    AtMostIsTotal(a[0], b[0]);
  }

  /** A multiset of strings has one sorted sequence. */
  lemma {:induction false} SortedIsCanonical(a: seq<string>, b: seq<string>)
    requires IsSorted(a) && IsSorted(b) && multiset(a) == multiset(b)
    ensures a == b
  {
    if a == [] {
      assert |multiset(b)| == 0;
    } else {
      SameFirst(a, b);
      DropFirst(a);
      DropFirst(b);
      SortedIsCanonical(a[1..], b[1..]);
      assert a == [a[0]] + a[1..] && b == [b[0]] + b[1..];
    }
  }

  // ---------- The fingerprint ----------

  function Join(parts: seq<string>): string {
    if parts == [] then "" else if |parts| == 1 then parts[0] else parts[0] + "\n" + Join(parts[1..])
  }

  /** The text that is hashed: the account, then its sorted pairs, a line each. */
  function FingerprintText(userId: string, entries: seq<Entry>): string {
    userId + "\n" + Join(Sort(PairsOf(entries)))
  }

  function Fingerprint(userId: string, entries: seq<Entry>): string {
    HashText(Utf8(FingerprintText(userId, entries)))
  }

  /** The UTF-8 bytes of a character. */
  function Utf8Char(c: char): seq<Byte> {
    var code := c as int;
    if code < 0x80 then [code]
    else if code < 0x800 then [0xC0 + code / 0x40, 0x80 + code % 0x40]
    else if code < 0x1_0000 then [0xE0 + code / 0x1000, 0x80 + code / 0x40 % 0x40, 0x80 + code % 0x40]
    else [0xF0 + code / 0x4_0000 % 8, 0x80 + code / 0x1000 % 0x40, 0x80 + code / 0x40 % 0x40, 0x80 + code % 0x40]
  }

  function Utf8(text: string): seq<Byte> {
    if text == [] then [] else Utf8Char(text[0]) + Utf8(text[1..])
  }

  function Without<T>(s: seq<T>, k: nat): seq<T>
    requires k < |s|
  {
    s[..k] + s[k + 1..]
  }

  lemma RemoveOne<T>(s: seq<T>, k: nat)
    requires k < |s|
    ensures multiset(Without(s, k)) == multiset(s) - multiset{s[k]} && s[k] in multiset(s)
  {
    assert s == s[..k] + ([s[k]] + s[k + 1..]);
  }

  lemma PairsOfWithout(entries: seq<Entry>, k: nat)
    requires k < |entries|
    ensures PairsOf(Without(entries, k)) == Without(PairsOf(entries), k)
  {
  }

  lemma {:induction false} PairsFollowEntries(a: seq<Entry>, b: seq<Entry>)
    requires multiset(a) == multiset(b)
    ensures multiset(PairsOf(a)) == multiset(PairsOf(b))
  {
    if a == [] {
      assert |multiset(b)| == 0;
    } else {
      assert a[0] in multiset(b);
      var k :| 0 <= k < |b| && b[k] == a[0];
      RemoveOne(a, 0);
      RemoveOne(b, k);
      PairsFollowEntries(Without(a, 0), Without(b, k));
      PairsOfWithout(a, 0);
      PairsOfWithout(b, k);
      PutBack(PairsOf(a), 0, PairsOf(b), k);
    }
  }

  lemma PutBack<T>(s: seq<T>, j: nat, t: seq<T>, k: nat)
    requires j < |s| && k < |t| && s[j] == t[k]
    requires multiset(Without(s, j)) == multiset(Without(t, k))
    ensures multiset(s) == multiset(t)
  {
    RemoveOne(s, j);
    RemoveOne(t, k);
    assert multiset(s) == multiset(Without(s, j)) + multiset{s[j]};
    assert multiset(t) == multiset(Without(t, k)) + multiset{t[k]};
  }

  lemma SortIgnoresOrder(a: seq<Entry>, b: seq<Entry>)
    requires multiset(a) == multiset(b)
    ensures Sort(PairsOf(a)) == Sort(PairsOf(b))
  {
    PairsFollowEntries(a, b);
    SortSorts(PairsOf(a));
    SortSorts(PairsOf(b));
    SortedIsCanonical(Sort(PairsOf(a)), Sort(PairsOf(b)));
  }

  /** The order the cards are listed in never changes the fingerprint. */
  lemma FingerprintIgnoresOrder(userId: string, a: seq<Entry>, b: seq<Entry>)
    requires multiset(a) == multiset(b)
    ensures Fingerprint(userId, a) == Fingerprint(userId, b)
  {
    SortIgnoresOrder(a, b);
  }

  /** The fingerprint is eight hex digits, worth the FNV-1a hash of the text's UTF-8 bytes. */
  lemma FingerprintIsTheHash(userId: string, entries: seq<Entry>)
    ensures var text := Fingerprint(userId, entries);
            |text| == 8 && IsHex(text) && HexValue(text) == Fnv1a(Utf8(FingerprintText(userId, entries)))
  {
    AlwaysEightHexDigits(Utf8(FingerprintText(userId, entries)));
  }

  // ---------- What the hashed text tells apart ----------

  predicate OneLine(s: string) { '\n' !in s }

  function LineEnd(s: string): nat {
    if s == "" || s[0] == '\n' then 0 else 1 + LineEnd(s[1..])
  }

  lemma {:induction false} LineEndsAfterItsText(line: string, rest: string)
    requires OneLine(line)
    ensures LineEnd(line + "\n" + rest) == |line|
  {
    if line != "" {
      LineEndsAfterItsText(line[1..], rest);
      assert (line + "\n" + rest)[1..] == line[1..] + "\n" + rest;
    }
  }

  lemma FirstLine(a: string, restA: string, b: string, restB: string)
    requires OneLine(a) && OneLine(b) && a + "\n" + restA == b + "\n" + restB
    ensures a == b && restA == restB
  {
    LineEndsAfterItsText(a, restA);
    LineEndsAfterItsText(b, restB);
    var whole := a + "\n" + restA;
    assert whole[..|a|] == a && whole[..|b|] == b;
    assert whole[|a| + 1..] == restA && whole[|b| + 1..] == restB;
  }

  lemma {:induction false} JoinIsInjective(a: seq<string>, b: seq<string>)
    requires forall s :: s in a || s in b ==> s != "" && OneLine(s)
    requires Join(a) == Join(b)
    ensures a == b
  {
    if |a| >= 2 && |b| >= 2 {
      assert a[0] in a && b[0] in b;
      FirstLine(a[0], Join(a[1..]), b[0], Join(b[1..]));
      assert forall s :: s in a[1..] ==> s in a;
      assert forall s :: s in b[1..] ==> s in b;
      JoinIsInjective(a[1..], b[1..]);
      assert a == [a[0]] + a[1..] && b == [b[0]] + b[1..];
    } else if |a| >= 2 {
      NewlineTells(a, b);
    } else if |b| >= 2 {
      NewlineTells(b, a);
    } else {
      assert |a| == 1 ==> a[0] in a;
      assert |b| == 1 ==> b[0] in b;
    }
  }

  lemma NewlineTells(long: seq<string>, short: seq<string>)
    requires |long| >= 2 && |short| <= 1
    requires forall s :: s in short ==> OneLine(s)
    ensures Join(long) != Join(short)
  {
    assert Join(long)[|long[0]|] == '\n';
    assert '\n' !in Join(short) by {
      if short != [] {
        assert short[0] in short;
      }
    }
  }

  lemma PairIsALine(entry: Entry)
    requires OneLine(entry.id)
    ensures PairOf(entry) != "" && OneLine(PairOf(entry))
  {
    assert OneLine(StatusName(entry.status));
  }

  lemma SortKeepsMembers(s: seq<string>, x: string)
    ensures x in Sort(s) <==> x in s
  {
    SortSorts(s);
    assert x in Sort(s) <==> x in multiset(Sort(s));
    assert x in s <==> x in multiset(s);
  }

  lemma PairsAreLines(entries: seq<Entry>)
    requires forall e :: e in entries ==> OneLine(e.id)
    ensures forall s :: s in Sort(PairsOf(entries)) ==> s != "" && OneLine(s)
  {
    forall s | s in Sort(PairsOf(entries)) ensures s != "" && OneLine(s) {
      SortKeepsMembers(PairsOf(entries), s);
      var i :| 0 <= i < |PairsOf(entries)| && PairsOf(entries)[i] == s;
      assert entries[i] in entries;
      PairIsALine(entries[i]);
    }
  }

  lemma PairTellsIdAndStatus(a: Entry, b: Entry)
    requires PairOf(a) == PairOf(b)
    ensures a == b
  {
    var pair := PairOf(a);
    assert pair[|pair| - 2] == StatusName(a.status)[|StatusName(a.status)| - 2];
    assert pair[|pair| - 2] == StatusName(b.status)[|StatusName(b.status)| - 2];
    assert a.id == pair[..|pair| - 1 - |StatusName(a.status)|];
    assert b.id == pair[..|pair| - 1 - |StatusName(b.status)|];
  }

  /** The pairs determine the cards: the converse of `PairsFollowEntries`. */
  lemma {:induction false} EntriesFollowPairs(a: seq<Entry>, b: seq<Entry>)
    requires multiset(PairsOf(a)) == multiset(PairsOf(b))
    ensures multiset(a) == multiset(b)
  {
    if a == [] {
      assert |multiset(PairsOf(b))| == 0;
    } else {
      assert PairsOf(a)[0] in multiset(PairsOf(b));
      var k :| 0 <= k < |b| && PairsOf(b)[k] == PairsOf(a)[0];
      PairTellsIdAndStatus(a[0], b[k]);
      RemoveOne(PairsOf(a), 0);
      RemoveOne(PairsOf(b), k);
      PairsOfWithout(a, 0);
      PairsOfWithout(b, k);
      EntriesFollowPairs(Without(a, 0), Without(b, k));
      PutBack(a, 0, b, k);
    }
  }

  /**
   The hashed text is the same for two accounts' cards if and only if the account and
   the cards, every id with its status, are the same: another account, another card or
   a card that has since expired hashes another text. Account and card ids hold no newline.
   */
  lemma TextTellsCardsApart(userA: string, a: seq<Entry>, userB: string, b: seq<Entry>)
    requires OneLine(userA) && OneLine(userB)
    requires forall e :: e in a || e in b ==> OneLine(e.id)
    ensures FingerprintText(userA, a) == FingerprintText(userB, b) <==> userA == userB && multiset(a) == multiset(b)
  {
    if FingerprintText(userA, a) == FingerprintText(userB, b) {
      FirstLine(userA, Join(Sort(PairsOf(a))), userB, Join(Sort(PairsOf(b))));
      PairsAreLines(a);
      PairsAreLines(b);
      JoinIsInjective(Sort(PairsOf(a)), Sort(PairsOf(b)));
      SortSorts(PairsOf(a));
      SortSorts(PairsOf(b));
      EntriesFollowPairs(a, b);
    }
    if multiset(a) == multiset(b) {
      SortIgnoresOrder(a, b);
    }
  }

  /** The text is the account, a line, and the pairs sorted, a line between them. */
  lemma TextOfTwoCards()
    ensures FingerprintText("u", [Entry("b", Expired), Entry("a", Expiring)]) == "u\na:expiring\nb:expired"
  {
    var later, first := PairOf(Entry("b", Expired)), PairOf(Entry("a", Expiring));
    assert later == "b:expired" && first == "a:expiring";
    assert PairsOf([Entry("b", Expired), Entry("a", Expiring)]) == [later, first];
    SortOfTwo(later, first);
    assert [first, later][1..] == [later];
    assert Join([first, later]) == first + "\n" + later;
  }

  lemma SortOfTwo(later: string, first: string)
    requires later != "" && first != "" && first[0] < later[0]
    ensures Sort([later, first]) == [first, later]
  {
    assert [later, first][1..] == [first] && [first][1..] == [];
    assert Sort([first]) == Insert(first, []);
    assert !AtMost(later, first);
    assert Insert(later, []) == [later];
  }

  // ---------- The bytes that are hashed ----------

  /** How long a character's encoding is, from its first byte alone. */
  function EncodingLength(first: Byte): nat {
    if first < 0x80 then 1 else if first < 0xE0 then 2 else if first < 0xF0 then 3 else 4
  }

  lemma LengthIsInTheFirstByte(c: char)
    ensures Utf8Char(c) != [] && |Utf8Char(c)| == EncodingLength(Utf8Char(c)[0])
  {
  }

  lemma TwoSextetsOff(code: int)
    requires 0 <= code
    ensures code / 0x40 / 0x40 == code / 0x1000
  {
  }

  lemma ThreeSextetsOff(code: int)
    requires 0 <= code
    ensures code / 0x1000 / 0x40 == code / 0x4_0000
  {
  }

  /** A number below 2^21 from the digits its encoding is made of. */
  lemma SextetsMakeTheCode(code: int)
    requires 0 <= code < 0x20_0000
    ensures code == 0x40 * (code / 0x40) + code % 0x40
    ensures code == 0x1000 * (code / 0x1000) + 0x40 * (code / 0x40 % 0x40) + code % 0x40
    ensures code == 0x4_0000 * (code / 0x4_0000 % 8) + 0x1000 * (code / 0x1000 % 0x40) + 0x40 * (code / 0x40 % 0x40) + code % 0x40
  {
    var high, higher := code / 0x40, code / 0x1000;
    TwoSextetsOff(code);
    ThreeSextetsOff(code);
    assert high == 0x40 * (high / 0x40) + high % 0x40;
    assert higher == 0x40 * (higher / 0x40) + higher % 0x40;
    assert 0 <= code / 0x4_0000 < 8;
  }

  function Less(octet: Byte, lead: int): int { octet as int - lead }

  /** The number the first encoded character stands for: section 3 of RFC 3629, read bit by bit. */
  function FirstCode(bytes: seq<Byte>): int
    requires bytes != [] && EncodingLength(bytes[0]) <= |bytes|
  {
    match EncodingLength(bytes[0])
    case 1 => bytes[0]
    case 2 => Less(bytes[0], 0xC0) * 0x40 + Less(bytes[1], 0x80)
    case 3 => Less(bytes[0], 0xE0) * 0x1000 + Less(bytes[1], 0x80) * 0x40 + Less(bytes[2], 0x80)
    case _ =>
      Less(bytes[0], 0xF0) * 0x4_0000 + Less(bytes[1], 0x80) * 0x1000 + Less(bytes[2], 0x80) * 0x40 + Less(bytes[3], 0x80)
  }

  /** A continuation byte's two high bits are 10. */
  predicate IsContinuation(octet: Byte) { 0x80 <= octet < 0xC0 }

  lemma CharReadsBack(c: char, rest: seq<Byte>)
    ensures var bytes := Utf8Char(c) + rest;
            && bytes != [] && EncodingLength(bytes[0]) == |Utf8Char(c)| && FirstCode(bytes) == c as int
            && (forall i :: 0 < i < |Utf8Char(c)| ==> IsContinuation(bytes[i]))
            && !IsContinuation(bytes[0])
  {
    LengthIsInTheFirstByte(c);
    SextetsMakeTheCode(c as int);
    var bytes := Utf8Char(c) + rest;
    assert forall i :: 0 <= i < |Utf8Char(c)| ==> bytes[i] == Utf8Char(c)[i];
  }

  /** Reading UTF-8 back, a character at a time. */
  function FromUtf8(bytes: seq<Byte>): seq<int> {
    if bytes == [] || |bytes| < EncodingLength(bytes[0]) then []
    else [FirstCode(bytes)] + FromUtf8(bytes[EncodingLength(bytes[0])..])
  }

  function Codes(text: string): seq<int> { seq(|text|, i requires 0 <= i < |text| => text[i] as int) }

  /** Every text reads back from its UTF-8 bytes. */
  lemma {:induction false} Utf8RoundTrip(text: string)
    ensures FromUtf8(Utf8(text)) == Codes(text)
  {
    if text != [] {
      Utf8RoundTrip(text[1..]);
      CharReadsBack(text[0], Utf8(text[1..]));
      var bytes := Utf8(text);
      assert bytes[|Utf8Char(text[0])|..] == Utf8(text[1..]);
      assert Codes(text) == [text[0] as int] + Codes(text[1..]);
    }
  }

  /** Two texts never have the same UTF-8 bytes. */
  lemma Utf8IsInjective(a: string, b: string)
    requires Utf8(a) == Utf8(b)
    ensures a == b
  {
    Utf8RoundTrip(a);
    Utf8RoundTrip(b);
    assert |a| == |Codes(a)| && |b| == |Codes(b)|;
    forall i | 0 <= i < |a| ensures a[i] == b[i] {
      assert Codes(a)[i] == a[i] as int && Codes(b)[i] == b[i] as int;
    }
  }

  /** The bytes that are hashed are the same if and only if the account and its warned cards are. */
  lemma BytesTellCardsApart(userA: string, a: seq<Entry>, userB: string, b: seq<Entry>)
    requires OneLine(userA) && OneLine(userB)
    requires forall e :: e in a || e in b ==> OneLine(e.id)
    ensures Utf8(FingerprintText(userA, a)) == Utf8(FingerprintText(userB, b)) <==> userA == userB && multiset(a) == multiset(b)
  {
    TextTellsCardsApart(userA, a, userB, b);
    if Utf8(FingerprintText(userA, a)) == Utf8(FingerprintText(userB, b)) {
      Utf8IsInjective(FingerprintText(userA, a), FingerprintText(userB, b));
    }
  }
}
