/** Digests, their hexadecimal form, and the bank path of a digest. */
module Hex {
  import opened Bytes

  type uint128 = x: int | 0 <= x < 0x1_0000_0000_0000_0000_0000_0000_0000_0000

  const DIGITS := "0123456789abcdef"

  /** c is the digit for d, a letter in lower case. */
  predicate Digit(c: char, d: int) {
    c as int == if d < 10 then '0' as int + d else 'a' as int + d - 10
  }

  predicate IsDigit(c: char) {
    '0' <= c <= '9' || 'a' <= c <= 'f'
  }

  lemma DigitsInOrder(d: nat)
    requires d < 16
    ensures Digit(DIGITS[d], d) && IsDigit(DIGITS[d])
  {}

  /** A stream in hexadecimal mode writes the digits it needs, at least one. */
  function HexNumber(v: nat): (s: string)
    ensures |s| > 0
  {
    if v < 16 then [DIGITS[v]] else HexNumber(v / 16) + [DIGITS[v % 16]]
  }

  /** setfill('0') and setw(width). */
  function Padded(s: string, width: nat): string {
    if |s| >= width then s else seq(width - |s|, _ => '0') + s
  }

  function HexByte(c: byte): string {
    [DIGITS[c / 16], DIGITS[c % 16]]
  }

  /** Two digits for every byte. */
  function HexBytes(b: Bytes): (s: string)
    ensures |s| == 2 * |b|
  {
    if b == [] then "" else HexByte(b[0]) + HexBytes(b[1..])
  }

  lemma {:induction false} HexBytesAppend(a: Bytes, b: Bytes)
    ensures HexBytes(a + b) == HexBytes(a) + HexBytes(b)
  {
    if a == [] {
      assert a + b == b;
    } else {
      assert (a + b)[1..] == a[1..] + b;
      HexBytesAppend(a[1..], b);
    }
  }

  lemma HexHead(b: Bytes)
    requires b != []
    ensures HexBytes(b)[..2] == HexByte(b[0]) && HexBytes(b)[2..] == HexBytes(b[1..])
  {
    hide HexByte;
    HexByteLength(b[0]);
  }

  lemma HexByteLength(c: byte)
    ensures |HexByte(c)| == 2
  {}

  lemma HexSingle(c: byte)
    ensures HexBytes([c]) == HexByte(c)
  {
    hide HexByte;
    assert [c][1..] == [];
  }

  function FixedHex(v: nat, k: nat): (s: string)
    ensures |s| == k
  {
    if k == 0 then "" else FixedHex(v / 16, k - 1) + [DIGITS[v % 16]]
  }

  function Pow16(k: nat): (m: nat)
    ensures m > 0
  {
    if k == 0 then 1 else 16 * Pow16(k - 1)
  }

  /** What stands in the text of a sequence of bytes, character by character: the digits of the high and the
      low half of each byte. */
  lemma {:induction false} HexCharacters(b: Bytes, k: nat)
    requires k < |b|
    ensures var high, low := b[k] / 16, b[k] % 16; var h := HexBytes(b);
      && h[2 * k] as int == (if high < 10 then '0' as int + high else 'a' as int + high - 10)
      && h[2 * k + 1] as int == (if low < 10 then '0' as int + low else 'a' as int + low - 10)
  {
    hide HexBytes;
    HexHead(b);
    if k == 0 {
      ByteCharacters(b[0]);
      assert HexBytes(b)[0] == HexBytes(b)[..2][0] && HexBytes(b)[1] == HexBytes(b)[..2][1];
    } else {
      hide HexByte;
      HexCharacters(b[1..], k - 1);
      assert HexBytes(b)[2 * k] == HexBytes(b)[2..][2 * (k - 1)];
      assert HexBytes(b)[2 * k + 1] == HexBytes(b)[2..][2 * (k - 1) + 1];
    }
  }

  lemma ByteCharacters(c: byte)
    ensures |HexByte(c)| == 2 && Digit(HexByte(c)[0], c / 16) && Digit(HexByte(c)[1], c % 16)
  {
    DigitsInOrder(c / 16);
    DigitsInOrder(c % 16);
  }

  lemma {:induction false} FixedZero(k: nat)
    ensures FixedHex(0, k) == seq(k, _ => '0')
  {
    if k > 0 {
      FixedZero(k - 1);
    }
  }

  lemma PaddedAppend(s: string, c: char, k: nat)
    requires k > 0
    ensures Padded(s + [c], k) == Padded(s, k - 1) + [c]
  {}

  lemma FixedSmall(v: nat, k: nat)
    requires k > 0 && v < 16
    ensures FixedHex(v, k) == seq(k - 1, _ => '0') + [DIGITS[v]]
  {
    FixedZero(k - 1);
  }

  lemma PaddedDigit(c: char, k: nat)
    requires k > 0
    ensures Padded([c], k) == seq(k - 1, _ => '0') + [c]
  {}

  lemma Sixteenth(v: nat, k: nat)
    requires k > 0 && v < Pow16(k)
    ensures v / 16 < Pow16(k - 1)
  {}

  /** Padding to a width that the number fits in gives exactly that many digits. */
  lemma {:induction false} PaddedNumber(v: nat, k: nat)
    requires k > 0 && v < Pow16(k)
    ensures Padded(HexNumber(v), k) == FixedHex(v, k)
    decreases k
  {
    hide Padded;
    if v < 16 {
      hide FixedHex;
      FixedSmall(v, k);
      PaddedDigit(DIGITS[v], k);
    } else {
      Sixteenth(v, k);
      hide Pow16;
      assert k > 1 by { OneDigit(v, k); }
      PaddedNumber(v / 16, k - 1);
      PaddedAppend(HexNumber(v / 16), DIGITS[v % 16], k);
    }
  }

  lemma OneDigit(v: nat, k: nat)
    requires k > 0 && 16 <= v < Pow16(k)
    ensures k > 1
  {
    assert Pow16(1) == 16 * Pow16(0) == 16;
  }

  /** The two digits of the last byte. */
  lemma LowByte(v: nat)
    ensures v / 16 / 16 == v / 256 && v / 16 % 16 == v % 256 / 16 && v % 16 == v % 256 % 16
  {}

  lemma FixedTwo(v: nat, k: nat)
    ensures FixedHex(v, k + 2) == FixedHex(v / 256, k) + HexByte(v % 256)
  {
    LowByte(v);
    assert FixedHex(v, k + 2) == FixedHex(v / 16, k + 1) + [DIGITS[v % 16]];
    assert FixedHex(v / 16, k + 1) == FixedHex(v / 16 / 16, k) + [DIGITS[v / 16 % 16]];
  }

  lemma {:induction false} FixedIsBytes(v: nat, k: nat)
    ensures FixedHex(v, 2 * k) == HexBytes(BigEndian(v, k))
    decreases k
  {
    hide HexByte, HexBytes, FixedHex;
    if k == 0 {
      NoDigits(v);
      NoBytes();
    } else {
      FixedIsBytes(v / 256, k - 1);
      FixedTwo(v, 2 * (k - 1));
      HexBytesAppend(BigEndian(v / 256, k - 1), [v % 256]);
      HexSingle(v % 256);
    }
  }

  lemma NoDigits(v: nat)
    ensures FixedHex(v, 0) == ""
  {}

  lemma Pow16Values()
    ensures Pow16(2) == 256 && Pow16(32) == 0x1_0000_0000_0000_0000_0000_0000_0000_0000
  {
    assert Pow16(8) == 0x1_0000_0000;
    assert Pow16(16) == 0x1_0000_0000_0000_0000;
    assert Pow16(24) == 0x1_0000_0000_0000_0000_0000_0000;
  }

  lemma ByteNumber(c: byte)
    ensures Padded(HexNumber(c), 2) == HexByte(c)
  {
    hide HexByte, HexBytes, HexNumber, Padded, FixedHex;
    Pow16Values();
    PaddedNumber(c, 2);
    FixedIsBytes(c, 1);
    assert BigEndian(c, 1) == BigEndian(0, 0) + [c] == [c];
    HexSingle(c);
  }

  method Bin2Hex(bin: Bytes) returns (s: string)
    ensures s == HexBytes(bin)
  {
    hide HexByte, HexNumber, Padded;
    s := "";
    for i := 0 to |bin|
      invariant s == HexBytes(bin[..i])
    {
      s := s + Padded(HexNumber(bin[i]), 2);
      ByteNumber(bin[i]);
      HexBytesAppend(bin[..i], [bin[i]]);
      assert bin[..i + 1] == bin[..i] + [bin[i]];
      HexSingle(bin[i]);
    }
    assert bin[..|bin|] == bin;
  }

  function Value(c: char): (v: int)
    ensures -1 <= v < 16
  {
    if '0' <= c <= '9' then c as int - '0' as int
    else if 'a' <= c <= 'f' then c as int - 'a' as int + 10
    else if 'A' <= c <= 'F' then c as int - 'A' as int + 10
    else -1
  }

  lemma ValueOfDigit(d: nat)
    requires d < 16
    ensures Value(DIGITS[d]) == d
  {}

  /** The number that a string of digits stands for. */
  function Parsed(s: string): nat {
    if s == "" then 0 else Parsed(s[..|s| - 1]) * 16 + if Value(s[|s| - 1]) < 0 then 0 else Value(s[|s| - 1])
  }

  lemma {:induction false} ParsedBytes(b: Bytes)
    ensures Parsed(HexBytes(b)) == Unsigned(b)
    decreases |b|
  {
    hide HexByte, HexBytes;
    if b == [] {
      NoBytes();
    } else {
      var n := |b| - 1;
      var s := HexBytes(b[..n]);
      ParsedBytes(b[..n]);
      HexBytesAppend(b[..n], [b[n]]);
      assert b == b[..n] + [b[n]];
      HexSingle(b[n]);
      ParsedTwo(s, b[n]);
    }
  }

  lemma NoBytes()
    ensures HexBytes([]) == ""
  {}

  lemma ParsedTwo(s: string, c: byte)
    ensures Parsed(s + HexByte(c)) == Parsed(s) * 256 + c
  {
    ValueOfDigit(c / 16);
    ValueOfDigit(c % 16);
    assert (s + HexByte(c))[..|s| + 1] == s + [DIGITS[c / 16]];
    assert (s + [DIGITS[c / 16]])[..|s|] == s;
  }

  lemma NextByte(v: nat, c: byte, k: nat)
    ensures BigEndian(v * 256 + c, k + 1) == BigEndian(v, k) + [c]
    ensures v < Pow256(k) ==> v * 256 + c < Pow256(k + 1)
  {
    assert (v * 256 + c) / 256 == v && (v * 256 + c) % 256 == c;
  }

  /** The bytes of a digest as one number, as makeMD5Hash assigns it. */
  lemma {:induction false} BytesOfNumber(b: Bytes)
    ensures BigEndian(Unsigned(b), |b|) == b && Unsigned(b) < Pow256(|b|)
    decreases |b|
  {
    if b != [] {
      var n := |b| - 1;
      BytesOfNumber(b[..n]);
      assert Unsigned(b) == Unsigned(b[..n]) * 256 + b[n];
      hide BigEndian, Pow256, Unsigned;
      NextByte(Unsigned(b[..n]), b[n], n);
      assert b == b[..n] + [b[n]];
    }
  }

  /** Groups of two, each followed by a slash. */
  function Grouped(h: string): string {
    if |h| < 2 then h else h[..2] + "/" + Grouped(h[2..])
  }

  lemma NumberIsBytes(v: uint128)
    ensures Padded(HexNumber(v), 32) == HexBytes(BigEndian(v, 16))
  {
    hide HexBytes, HexNumber, Padded, FixedHex, BigEndian;
    Pow16Values();
    PaddedNumber(v, 32);
    FixedIsBytes(v, 16);
  }

  lemma NoGroups()
    ensures Grouped("") == ""
  {}

  lemma Middle(a: string, b: string)
    ensures (a + b)[..|a|] == a && (a + b)[|a|..] == b
  {}

  lemma SlashIn(h: string, i: nat)
    requires 2 <= i <= |h|
    ensures h[..i] + "/" + Grouped(h[i..]) == h[..i - 2] + Grouped(h[i - 2..])
  {
    var rest := h[i - 2..];
    assert rest[..2] == h[i - 2..i] && rest[2..] == h[i..];
    assert h[..i] == h[..i - 2] + h[i - 2..i];
  }

  /** getServerPathFromMD5: the slashes go in from right to left. */
  method GetServerPathFromMD5(base: string, md5sum: uint128) returns (path: string)
    ensures path == base + Grouped(HexBytes(BigEndian(md5sum, 16)))
  {
    hide HexBytes, HexNumber, Padded, BigEndian, Grouped;
    var md5string := Padded(HexNumber(md5sum), 32);
    NumberIsBytes(md5sum);
    ghost var h := md5string;
    var i := 32;
    NoGroups();
    assert h[..32] == h && h[32..] == "";
    while i >= 2
      invariant 0 <= i <= 32 && i % 2 == 0 && |h| == 32
      invariant md5string == h[..i] + Grouped(h[i..])
    {
      SlashIn(h, i);
      Middle(h[..i], Grouped(h[i..]));
      md5string := md5string[..i] + "/" + md5string[i..];
      i := i - 2;
    }
    assert h[0..] == h;
    return base + md5string;
  }

  lemma {:induction false} GroupedShape(b: Bytes, k: nat)
    requires k < |b|
    ensures |Grouped(HexBytes(b))| == 3 * |b|
    ensures Grouped(HexBytes(b))[3 * k..3 * k + 3] == HexByte(b[k]) + "/"
  {
    hide HexBytes, HexByte;
    var h := HexBytes(b);
    HexHead(b);
    HexByteLength(b[0]);
    if |b| > 1 {
      GroupedShape(b[1..], if k == 0 then 0 else k - 1);
      if k > 0 {
        var rest := Grouped(HexBytes(b[1..]));
        assert Grouped(h) == (h[..2] + "/") + rest;
        Middle(h[..2] + "/", rest);
        assert Grouped(h)[3..] == rest;
        assert Grouped(h)[3 * k..3 * k + 3] == rest[3 * (k - 1)..3 * (k - 1) + 3];
      }
    }
  }

  /** The path spells the bytes of the digest in order, leading zero bytes included: sixteen groups
      of two digits, each with a slash behind it. */
  lemma PathSpellsDigest(digest: Bytes, k: nat)
    requires |digest| == 16 && k < 16
    ensures var path := Grouped(HexBytes(BigEndian(Parsed(HexBytes(digest)), 16)));
      && |path| == 48 && path[3 * k..3 * k + 3] == HexByte(digest[k]) + "/"
      && Digit(path[3 * k], digest[k] / 16) && Digit(path[3 * k + 1], digest[k] % 16) && path[3 * k + 2] == '/'
  {
    hide HexByte, HexBytes, Grouped, Digit, BigEndian, Parsed;
    ParsedBytes(digest);
    BytesOfNumber(digest);
    GroupedShape(digest, k);
    ThirdsOf(Grouped(HexBytes(digest)), k, digest[k]);
  }

  lemma ThirdsOf(path: string, k: nat, c: byte)
    requires 3 * k + 3 <= |path| && path[3 * k..3 * k + 3] == HexByte(c) + "/"
    ensures Digit(path[3 * k], c / 16) && Digit(path[3 * k + 1], c % 16) && path[3 * k + 2] == '/'
  {
    hide HexByte, Digit;
    ByteCharacters(c);
    var group := path[3 * k..3 * k + 3];
    assert path[3 * k] == group[0] && path[3 * k + 1] == group[1] && path[3 * k + 2] == group[2];
  }

  predicate LowerHex(h: string) {
    forall c | c in h :: IsDigit(c)
  }

  /** The inverse of the path builder: groups of two lower-case digits, each with a slash behind it. */
  function Ungrouped(s: string): Option<string> {
    if s == "" then Some("")
    else if |s| < 3 || s[2] != '/' || !IsDigit(s[0]) || !IsDigit(s[1]) then None
    else match Ungrouped(s[3..]) case None => None case Some(h) => Some(s[..2] + h)
  }

  function DecodedPath(s: string): Option<nat> {
    match Ungrouped(s)
    case Some(h) => if |h| == 32 then Some(Parsed(h)) else None
    case None => None
  }

  lemma {:induction false} HexIsLower(b: Bytes)
    ensures LowerHex(HexBytes(b))
  {
    if b != [] {
      HexIsLower(b[1..]);
    }
  }

  lemma LowerPair(h: string)
    requires LowerHex(h) && |h| >= 2
    ensures IsDigit(h[0]) && IsDigit(h[1]) && LowerHex(h[2..])
  {}

  lemma PairSplit(h: string)
    requires |h| >= 2
    ensures h == h[..2] + h[2..] && h[..2] == [h[0], h[1]]
  {}

  lemma {:induction false} UngroupedIsInverse(s: string, h: string)
    requires LowerHex(h) && |h| % 2 == 0
    ensures Ungrouped(s) == Some(h) <==> s == Grouped(h)
    decreases |s| + |h|
  {
    if h == "" {
      if s != "" { UngroupedIsLonger(s); }
    } else if |s| >= 3 {
      LowerPair(h);
      hide LowerHex;
      PairSplit(h);
      UngroupedIsInverse(s[3..], h[2..]);
      assert s == s[..2] + [s[2]] + s[3..];
      if s == Grouped(h) {
        assert s[..2] == h[..2] && s[2] == '/' && s[3..] == Grouped(h[2..]);
      }
      if Ungrouped(s) == Some(h) {
        assert h[2..] == Ungrouped(s[3..]).value && h[..2] == s[..2];
      }
    }
  }

  lemma UngroupedIsLonger(s: string)
    requires s != ""
    ensures Ungrouped(s) != Some("")
  {}

  lemma {:induction false} BytesOfHex(h: string) returns (b: Bytes)
    requires LowerHex(h) && |h| % 2 == 0
    ensures HexBytes(b) == h
  {
    hide HexByte;
    if h == "" {
      b := [];
    } else {
      assert IsDigit(h[0]) && IsDigit(h[1]);
      var rest := BytesOfHex(h[2..]);
      var c := ByteOfDigits(h[0], h[1]);
      b := [c] + rest;
      assert b[1..] == rest;
      assert h == [h[0], h[1]] + h[2..];
    }
  }

  lemma ByteOfDigits(p: char, q: char) returns (c: byte)
    requires IsDigit(p) && IsDigit(q)
    ensures HexByte(c) == [p, q]
  {
    hide Value, HexByte;
    DigitOfValue(p);
    DigitOfValue(q);
    c := Value(p) * 16 + Value(q);
    ByteOfHalves(Value(p), Value(q));
  }

  lemma ByteOfHalves(x: nat, y: nat)
    requires x < 16 && y < 16
    ensures HexByte(x * 16 + y) == [DIGITS[x], DIGITS[y]]
  {
    Quotient(x, y);
  }

  lemma DigitOfValue(c: char)
    requires IsDigit(c)
    ensures Value(c) >= 0 && DIGITS[Value(c)] == c
  {}

  lemma Quotient(x: nat, y: nat)
    requires y < 16
    ensures (x * 16 + y) / 16 == x && (x * 16 + y) % 16 == y
  {}

  lemma LowerJoin(a: string, b: string)
    requires LowerHex(a) && LowerHex(b)
    ensures LowerHex(a + b)
  {}

  lemma LowerTwo(s: string)
    requires |s| >= 2 && IsDigit(s[0]) && IsDigit(s[1])
    ensures LowerHex(s[..2])
  {}

  lemma {:induction false} UngroupedIsLower(s: string)
    requires Ungrouped(s).Some?
    ensures LowerHex(Ungrouped(s).value) && |Ungrouped(s).value| % 2 == 0
  {
    hide LowerHex, IsDigit;
    if s == "" {
      LowerNothing();
    } else {
      UngroupedIsLower(s[3..]);
      LowerTwo(s);
      LowerJoin(s[..2], Ungrouped(s[3..]).value);
    }
  }

  lemma LowerNothing()
    ensures LowerHex("")
  {}

  /** A string decodes to a number if and only if it is the path of that number. */
  lemma PathCodec(s: string, v: nat)
    ensures DecodedPath(s) == Some(v)
       <==> v < 0x1_0000_0000_0000_0000_0000_0000_0000_0000 && s == Grouped(HexBytes(BigEndian(v, 16)))
  {
    Pow256Is128();
    if v < 0x1_0000_0000_0000_0000_0000_0000_0000_0000 && s == Grouped(HexBytes(BigEndian(v, 16))) {
      HexIsLower(BigEndian(v, 16));
      UngroupedIsInverse(s, HexBytes(BigEndian(v, 16)));
      ParsedBytes(BigEndian(v, 16));
      UnsignedBigEndian(v, 16);
    }
    if DecodedPath(s) == Some(v) {
      var h := Ungrouped(s).value;
      UngroupedIsLower(s);
      UngroupedIsInverse(s, h);
      var b := BytesOfHex(h);
      ParsedBytes(b);
      BytesOfNumber(b);
    }
  }

  lemma Pow256Is128()
    ensures Pow256(16) == 0x1_0000_0000_0000_0000_0000_0000_0000_0000
  {
    Pow256Values();
    assert Pow256(12) == 0x1_0000_0000_0000_0000_0000_0000;
  }

  /** The path of a file in the bank. */
  function FilePath(base: string, md5sum: uint128, fileName: string): string {
    base + Grouped(HexBytes(BigEndian(md5sum, 16))) + fileName
  }

  /** Group k of a path: the digits of byte k of the hash, the first one the most significant, and a slash. */
  predicate GroupIs(p: string, start: nat, md5sum: uint128, k: nat)
    requires k < 16 && start + 48 <= |p|
  {
    && Digit(p[start + 3 * k], ByteAt(md5sum, 15 - k) / 16)
    && Digit(p[start + 3 * k + 1], ByteAt(md5sum, 15 - k) % 16)
    && p[start + 3 * k + 2] == '/'
  }

  /** The path of a file by its parts: the directory of the bank, sixteen groups, the name. */
  predicate IsFilePath(p: string, base: string, md5sum: uint128, fileName: string) {
    && |p| == |base| + 48 + |fileName|
    && p[..|base|] == base && p[|base| + 48..] == fileName
    && forall k: nat | k < 16 :: GroupIs(p, |base|, md5sum, k)
  }

  lemma FilePathHasParts(base: string, md5sum: uint128, fileName: string)
    ensures IsFilePath(FilePath(base, md5sum, fileName), base, md5sum, fileName)
  {
    hide Digit, ByteAt, BigEndian, HexBytes, Grouped;
    var b := BigEndian(md5sum, 16);
    var path := Grouped(HexBytes(b));
    var p := FilePath(base, md5sum, fileName);
    GroupedShape(b, 0);
    assert p[..|base|] == base && p[|base| + 48..] == fileName;
    BigEndianIsBytes(md5sum, 16);
    forall k: nat | k < 16 ensures GroupIs(p, |base|, md5sum, k) {
      GroupedShape(b, k);
      ThirdsOf(path, k, b[k]);
      assert p[|base| + 3 * k] == path[3 * k] && p[|base| + 3 * k + 1] == path[3 * k + 1];
      assert p[|base| + 3 * k + 2] == path[3 * k + 2];
    }
  }

  lemma SameGroup(p: string, q: string, start: nat, md5sum: uint128, i: nat)
    requires i < 48 && start + 48 <= |p| && start + 48 <= |q|
    requires GroupIs(p, start, md5sum, i / 3) && GroupIs(q, start, md5sum, i / 3)
    ensures p[start + i] == q[start + i]
  {
    hide ByteAt;
    assert i == 3 * (i / 3) || i == 3 * (i / 3) + 1 || i == 3 * (i / 3) + 2;
  }

  /** Those parts make up the path, and nothing else does. */
  lemma FilePathIs(p: string, base: string, md5sum: uint128, fileName: string)
    ensures IsFilePath(p, base, md5sum, fileName) <==> p == FilePath(base, md5sum, fileName)
  {
    hide FilePath, GroupIs;
    var q := FilePath(base, md5sum, fileName);
    FilePathHasParts(base, md5sum, fileName);
    if IsFilePath(p, base, md5sum, fileName) {
      forall i: nat | i < |p| ensures p[i] == q[i] {
        if i < |base| {
          assert p[i] == p[..|base|][i] && q[i] == q[..|base|][i];
        } else if i < |base| + 48 {
          SameGroup(p, q, |base|, md5sum, i - |base|);
        } else {
          assert p[i] == p[|base| + 48..][i - |base| - 48] && q[i] == q[|base| + 48..][i - |base| - 48];
        }
      }
    }
  }

  /** Different digests or names never share a path. */
  lemma FilePathIsInjective(base: string, a: uint128, x: string, b: uint128, y: string)
    requires FilePath(base, a, x) == FilePath(base, b, y)
    ensures a == b && x == y
  {
    var p, q := Grouped(HexBytes(BigEndian(a, 16))), Grouped(HexBytes(BigEndian(b, 16)));
    GroupedShape(BigEndian(a, 16), 0);
    GroupedShape(BigEndian(b, 16), 0);
    assert p == FilePath(base, a, x)[|base|..|base| + 48] && q == FilePath(base, b, y)[|base|..|base| + 48];
    assert x == FilePath(base, a, x)[|base| + 48..] && y == FilePath(base, b, y)[|base| + 48..];
    PathCodec(p, a);
    PathCodec(q, b);
  }

  const TAB := 9 as char
  const CARRIAGE_RETURN := 13 as char

  function Magnitude(s: string, acc: nat): nat {
    if s == "" || Value(s[0]) < 0 then acc else Magnitude(s[1..], acc * 16 + Value(s[0]))
  }

  /** strtol to base 16 on one or two characters: leading space, a sign, then as many digits as there
      are. The prefix 0x stands only before a third character. Nothing is refused. */
  function Strtol(s: string): int {
    if s != "" && (s[0] == ' ' || TAB <= s[0] <= CARRIAGE_RETURN) then Strtol(s[1..])
    else if s != "" && s[0] == '-' then 0 - Magnitude(s[1..], 0)
    else if s != "" && s[0] == '+' then Magnitude(s[1..], 0)
    else Magnitude(s, 0)
  }

  function BytesFrom(hex: string): Bytes {
    if hex == "" then []
    else if |hex| == 1 then [Strtol(hex) % 256]
    else [Strtol(hex[..2]) % 256] + BytesFrom(hex[2..])
  }

  lemma NextPair(hex: string, i: nat)
    requires i < |hex|
    ensures BytesFrom(hex[i..]) == [Strtol(hex[i..Min(i + 2, |hex|)]) % 256] + BytesFrom(hex[Min(i + 2, |hex|)..])
  {
    hide Strtol;
    var rest := hex[i..];
    if |rest| >= 2 {
      assert rest[..2] == hex[i..i + 2] && rest[2..] == hex[i + 2..];
    } else {
      assert rest == hex[i..i + 1] && hex[i + 1..] == "";
    }
  }

  method HexToBytes(hex: string) returns (bytes: Bytes)
    ensures bytes == BytesFrom(hex)
  {
    hide Strtol, BytesFrom;
    bytes := [];
    var i := 0;
    assert hex[0..] == hex;
    while i < |hex|
      invariant 0 <= i && bytes + BytesFrom(hex[Min(i, |hex|)..]) == BytesFrom(hex)
      decreases |hex| - i
    {
      var byteString := hex[i..Min(i + 2, |hex|)];
      NextPair(hex, i);
      bytes := bytes + [Strtol(byteString) % 256];
      i := i + 2;
    }
    assert hex[|hex|..] == "";
    NoHex();
  }

  lemma NoHex()
    ensures BytesFrom("") == []
  {}

  /** A digit in either case stands for its number, and no other character does. */
  lemma ValueOfCharacter(c: char, d: nat)
    requires d < 16
    ensures Value(c) == d <==> c == "0123456789abcdef"[d] || c == "0123456789ABCDEF"[d]
  {}

  predicate IsSpace(c: char) {
    c == ' ' || 9 <= c as int <= 13
  }

  /** What two characters come to: two digits, a digit and something else, a space or a sign in front of a
      digit; everything else counts as 0. */
  lemma StrtolOfPair(p: char, q: char)
    ensures Strtol([p, q])
         == if Value(p) >= 0 && Value(q) >= 0 then 16 * Value(p) + Value(q)
            else if Value(p) >= 0 then Value(p)
            else if (IsSpace(p) || p == '+') && Value(q) >= 0 then Value(q)
            else if p == '-' && Value(q) >= 0 then 0 - Value(q)
            else 0
  {
    hide Value;
    SignsAreNoDigits();
    assert [p, q][1..] == [q];
    MagnitudeOfOne(q, 0);
    MagnitudeOfPair(p, q);
    if Value(p) < 0 && IsSpace(p) {
      StrtolOfOne(q);
      assert Strtol([p, q]) == Strtol([q]);
    }
  }

  lemma MagnitudeOfOne(q: char, acc: nat)
    ensures Magnitude([q], acc) == if Value(q) < 0 then acc else acc * 16 + Value(q)
  {
    hide Value;
    assert [q][1..] == "";
    if Value(q) >= 0 {
      assert Magnitude([q], acc) == Magnitude("", acc * 16 + Value(q));
    }
  }

  lemma MagnitudeOfPair(p: char, q: char)
    ensures Magnitude([p, q], 0)
         == if Value(p) < 0 then 0 else if Value(q) < 0 then Value(p) else 16 * Value(p) + Value(q)
  {
    hide Value;
    assert [p, q][1..] == [q];
    if Value(p) >= 0 {
      MagnitudeOfOne(q, Value(p));
      assert Magnitude([p, q], 0) == Magnitude([q], Value(p));
    }
  }

  lemma SignsAreNoDigits()
    ensures Value('-') < 0 && Value('+') < 0 && forall c | IsSpace(c) :: Value(c) < 0
  {}

  lemma StrtolOfOne(q: char)
    ensures Strtol([q]) == if Value(q) >= 0 then Value(q) else 0
  {
    hide Value;
    SignsAreNoDigits();
    assert [q][1..] == "";
    MagnitudeOfOne(q, 0);
    assert Strtol("") == 0;
  }

  /** Byte k comes from characters 2 k and 2 k + 1, or from the last one alone. */
  lemma {:induction false} ByteFromPair(hex: string, k: nat)
    requires 2 * k < |hex|
    ensures |BytesFrom(hex)| == (|hex| + 1) / 2
    ensures BytesFrom(hex)[k] == Strtol(if 2 * k + 1 < |hex| then [hex[2 * k], hex[2 * k + 1]] else [hex[2 * k]]) % 256
  {
    hide Strtol;
    if |hex| == 1 {
      assert hex == [hex[0]];
    } else {
      assert hex[..2] == [hex[0], hex[1]];
      if |hex| == 2 {
        assert hex[2..] == "";
      } else {
        ByteFromPair(hex[2..], if k == 0 then 0 else k - 1);
      }
    }
  }

  lemma DigitIsNoSpace(d: nat)
    requires d < 16
    ensures var c := DIGITS[d]; c != ' ' && c != '-' && c != '+' && !(TAB <= c <= CARRIAGE_RETURN) && Value(c) == d
  {}

  lemma StrtolOfByte(c: byte)
    ensures Strtol(HexByte(c)) == c
  {
    hide Value;
    DigitIsNoSpace(c / 16);
    DigitIsNoSpace(c % 16);
    var s := HexByte(c);
    assert s[1..][1..] == "";
    assert Magnitude(s, 0) == Magnitude(s[1..], c / 16) == Magnitude("", c / 16 * 16 + c % 16);
  }

  lemma FirstPair(h: string)
    requires |h| >= 2
    ensures BytesFrom(h) == [Strtol(h[..2]) % 256] + BytesFrom(h[2..])
  {
    hide Strtol;
  }

  /** Reading back what bin2hex wrote, for any number of bytes. */
  lemma {:induction false} HexRoundTrip(b: Bytes)
    ensures BytesFrom(HexBytes(b)) == b
  {
    hide HexBytes, HexByte, Strtol, BytesFrom;
    if b == [] {
      NoHex();
      NoBytes();
    } else {
      HexHead(b);
      FirstPair(HexBytes(b));
      StrtolOfByte(b[0]);
      HexRoundTrip(b[1..]);
      assert b == [b[0]] + b[1..];
    }
  }

  lemma HexIsPairs(b: Bytes)
    ensures LowerHex(HexBytes(b)) && |HexBytes(b)| % 2 == 0
  {
    HexIsLower(b);
  }

  lemma PairsComeBack(h: string)
    requires LowerHex(h) && |h| % 2 == 0
    ensures HexBytes(BytesFrom(h)) == h
  {
    hide LowerHex, HexByte, Strtol;
    var b := BytesOfHex(h);
    HexRoundTrip(b);
  }

  /** And the other way round: the text comes back exactly when it is pairs of lower-case digits. */
  lemma TextRoundTrip(h: string)
    ensures HexBytes(BytesFrom(h)) == h <==> LowerHex(h) && |h| % 2 == 0
  {
    hide *;
    HexIsPairs(BytesFrom(h));
    if LowerHex(h) && |h| % 2 == 0 {
      PairsComeBack(h);
    }
  }

  lemma OnePair(p: char, q: char, n: int)
    requires Strtol([p, q]) == n
    ensures BytesFrom([p, q]) == [n % 256]
  {
    hide Strtol;
    assert [p, q][..2] == [p, q] && [p, q][2..] == "";
  }

  /** Texts that are no digests are not refused. */
  lemma NothingIsRefused()
    ensures BytesFrom(['-', '1']) == [255] && BytesFrom([' ', 'a']) == [10] && BytesFrom(['+', 'f']) == [15]
    ensures BytesFrom(['0', 'x']) == [0] && BytesFrom(['z', 'z']) == [0] && BytesFrom(['A', 'B']) == [0xAB]
    ensures BytesFrom(['C']) == [12]
  {
    hide Strtol;
    StrtolOfPair('-', '1');
    StrtolOfPair(' ', 'a');
    StrtolOfPair('+', 'f');
    StrtolOfPair('0', 'x');
    StrtolOfPair('z', 'z');
    StrtolOfPair('A', 'B');
    StrtolOfOne('C');
    OnePair('-', '1', 0 - 1);
    OnePair(' ', 'a', 10);
    OnePair('+', 'f', 15);
    OnePair('0', 'x', 0);
    OnePair('z', 'z', 0);
    OnePair('A', 'B', 0xAB);
  }
}
