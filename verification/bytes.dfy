/** Bytes, the big-endian integers of a Java object stream, and the predicate that says
    what stands at a position of a byte sequence. */
module Bytes {
  datatype Option<+T> = None | Some(value: T)

  function Min(a: nat, b: nat): nat {
    if a < b then a else b
  }

  type byte = x: int | 0 <= x < 256
  type Bytes = seq<byte>

  type int64 = x: int | -0x8000_0000_0000_0000 <= x < 0x8000_0000_0000_0000

  /** The bytes of an ASCII literal of the source. */
  function Ascii(s: string): (b: Bytes)
    ensures |b| == |s|
  {
    seq(|s|, i requires 0 <= i < |s| => s[i] as int % 256)
  }

  /** Byte number i, counted from the least significant one, of a two's complement integer. */
  function ByteAt(n: int, i: nat): byte
    decreases i
  {
    if i == 0 then n % 256 else ByteAt(n / 256, i - 1)
  }

  /** The k low bytes of n, most significant first. Higher bytes are cut off. */
  function BigEndian(n: int, k: nat): (b: Bytes)
    ensures |b| == k
    decreases k
  {
    if k == 0 then [] else BigEndian(n / 256, k - 1) + [n % 256]
  }

  /** Byte i of the big-endian form is byte k - 1 - i of the integer. */
  lemma {:induction false} BigEndianIsBytes(n: int, k: nat)
    ensures forall i: nat | i < k :: BigEndian(n, k)[i] == ByteAt(n, k - 1 - i)
    decreases k
  {
    if k > 0 {
      BigEndianIsBytes(n / 256, k - 1);
      forall i: nat | i < k ensures BigEndian(n, k)[i] == ByteAt(n, k - 1 - i) {
        if i < k - 1 {
          assert BigEndian(n, k)[i] == BigEndian(n / 256, k - 1)[i];
        }
      }
    }
  }

  function Unsigned(b: Bytes): nat {
    if b == [] then 0 else Unsigned(b[..|b| - 1]) * 256 + b[|b| - 1]
  }

  function Pow256(k: nat): (m: nat)
    ensures m > 0
  {
    if k == 0 then 1 else 256 * Pow256(k - 1)
  }

  function Signed(b: Bytes): int {
    if 2 * Unsigned(b) >= Pow256(|b|) then Unsigned(b) - Pow256(|b|) else Unsigned(b)
  }

  lemma {:induction false} UnsignedBigEndian(n: int, k: nat)
    requires 0 <= n < Pow256(k)
    ensures Unsigned(BigEndian(n, k)) == n
    decreases k
  {
    if k > 0 {
      UnsignedBigEndian(n / 256, k - 1);
      assert BigEndian(n, k)[..k - 1] == BigEndian(n / 256, k - 1);
    }
  }

  lemma {:induction false} BigEndianWraps(n: int, k: nat)
    ensures BigEndian(n + Pow256(k), k) == BigEndian(n, k)
    decreases k
  {
    if k > 0 {
      assert (n + Pow256(k)) / 256 == n / 256 + Pow256(k - 1);
      BigEndianWraps(n / 256, k - 1);
    }
  }

  lemma SignedBigEndian(n: int, k: nat)
    requires k > 0 && -(Pow256(k) as int) <= 2 * n < Pow256(k)
    ensures Signed(BigEndian(n, k)) == n
  {
    if n < 0 {
      BigEndianWraps(n, k);
      UnsignedBigEndian(n + Pow256(k), k);
    } else {
      UnsignedBigEndian(n, k);
    }
  }

  lemma Pow256Values()
    ensures Pow256(1) == 0x100 && Pow256(2) == 0x1_0000 && Pow256(4) == 0x1_0000_0000
    ensures Pow256(8) == 0x1_0000_0000_0000_0000
  {
    assert Pow256(3) == 0x100_0000;
    assert Pow256(5) == 0x100_0000_0000;
    assert Pow256(6) == 0x1_0000_0000_0000;
    assert Pow256(7) == 0x100_0000_0000_0000;
  }

  /** The bytes of `chunk` stand in `s` from position `p` on. */
  ghost predicate Has(s: Bytes, p: nat, chunk: Bytes) {
    p + |chunk| <= |s| && s[p..p + |chunk|] == chunk
  }

  lemma HasSplit(s: Bytes, p: nat, a: Bytes, b: Bytes)
    requires Has(s, p, a + b)
    ensures Has(s, p, a) && Has(s, p + |a|, b)
  {
    assert (a + b)[..|a|] == a && (a + b)[|a|..] == b;
    assert s[p..p + |a|] == s[p..p + |a + b|][..|a|];
    assert s[p + |a|..p + |a + b|] == s[p..p + |a + b|][|a|..];
  }

  lemma HasByte(s: Bytes, p: nat, c: byte)
    requires Has(s, p, [c])
    ensures p < |s| && s[p] == c
  {
    assert s[p] == s[p..p + 1][0];
  }

  lemma Associates(a: Bytes, b: Bytes, c: Bytes)
    ensures a + (b + c) == a + b + c
  {}

  /** The parts from number k on, one after the other. */
  function Join(parts: seq<Bytes>, k: nat): Bytes
    decreases |parts| - k
  {
    if k >= |parts| then [] else parts[k] + Join(parts, k + 1)
  }

  /** The output after the parts from number k on have been appended to it. */
  function Sent(output: Bytes, parts: seq<Bytes>, k: nat): Bytes
    decreases |parts| - k
  {
    if k >= |parts| then output else Sent(output + parts[k], parts, k + 1)
  }

  lemma SendNext(output: Bytes, parts: seq<Bytes>, k: nat)
    requires k < |parts|
    ensures Sent(output, parts, k) == Sent(output + parts[k], parts, k + 1)
  {}

  lemma {:induction false} SentIsJoin(output: Bytes, parts: seq<Bytes>, k: nat)
    ensures Sent(output, parts, k) == output + Join(parts, k)
    decreases |parts| - k
  {
    if k < |parts| {
      SentIsJoin(output + parts[k], parts, k + 1);
      assert (output + parts[k]) + Join(parts, k + 1) == output + (parts[k] + Join(parts, k + 1));
    }
  }

  lemma HasPart(s: Bytes, p: nat, parts: seq<Bytes>, k: nat)
    requires k < |parts| && Has(s, p, Join(parts, k))
    ensures Has(s, p, parts[k]) && Has(s, p + |parts[k]|, Join(parts, k + 1))
    ensures |Join(parts, k)| == |parts[k]| + |Join(parts, k + 1)|
    ensures |Join(parts, |parts|)| == 0
  {
    HasSplit(s, p, parts[k], Join(parts, k + 1));
  }
}
