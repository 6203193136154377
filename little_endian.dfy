/** Unsigned little-endian integers of fixed width, the way the `byteorder`
    crate's `LittleEndian` reads them: byte i of the buffer carries the weight
    256^i. Rust's u8, u16, u32 and u128 are newtypes over int, so every value
    stays inside its width by construction. */
module LittleEndian {

  newtype byte = x: int | 0 <= x < 0x100
  newtype u16 = x: int | 0 <= x < 0x1_0000
  newtype u32 = x: int | 0 <= x < 0x1_0000_0000
  newtype u128 = x: int | 0 <= x < 0x1_0000_0000_0000_0000_0000_0000_0000_0000

  /** 256^n: one more than the largest value n bytes can hold. */
  function Pow256(n: nat): (r: nat)
  {
    if n == 0 then 1 else 256 * Pow256(n - 1)
  }

  /** The three widths the reader uses, written out. */
  lemma Pow256Widths()
    ensures Pow256(2) == 0x1_0000
    ensures Pow256(4) == 0x1_0000_0000
    ensures Pow256(16) == 0x1_0000_0000_0000_0000_0000_0000_0000_0000
  {
    assert Pow256(2) == 0x1_0000;
    assert Pow256(4) == 0x1_0000_0000;
  }

  /** The unsigned value of `s`, least significant byte first. */
  function FromLE(s: seq<byte>): (r: nat)
    ensures r < Pow256(|s|)
  {
    if |s| == 0 then 0 else s[0] as nat + 256 * FromLE(s[1..])
  }

  /** The n-byte little-endian encoding of v. */
  function ToLE(v: nat, n: nat): (r: seq<byte>)
    requires v < Pow256(n)
    ensures |r| == n
  {
    if n == 0 then [] else [(v % 256) as byte] + ToLE(v / 256, n - 1)
  }

  /** Encoding and then decoding gives the value back. */
  lemma {:induction false} FromLEOfToLE(v: nat, n: nat)
    requires v < Pow256(n)
    ensures FromLE(ToLE(v, n)) == v
  {
    if n > 0 {
      FromLEOfToLE(v / 256, n - 1);
      assert ToLE(v, n)[1..] == ToLE(v / 256, n - 1);
    }
  }

  /** Decoding and then encoding at the same width gives the bytes back. */
  lemma {:induction false} ToLEOfFromLE(s: seq<byte>)
    ensures ToLE(FromLE(s), |s|) == s
  {
    if |s| > 0 {
      ToLEOfFromLE(s[1..]);
      assert FromLE(s) % 256 == s[0] as nat;
      assert FromLE(s) / 256 == FromLE(s[1..]);
    }
  }

  /** `LittleEndian::read_u16` on a two-byte buffer: the first byte is the
      low one. */
  function U16LE(s: seq<byte>): (r: u16)
    requires |s| == 2
  {
    (s[0] as int + 0x100 * s[1] as int) as u16
  }

  /** `LittleEndian::read_u32` on a four-byte buffer: the first byte is the
      low one. */
  function U32LE(s: seq<byte>): (r: u32)
    requires |s| == 4
  {
    (s[0] as int + 0x100 * s[1] as int + 0x1_0000 * s[2] as int + 0x100_0000 * s[3] as int) as u32
  }

  /** The 16-bit read agrees with the general little-endian value. */
  lemma U16LEIsFromLE(s: seq<byte>)
    requires |s| == 2
    ensures U16LE(s) as nat == FromLE(s)
  {
    assert FromLE(s[1..]) == s[1] as nat + 256 * FromLE(s[1..][1..]);
    assert s[1..][1..] == [];
  }

  /** The 32-bit read agrees with the general little-endian value. */
  lemma U32LEIsFromLE(s: seq<byte>)
    requires |s| == 4
    ensures U32LE(s) as nat == FromLE(s)
  {
    var t1, t2, t3 := s[1..], s[2..], s[3..];
    assert t1[1..] == t2 && t2[1..] == t3 && t3[1..] == [];
    assert FromLE(t3) == s[3] as nat;
    assert FromLE(t2) == s[2] as nat + 256 * FromLE(t3);
    assert FromLE(t1) == s[1] as nat + 256 * FromLE(t2);
  }

  /** `LittleEndian::read_u128` on a sixteen-byte buffer. */
  function U128LE(s: seq<byte>): (r: u128)
    requires |s| == 16
    ensures r as nat == FromLE(s)
  {
    Pow256Widths();
    FromLE(s) as u128
  }

  /** The two bytes `U16LE` reads back as v. */
  function U16Bytes(v: u16): (r: seq<byte>)
    ensures |r| == 2 && U16LE(r) == v
  {
    Pow256Widths();
    FromLEOfToLE(v as nat, 2);
    U16LEIsFromLE(ToLE(v as nat, 2));
    ToLE(v as nat, 2)
  }

  /** The four bytes `U32LE` reads back as v. */
  function U32Bytes(v: u32): (r: seq<byte>)
    ensures |r| == 4 && U32LE(r) == v
  {
    Pow256Widths();
    FromLEOfToLE(v as nat, 4);
    U32LEIsFromLE(ToLE(v as nat, 4));
    ToLE(v as nat, 4)
  }

  /** The sixteen bytes `U128LE` reads back as v. */
  function U128Bytes(v: u128): (r: seq<byte>)
    ensures |r| == 16 && U128LE(r) == v
  {
    Pow256Widths();
    FromLEOfToLE(v as nat, 16);
    ToLE(v as nat, 16)
  }

  /** Reading two bytes and writing the value back reproduces the bytes. */
  lemma U16BytesOfU16LE(s: seq<byte>)
    requires |s| == 2
    ensures U16Bytes(U16LE(s)) == s
  {
    U16LEIsFromLE(s);
    ToLEOfFromLE(s);
  }

  /** Reading four bytes and writing the value back reproduces the bytes. */
  lemma U32BytesOfU32LE(s: seq<byte>)
    requires |s| == 4
    ensures U32Bytes(U32LE(s)) == s
  {
    U32LEIsFromLE(s);
    ToLEOfFromLE(s);
  }

  /** Reading sixteen bytes and writing the value back reproduces the bytes. */
  lemma U128BytesOfU128LE(s: seq<byte>)
    requires |s| == 16
    ensures U128Bytes(U128LE(s)) == s
  {
    ToLEOfFromLE(s);
  }

  /** Reading inside a known region of `s` is reading the region itself. */
  lemma SliceWithin(s: seq<byte>, p: nat, e: seq<byte>, i: nat, j: nat)
    requires p + |e| <= |s| && s[p..p + |e|] == e
    requires i <= j <= |e|
    ensures s[p + i..p + j] == e[i..j]
  {
    forall k | 0 <= k < j - i
      ensures s[p + i..p + j][k] == e[i..j][k]
    {
      assert e[i + k] == s[p..p + |e|][i + k];
    }
  }

  /** A slice is the concatenation of its two halves. */
  lemma SliceSplit(s: seq<byte>, i: nat, j: nat, k: nat)
    requires i <= j <= k <= |s|
    ensures s[i..k] == s[i..j] + s[j..k]
  {
  }

  /** Where a concatenation stands, each of its parts stands in turn. */
  lemma SliceConcat(s: seq<byte>, p: nat, a: seq<byte>, b: seq<byte>)
    requires p + |a| + |b| <= |s| && s[p..p + |a| + |b|] == a + b
    ensures s[p..p + |a|] == a && s[p + |a|..p + |a| + |b|] == b
  {
    SliceWithin(s, p, a + b, 0, |a|);
    SliceWithin(s, p, a + b, |a|, |a| + |b|);
    assert (a + b)[0..|a|] == a;
    assert (a + b)[|a|..|a| + |b|] == b;
  }

  /** Where five parts written one after another stand, each stands in
      turn, starting where the one before it ends. */
  lemma SliceConcat5(s: seq<byte>, p: nat, a: seq<byte>, b: seq<byte>, c: seq<byte>, d: seq<byte>, e: seq<byte>,
                     q1: nat, q2: nat, q3: nat, q4: nat, n: nat)
    requires n == p + |a + b + c + d + e| && n <= |s| && s[p..n] == a + b + c + d + e
    requires q1 == p + |a| && q2 == q1 + |b| && q3 == q2 + |c| && q4 == q3 + |d|
    ensures n == q4 + |e|
    ensures s[p..q1] == a && s[q1..q2] == b && s[q2..q3] == c && s[q3..q4] == d && s[q4..n] == e
  {
    SliceConcat(s, p, a + b + c + d, e);
    SliceConcat(s, p, a + b + c, d);
    SliceConcat(s, p, a + b, c);
    SliceConcat(s, p, a, b);
  }
}
