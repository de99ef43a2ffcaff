/** Bytes and the little-endian integers both file formats are made of. */
module Bytes {
  type byte = b: int | 0 <= b < 256

  const U32 := 0x1_0000_0000
  const U63 := 0x8000_0000_0000_0000
  const U64 := 0x1_0000_0000_0000_0000

  type u32 = x: int | 0 <= x < U32
  type u64 = x: int | 0 <= x < U64

  function Pow256(n: nat): nat {
    if n == 0 then 1 else 256 * Pow256(n - 1)
  }

  function LittleEndian(v: nat, n: nat): (s: seq<byte>)
    ensures |s| == n
  {
    if n == 0 then [] else [v % 256] + LittleEndian(v / 256, n - 1)
  }

  function FromLittleEndian(s: seq<byte>): (v: nat)
    ensures v < Pow256(|s|)
  {
    if s == [] then 0 else s[0] + 256 * FromLittleEndian(s[1..])
  }

  lemma {:induction false} LittleEndianRoundTrip(v: nat, n: nat)
    requires v < Pow256(n)
    ensures FromLittleEndian(LittleEndian(v, n)) == v
  {
    if n > 0 {
      LittleEndianRoundTrip(v / 256, n - 1);
      assert LittleEndian(v, n)[1..] == LittleEndian(v / 256, n - 1);
    }
  }

  lemma WordSizes()
    ensures Pow256(4) == U32 && Pow256(8) == U64
  {
    assert Pow256(2) == 0x1_0000;
    assert Pow256(4) == 0x1_0000_0000;
    assert Pow256(6) == 0x1_0000_0000_0000;
  }

  function Put64(v: u64): (s: seq<byte>) ensures |s| == 8 { LittleEndian(v, 8) }

  function Put32(v: u32): (s: seq<byte>) ensures |s| == 4 { LittleEndian(v, 4) }

  function Get64(s: seq<byte>): u64
    requires |s| == 8
  {
    WordSizes(); FromLittleEndian(s)
  }

  function Get32(s: seq<byte>): u32
    requires |s| == 4
  {
    WordSizes(); FromLittleEndian(s)
  }

  lemma PutGet64(v: u64)
    ensures Get64(Put64(v)) == v
  {
    WordSizes();
    LittleEndianRoundTrip(v, 8);
  }

  lemma PutGet32(v: u32)
    ensures Get32(Put32(v)) == v
  {
    WordSizes();
    LittleEndianRoundTrip(v, 4);
  }

  lemma {:induction false} BytesRoundTrip(s: seq<byte>)
    ensures LittleEndian(FromLittleEndian(s), |s|) == s
  {
    if s != [] {
      BytesRoundTrip(s[1..]);
      assert s == [s[0]] + s[1..];
    }
  }

  /** Every four or eight bytes are some word's. */
  lemma GetPut(s: seq<byte>)
    ensures |s| == 4 ==> Put32(Get32(s)) == s
    ensures |s| == 8 ==> Put64(Get64(s)) == s
  {
    BytesRoundTrip(s);
  }

  /** Lowest byte first. */
  lemma WordLayout(s: seq<byte>)
    ensures |s| == 4 ==> Get32(s) == (s[0] as int) + 0x100 * (s[1] as int) + 0x1_0000 * (s[2] as int) + 0x100_0000 * (s[3] as int)
    ensures |s| == 8 ==> Get64(s) == Get32(s[..4]) + 0x1_0000_0000 * Get32(s[4..])
  {
    if |s| == 4 {
      FourBytes(s);
    } else if |s| == 8 {
      FourBytes(s[..4]);
      FourBytes(s[4..]);
      assert s[1..][1..][1..][1..] == s[4..];
      assert FromLittleEndian(s) == s[0] + 0x100 * FromLittleEndian(s[1..]);
      assert FromLittleEndian(s[1..]) == s[1] + 0x100 * FromLittleEndian(s[1..][1..]);
      assert FromLittleEndian(s[1..][1..]) == s[2] + 0x100 * FromLittleEndian(s[1..][1..][1..]);
      assert FromLittleEndian(s[1..][1..][1..]) == s[3] + 0x100 * FromLittleEndian(s[4..]);
    }
  }

  lemma FourBytes(s: seq<byte>)
    requires |s| == 4
    ensures FromLittleEndian(s) == (s[0] as int) + 0x100 * (s[1] as int) + 0x1_0000 * (s[2] as int) + 0x100_0000 * (s[3] as int)
  {
    assert FromLittleEndian(s[1..]) == s[1] + 0x100 * FromLittleEndian(s[1..][1..]);
    assert FromLittleEndian(s[1..][1..]) == s[2] + 0x100 * FromLittleEndian(s[1..][1..][1..]);
    assert FromLittleEndian(s[1..][1..][1..]) == s[3];
  }

  /** A word is below 2^63 just when its last byte is below 128, and setting that byte's top bit adds 2^63. */
  lemma TopBit(s: seq<byte>)
    requires |s| == 8
    ensures s[7] < 128 <==> Get64(s) < U63
    ensures s[7] < 128 ==> Get64(s[7 := s[7] + 128]) == Get64(s) + U63
  {
    LastByte(s);
    if s[7] < 128 {
      LastByte(s[7 := s[7] + 128]);
      assert s[7 := s[7] + 128][..7] == s[..7];
    }
  }

  lemma LastByte(s: seq<byte>)
    requires |s| == 8
    ensures Get64(s) == FromLittleEndian(s[..7]) + (s[7] as int) * 0x100_0000_0000_0000
    ensures FromLittleEndian(s[..7]) < 0x100_0000_0000_0000
  {
    SplitLast(s, 7);
    WordSizes();
    assert Pow256(8) == 256 * Pow256(7);
  }

  lemma {:induction false} SplitLast(s: seq<byte>, n: nat)
    requires |s| == n + 1
    ensures FromLittleEndian(s) == FromLittleEndian(s[..n]) + (s[n] as int) * Pow256(n)
  {
    if n == 0 {
      assert s[1..] == [];
    } else {
      SplitLast(s[1..], n - 1);
      assert s[1..][..n - 1] == s[..n][1..];
      assert (s[n] as int) * Pow256(n) == 256 * ((s[n] as int) * Pow256(n - 1));
    }
  }
}
