/** Bytes, and the two integer layouts of the codec: big-endian on the wire, little-endian in host memory. */
module Bytes {
  type byte = x: int | 0 <= x < 256

  function Pow256(n: nat): (p: nat)
    ensures 0 < p
  {
    if n == 0 then 1 else 256 * Pow256(n - 1)
  }

  /** The n low-order bytes of v, most significant first. */
  function BigEndian(n: nat, v: nat): (s: seq<byte>)
    ensures |s| == n
  {
    if n == 0 then [] else BigEndian(n - 1, v / 256) + [v % 256]
  }

  function FromBigEndian(s: seq<byte>): nat {
    if s == [] then 0 else 256 * FromBigEndian(s[..|s| - 1]) + s[|s| - 1]
  }

  function LittleEndian(n: nat, v: nat): (s: seq<byte>)
    ensures |s| == n
  {
    if n == 0 then [] else [v % 256] + LittleEndian(n - 1, v / 256)
  }

  function FromLittleEndian(s: seq<byte>): nat {
    if s == [] then 0 else s[0] + 256 * FromLittleEndian(s[1..])
  }

  /** Decoding gives back the value reduced to the width. */
  lemma {:induction false} BigEndianRoundTrip(n: nat, v: nat)
    ensures FromBigEndian(BigEndian(n, v)) == v % Pow256(n)
  {
    if n > 0 {
      BigEndianRoundTrip(n - 1, v / 256);
      assert BigEndian(n, v)[..n - 1] == BigEndian(n - 1, v / 256);
      ModStep(v, Pow256(n - 1));
    }
  }

  lemma ModStep(v: nat, p: nat)
    requires 0 < p
    ensures v % (256 * p) == 256 * (v / 256 % p) + v % 256
  {
    var a, b, r := v / 256 / p, v / 256 % p, v % 256;
    assert v == 256 * (p * a + b) + r;
    assert v == a * (256 * p) + (256 * b + r);
    ModUnique(v, 256 * p, a, 256 * b + r);
  }

  lemma ModUnique(x: nat, m: nat, k: nat, r: nat)
    requires r < m && x == k * m + r
    ensures x % m == r
  {
    var q := x / m;
    if q < k {
      MulMono(q + 1, k, m);
    } else if k < q {
      MulMono(k + 1, q, m);
    }
  }

  lemma MulMono(a: nat, b: nat, m: nat)
    requires a <= b
    ensures a * m <= b * m
  {
    assert 0 <= (b - a) * m;
  }

  lemma {:induction false} FromBigEndianFits(s: seq<byte>)
    ensures FromBigEndian(s) < Pow256(|s|)
  {
    if s != [] {
      FromBigEndianFits(s[..|s| - 1]);
    }
  }

  lemma {:induction false} BigEndianInverse(s: seq<byte>)
    ensures BigEndian(|s|, FromBigEndian(s)) == s
  {
    if s != [] {
      BigEndianInverse(s[..|s| - 1]);
      assert s == s[..|s| - 1] + [s[|s| - 1]];
    }
  }

  lemma {:induction false} LittleEndianInverse(s: seq<byte>)
    ensures LittleEndian(|s|, FromLittleEndian(s)) == s
  {
    if s != [] {
      LittleEndianInverse(s[1..]);
      assert s == [s[0]] + s[1..];
    }
  }

  // ----- network order on a little-endian host

  const TWO32 := 0x1_0000_0000

  function Ntohs(v: nat): nat {
    v % 0x100 * 0x100 + v / 0x100 % 0x100
  }

  function Ntohl(v: nat): nat {
    v % 0x100 * 0x100_0000 + v / 0x100 % 0x100 * 0x1_0000 + v / 0x1_0000 % 0x100 * 0x100 + v / 0x100_0000 % 0x100
  }

  /** The ntohll macro: both halves swapped, then exchanged. */
  function Ntohll(v: nat): nat {
    Ntohl(v % TWO32) * TWO32 + Ntohl(v / TWO32 % TWO32)
  }

  predicate Width(n: nat) {
    n == 1 || n == 2 || n == 4 || n == 8
  }

  function Ntoh(n: nat, v: nat): nat
    requires Width(n)
  {
    if n == 1 then v % 0x100 else if n == 2 then Ntohs(v) else if n == 4 then Ntohl(v) else Ntohll(v)
  }

  /** Loading n bytes in host order and swapping reads them big-endian; and the other way round, since the
      swap is its own inverse. */
  lemma SwapLoads(s: seq<byte>)
    requires Width(|s|)
    ensures Ntoh(|s|, FromLittleEndian(s)) == FromBigEndian(s)
    ensures Ntoh(|s|, FromBigEndian(s)) == FromLittleEndian(s)
  {
    if |s| == 1 {
      Split1(s);
    } else if |s| == 2 {
      Swap2(s);
    } else if |s| == 4 {
      Swap4(s);
    } else {
      Swap8(s);
    }
  }

  lemma Swap8(s: seq<byte>)
    requires |s| == 8
    ensures Ntohll(FromLittleEndian(s)) == FromBigEndian(s)
    ensures Ntohll(FromBigEndian(s)) == FromLittleEndian(s)
  {
    hide Ntohl;
    Split8(s);
    Swap4(s[..4]);
    Swap4(s[4..]);
    Halves(FromLittleEndian(s[..4]), FromLittleEndian(s[4..]));
    Halves(FromBigEndian(s[4..]), FromBigEndian(s[..4]));
  }

  lemma Halves(low: int, high: int)
    requires 0 <= low < TWO32 && 0 <= high < TWO32
    ensures (low + TWO32 * high) % TWO32 == low && (low + TWO32 * high) / TWO32 % TWO32 == high
  {
  }

  lemma Split1(s: seq<byte>)
    requires |s| == 1
    ensures FromBigEndian(s) == s[0] == FromLittleEndian(s)
  {
    assert s[..0] == [] && s[1..] == [];
  }

  lemma Split2(s: seq<byte>)
    requires |s| == 2
    ensures var (a: int, b: int) := (s[0], s[1]);
            FromBigEndian(s) == 0x100 * a + b && FromLittleEndian(s) == a + 0x100 * b
  {
    Split1(s[..1]);
    Split1(s[1..]);
  }

  lemma Split4(s: seq<byte>)
    requires |s| == 4
    ensures var (a: int, b: int, c: int, d: int) := (s[0], s[1], s[2], s[3]);
            && FromBigEndian(s) == 0x100_0000 * a + 0x1_0000 * b + 0x100 * c + d
            && FromLittleEndian(s) == a + 0x100 * b + 0x1_0000 * c + 0x100_0000 * d
  {
    Split2(s[..2]);
    Split2(s[2..]);
    assert s[..3][..2] == s[..2] && s[1..][1..] == s[2..];
  }

  lemma Swap2(s: seq<byte>)
    requires |s| == 2
    ensures Ntohs(FromLittleEndian(s)) == FromBigEndian(s)
    ensures Ntohs(FromBigEndian(s)) == FromLittleEndian(s)
  {
    Split2(s);
    LowDigit(s[0], s[1]);
    LowDigit(s[1], s[0]);
  }

  lemma Swap4(s: seq<byte>)
    requires |s| == 4
    ensures Ntohl(FromLittleEndian(s)) == FromBigEndian(s) < TWO32
    ensures Ntohl(FromBigEndian(s)) == FromLittleEndian(s) < TWO32
  {
    Split4(s);
    Digits(s[0], s[1], s[2], s[3]);
    Digits(s[3], s[2], s[1], s[0]);
  }

  lemma Digits(a: int, b: int, c: int, d: int)
    requires 0 <= a < 256 && 0 <= b < 256 && 0 <= c < 256 && 0 <= d < 256
    ensures Ntohl(a + 0x100 * b + 0x1_0000 * c + 0x100_0000 * d) == d + 0x100 * c + 0x1_0000 * b + 0x100_0000 * a
  {
    LowDigit(a, b + 0x100 * c + 0x1_0000 * d);
    LowDigit(b, c + 0x100 * d);
    LowDigit(c, d);
  }

  lemma LowDigit(a: int, w: int)
    requires 0 <= a < 256 && 0 <= w
    ensures (a + 0x100 * w) % 0x100 == a && (a + 0x100 * w) / 0x100 == w
    ensures (a + 0x100 * w) / 0x1_0000 == w / 0x100
    ensures (a + 0x100 * w) / 0x100_0000 == w / 0x1_0000
  {
  }

  lemma Split8(s: seq<byte>)
    requires |s| == 8
    ensures FromBigEndian(s) == TWO32 * FromBigEndian(s[..4]) + FromBigEndian(s[4..])
    ensures FromLittleEndian(s) == FromLittleEndian(s[..4]) + TWO32 * FromLittleEndian(s[4..])
  {
    ConcatBig(s[..4], s[4..]);
    ConcatLittle(s[..4], s[4..]);
    assert s == s[..4] + s[4..];
    assert Pow256(1) == 0x100 && Pow256(2) == 0x1_0000 && Pow256(3) == 0x100_0000 && Pow256(4) == TWO32;
  }

  lemma {:induction false} ConcatBig(a: seq<byte>, b: seq<byte>)
    ensures FromBigEndian(a + b) == Pow256(|b|) * FromBigEndian(a) + FromBigEndian(b)
  {
    if b == [] {
      assert a + b == a;
    } else {
      assert (a + b)[..|a + b| - 1] == a + b[..|b| - 1];
      ConcatBig(a, b[..|b| - 1]);
    }
  }

  lemma {:induction false} ConcatLittle(a: seq<byte>, b: seq<byte>)
    ensures FromLittleEndian(a + b) == FromLittleEndian(a) + Pow256(|a|) * FromLittleEndian(b)
  {
    if a == [] {
      assert a + b == b;
    } else {
      assert (a + b)[1..] == a[1..] + b;
      ConcatLittle(a[1..], b);
    }
  }

  /** Swapping and storing n bytes in host order writes them big-endian. */
  lemma SwapStores(n: nat, v: nat)
    requires Width(n) && v < Pow256(n)
    ensures LittleEndian(n, Ntoh(n, v)) == BigEndian(n, v)
  {
    var s := BigEndian(n, v);
    BigEndianRoundTrip(n, v);
    ModUnique(v, Pow256(n), 0, v);
    SwapLoads(s);
    LittleEndianInverse(s);
  }
}
