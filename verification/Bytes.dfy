// Big-endian integers, the way int.to_bytes and int.from_bytes lay them out.
module Bytes {

  type Byte = x: int | 0 <= x < 256

  function Pow256(n: nat): (p: nat)
    ensures p > 0
  {
    if n == 0 then 1 else 256 * Pow256(n - 1)
  }

  lemma Pow256Values()
    ensures Pow256(1) == 0x100
    ensures Pow256(2) == 0x1_0000
    ensures Pow256(5) == 0x100_0000_0000
    ensures Pow256(7) == 0x100_0000_0000_0000
    ensures Pow256(8) == 0x1_0000_0000_0000_0000
  {
    assert Pow256(1) == 256 * Pow256(0);
    assert Pow256(2) == 256 * Pow256(1);
    assert Pow256(3) == 256 * Pow256(2);
    assert Pow256(4) == 256 * Pow256(3);
    assert Pow256(5) == 256 * Pow256(4);
    assert Pow256(6) == 256 * Pow256(5);
    assert Pow256(7) == 256 * Pow256(6);
    assert Pow256(8) == 256 * Pow256(7);
  }

  function FromBytes(s: seq<Byte>): (n: nat)
    ensures n < Pow256(|s|)
  {
    if s == [] then 0 else FromBytes(s[..|s| - 1]) * 256 + s[|s| - 1]
  }

  function ToBytes(n: nat, width: nat): (s: seq<Byte>)
    requires n < Pow256(width)
    ensures |s| == width
    ensures FromBytes(s) == n
  {
    if width == 0 then [] else
      var high := ToBytes(n / 256, width - 1);
      var s := high + [n % 256];
      assert s[..|s| - 1] == high;
      s
  }

  /** Two numbers of one width have one encoding only when they are equal. */
  lemma ToBytesInjective(m: nat, n: nat, width: nat)
    requires m < Pow256(width) && n < Pow256(width)
    requires ToBytes(m, width) == ToBytes(n, width)
    ensures m == n
  {
    assert FromBytes(ToBytes(m, width)) == m;
  }

  /** Every byte string is the encoding of its own value. */
  lemma {:induction false} FromBytesCanonical(s: seq<Byte>)
    ensures ToBytes(FromBytes(s), |s|) == s
  {
    if s != [] {
      FromBytesCanonical(s[..|s| - 1]);
    }
  }

  lemma Regrouped(x: nat, y: nat, z: nat)
    ensures (x * y + z) * 256 == x * (256 * y) + z * 256
  {
  }

  /** The octets in front weigh more: each octet behind them multiplies their value by 256. */
  lemma {:induction false} FromBytesConcat(a: seq<Byte>, b: seq<Byte>)
    ensures FromBytes(a + b) == FromBytes(a) * Pow256(|b|) + FromBytes(b)
  {
    if b == [] {
      assert a + b == a;
    } else {
      var n := |b| - 1;
      assert (a + b)[..|a + b| - 1] == a + b[..n];
      FromBytesConcat(a, b[..n]);
      Regrouped(FromBytes(a), Pow256(n), FromBytes(b[..n]));
      assert Pow256(|b|) == 256 * Pow256(n);
      assert FromBytes(a + b) == FromBytes(a + b[..n]) * 256 + b[n];
    }
  }
}
