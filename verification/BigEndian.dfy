/** Fixed-width big-endian integers, as struct.pack writes them (">H", ">I", ">Q", ">q"). */
module BigEndian {
  import opened Ordering
  import opened Arithmetic

  function Pow256(k: nat): (p: nat)
    ensures p >= 1
  {
    if k == 0 then 1 else 256 * Pow256(k - 1)
  }

  function Pack(n: nat, k: nat): (s: seq<Byte>)
    ensures |s| == k
  {
    if k == 0 then [] else Pack(n / 256, k - 1) + [n % 256]
  }

  function Unpack(s: seq<Byte>): (n: nat)
  {
    if s == [] then 0 else 256 * Unpack(s[..|s| - 1]) + s[|s| - 1]
  }

  lemma {:induction false} UnpackPack(n: nat, k: nat)
    requires n < Pow256(k)
    ensures Unpack(Pack(n, k)) == n
  {
    if k > 0 {
      UnpackPack(n / 256, k - 1);
      var s := Pack(n, k);
      assert s[..|s| - 1] == Pack(n / 256, k - 1);
    }
  }

  /** The most significant byte comes first. */
  lemma {:induction false} PackedByte(n: nat, k: nat, i: nat)
    requires i < k
    ensures Pack(n, k)[i] == n / Pow256(k - 1 - i) % 256
    decreases k
  {
    if i < k - 1 {
      PackedByte(n / 256, k - 1, i);
      assert Pack(n, k)[i] == Pack(n / 256, k - 1)[i];
      DividedTwice(n, Pow256(k - 2 - i));
    }
  }

  lemma DividedTwice(n: nat, d: nat)
    requires d > 0
    ensures n / 256 / d == n / (256 * d)
  {
    var q, r := n / 256 / d, n / 256 % d;
    assert n / 256 == d * q + r;
    var low := n % 256;
    assert n == 256 * (d * q + r) + low == 256 * d * q + (256 * r + low);
    assert 256 * r + low < 256 * d;
    DivAtLeast(n, 256 * d, q);
    DivAtMost(n, 256 * d, q);
  }

  lemma Widths()
    ensures Pow256(2) == 0x1_0000 && Pow256(4) == 0x1_0000_0000 && Pow256(8) == 0x1_0000_0000_0000_0000
  {
    assert Pow256(2) == 0x1_0000;
    assert Pow256(4) == 0x1_0000_0000;
    assert Pow256(6) == 0x1_0000_0000_0000;
  }
}
