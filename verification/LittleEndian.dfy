/** Fixed-width little-endian integers. */
module LittleEndian {
  import opened Ids
  import opened Records
  import opened Keys

  const TWO32: nat := 0x1_0000_0000

  lemma FourBytes()
    ensures Pow256(4) == TWO32
  {
  }

  /** `n` bytes, least significant first. */
  function Le(n: nat, t: nat): (bs: Bytes)
    ensures |bs| == n
  {
    if n == 0 then [] else [t % 256] + Le(n - 1, t / 256)
  }

  function FromLe(bs: Bytes): nat {
    if bs == [] then 0 else bs[0] + 256 * FromLe(bs[1..])
  }

  lemma {:induction false} FromLeOfLe(n: nat, t: nat)
    requires t < Pow256(n)
    ensures FromLe(Le(n, t)) == t
  {
    if n > 0 {
      FromLeOfLe(n - 1, t / 256);
      assert Le(n, t)[1..] == Le(n - 1, t / 256);
    }
  }

  lemma LowDigit(b: byte, x: nat)
    ensures (b + 256 * x) % 256 == b && (b + 256 * x) / 256 == x
  {
  }

  lemma {:induction false} LeOfFromLe(bs: Bytes)
    ensures FromLe(bs) < Pow256(|bs|) && Le(|bs|, FromLe(bs)) == bs
  {
    if bs != [] {
      var low, high := bs[0], bs[1..];
      LeOfFromLe(high);
      LowDigit(low, FromLe(high));
      assert Le(|bs|, FromLe(bs)) == [low] + Le(|high|, FromLe(high));
      assert bs == [low] + high;
    }
  }

  /** The base-256 digits of `t`, digit `i` the one that counts `256^i`. */
  function Digits(n: nat, t: nat): Bytes {
    seq(n, i requires 0 <= i < n => t / Pow256(i) % 256)
  }

  lemma DivideTwice(t: nat, p: nat)
    requires p > 0
    ensures t / 256 / p == t / (256 * p)
  {
    var q, r := t / 256 / p, t / 256 % p;
    assert t / 256 == p * q + r;
    assert 256 * (p * q) == (256 * p) * q;
    Divide(t, 256 * p, q, 256 * r + t % 256);
  }

  /** Byte `i` on the wire is digit `i` of the number. */
  lemma {:induction false} LeIsDigits(n: nat, t: nat)
    ensures Le(n, t) == Digits(n, t)
  {
    if n > 0 {
      LeIsDigits(n - 1, t / 256);
      forall i | 0 <= i < n ensures Le(n, t)[i] == Digits(n, t)[i] {
        if i > 0 {
          DivideTwice(t, Pow256(i - 1));
          assert Le(n, t)[i] == Digits(n - 1, t / 256)[i - 1];
        }
      }
    }
  }

  /** Reading is undone by taking digits. */
  lemma FromLeHasDigits(bs: Bytes)
    ensures FromLe(bs) < Pow256(|bs|) && Digits(|bs|, FromLe(bs)) == bs
  {
    LeOfFromLe(bs);
    LeIsDigits(|bs|, FromLe(bs));
  }

  lemma FourDigits(t: nat)
    requires t < TWO32
    ensures Le(4, t) == [t % 256, t / 0x100 % 256, t / 0x1_0000 % 256, t / 0x100_0000]
  {
    LeIsDigits(4, t);
    assert Pow256(1) == 0x100 && Pow256(2) == 0x1_0000 && Pow256(3) == 0x100_0000;
  }
}
