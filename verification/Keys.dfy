/** Index keys: field bytes whose order is the field's, and a record to tell equal fields apart. */
module Keys {
  import opened Ids
  import opened Records

  datatype SecKey = SecKey(field: Bytes, rec: LocalId)

  /** Lexicographic order on byte strings. */
  predicate BytesLess(a: Bytes, b: Bytes) {
    b != [] && (a == [] || a[0] < b[0] || (a[0] == b[0] && BytesLess(a[1..], b[1..])))
  }

  predicate LocalLess(a: LocalId, b: LocalId) {
    || a.key < b.key
    || (a.key == b.key && Bit(a.flag) * TWO15 + a.salt < Bit(b.flag) * TWO15 + b.salt)
  }

  /** Records order as the words their ids pack into, under any one tenant. */
  lemma LocalOrders(a: LocalId, b: LocalId, tenant: u48)
    ensures LocalLess(a, b) <==> Pack(ToId(a, tenant)) < Pack(ToId(b, tenant))
  {
    PackOrders(ToId(a, tenant), ToId(b, tenant));
  }

  predicate Less(a: SecKey, b: SecKey) {
    BytesLess(a.field, b.field) || (a.field == b.field && LocalLess(a.rec, b.rec))
  }

  // ---- A strict total order -------------------------------------------------------------------

  lemma {:induction false} BytesTransitive(a: Bytes, b: Bytes, c: Bytes)
    requires BytesLess(a, b) && BytesLess(b, c)
    ensures BytesLess(a, c)
  {
    if a != [] && a[0] == b[0] == c[0] {
      BytesTransitive(a[1..], b[1..], c[1..]);
    }
  }

  lemma {:induction false} BytesTotal(a: Bytes, b: Bytes)
    ensures BytesLess(a, b) || a == b || BytesLess(b, a)
    ensures !(BytesLess(a, b) && BytesLess(b, a)) && !BytesLess(a, a)
  {
    if a != [] {
      BytesTotal(a[1..], a[1..]);
      if b != [] && a[0] == b[0] {
        BytesTotal(a[1..], b[1..]);
        assert a == [a[0]] + a[1..] && b == [b[0]] + b[1..];
      }
    }
  }

  lemma LessTransitive(a: SecKey, b: SecKey, c: SecKey)
    requires Less(a, b) && Less(b, c)
    ensures Less(a, c)
  {
    if BytesLess(a.field, b.field) && BytesLess(b.field, c.field) {
      BytesTransitive(a.field, b.field, c.field);
    }
  }

  lemma LessTotal(a: SecKey, b: SecKey)
    ensures Less(a, b) || a == b || Less(b, a)
    ensures !(Less(a, b) && Less(b, a)) && !Less(a, a)
  {
    BytesTotal(a.field, b.field);
    BytesTotal(a.field, a.field);
  }

  // ---- Instants as keys -------------------------------------------------------------------------

  function Pow256(n: nat): (p: nat)
    ensures p > 0
  {
    if n == 0 then 1 else 256 * Pow256(n - 1)
  }

  /** `n` bytes, most significant first. */
  function BigEndian(n: nat, t: nat): (bs: Bytes)
    requires t < Pow256(n)
    ensures |bs| == n
  {
    if n == 0 then [] else BigEndian(n - 1, t / 256) + [t % 256]
  }

  function FromBigEndian(bs: Bytes): nat {
    if bs == [] then 0 else 256 * FromBigEndian(bs[..|bs| - 1]) + bs[|bs| - 1]
  }

  lemma {:induction false} BigEndianRoundTrip(n: nat, t: nat)
    requires t < Pow256(n)
    ensures FromBigEndian(BigEndian(n, t)) == t
  {
    if n > 0 {
      BigEndianRoundTrip(n - 1, t / 256);
      assert BigEndian(n, t)[..n - 1] == BigEndian(n - 1, t / 256);
    }
  }

  /** At equal length, a last byte only breaks ties. */
  lemma {:induction false} LastByteBreaksTies(a: Bytes, b: Bytes, x: byte, y: byte)
    requires |a| == |b|
    ensures BytesLess(a + [x], b + [y]) <==> BytesLess(a, b) || (a == b && x < y)
  {
    if a != [] {
      LastByteBreaksTies(a[1..], b[1..], x, y);
      assert (a + [x])[1..] == a[1..] + [x] && (b + [y])[1..] == b[1..] + [y];
      assert a == [a[0]] + a[1..] && b == [b[0]] + b[1..];
    }
  }

  lemma {:induction false} BigEndianOrder(n: nat, t: nat, u: nat)
    requires t < u < Pow256(n)
    ensures BytesLess(BigEndian(n, t), BigEndian(n, u))
  {
    if n > 0 {
      LastByteBreaksTies(BigEndian(n - 1, t / 256), BigEndian(n - 1, u / 256), t % 256, u % 256);
      if t / 256 < u / 256 { BigEndianOrder(n - 1, t / 256, u / 256); }
    }
  }

  lemma EightBytes()
    ensures Pow256(8) == TWO64
  {
  }

  /** The key a chain files an instant under. */
  function InstantKey(t: u64, rec: LocalId): SecKey {
    EightBytes();
    SecKey(BigEndian(8, t), rec)
  }

  /** `InstantKey` undone; a field of another width gives zero. */
  function KeyInstant(k: SecKey): u64 {
    if |k.field| != 8 then 0 else EightBytes(); BigEndianFits(k.field); FromBigEndian(k.field)
  }

  lemma {:induction false} BigEndianFits(bs: Bytes)
    ensures FromBigEndian(bs) < Pow256(|bs|)
  {
    if bs != [] { BigEndianFits(bs[..|bs| - 1]); }
  }

  /** Chain keys carry their instant and sort by it, then by record. */
  lemma InstantKeys(t: u64, rec: LocalId, u: u64, rec': LocalId)
    ensures KeyInstant(InstantKey(t, rec)) == t
    ensures Less(InstantKey(t, rec), InstantKey(u, rec')) <==> t < u || (t == u && LocalLess(rec, rec'))
  {
    EightBytes();
    BigEndianRoundTrip(8, t);
    BigEndianRoundTrip(8, u);
    if t < u { BigEndianOrder(8, t, u); }
    if u < t { BigEndianOrder(8, u, t); }
    BytesTotal(BigEndian(8, t), BigEndian(8, u));
  }
}
