/** Record identifiers: `Id`, and `LocalId`, the same without a tenant.

    [ KEY (64) | TENANT (48) | FLAG (1) | SALT (15) ]

    The packed word is kept as its fields; `Pack` and `Unpack` are the two directions of the bit layout, with
    the shifts and disjoint ors of the source written as sums of multiples of powers of two. */
module Ids {

  const TWO15: nat := 0x8000
  const TWO16: nat := 0x1_0000
  const TWO48: nat := 0x1_0000_0000_0000
  const TWO64: nat := 0x1_0000_0000_0000_0000
  const TWO128: nat := 0x1_0000_0000_0000_0000_0000_0000_0000_0000
  const MAX64: nat := 0xFFFF_FFFF_FFFF_FFFF

  type u64 = x: int | 0 <= x < 0x1_0000_0000_0000_0000
  type u48 = x: int | 0 <= x < 0x1_0000_0000_0000
  type u15 = x: int | 0 <= x < 0x8000
  type u128 = x: int | 0 <= x < 0x1_0000_0000_0000_0000_0000_0000_0000_0000

  datatype Id = Id(key: u64, tenant: u48, flag: bool, salt: u15)

  datatype LocalId = LocalId(key: u64, flag: bool, salt: u15)

  datatype Shape = Unique | NonUnique

  function Bit(flag: bool): (b: nat) {
    if flag then 1 else 0
  }

  /** The raw word an id is stored under. */
  function Pack(id: Id): (raw: u128) {
    id.key * TWO64 + id.tenant * TWO16 + Bit(id.flag) * TWO15 + id.salt
  }

  /** The field accessors, all at once. */
  function Unpack(raw: u128): (id: Id) {
    Id(raw / TWO64, (raw / TWO16) % TWO48, (raw / TWO15) % 2 == 1, raw % TWO15)
  }

  function FromId(id: Id): (rec: LocalId) {
    LocalId(id.key, id.flag, id.salt)
  }

  function ToId(rec: LocalId, tenant: u48): (id: Id) {
    Id(rec.key, tenant, rec.flag, rec.salt)
  }

  function AnchorFlag(shape: Shape): bool {
    shape.Unique?
  }

  function TypeSalt(hash: u64): u15 {
    hash % TWO15
  }

  /** Where a superseded version goes: keyed by its instant, in the half of the flag that anchors do not use. */
  function ArchiveId(hash: u64, shape: Shape, instant: u64, tenant: u48): Id {
    Id(instant, tenant, !AnchorFlag(shape), TypeSalt(hash))
  }

  function UniqueAnchor(hash: u64, tenant: u48): Id {
    Id(hash, tenant, true, 0)
  }

  function KeyedId(tenant: u48, hash: u64, key: u64): Id {
    Id(key, tenant, false, TypeSalt(hash))
  }

  /** The layout loses nothing: four fields in, the same four fields out. */
  lemma UnpackPack(id: Id)
    ensures Unpack(Pack(id)) == id
  {
    var raw, b := Pack(id), Bit(id.flag);
    Divide(raw, TWO64, id.key, id.tenant * TWO16 + b * TWO15 + id.salt);
    Divide(raw, TWO16, id.key * TWO48 + id.tenant, b * TWO15 + id.salt);
    Divide(id.key * TWO48 + id.tenant, TWO48, id.key, id.tenant);
    Divide(raw, TWO15, (id.key * TWO48 + id.tenant) * 2 + b, id.salt);
    Divide((id.key * TWO48 + id.tenant) * 2 + b, 2, id.key * TWO48 + id.tenant, b);
  }

  lemma Divide(a: nat, m: nat, q: nat, r: nat)
    requires a == m * q + r && r < m
    ensures a / m == q && a % m == r
  {
    var x := a / m;
    assert a == m * x + a % m;
    Below(m, x + 1, q);
    Below(m, q + 1, x);
  }

  lemma Below(m: nat, x: nat, y: nat)
    ensures x <= y ==> m * x <= m * y
  {
  }

  /** Every 128-bit word is the packing of some id, so the store's flat keyspace and `Id` are in bijection. */
  lemma PackUnpack(raw: u128)
    ensures Pack(Unpack(raw)) == raw
  {
    var a, b := raw / TWO15, raw / TWO16;
    assert raw == a * TWO15 + raw % TWO15;
    assert a / 2 == b;
    assert b / TWO48 == raw / TWO64;
  }

  /** Stripping the tenant is undone by injecting it again, exactly for ids of that tenant. */
  lemma LocalRoundTrip(id: Id, rec: LocalId, tenant: u48)
    ensures FromId(ToId(rec, tenant)) == rec
    ensures ToId(FromId(id), tenant) == id <==> id.tenant == tenant
  {
  }

  // ---- Addresses ---------------------------------------------------------------------------------------

  /** Ids in the order of their fields: key, tenant, flag, salt. */
  predicate FieldLess(a: Id, b: Id) {
    a.key < b.key
    || (a.key == b.key && (a.tenant < b.tenant
                           || (a.tenant == b.tenant && ((!a.flag && b.flag) || (a.flag == b.flag && a.salt < b.salt)))))
  }

  /** Words order as their fields do: by key, then by tenant, by flag and by salt. */
  lemma PackOrders(a: Id, b: Id)
    ensures Pack(a) < Pack(b) <==> FieldLess(a, b)
  {
  }

  /** Two types' archives share a slot exactly when instant, tenant, shape and the low 15 bits of the hash agree. */
  lemma ArchivesMeetIff(h: u64, s: Shape, t: u64, n: u48, h': u64, s': Shape, t': u64, n': u48)
    ensures ArchiveId(h, s, t, n) == ArchiveId(h', s', t', n') <==> t == t' && n == n' && s == s' && h % 0x8000 == h' % 0x8000
  {
  }

  /** Anchors of many-record types meet exactly when key, tenant and the low 15 bits of the hash agree; a `Unique` type has
      one per tenant and hash, and it never meets those. */
  lemma AnchorsMeetIff(h: u64, key: u64, n: u48, h': u64, key': u64, n': u48)
    ensures KeyedId(n, h, key) == KeyedId(n', h', key') <==> key == key' && n == n' && h % 0x8000 == h' % 0x8000
    ensures UniqueAnchor(h, n) == UniqueAnchor(h', n') <==> h == h' && n == n'
    ensures UniqueAnchor(h, n) != KeyedId(n', h', key')
  {
  }

  /** A type's archives never sit at its own anchors. Across shapes they can meet: a `Unique` anchor is also the slot of a
      many-record type's archive exactly when that type's salt is zero and the instant is the hash. */
  lemma ArchiveMeetsAnchorIff(h: u64, t: u64, n: u48, h': u64, key: u64, n': u48)
    ensures ArchiveId(h, NonUnique, t, n) != KeyedId(n', h', key) && ArchiveId(h, Unique, t, n) != UniqueAnchor(h', n')
    ensures ArchiveId(h, NonUnique, t, n) == UniqueAnchor(h', n') <==> t == h' && n == n' && h % 0x8000 == 0
    ensures ArchiveId(h, Unique, t, n) == KeyedId(n', h', key) <==> t == key && n == n' && h % 0x8000 == h' % 0x8000
  {
  }
}
