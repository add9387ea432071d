/** Stored bytes: `[hash u64][metadata length u32][metadata][body]`. */
module Envelopes {
  import opened Ids
  import opened Stores
  import opened Records
  import opened Keys
  import opened LittleEndian
  import opened Wire

  // ---- Metadata on the wire --------------------------------------------------------------------------------

  const LOCAL_ID: Ty := Pair(Scalar(8), Pair(Scalar(2), Unit))
  const SUCCESSION: Ty := Pair(Tag(2), Scalar(8))
  const PERMISSION: Ty := Enum([Unit, Pair(Vec(Scalar(6)), Unit), Pair(Scalar(8), Unit)])
  const ACCESS: Ty := Pair(Opt(PERMISSION), Unit)
  const WRITER: Ty := Pair(Scalar(6), Pair(Scalar(8), ACCESS))
  const OWNER: Ty := Pair(Opt(LOCAL_ID), WRITER)
  const LIVENESS: Ty := Pair(Tag(2), OWNER)
  const CHAIN: Ty := Pair(SUCCESSION, LIVENESS)
  const METADATA: Ty := Pair(Opt(Scalar(8)), CHAIN)

  function LocalIdVal(r: LocalId): Val {
    VPair(VNum(r.key), VPair(VNum(Bit(r.flag) * TWO15 + r.salt), VUnit))
  }

  function PermissionVal(p: Permission): Val {
    match p
    case Public => VVar(0, VUnit)
    case Tenants(ts) => VVar(1, VPair(VSeq(seq(|ts|, i requires 0 <= i < |ts| => VNum(ts[i]))), VUnit))
    case Group(g) => VVar(2, VPair(VNum(g), VUnit))
  }

  function SuccessionVal(s: Succession): Val {
    VPair(VNum(if s.CreatedAt? then 0 else 1), VNum(s.instant))
  }

  function AccessVal(m: Metadata): Val {
    VPair(if m.permission.Some? then VSome(PermissionVal(m.permission.value)) else VNone, VUnit)
  }

  function WriterVal(m: Metadata): Val {
    VPair(VNum(m.user), VPair(VNum(m.device), AccessVal(m)))
  }

  function OwnerVal(m: Metadata): Val {
    VPair(if m.pivot.Some? then VSome(LocalIdVal(m.pivot.value)) else VNone, WriterVal(m))
  }

  function LivenessVal(m: Metadata): Val {
    VPair(VNum(if m.removed then 1 else 0), OwnerVal(m))
  }

  function ChainVal(m: Metadata): Val {
    VPair(SuccessionVal(m.succession), LivenessVal(m))
  }

  function MetadataVal(m: Metadata): Val {
    VPair(if m.previous.Some? then VSome(VNum(m.previous.value)) else VNone, ChainVal(m))
  }

  lemma Powers()
    ensures Pow256(2) == TWO16 && Pow256(6) == TWO48 && Pow256(8) == TWO64
  {
  }

  // ---- Sizes -----------------------------------------------------------------------------------------------------

  /** A well-typed value without vectors of zero-size elements, whose heap takes `n` bytes and whose region lengths fit
      their fields exactly if `fits`. */
  ghost predicate Sized(t: Ty, v: Val, n: nat, fits: bool) {
    Typed(t, v) && HeapSize(t, v) == n && Clean(t, v) && (Fits(t, v) <==> fits)
  }

  lemma SizedPair(a: Ty, b: Ty, v: Val, w: Val, n: nat, m: nat, fits: bool)
    requires Sized(a, v, n, true) && Sized(b, w, m, fits)
    ensures Sized(Pair(a, b), VPair(v, w), n + m, fits)
  {
  }

  lemma SizedOption(t: Ty, v: Val, n: nat, fits: bool)
    requires (v.VSome? && Sized(t, v.value, n, fits)) || v.VNone?
    ensures Sized(Opt(t), v, if v.VSome? then Stack(t) + n else 0, v.VNone? || fits)
  {
  }

  lemma SizedScalar(t: Ty, v: Val)
    requires (t.Scalar? || t.Tag? || t.Unit?) && Typed(t, v)
    ensures Sized(t, v, 0, true)
  {
  }

  function PermissionSize(p: Permission): nat {
    match p
    case Public => 0
    case Tenants(ts) => 4 + 6 * |ts|
    case Group(_) => 8
  }

  function AccessSize(m: Metadata): nat {
    if m.permission.Some? then 5 + PermissionSize(m.permission.value) else 0
  }

  /** The encoded length of metadata: 27 fixed bytes and what the options add. */
  function MetadataSize(m: Metadata): nat {
    27 + (if m.previous.Some? then 8 else 0) + (if m.pivot.Some? then 10 else 0) + AccessSize(m)
  }

  /** The permission's payload region fits its 32-bit length. */
  predicate PermissionFits(m: Metadata) {
    m.permission.Some? ==> PermissionSize(m.permission.value) < TWO32
  }

  lemma TenantsSized(ts: seq<u48>)
    ensures Sized(Vec(Scalar(6)), VSeq(seq(|ts|, i requires 0 <= i < |ts| => VNum(ts[i]))), 6 * |ts|, 6 * |ts| < TWO32)
  {
    Powers();
    var items := seq(|ts|, i requires 0 <= i < |ts| => VNum(ts[i]));
    forall i | 0 <= i < |items| ensures Typed(Scalar(6), items[i]) {}
    ScalarItems(6, items);
  }

  lemma PermissionSized(p: Permission)
    ensures Sized(PERMISSION, PermissionVal(p), PermissionSize(p), PermissionSize(p) < TWO32)
  {
    Powers();
    SizedScalar(Unit, VUnit);
    match p
    case Public =>
    case Tenants(ts) =>
      TenantsSized(ts);
    case Group(g) =>
      SizedScalar(Scalar(8), VNum(g));
      SizedPair(Scalar(8), Unit, VNum(g), VUnit, 0, 0, true);
  }

  lemma LocalIdSized(r: LocalId)
    ensures Sized(LOCAL_ID, LocalIdVal(r), 0, true)
  {
  }

  lemma AccessSized(m: Metadata)
    ensures Sized(ACCESS, AccessVal(m), AccessSize(m), PermissionFits(m))
  {
    var n := if m.permission.Some? then PermissionSize(m.permission.value) else 0;
    if m.permission.Some? { PermissionSized(m.permission.value); }
    SizedOption(PERMISSION, AccessVal(m).first, n, n < TWO32);
  }

  lemma WriterSized(m: Metadata)
    ensures Sized(WRITER, WriterVal(m), AccessSize(m), PermissionFits(m))
  {
    Powers();
    AccessSized(m);
    SizedScalar(Scalar(8), VNum(m.device));
    SizedPair(Scalar(8), ACCESS, VNum(m.device), AccessVal(m), 0, AccessSize(m), PermissionFits(m));
    SizedScalar(Scalar(6), VNum(m.user));
    SizedPair(Scalar(6), Pair(Scalar(8), ACCESS), VNum(m.user), VPair(VNum(m.device), AccessVal(m)), 0, AccessSize(m),
              PermissionFits(m));
  }

  lemma LivenessSized(m: Metadata)
    ensures Sized(LIVENESS, LivenessVal(m), AccessSize(m) + (if m.pivot.Some? then 10 else 0), PermissionFits(m))
  {
    WriterSized(m);
    if m.pivot.Some? { LocalIdSized(m.pivot.value); }
    var pivot := if m.pivot.Some? then 10 else 0;
    SizedOption(LOCAL_ID, OwnerVal(m).first, 0, true);
    SizedPair(Opt(LOCAL_ID), WRITER, OwnerVal(m).first, WriterVal(m), pivot, AccessSize(m), PermissionFits(m));
    SizedScalar(Tag(2), LivenessVal(m).first);
    SizedPair(Tag(2), OWNER, LivenessVal(m).first, OwnerVal(m), 0, pivot + AccessSize(m), PermissionFits(m));
  }

  lemma SuccessionSized(s: Succession)
    ensures Sized(SUCCESSION, SuccessionVal(s), 0, true)
  {
  }

  lemma MetadataSized(m: Metadata)
    ensures Sized(METADATA, MetadataVal(m), MetadataSize(m) - 27, PermissionFits(m))
  {
    Powers();
    LivenessSized(m);
    SuccessionSized(m.succession);
    var rest := AccessSize(m) + if m.pivot.Some? then 10 else 0;
    SizedPair(SUCCESSION, LIVENESS, SuccessionVal(m.succession), LivenessVal(m), 0, rest, PermissionFits(m));
    if m.previous.Some? { SizedScalar(Scalar(8), VNum(m.previous.value)); }
    SizedOption(Scalar(8), MetadataVal(m).first, 0, true);
    SizedPair(Opt(Scalar(8)), CHAIN, MetadataVal(m).first, ChainVal(m), if m.previous.Some? then 8 else 0, rest,
              PermissionFits(m));
  }

  // ---- Back ----------------------------------------------------------------------------------------------------

  function LocalIdOf(v: Val): LocalId
    requires Typed(LOCAL_ID, v)
  {
    Powers();
    var lower := v.second.first.n;
    LocalId(v.first.n, lower / TWO15 == 1, lower % TWO15)
  }

  function PermissionOf(v: Val): Permission
    requires Typed(PERMISSION, v)
  {
    Powers();
    if v.tag == 0 then Public
    else if v.tag == 1 then
      var items := v.payload.first.items;
      Tenants(seq(|items|, i requires 0 <= i < |items| => ItemIsScalar(items, i); items[i].n))
    else Group(v.payload.first.n)
  }

  lemma ItemIsScalar(items: seq<Val>, i: nat)
    requires Typed(Vec(Scalar(6)), VSeq(items)) && i < |items|
    ensures items[i].VNum? && items[i].n < TWO48
  {
  }

  function MetadataOf(v: Val): Metadata
    requires Typed(METADATA, v)
  {
    Powers();
    var s, r := v.second.first, v.second.second;
    var instant: u64 := s.second.n;
    var pivot, perm := r.second.first, r.second.second.second.second.first;
    Metadata(if v.first.VSome? then Some(v.first.value.n) else None,
             if s.first.n == 0 then CreatedAt(instant) else Next(instant),
             r.first.n == 1,
             if pivot.VSome? then Some(LocalIdOf(pivot.value)) else None,
             r.second.second.first.n,
             r.second.second.second.first.n,
             if perm.VSome? then Some(PermissionOf(perm.value)) else None)
  }

  lemma LocalIdBack(r: LocalId)
    ensures Typed(LOCAL_ID, LocalIdVal(r)) && LocalIdOf(LocalIdVal(r)) == r
  {
  }

  lemma PermissionBack(p: Permission)
    ensures Typed(PERMISSION, PermissionVal(p)) && PermissionOf(PermissionVal(p)) == p
  {
  }

  lemma MetadataBack(m: Metadata)
    ensures Typed(METADATA, MetadataVal(m)) && MetadataOf(MetadataVal(m)) == m
  {
    MetadataSized(m);
    if m.pivot.Some? { LocalIdBack(m.pivot.value); }
    if m.permission.Some? { PermissionBack(m.permission.value); }
  }

  function MetadataBytes(m: Metadata): Bytes {
    MetadataSized(m);
    ToWire(METADATA, MetadataVal(m))
  }

  /** Metadata survives the wire exactly when its permission's payload is shorter than 4 GiB. */
  lemma MetadataRoundTrip(m: Metadata)
    ensures |MetadataBytes(m)| == MetadataSize(m)
    ensures FromWire(METADATA, MetadataBytes(m)) == Done(MetadataVal(m), [], []) <==> PermissionFits(m)
  {
    MetadataSized(m);
    MetadataStack();
    SizedSurvives(METADATA, MetadataVal(m), MetadataSize(m) - 27, PermissionFits(m));
  }

  lemma MetadataStack()
    ensures Stack(METADATA) == 27
  {
    assert Stack(SUCCESSION) == 9;
    assert Stack(WRITER) == 15;
    assert Stack(LIVENESS) == 17;
  }

  lemma SizedSurvives(t: Ty, v: Val, n: nat, fits: bool)
    requires Sized(t, v, n, fits)
    ensures |ToWire(t, v)| == Stack(t) + n && (FromWire(t, ToWire(t, v)) == Done(v, [], []) <==> fits)
  {
    SurvivesIff(t, v);
  }

  // ---- Records -----------------------------------------------------------------------------------------------------

  const RECORD_PREFIX: nat := 12

  datatype Fault = WrongHash(got: u64) | WireFault(error: WireError)

  datatype SplitRecord = Split(meta: Metadata, body: Bytes) | Refused(fault: Fault)

  function Encoded(e: Envelope): Bytes {
    Le(8, e.hash) + Le(4, |MetadataBytes(e.meta)|) + MetadataBytes(e.meta) + e.body
  }

  /** `split_record`. */
  function SplitBytes(hash: u64, bytes: Bytes): SplitRecord {
    if |bytes| < 8 then Refused(WrongHash(0))
    else
      HashFits(bytes[..8]);
      var got := FromLe(bytes[..8]);
      if got != hash then Refused(WrongHash(got))
      else if |bytes| < RECORD_PREFIX then Refused(WireFault(Eof))
      else SplitAt(bytes, RECORD_PREFIX + FromLe(bytes[8..RECORD_PREFIX]))
  }

  /** Metadata up to `end`, the body after it. */
  function SplitAt(bytes: Bytes, end: nat): SplitRecord
    requires RECORD_PREFIX <= end
  {
    if end > |bytes| then Refused(WireFault(Eof))
    else
      MetadataDecodesTyped(bytes[RECORD_PREFIX..end]);
      match FromWire(METADATA, bytes[RECORD_PREFIX..end])
      case Bad(x) => Refused(WireFault(x))
      case Done(v, _, _) => Split(MetadataOf(v), bytes[end..])
  }

  lemma HashFits(bs: Bytes)
    requires |bs| == 8
    ensures FromLe(bs) < TWO64
  {
    Powers();
    LeOfFromLe(bs);
  }

  lemma MetadataDecodesTyped(bytes: Bytes)
    ensures FromWire(METADATA, bytes).Done? ==> Typed(METADATA, FromWire(METADATA, bytes).value)
  {
    if |bytes| >= Stack(METADATA) {
      DecodesSound(METADATA, bytes[..Stack(METADATA)], bytes[Stack(METADATA)..]);
    }
  }

  lemma Cut(a: Bytes, b: Bytes, c: Bytes, d: Bytes)
    requires |a| == 8 && |b| == 4
    ensures var bs := a + b + c + d;
            bs[..8] == a && bs[8..12] == b && bs[12..12 + |c|] == c && bs[12 + |c|..] == d
  {
  }

  lemma HashBack(hash: u64)
    ensures FromLe(Le(8, hash)) == hash
  {
    Powers();
    FromLeOfLe(8, hash);
  }

  lemma SplitPrefix(hash: u64, bytes: Bytes, length: Bytes)
    requires |bytes| >= RECORD_PREFIX && FromLe(bytes[..8]) == hash && bytes[8..RECORD_PREFIX] == length
    ensures SplitBytes(hash, bytes) == SplitAt(bytes, RECORD_PREFIX + FromLe(length))
  {
  }

  lemma SplitSections(hash: u64, length: Bytes, meta: Bytes, body: Bytes)
    requires |length| == 4
    ensures var bytes := Le(8, hash) + length + meta + body;
            && |bytes| == RECORD_PREFIX + |meta| + |body|
            && SplitBytes(hash, bytes) == SplitAt(bytes, RECORD_PREFIX + FromLe(length))
            && bytes[RECORD_PREFIX..RECORD_PREFIX + |meta|] == meta && bytes[RECORD_PREFIX + |meta|..] == body
  {
    HashBack(hash);
    Cut(Le(8, hash), length, meta, body);
    SplitPrefix(hash, Le(8, hash) + length + meta + body, length);
  }

  lemma SplitDecoded(bytes: Bytes, end: nat, m: Metadata)
    requires RECORD_PREFIX <= end <= |bytes| && bytes[RECORD_PREFIX..end] == MetadataBytes(m) && PermissionFits(m)
    ensures SplitAt(bytes, end) == Split(m, bytes[end..])
  {
    MetadataRoundTrip(m);
    MetadataBack(m);
  }

  lemma SplitKeeps(e: Envelope)
    requires |MetadataBytes(e.meta)| < TWO32 && PermissionFits(e.meta)
    ensures SplitBytes(e.hash, Encoded(e)) == Split(e.meta, e.body)
  {
    var bytes := MetadataBytes(e.meta);
    FourBytes();
    FromLeOfLe(4, |bytes|);
    SplitSections(e.hash, Le(4, |bytes|), bytes, e.body);
    SplitDecoded(Encoded(e), RECORD_PREFIX + |bytes|, e.meta);
  }

  /** A length that wrapped ends the metadata too early, so too much is left for the body. */
  lemma SplitLoses(e: Envelope)
    requires |MetadataBytes(e.meta)| >= TWO32
    ensures SplitBytes(e.hash, Encoded(e)) != Split(e.meta, e.body)
  {
    var bytes := MetadataBytes(e.meta);
    LengthFits(Le(4, |bytes|));
    SplitSections(e.hash, Le(4, |bytes|), bytes, e.body);
  }

  /** Splitting undoes encoding exactly when the metadata's length fits its 32-bit field. */
  lemma SplitUndoesEncode(e: Envelope)
    ensures SplitBytes(e.hash, Encoded(e)) == Split(e.meta, e.body) <==> MetadataSize(e.meta) < TWO32
  {
    MetadataRoundTrip(e.meta);
    if MetadataSize(e.meta) < TWO32 { SplitKeeps(e); } else { SplitLoses(e); }
  }

  /** `encode_record_raw`, appending section by section. */
  method EncodeRecordRaw(hash: u64, meta: Metadata, body: Bytes) returns (out: Bytes)
    ensures out == Encoded(Envelope(hash, meta, body))
    ensures SplitBytes(hash, out) == Split(meta, body) <==> MetadataSize(meta) < TWO32
  {
    var bytes := MetadataBytes(meta);
    out := Le(8, hash);
    out := out + Le(4, |bytes|);
    out := out + bytes;
    out := out + body;
    SplitUndoesEncode(Envelope(hash, meta, body));
  }

  /** Another type's record is refused by its hash, and the hash it carries is named. */
  lemma ForeignIsRefused(e: Envelope, hash: u64)
    requires hash != e.hash
    ensures SplitBytes(hash, Encoded(e)) == Refused(WrongHash(e.hash))
  {
    HashBack(e.hash);
    Cut(Le(8, e.hash), Le(4, |MetadataBytes(e.meta)|), MetadataBytes(e.meta), e.body);
  }

  // ---- The store of bytes is the store of records ----------------------------------------------------------------------

  /** The records a store can hold: their metadata's length fits its field. */
  type Storable = e: Envelope | MetadataSize(e.meta) < TWO32 witness Envelope(0, FirstMeta(0, None, 0), [])

  lemma EncodedInjective(a: Storable, b: Storable)
    ensures Encoded(a) == Encoded(b) ==> a == b
  {
    SplitUndoesEncode(a);
    SplitUndoesEncode(b);
    if Encoded(a) == Encoded(b) && a.hash != b.hash { ForeignIsRefused(b, a.hash); }
  }

  /** Guards compare bytes and batches write bytes, and every commit or conflict is the one the records would give. */
  lemma ByteStoreRefines(s: Contents<Storable>, batch: seq<Write<Storable>>)
    ensures var enc := (e: Storable) => Encoded(e);
            Apply(EncodeStore(s, enc), EncodeBatch(batch, enc)) ==
            match Apply(s, batch)
            case Ok(t) => Ok(EncodeStore(t, enc))
            case Err(x) => Err(x)
  {
    var enc := (e: Storable) => Encoded(e);
    forall a, b | enc(a) == enc(b) ensures a == b { EncodedInjective(a, b); }
    ApplyEncodes(s, batch, enc);
  }
}
