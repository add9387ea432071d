/** What is on the wire, byte by byte: the layouts a peer or a stored file holds the codec to. Numbers are given by their
    base-256 digits, tags as literal bytes. */
module Layouts {
  import opened Ids
  import opened Stores
  import opened Records
  import opened Keys
  import opened LittleEndian
  import opened Wire
  import opened Envelopes

  // ---- Any value ---------------------------------------------------------------------------------------

  lemma ScalarBytes(w: nat, x: nat)
    requires x < Pow256(w)
    ensures ToWire(Scalar(w), VNum(x)) == Digits(w, x)
  {
    LeIsDigits(w, x);
    assert EncStack(Scalar(w), VNum(x)) == Digits(w, x) && EncHeap(Scalar(w), VNum(x)) == [];
  }

  /** An absent value is a zero byte, a present one a one byte and then the value. */
  lemma OptionBytes(t: Ty, v: Val)
    requires Typed(t, v)
    ensures ToWire(Opt(t), VNone) == [0]
    ensures ToWire(Opt(t), VSome(v)) == [1] + ToWire(t, v)
  {
    assert EncStack(Opt(t), VNone) == [0] && EncHeap(Opt(t), VNone) == [];
    assert EncStack(Opt(t), VSome(v)) == [1] && EncHeap(Opt(t), VSome(v)) == EncUnit(t, v);
  }

  lemma VariantSize(t: Ty, v: Val)
    requires Typed(t, v)
    ensures Le(4, Stack(t) + HeapSize(t, v)) == Digits(4, |ToWire(t, v)|)
  {
    UnitWidth(t, v);
    LeIsDigits(4, |ToWire(t, v)|);
  }

  lemma UnitWidth(t: Ty, v: Val)
    requires Typed(t, v)
    ensures |ToWire(t, v)| == Stack(t) + HeapSize(t, v)
  {
    Widths(t, v);
  }

  /** A variant is its position, the length of its payload in four bytes, and the payload. */
  lemma VariantBytes(ts: seq<Ty>, tag: byte, v: Val)
    requires tag < |ts| && Typed(ts[tag], v)
    ensures Laid(Enum(ts), VVar(tag, v), [tag] + Digits(4, |ToWire(ts[tag], v)|), ToWire(ts[tag], v))
    ensures ToWire(Enum(ts), VVar(tag, v)) == [tag] + Digits(4, |ToWire(ts[tag], v)|) + ToWire(ts[tag], v)
  {
    VariantSize(ts[tag], v);
  }

  /** A vector is the length of its region in bytes, and each element's own bytes in turn. */
  lemma VectorBytes(t: Ty, vs: seq<Val>)
    requires AllTyped(t, vs)
    ensures Laid(Wire.Vec(t), VSeq(vs), Digits(4, |EncItems(t, vs)|), EncItems(t, vs))
  {
    ItemsWidth(t, vs);
    LeIsDigits(4, ItemsSize(t, vs));
  }

  lemma ItemBytes(t: Ty, v: Val, vs: seq<Val>)
    requires Typed(t, v) && AllTyped(t, vs)
    ensures AllTyped(t, [v] + vs) && EncItems(t, [v] + vs) == ToWire(t, v) + EncItems(t, vs) && EncItems(t, []) == []
  {
    assert ([v] + vs)[1..] == vs;
  }

  /** The sections of a value. */
  ghost predicate Laid(t: Ty, v: Val, stack: Bytes, heap: Bytes) {
    Typed(t, v) && EncStack(t, v) == stack && EncHeap(t, v) == heap
  }

  /** Fields follow one another in both sections. */
  lemma PairLaid(a: Ty, b: Ty, v: Val, w: Val, stack: Bytes, heap: Bytes, stack': Bytes, heap': Bytes)
    requires Laid(a, v, stack, heap) && Laid(b, w, stack', heap')
    ensures Laid(Pair(a, b), VPair(v, w), stack + stack', heap + heap')
  {
  }

  lemma OptionLaid(t: Ty, v: Val, unit: Bytes)
    requires v.VNone? || (v.VSome? && Typed(t, v.value) && ToWire(t, v.value) == unit)
    ensures Laid(Opt(t), v, [if v.VSome? then 1 else 0], if v.VSome? then unit else [])
  {
  }

  lemma ScalarLaid(w: nat, x: nat)
    requires x < Pow256(w)
    ensures Laid(Scalar(w), VNum(x), Digits(w, x), [])
  {
    LeIsDigits(w, x);
  }

  // ---- Metadata ----------------------------------------------------------------------------------------

  /** A live version's link is tagged zero, an archive's one; the instant follows in eight bytes. */
  lemma SuccessionBytes(s: Succession)
    ensures Typed(SUCCESSION, SuccessionVal(s))
    ensures Laid(SUCCESSION, SuccessionVal(s), SuccessionPart(s), [])
    ensures ToWire(SUCCESSION, SuccessionVal(s)) == [if s.CreatedAt? then 0 else 1] + Digits(8, s.instant)
  {
    Envelopes.Powers();
    LeIsDigits(8, s.instant);
  }

  lemma LocalIdBytes(r: LocalId)
    ensures Typed(LOCAL_ID, LocalIdVal(r))
    ensures ToWire(LOCAL_ID, LocalIdVal(r)) == Digits(8, r.key) + Digits(2, (if r.flag then 0x8000 else 0) + r.salt)
  {
    Envelopes.Powers();
    var lower := Bit(r.flag) * TWO15 + r.salt;
    ScalarLaid(8, r.key);
    ScalarLaid(2, lower);
    UnitLaid(Scalar(2), VNum(lower), Digits(2, lower), []);
    PairLaid(Scalar(8), Wire.Pair(Scalar(2), Unit), VNum(r.key), VPair(VNum(lower), VUnit), Digits(8, r.key), [],
             Digits(2, lower), []);
  }

  function TenantBytes(ts: seq<u48>): Bytes {
    if ts == [] then [] else Digits(6, ts[0]) + TenantBytes(ts[1..])
  }

  /** Zero for everyone, one for a list of tenants, two for a group. */
  function PermissionBytes(p: Permission): Bytes {
    match p
    case Public => [0] + Digits(4, 0)
    case Tenants(ts) => [1] + Digits(4, 4 + 6 * |ts|) + Digits(4, 6 * |ts|) + TenantBytes(ts)
    case Group(g) => [2] + Digits(4, 8) + Digits(8, g)
  }

  lemma {:induction false} TenantItems(ts: seq<u48>, vs: seq<Val>)
    requires |vs| == |ts| && forall i :: 0 <= i < |ts| ==> vs[i] == VNum(ts[i])
    ensures AllTyped(Scalar(6), vs) && EncItems(Scalar(6), vs) == TenantBytes(ts) && |TenantBytes(ts)| == 6 * |ts|
  {
    Envelopes.Powers();
    if ts != [] {
      TenantItems(ts[1..], vs[1..]);
      ScalarBytes(6, ts[0]);
      ItemBytes(Scalar(6), vs[0], vs[1..]);
      assert vs == [vs[0]] + vs[1..];
    }
  }

  lemma TenantsUnit(ts: seq<u48>)
    ensures var t, v := Wire.Pair(Wire.Vec(Scalar(6)), Unit), PermissionVal(Tenants(ts)).payload;
            Typed(t, v) && ToWire(t, v) == Digits(4, 6 * |ts|) + TenantBytes(ts) && |ToWire(t, v)| == 4 + 6 * |ts|
  {
    var vs := PermissionVal(Tenants(ts)).payload.first.items;
    TenantItems(ts, vs);
    VectorBytes(Scalar(6), vs);
    UnitLaid(Wire.Vec(Scalar(6)), VSeq(vs), Digits(4, 6 * |ts|), TenantBytes(ts));
  }

  /** A struct of one field is laid out as the field. */
  lemma UnitLaid(t: Ty, v: Val, stack: Bytes, heap: Bytes)
    requires Laid(t, v, stack, heap)
    ensures Laid(Wire.Pair(t, Unit), VPair(v, VUnit), stack, heap)
    ensures ToWire(Wire.Pair(t, Unit), VPair(v, VUnit)) == stack + heap
  {
    PairLaid(t, Unit, v, VUnit, stack, heap, [], []);
    assert stack + [] == stack && heap + [] == heap;
  }

  lemma GroupUnit(g: u64)
    ensures var t, v := Wire.Pair(Scalar(8), Unit), PermissionVal(Group(g)).payload;
            Typed(t, v) && ToWire(t, v) == Digits(8, g)
  {
    Envelopes.Powers();
    LeIsDigits(8, g);
  }

  lemma PermissionLayout(p: Permission)
    ensures Typed(PERMISSION, PermissionVal(p)) && ToWire(PERMISSION, PermissionVal(p)) == PermissionBytes(p)
  {
    var v := PermissionVal(p);
    match p
    case Public => VariantBytes(PERMISSION.variants, 0, VUnit);
    case Tenants(ts) =>
      TenantsUnit(ts);
      VariantBytes(PERMISSION.variants, 1, v.payload);
    case Group(g) =>
      GroupUnit(g);
      VariantBytes(PERMISSION.variants, 2, v.payload);
  }

  function Flag(b: bool): Bytes {
    [if b then 1 else 0]
  }

  function SuccessionPart(s: Succession): Bytes {
    [if s.CreatedAt? then 0 else 1] + Digits(8, s.instant)
  }

  function PreviousBytes(m: Metadata): Bytes {
    if m.previous.Some? then Digits(8, m.previous.value) else []
  }

  function PivotBytes(m: Metadata): Bytes {
    if m.pivot.None? then []
    else Digits(8, m.pivot.value.key) + Digits(2, (if m.pivot.value.flag then 0x8000 else 0) + m.pivot.value.salt)
  }

  /** The bytes every metadata has, in the order of its fields. */
  function FixedPart(m: Metadata): Bytes {
    Flag(m.previous.Some?) + SuccessionPart(m.succession) + Flag(m.removed) + Flag(m.pivot.Some?) + Digits(6, m.user)
    + Digits(8, m.device) + Flag(m.permission.Some?)
  }

  /** What its options add, in the same order. */
  function OptionalPart(m: Metadata): Bytes {
    PreviousBytes(m) + PivotBytes(m) + if m.permission.Some? then PermissionBytes(m.permission.value) else []
  }

  lemma AccessLaid(m: Metadata)
    ensures Laid(ACCESS, AccessVal(m), Flag(m.permission.Some?),
                 if m.permission.Some? then PermissionBytes(m.permission.value) else [])
  {
    if m.permission.Some? { PermissionLayout(m.permission.value); }
    var unit := if m.permission.Some? then PermissionBytes(m.permission.value) else [];
    OptionLaid(PERMISSION, AccessVal(m).first, unit);
    UnitLaid(Opt(PERMISSION), AccessVal(m).first, Flag(m.permission.Some?), unit);
  }

  lemma WriterLaid(m: Metadata, heap: Bytes)
    requires Laid(ACCESS, AccessVal(m), Flag(m.permission.Some?), heap)
    ensures Laid(WRITER, WriterVal(m), Digits(6, m.user) + (Digits(8, m.device) + Flag(m.permission.Some?)), heap)
  {
    Envelopes.Powers();
    ScalarLaid(8, m.device);
    ScalarLaid(6, m.user);
    PairLaid(Scalar(8), ACCESS, VNum(m.device), AccessVal(m), Digits(8, m.device), [], Flag(m.permission.Some?), heap);
    assert [] + heap == heap;
    PairLaid(Scalar(6), WRITER.second, VNum(m.user), WriterVal(m).second, Digits(6, m.user), [],
             Digits(8, m.device) + Flag(m.permission.Some?), heap);
  }

  lemma OwnerLaid(m: Metadata, stack: Bytes, heap: Bytes)
    requires Laid(WRITER, WriterVal(m), stack, heap)
    ensures Laid(OWNER, OwnerVal(m), Flag(m.pivot.Some?) + stack, PivotBytes(m) + heap)
  {
    if m.pivot.Some? { LocalIdBytes(m.pivot.value); }
    OptionLaid(LOCAL_ID, OwnerVal(m).first, PivotBytes(m));
    PairLaid(Opt(LOCAL_ID), WRITER, OwnerVal(m).first, WriterVal(m), Flag(m.pivot.Some?), PivotBytes(m), stack, heap);
  }

  lemma LivenessLaid(m: Metadata, stack: Bytes, heap: Bytes)
    requires Laid(OWNER, OwnerVal(m), stack, heap)
    ensures Laid(LIVENESS, LivenessVal(m), Flag(m.removed) + stack, heap)
  {
    assert Laid(Tag(2), LivenessVal(m).first, Flag(m.removed), []);
    PairLaid(Tag(2), OWNER, LivenessVal(m).first, OwnerVal(m), Flag(m.removed), [], stack, heap);
    assert [] + heap == heap;
  }

  lemma ChainLaid(m: Metadata, stack: Bytes, heap: Bytes)
    requires Laid(LIVENESS, LivenessVal(m), stack, heap)
    ensures Laid(METADATA, MetadataVal(m), Flag(m.previous.Some?) + (SuccessionPart(m.succession) + stack),
                 PreviousBytes(m) + heap)
  {
    Envelopes.Powers();
    SuccessionBytes(m.succession);
    PairLaid(SUCCESSION, LIVENESS, SuccessionVal(m.succession), LivenessVal(m), SuccessionPart(m.succession), [],
             stack, heap);
    assert [] + heap == heap;
    if m.previous.Some? { ScalarBytes(8, m.previous.value); }
    OptionLaid(Scalar(8), MetadataVal(m).first, PreviousBytes(m));
    PairLaid(Opt(Scalar(8)), CHAIN, MetadataVal(m).first, ChainVal(m), Flag(m.previous.Some?), PreviousBytes(m),
             SuccessionPart(m.succession) + stack, heap);
  }

  /** Metadata on the wire: the fixed part, then what the options add. */
  lemma MetadataLayout(m: Metadata)
    ensures |FixedPart(m)| == 27 && MetadataBytes(m) == FixedPart(m) + OptionalPart(m)
  {
    var permission := if m.permission.Some? then PermissionBytes(m.permission.value) else [];
    AccessLaid(m);
    WriterLaid(m, permission);
    var stack := Digits(6, m.user) + (Digits(8, m.device) + Flag(m.permission.Some?));
    OwnerLaid(m, stack, permission);
    LivenessLaid(m, Flag(m.pivot.Some?) + stack, PivotBytes(m) + permission);
    var stack' := Flag(m.removed) + (Flag(m.pivot.Some?) + stack);
    ChainLaid(m, stack', PivotBytes(m) + permission);
    Regroup(Flag(m.previous.Some?), SuccessionPart(m.succession), Flag(m.removed), Flag(m.pivot.Some?), Digits(6, m.user),
            Digits(8, m.device), Flag(m.permission.Some?));
    Associate(PreviousBytes(m), PivotBytes(m), permission);
  }

  lemma Regroup(a: Bytes, b: Bytes, c: Bytes, d: Bytes, e: Bytes, f: Bytes, g: Bytes)
    ensures a + b + c + d + e + f + g == a + (b + (c + (d + (e + (f + g)))))
  {
    Associate(a + b + c + d + e, f, g);
    Associate(a + b + c + d, e, f + g);
    Associate(a + b + c, d, e + (f + g));
    Associate(a + b, c, d + (e + (f + g)));
    Associate(a, b, c + (d + (e + (f + g))));
  }

  // ---- Stored records ----------------------------------------------------------------------------------

  /** A stored record: the type's hash in eight bytes, the metadata's length in four, the metadata, the body. */
  lemma RecordLayout(e: Envelope)
    ensures Encoded(e) == Digits(8, e.hash) + Digits(4, MetadataSize(e.meta))
                          + (FixedPart(e.meta) + OptionalPart(e.meta)) + e.body
  {
    MetadataRoundTrip(e.meta);
    MetadataLayout(e.meta);
    LeIsDigits(8, e.hash);
    LeIsDigits(4, MetadataSize(e.meta));
  }

  /** A stored record cut short: inside the hash it reads as another type's, inside the metadata as too short, and inside
      the body as a record with what is left of it. */
  lemma CutRecord(e: Envelope, n: nat)
    requires MetadataSize(e.meta) < TWO32 && n <= |Encoded(e)|
    ensures var start := RECORD_PREFIX + MetadataSize(e.meta);
            SplitBytes(e.hash, Encoded(e)[..n]) ==
            if n < 8 then Refused(WrongHash(0))
            else if n < start then Refused(WireFault(Eof))
            else Split(e.meta, Encoded(e)[start..n])
  {
    var start := RECORD_PREFIX + MetadataSize(e.meta);
    MetadataRoundTrip(e.meta);
    if n < 8 {
    } else if n < start {
      CutBeforeBody(e, n);
    } else {
      SplitUndoesEncode(e.(body := e.body[..n - start]));
      CutInBody(Le(8, e.hash) + Le(4, |MetadataBytes(e.meta)|) + MetadataBytes(e.meta), e.body, n);
    }
  }

  lemma CutInBody(front: Bytes, body: Bytes, n: nat)
    requires |front| <= n <= |front + body|
    ensures (front + body)[..n] == front + body[..n - |front|] && (front + body)[|front|..n] == body[..n - |front|]
  {
  }

  lemma CutBeforeBody(e: Envelope, n: nat)
    requires |MetadataBytes(e.meta)| < TWO32 && 8 <= n < RECORD_PREFIX + |MetadataBytes(e.meta)|
    ensures SplitBytes(e.hash, Encoded(e)[..n]) == Refused(WireFault(Eof))
  {
    var m := MetadataBytes(e.meta);
    if n < RECORD_PREFIX {
      HashBack(e.hash);
      CutInLength(e.hash, Encoded(e), n);
    } else {
      FourBytes();
      FromLeOfLe(4, |m|);
      SplitSections(e.hash, Le(4, |m|), m[..n - RECORD_PREFIX], []);
      assert Encoded(e)[..n] == Le(8, e.hash) + Le(4, |m|) + m[..n - RECORD_PREFIX] + [];
    }
  }

  lemma CutInLength(hash: u64, bytes: Bytes, n: nat)
    requires 8 <= n < RECORD_PREFIX && n <= |bytes| && bytes[..8] == Le(8, hash) && FromLe(Le(8, hash)) == hash
    ensures SplitBytes(hash, bytes[..n]) == Refused(WireFault(Eof))
  {
    assert bytes[..n][..8] == Le(8, hash);
  }
}
