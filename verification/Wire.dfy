/** The two-section wire codec: fixed-size stacks, variable heaps, and two cursors that advance together.

    A derived struct, a tuple or an array is the concatenation of its fields in both sections, so it is a nested `Pair`
    ending in `Unit`. Signed and floating scalars travel as their bit patterns. */
module Wire {
  import opened Ids
  import opened Records
  import opened Keys
  import opened LittleEndian

  datatype Ty =
    | Unit
    | Scalar(width: nat)
    | Tag(bound: nat)
    | Vec(element: Ty)
    | Opt(element: Ty)
    | Pair(first: Ty, second: Ty)
    | Enum(variants: seq<Ty>)

  datatype Val =
    | VUnit
    | VNum(n: nat)
    | VSeq(items: seq<Val>)
    | VNone
    | VSome(value: Val)
    | VPair(first: Val, second: Val)
    | VVar(tag: nat, payload: Val)

  ghost predicate Typed(t: Ty, v: Val)
    decreases t
  {
    match t
    case Unit => v.VUnit?
    case Scalar(w) => v.VNum? && v.n < Pow256(w)
    case Tag(m) => v.VNum? && v.n < m && v.n < 256
    case Vec(e) => v.VSeq? && forall i :: 0 <= i < |v.items| ==> Typed(e, v.items[i])
    case Opt(e) => v.VNone? || (v.VSome? && Typed(e, v.value))
    case Pair(a, b) => v.VPair? && Typed(a, v.first) && Typed(b, v.second)
    case Enum(ts) => v.VVar? && v.tag < |ts| && v.tag < 256 && Typed(ts[v.tag], v.payload)
  }

  /** `STACK_SIZE`. */
  function Stack(t: Ty): nat {
    match t
    case Unit => 0
    case Scalar(w) => w
    case Tag(_) => 1
    case Vec(_) => 4
    case Opt(_) => 1
    case Pair(a, b) => Stack(a) + Stack(b)
    case Enum(_) => 5
  }

  /** `heap_size`. */
  function HeapSize(t: Ty, v: Val): nat
    requires Typed(t, v)
    decreases t, 0
  {
    match t
    case Vec(e) => ItemsSize(e, v.items)
    case Opt(e) => if v.VSome? then Stack(e) + HeapSize(e, v.value) else 0
    case Pair(a, b) => HeapSize(a, v.first) + HeapSize(b, v.second)
    case Enum(ts) => Stack(ts[v.tag]) + HeapSize(ts[v.tag], v.payload)
    case _ => 0
  }

  function ItemsSize(t: Ty, vs: seq<Val>): nat
    requires forall i :: 0 <= i < |vs| ==> Typed(t, vs[i])
    decreases t, 1, |vs|
  {
    if vs == [] then 0 else Stack(t) + HeapSize(t, vs[0]) + ItemsSize(t, vs[1..])
  }

  function EncStack(t: Ty, v: Val): Bytes
    requires Typed(t, v)
    decreases t, 0
  {
    match t
    case Unit => []
    case Scalar(w) => Le(w, v.n)
    case Tag(_) => [v.n]
    case Vec(e) => Le(4, ItemsSize(e, v.items))
    case Opt(_) => [if v.VSome? then 1 else 0]
    case Pair(a, b) => EncStack(a, v.first) + EncStack(b, v.second)
    case Enum(ts) => [v.tag] + Le(4, Stack(ts[v.tag]) + HeapSize(ts[v.tag], v.payload))
  }

  function EncHeap(t: Ty, v: Val): Bytes
    requires Typed(t, v)
    decreases t, 0
  {
    match t
    case Unit => []
    case Scalar(_) => []
    case Tag(_) => []
    case Vec(e) => EncItems(e, v.items)
    case Opt(e) => if v.VSome? then EncUnit(e, v.value) else []
    case Pair(a, b) => EncHeap(a, v.first) + EncHeap(b, v.second)
    case Enum(ts) => EncUnit(ts[v.tag], v.payload)
  }

  /** A self-contained unit: stack, then heap. */
  function EncUnit(t: Ty, v: Val): Bytes
    requires Typed(t, v)
    decreases t, 1
  {
    EncStack(t, v) + EncHeap(t, v)
  }

  function EncItems(t: Ty, vs: seq<Val>): Bytes
    requires forall i :: 0 <= i < |vs| ==> Typed(t, vs[i])
    decreases t, 2, |vs|
  {
    if vs == [] then [] else EncUnit(t, vs[0]) + EncItems(t, vs[1..])
  }

  // ---- Decoding ------------------------------------------------------------------------------------------

  datatype WireError = Eof | InvalidTag(tag: byte) | NoProgress

  /** A decoded value and what both cursors have left. */
  datatype Decoded = Done(value: Val, stack: Bytes, heap: Bytes) | Bad(error: WireError)

  datatype Items = Items(values: seq<Val>) | BadItems(error: WireError)

  function Decode(t: Ty, stack: Bytes, heap: Bytes): (r: Decoded)
    ensures r.Done? ==> |r.stack| <= |stack| && |r.heap| <= |heap|
    decreases t, 1
  {
    match t
    case Unit => Done(VUnit, stack, heap)
    case Scalar(w) => if |stack| < w then Bad(Eof) else Done(VNum(FromLe(stack[..w])), stack[w..], heap)
    case Tag(m) =>
      if stack == [] then Bad(Eof)
      else if stack[0] >= m then Bad(InvalidTag(stack[0]))
      else Done(VNum(stack[0]), stack[1..], heap)
    case Vec(e) => DecodeVec(e, stack, heap)
    case Opt(e) => DecodeOpt(e, stack, heap)
    case Pair(a, b) => DecodePair(a, b, stack, heap)
    case Enum(ts) => DecodeEnum(ts, stack, heap)
  }

  function DecodeVec(e: Ty, stack: Bytes, heap: Bytes): (r: Decoded)
    ensures r.Done? ==> |r.stack| <= |stack| && |r.heap| <= |heap|
    decreases e, 3
  {
    if |stack| < 4 || |heap| < FromLe(stack[..4]) then Bad(Eof)
    else
      var len := FromLe(stack[..4]);
      match DecodeItems(e, heap[..len])
      case BadItems(x) => Bad(x)
      case Items(vs) => Done(VSeq(vs), stack[4..], heap[len..])
  }

  function DecodeOpt(e: Ty, stack: Bytes, heap: Bytes): (r: Decoded)
    ensures r.Done? ==> |r.stack| <= |stack| && |r.heap| <= |heap|
    decreases e, 3
  {
    if stack == [] then Bad(Eof)
    else if stack[0] == 0 then Done(VNone, stack[1..], heap)
    else if |heap| < Stack(e) then Bad(Eof)
    else
      match Decode(e, heap[..Stack(e)], heap[Stack(e)..])
      case Bad(x) => Bad(x)
      case Done(v, _, rest) => Done(VSome(v), stack[1..], rest)
  }

  function DecodePair(a: Ty, b: Ty, stack: Bytes, heap: Bytes): (r: Decoded)
    ensures r.Done? ==> |r.stack| <= |stack| && |r.heap| <= |heap|
    decreases Pair(a, b), 0
  {
    match Decode(a, stack, heap)
    case Bad(x) => Bad(x)
    case Done(v, s, h) =>
      match Decode(b, s, h)
      case Bad(x) => Bad(x)
      case Done(w, s', h') => Done(VPair(v, w), s', h')
  }

  function DecodeEnum(ts: seq<Ty>, stack: Bytes, heap: Bytes): (r: Decoded)
    ensures r.Done? ==> |r.stack| <= |stack| && |r.heap| <= |heap|
    decreases Enum(ts), 0
  {
    if |stack| < 5 || |heap| < FromLe(stack[1..5]) then Bad(Eof)
    else
      var tag, len := stack[0], FromLe(stack[1..5]);
      if tag >= |ts| then Bad(InvalidTag(tag))
      else if len < Stack(ts[tag]) then Bad(Eof)
      else
        var payload := heap[..len];
        match Decode(ts[tag], payload[..Stack(ts[tag])], payload[Stack(ts[tag])..])
        case Bad(x) => Bad(x)
        case Done(v, _, _) => Done(VVar(tag, v), stack[5..], heap[len..])
  }

  /** The element loop over a region. An element that consumes nothing would never end; the model stops there. */
  function DecodeItems(t: Ty, region: Bytes): Items
    decreases t, 2, |region|
  {
    if region == [] then Items([])
    else if |region| < Stack(t) then BadItems(Eof)
    else
      match Decode(t, region[..Stack(t)], region[Stack(t)..])
      case Bad(x) => BadItems(x)
      case Done(v, _, rest) =>
        if |rest| >= |region| then BadItems(NoProgress)
        else
          match DecodeItems(t, rest)
          case BadItems(x) => BadItems(x)
          case Items(vs) => Items([v] + vs)
  }

  function ToWire(t: Ty, v: Val): Bytes
    requires Typed(t, v)
  {
    EncUnit(t, v)
  }

  function FromWire(t: Ty, bytes: Bytes): Decoded {
    if |bytes| < Stack(t) then Bad(Eof) else Decode(t, bytes[..Stack(t)], bytes[Stack(t)..])
  }

  // ---- What comes back -------------------------------------------------------------------------------------

  /** What decoding makes of a value: vectors of elements without a stack are emptied, all else is kept. */
  function Squash(t: Ty, v: Val): Val
    requires Typed(t, v)
    decreases t, 0
  {
    match t
    case Vec(e) => if Stack(e) == 0 then VSeq([]) else VSeq(SquashAll(e, v.items))
    case Opt(e) => if v.VSome? then VSome(Squash(e, v.value)) else v
    case Pair(a, b) => VPair(Squash(a, v.first), Squash(b, v.second))
    case Enum(ts) => VVar(v.tag, Squash(ts[v.tag], v.payload))
    case _ => v
  }

  function SquashAll(t: Ty, vs: seq<Val>): seq<Val>
    requires forall i :: 0 <= i < |vs| ==> Typed(t, vs[i])
    decreases t, 1, |vs|
  {
    if vs == [] then [] else [Squash(t, vs[0])] + SquashAll(t, vs[1..])
  }

  /** Every region length fits its 32-bit field. */
  ghost predicate Fits(t: Ty, v: Val)
    requires Typed(t, v)
    decreases t, 0
  {
    match t
    case Vec(e) => ItemsSize(e, v.items) < TWO32 && AllFit(e, v.items)
    case Opt(e) => v.VSome? ==> Fits(e, v.value)
    case Pair(a, b) => Fits(a, v.first) && Fits(b, v.second)
    case Enum(ts) => Stack(ts[v.tag]) + HeapSize(ts[v.tag], v.payload) < TWO32 && Fits(ts[v.tag], v.payload)
    case _ => true
  }

  ghost predicate AllFit(t: Ty, vs: seq<Val>)
    requires forall i :: 0 <= i < |vs| ==> Typed(t, vs[i])
    decreases t, 1, |vs|
  {
    vs == [] || (Fits(t, vs[0]) && AllFit(t, vs[1..]))
  }

  /** Both sections are as long as they say. */
  lemma {:induction false} Widths(t: Ty, v: Val)
    requires Typed(t, v)
    ensures |EncStack(t, v)| == Stack(t) && |EncHeap(t, v)| == HeapSize(t, v)
    ensures Stack(t) == 0 ==> EncHeap(t, v) == []
    decreases t, 0
  {
    match t
    case Pair(a, b) =>
      Widths(a, v.first);
      Widths(b, v.second);
    case Vec(e) => ItemsWidth(e, v.items);
    case Opt(e) => if v.VSome? { Widths(e, v.value); }
    case Enum(ts) => Widths(ts[v.tag], v.payload);
    case _ =>
  }

  lemma {:induction false} ItemsWidth(t: Ty, vs: seq<Val>)
    requires AllTyped(t, vs)
    ensures |EncItems(t, vs)| == ItemsSize(t, vs)
    decreases t, 1, |vs|
  {
    if vs != [] {
      Widths(t, vs[0]);
      ItemsWidth(t, vs[1..]);
    }
  }

  /** Decoding consumes exactly what encoding wrote, from both cursors, whatever follows. */
  lemma {:induction false} RoundTrip(t: Ty, v: Val, s: Bytes, h: Bytes)
    requires Typed(t, v) && Fits(t, v)
    ensures Decode(t, EncStack(t, v) + s, EncHeap(t, v) + h) == Done(Squash(t, v), s, h)
    decreases t, 1
  {
    match t
    case Unit => assert [] + s == s && [] + h == h;
    case Scalar(w) => ScalarTrip(w, v, s, h);
    case Tag(m) => TagTrip(m, v, s, h);
    case Vec(e) => VecTrip(e, v.items, s, h);
    case Opt(e) => OptTrip(e, v, s, h);
    case Pair(a, b) => PairTrip(a, b, v, s, h);
    case Enum(ts) => EnumTrip(ts, v, s, h);
  }

  lemma ScalarTrip(w: nat, v: Val, s: Bytes, h: Bytes)
    requires Typed(Scalar(w), v)
    ensures Decode(Scalar(w), EncStack(Scalar(w), v) + s, EncHeap(Scalar(w), v) + h) == Done(v, s, h)
  {
    FromLeOfLe(w, v.n);
    Sections(Le(w, v.n), s);
    assert [] + h == h;
  }

  lemma TagTrip(m: nat, v: Val, s: Bytes, h: Bytes)
    requires Typed(Tag(m), v)
    ensures Decode(Tag(m), EncStack(Tag(m), v) + s, EncHeap(Tag(m), v) + h) == Done(v, s, h)
  {
  }

  lemma {:induction false} PairTrip(a: Ty, b: Ty, v: Val, s: Bytes, h: Bytes)
    requires Typed(Pair(a, b), v) && Fits(Pair(a, b), v)
    ensures Decode(Pair(a, b), EncStack(Pair(a, b), v) + s, EncHeap(Pair(a, b), v) + h) == Done(Squash(Pair(a, b), v), s, h)
    decreases Pair(a, b), 0
  {
    Associate(EncStack(a, v.first), EncStack(b, v.second), s);
    Associate(EncHeap(a, v.first), EncHeap(b, v.second), h);
    RoundTrip(a, v.first, EncStack(b, v.second) + s, EncHeap(b, v.second) + h);
    RoundTrip(b, v.second, s, h);
  }

  lemma Sections(a: Bytes, b: Bytes)
    ensures (a + b)[..|a|] == a && (a + b)[|a|..] == b
  {
  }

  lemma Associate(a: Bytes, b: Bytes, c: Bytes)
    ensures (a + b) + c == a + (b + c)
  {
  }

  lemma {:induction false} VecTrip(e: Ty, vs: seq<Val>, s: Bytes, h: Bytes)
    requires Typed(Vec(e), VSeq(vs)) && Fits(Vec(e), VSeq(vs))
    ensures Decode(Vec(e), EncStack(Vec(e), VSeq(vs)) + s, EncHeap(Vec(e), VSeq(vs)) + h)
            == Done(Squash(Vec(e), VSeq(vs)), s, h)
    decreases Vec(e), 0
  {
    ItemsWidth(e, vs);
    RegionTrip(e, vs);
    VecDecodes(e, EncItems(e, vs), s, h, Squash(Vec(e), VSeq(vs)).items);
  }

  lemma {:induction false} RegionTrip(e: Ty, vs: seq<Val>)
    requires AllTyped(e, vs) && AllFit(e, vs)
    ensures DecodeItems(e, EncItems(e, vs)) == Items(if Stack(e) == 0 then [] else SquashAll(e, vs))
    decreases e, 3
  {
    if Stack(e) == 0 { NoRegion(e, vs); } else { ItemsTrip(e, vs); }
  }

  /** A region behind its length decodes to the vector of its elements. */
  lemma VecDecodes(e: Ty, region: Bytes, s: Bytes, h: Bytes, vs: seq<Val>)
    requires |region| < TWO32 && DecodeItems(e, region) == Items(vs)
    ensures DecodeVec(e, Le(4, |region|) + s, region + h) == Done(VSeq(vs), s, h)
  {
    FourBytes();
    FromLeOfLe(4, |region|);
    Sections(Le(4, |region|), s);
    Sections(region, h);
  }

  lemma {:induction false} NoRegion(t: Ty, vs: seq<Val>)
    requires Stack(t) == 0 && forall i :: 0 <= i < |vs| ==> Typed(t, vs[i])
    ensures EncItems(t, vs) == []
    decreases |vs|
  {
    if vs != [] {
      Widths(t, vs[0]);
      NoRegion(t, vs[1..]);
    }
  }

  lemma {:induction false} ItemsTrip(t: Ty, vs: seq<Val>)
    requires Stack(t) > 0 && (forall i :: 0 <= i < |vs| ==> Typed(t, vs[i])) && AllFit(t, vs)
    ensures DecodeItems(t, EncItems(t, vs)) == Items(SquashAll(t, vs))
    decreases t, 2, |vs|
  {
    if vs != [] {
      var stack, heap, rest := EncStack(t, vs[0]), EncHeap(t, vs[0]), EncItems(t, vs[1..]);
      Widths(t, vs[0]);
      Associate(stack, heap, rest);
      Sections(stack, heap + rest);
      assert stack + [] == stack;
      RoundTrip(t, vs[0], [], rest);
      ItemsTrip(t, vs[1..]);
    }
  }

  lemma {:induction false} OptTrip(e: Ty, v: Val, s: Bytes, h: Bytes)
    requires Typed(Opt(e), v) && Fits(Opt(e), v)
    ensures Decode(Opt(e), EncStack(Opt(e), v) + s, EncHeap(Opt(e), v) + h) == Done(Squash(Opt(e), v), s, h)
    decreases Opt(e), 0
  {
    Sections([if v.VSome? then 1 else 0], s);
    if v.VSome? {
      var stack, heap := EncStack(e, v.value), EncHeap(e, v.value);
      Widths(e, v.value);
      Associate(stack, heap, h);
      Sections(stack, heap + h);
      assert stack + [] == stack;
      RoundTrip(e, v.value, [], h);
    } else {
      assert [] + h == h;
    }
  }

  lemma {:induction false} EnumTrip(ts: seq<Ty>, v: Val, s: Bytes, h: Bytes)
    requires Typed(Enum(ts), v) && Fits(Enum(ts), v)
    ensures Decode(Enum(ts), EncStack(Enum(ts), v) + s, EncHeap(Enum(ts), v) + h) == Done(Squash(Enum(ts), v), s, h)
    decreases Enum(ts), 0
  {
    UnitTrip(ts[v.tag], v.payload);
    EnumDecodes(ts, v.tag, EncUnit(ts[v.tag], v.payload), s, h, Squash(ts[v.tag], v.payload));
  }

  /** A self-contained unit decodes on its own. */
  lemma {:induction false} UnitTrip(t: Ty, v: Val)
    requires Typed(t, v) && Fits(t, v)
    ensures |EncUnit(t, v)| == Stack(t) + HeapSize(t, v)
    ensures Decode(t, EncUnit(t, v)[..Stack(t)], EncUnit(t, v)[Stack(t)..]) == Done(Squash(t, v), [], [])
    decreases t, 2
  {
    var stack, heap := EncStack(t, v), EncHeap(t, v);
    Widths(t, v);
    Sections(stack, heap);
    assert stack + [] == stack && heap + [] == heap;
    RoundTrip(t, v, [], []);
  }

  /** A tag, a payload length and the payload unit decode to the variant. */
  lemma EnumDecodes(ts: seq<Ty>, tag: byte, unit: Bytes, s: Bytes, h: Bytes, v: Val)
    requires tag < |ts| && Stack(ts[tag]) <= |unit| < TWO32
    requires Decode(ts[tag], unit[..Stack(ts[tag])], unit[Stack(ts[tag])..]) == Done(v, [], [])
    ensures DecodeEnum(ts, [tag] + Le(4, |unit|) + s, unit + h) == Done(VVar(tag, v), s, h)
  {
    FourBytes();
    FromLeOfLe(4, |unit|);
    Header(tag, Le(4, |unit|), s);
    Sections(unit, h);
  }

  lemma Header(tag: byte, len: Bytes, s: Bytes)
    requires |len| == 4
    ensures var head := [tag] + len + s; head[0] == tag && head[1..5] == len && head[5..] == s
  {
  }

  // ---- Exactly when nothing is lost -----------------------------------------------------------------------------

  /** No vector holds elements that take no room on the wire. */
  ghost predicate Clean(t: Ty, v: Val)
    requires Typed(t, v)
    decreases t, 0
  {
    match t
    case Vec(e) => (Stack(e) == 0 ==> v.items == []) && AllClean(e, v.items)
    case Opt(e) => v.VSome? ==> Clean(e, v.value)
    case Pair(a, b) => Clean(a, v.first) && Clean(b, v.second)
    case Enum(ts) => Clean(ts[v.tag], v.payload)
    case _ => true
  }

  ghost predicate AllClean(t: Ty, vs: seq<Val>)
    requires forall i :: 0 <= i < |vs| ==> Typed(t, vs[i])
    decreases t, 1, |vs|
  {
    vs == [] || (Clean(t, vs[0]) && AllClean(t, vs[1..]))
  }

  lemma {:induction false} SquashKeepsIff(t: Ty, v: Val)
    requires Typed(t, v)
    ensures Squash(t, v) == v <==> Clean(t, v)
    decreases t, 0
  {
    match t
    case Vec(e) => SquashAllKeepsIff(e, v.items);
    case Opt(e) => if v.VSome? { SquashKeepsIff(e, v.value); }
    case Pair(a, b) =>
      SquashKeepsIff(a, v.first);
      SquashKeepsIff(b, v.second);
    case Enum(ts) => SquashKeepsIff(ts[v.tag], v.payload);
    case _ =>
  }

  lemma {:induction false} SquashAllKeepsIff(t: Ty, vs: seq<Val>)
    requires forall i :: 0 <= i < |vs| ==> Typed(t, vs[i])
    ensures SquashAll(t, vs) == vs <==> AllClean(t, vs)
    decreases t, 1, |vs|
  {
    if vs != [] {
      SquashKeepsIff(t, vs[0]);
      SquashAllKeepsIff(t, vs[1..]);
      assert vs == [vs[0]] + vs[1..];
      assert SquashAll(t, vs)[0] == Squash(t, vs[0]) && SquashAll(t, vs)[1..] == SquashAll(t, vs[1..]);
    }
  }

  // ---- Whatever the bytes -----------------------------------------------------------------------------------------

  /** A value that takes at most `room` heap bytes and can survive the wire. */
  ghost predicate Sound(t: Ty, v: Val, room: int) {
    Typed(t, v) && Clean(t, v) && Fits(t, v) && HeapSize(t, v) <= room
  }

  ghost predicate AllTyped(t: Ty, vs: seq<Val>) {
    forall i :: 0 <= i < |vs| ==> Typed(t, vs[i])
  }

  ghost predicate AllSound(t: Ty, vs: seq<Val>, room: int) {
    && AllTyped(t, vs) && AllClean(t, vs) && AllFit(t, vs) && ItemsSize(t, vs) <= room
    && (Stack(t) == 0 ==> vs == [])
  }

  /** A type without a stack has no heap either. */
  lemma {:induction false} NoStackNoHeap(t: Ty, stack: Bytes, heap: Bytes)
    requires Stack(t) == 0
    ensures Decode(t, stack, heap).Done? ==> Decode(t, stack, heap).heap == heap
    decreases t
  {
    match t
    case Pair(a, b) =>
      NoStackNoHeap(a, stack, heap);
      var first := Decode(a, stack, heap);
      if first.Done? { NoStackNoHeap(b, first.stack, first.heap); }
    case _ =>
  }

  /** The element loop stops for want of progress only at elements that take no room. */
  lemma ProgressIff(t: Ty, region: Bytes)
    requires region != [] && |region| >= Stack(t)
    ensures var r := Decode(t, region[..Stack(t)], region[Stack(t)..]);
            r.Done? ==> (|r.heap| < |region| <==> Stack(t) > 0)
  {
    if Stack(t) == 0 { NoStackNoHeap(t, region[..0], region[0..]); }
  }

  /** Decoding any bytes at all gives an error, or a value of the type that survives the wire and takes no more room
      than was consumed. */
  lemma {:induction false} DecodesSound(t: Ty, stack: Bytes, heap: Bytes)
    ensures var r := Decode(t, stack, heap); r.Done? ==> Sound(t, r.value, |heap| - |r.heap|)
    decreases t, 1
  {
    match t
    case Scalar(w) => if |stack| >= w { LeOfFromLe(stack[..w]); }
    case Vec(e) => VecSound(e, stack, heap);
    case Opt(e) => if |heap| >= Stack(e) { DecodesSound(e, heap[..Stack(e)], heap[Stack(e)..]); }
    case Pair(a, b) =>
      DecodesSound(a, stack, heap);
      var first := Decode(a, stack, heap);
      if first.Done? { DecodesSound(b, first.stack, first.heap); }
    case Enum(ts) => EnumSound(ts, stack, heap);
    case _ =>
  }

  lemma LengthFits(bs: Bytes)
    requires |bs| == 4
    ensures FromLe(bs) < TWO32
  {
    FourBytes();
    LeOfFromLe(bs);
  }

  lemma {:induction false} VecSound(e: Ty, stack: Bytes, heap: Bytes)
    ensures var r := DecodeVec(e, stack, heap); r.Done? ==> Sound(Vec(e), r.value, |heap| - |r.heap|)
    decreases Vec(e), 0
  {
    if |stack| >= 4 && |heap| >= FromLe(stack[..4]) {
      LengthFits(stack[..4]);
      ItemsSound(e, heap[..FromLe(stack[..4])]);
    }
  }

  lemma {:induction false} EnumSound(ts: seq<Ty>, stack: Bytes, heap: Bytes)
    ensures var r := DecodeEnum(ts, stack, heap); r.Done? ==> Sound(Enum(ts), r.value, |heap| - |r.heap|)
    decreases Enum(ts), 0
  {
    if DecodeEnum(ts, stack, heap).Done? {
      LengthFits(stack[1..5]);
      var t, payload := ts[stack[0]], heap[..FromLe(stack[1..5])];
      DecodesSound(t, payload[..Stack(t)], payload[Stack(t)..]);
    }
  }

  lemma SoundFirst(t: Ty, v: Val, vs: seq<Val>, room: int, rest: int)
    requires Sound(t, v, room) && AllSound(t, vs, rest) && Stack(t) > 0
    ensures AllSound(t, [v] + vs, Stack(t) + room + rest)
  {
    assert ([v] + vs)[1..] == vs;
  }

  lemma {:induction false} ItemsSound(t: Ty, region: Bytes)
    ensures DecodeItems(t, region).Items? ==> AllSound(t, DecodeItems(t, region).values, |region|)
    decreases t, 2, |region|
  {
    if region != [] && |region| >= Stack(t) {
      ProgressIff(t, region);
      DecodesSound(t, region[..Stack(t)], region[Stack(t)..]);
      var first := Decode(t, region[..Stack(t)], region[Stack(t)..]);
      if first.Done? && |first.heap| < |region| {
        ItemsSound(t, first.heap);
        var rest := DecodeItems(t, first.heap);
        if rest.Items? {
          SoundFirst(t, first.value, rest.values, |region| - Stack(t) - |first.heap|, |first.heap|);
          assert DecodeItems(t, region).values == [first.value] + rest.values;
        }
      }
    }
  }

  /** Decoding takes exactly the type's stack from the stack cursor, and refuses a shorter one. */
  lemma {:induction false} DecodeConsumes(t: Ty, stack: Bytes, heap: Bytes)
    ensures var r := Decode(t, stack, heap); r.Done? ==> |r.stack| + Stack(t) == |stack|
    ensures |stack| < Stack(t) ==> Decode(t, stack, heap).Bad?
    decreases t
  {
    match t
    case Pair(a, b) =>
      DecodeConsumes(a, stack, heap);
      var first := Decode(a, stack, heap);
      if first.Done? { DecodeConsumes(b, first.stack, first.heap); }
    case _ =>
  }

  /** A tag byte past the last is refused by name. */
  lemma OddTag(m: nat, b: byte, s: Bytes, h: Bytes)
    requires b >= m
    ensures Decode(Tag(m), [b] + s, h) == Bad(InvalidTag(b))
  {
  }

  lemma OddVariant(ts: seq<Ty>, b: byte, s: Bytes, h: Bytes)
    requires b >= |ts| && |s| >= 4 && FromLe(s[..4]) <= |h|
    ensures Decode(Enum(ts), [b] + s, h) == Bad(InvalidTag(b))
  {
    assert ([b] + s)[1..5] == s[..4];
  }

  /** An option takes any other byte than zero for a one. */
  lemma OddOption(t: Ty, b: byte, s: Bytes, h: Bytes)
    requires b != 0
    ensures Decode(Opt(t), [b] + s, h) == Decode(Opt(t), [1] + s, h)
  {
    assert ([b] + s)[1..] == s && ([1] + s)[1..] == s;
  }

  // ---- Exactly the values that survive ----------------------------------------------------------------------------

  /** The two cursors give a value back, and nothing else, exactly when it has no vector of elements of zero size and
      no region whose length overflows its 32-bit field. */
  lemma RoundTripIff(t: Ty, v: Val, s: Bytes, h: Bytes)
    requires Typed(t, v)
    ensures Decode(t, EncStack(t, v) + s, EncHeap(t, v) + h) == Done(v, s, h) <==> Clean(t, v) && Fits(t, v)
  {
    SquashKeepsIff(t, v);
    DecodesSound(t, EncStack(t, v) + s, EncHeap(t, v) + h);
    if Fits(t, v) { RoundTrip(t, v, s, h); }
  }

  /** The same of a whole message, whose length is always the stack and heap sizes. */
  lemma SurvivesIff(t: Ty, v: Val)
    requires Typed(t, v)
    ensures |ToWire(t, v)| == Stack(t) + HeapSize(t, v)
    ensures FromWire(t, ToWire(t, v)) == Done(v, [], []) <==> Clean(t, v) && Fits(t, v)
    ensures Fits(t, v) ==> FromWire(t, ToWire(t, v)) == Done(Squash(t, v), [], [])
  {
    Widths(t, v);
    Sections(EncStack(t, v), EncHeap(t, v));
    assert EncStack(t, v) + [] == EncStack(t, v) && EncHeap(t, v) + [] == EncHeap(t, v);
    RoundTripIff(t, v, [], []);
    if Fits(t, v) { RoundTrip(t, v, [], []); }
  }

  /** One unit value in a vector, and it is gone. */
  lemma UnitVectorVanishes()
    ensures FromWire(Vec(Unit), ToWire(Vec(Unit), VSeq([VUnit]))) == Done(VSeq([]), [], [])
  {
    var v := VSeq([VUnit]);
    assert v.items[1..] == [];
    assert ItemsSize(Unit, v.items) == 0;
    assert AllFit(Unit, v.items);
    SurvivesIff(Vec(Unit), v);
  }

  lemma {:induction false} ScalarItems(w: nat, vs: seq<Val>)
    requires AllTyped(Scalar(w), vs)
    ensures ItemsSize(Scalar(w), vs) == w * |vs| && AllFit(Scalar(w), vs) && AllClean(Scalar(w), vs)
  {
    if vs != [] {
      assert AllTyped(Scalar(w), vs[1..]);
      ScalarItems(w, vs[1..]);
      assert w * |vs| == w + w * |vs[1..]|;
    }
  }

  lemma ZeroBytes(n: nat)
    ensures Le(n, 0) == seq(n, _ => 0)
  {
  }

  lemma LengthWraps(heap: Bytes)
    ensures Le(4, TWO32) == Le(4, 0)
    ensures DecodeVec(Scalar(1), Le(4, TWO32), heap) == Done(VSeq([]), [], heap)
  {
    assert Le(4, TWO32) == [0] + Le(3, TWO32 / 256);
    assert Le(3, TWO32 / 256) == [0] + Le(2, TWO32 / 256 / 256);
    assert Le(2, 0x1_0000) == [0] + Le(1, 0x100);
    assert Le(1, 0x100) == [0] + Le(0, 1);
    ZeroBytes(4);
    assert Le(4, TWO32) == Le(4, 0);
    FourBytes();
    FromLeOfLe(4, 0);
    assert Le(4, 0)[..4] == Le(4, 0) && Le(4, 0)[4..] == [];
    assert heap[..0] == [] && heap[0..] == heap;
  }

  const BYTES: Ty := Vec(Scalar(1))

  /** A byte string survives exactly when it is shorter than 4 GiB. */
  lemma ByteStringSurvivesIff(vs: seq<Val>)
    requires AllTyped(Scalar(1), vs)
    ensures FromWire(BYTES, ToWire(BYTES, VSeq(vs))) == Done(VSeq(vs), [], []) <==> |vs| < TWO32
  {
    ScalarItems(1, vs);
    SurvivesIff(BYTES, VSeq(vs));
  }

  /** One of exactly 4 GiB comes back empty: its length reads as zero and its bytes are left over. */
  lemma FourGibibytesVanish(vs: seq<Val>)
    requires AllTyped(Scalar(1), vs) && |vs| == TWO32
    ensures FromWire(BYTES, ToWire(BYTES, VSeq(vs))) == Done(VSeq([]), [], EncItems(Scalar(1), vs))
  {
    ScalarItems(1, vs);
    var heap := EncItems(Scalar(1), vs);
    assert ToWire(BYTES, VSeq(vs)) == Le(4, TWO32) + heap;
    Sections(Le(4, TWO32), heap);
    LengthWraps(heap);
  }
}
