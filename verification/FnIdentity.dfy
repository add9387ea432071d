/** The composed identity of a server function: its name and its signature's type tags, folded by a 64-bit mixer.

    Words are integers below 2^64: a wrapping product is reduced explicitly, a right shift is a division and an
    exclusive or is defined bit by bit. */
module FnIdentity {
  import opened Ids

  const FN_DOMAIN: u64 := 0xF7A5_11D3_0C4B_9E21
  const VEC_KIND: u64 := 0xC017_0000_0000_0001
  const OPTION_KIND: u64 := 0xC017_0000_0000_0002
  const ARRAY_KIND: u64 := 0xC017_0000_0000_0003
  const STREAM_KIND: u64 := 0xC017_0000_0000_0004
  const TUPLE_SEED: u64 := 0xD00F_0000_0000_0000

  // ---- Exclusive or -------------------------------------------------------------------------------------

  function Xor(a: nat, b: nat): nat
    decreases a + b
  {
    if a == 0 && b == 0 then 0 else 2 * Xor(a / 2, b / 2) + (a + b) % 2
  }

  function Pow2(n: nat): (p: nat)
    ensures p > 0 && (n > 0 ==> p > 1)
  {
    if n == 0 then 1 else 2 * Pow2(n - 1)
  }

  lemma {:induction false} XorCommutes(a: nat, b: nat)
    ensures Xor(a, b) == Xor(b, a)
    decreases a + b
  {
    if a + b > 0 { XorCommutes(a / 2, b / 2); }
  }

  lemma {:induction false} XorCancels(a: nat, b: nat)
    ensures Xor(Xor(a, b), b) == a
    decreases a + b
  {
    if a + b > 0 {
      XorCancels(a / 2, b / 2);
      var x := Xor(a, b);
      XorBits(a, b);
      XorBits(x, b);
      Parity(a, b, x);
    }
  }

  lemma XorBits(a: nat, b: nat)
    ensures Xor(a, b) == 2 * Xor(a / 2, b / 2) + (a + b) % 2
    ensures Xor(a, b) / 2 == Xor(a / 2, b / 2) && Xor(a, b) % 2 == (a + b) % 2
  {
  }

  lemma Parity(a: nat, b: nat, x: nat)
    requires x % 2 == (a + b) % 2
    ensures (x + b) % 2 == a % 2
  {
  }

  lemma {:induction false} XorFits(a: nat, b: nat, n: nat)
    requires a < Pow2(n) && b < Pow2(n)
    ensures Xor(a, b) < Pow2(n)
  {
    if n > 0 && a + b > 0 { XorFits(a / 2, b / 2, n - 1); }
  }

  /** `a >> s`. */
  function Shr(a: nat, s: nat): nat {
    if s == 0 then a else Shr(a / 2, s - 1)
  }

  lemma {:induction false} XorShifts(a: nat, b: nat, s: nat)
    ensures Shr(Xor(a, b), s) == Xor(Shr(a, s), Shr(b, s))
    decreases s
  {
    if s > 0 {
      XorShifts(a / 2, b / 2, s - 1);
      assert Xor(a, b) / 2 == Xor(a / 2, b / 2);
    }
  }

  lemma {:induction false} ShrSmaller(a: nat, s: nat)
    ensures Shr(a, s) <= a && (s > 0 && a > 0 ==> Shr(a, s) < a)
    decreases s
  {
    if s > 0 { ShrSmaller(a / 2, s - 1); }
  }

  lemma SixtyFour()
    ensures Pow2(64) == TWO64
  {
    assert Pow2(4) == 0x10;
    assert Pow2(8) == 0x100;
    assert Pow2(12) == 0x1000;
    assert Pow2(16) == 0x10000;
    assert Pow2(20) == 0x100000;
    assert Pow2(24) == 0x1000000;
    assert Pow2(28) == 0x10000000;
    assert Pow2(32) == 0x100000000;
    assert Pow2(36) == 0x1000000000;
    assert Pow2(40) == 0x10000000000;
    assert Pow2(44) == 0x100000000000;
    assert Pow2(48) == 0x1000000000000;
    assert Pow2(52) == 0x10000000000000;
    assert Pow2(56) == 0x100000000000000;
    assert Pow2(60) == 0x1000000000000000;
  }

  function XorWord(a: u64, b: u64): u64 {
    SixtyFour();
    XorFits(a, b, 64);
    Xor(a, b)
  }

  // ---- Each stage of the mixer and its inverse -----------------------------------------------------------------

  /** `z ^ (z >> s)`. */
  function Fold(z: nat, s: nat): nat {
    Xor(z, Shr(z, s))
  }

  function Unfold(y: nat, s: nat): nat
    requires s > 0
  {
    if y == 0 then 0 else ShrSmaller(y, s); Xor(y, Unfold(Shr(y, s), s))
  }

  lemma {:induction false} UnfoldFold(z: nat, s: nat)
    requires s > 0
    ensures Unfold(Fold(z, s), s) == z
    decreases z
  {
    ShrSmaller(z, s);
    assert Xor(0, 0) == 0;
    if z > 0 {
      var w := Shr(z, s);
      UnfoldFold(w, s);
      XorShifts(z, w, s);
      XorCancels(z, w);
      if Fold(z, s) == 0 { ZeroFold(z, s); }
    }
  }

  lemma ZeroFold(z: nat, s: nat)
    requires s > 0 && Fold(z, s) == 0
    ensures z == 0
  {
    XorCancels(z, Shr(z, s));
    XorZero(Shr(z, s));
    XorCommutes(0, Shr(z, s));
    if z > 0 { ShrSmaller(z, s); }
  }

  lemma {:induction false} XorZero(a: nat)
    ensures Xor(a, 0) == a
  {
    if a > 0 { XorZero(a / 2); }
  }

  lemma {:induction false} UnfoldShifts(y: nat, s: nat)
    requires s > 0
    ensures Shr(Unfold(y, s), s) == Unfold(Shr(y, s), s)
    decreases y
  {
    ShrSmaller(y, s);
    if y > 0 {
      var w := Shr(y, s);
      UnfoldShifts(w, s);
      XorShifts(y, Unfold(w, s), s);
      ShrSmaller(0, s);
      assert Xor(0, 0) == 0;
    }
  }

  lemma FoldUnfold(y: nat, s: nat)
    requires s > 0
    ensures Fold(Unfold(y, s), s) == y
  {
    UnfoldShifts(y, s);
    ShrSmaller(0, s);
    assert Xor(0, 0) == 0;
    if y > 0 { XorCancels(y, Unfold(Shr(y, s), s)); }
  }

  lemma FoldFits(z: u64, s: nat)
    ensures Fold(z, s) < TWO64
  {
    SixtyFour();
    ShrSmaller(z, s);
    XorFits(z, Shr(z, s), 64);
  }

  lemma {:induction false} UnfoldFits(y: nat, s: nat)
    requires s > 0 && y < TWO64
    ensures Unfold(y, s) < TWO64
    decreases y
  {
    if y > 0 {
      ShrSmaller(y, s);
      UnfoldFits(Shr(y, s), s);
      SixtyFour();
      XorFits(y, Unfold(Shr(y, s), s), 64);
    }
  }

  function WrappingMul(a: u64, b: u64): u64 {
    (a * b) % TWO64
  }

  function WrappingAdd(a: u64, b: u64): u64 {
    if a + b < TWO64 then a + b else a + b - TWO64
  }

  /** Multiplying by a word and then by its inverse modulo 2^64 changes nothing. */
  lemma MulUndone(x: u64, c: u64, d: u64, t: nat)
    requires c * d == 1 + t * TWO64
    ensures WrappingMul(WrappingMul(x, c), d) == x
  {
    var q, r := (x * c) / TWO64, (x * c) % TWO64;
    assert x * c == TWO64 * q + r;
    assert r * d == x * (c * d) - TWO64 * (q * d);
    assert x * (1 + t * TWO64) == x + TWO64 * (x * t);
    assert r * d == x + TWO64 * (x * t - q * d);
    Residue(r * d, x, x * t - q * d);
  }

  lemma Residue(a: nat, x: u64, k: int)
    requires a == x + TWO64 * k
    ensures a % TWO64 == x
  {
  }

  // ---- The mixer --------------------------------------------------------------------------------------------

  const GOLDEN: u64 := 0x9E37_79B9_7F4A_7C15
  const C1: u64 := 0xBF58_476D_1CE4_E5B9
  const C2: u64 := 0x94D0_49BB_1331_11EB
  const D1: u64 := 0x96DE_1B17_3F11_9089
  const D2: u64 := 0x3196_42B2_D24D_8EC3

  /** `mix`: the SplitMix64 finalizer. */
  function Mix(z: u64): u64 {
    var z0 := WrappingAdd(z, GOLDEN);
    FoldFits(z0, 30);
    var z1 := WrappingMul(Fold(z0, 30), C1);
    FoldFits(z1, 27);
    var z2 := WrappingMul(Fold(z1, 27), C2);
    FoldFits(z2, 31);
    Fold(z2, 31)
  }

  function Unmix(y: u64): u64 {
    UnfoldFits(y, 31);
    var z2 := Unfold(y, 31);
    var y1 := WrappingMul(z2, D2);
    UnfoldFits(y1, 27);
    var z1 := Unfold(y1, 27);
    var y0 := WrappingMul(z1, D1);
    UnfoldFits(y0, 30);
    WrappingAdd(Unfold(y0, 30), TWO64 - GOLDEN)
  }

  lemma Inverses()
    ensures C1 * D1 == 1 + (C1 * D1 / TWO64) * TWO64 && C2 * D2 == 1 + (C2 * D2 / TWO64) * TWO64
  {
  }

  lemma AddUndone(x: u64, c: u64)
    requires c > 0
    ensures WrappingAdd(WrappingAdd(x, c), TWO64 - c) == x && WrappingAdd(WrappingAdd(x, TWO64 - c), c) == x
  {
  }

  /** The mixer loses nothing. */
  lemma UnmixMix(z: u64)
    ensures Unmix(Mix(z)) == z
  {
    Inverses();
    var z0 := WrappingAdd(z, GOLDEN);
    FoldFits(z0, 30);
    var z1 := WrappingMul(Fold(z0, 30), C1);
    FoldFits(z1, 27);
    var z2 := WrappingMul(Fold(z1, 27), C2);
    FoldFits(z2, 31);
    UnfoldFold(z2, 31);
    MulUndone(Fold(z1, 27), C2, D2, C2 * D2 / TWO64);
    UnfoldFold(z1, 27);
    MulUndone(Fold(z0, 30), C1, D1, C1 * D1 / TWO64);
    UnfoldFold(z0, 30);
    AddUndone(z, GOLDEN);
  }

  /** And reaches everything: `mix` is a bijection on 64-bit words. */
  lemma MixUnmix(y: u64)
    ensures Mix(Unmix(y)) == y
  {
    Inverses();
    UnfoldFits(y, 31);
    var z2 := Unfold(y, 31);
    var y1 := WrappingMul(z2, D2);
    UnfoldFits(y1, 27);
    var z1 := Unfold(y1, 27);
    var y0 := WrappingMul(z1, D1);
    UnfoldFits(y0, 30);
    var z0 := Unfold(y0, 30);
    AddUndone(z0, GOLDEN);
    FoldUnfold(y0, 30);
    MulUndone(z1, D1, C1, C1 * D1 / TWO64);
    FoldUnfold(y1, 27);
    MulUndone(z2, D2, C2, C2 * D2 / TWO64);
    FoldUnfold(y, 31);
  }

  lemma MixInjective(a: u64, b: u64)
    ensures Mix(a) == Mix(b) ==> a == b
  {
    UnmixMix(a);
    UnmixMix(b);
  }

  lemma XorWordInjective(a: u64, a': u64, b: u64)
    ensures XorWord(a, b) == XorWord(a', b) ==> a == a'
    ensures XorWord(b, a) == XorWord(b, a') ==> a == a'
  {
    XorCancels(a, b);
    XorCancels(a', b);
    XorCommutes(a, b);
    XorCommutes(a', b);
  }

  // ---- Composition --------------------------------------------------------------------------------------------

  function Absorb(h: u64, parts: seq<u64>): u64 {
    if parts == [] then h else Mix(XorWord(Absorb(h, parts[..|parts| - 1]), parts[|parts| - 1]))
  }

  function Compose(seed: u64, parts: seq<u64>): u64 {
    Absorb(Mix(XorWord(seed, FN_DOMAIN)), parts)
  }

  lemma AbsorbNext(h: u64, parts: seq<u64>, i: nat)
    requires i < |parts|
    ensures Absorb(h, parts[..i + 1]) == Mix(XorWord(Absorb(h, parts[..i]), parts[i]))
  {
    assert parts[..i + 1][..i] == parts[..i];
  }

  /** `compose`, as the loop it is. */
  method ComposeLoop(seed: u64, parts: seq<u64>) returns (h: u64)
    ensures h == Compose(seed, parts)
  {
    h := Mix(XorWord(seed, FN_DOMAIN));
    ghost var start := h;
    var i := 0;
    while i < |parts|
      invariant 0 <= i <= |parts| && h == Absorb(start, parts[..i])
    {
      AbsorbNext(start, parts, i);
      h := Mix(XorWord(h, parts[i]));
      i := i + 1;
    }
    assert parts[..|parts|] == parts;
  }

  function Container(kind: u64, element: u64): u64 {
    Mix(XorWord(Mix(XorWord(kind, FN_DOMAIN)), element))
  }

  lemma {:induction false} AbsorbInjective(h: u64, h': u64, parts: seq<u64>, parts': seq<u64>, i: nat)
    requires |parts| == |parts'|
    requires (h != h' && parts == parts') || (h == h' && i < |parts| && parts' == parts[i := parts'[i]] && parts[i] != parts'[i])
    ensures Absorb(h, parts) != Absorb(h', parts')
  {
    if parts != [] {
      var n := |parts| - 1;
      var p, p' := Absorb(h, parts[..n]), Absorb(h', parts'[..n]);
      MixInjective(XorWord(p, parts[n]), XorWord(p', parts'[n]));
      if h == h' && i == n {
        assert parts[..n] == parts'[..n];
        XorWordInjective(parts[n], parts'[n], p);
      } else {
        assert h == h' ==> parts'[..n] == parts[..n][i := parts'[..n][i]];
        AbsorbInjective(h, h', parts[..n], parts'[..n], i);
        XorWordInjective(p, p', parts[n]);
      }
    }
  }

  lemma {:induction false} AbsorbAppend(h: u64, p: seq<u64>, q: seq<u64>)
    ensures Absorb(h, p + q) == Absorb(Absorb(h, p), q)
    decreases |q|
  {
    if q == [] {
      assert p + q == p;
    } else {
      assert (p + q)[..|p + q| - 1] == p + q[..|q| - 1];
      AbsorbAppend(h, p, q[..|q| - 1]);
    }
  }

  lemma AbsorbTwo(h: u64, a: u64, middle: seq<u64>, b: u64)
    ensures Absorb(h, [a] + middle + [b]) == Mix(XorWord(Absorb(Mix(XorWord(h, a)), middle), b))
  {
    assert [a][..0] == [];
    assert Absorb(h, [a]) == Mix(XorWord(Absorb(h, []), a));
    AbsorbAppend(h, [a], middle);
    assert ([a] + middle + [b])[..|middle| + 1] == [a] + middle;
  }

  /** Order matters: swapping two parts leaves the composition as it was only if, from the state before them, what the
      first and the parts between leave differs from its counterpart by exactly the two words. */
  lemma SwapComposesIff(seed: u64, front: seq<u64>, a: u64, middle: seq<u64>, b: u64, back: seq<u64>)
    ensures Compose(seed, front + ([a] + middle + [b]) + back) == Compose(seed, front + ([b] + middle + [a]) + back) <==>
            var h := Compose(seed, front);
            XorWord(Absorb(Mix(XorWord(h, a)), middle), b) == XorWord(Absorb(Mix(XorWord(h, b)), middle), a)
  {
    var start, h := Mix(XorWord(seed, FN_DOMAIN)), Compose(seed, front);
    AbsorbAppend(start, front, [a] + middle + [b]);
    AbsorbAppend(start, front, [b] + middle + [a]);
    AbsorbAppend(start, front + ([a] + middle + [b]), back);
    AbsorbAppend(start, front + ([b] + middle + [a]), back);
    AbsorbTwo(h, a, middle, b);
    AbsorbTwo(h, b, middle, a);
    var x, y := XorWord(Absorb(Mix(XorWord(h, a)), middle), b), XorWord(Absorb(Mix(XorWord(h, b)), middle), a);
    MixInjective(x, y);
    if Mix(x) != Mix(y) { AbsorbInjective(Mix(x), Mix(y), back, back, 0); }
  }

  /** A composed identity depends on its seed and on every part, one at a time. */
  lemma ComposeInjective(seed: u64, seed': u64, parts: seq<u64>, parts': seq<u64>, i: nat)
    requires |parts| == |parts'|
    requires (seed != seed' && parts == parts')
             || (seed == seed' && i < |parts| && parts' == parts[i := parts'[i]] && parts[i] != parts'[i])
    ensures Compose(seed, parts) != Compose(seed', parts')
  {
    XorWordInjective(seed, seed', FN_DOMAIN);
    MixInjective(XorWord(seed, FN_DOMAIN), XorWord(seed', FN_DOMAIN));
    AbsorbInjective(Mix(XorWord(seed, FN_DOMAIN)), Mix(XorWord(seed', FN_DOMAIN)), parts, parts', i);
  }

  lemma ContainerInjective(kind: u64, kind': u64, element: u64, element': u64)
    requires (kind == kind') != (element == element')
    ensures Container(kind, element) != Container(kind', element')
  {
    var k, k' := Mix(XorWord(kind, FN_DOMAIN)), Mix(XorWord(kind', FN_DOMAIN));
    XorWordInjective(kind, kind', FN_DOMAIN);
    MixInjective(XorWord(kind, FN_DOMAIN), XorWord(kind', FN_DOMAIN));
    XorWordInjective(k, k', element);
    XorWordInjective(element, element', k);
    MixInjective(XorWord(k, element), XorWord(k', element'));
  }

  // ---- Signatures ---------------------------------------------------------------------------------------------

  /** A type in a signature: a builtin or a struct with its own tag, or a container of others. */
  datatype Type =
    | Leaf(tag: u64)
    | Vec(element: Type)
    | Opt(element: Type)
    | Array(element: Type, len: u64)
    | Tuple(members: seq<Type>)

  function Tag(t: Type): u64 {
    match t
    case Leaf(tag) => tag
    case Vec(e) => Container(VEC_KIND, Tag(e))
    case Opt(e) => Container(OPTION_KIND, Tag(e))
    case Array(e, n) => Compose(ARRAY_KIND, [Tag(e), n])
    case Tuple(ms) => Compose(TupleSeed(|ms|), seq(|ms|, i requires 0 <= i < |ms| => Tag(ms[i])))
  }

  function Tags(ts: seq<Type>): seq<u64> {
    seq(|ts|, i requires 0 <= i < |ts| => Tag(ts[i]))
  }

  /** The length seed; tuples of two to four members have one. */
  function TupleSeed(n: nat): u64 {
    if n <= 4 then TUPLE_SEED + n else TUPLE_SEED
  }

  /** A function: its name's hash, its arguments, and what it returns, possibly as a stream. */
  datatype Signature = Signature(name: u64, args: seq<Type>, ret: Type, streams: bool)

  function RetTag(s: Signature): u64 {
    if s.streams then Container(STREAM_KIND, Tag(s.ret)) else Tag(s.ret)
  }

  function Parts(s: Signature): seq<u64> {
    Tags(s.args) + [RetTag(s)]
  }

  function Identity(s: Signature): u64 {
    Compose(s.name, Parts(s))
  }

  /** `u` is `t` changed in exactly one place, anywhere inside: another leaf tag, another array length, or a vector where
      there was an option. */
  ghost predicate OnePlace(t: Type, u: Type) {
    match (t, u)
    case (Leaf(x), Leaf(y)) => x != y
    case (Vec(e), Vec(f)) => OnePlace(e, f)
    case (Opt(e), Opt(f)) => OnePlace(e, f)
    case (Vec(e), Opt(f)) => e == f
    case (Opt(e), Vec(f)) => e == f
    case (Array(e, n), Array(f, m)) => (n == m && OnePlace(e, f)) || (n != m && e == f)
    case (Tuple(ms), Tuple(ns)) =>
      |ms| == |ns| && exists i :: 0 <= i < |ms| && ns == ms[i := ns[i]] && OnePlace(ms[i], ns[i])
    case _ => false
  }

  /** A change in one place changes the tag of every type around it. */
  lemma {:induction false} OnePlaceChangesTag(t: Type, u: Type)
    requires OnePlace(t, u)
    ensures Tag(t) != Tag(u)
  {
    match t
    case Leaf(_) =>
    case Vec(e) =>
      if u.Vec? { OnePlaceChangesTag(e, u.element); }
      ContainerInjective(VEC_KIND, if u.Vec? then VEC_KIND else OPTION_KIND, Tag(e), Tag(u.element));
    case Opt(e) =>
      if u.Opt? { OnePlaceChangesTag(e, u.element); }
      ContainerInjective(OPTION_KIND, if u.Opt? then OPTION_KIND else VEC_KIND, Tag(e), Tag(u.element));
    case Array(e, n) =>
      if n == u.len { OnePlaceChangesTag(e, u.element); }
      PartRenames(ARRAY_KIND, [Tag(e), n], [Tag(u.element), u.len], if n == u.len then 0 else 1);
    case Tuple(ms) =>
      var ns := u.members;
      var i :| 0 <= i < |ms| && ns == ms[i := ns[i]] && OnePlace(ms[i], ns[i]);
      OnePlaceChangesTag(ms[i], ns[i]);
      var p := seq(|ms|, i requires 0 <= i < |ms| => Tag(ms[i]));
      var p' := seq(|ns|, i requires 0 <= i < |ns| => Tag(ns[i]));
      PartRenames(TupleSeed(|ms|), p, p', i);
  }

  ghost predicate OneArgument(s: Signature, t: Signature, i: nat) {
    i < |s.args| == |t.args| && t.args == s.args[i := t.args[i]] && OnePlace(s.args[i], t.args[i])
  }

  /** Signatures that differ in one place of one argument or of the return type. */
  ghost predicate OnePlaceApart(s: Signature, t: Signature) {
    && s.name == t.name && s.streams == t.streams && |s.args| == |t.args|
    && ((s.args == t.args && OnePlace(s.ret, t.ret)) || (s.ret == t.ret && exists i: nat :: OneArgument(s, t, i)))
  }

  lemma PartRenames(name: u64, p: seq<u64>, p': seq<u64>, i: nat)
    requires |p| == |p'| && i < |p| && p[i] != p'[i] && forall j :: 0 <= j < |p| && j != i ==> p[j] == p'[j]
    ensures Compose(name, p) != Compose(name, p')
  {
    assert p' == p[i := p'[i]];
    ComposeInjective(name, name, p, p', i);
  }

  /** A change in one place of a signature renames the function. */
  lemma OnePlaceRenames(s: Signature, t: Signature)
    requires OnePlaceApart(s, t)
    ensures Identity(s) != Identity(t)
  {
    if s.args == t.args && OnePlace(s.ret, t.ret) {
      OnePlaceChangesTag(s.ret, t.ret);
      ContainerInjectiveInElement(STREAM_KIND, Tag(s.ret), Tag(t.ret));
      ReturnRenamesIff(s, t);
    } else {
      var i: nat :| OneArgument(s, t, i);
      ArgumentRenames(s, t, i);
    }
  }

  /** Signatures that differ in their returns only have one identity exactly when they return under one tag. */
  lemma ReturnRenamesIff(s: Signature, t: Signature)
    requires s.name == t.name && s.args == t.args
    ensures Identity(s) == Identity(t) <==> RetTag(s) == RetTag(t)
  {
    if RetTag(s) != RetTag(t) { PartRenames(s.name, Parts(s), Parts(t), |s.args|); }
  }

  lemma ArgumentRenames(s: Signature, t: Signature, i: nat)
    requires s.name == t.name && s.streams == t.streams && s.ret == t.ret && OneArgument(s, t, i)
    ensures Identity(s) != Identity(t)
  {
    OnePlaceChangesTag(s.args[i], t.args[i]);
    PartRenames(s.name, Parts(s), Parts(t), i);
  }

  lemma ContainerInjectiveInElement(kind: u64, a: u64, b: u64)
    ensures a != b ==> Container(kind, a) != Container(kind, b)
  {
    if a != b { ContainerInjective(kind, kind, a, b); }
  }

  /** The one word a kind's container maps to itself, if there is one, is told by the mixer's inverse. */
  lemma ContainerFixesIff(kind: u64, x: u64)
    ensures Container(kind, x) == x <==> XorWord(Unmix(x), x) == Mix(XorWord(kind, FN_DOMAIN))
  {
    var k := Mix(XorWord(kind, FN_DOMAIN));
    UnmixMix(XorWord(k, x));
    MixUnmix(x);
    XorCancels(k, x);
    XorCancels(Unmix(x), x);
  }

  /** Making a return a stream renames the function, unless the item's tag is a word the stream
      kind maps to itself. */
  lemma StreamRenamesIff(s: Signature)
    ensures Identity(s) != Identity(s.(streams := !s.streams)) <==>
            XorWord(Unmix(Tag(s.ret)), Tag(s.ret)) != Mix(XorWord(STREAM_KIND, FN_DOMAIN))
  {
    ReturnRenamesIff(s, s.(streams := !s.streams));
    ContainerFixesIff(STREAM_KIND, Tag(s.ret));
  }

  /** A stream, a vector and an option of one item are three different returns. */
  lemma StreamIsItsOwnKind(s: Signature)
    requires s.streams
    ensures Identity(s) != Identity(s.(ret := Vec(s.ret), streams := false))
    ensures Identity(s) != Identity(s.(ret := Opt(s.ret), streams := false))
  {
    ContainerInjective(STREAM_KIND, VEC_KIND, Tag(s.ret), Tag(s.ret));
    ContainerInjective(STREAM_KIND, OPTION_KIND, Tag(s.ret), Tag(s.ret));
    ReturnRenamesIff(s, s.(ret := Vec(s.ret), streams := false));
    ReturnRenamesIff(s, s.(ret := Opt(s.ret), streams := false));
  }

  lemma TagsAppend(ts: seq<Type>, us: seq<Type>)
    ensures Tags(ts + us) == Tags(ts) + Tags(us)
  {
  }

  lemma TagsAround(front: seq<Type>, a: Type, middle: seq<Type>, b: Type, back: seq<Type>)
    ensures Tags(front + ([a] + middle + [b]) + back) == Tags(front) + ([Tag(a)] + Tags(middle) + [Tag(b)]) + Tags(back)
  {
    TagsAppend(front + ([a] + middle + [b]), back);
    TagsAppend(front, [a] + middle + [b]);
    TagsAppend([a] + middle, [b]);
    TagsAppend([a], middle);
    assert Tags([a]) == [Tag(a)] && Tags([b]) == [Tag(b)];
  }

  lemma Regroup(a: seq<u64>, b: seq<u64>, c: u64)
    ensures a + b + [c] == a + (b + [c])
  {
  }

  /** Argument order matters: exchanging two arguments keeps the identity only under the condition of `SwapComposesIff`, from
      the name and the arguments before them. */
  lemma ArgumentOrderIff(s: Signature, front: seq<Type>, a: Type, middle: seq<Type>, b: Type, back: seq<Type>)
    requires s.args == front + ([a] + middle + [b]) + back
    ensures Identity(s) == Identity(s.(args := front + ([b] + middle + [a]) + back)) <==>
            var h := Compose(s.name, Tags(front));
            XorWord(Absorb(Mix(XorWord(h, Tag(a))), Tags(middle)), Tag(b))
            == XorWord(Absorb(Mix(XorWord(h, Tag(b))), Tags(middle)), Tag(a))
  {
    var t := s.(args := front + ([b] + middle + [a]) + back);
    var rest := Tags(back) + [RetTag(s)];
    TagsAround(front, a, middle, b, back);
    TagsAround(front, b, middle, a, back);
    Regroup(Tags(front) + ([Tag(a)] + Tags(middle) + [Tag(b)]), Tags(back), RetTag(s));
    Regroup(Tags(front) + ([Tag(b)] + Tags(middle) + [Tag(a)]), Tags(back), RetTag(s));
    SwapComposesIff(s.name, Tags(front), Tag(a), Tags(middle), Tag(b), rest);
  }

  /** Tuples of different lengths are composed from different seeds, so the same parts compose differently under each. */
  lemma TupleSeedsDiffer(n: nat, m: nat, parts: seq<u64>)
    requires 2 <= n < m <= 4
    ensures Compose(TupleSeed(n), parts) != Compose(TupleSeed(m), parts)
  {
    ComposeInjective(TupleSeed(n), TupleSeed(m), parts, parts, 0);
  }

  /** Renaming the function renames its identity, and so does turning one container into another. */
  lemma NameAndKindMatter(s: Signature, name: u64, e: Type)
    requires name != s.name
    ensures Identity(s) != Identity(s.(name := name)) && Tag(Vec(e)) != Tag(Opt(e))
  {
    assert Parts(s.(name := name)) == Parts(s);
    ComposeInjective(s.name, name, Parts(s), Parts(s), 0);
    ContainerInjective(VEC_KIND, OPTION_KIND, Tag(e), Tag(e));
  }
}
