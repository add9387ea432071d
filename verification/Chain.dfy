/** Record chains: sorted segments under a size band, found by their separators.

    A chain is its segments in link order. Segment ids, links and index nodes only say which segment comes next and
    which separator leads to it, so they are positions here. */
module Chains {
  import opened Ids
  import opened Stores
  import opened Records
  import opened Keys

  datatype Entry<+P> = Entry(key: SecKey, load: P)

  type Segment<+P> = seq<Entry<P>>

  /** `min` is the declared page size; the removal log carries no index. */
  datatype Chain<+P> = Chain(min: nat, indexed: bool, segs: seq<Segment<P>>)

  // ---- The sorted map a chain stands for ------------------------------------------------------

  predicate Sorted<P>(es: Segment<P>) {
    forall i, j :: 0 <= i < j < |es| ==> Less(es[i].key, es[j].key)
  }

  function ToMap<P>(es: Segment<P>): map<SecKey, P> {
    if es == [] then map[] else ToMap(es[..|es| - 1])[es[|es| - 1].key := es[|es| - 1].load]
  }

  function Flat<P>(segs: seq<Segment<P>>): Segment<P> {
    if segs == [] then [] else segs[0] + Flat(segs[1..])
  }

  function View<P>(c: Chain<P>): map<SecKey, P> {
    ToMap(Flat(c.segs))
  }

  /** Segments stay below twice the page size and, when there are several, above half of it. */
  predicate Banded<P>(min: nat, segs: seq<Segment<P>>) {
    && (forall i :: 0 <= i < |segs| ==> |segs[i]| < 2 * min)
    && (|segs| > 1 ==> forall i :: 0 <= i < |segs| ==> min / 2 < |segs[i]|)
  }

  predicate Valid<P>(c: Chain<P>) {
    c.min > 0 && |c.segs| > 0 && Sorted(Flat(c.segs)) && Banded(c.min, c.segs)
  }

  // ---- Sequences and maps ---------------------------------------------------------------------

  lemma {:induction false} ToMapHas<P>(es: Segment<P>, i: nat)
    requires i < |es| && Sorted(es)
    ensures es[i].key in ToMap(es) && ToMap(es)[es[i].key] == es[i].load
  {
    var n := |es| - 1;
    if i < n {
      ToMapHas(es[..n], i);
      LessTotal(es[i].key, es[n].key);
    }
  }

  lemma {:induction false} ToMapOnly<P>(es: Segment<P>, k: SecKey) returns (i: nat)
    requires k in ToMap(es)
    ensures i < |es| && es[i].key == k
  {
    var n := |es| - 1;
    if es[n].key == k { return n; }
    i := ToMapOnly(es[..n], k);
  }

  lemma {:induction false} ToMapConcat<P>(a: Segment<P>, b: Segment<P>)
    ensures ToMap(a + b) == ToMap(a) + ToMap(b)
  {
    if b == [] {
      assert a + b == a;
    } else {
      var n := |b| - 1;
      ToMapConcat(a, b[..n]);
      assert (a + b)[..|a + b| - 1] == a + b[..n];
    }
  }

  lemma {:induction false} FlatConcat<P>(a: seq<Segment<P>>, b: seq<Segment<P>>)
    ensures Flat(a + b) == Flat(a) + Flat(b)
  {
    if a == [] {
      assert a + b == b;
    } else {
      FlatConcat(a[1..], b);
      assert (a + b)[1..] == a[1..] + b;
      Associative(a[0], Flat(a[1..]), Flat(b));
    }
  }

  lemma Associative<T>(a: seq<T>, b: seq<T>, c: seq<T>)
    ensures a + (b + c) == (a + b) + c
  {
  }

  lemma FlatThree<P>(a: seq<Segment<P>>, b: seq<Segment<P>>, c: seq<Segment<P>>)
    ensures Flat(a + b + c) == Flat(a) + Flat(b) + Flat(c)
  {
    FlatConcat(a, b);
    FlatConcat(a + b, c);
  }

  /** Replacing the segments `lo..hi` replaces exactly that stretch of the flat order. */
  lemma FlatSplice<P>(segs: seq<Segment<P>>, lo: nat, hi: nat, mid: seq<Segment<P>>)
    requires lo <= hi <= |segs|
    ensures Flat(segs) == Flat(segs[..lo]) + Flat(segs[lo..hi]) + Flat(segs[hi..])
    ensures Flat(segs[..lo] + mid + segs[hi..]) == Flat(segs[..lo]) + Flat(mid) + Flat(segs[hi..])
  {
    FlatThree(segs[..lo], mid, segs[hi..]);
    FlatThree(segs[..lo], segs[lo..hi], segs[hi..]);
    assert segs == segs[..lo] + segs[lo..hi] + segs[hi..];
  }

  lemma FlatOne<P>(s: Segment<P>)
    ensures Flat([s]) == s
  {
  }

  lemma FlatTwo<P>(s: Segment<P>, t: Segment<P>)
    ensures Flat([s, t]) == s + t
  {
    assert [s, t][1..] == [t];
    FlatOne(t);
  }

  /** Every key of `a` lies below `k`. */
  predicate AllBelow<P>(a: Segment<P>, k: SecKey) {
    forall i :: 0 <= i < |a| ==> Less(a[i].key, k)
  }

  predicate AllAbove<P>(a: Segment<P>, k: SecKey) {
    forall i :: 0 <= i < |a| ==> Less(k, a[i].key)
  }

  lemma InsertedSorted<P>(a: Segment<P>, b: Segment<P>, e: Entry<P>)
    requires Sorted(a + b) && AllBelow(a, e.key) && AllAbove(b, e.key)
    ensures Sorted(a + [e] + b)
  {
    var all, out := a + b, a + [e] + b;
    forall i, j | 0 <= i < j < |out| ensures Less(out[i].key, out[j].key) {
      var i', j' := if i < |a| then i else i - 1, if j < |a| then j else j - 1;
      if i != |a| && j != |a| { assert Less(all[i'].key, all[j'].key); }
    }
  }

  lemma NotAmong<P>(a: Segment<P>, b: Segment<P>, key: SecKey)
    requires AllBelow(a, key) && AllAbove(b, key)
    ensures key !in ToMap(a + b) && key !in ToMap(b)
  {
    LessTotal(key, key);
    if key in ToMap(a + b) { var i := ToMapOnly(a + b, key); }
    if key in ToMap(b) { var i := ToMapOnly(b, key); }
  }

  lemma Inserted<P>(a: Segment<P>, b: Segment<P>, e: Entry<P>)
    requires Sorted(a + b) && AllBelow(a, e.key) && AllAbove(b, e.key)
    ensures Sorted(a + [e] + b) && ToMap(a + [e] + b) == ToMap(a + b)[e.key := e.load]
    ensures e.key !in ToMap(a + b)
  {
    InsertedSorted(a, b, e);
    NotAmong(a, b, e.key);
    ToMapConcat(a, [e]);
    ToMapConcat(a + [e], b);
    ToMapConcat(a, b);
    assert ToMap([e]) == map[e.key := e.load];
  }

  lemma Deleted<P>(a: Segment<P>, e: Entry<P>, b: Segment<P>)
    requires Sorted(a + [e] + b)
    ensures Sorted(a + b) && ToMap(a + b) == ToMap(a + [e] + b) - {e.key}
    ensures AllBelow(a, e.key) && AllAbove(b, e.key)
  {
    var all := a + [e] + b;
    forall i, j | 0 <= i < j < |a + b| ensures Less((a + b)[i].key, (a + b)[j].key) {
      var i', j' := if i < |a| then i else i + 1, if j < |a| then j else j + 1;
      assert Less(all[i'].key, all[j'].key);
    }
    forall i | 0 <= i < |a| ensures Less(a[i].key, e.key) {
      assert Less(all[i].key, all[|a|].key);
    }
    forall i | 0 <= i < |b| ensures Less(e.key, b[i].key) {
      assert Less(all[|a|].key, all[|a| + 1 + i].key);
    }
    Inserted(a, b, e);
  }

  lemma Replaced<P>(a: Segment<P>, e: Entry<P>, b: Segment<P>, load: P)
    requires Sorted(a + [e] + b)
    ensures Sorted(a + [Entry(e.key, load)] + b)
    ensures ToMap(a + [Entry(e.key, load)] + b) == ToMap(a + [e] + b)[e.key := load]
  {
    Deleted(a, e, b);
    Inserted(a, b, e);
    Inserted(a, b, Entry(e.key, load));
  }

  /** A sorted listing is determined by the map it lists: segmentation cannot show through a read. */
  lemma {:induction false} ListingIsUnique<P>(a: Segment<P>, b: Segment<P>)
    requires Sorted(a) && Sorted(b) && ToMap(a) == ToMap(b)
    ensures a == b
  {
    if a == [] || b == [] {
      if b != [] { ToMapHas(b, 0); }
      if a != [] { ToMapHas(a, 0); }
    } else {
      var n, m := |a| - 1, |b| - 1;
      GreatestIsLast(a, b);
      GreatestIsLast(b, a);
      LessTotal(a[n].key, b[m].key);
      ToMapHas(a, n);
      ToMapHas(b, m);
      assert a == a[..n] + [a[n]] + [] && b == b[..m] + [b[m]] + [];
      Deleted(a[..n], a[n], []);
      Deleted(b[..m], b[m], []);
      assert a[..n] + [] == a[..n] && b[..m] + [] == b[..m];
      ListingIsUnique(a[..n], b[..m]);
    }
  }

  lemma GreatestIsLast<P>(a: Segment<P>, b: Segment<P>)
    requires Sorted(a) && Sorted(b) && ToMap(a) == ToMap(b) && a != [] && b != []
    ensures !Less(b[|b| - 1].key, a[|a| - 1].key)
  {
    var k := a[|a| - 1].key;
    ToMapHas(a, |a| - 1);
    var i := ToMapOnly(b, k);
    LessTotal(k, b[|b| - 1].key);
  }

  // ---- Covering segments ---------------------------------------------------

  /** No later segment starts at or below the key, and this one does unless it is the head. */
  predicate Covers<P>(segs: seq<Segment<P>>, i: nat, key: SecKey) {
    && i < |segs|
    && (i > 0 ==> segs[i] != [] && !Less(key, segs[i][0].key))
    && (forall j :: i < j < |segs| && segs[j] != [] ==> Less(key, segs[j][0].key))
  }

  /** `last_at_or_below` over the separators. */
  method Descend<P>(c: Chain<P>, key: SecKey) returns (i: nat)
    requires Valid(c)
    ensures Covers(c.segs, i, key)
  {
    var lo, hi := 0, if c.segs[0] == [] then 0 else |c.segs|;
    while lo < hi
      invariant 0 <= lo <= hi <= |c.segs|
      invariant hi > 0 ==> forall j :: 0 <= j < |c.segs| ==> |c.segs[j]| > 0
      invariant lo > 0 ==> !Less(key, c.segs[lo - 1][0].key)
      invariant forall j :: hi <= j < |c.segs| && c.segs[j] != [] ==> Less(key, c.segs[j][0].key)
    {
      var mid := lo + (hi - lo) / 2;
      if !Less(key, c.segs[mid][0].key) {
        lo := mid + 1;
      } else {
        FirstsAbove(c, mid, key);
        hi := mid;
      }
    }
    i := if lo == 0 then 0 else lo - 1;
  }

  lemma FirstsAbove<P>(c: Chain<P>, mid: nat, key: SecKey)
    requires Valid(c) && mid < |c.segs| && c.segs[mid] != [] && Less(key, c.segs[mid][0].key)
    ensures forall j :: mid <= j < |c.segs| && c.segs[j] != [] ==> Less(key, c.segs[j][0].key)
  {
    forall j | mid < j < |c.segs| && c.segs[j] != [] ensures Less(key, c.segs[j][0].key) {
      SegmentsAscend(c.segs, mid, j, 0, 0);
      LessTransitive(key, c.segs[mid][0].key, c.segs[j][0].key);
    }
  }

  lemma SegmentsAscend<P>(segs: seq<Segment<P>>, i: nat, j: nat, x: nat, y: nat)
    requires Sorted(Flat(segs)) && i < j < |segs| && x < |segs[i]| && y < |segs[j]|
    ensures Less(segs[i][x].key, segs[j][y].key)
  {
    FlatAt(segs, i, x);
    FlatAt(segs, j, y);
    FlatConcat(segs[..i + 1], segs[i + 1..j]);
    assert segs[..i + 1] + segs[i + 1..j] == segs[..j];
  }

  lemma FlatAt<P>(segs: seq<Segment<P>>, i: nat, x: nat)
    requires i < |segs| && x < |segs[i]|
    ensures |Flat(segs[..i + 1])| == |Flat(segs[..i])| + |segs[i]| <= |Flat(segs)|
    ensures Flat(segs)[|Flat(segs[..i])| + x] == segs[i][x]
  {
    FlatConcat(segs[..i], [segs[i]]);
    FlatOne(segs[i]);
    FlatConcat(segs[..i + 1], segs[i + 1..]);
    assert segs[..i + 1] == segs[..i] + [segs[i]];
    assert segs == segs[..i + 1] + segs[i + 1..];
  }

  /** `walk_back_to`: the last segment that does not start above the key, found from the right. */
  method WalkBack<P>(c: Chain<P>, key: SecKey) returns (i: nat)
    requires Valid(c)
    ensures Covers(c.segs, i, key)
  {
    i := |c.segs| - 1;
    while i > 0 && c.segs[i] != [] && Less(key, c.segs[i][0].key)
      invariant 0 <= i < |c.segs|
      invariant forall j :: i < j < |c.segs| && c.segs[j] != [] ==> Less(key, c.segs[j][0].key)
    {
      i := i - 1;
    }
  }

  method Locate<P>(c: Chain<P>, key: SecKey) returns (i: nat)
    requires Valid(c)
    ensures Covers(c.segs, i, key)
  {
    if c.indexed { i := Descend(c, key); } else { i := WalkBack(c, key); }
  }

  lemma BeforeIsBelow<P>(pre: Segment<P>, seg: Segment<P>, post: Segment<P>, key: SecKey)
    requires Sorted(pre + seg + post) && (pre != [] ==> seg != [] && !Less(key, seg[0].key))
    ensures AllBelow(pre, key)
  {
    var all := pre + seg + post;
    forall x | 0 <= x < |pre| ensures Less(pre[x].key, key) {
      assert Less(all[x].key, all[|pre|].key);
      LessTotal(key, seg[0].key);
      if Less(seg[0].key, key) { LessTransitive(pre[x].key, seg[0].key, key); }
    }
  }

  lemma AfterIsAbove<P>(pre: Segment<P>, post: Segment<P>, key: SecKey)
    requires Sorted(pre + post) && (post != [] ==> Less(key, post[0].key))
    ensures AllAbove(post, key)
  {
    var all := pre + post;
    forall x | 0 < x < |post| ensures Less(key, post[x].key) {
      assert Less(all[|pre|].key, all[|pre| + x].key);
      LessTransitive(key, post[0].key, post[x].key);
    }
  }

  /** Outside the covering segment, everything to the left is below the key and everything to the right above it. */
  lemma CoveringIsTheKeysPlace<P>(c: Chain<P>, i: nat, key: SecKey)
    requires Valid(c) && Covers(c.segs, i, key)
    ensures AllBelow(Flat(c.segs[..i]), key) && AllAbove(Flat(c.segs[i + 1..]), key)
  {
    var segs := c.segs;
    var pre, post := Flat(segs[..i]), Flat(segs[i + 1..]);
    FlatSplice(segs, i, i + 1, []);
    assert segs[i..i + 1] == [segs[i]];
    FlatOne(segs[i]);
    BeforeIsBelow(pre, segs[i], post, key);
    if i + 1 < |segs| { assert post == segs[i + 1] + Flat(segs[i + 1..][1..]); }
    AfterIsAbove(pre + segs[i], post, key);
  }

  /** Binary search inside a segment: the key's index, or where it would go. */
  method Position<P>(seg: Segment<P>, key: SecKey) returns (found: bool, at: nat)
    requires Sorted(seg)
    ensures at <= |seg| && AllBelow(seg[..at], key)
    ensures found ==> at < |seg| && seg[at].key == key
    ensures !found ==> AllAbove(seg[at..], key)
  {
    var lo, hi := 0, |seg|;
    while lo < hi
      invariant 0 <= lo <= hi <= |seg|
      invariant AllBelow(seg[..lo], key) && AllAbove(seg[hi..], key)
    {
      var mid := lo + (hi - lo) / 2;
      if seg[mid].key == key {
        assert AllBelow(seg[..mid], key);
        return true, mid;
      }
      LessTotal(seg[mid].key, key);
      if Less(seg[mid].key, key) {
        forall i | 0 <= i < mid ensures Less(seg[i].key, key) {
          LessTransitive(seg[i].key, seg[mid].key, key);
        }
        lo := mid + 1;
      } else {
        forall i | mid < i < |seg| ensures Less(key, seg[i].key) {
          LessTransitive(key, seg[mid].key, seg[i].key);
        }
        hi := mid;
      }
    }
    return false, lo;
  }

  // ---- Editing ------------------------------------------------------------------------------------

  lemma BandSplice<P>(min: nat, segs: seq<Segment<P>>, lo: nat, hi: nat, mid: seq<Segment<P>>)
    requires Banded(min, segs) && lo < hi <= |segs|
    requires forall i :: 0 <= i < |mid| ==> |mid[i]| < 2 * min
    requires |segs| - (hi - lo) + |mid| > 1 ==> forall i :: 0 <= i < |mid| ==> min / 2 < |mid[i]|
    ensures Banded(min, segs[..lo] + mid + segs[hi..])
  {
  }

  /** The flat order with segment `i` replaced. */
  function Around<P>(segs: seq<Segment<P>>, i: nat, seg: Segment<P>): Segment<P>
    requires i < |segs|
  {
    Flat(segs[..i]) + seg + Flat(segs[i + 1..])
  }

  lemma FlatAround<P>(segs: seq<Segment<P>>, i: nat)
    requires i < |segs|
    ensures Flat(segs) == Around(segs, i, segs[i])
  {
    FlatSplice(segs, i, i + 1, []);
    FlatOne(segs[i]);
    assert segs[i..i + 1] == [segs[i]];
  }

  ghost predicate Lists<P>(es: Segment<P>, m: map<SecKey, P>) {
    Sorted(es) && ToMap(es) == m
  }

  lemma MiddleSorted<P>(pre: Segment<P>, seg: Segment<P>, post: Segment<P>)
    requires Sorted(pre + seg + post)
    ensures Sorted(seg)
  {
    var all := pre + seg + post;
    forall x, y | 0 <= x < y < |seg| ensures Less(seg[x].key, seg[y].key) {
      assert all[|pre| + x] == seg[x] && all[|pre| + y] == seg[y];
    }
  }

  lemma SegmentSorted<P>(segs: seq<Segment<P>>, i: nat)
    requires Sorted(Flat(segs)) && i < |segs|
    ensures Sorted(segs[i])
  {
    FlatAround(segs, i);
    MiddleSorted(Flat(segs[..i]), segs[i], Flat(segs[i + 1..]));
  }

  /** One segment's edit, seen in the flat order: the entry at `at` is replaced. */
  lemma ReplacedIn<P>(pre: Segment<P>, seg: Segment<P>, post: Segment<P>, at: nat, load: P)
    requires Sorted(pre + seg + post) && at < |seg|
    ensures Lists(pre + seg[at := Entry(seg[at].key, load)] + post, ToMap(pre + seg + post)[seg[at].key := load])
  {
    var a, b := pre + seg[..at], seg[at + 1..] + post;
    var e := Entry(seg[at].key, load);
    assert pre + seg + post == a + [seg[at]] + b;
    assert pre + seg[at := e] + post == a + [e] + b;
    Replaced(a, seg[at], b, load);
  }

  lemma InsertedIn<P>(pre: Segment<P>, seg: Segment<P>, post: Segment<P>, at: nat, e: Entry<P>)
    requires Sorted(pre + seg + post) && at <= |seg|
    requires AllBelow(pre, e.key) && AllAbove(post, e.key)
    requires AllBelow(seg[..at], e.key) && AllAbove(seg[at..], e.key)
    ensures Lists(pre + (seg[..at] + [e] + seg[at..]) + post, ToMap(pre + seg + post)[e.key := e.load])
    ensures e.key !in ToMap(pre + seg + post)
  {
    var a, b := pre + seg[..at], seg[at..] + post;
    assert pre + seg + post == a + b;
    assert pre + (seg[..at] + [e] + seg[at..]) + post == a + [e] + b;
    Inserted(a, b, e);
  }

  lemma DeletedIn<P>(pre: Segment<P>, seg: Segment<P>, post: Segment<P>, at: nat)
    requires Sorted(pre + seg + post) && at < |seg|
    ensures Lists(pre + (seg[..at] + seg[at + 1..]) + post, ToMap(pre + seg + post) - {seg[at].key})
    ensures seg[at].key in ToMap(pre + seg + post)
  {
    var a, b := pre + seg[..at], seg[at + 1..] + post;
    assert pre + seg + post == a + [seg[at]] + b;
    assert pre + (seg[..at] + seg[at + 1..]) + post == a + b;
    Deleted(a, seg[at], b);
    ToMapHas(pre + seg + post, |a|);
  }

  /** The segment an insert leaves behind, before any split. */
  method EditInsert<P>(c: Chain<P>, key: SecKey, load: P) returns (i: nat, seg: Segment<P>)
    requires Valid(c)
    ensures i < |c.segs| && |c.segs[i]| <= |seg| <= |c.segs[i]| + 1
    ensures Lists(Around(c.segs, i, seg), View(c)[key := load])
  {
    i := Locate(c, key);
    SegmentSorted(c.segs, i);
    var found, at := Position(c.segs[i], key);
    FlatAround(c.segs, i);
    if found {
      seg := c.segs[i][at := Entry(key, load)];
      ReplacedIn(Flat(c.segs[..i]), c.segs[i], Flat(c.segs[i + 1..]), at, load);
    } else {
      seg := c.segs[i][..at] + [Entry(key, load)] + c.segs[i][at..];
      CoveringIsTheKeysPlace(c, i, key);
      InsertedIn(Flat(c.segs[..i]), c.segs[i], Flat(c.segs[i + 1..]), at, Entry(key, load));
    }
  }

  /** Replacing segment `i` by pieces that flatten to `seg`. */
  lemma Respliced<P>(c: Chain<P>, i: nat, seg: Segment<P>, mid: seq<Segment<P>>, m: map<SecKey, P>)
    requires i < |c.segs| && Lists(Around(c.segs, i, seg), m) && Flat(mid) == seg
    ensures Lists(Flat(c.segs[..i] + mid + c.segs[i + 1..]), m)
  {
    FlatSplice(c.segs, i, i + 1, mid);
  }

  /** `plan_insert`: insert, or replace on an equal key, splitting a segment that reaches twice the page size. */
  method PlanInsert<P>(c: Chain<P>, key: SecKey, load: P) returns (r: Chain<P>)
    requires Valid(c)
    ensures Valid(r) && r.min == c.min && r.indexed == c.indexed
    ensures View(r) == View(c)[key := load]
  {
    var i, seg := EditInsert(c, key, load);
    var mid := [seg];
    if |seg| >= 2 * c.min {
      mid := [seg[..|seg| / 2], seg[|seg| / 2..]];
      FlatTwo(seg[..|seg| / 2], seg[|seg| / 2..]);
    } else {
      FlatOne(seg);
    }
    Respliced(c, i, seg, mid, View(c)[key := load]);
    BandSplice(c.min, c.segs, i, i + 1, mid);
    r := c.(segs := c.segs[..i] + mid + c.segs[i + 1..]);
  }

  /** A starved segment and its neighbour, evened out or merged. */
  function Rebalanced<P>(min: nat, left: Segment<P>, right: Segment<P>): (mid: seq<Segment<P>>)
    ensures Flat(mid) == left + right
  {
    var all := left + right;
    var half := (|all| + 1) / 2;
    FlatOne(all);
    FlatTwo(all[..half], all[half..]);
    if |all| >= 2 * min then [all[..half], all[half..]] else [all]
  }

  lemma RebalancedFits<P>(min: nat, left: Segment<P>, right: Segment<P>)
    requires min > 0 && |left| < 2 * min && |right| < 2 * min
    requires |left| <= min / 2 < |right| || |right| <= min / 2 < |left|
    ensures forall i :: 0 <= i < |Rebalanced(min, left, right)| ==> min / 2 < |Rebalanced(min, left, right)[i]| < 2 * min
  {
  }

  /** The segment a removal leaves behind, before any rebalancing. */
  method EditRemove<P>(c: Chain<P>, key: SecKey) returns (found: bool, i: nat, seg: Segment<P>)
    requires Valid(c)
    ensures found <==> key in View(c)
    ensures found ==> i < |c.segs| && |seg| + 1 == |c.segs[i]| && Lists(Around(c.segs, i, seg), View(c) - {key})
  {
    i := Locate(c, key);
    SegmentSorted(c.segs, i);
    var at;
    found, at := Position(c.segs[i], key);
    FlatAround(c.segs, i);
    if found {
      seg := c.segs[i][..at] + c.segs[i][at + 1..];
      DeletedIn(Flat(c.segs[..i]), c.segs[i], Flat(c.segs[i + 1..]), at);
    } else {
      seg := [];
      AbsentFrom(c, i, at, key);
    }
  }

  lemma AbsentFrom<P>(c: Chain<P>, i: nat, at: nat, key: SecKey)
    requires Valid(c) && Covers(c.segs, i, key) && at <= |c.segs[i]|
    requires AllBelow(c.segs[i][..at], key) && AllAbove(c.segs[i][at..], key)
    ensures key !in View(c)
  {
    if key in View(c) {
      FlatAround(c.segs, i);
      CoveringIsTheKeysPlace(c, i, key);
      InsertedIn(Flat(c.segs[..i]), c.segs[i], Flat(c.segs[i + 1..]), at, Entry(key, View(c)[key]));
    }
  }

  /** `plan_remove`: nothing planned exactly when the key is absent; a starved segment is merged or evened out. */
  method PlanRemove<P>(c: Chain<P>, key: SecKey) returns (r: Option<Chain<P>>)
    requires Valid(c)
    ensures r.None? <==> key !in View(c)
    ensures r.Some? ==> Valid(r.value) && r.value.min == c.min && r.value.indexed == c.indexed
                        && View(r.value) == View(c) - {key}
  {
    var found, i, seg := EditRemove(c, key);
    if !found { return None; }
    if |seg| <= c.min / 2 && |c.segs| > 1 {
      var r' := Rebalance(c, i, seg, View(c) - {key});
      r := Some(r');
    } else {
      FlatOne(seg);
      Respliced(c, i, seg, [seg], View(c) - {key});
      BandSplice(c.min, c.segs, i, i + 1, [seg]);
      r := Some(c.(segs := c.segs[..i] + [seg] + c.segs[i + 1..]));
    }
  }

  /** `rebalance`: pair the starved segment with the next one, or with the previous one at the tail. */
  method Rebalance<P>(c: Chain<P>, i: nat, seg: Segment<P>, ghost m: map<SecKey, P>) returns (r: Chain<P>)
    requires Valid(c) && i < |c.segs| && |c.segs| > 1 && |seg| <= c.min / 2
    requires Lists(Around(c.segs, i, seg), m)
    ensures Valid(r) && r.min == c.min && r.indexed == c.indexed && View(r) == m
  {
    var lo := if i + 1 < |c.segs| then i else i - 1;
    var left, right := if lo == i then seg else c.segs[lo], if lo == i then c.segs[i + 1] else seg;
    var mid := Rebalanced(c.min, left, right);
    RebalancedFits(c.min, left, right);
    FlatPair(c.segs, i, lo, seg, mid);
    BandSplice(c.min, c.segs, lo, lo + 2, mid);
    r := c.(segs := c.segs[..lo] + mid + c.segs[lo + 2..]);
  }

  /** Rebalancing against a neighbour leaves the flat order with the one edit already made to segment `i`. */
  lemma FlatPair<P>(segs: seq<Segment<P>>, i: nat, lo: nat, seg: Segment<P>, mid: seq<Segment<P>>)
    requires lo + 1 < |segs| && (i == lo || i == lo + 1)
    requires Flat(mid) == if i == lo then seg + segs[lo + 1] else segs[lo] + seg
    ensures Flat(segs[..lo] + mid + segs[lo + 2..]) == Around(segs, i, seg)
  {
    FlatSplice(segs, lo, lo + 2, mid);
    var pre, post := Flat(segs[..lo]), Flat(segs[lo + 2..]);
    if i == lo {
      FlatTail(segs, lo + 1);
      Shuffle(pre, seg, segs[lo + 1], post);
    } else {
      FlatInit(segs, lo);
      Shuffle(pre, segs[lo], seg, post);
    }
  }

  lemma FlatTail<P>(segs: seq<Segment<P>>, j: nat)
    requires j < |segs|
    ensures Flat(segs[j..]) == segs[j] + Flat(segs[j + 1..])
  {
  }

  lemma FlatInit<P>(segs: seq<Segment<P>>, j: nat)
    requires j < |segs|
    ensures Flat(segs[..j + 1]) == Flat(segs[..j]) + segs[j]
  {
    FlatConcat(segs[..j], [segs[j]]);
    FlatOne(segs[j]);
    assert segs[..j + 1] == segs[..j] + [segs[j]];
  }

  lemma Shuffle<T>(a: seq<T>, b: seq<T>, c: seq<T>, d: seq<T>)
    ensures a + (b + c) + d == a + b + (c + d)
    ensures a + (b + c) + d == (a + b) + c + d
  {
  }
}
