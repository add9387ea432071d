/** Reading chains: the catch-up tail, the instant floor, whole walks and reads entered at an offset. */
module ChainReads {
  import opened Ids
  import opened Stores
  import opened Records
  import opened Keys
  import opened Chains

  // ---- The tail past a cursor -------------------------------------------------------------------

  datatype Item<+P> = Item(instant: u64, rec: LocalId, load: P)

  function ItemOf<P>(e: Entry<P>): Item<P> {
    Item(KeyInstant(e.key), e.key.rec, e.load)
  }

  /** Every entry whose instant is above the cursor, in chain order. */
  function Above<P>(es: Segment<P>, cursor: u64): seq<Item<P>> {
    if es == [] then []
    else (if KeyInstant(es[0].key) > cursor then [ItemOf(es[0])] else []) + Above(es[1..], cursor)
  }

  /** Instants never fall along the chain. */
  predicate Ascending<P>(es: Segment<P>) {
    forall i, j :: 0 <= i <= j < |es| ==> KeyInstant(es[i].key) <= KeyInstant(es[j].key)
  }

  lemma {:induction false} AboveConcat<P>(a: Segment<P>, b: Segment<P>, cursor: u64)
    ensures Above(a + b, cursor) == Above(a, cursor) + Above(b, cursor)
  {
    if a == [] {
      assert a + b == b;
    } else {
      AboveConcat(a[1..], b, cursor);
      assert (a + b)[1..] == a[1..] + b;
      Associative(if KeyInstant(a[0].key) > cursor then [ItemOf(a[0])] else [], Above(a[1..], cursor), Above(b, cursor));
    }
  }

  lemma {:induction false} NoneAbove<P>(es: Segment<P>, cursor: u64)
    requires forall i :: 0 <= i < |es| ==> KeyInstant(es[i].key) <= cursor
    ensures Above(es, cursor) == []
  {
    if es != [] { NoneAbove(es[1..], cursor); }
  }

  /** Once a segment reaches the cursor, everything before it is at or below it. */
  lemma EarlierIsNotAbove<P>(pre: Segment<P>, seg: Segment<P>, post: Segment<P>, cursor: u64)
    requires Ascending(pre + seg + post) && seg != [] && KeyInstant(seg[0].key) <= cursor
    ensures Above(pre, cursor) == []
  {
    var all := pre + seg + post;
    forall i | 0 <= i < |pre| ensures KeyInstant(pre[i].key) <= cursor {
      assert KeyInstant(all[i].key) <= KeyInstant(all[|pre|].key);
    }
    NoneAbove(pre, cursor);
  }

  /** The entries wanted from segment `i` on. */
  ghost function WantedFrom<P>(segs: seq<Segment<P>>, cursor: u64): nat -> multiset<Item<P>> {
    (i: nat) => if i <= |segs| then multiset(Above(Flat(segs[i..]), cursor)) else multiset{}
  }

  /** One segment back adds that segment's entries. Once it reaches the cursor, they are all there are. */
  ghost predicate StepsBack<P>(segs: seq<Segment<P>>, cursor: u64, want: nat -> multiset<Item<P>>, i: nat)
    requires i < |segs|
  {
    && want(i) == multiset(Above(segs[i], cursor)) + want(i + 1)
    && (Reaches(segs[i], cursor) ==> want(i) == want(0))
  }

  predicate Reaches<P>(seg: Segment<P>, cursor: u64) {
    seg != [] && KeyInstant(seg[0].key) <= cursor
  }

  lemma SegmentAbove<P>(segs: seq<Segment<P>>, i: nat, cursor: u64)
    requires Ascending(Flat(segs)) && i < |segs|
    ensures Above(Flat(segs[i..]), cursor) == Above(segs[i], cursor) + Above(Flat(segs[i + 1..]), cursor)
    ensures segs[i] != [] && KeyInstant(segs[i][0].key) <= cursor ==>
              Above(Flat(segs), cursor) == Above(Flat(segs[i..]), cursor)
  {
    FlatTail(segs, i);
    AboveConcat(segs[i], Flat(segs[i + 1..]), cursor);
    if segs[i] != [] && KeyInstant(segs[i][0].key) <= cursor {
      FlatAround(segs, i);
      EarlierIsNotAbove(Flat(segs[..i]), segs[i], Flat(segs[i + 1..]), cursor);
      AboveSplit(segs, i, cursor);
    }
  }

  lemma AboveSplit<P>(segs: seq<Segment<P>>, at: nat, cursor: u64)
    requires at <= |segs|
    ensures Above(Flat(segs), cursor) == Above(Flat(segs[..at]), cursor) + Above(Flat(segs[at..]), cursor)
  {
    FlatConcat(segs[..at], segs[at..]);
    assert segs == segs[..at] + segs[at..];
    AboveConcat(Flat(segs[..at]), Flat(segs[at..]), cursor);
  }

  /** `tail_since`: exactly the entries above the cursor, each once, for any segmentation, empty segments included. */
  method TailSince<P(==)>(segs: seq<Segment<P>>, cursor: u64) returns (out: seq<Item<P>>)
    requires Ascending(Flat(segs))
    ensures multiset(out) == multiset(Above(Flat(segs), cursor))
  {
    ghost var want := WantedFrom(segs, cursor);
    assert segs[0..] == segs && segs[|segs|..] == [];
    forall i: nat | i < |segs| ensures StepsBack(segs, cursor, want, i) { SegmentAbove(segs, i, cursor); }
    out := ScanBack(segs, cursor, want);
  }

  /** The loop of `tail_since`. */
  method ScanBack<P(==)>(segs: seq<Segment<P>>, cursor: u64, ghost want: nat -> multiset<Item<P>>)
    returns (out: seq<Item<P>>)
    requires want(|segs|) == multiset{} && forall i: nat :: i < |segs| ==> StepsBack(segs, cursor, want, i)
    ensures multiset(out) == want(0)
  {
    out := [];
    var at := |segs|;
    var reached := false;
    while at > 0 && !reached
      invariant 0 <= at <= |segs|
      invariant multiset(out) == want(at)
      invariant reached ==> want(at) == want(0)
    {
      at := at - 1;
      out := Gather(segs, cursor, want, at, out);
      reached := Reaches(segs[at], cursor);
    }
  }

  method Gather<P(==)>(segs: seq<Segment<P>>, cursor: u64, ghost want: nat -> multiset<Item<P>>, at: nat,
                       out: seq<Item<P>>) returns (more: seq<Item<P>>)
    requires at < |segs| && multiset(out) == want(at + 1) && StepsBack(segs, cursor, want, at)
    ensures multiset(more) == want(at) && (Reaches(segs[at], cursor) ==> want(at) == want(0))
  {
    var page := Page(segs[at], cursor);
    more := out + page;
  }

  /** One segment's entries above the cursor. */
  method Page<P>(seg: Segment<P>, cursor: u64) returns (page: seq<Item<P>>)
    ensures page == Above(seg, cursor)
  {
    page := [];
    for i := 0 to |seg|
      invariant page == Above(seg[..i], cursor)
    {
      AboveConcat(seg[..i], [seg[i]], cursor);
      assert seg[..i + 1] == seg[..i] + [seg[i]];
      assert [seg[i]][1..] == [];
      if KeyInstant(seg[i].key) > cursor { page := page + [ItemOf(seg[i])]; }
    }
    assert seg[..|seg|] == seg;
  }

  /** A chain filed under instants. */
  predicate Instants<P>(es: Segment<P>) {
    forall i :: 0 <= i < |es| ==> es[i].key == InstantKey(KeyInstant(es[i].key), es[i].key.rec)
  }

  lemma SortedAscends<P>(es: Segment<P>)
    requires Sorted(es) && Instants(es)
    ensures Ascending(es)
  {
    forall i, j | 0 <= i < j < |es| ensures KeyInstant(es[i].key) <= KeyInstant(es[j].key) {
      InstantKeys(KeyInstant(es[i].key), es[i].key.rec, KeyInstant(es[j].key), es[j].key.rec);
    }
  }

  // ---- The instant floor ---------------------------------------------------------------------------

  /** The last key of the tail segment: the greatest instant anywhere in the chain, or zero. */
  method ChainFloor<P>(c: Chain<P>) returns (t: u64)
    requires Valid(c) && Instants(Flat(c.segs))
    ensures forall k :: k in View(c) ==> KeyInstant(k) <= t
    ensures t == 0 || exists k :: k in View(c) && KeyInstant(k) == t
  {
    var n := |c.segs| - 1;
    var seg := c.segs[n];
    t := if seg == [] then 0 else KeyInstant(seg[|seg| - 1].key);
    ghost var es := Flat(c.segs);
    FlatAround(c.segs, n);
    assert c.segs[n + 1..] == [];
    if seg == [] {
      assert c.segs[..n] == [];
      assert es == [];
    } else {
      assert es[|es| - 1] == seg[|seg| - 1];
      ToMapHas(es, |es| - 1);
      SortedAscends(es);
    }
    forall k | k in View(c) ensures KeyInstant(k) <= t {
      var i := ToMapOnly(es, k);
    }
  }

  // ---- Walking a whole chain ----------------------------------------------------------------------

  function Reverse<T>(s: seq<T>): (r: seq<T>) {
    if s == [] then [] else Reverse(s[1..]) + [s[0]]
  }

  lemma {:induction false} ReverseConcat<T>(a: seq<T>, b: seq<T>)
    ensures Reverse(a + b) == Reverse(b) + Reverse(a)
  {
    if a == [] {
      assert a + b == b;
    } else {
      ReverseConcat(a[1..], b);
      assert (a + b)[1..] == a[1..] + b;
      Associative(Reverse(b), Reverse(a[1..]), [a[0]]);
    }
  }

  lemma {:induction false} ReverseAt<T>(s: seq<T>, i: nat)
    requires i < |s|
    ensures |Reverse(s)| == |s| && Reverse(s)[i] == s[|s| - 1 - i]
  {
    if |s| > 1 { ReverseAt(s[1..], if i < |s| - 1 then i else 0); }
  }

  /** The record a chain key names, as stored at its anchor. */
  predicate Resolves(store: Contents<Envelope>, hash: u64, tenant: u48, rec: LocalId) {
    ToId(rec, tenant) in store && store[ToId(rec, tenant)].hash == hash
  }

  /** What a read of an unreadable record reports: that it is missing, or which type is there instead. */
  function Fault(store: Contents<Envelope>, tenant: u48, rec: LocalId): Error {
    var id := ToId(rec, tenant);
    if id !in store then RecordMissing(id) else UnknownStructHash(store[id].hash)
  }

  /** The entry at `i` is unreadable and `x` says why. */
  ghost predicate FaultAt<P>(store: Contents<Envelope>, hash: u64, tenant: u48, es: Segment<P>, i: nat, x: Error) {
    i < |es| && !Resolves(store, hash, tenant, es[i].key.rec) && x == Fault(store, tenant, es[i].key.rec)
  }

  predicate AllResolve<P>(store: Contents<Envelope>, hash: u64, tenant: u48, es: Segment<P>) {
    forall i :: 0 <= i < |es| ==> Resolves(store, hash, tenant, es[i].key.rec)
  }

  /** The records of a run of keys, in order. */
  function Resolved<P>(store: Contents<Envelope>, tenant: u48, es: Segment<P>): seq<(Id, Envelope)>
    requires forall i :: 0 <= i < |es| ==> ToId(es[i].key.rec, tenant) in store
  {
    seq(|es|, i requires 0 <= i < |es| => (ToId(es[i].key.rec, tenant), store[ToId(es[i].key.rec, tenant)]))
  }

  /** One segment's records, ascending; the first unreadable one fails the read. */
  method ReadPage<P>(store: Contents<Envelope>, hash: u64, tenant: u48, seg: Segment<P>)
    returns (r: Result<seq<(Id, Envelope)>>)
    ensures r.Ok? <==> AllResolve(store, hash, tenant, seg)
    ensures r.Ok? ==> r.value == Resolved(store, tenant, seg)
    ensures r.Err? ==> exists i: nat :: FaultAt(store, hash, tenant, seg, i, r.error)
                                        && AllResolve(store, hash, tenant, seg[..i])
  {
    var page := [];
    for i := 0 to |seg|
      invariant AllResolve(store, hash, tenant, seg[..i])
      invariant page == Resolved(store, tenant, seg[..i])
    {
      var id := ToId(seg[i].key.rec, tenant);
      if id !in store {
        assert FaultAt(store, hash, tenant, seg, i, RecordMissing(id));
        return Err(RecordMissing(id));
      }
      if store[id].hash != hash {
        assert FaultAt(store, hash, tenant, seg, i, UnknownStructHash(store[id].hash));
        return Err(UnknownStructHash(store[id].hash));
      }
      page := page + [(id, store[id])];
    }
    assert seg[..|seg|] == seg;
    return Ok(page);
  }

  /** What both whole-collection walks answer: every record in exactly the reverse of the chain order. */
  ghost predicate WalkedBack<P>(store: Contents<Envelope>, hash: u64, tenant: u48, es: Segment<P>,
                                r: Result<seq<(Id, Envelope)>>) {
    && (r.Ok? <==> AllResolve(store, hash, tenant, es))
    && (r.Ok? ==> r.value == Reverse(Resolved(store, tenant, es)))
    && (r.Err? ==> exists i: nat :: FaultAt(store, hash, tenant, es, i, r.error))
  }

  lemma WalkedFurther<P>(store: Contents<Envelope>, hash: u64, tenant: u48, seg: Segment<P>, es: Segment<P>)
    requires AllResolve(store, hash, tenant, seg) && AllResolve(store, hash, tenant, es)
    ensures AllResolve(store, hash, tenant, seg + es)
    ensures Reverse(Resolved(store, tenant, seg + es)) ==
            Reverse(Resolved(store, tenant, es)) + Reverse(Resolved(store, tenant, seg))
  {
    assert Resolved(store, tenant, seg + es) == Resolved(store, tenant, seg) + Resolved(store, tenant, es);
    ReverseConcat(Resolved(store, tenant, seg), Resolved(store, tenant, es));
  }

  lemma Unresolved<P>(store: Contents<Envelope>, hash: u64, tenant: u48, segs: seq<Segment<P>>, i: nat, x: Error)
    requires i < |segs| && exists j: nat :: FaultAt(store, hash, tenant, segs[i], j, x)
    ensures !AllResolve(store, hash, tenant, Flat(segs))
    ensures exists j: nat :: FaultAt(store, hash, tenant, Flat(segs), j, x)
  {
    var j: nat :| FaultAt(store, hash, tenant, segs[i], j, x);
    FlatAt(segs, i, j);
    var at: nat :| at < |Flat(segs)| && Flat(segs)[at] == segs[i][j];
    assert FaultAt(store, hash, tenant, Flat(segs), at, x);
  }

  /** `Collection::all`: per segment, a page is read ascending, reversed and yielded. */
  method All<P>(store: Contents<Envelope>, hash: u64, tenant: u48, segs: seq<Segment<P>>)
    returns (r: Result<seq<(Id, Envelope)>>)
    ensures WalkedBack(store, hash, tenant, Flat(segs), r)
  {
    var out: seq<(Id, Envelope)> := [];
    var at := |segs|;
    assert segs[|segs|..] == [];
    while at > 0
      invariant 0 <= at <= |segs|
      invariant AllResolve(store, hash, tenant, Flat(segs[at..]))
      invariant out == Reverse(Resolved(store, tenant, Flat(segs[at..])))
    {
      at := at - 1;
      var page := ReadPage(store, hash, tenant, segs[at]);
      if page.Err? { Unresolved(store, hash, tenant, segs, at, page.error); return page; }
      WalkedFurther(store, hash, tenant, segs[at], Flat(segs[at + 1..]));
      FlatTail(segs, at);
      out := out + Reverse(page.value);
    }
    assert segs[0..] == segs;
    return Ok(out);
  }

  /** `all_values`: one buffer, each segment's stretch of it reversed in place. */
  method AllValues<P>(store: Contents<Envelope>, hash: u64, tenant: u48, segs: seq<Segment<P>>)
    returns (r: Result<seq<(Id, Envelope)>>)
    ensures WalkedBack(store, hash, tenant, Flat(segs), r)
  {
    var items: seq<(Id, Envelope)> := [];
    var at := |segs|;
    assert segs[|segs|..] == [];
    while at > 0
      invariant 0 <= at <= |segs|
      invariant AllResolve(store, hash, tenant, Flat(segs[at..]))
      invariant items == Reverse(Resolved(store, tenant, Flat(segs[at..])))
    {
      at := at - 1;
      var from := |items|;
      var page := ReadPage(store, hash, tenant, segs[at]);
      if page.Err? { Unresolved(store, hash, tenant, segs, at, page.error); return page; }
      WalkedFurther(store, hash, tenant, segs[at], Flat(segs[at + 1..]));
      FlatTail(segs, at);
      items := items + page.value;
      assert items[..from] + Reverse(items[from..]) ==
             Reverse(Resolved(store, tenant, Flat(segs[at + 1..]))) + Reverse(page.value);
      items := items[..from] + Reverse(items[from..]);
    }
    assert segs[0..] == segs;
    return Ok(items);
  }

  // ---- Reads entered at an offset ---------------------------------------------------------------

  /** `containing`: a position in the flat chain as a segment and a place inside it. */
  method FindOffset<P>(segs: seq<Segment<P>>, offset: nat) returns (r: Option<(nat, nat)>)
    ensures r.None? <==> offset >= |Flat(segs)|
    ensures r.Some? ==> r.value.0 < |segs| && r.value.1 < |segs[r.value.0]|
                        && |Flat(segs[..r.value.0])| + r.value.1 == offset
  {
    var seen := 0;
    for i := 0 to |segs|
      invariant seen == |Flat(segs[..i])| <= offset
    {
      FlatInit(segs, i);
      if offset < seen + |segs[i]| {
        FlatAt(segs, i, offset - seen);
        return Some((i, offset - seen));
      }
      seen := seen + |segs[i]|;
    }
    assert segs[..|segs|] == segs;
    return None;
  }

  /** The walk forward from a position inside a segment. */
  method WalkFrom<P>(segs: seq<Segment<P>>, start: nat, skip: nat) returns (out: seq<Entry<P>>)
    requires start < |segs| && skip <= |segs[start]|
    ensures |Flat(segs[..start])| + skip <= |Flat(segs)|
    ensures out == Flat(segs)[|Flat(segs[..start])| + skip..]
  {
    EnteredAt(segs, start, skip);
    ghost var rest := Flat(segs)[|Flat(segs[..start])| + skip..];
    out := segs[start][skip..];
    var at := start + 1;
    while at < |segs|
      invariant 0 < at <= |segs| && out + Flat(segs[at..]) == rest
    {
      FlatTail(segs, at);
      Associative(out, segs[at], Flat(segs[at + 1..]));
      out := out + segs[at];
      at := at + 1;
    }
    assert segs[|segs|..] == [];
  }

  /** `listed_from`: entered at an offset, exactly that suffix of the list. */
  method ListedFrom<P>(segs: seq<Segment<P>>, offset: Option<nat>) returns (out: seq<Entry<P>>)
    requires |segs| > 0
    ensures out == if offset.None? then Flat(segs)
                   else if offset.value > |Flat(segs)| then []
                   else Flat(segs)[offset.value..]
  {
    assert segs[..0] == [];
    if offset.Some? && offset.value > 0 {
      var start := FindOffset(segs, offset.value);
      if start.None? { return []; }
      out := WalkFrom(segs, start.value.0, start.value.1);
    } else {
      out := WalkFrom(segs, 0, 0);
    }
  }

  /** What is left of the flat order from a position inside a segment. */
  lemma EnteredAt<P>(segs: seq<Segment<P>>, at: nat, skip: nat)
    requires at < |segs| && skip <= |segs[at]|
    ensures |Flat(segs[..at])| + skip <= |Flat(segs)|
    ensures segs[at][skip..] + Flat(segs[at + 1..]) == Flat(segs)[|Flat(segs[..at])| + skip..]
  {
    FlatAround(segs, at);
    var pre := Flat(segs[..at]);
    assert segs[at] == segs[at][..skip] + segs[at][skip..];
    assert Flat(segs) == (pre + segs[at][..skip]) + (segs[at][skip..] + Flat(segs[at + 1..]));
  }

  /** `list_len`: the sum of the segment counts is the number of records listed. */
  method ListLen<P>(c: Chain<P>) returns (n: nat)
    requires Valid(c)
    ensures n == |View(c)|
  {
    n := 0;
    for i := 0 to |c.segs|
      invariant n == |Flat(c.segs[..i])|
    {
      FlatInit(c.segs, i);
      n := n + |c.segs[i]|;
    }
    assert c.segs[..|c.segs|] == c.segs;
    DistinctKeys(Flat(c.segs));
  }

  lemma {:induction false} DistinctKeys<P>(es: Segment<P>)
    requires Sorted(es)
    ensures |ToMap(es)| == |es|
  {
    if es != [] {
      var n := |es| - 1;
      DistinctKeys(es[..n]);
      if es[n].key in ToMap(es[..n]) {
        var i := ToMapOnly(es[..n], es[n].key);
        LessTotal(es[n].key, es[n].key);
        assert false;
      }
      assert ToMap(es).Keys == ToMap(es[..n]).Keys + {es[n].key};
      assert |ToMap(es)| == |ToMap(es).Keys| && |ToMap(es[..n])| == |ToMap(es[..n]).Keys|;
    }
  }
}
