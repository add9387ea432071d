/** The node's side of a collection catch-up: two tail scans, merged into one timeline. */
module CollectionAnswers {
  import opened Ids
  import opened Minting
  import opened Stores
  import opened Records
  import opened Keys
  import opened Chains
  import opened ChainReads
  import opened Collections
  import opened CollectionObjects
  import opened CollectionAgreement
  import CollectionRuns
  import opened CollectionSync
  import US = UniqueSync

  // ---- Sequences without repetition ---------------------------------------------------------------------

  ghost predicate NoDup<T>(s: seq<T>) {
    forall i, j :: 0 <= i < j < |s| ==> s[i] != s[j]
  }

  lemma {:induction false} NoDupCounts<T>(s: seq<T>)
    requires NoDup(s)
    ensures forall x :: multiset(s)[x] <= 1
  {
    if s != [] {
      var n := |s| - 1;
      NoDupCounts(s[..n]);
      assert s == s[..n] + [s[n]];
      assert s[n] !in multiset(s[..n]);
    }
  }

  lemma CountsNoDup<T>(s: seq<T>)
    requires forall x :: multiset(s)[x] <= 1
    ensures NoDup(s)
  {
    forall i, j | 0 <= i < j < |s| ensures s[i] != s[j] {
      assert s == s[..i] + [s[i]] + s[i + 1..j] + [s[j]] + s[j + 1..];
      assert s[i] == s[j] ==> multiset(s)[s[i]] >= 2;
    }
  }

  lemma SameMembers<T>(a: seq<T>, b: seq<T>)
    requires multiset(a) == multiset(b) && NoDup(b)
    ensures NoDup(a) && forall x :: x in a <==> x in b
  {
    NoDupCounts(b);
    CountsNoDup(a);
    forall x ensures x in a <==> x in b {
      assert x in multiset(a) <==> x in a;
      assert x in multiset(b) <==> x in b;
    }
  }

  // ---- What a tail scan found -------------------------------------------------------------------------------

  function StampIn(x: Item<()>): Stamp {
    Stamp(x.instant, x.rec)
  }

  lemma {:induction false} AboveIn(es: Segment<()>, cursor: u64, x: Item<()>)
    ensures x in Above(es, cursor) <==> x.instant > cursor && exists i :: 0 <= i < |es| && ItemOf(es[i]) == x
  {
    if es != [] {
      AboveIn(es[1..], cursor, x);
      if i :| 0 <= i < |es| && ItemOf(es[i]) == x {
        if i > 0 { assert es[1..][i - 1] == es[i]; }
      }
      if i :| 0 <= i < |es[1..]| && ItemOf(es[1..][i]) == x { assert es[i + 1] == es[1..][i]; }
    }
  }

  lemma {:induction false} AboveNoDup(es: Segment<()>, cursor: u64)
    requires Sorted(es) && Instants(es)
    ensures NoDup(Above(es, cursor))
  {
    if es != [] {
      var rest := es[1..];
      assert forall i, j :: 0 <= i < j < |rest| ==> rest[i] == es[i + 1] && rest[j] == es[j + 1];
      AboveNoDup(rest, cursor);
      AboveIn(rest, cursor, ItemOf(es[0]));
      forall i | 0 <= i < |rest| ensures ItemOf(rest[i]) != ItemOf(es[0]) {
        LessTotal(es[0].key, es[0].key);
        assert Less(es[0].key, es[i + 1].key) && rest[i] == es[i + 1];
      }
    }
  }

  lemma TailItems(c: Chain<()>, cursor: u64, out: seq<Item<()>>)
    requires InstantKeyed(c) && multiset(out) == multiset(Above(Flat(c.segs), cursor))
    ensures NoDup(out)
    ensures forall x :: x in out <==> StampIn(x) in Stamps(c) && x.instant > cursor
  {
    var es := Flat(c.segs);
    FlatInstants(c);
    AboveNoDup(es, cursor);
    SameMembers(out, Above(es, cursor));
    forall x ensures x in out <==> StampIn(x) in Stamps(c) && x.instant > cursor {
      TailItem(c, cursor, x);
    }
  }

  lemma TailItem(c: Chain<()>, cursor: u64, x: Item<()>)
    requires InstantKeyed(c) && Instants(Flat(c.segs))
    ensures x in Above(Flat(c.segs), cursor) <==> StampIn(x) in Stamps(c) && x.instant > cursor
  {
    AboveIn(Flat(c.segs), cursor, x);
    StampIff(c, x.instant, x.rec);
    ItemIff(Flat(c.segs), x);
  }

  lemma ItemIff(es: Segment<()>, x: Item<()>)
    requires Sorted(es) && Instants(es)
    ensures (exists i :: 0 <= i < |es| && ItemOf(es[i]) == x) <==> InstantKey(x.instant, x.rec) in ToMap(es)
  {
    if InstantKey(x.instant, x.rec) in ToMap(es) {
      var i := ToMapOnly(es, InstantKey(x.instant, x.rec));
      InstantKeys(x.instant, x.rec, x.instant, x.rec);
      Units(es[i].load, x.load);
      assert ItemOf(es[i]) == x;
    }
    if i :| 0 <= i < |es| && ItemOf(es[i]) == x {
      ToMapHas(es, i);
      assert es[i].key == InstantKey(x.instant, x.rec);
    }
  }

  lemma Units(a: (), b: ())
    ensures a == b
  {
  }

  /** Both tails of a chain, read. */
  method Tail(c: Chain<()>, cursor: u64) returns (out: seq<Item<()>>)
    requires InstantKeyed(c)
    ensures NoDup(out)
    ensures forall x :: x in out <==> StampIn(x) in Stamps(c) && x.instant > cursor
  {
    FlatInstants(c);
    SortedAscends(Flat(c.segs));
    out := TailSince(c.segs, cursor);
    TailItems(c, cursor, out);
  }

  // ---- Merging ------------------------------------------------------------------------------------------------

  function SavedEvent(sc: Schema, store: Contents<Envelope>, x: Item<()>): Event
    requires ToId(x.rec, sc.tenant) in store
  {
    var id := ToId(x.rec, sc.tenant);
    Event(x.instant, US.Saved(id, store[id].meta, store[id].body))
  }

  function RemovedEvent(sc: Schema, x: Item<()>): Event {
    Event(x.instant, US.Removed(ToId(x.rec, sc.tenant), x.instant))
  }

  /** The first loop: each chain entry resolved at its anchor. */
  method ResolveSaved(sc: Schema, store: Contents<Envelope>, saved: seq<Item<()>>) returns (r: Result<seq<Event>>)
    ensures r.Ok? <==> forall i :: 0 <= i < |saved| ==> Resolves(store, sc.hash, sc.tenant, saved[i].rec)
    ensures r.Ok? ==> |r.value| == |saved| && forall i :: 0 <= i < |saved| ==> r.value[i] == SavedEvent(sc, store, saved[i])
    ensures r.Err? ==> exists i :: 0 <= i < |saved| && !Resolves(store, sc.hash, sc.tenant, saved[i].rec)
                                   && r.error == Fault(store, sc.tenant, saved[i].rec)
  {
    var timeline: seq<Event> := [];
    for i := 0 to |saved|
      invariant |timeline| == i
      invariant forall j :: 0 <= j < i ==> Resolves(store, sc.hash, sc.tenant, saved[j].rec)
      invariant forall j :: 0 <= j < i ==> timeline[j] == SavedEvent(sc, store, saved[j])
    {
      var id := ToId(saved[i].rec, sc.tenant);
      if id !in store { return Err(RecordMissing(id)); }
      if store[id].hash != sc.hash { return Err(UnknownStructHash(store[id].hash)); }
      timeline := timeline + [SavedEvent(sc, store, saved[i])];
    }
    return Ok(timeline);
  }

  predicate InOrder(es: seq<Event>) {
    forall i, j :: 0 <= i < j < |es| ==> es[i].instant <= es[j].instant
  }

  method InsertInOrder(es: seq<Event>, e: Event) returns (out: seq<Event>)
    requires InOrder(es)
    ensures InOrder(out) && multiset(out) == multiset(es) + multiset{e}
  {
    var p := |es|;
    while p > 0 && es[p - 1].instant > e.instant
      invariant 0 <= p <= |es|
      invariant forall j :: p <= j < |es| ==> es[j].instant > e.instant
    {
      p := p - 1;
    }
    out := es[..p] + [e] + es[p..];
    forall i, j | 0 <= i < j < |out| ensures out[i].instant <= out[j].instant {
      assert i < p ==> out[i] == es[i];
      assert i > p ==> out[i] == es[i - 1];
      assert j < p ==> out[j] == es[j];
      assert j > p ==> out[j] == es[j - 1];
    }
    InsertedCounts(es, p, e);
  }

  lemma InsertedCounts<T>(s: seq<T>, p: nat, e: T)
    requires p <= |s|
    ensures multiset(s[..p] + [e] + s[p..]) == multiset(s) + multiset{e}
  {
    assert s == s[..p] + s[p..];
  }

  /** Sorting by instant. */
  method SortByInstant(es: seq<Event>) returns (out: seq<Event>)
    ensures InOrder(out) && multiset(out) == multiset(es)
  {
    out := [];
    for i := 0 to |es|
      invariant InOrder(out) && multiset(out) == multiset(es[..i])
    {
      assert es[..i + 1] == es[..i] + [es[i]];
      out := InsertInOrder(out, es[i]);
    }
    assert es[..|es|] == es;
  }

  /** The merged events are exactly what the state records above the cursor. */
  lemma MergedIsTimeline(sc: Schema, s: State, c: u64, saved: seq<Item<()>>, removed: seq<Item<()>>, merged: seq<Event>,
                         es: seq<Event>)
    requires CollectionRuns.TimelineOk(s) && NoDup(saved) && NoDup(removed)
    requires forall x :: x in saved <==> StampIn(x) in s.recency && x.instant > c
    requires forall x :: x in removed <==> StampIn(x) in s.removals && x.instant > c
    requires forall i :: 0 <= i < |saved| ==> ToId(saved[i].rec, sc.tenant) in s.store
    requires |merged| == |saved| + |removed|
    requires forall i :: 0 <= i < |saved| ==> merged[i] == SavedEvent(sc, s.store, saved[i])
    requires forall i :: 0 <= i < |removed| ==> merged[|saved| + i] == RemovedEvent(sc, removed[i])
    requires InOrder(es) && multiset(es) == multiset(merged)
    ensures Timeline(sc, s, c, es)
  {
    forall i | 0 <= i < |merged|
      ensures CollectionRuns.Recorded(s, StampOf(merged[i])) && merged[i].instant > c
              && merged[i] == EventOf(sc, s, StampOf(merged[i]))
    {
      if i < |saved| {
        assert saved[i] in saved && StampOf(merged[i]) == StampIn(saved[i]);
      } else {
        assert removed[i - |saved|] in removed && StampOf(merged[i]) == StampIn(removed[i - |saved|]);
      }
    }
    MergedNoDup(sc, s.store, saved, removed, merged);
    SameMembers(es, merged);
    forall i | 0 <= i < |es|
      ensures CollectionRuns.Recorded(s, StampOf(es[i])) && es[i].instant > c && es[i] == EventOf(sc, s, StampOf(es[i]))
    {
      assert es[i] in es;
      var j :| 0 <= j < |merged| && merged[j] == es[i];
    }
    forall i, j | 0 <= i < j < |es| ensures es[i].instant < es[j].instant {
      SameInstantSameEvent(sc, s, es[i], es[j]);
    }
    forall st | CollectionRuns.Recorded(s, st) && st.instant > c ensures EventOf(sc, s, st) in es {
      RecordedIsMerged(sc, s, c, saved, removed, merged, st);
    }
  }

  lemma SameInstantSameEvent(sc: Schema, s: State, a: Event, b: Event)
    requires CollectionRuns.TimelineOk(s)
    requires CollectionRuns.Recorded(s, StampOf(a)) && a == EventOf(sc, s, StampOf(a))
    requires CollectionRuns.Recorded(s, StampOf(b)) && b == EventOf(sc, s, StampOf(b))
    ensures a.instant == b.instant ==> a == b
  {
  }

  lemma MergedNoDup(sc: Schema, store: Contents<Envelope>, saved: seq<Item<()>>, removed: seq<Item<()>>, merged: seq<Event>)
    requires NoDup(saved) && NoDup(removed) && |merged| == |saved| + |removed|
    requires forall i :: 0 <= i < |saved| ==> ToId(saved[i].rec, sc.tenant) in store
    requires forall i :: 0 <= i < |saved| ==> merged[i] == SavedEvent(sc, store, saved[i])
    requires forall i :: 0 <= i < |removed| ==> merged[|saved| + i] == RemovedEvent(sc, removed[i])
    ensures NoDup(merged)
  {
    forall i, j | 0 <= i < j < |merged| ensures merged[i] != merged[j] {
      if j < |saved| {
        if merged[i] == merged[j] { SameStampSameItem(saved[i], saved[j], sc.tenant); }
      } else {
        var y := j - |saved|;
        assert merged[|saved| + y] == RemovedEvent(sc, removed[y]);
        if i >= |saved| {
          var x := i - |saved|;
          assert merged[|saved| + x] == RemovedEvent(sc, removed[x]);
          if merged[i] == merged[j] { SameStampSameItem(removed[x], removed[y], sc.tenant); }
        }
      }
    }
  }

  lemma SameStampSameItem(x: Item<()>, y: Item<()>, tenant: u48)
    requires x.instant == y.instant && ToId(x.rec, tenant) == ToId(y.rec, tenant)
    ensures x == y
  {
    assert FromId(ToId(x.rec, tenant)) == x.rec && FromId(ToId(y.rec, tenant)) == y.rec;
    Units(x.load, y.load);
  }

  lemma RecordedIsMerged(sc: Schema, s: State, c: u64, saved: seq<Item<()>>, removed: seq<Item<()>>, merged: seq<Event>,
                         st: Stamp)
    requires CollectionRuns.TimelineOk(s) && CollectionRuns.Recorded(s, st) && st.instant > c
    requires forall x :: x in saved <==> StampIn(x) in s.recency && x.instant > c
    requires forall x :: x in removed <==> StampIn(x) in s.removals && x.instant > c
    requires forall i :: 0 <= i < |saved| ==> ToId(saved[i].rec, sc.tenant) in s.store
    requires |merged| == |saved| + |removed|
    requires forall i :: 0 <= i < |saved| ==> merged[i] == SavedEvent(sc, s.store, saved[i])
    requires forall i :: 0 <= i < |removed| ==> merged[|saved| + i] == RemovedEvent(sc, removed[i])
    ensures EventOf(sc, s, st) in merged
  {
    var x := Item(st.instant, st.rec, ());
    assert StampIn(x) == st;
    if st in s.recency {
      var i :| 0 <= i < |saved| && saved[i] == x;
      assert merged[i] == EventOf(sc, s, st);
    } else {
      var i :| 0 <= i < |removed| && removed[i] == x;
      assert merged[|saved| + i] == EventOf(sc, s, st);
    }
  }

  /** The second loop: each log entry told as a removal. */
  method AddRemoved(sc: Schema, timeline: seq<Event>, removed: seq<Item<()>>) returns (merged: seq<Event>)
    ensures |merged| == |timeline| + |removed|
    ensures forall i :: 0 <= i < |timeline| ==> merged[i] == timeline[i]
    ensures forall i :: 0 <= i < |removed| ==> merged[|timeline| + i] == RemovedEvent(sc, removed[i])
  {
    merged := timeline;
    for i := 0 to |removed|
      invariant |merged| == |timeline| + i
      invariant forall j :: 0 <= j < |timeline| ==> merged[j] == timeline[j]
      invariant forall j :: 0 <= j < i ==> merged[|timeline| + j] == RemovedEvent(sc, removed[j])
    {
      merged := merged + [RemovedEvent(sc, removed[i])];
    }
  }

  lemma AllSavedResolve(s: State, sc: Schema, cursor: u64, saved: seq<Item<()>>)
    requires forall x :: x in saved <==> StampIn(x) in s.recency && x.instant > cursor
    requires forall i :: 0 <= i < |saved| ==> Resolves(s.store, sc.hash, sc.tenant, saved[i].rec)
    ensures forall st :: st in s.recency && st.instant > cursor ==> Resolves(s.store, sc.hash, sc.tenant, st.rec)
  {
    forall st | st in s.recency && st.instant > cursor ensures Resolves(s.store, sc.hash, sc.tenant, st.rec) {
      var x := Item(st.instant, st.rec, ());
      assert StampIn(x) == st && x in saved;
    }
  }

  /** What a timeline tells of a collection in agreement: a save is the living record itself, at its own instant; a removal
      carries the instant it was logged at. */
  lemma TimelineSays(sc: Schema, s: State, c: u64, es: seq<Event>, i: nat)
    requires ChainsAgree(sc, s) && Timeline(sc, s, c, es) && i < |es|
    ensures match es[i].change
            case Saved(id, meta, body) =>
              Lives(s.store, id) == Some(Envelope(sc.hash, meta, body)) && meta.succession == CreatedAt(es[i].instant)
            case Removed(id, at) => at == es[i].instant && Stamp(at, FromId(id)) in s.removals && id.tenant == sc.tenant
  {
    var st := StampOf(es[i]);
    if st in s.recency { assert At(sc, s.store, st.rec).Some?; }
  }

  /** `collection_changes`. In a state whose timeline has no ties and whose chain names existing records — every
      reachable one — the answer is the timeline above the cursor, and the cursor to come back with. */
  method CollectionChanges(col: Collection, since: Option<u64>) returns (r: Result<(u64, seq<Event>)>)
    requires col.Valid()
    ensures since.None? ==> r.Ok? && IsFloor(col.Abs(), r.value.0) && r.value.1 == []
    ensures since.Some? && r.Ok? ==> r.value.0 == NewCursor(since.value, r.value.1)
    ensures since.Some? && r.Ok? && CollectionRuns.TimelineOk(col.Abs()) ==>
              Timeline(col.sc, col.Abs(), since.value, r.value.1)
    ensures since.Some? ==> (r.Ok? <==> forall st :: st in col.Abs().recency && st.instant > since.value ==>
                                          Resolves(col.store, col.sc.hash, col.sc.tenant, st.rec))
    ensures r.Err? ==> exists st :: st in col.Abs().recency && !Resolves(col.store, col.sc.hash, col.sc.tenant, st.rec)
                                    && r.error == Fault(col.store, col.sc.tenant, st.rec)
  {
    if since.None? {
      var floor := col.Floor();
      return Ok((floor, []));
    }
    var cursor := since.value;
    var saved := Tail(col.recency, cursor);
    var removed := Tail(col.removals, cursor);
    var resolved := ResolveSaved(col.sc, col.store, saved);
    assert forall i :: 0 <= i < |saved| ==> saved[i] in saved;
    if resolved.Err? {
      ghost var i :| 0 <= i < |saved| && !Resolves(col.store, col.sc.hash, col.sc.tenant, saved[i].rec)
                     && resolved.error == Fault(col.store, col.sc.tenant, saved[i].rec);
      assert StampIn(saved[i]) in col.Abs().recency && StampIn(saved[i]).rec == saved[i].rec;
      return Err(resolved.error);
    }
    AllSavedResolve(col.Abs(), col.sc, cursor, saved);
    var merged := AddRemoved(col.sc, resolved.value, removed);
    var es := SortByInstant(merged);
    if CollectionRuns.TimelineOk(col.Abs()) { MergedIsTimeline(col.sc, col.Abs(), cursor, saved, removed, merged, es); }
    return Ok((NewCursor(cursor, es), es));
  }

  // ---- Reads of a collection in agreement ---------------------------------------------------------------------

  /** Every entry of an agreeing chain names a readable record, so catch-up and both whole walks succeed. */
  lemma AgreeingChainReads(sc: Schema, s: State, c: Chain<()>)
    requires ChainsAgree(sc, s) && InstantKeyed(c) && Stamps(c) == s.recency
    ensures forall st :: st in s.recency ==> Resolves(s.store, sc.hash, sc.tenant, st.rec)
    ensures AllResolve(s.store, sc.hash, sc.tenant, Flat(c.segs))
  {
    forall st | st in s.recency ensures Resolves(s.store, sc.hash, sc.tenant, st.rec) {
      assert At(sc, s.store, st.rec).Some?;
    }
    forall i | 0 <= i < |Flat(c.segs)| ensures Resolves(s.store, sc.hash, sc.tenant, Flat(c.segs)[i].key.rec) {
      var key := Flat(c.segs)[i].key;
      ToMapHas(Flat(c.segs), i);
      assert Stamp(KeyInstant(key), key.rec) in Stamps(c);
    }
  }

  ghost predicate Lists(es: Segment<Envelope>, rec: LocalId) {
    exists x :: 0 <= x < |es| && es[x].key.rec == rec
  }

  lemma AgreeingEntry(sc: Schema, store: Contents<Envelope>, i: nat, c: Chain<Envelope>, x: nat)
    requires Chains.Valid(c) && ListOk(sc, store, i, View(c)) && x < |Flat(c.segs)|
    ensures At(sc, store, Flat(c.segs)[x].key.rec) == Some(Flat(c.segs)[x].load)
  {
    ToMapHas(Flat(c.segs), x);
  }

  lemma AgreeingRecord(sc: Schema, store: Contents<Envelope>, i: nat, c: Chain<Envelope>, rec: LocalId)
    requires Chains.Valid(c) && ListOk(sc, store, i, View(c)) && At(sc, store, rec).Some?
    ensures Lists(Flat(c.segs), rec)
  {
    var key := SecKey(sc.listField(At(sc, store, rec).value.body, i), rec);
    assert key in View(c);
    var x := ToMapOnly(Flat(c.segs), key);
    assert Flat(c.segs)[x].key.rec == rec;
  }

  /** A list in agreement reads as the living records, each once, in the order of its own property. */
  lemma AgreeingListReads(sc: Schema, store: Contents<Envelope>, i: nat, c: Chain<Envelope>)
    requires Chains.Valid(c) && ListOk(sc, store, i, View(c))
    ensures Sorted(Flat(c.segs))
    ensures forall rec :: At(sc, store, rec).Some? <==> Lists(Flat(c.segs), rec)
    ensures forall x :: 0 <= x < |Flat(c.segs)| ==> At(sc, store, Flat(c.segs)[x].key.rec) == Some(Flat(c.segs)[x].load)
  {
    forall x | 0 <= x < |Flat(c.segs)| ensures At(sc, store, Flat(c.segs)[x].key.rec) == Some(Flat(c.segs)[x].load) {
      AgreeingEntry(sc, store, i, c, x);
    }
    forall rec | At(sc, store, rec).Some? ensures Lists(Flat(c.segs), rec) {
      AgreeingRecord(sc, store, i, c, rec);
    }
  }
}
