/** The collection as the object it is: chains and trees edited one plan at a time, then one commit. */
module CollectionObjects {
  import opened Ids
  import opened Minting
  import opened Stores
  import opened Records
  import opened Keys
  import opened Chains
  import opened ChainReads
  import opened Collections

  // ---- Chains of stamps -------------------------------------------------------------------------------

  function Stamps(c: Chain<()>): set<Stamp> {
    set k | k in View(c) :: Stamp(KeyInstant(k), k.rec)
  }

  ghost predicate InstantKeyed(c: Chain<()>) {
    Chains.Valid(c) && forall k :: k in View(c) ==> k == InstantKey(KeyInstant(k), k.rec)
  }

  lemma StampIff(c: Chain<()>, t: u64, rec: LocalId)
    requires InstantKeyed(c)
    ensures Stamp(t, rec) in Stamps(c) <==> InstantKey(t, rec) in View(c)
  {
    InstantKeys(t, rec, t, rec);
    if InstantKey(t, rec) in View(c) {
      assert Stamp(KeyInstant(InstantKey(t, rec)), rec) in Stamps(c);
    }
  }

  lemma StampsInserted(c: Chain<()>, c': Chain<()>, t: u64, rec: LocalId)
    requires InstantKeyed(c) && Chains.Valid(c') && View(c') == View(c)[InstantKey(t, rec) := ()]
    ensures InstantKeyed(c') && Stamps(c') == Stamps(c) + {Stamp(t, rec)}
  {
    InstantKeys(t, rec, t, rec);
    forall st ensures st in Stamps(c') <==> st in Stamps(c) + {Stamp(t, rec)} {
      StampIff(c, st.instant, st.rec);
      StampIff(c', st.instant, st.rec);
      InstantKeys(st.instant, st.rec, t, rec);
    }
  }

  lemma StampsRemoved(c: Chain<()>, c': Chain<()>, t: u64, rec: LocalId)
    requires InstantKeyed(c) && Chains.Valid(c') && View(c') == View(c) - {InstantKey(t, rec)}
    ensures InstantKeyed(c') && Stamps(c') == Stamps(c) - {Stamp(t, rec)}
  {
    InstantKeys(t, rec, t, rec);
    forall st ensures st in Stamps(c') <==> st in Stamps(c) - {Stamp(t, rec)} {
      StampIff(c, st.instant, st.rec);
      StampIff(c', st.instant, st.rec);
      InstantKeys(st.instant, st.rec, t, rec);
    }
  }

  lemma FlatInstants(c: Chain<()>)
    requires InstantKeyed(c)
    ensures Instants(Flat(c.segs))
  {
    forall i | 0 <= i < |Flat(c.segs)|
      ensures Flat(c.segs)[i].key == InstantKey(KeyInstant(Flat(c.segs)[i].key), Flat(c.segs)[i].key.rec)
    {
      ToMapHas(Flat(c.segs), i);
    }
  }

  method FileStamp(c: Chain<()>, t: u64, rec: LocalId) returns (r: Chain<()>)
    requires InstantKeyed(c)
    ensures InstantKeyed(r) && Stamps(r) == Stamps(c) + {Stamp(t, rec)}
  {
    r := PlanInsert(c, InstantKey(t, rec), ());
    StampsInserted(c, r, t, rec);
  }

  method UnfileStamp(c: Chain<()>, t: u64, rec: LocalId) returns (r: Option<Chain<()>>)
    requires InstantKeyed(c)
    ensures r.Some? <==> Stamp(t, rec) in Stamps(c)
    ensures r.Some? ==> InstantKeyed(r.value) && Stamps(r.value) == Stamps(c) - {Stamp(t, rec)}
  {
    StampIff(c, t, rec);
    r := PlanRemove(c, InstantKey(t, rec));
    if r.Some? { StampsRemoved(c, r.value, t, rec); }
  }

  /** `instant_floor`: the last keys of the two tail segments. */
  method InstantFloor(recency: Chain<()>, removals: Chain<()>) returns (floor: u64)
    requires InstantKeyed(recency) && InstantKeyed(removals)
    ensures forall st :: st in Stamps(recency) + Stamps(removals) ==> st.instant <= floor
    ensures floor > 0 ==> exists st :: st in Stamps(recency) + Stamps(removals) && st.instant == floor
  {
    FlatInstants(recency);
    FlatInstants(removals);
    var live := ChainFloor(recency);
    var gone := ChainFloor(removals);
    floor := Max(live, gone);
    if floor > 0 {
      ghost var k :| (k in View(recency) || k in View(removals)) && KeyInstant(k) == floor;
      assert Stamp(KeyInstant(k), k.rec) in Stamps(recency) + Stamps(removals);
    }
  }

  lemma EmptyChain<P>(page: nat, indexed: bool)
    requires page > 0
    ensures var c: Chain<P> := Chain(page, indexed, [[]]); Chains.Valid(c) && View(c) == map[]
  {
  }

  // ---- The planners ---------------------------------------------------------------------------------------

  ghost predicate AllValid(lists: seq<Chain<Envelope>>) {
    forall i :: 0 <= i < |lists| ==> Chains.Valid(lists[i])
  }

  ghost function Views(lists: seq<Chain<Envelope>>): seq<map<SecKey, Envelope>> {
    seq(|lists|, i requires 0 <= i < |lists| => View(lists[i]))
  }

  lemma AddView(lists: seq<Chain<Envelope>>, c: Chain<Envelope>)
    requires AllValid(lists) && Chains.Valid(c)
    ensures AllValid(lists + [c]) && Views(lists + [c]) == Views(lists) + [View(c)]
  {
  }

  method PlanListInserts(sc: Schema, lists: seq<Chain<Envelope>>, rec: LocalId, e: Envelope)
    returns (out: seq<Chain<Envelope>>)
    requires AllValid(lists)
    ensures AllValid(out) && Views(out) == ListsInserted(sc, Views(lists), rec, e)
  {
    out := [];
    ghost var target := ListsInserted(sc, Views(lists), rec, e);
    for i := 0 to |lists|
      invariant AllValid(out) && Views(out) == target[..i]
    {
      var c := PlanInsert(lists[i], ListKey(sc, e.body, i, rec), e);
      AddView(out, c);
      out := out + [c];
    }
  }

  /** Every list is rewritten; the removal is skipped where the property did not change. */
  method PlanListMoves(sc: Schema, lists: seq<Chain<Envelope>>, rec: LocalId, prior: Bytes, e: Envelope)
    returns (out: seq<Chain<Envelope>>)
    requires AllValid(lists)
    ensures AllValid(out) && Views(out) == ListsMoved(sc, Views(lists), rec, prior, e)
  {
    out := [];
    ghost var target := ListsMoved(sc, Views(lists), rec, prior, e);
    for i := 0 to |lists|
      invariant AllValid(out) && Views(out) == target[..i]
    {
      var was, now := ListKey(sc, prior, i, rec), ListKey(sc, e.body, i, rec);
      var c := lists[i];
      if was != now {
        var gone := PlanRemove(c, was);
        if gone.Some? { c := gone.value; }
      }
      ReplacedKey(View(lists[i]), View(c), was, now, e);
      c := PlanInsert(c, now, e);
      AddView(out, c);
      out := out + [c];
    }
  }

  lemma ReplacedKey(m: map<SecKey, Envelope>, n: map<SecKey, Envelope>, was: SecKey, now: SecKey, e: Envelope)
    requires n == if was != now && was in m then m - {was} else m
    ensures n[now := e] == (m - {was})[now := e]
  {
  }

  method PlanListRemoves(sc: Schema, lists: seq<Chain<Envelope>>, rec: LocalId, body: Bytes)
    returns (out: seq<Chain<Envelope>>)
    requires AllValid(lists)
    ensures AllValid(out) && Views(out) == ListsRemoved(sc, Views(lists), rec, body)
  {
    out := [];
    ghost var target := ListsRemoved(sc, Views(lists), rec, body);
    for i := 0 to |lists|
      invariant AllValid(out) && Views(out) == target[..i]
    {
      var key := ListKey(sc, body, i, rec);
      var gone := PlanRemove(lists[i], key);
      assert gone.None? ==> View(lists[i]) - {key} == View(lists[i]);
      var c := if gone.Some? then gone.value else lists[i];
      AddView(out, c);
      out := out + [c];
    }
  }

  method PlanSecInserts(sc: Schema, secs: seq<set<SecKey>>, rec: LocalId, body: Bytes) returns (out: seq<set<SecKey>>)
    ensures out == SecsInserted(sc, secs, rec, body)
  {
    out := [];
    for i := 0 to |secs|
      invariant out == SecsInserted(sc, secs, rec, body)[..i]
    {
      out := out + [secs[i] + {SecondaryKey(sc, body, i, rec)}];
    }
  }

  method PlanSecRekeys(sc: Schema, secs: seq<set<SecKey>>, rec: LocalId, prior: Bytes, body: Bytes)
    returns (out: seq<set<SecKey>>)
    ensures out == SecsMoved(sc, secs, rec, prior, body)
  {
    out := [];
    for i := 0 to |secs|
      invariant out == SecsMoved(sc, secs, rec, prior, body)[..i]
    {
      var was, now := SecondaryKey(sc, prior, i, rec), SecondaryKey(sc, body, i, rec);
      var tree := secs[i];
      if was != now {
        tree := tree - {was};
        tree := tree + {now};
      }
      out := out + [tree];
    }
  }

  method PlanSecRemoves(sc: Schema, secs: seq<set<SecKey>>, rec: LocalId, body: Bytes) returns (out: seq<set<SecKey>>)
    ensures out == SecsRemoved(sc, secs, rec, body)
  {
    out := [];
    for i := 0 to |secs|
      invariant out == SecsRemoved(sc, secs, rec, body)[..i]
    {
      out := out + [secs[i] - {SecondaryKey(sc, body, i, rec)}];
    }
  }

  /** The keys of `fields` not in `except`. */
  function KeysOf(fields: seq<Bytes>, except: seq<Bytes>, rec: LocalId): set<SecKey> {
    set f | f in fields && f !in except :: SecKey(f, rec)
  }

  lemma KeysOfAreFuzzyKeys(sc: Schema, prior: Bytes, body: Bytes, i: nat, rec: LocalId)
    ensures KeysOf(sc.fuzzyFields(body, i), [], rec) == FuzzyKeys(sc, body, i, rec)
    ensures KeysOf(sc.fuzzyFields(body, i), sc.fuzzyFields(prior, i), rec) ==
            FuzzyKeys(sc, body, i, rec) - FuzzyKeys(sc, prior, i, rec)
  {
  }

  /** One tree's postings, filed one key at a time, skipping those in `except`. */
  method FilePostings(tree: set<SecKey>, fields: seq<Bytes>, except: seq<Bytes>, rec: LocalId) returns (out: set<SecKey>)
    ensures out == tree + KeysOf(fields, except, rec)
  {
    out := tree;
    for i := 0 to |fields|
      invariant out == tree + KeysOf(fields[..i], except, rec)
    {
      if fields[i] !in except { out := out + {SecKey(fields[i], rec)}; }
    }
    assert fields[..|fields|] == fields;
  }

  method UnfilePostings(tree: set<SecKey>, fields: seq<Bytes>, except: seq<Bytes>, rec: LocalId)
    returns (out: set<SecKey>)
    ensures out == tree - KeysOf(fields, except, rec)
  {
    out := tree;
    for i := 0 to |fields|
      invariant out == tree - KeysOf(fields[..i], except, rec)
    {
      if fields[i] !in except { out := out - {SecKey(fields[i], rec)}; }
    }
    assert fields[..|fields|] == fields;
  }

  method PlanFuzzyInserts(sc: Schema, fuzzy: seq<set<SecKey>>, rec: LocalId, body: Bytes) returns (out: seq<set<SecKey>>)
    ensures out == FuzzyInserted(sc, fuzzy, rec, body)
  {
    out := [];
    for i := 0 to |fuzzy|
      invariant out == FuzzyInserted(sc, fuzzy, rec, body)[..i]
    {
      KeysOfAreFuzzyKeys(sc, body, body, i, rec);
      var tree := FilePostings(fuzzy[i], sc.fuzzyFields(body, i), [], rec);
      out := out + [tree];
    }
  }

  /** Only the grams that moved: removals of what is gone, then inserts of what is new. */
  method PlanFuzzyMoves(sc: Schema, fuzzy: seq<set<SecKey>>, rec: LocalId, prior: Bytes, body: Bytes)
    returns (out: seq<set<SecKey>>)
    ensures out == FuzzyMoved(sc, fuzzy, rec, prior, body)
  {
    out := [];
    for i := 0 to |fuzzy|
      invariant out == FuzzyMoved(sc, fuzzy, rec, prior, body)[..i]
    {
      var was, now := sc.fuzzyFields(prior, i), sc.fuzzyFields(body, i);
      var tree := fuzzy[i];
      KeysOfAreFuzzyKeys(sc, prior, body, i, rec);
      KeysOfAreFuzzyKeys(sc, body, prior, i, rec);
      if was != now {
        tree := UnfilePostings(tree, was, now, rec);
        tree := FilePostings(tree, now, was, rec);
      }
      assert tree == fuzzy[i] - (FuzzyKeys(sc, prior, i, rec) - FuzzyKeys(sc, body, i, rec))
                     + (FuzzyKeys(sc, body, i, rec) - FuzzyKeys(sc, prior, i, rec));
      out := out + [tree];
    }
  }

  method PlanFuzzyRemoves(sc: Schema, fuzzy: seq<set<SecKey>>, rec: LocalId, body: Bytes) returns (out: seq<set<SecKey>>)
    ensures out == FuzzyRemoved(sc, fuzzy, rec, body)
  {
    out := [];
    for i := 0 to |fuzzy|
      invariant out == FuzzyRemoved(sc, fuzzy, rec, body)[..i]
    {
      KeysOfAreFuzzyKeys(sc, body, body, i, rec);
      var tree := UnfilePostings(fuzzy[i], sc.fuzzyFields(body, i), [], rec);
      out := out + [tree];
    }
  }

  // ---- The object ------------------------------------------------------------------------------------------

  class Collection {
    const sc: Schema
    var store: Contents<Envelope>
    var recency: Chain<()>
    var removals: Chain<()>
    var lists: seq<Chain<Envelope>>
    var secs: seq<set<SecKey>>
    var fuzzy: seq<set<SecKey>>
    /** The process's watermark. */
    var last: u64

    ghost predicate Valid()
      reads this
    {
      InstantKeyed(recency) && InstantKeyed(removals) && AllValid(lists)
    }

    ghost function Abs(): State
      reads this
    {
      State(store, Stamps(recency), Stamps(removals), Views(lists), secs, fuzzy)
    }

    /** `create`: everything empty; removals are filed in a chain without separators, on pages of their own size. */
    constructor (schema: Schema, page: nat, listCount: nat, fuzzyCount: nat)
      requires page > 0
      ensures Valid() && Abs() == Empty(listCount, schema.secondaries, fuzzyCount) && last == 0
    {
      sc := schema;
      store := map[];
      recency := Chain(page, true, [[]]);
      removals := Chain(256, false, [[]]);
      lists := seq(listCount, _ => Chain(page, true, [[]]));
      secs := seq(schema.secondaries, _ => {});
      fuzzy := seq(fuzzyCount, _ => {});
      last := 0;
      EmptyChain<()>(page, true);
      EmptyChain<()>(256, false);
      EmptyChain<Envelope>(page, true);
    }

    method Floor() returns (floor: u64)
      requires Valid()
      ensures IsFloor(Abs(), floor)
    {
      floor := InstantFloor(recency, removals);
    }

    /** The whole new state of an operation that may fail: its outcome's state, or no change at all. */
    twostate predicate Became(o: Outcome)
      reads this
    {
      && last == o.last
      && Abs() == if o.result.Ok? then o.result.value else old(Abs())
    }

    /** Every derived structure takes the record in. */
    method Enter(id: Id, e: Envelope, store': Contents<Envelope>)
      requires Valid()
      modifies this
      ensures Valid() && last == old(last)
      ensures Abs() == Entered(sc, old(Abs()), store', id, e)
    {
      var rec := FromId(id);
      store := store';
      recency := FileStamp(recency, e.meta.succession.instant, rec);
      lists := PlanListInserts(sc, lists, rec, e);
      secs := PlanSecInserts(sc, secs, rec, e.body);
      fuzzy := PlanFuzzyInserts(sc, fuzzy, rec, e.body);
    }

    /** The record leaves every structure of the living and joins the removal log. */
    method Leave(id: Id, e: Envelope, removedAt: u64)
      requires Valid()
      modifies this
      ensures Valid() && last == old(last)
      ensures Abs() == Gone(sc, old(Abs()), id, e, removedAt)
    {
      var rec := FromId(id);
      store := store[id := e.(meta := e.meta.(removed := true))];
      if e.meta.succession.CreatedAt? {
        var gone := UnfileStamp(recency, e.meta.succession.instant, rec);
        if gone.Some? { recency := gone.value; }
      }
      lists := PlanListRemoves(sc, lists, rec, e.body);
      removals := FileStamp(removals, removedAt, rec);
      LeaveTrees(rec, e.body);
    }

    method LeaveTrees(rec: LocalId, body: Bytes)
      modifies `secs, `fuzzy
      ensures secs == SecsRemoved(sc, old(secs), rec, body) && fuzzy == FuzzyRemoved(sc, old(fuzzy), rec, body)
    {
      secs := PlanSecRemoves(sc, secs, rec, body);
      fuzzy := PlanFuzzyRemoves(sc, fuzzy, rec, body);
    }

    /** `plan_reindex`, behind the liveness gate that is the recency chain itself. */
    method Reindex(id: Id, prior: (u64, Bytes), e: Envelope, store': Contents<Envelope>)
      requires Valid()
      modifies this
      ensures Valid() && last == old(last)
      ensures Abs() == Reindexed(sc, old(Abs()), store', id, prior, e)
    {
      var rec := FromId(id);
      store := store';
      var gone := UnfileStamp(recency, prior.0, rec);
      if gone.Some? {
        recency := FileStamp(gone.value, e.meta.succession.instant, rec);
        lists := PlanListMoves(sc, lists, rec, prior.1, e);
      }
      secs := PlanSecRekeys(sc, secs, rec, prior.1, e.body);
      fuzzy := PlanFuzzyMoves(sc, fuzzy, rec, prior.1, e.body);
    }

    method SavePlanned(id: Id, body: Bytes, imposed: Option<Metadata>, clock: u64) returns (r: Result<()>, ghost floor: u64)
      requires Valid()
      modifies this
      ensures Valid() && IsFloor(old(Abs()), floor)
      ensures var o := Collections.SavePlanned(sc, old(Abs()), id, body, imposed, floor, clock, old(last));
              Became(o) && (r.Ok? <==> o.result.Ok?) && (r.Err? ==> r.error == o.result.error)
    {
      var floor' := Floor();
      floor := floor';
      var anchor := KeyedAnchor(sc, body);
      if anchor.Some? && anchor.value != id { return Err(KeyMismatch(id)), floor; }
      var plan := Plan(sc, id, imposed, floor', false);
      var planned := PlanChainedSave(store, plan, body, clock, last);
      last := LastAfter(imposed, planned, last);
      if planned.Err? { return Err(planned.error), floor; }
      var p := planned.value;
      var applied := Apply(store, p.writes);
      if applied.Err? { return Err(applied.error), floor; }
      if p.prior.Some? {
        Reindex(id, p.prior.value, Envelope(sc.hash, p.meta, body), applied.value);
      } else if sc.secondaries > 0 {
        return Err(RecordMissing(id)), floor;
      } else {
        store := applied.value;
      }
      return Ok(()), floor;
    }

    method ChainIntoLiving(id: Id, body: Bytes, imposed: Option<Metadata>, clock: u64)
      returns (r: Result<()>, ghost floor: u64)
      requires Valid()
      modifies this
      ensures Valid() && IsFloor(old(Abs()), floor)
      ensures var o := Collections.ChainIntoLiving(sc, old(Abs()), id, body, imposed, floor, clock, old(last));
              Became(o) && (r.Ok? <==> o.result.Ok?) && (r.Err? ==> r.error == o.result.error)
    {
      var floor' := Floor();
      floor := floor';
      var planned := PlanChainedSave(store, Plan(sc, id, imposed, floor', true), body, clock, last);
      last := LastAfter(imposed, planned, last);
      if planned.Err? { return Err(planned.error), floor; }
      var p := planned.value;
      if p.meta.succession.Next? { return Err(ChainCorrupt(id)), floor; }
      var applied := Apply(store, p.writes);
      if applied.Err? { return Err(applied.error), floor; }
      Enter(id, Envelope(sc.hash, p.meta, body), applied.value);
      return Ok(()), floor;
    }

    method UpsertKeyed(id: Id, body: Bytes, clock: u64) returns (r: Result<()>, ghost floor: u64)
      requires Valid()
      modifies this
      ensures Valid() && IsFloor(old(Abs()), floor)
      ensures var o := Collections.UpsertKeyed(sc, old(Abs()), id, body, floor, clock, old(last));
              Became(o) && (r.Ok? <==> o.result.Ok?) && (r.Err? ==> r.error == o.result.error)
    {
      if Foreign(sc, store, id) {
        var floor' := Floor();
        return Err(UnknownStructHash(store[id].hash)), floor';
      }
      if ReadsLive(store, id) {
        r, floor := SavePlanned(id, body, None, clock);
      } else {
        r, floor := ChainIntoLiving(id, body, None, clock);
      }
    }

    /** `insert`. */
    method Insert(body: Bytes, clock: u64) returns (r: Result<Id>, ghost floor: u64)
      requires Valid()
      modifies this
      ensures Valid() && IsFloor(old(Abs()), floor)
      ensures var o := Collections.Insert(sc, old(Abs()), body, floor, clock, old(last));
              Became(o) && (r.Ok? <==> o.result.Ok?) && (r.Err? ==> r.error == o.result.error)
      ensures r.Ok? ==> r.value == if sc.keyed then KeyedAnchor(sc, body).value else KeyedId(sc.tenant, sc.hash, last)
    {
      var anchor := KeyedAnchor(sc, body);
      if anchor.Some? {
        var done;
        done, floor := UpsertKeyed(anchor.value, body, clock);
        return if done.Ok? then Ok(anchor.value) else Err(done.error), floor;
      }
      var floor' := Floor();
      floor := floor';
      last := MintValue(clock, floor', last);
      var id := KeyedId(sc.tenant, sc.hash, last);
      var e := Envelope(sc.hash, FirstMeta(last, Some(sc.pivot), sc.user), body);
      Enter(id, e, store[id := e]);
      return Ok(id), floor;
    }

    /** `remove`; says whether the record was living. */
    method Remove(id: Id, clock: u64) returns (r: Result<bool>, ghost floor: u64)
      requires Valid()
      modifies this
      ensures Valid() && IsFloor(old(Abs()), floor)
      ensures var o := Withdraw(sc, old(Abs()), id, floor, clock, old(last));
              Became(o) && (r.Ok? <==> o.result.Ok?) && (r.Err? ==> r.error == o.result.error)
      ensures r.Ok? ==> (r.value <==> ReadsLive(old(store), id))
    {
      var floor' := Floor();
      floor := floor';
      if Foreign(sc, store, id) { return Err(UnknownStructHash(store[id].hash)), floor; }
      if !ReadsLive(store, id) { return Ok(false), floor; }
      last := MintValue(clock, floor', last);
      Leave(id, store[id], last);
      return Ok(true), floor;
    }

    /** `adopt_with`. */
    method AdoptWith(id: Id, meta: Metadata, body: Bytes, clock: u64) returns (r: Result<()>, ghost floor: u64)
      requires Valid()
      modifies this
      ensures Valid() && IsFloor(old(Abs()), floor)
      ensures var o := Collections.AdoptWith(sc, old(Abs()), id, meta, body, floor, clock, old(last));
              Became(o) && (r.Ok? <==> o.result.Ok?) && (r.Err? ==> r.error == o.result.error)
    {
      var floor' := Floor();
      floor := floor';
      if id !in store {
        if meta.succession.Next? { return Err(ChainCorrupt(id)), floor; }
        var e := Envelope(sc.hash, meta, body);
        Enter(id, e, store[id := e]);
        return Ok(()), floor;
      }
      if Foreign(sc, store, id) { return Err(UnknownStructHash(store[id].hash)), floor; }
      if !ReadsLive(store, id) {
        r, floor := ChainIntoLiving(id, body, Some(meta), clock);
      } else if store[id].meta == meta && store[id].body == body {
        r := Ok(());
      } else {
        r, floor := SavePlanned(id, body, Some(meta), clock);
      }
    }
  }
}
