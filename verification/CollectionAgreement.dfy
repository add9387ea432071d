/** Every structure a collection derives agrees with its anchors, over every run. */
module CollectionAgreement {
  import opened Ids
  import opened Minting
  import opened Stores
  import opened Records
  import opened Keys
  import opened Collections

  // ---- What agreement means -----------------------------------------------------------------------

  /** Anchors hold live-form versions of this type, archives superseded ones, all under the collection's tenant. */
  ghost predicate AnchorsOk(sc: Schema, store: Contents<Envelope>) {
    forall id :: id in store ==>
      id.tenant == sc.tenant && store[id].hash == sc.hash && (store[id].meta.succession.Next? <==> id.flag)
  }

  /** What lives at the anchor a key points to. */
  function At(sc: Schema, store: Contents<Envelope>, rec: LocalId): Option<Envelope> {
    Lives(store, ToId(rec, sc.tenant))
  }

  /** The stamps are those of the living records and no others. */
  ghost predicate RecencyOk(sc: Schema, store: Contents<Envelope>, recency: set<Stamp>) {
    forall st :: st in recency <==>
      At(sc, store, st.rec).Some? && At(sc, store, st.rec).value.meta.succession.instant == st.instant
  }

  /** Exactly the living records, each under its current key, each a copy of its anchor. */
  ghost predicate ListOk(sc: Schema, store: Contents<Envelope>, i: nat, m: map<SecKey, Envelope>) {
    && (forall k :: k in m <==>
          At(sc, store, k.rec).Some? && k.field == sc.listField(At(sc, store, k.rec).value.body, i))
    && (forall k :: k in m ==> At(sc, store, k.rec) == Some(m[k]))
  }

  /** What a rebuild of secondary `i` from the living records would hold. */
  ghost predicate SecOk(sc: Schema, store: Contents<Envelope>, i: nat, ix: set<SecKey>) {
    forall k :: k in ix <==>
      At(sc, store, k.rec).Some? && k.field == sc.secField(At(sc, store, k.rec).value.body, i)
  }

  ghost predicate FuzzyOk(sc: Schema, store: Contents<Envelope>, i: nat, ix: set<SecKey>) {
    forall k :: k in ix <==>
      At(sc, store, k.rec).Some? && k.field in sc.fuzzyFields(At(sc, store, k.rec).value.body, i)
  }

  ghost predicate ListsOk(sc: Schema, store: Contents<Envelope>, lists: seq<map<SecKey, Envelope>>) {
    forall i: nat :: i < |lists| ==> ListOk(sc, store, i, lists[i])
  }

  ghost predicate SecsOk(sc: Schema, store: Contents<Envelope>, secs: seq<set<SecKey>>) {
    forall i: nat :: i < |secs| ==> SecOk(sc, store, i, secs[i])
  }

  ghost predicate FuzziesOk(sc: Schema, store: Contents<Envelope>, fuzzy: seq<set<SecKey>>) {
    forall i: nat :: i < |fuzzy| ==> FuzzyOk(sc, store, i, fuzzy[i])
  }

  /** The chain, and with it every declared list. */
  ghost predicate ChainsAgree(sc: Schema, s: State) {
    AnchorsOk(sc, s.store) && RecencyOk(sc, s.store, s.recency) && ListsOk(sc, s.store, s.lists)
  }

  ghost predicate TreesAgree(sc: Schema, s: State) {
    SecsOk(sc, s.store, s.secs) && FuzziesOk(sc, s.store, s.fuzzy)
  }

  // ---- What an operation does to the anchors ---------------------------------------------------------

  /** Nothing lives differently anywhere but at `id`. */
  ghost predicate SameElsewhere(store: Contents<Envelope>, store': Contents<Envelope>, id: Id) {
    forall x :: x != id ==> Lives(store', x) == Lives(store, x)
  }

  lemma SavedEffect(sc: Schema, store: Contents<Envelope>, id: Id, body: Bytes, imposed: Option<Metadata>, floor: u64,
                    revives: bool, clock: u64, last: u64)
    requires AnchorsOk(sc, store) && id.tenant == sc.tenant && !id.flag
    requires PlanChainedSave(store, Plan(sc, id, imposed, floor, revives), body, clock, last).Ok?
    requires PlanChainedSave(store, Plan(sc, id, imposed, floor, revives), body, clock, last).value.meta.succession.CreatedAt?
    ensures var p := PlanChainedSave(store, Plan(sc, id, imposed, floor, revives), body, clock, last).value;
            var r := Apply(store, p.writes);
            r.Ok? && AnchorsOk(sc, r.value) && SameElsewhere(store, r.value, id)
            && Get(r.value, id) == Some(Envelope(sc.hash, p.meta, body))
  {
    PlanCommits(store, Plan(sc, id, imposed, floor, revives), body, clock, last);
  }

  // ---- Each structure follows ------------------------------------------------------------------------

  /** The recency entries of `rec` become exactly those of what now lives there; the others stay. */
  ghost predicate RecencyFollows(r: set<Stamp>, r': set<Stamp>, rec: LocalId, now: Option<Envelope>) {
    forall st :: st in r' <==> if st.rec == rec then now.Some? && T(now.value) == st.instant else st in r
  }

  lemma RecencyKept(sc: Schema, store: Contents<Envelope>, store': Contents<Envelope>, id: Id, r: set<Stamp>,
                    r': set<Stamp>)
    requires RecencyOk(sc, store, r) && SameElsewhere(store, store', id) && id.tenant == sc.tenant
    requires RecencyFollows(r, r', FromId(id), Lives(store', id))
    ensures RecencyOk(sc, store', r')
  {
  }

  ghost predicate ListFollows(sc: Schema, i: nat, m: map<SecKey, Envelope>, m': map<SecKey, Envelope>, rec: LocalId,
                              now: Option<Envelope>) {
    && (forall k :: k in m' <==>
          if k.rec == rec then now.Some? && k.field == sc.listField(now.value.body, i) else k in m)
    && (forall k :: k in m' ==> if k.rec == rec then Some(m'[k]) == now else k in m && m'[k] == m[k])
  }

  lemma ListKept(sc: Schema, store: Contents<Envelope>, store': Contents<Envelope>, id: Id, i: nat,
                 m: map<SecKey, Envelope>, m': map<SecKey, Envelope>)
    requires ListOk(sc, store, i, m) && SameElsewhere(store, store', id) && id.tenant == sc.tenant
    requires ListFollows(sc, i, m, m', FromId(id), Lives(store', id))
    ensures ListOk(sc, store', i, m')
  {
  }

  /** A tree's keys of `rec` become exactly `fields`; the others stay. */
  ghost predicate TreeFollows(ix: set<SecKey>, ix': set<SecKey>, rec: LocalId, fields: set<Bytes>) {
    forall k :: k in ix' <==> if k.rec == rec then k.field in fields else k in ix
  }

  function Postings(sc: Schema, body: Bytes, i: nat): set<Bytes> {
    set f | f in sc.fuzzyFields(body, i)
  }

  function SecFields(sc: Schema, i: nat, now: Option<Envelope>): set<Bytes> {
    if now.Some? then {sc.secField(now.value.body, i)} else {}
  }

  function FuzzyFields(sc: Schema, i: nat, now: Option<Envelope>): set<Bytes> {
    if now.Some? then Postings(sc, now.value.body, i) else {}
  }

  /** Chain and lists of `s'` follow what lives at `id`. */
  ghost predicate ChainsFollow(sc: Schema, s: State, s': State, id: Id) {
    var now := Lives(s'.store, id);
    && SameElsewhere(s.store, s'.store, id)
    && RecencyFollows(s.recency, s'.recency, FromId(id), now)
    && |s'.lists| == |s.lists|
    && (forall i: nat :: i < |s.lists| ==> ListFollows(sc, i, s.lists[i], s'.lists[i], FromId(id), now))
  }

  ghost predicate TreesFollow(sc: Schema, s: State, s': State, id: Id) {
    var now := Lives(s'.store, id);
    && SameElsewhere(s.store, s'.store, id)
    && |s'.secs| == |s.secs| && |s'.fuzzy| == |s.fuzzy|
    && (forall i: nat :: i < |s.secs| ==> TreeFollows(s.secs[i], s'.secs[i], FromId(id), SecFields(sc, i, now)))
    && (forall i: nat :: i < |s.fuzzy| ==> TreeFollows(s.fuzzy[i], s'.fuzzy[i], FromId(id), FuzzyFields(sc, i, now)))
  }

  lemma ChainsKept(sc: Schema, s: State, s': State, id: Id)
    requires ChainsAgree(sc, s) && AnchorsOk(sc, s'.store) && id.tenant == sc.tenant && ChainsFollow(sc, s, s', id)
    ensures ChainsAgree(sc, s')
  {
    RecencyKept(sc, s.store, s'.store, id, s.recency, s'.recency);
    forall i: nat | i < |s'.lists| ensures ListOk(sc, s'.store, i, s'.lists[i]) {
      ListKept(sc, s.store, s'.store, id, i, s.lists[i], s'.lists[i]);
    }
  }

  lemma TreesKept(sc: Schema, s: State, s': State, id: Id)
    requires TreesAgree(sc, s) && id.tenant == sc.tenant && TreesFollow(sc, s, s', id)
    ensures TreesAgree(sc, s')
  {
  }

  // ---- The three ways a record moves -------------------------------------------------------------------

  lemma EnteredChains(sc: Schema, s: State, store': Contents<Envelope>, id: Id, e: Envelope)
    requires ChainsAgree(sc, s) && Lives(s.store, id).None? && id.tenant == sc.tenant
    requires SameElsewhere(s.store, store', id) && Lives(store', id) == Some(e)
    ensures ChainsFollow(sc, s, Entered(sc, s, store', id, e), id)
  {
    var rec := FromId(id);
    assert ToId(rec, sc.tenant) == id;
    forall i: nat | i < |s.lists|
      ensures ListFollows(sc, i, s.lists[i], ListsInserted(sc, s.lists, rec, e)[i], rec, Some(e))
    {
      assert ListOk(sc, s.store, i, s.lists[i]);
    }
  }

  lemma EnteredTrees(sc: Schema, s: State, store': Contents<Envelope>, id: Id, e: Envelope)
    requires TreesAgree(sc, s) && Lives(s.store, id).None? && id.tenant == sc.tenant
    requires SameElsewhere(s.store, store', id) && Lives(store', id) == Some(e)
    ensures TreesFollow(sc, s, Entered(sc, s, store', id, e), id)
  {
  }

  lemma MovedChains(sc: Schema, s: State, store': Contents<Envelope>, id: Id, was: Envelope, e: Envelope)
    requires ChainsAgree(sc, s) && Lives(s.store, id) == Some(was) && id.tenant == sc.tenant
    requires SameElsewhere(s.store, store', id) && Lives(store', id) == Some(e)
    ensures ChainsFollow(sc, s, Reindexed(sc, s, store', id, (T(was), was.body), e), id)
  {
    var rec := FromId(id);
    assert ToId(rec, sc.tenant) == id;
    assert Stamp(T(was), rec) in s.recency;
    forall i: nat | i < |s.lists|
      ensures ListFollows(sc, i, s.lists[i], ListsMoved(sc, s.lists, rec, was.body, e)[i], rec, Some(e))
    {
      assert ListOk(sc, s.store, i, s.lists[i]);
    }
  }

  lemma MovedTrees(sc: Schema, s: State, store': Contents<Envelope>, id: Id, was: Envelope, e: Envelope)
    requires TreesAgree(sc, s) && Lives(s.store, id) == Some(was) && id.tenant == sc.tenant
    requires SameElsewhere(s.store, store', id) && Lives(store', id) == Some(e)
    ensures TreesFollow(sc, s, Reindexed(sc, s, store', id, (T(was), was.body), e), id)
  {
    var rec := FromId(id);
    assert ToId(rec, sc.tenant) == id;
    forall i: nat | i < |s.secs|
      ensures TreeFollows(s.secs[i], SecsMoved(sc, s.secs, rec, was.body, e.body)[i], rec, SecFields(sc, i, Some(e)))
    {
      assert SecOk(sc, s.store, i, s.secs[i]);
    }
    forall i: nat | i < |s.fuzzy|
      ensures TreeFollows(s.fuzzy[i], FuzzyMoved(sc, s.fuzzy, rec, was.body, e.body)[i], rec, FuzzyFields(sc, i, Some(e)))
    {
      assert FuzzyOk(sc, s.store, i, s.fuzzy[i]);
      PostingsMoved(s.fuzzy[i], rec, Postings(sc, was.body, i), Postings(sc, e.body, i));
      assert FuzzyKeys(sc, was.body, i, rec) == set f | f in Postings(sc, was.body, i) :: SecKey(f, rec);
      assert FuzzyKeys(sc, e.body, i, rec) == set f | f in Postings(sc, e.body, i) :: SecKey(f, rec);
    }
  }

  /** Taking out what only the old posting set has and putting in what only the new one has replaces old by new. */
  lemma PostingsMoved(ix: set<SecKey>, rec: LocalId, was: set<Bytes>, now: set<Bytes>)
    requires forall k :: k in ix && k.rec == rec ==> k.field in was
    requires forall f :: f in was ==> SecKey(f, rec) in ix
    ensures var ws, ns := set f | f in was :: SecKey(f, rec), set f | f in now :: SecKey(f, rec);
            TreeFollows(ix, ix - (ws - ns) + (ns - ws), rec, now)
  {
  }

  /** Where nothing lives before or after, chain and lists stay as they are. */
  lemma UnmovedChains(sc: Schema, s: State, store': Contents<Envelope>, id: Id, prior: (u64, Bytes), e: Envelope)
    requires ChainsAgree(sc, s) && Lives(s.store, id).None? && id.tenant == sc.tenant
    requires SameElsewhere(s.store, store', id) && Lives(store', id).None?
    ensures ChainsFollow(sc, s, Reindexed(sc, s, store', id, prior, e), id)
    ensures Reindexed(sc, s, store', id, prior, e).recency == s.recency
  {
    var rec := FromId(id);
    assert ToId(rec, sc.tenant) == id;
    assert Stamp(prior.0, rec) !in s.recency;
    forall i: nat | i < |s.lists| ensures ListFollows(sc, i, s.lists[i], s.lists[i], rec, None) {
      assert ListOk(sc, s.store, i, s.lists[i]);
    }
  }

  lemma GoneChains(sc: Schema, s: State, id: Id, e: Envelope, removedAt: u64)
    requires ChainsAgree(sc, s) && Get(s.store, id) == Some(e) && !e.meta.removed
    ensures AnchorsOk(sc, Gone(sc, s, id, e, removedAt).store)
    ensures ChainsFollow(sc, s, Gone(sc, s, id, e, removedAt), id) && Lives(Gone(sc, s, id, e, removedAt).store, id).None?
  {
    var rec := FromId(id);
    assert ToId(rec, sc.tenant) == id;
    forall i: nat | i < |s.lists|
      ensures ListFollows(sc, i, s.lists[i], ListsRemoved(sc, s.lists, rec, e.body)[i], rec, None)
    {
      assert ListOk(sc, s.store, i, s.lists[i]);
    }
  }

  lemma GoneTrees(sc: Schema, s: State, id: Id, e: Envelope, removedAt: u64)
    requires TreesAgree(sc, s) && Get(s.store, id) == Some(e) && !e.meta.removed && id.tenant == sc.tenant
    ensures TreesFollow(sc, s, Gone(sc, s, id, e, removedAt), id)
  {
  }
}
