/** What each operation of a collection stores and answers, read from the store alone, for every schema. */
module CollectionWrites {
  import opened Ids
  import opened Minting
  import opened Stores
  import opened Records
  import opened Collections
  import opened CollectionAgreement
  import opened CollectionRuns

  // ---- Where a record lives ----------------------------------------------------------------------------

  /** A keyed record's anchor is its natural key, in the collection's tenant, among anchors, under the type's salt. So two
      bodies share an anchor exactly when their natural keys are equal. */
  lemma KeyedAnchorIff(sc: Schema, a: Bytes, b: Bytes)
    requires sc.keyed
    ensures KeyedAnchor(sc, a) == Some(Id(sc.naturalKey(a), sc.tenant, false, sc.hash % 0x8000))
    ensures KeyedAnchor(sc, a) == KeyedAnchor(sc, b) <==> sc.naturalKey(a) == sc.naturalKey(b)
  {
  }

  /** The anchor an insert of `body` answers, given the watermark it leaves. */
  function InsertedAt(sc: Schema, body: Bytes, last: u64): Id {
    Id(if sc.keyed then sc.naturalKey(body) else last, sc.tenant, false, sc.hash % 0x8000)
  }

  // ---- Saves and inserts -------------------------------------------------------------------------------

  /** `id` now holds `body`, saved by this collection's user on top of what it held, at the instant the operation minted:
      above floor, watermark and predecessor, not before the clock. What it held is at its archive slot, whole. */
  ghost predicate Stored(sc: Schema, n: Node, o: Outcome, id: Id, body: Bytes, revives: bool, floor: u64, clock: u64) {
    && o.result.Ok? && id in o.result.value.store
    && var store := o.result.value.store;
       var prior, now := Get(n.state.store, id), store[id];
       && SavedBy(prior, now, sc.hash, sc.user, Some(sc.pivot), revives, body)
       && T(now) == o.last && floor < o.last && n.last < o.last && clock <= o.last
       && (prior.Some? ==>
             var slot := ArchiveId(sc.hash, NonUnique, T(prior.value), sc.tenant);
             T(prior.value) < o.last && slot in store && KeptAs(prior.value, store[slot], o.last))
       && SameElsewhere(n.state.store, store, id)
  }

  lemma PlannedStores(sc: Schema, n: Node, id: Id, body: Bytes, revives: bool, floor: u64, clock: u64)
    requires AnchorsOk(sc, n.state.store) && Unsaturated(n, floor) && (id in n.state.store ==> !id.flag)
    ensures var planned := PlanChainedSave(n.state.store, Plan(sc, id, None, floor, revives), body, clock, n.last);
            && planned.Ok? && planned.value.meta.succession.CreatedAt?
            && var applied := Apply(n.state.store, planned.value.writes);
               && applied.Ok? && planned.value.prior.Some? == (id in n.state.store)
               && Stored(sc, n, Outcome(Ok(n.state.(store := applied.value)), planned.value.meta.succession.instant), id,
                         body, revives, floor, clock)
  {
    var plan := Plan(sc, id, None, floor, revives);
    PlanRefusesIff(n.state.store, plan, body, clock, n.last);
    var p := PlanChainedSave(n.state.store, plan, body, clock, n.last).value;
    SaveStores(n.state.store, plan, body, clock, n.last);
    PlanCommits(n.state.store, plan, body, clock, n.last);
  }

  /** Every answer of a save. It refuses a body whose natural key is another's, an archive, and for a type with secondaries
      a vacant anchor; anything else is stored, and a removed record stays removed. */
  lemma SaveAnswers(sc: Schema, n: Node, id: Id, body: Bytes, floor: u64, clock: u64)
    requires AnchorsOk(sc, n.state.store) && Unsaturated(n, floor)
    ensures var o := Save(sc, n.state, id, body, floor, clock, n.last);
            if sc.keyed && id != InsertedAt(sc, body, 0) then o == Outcome(Err(KeyMismatch(id)), n.last)
            else if id in n.state.store && id.flag then o == Outcome(Err(ChainCorrupt(id)), n.last)
            else if id !in n.state.store && sc.secondaries > 0 then
              o.result == Err(RecordMissing(id)) && floor < o.last && n.last < o.last && clock <= o.last
            else Stored(sc, n, o, id, body, false, floor, clock)
  {
    if sc.keyed && id != InsertedAt(sc, body, 0) {
    } else if id in n.state.store && id.flag {
      PlanRefusesIff(n.state.store, Plan(sc, id, None, floor, false), body, clock, n.last);
    } else {
      PlannedStores(sc, n, id, body, false, floor, clock);
    }
  }

  /** Every answer of an insert: it succeeds, and the record lives at its anchor with the body given, whether the anchor was
      vacant, living or removed. */
  lemma InsertStores(sc: Schema, n: Node, body: Bytes, floor: u64, clock: u64)
    requires AnchorsOk(sc, n.state.store) && AnchorsBelow(sc, n.state.store, floor) && Unsaturated(n, floor)
    ensures var o := Insert(sc, n.state, body, floor, clock, n.last);
            var id := InsertedAt(sc, body, o.last);
            && Stored(sc, n, o, id, body, true, floor, clock)
            && Lives(o.result.value.store, id).Some?
            && (!sc.keyed ==> id !in n.state.store)
  {
    if sc.keyed {
      KeyedInsertStores(sc, n, body, floor, clock);
    } else {
      InsertLandsOnVacant(sc, n.state, floor, clock, n.last);
    }
  }

  lemma KeyedInsertStores(sc: Schema, n: Node, body: Bytes, floor: u64, clock: u64)
    requires AnchorsOk(sc, n.state.store) && Unsaturated(n, floor) && sc.keyed
    ensures var o := Insert(sc, n.state, body, floor, clock, n.last);
            Stored(sc, n, o, InsertedAt(sc, body, 0), body, true, floor, clock)
  {
    var id := InsertedAt(sc, body, 0);
    PlannedStores(sc, n, id, body, !ReadsLive(n.state.store, id), floor, clock);
  }

  /** A keyed insert whose anchor another type's record occupies is refused, and that type is named. */
  lemma ForeignInsertIsRefused(sc: Schema, n: Node, body: Bytes, floor: u64, clock: u64)
    requires sc.keyed && Foreign(sc, n.state.store, InsertedAt(sc, body, 0))
    ensures Insert(sc, n.state, body, floor, clock, n.last)
            == Outcome(Err(UnknownStructHash(n.state.store[InsertedAt(sc, body, 0)].hash)), n.last)
  {
  }

  // ---- Removals and adoptions --------------------------------------------------------------------------

  /** Every answer of a removal: another type's record is refused, what is not living is left alone, and anything else is
      marked in one field and logged at a minted instant. */
  lemma RemoveStores(sc: Schema, n: Node, id: Id, floor: u64, clock: u64)
    requires Unsaturated(n, floor)
    ensures var o, prior := Withdraw(sc, n.state, id, floor, clock, n.last), Get(n.state.store, id);
            if prior.Some? && prior.value.hash != sc.hash then o == Outcome(Err(UnknownStructHash(prior.value.hash)), n.last)
            else if prior.None? || prior.value.meta.removed then o == Outcome(Ok(n.state), n.last)
            else
              && o.result.Ok? && floor < o.last && n.last < o.last && clock <= o.last
              && var s' := o.result.value;
                 && id in s'.store && s'.store[id].meta.removed
                 && s'.store[id].hash == prior.value.hash && s'.store[id].body == prior.value.body
                 && s'.store[id].meta.(removed := false) == prior.value.meta
                 && (forall x :: x != id ==> Get(s'.store, x) == Get(n.state.store, x))
                 && s'.removals == n.state.removals + {Stamp(o.last, FromId(id))}
  {
  }

  /** A version adopted at an anchor is there verbatim, and mints nothing. */
  lemma AdoptStores(sc: Schema, n: Node, id: Id, meta: Metadata, body: Bytes, floor: u64, clock: u64)
    requires AnchorsOk(sc, n.state.store) && id.tenant == sc.tenant && !id.flag && KeyFits(sc, id, body)
    requires meta.succession.CreatedAt?
    ensures var o := AdoptWith(sc, n.state, id, meta, body, floor, clock, n.last);
            && o.result.Ok? && o.last == n.last
            && Get(o.result.value.store, id) == Some(Envelope(sc.hash, meta, body))
            && SameElsewhere(n.state.store, o.result.value.store, id)
  {
    if id in n.state.store {
      var revives := n.state.store[id].meta.removed;
      PlanRefusesIff(n.state.store, Plan(sc, id, Some(meta), floor, revives), body, clock, n.last);
      SavedEffect(sc, n.state.store, id, body, Some(meta), floor, revives, clock, n.last);
    }
  }
}
