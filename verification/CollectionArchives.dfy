/** Archives inside one collection. The floor a mint reads is the greatest stamp of the state, so archive slots are
    safe exactly as long as every version's instant was stamped: a save to a dead record is the one write whose is not. */
module CollectionArchives {
  import opened Ids
  import opened Minting
  import opened Stores
  import opened Records
  import opened Keys
  import opened Collections
  import opened CollectionAgreement
  import opened CollectionRuns

  function SlotOf(sc: Schema, e: Envelope): Id {
    ArchiveId(sc.hash, NonUnique, T(e), sc.tenant)
  }

  /** The floor covers the instant of every version in the store. */
  ghost predicate Covered(store: Contents<Envelope>, floor: u64) {
    forall id :: id in store ==> (if id.flag then id.key else T(store[id])) <= floor
  }

  /** No two records share an instant, and the slot each will be archived at is vacant. */
  ghost predicate SlotsFree(sc: Schema, store: Contents<Envelope>) {
    && (forall a :: a in store && !a.flag ==> SlotOf(sc, store[a]) !in store)
    && (forall a, b :: a in store && b in store && !a.flag && !b.flag && T(store[a]) == T(store[b]) ==> a == b)
  }

  ghost predicate SlotsOk(sc: Schema, store: Contents<Envelope>, floor: u64) {
    Covered(store, floor) && SlotsFree(sc, store)
  }

  // ---- What an operation writes ----------------------------------------------------------------------

  datatype Effect = Nothing | Flags(id: Id) | Writes(id: Id, e: Envelope)

  /** One operation's effect on the store: none, a flag set, or a version on top of what was there. */
  ghost predicate Effects(sc: Schema, store: Contents<Envelope>, store': Contents<Envelope>, floor: u64, ef: Effect) {
    match ef
    case Nothing => store' == store
    case Flags(id) => id in store && store' == store[id := store[id].(meta := store[id].meta.(removed := true))]
    case Writes(id, e) =>
      && !id.flag && floor < T(e)
      && store' == if id in store then store[SlotOf(sc, store[id]) := Superseded(store[id], T(e))][id := e]
                   else store[id := e]
  }

  /** Every archive keeps its bytes, except one a removal names; what a write supersedes goes to a vacant slot. */
  ghost predicate ArchivesKept(sc: Schema, store: Contents<Envelope>, store': Contents<Envelope>, ef: Effect) {
    && (forall id :: id in store && id.flag && ef != Flags(id) ==> Get(store', id) == Some(store[id]))
    && (ef.Writes? && ef.id in store ==>
          SlotOf(sc, store[ef.id]) !in store
          && Get(store', SlotOf(sc, store[ef.id])) == Some(Superseded(store[ef.id], T(ef.e))))
  }

  lemma EffectKeepsArchives(sc: Schema, store: Contents<Envelope>, store': Contents<Envelope>, floor: u64, ef: Effect)
    requires Effects(sc, store, store', floor, ef) && SlotsFree(sc, store)
    ensures ArchivesKept(sc, store, store', ef)
  {
  }

  /** The slots stay free and covered exactly when the new floor covers what was written. */
  lemma EffectKeepsSlotsIff(sc: Schema, store: Contents<Envelope>, store': Contents<Envelope>, floor: u64, floor': u64,
                            ef: Effect)
    requires Effects(sc, store, store', floor, ef) && SlotsOk(sc, store, floor) && floor <= floor'
    ensures SlotsOk(sc, store', floor') <==> (ef.Writes? ==> T(ef.e) <= floor')
  {
    if ef.Writes? {
      assert ef.id in store' && T(store'[ef.id]) == T(ef.e);
      if T(ef.e) <= floor' { WriteKeepsSlots(sc, store, store', floor, ef); }
    }
  }

  lemma WriteKeepsSlots(sc: Schema, store: Contents<Envelope>, store': Contents<Envelope>, floor: u64, ef: Effect)
    requires Effects(sc, store, store', floor, ef) && SlotsOk(sc, store, floor) && ef.Writes?
    ensures SlotsFree(sc, store')
  {
    forall a | a in store' && !a.flag ensures SlotOf(sc, store'[a]) !in store' {
      if a != ef.id { assert SlotOf(sc, store[a]) !in store; }
    }
  }

  // ---- Every operation -------------------------------------------------------------------------------

  lemma SaveEffect(sc: Schema, s: State, id: Id, body: Bytes, floor: u64, clock: u64, last: u64, revives: bool)
    requires AnchorsOk(sc, s.store) && id.tenant == sc.tenant && last < MAX64 && floor < MAX64
    requires id in s.store ==> T(s.store[id]) < MAX64
    requires PlanChainedSave(s.store, Plan(sc, id, None, floor, revives), body, clock, last).Ok?
    requires !id.flag
    ensures var p := PlanChainedSave(s.store, Plan(sc, id, None, floor, revives), body, clock, last).value;
            && Apply(s.store, p.writes).Ok?
            && Effects(sc, s.store, Apply(s.store, p.writes).value, floor, Writes(id, Envelope(sc.hash, p.meta, body)))
  {
    PlanCommits(s.store, Plan(sc, id, None, floor, revives), body, clock, last);
  }

  /** A save that succeeds. */
  predicate Saves(sc: Schema, n: Node, op: Op, floor: u64) {
    op.Saving? && Perform(sc, n, op, floor).result.Ok?
  }

  lemma SavingEffect(sc: Schema, n: Node, op: Op, floor: u64) returns (ef: Effect)
    requires AnchorsOk(sc, n.state.store) && Unsaturated(n, floor) && op.Saving? && op.id in n.state.store
    ensures Effects(sc, n.state.store, Take(sc, n, op, floor).state.store, floor, ef) && !ef.Flags?
    ensures Saves(sc, n, op, floor) <==> ef.Writes?
    ensures ef.Writes? ==> ef.id == op.id
                           && (Lives(Take(sc, n, op, floor).state.store, op.id).Some? <==>
                               Lives(n.state.store, op.id).Some?)
  {
    ef := Nothing;
    if Saves(sc, n, op, floor) {
      var p := PlanChainedSave(n.state.store, Plan(sc, op.id, None, floor, false), op.body, op.clock, n.last).value;
      SaveEffect(sc, n.state, op.id, op.body, floor, op.clock, n.last, false);
      ef := Writes(op.id, Envelope(sc.hash, p.meta, op.body));
    }
  }

  lemma InsertingEffect(sc: Schema, n: Node, op: Op, floor: u64) returns (ef: Effect)
    requires ChainsAgree(sc, n.state) && AnchorsBelow(sc, n.state.store, floor) && Unsaturated(n, floor) && op.Inserting?
    ensures Effects(sc, n.state.store, Take(sc, n, op, floor).state.store, floor, ef) && !ef.Flags?
    ensures ef.Writes? ==> Lives(Take(sc, n, op, floor).state.store, ef.id).Some?
  {
    var s := n.state;
    if !sc.keyed {
      InsertLandsOnVacant(sc, s, floor, op.clock, n.last);
      var t := MintValue(op.clock, floor, n.last);
      ef := Writes(KeyedId(sc.tenant, sc.hash, t), Envelope(sc.hash, FirstMeta(t, Some(sc.pivot), sc.user), op.body));
    } else {
      var id := KeyedAnchor(sc, op.body).value;
      var revives := !ReadsLive(s.store, id);
      var p := PlanChainedSave(s.store, Plan(sc, id, None, floor, revives), op.body, op.clock, n.last).value;
      SaveEffect(sc, s, id, op.body, floor, op.clock, n.last, revives);
      ef := Writes(id, Envelope(sc.hash, p.meta, op.body));
    }
  }

  lemma RemovingEffect(sc: Schema, n: Node, op: Op, floor: u64) returns (ef: Effect)
    requires AnchorsOk(sc, n.state.store) && op.Removing?
    ensures Effects(sc, n.state.store, Take(sc, n, op, floor).state.store, floor, ef) && !ef.Writes?
    ensures ef.Flags? ==> ef.id == op.id
  {
    ef := if ReadsLive(n.state.store, op.id) then Flags(op.id) else Nothing;
  }

  /** A save to a record that is not living. */
  predicate SavesDead(sc: Schema, n: Node, op: Op, floor: u64) {
    Saves(sc, n, op, floor) && Lives(n.state.store, op.id).None?
  }

  lemma StepEffect(sc: Schema, n: Node, op: Op, floor: u64) returns (ef: Effect)
    requires ChainsAgree(sc, n.state) && AnchorsBelow(sc, n.state.store, floor) && Unsaturated(n, floor)
    requires op.Saving? ==> op.id in n.state.store
    ensures Effects(sc, n.state.store, Take(sc, n, op, floor).state.store, floor, ef)
    ensures ef.Flags? ==> op.Removing? && ef.id == op.id
    ensures ef.Writes? ==>
              (Lives(Take(sc, n, op, floor).state.store, ef.id).Some? <==> !SavesDead(sc, n, op, floor))
    ensures SavesDead(sc, n, op, floor) ==> ef.Writes?
  {
    match op
    case Saving(_, _, _) => ef := SavingEffect(sc, n, op, floor);
    case Inserting(_, _) => ef := InsertingEffect(sc, n, op, floor);
    case Removing(_, _) => ef := RemovingEffect(sc, n, op, floor);
    case Restarting => ef := Nothing;
  }

  /** A living record's instant is recorded, so the floor covers it. */
  lemma LivingIsCovered(sc: Schema, s: State, floor: u64, id: Id)
    requires RecencyOk(sc, s.store, s.recency) && IsFloor(s, floor) && Lives(s.store, id).Some? && id.tenant == sc.tenant
    ensures T(s.store[id]) <= floor
  {
    var st := Stamp(T(s.store[id]), FromId(id));
    assert At(sc, s.store, st.rec).Some?;
    assert st in s.recency + s.removals;
  }

  /** A save to a dead record moves no stamp, so the floor does not cover the instant it mints. */
  lemma DeadSaveKeepsFloor(sc: Schema, n: Node, op: Op, floor: u64, floor': u64)
    requires ChainsAgree(sc, n.state) && op.Saving? && op.id in n.state.store && SavesDead(sc, n, op, floor)
    requires IsFloor(n.state, floor) && IsFloor(Take(sc, n, op, floor).state, floor')
    ensures floor' == floor
  {
    SaveDead(sc, n.state, op.id, op.body, floor, op.clock, n.last);
    OneFloor(n.state, Take(sc, n, op, floor).state, floor, floor');
  }

  ghost predicate Before(sc: Schema, n: Node, op: Op, floor: u64) {
    && Kept(sc, n.state, floor) && IsFloor(n.state, floor) && Unsaturated(n, floor)
    && (op.Saving? ==> op.id in n.state.store)
  }

  /** One operation, whatever the clock: free and covered slots stay so exactly unless it saves to a dead record. */
  lemma StepKeepsSlotsIff(sc: Schema, n: Node, op: Op, floor: u64, floor': u64)
    requires Before(sc, n, op, floor) && IsFloor(Take(sc, n, op, floor).state, floor') && SlotsOk(sc, n.state.store, floor)
    ensures SlotsOk(sc, Take(sc, n, op, floor).state.store, floor') <==> !SavesDead(sc, n, op, floor)
  {
    var s' := Take(sc, n, op, floor).state;
    var mv := CollectionRuns.StepKeeps(sc, n, op, floor, floor');
    var ef := StepEffect(sc, n, op, floor);
    EffectKeepsSlotsIff(sc, n.state.store, s'.store, floor, floor', ef);
    if SavesDead(sc, n, op, floor) {
      DeadSaveKeepsFloor(sc, n, op, floor, floor');
    } else if ef.Writes? {
      LivingIsCovered(sc, s', floor', ef.id);
    }
  }

  // ---- Every run -------------------------------------------------------------------------------------

  ghost predicate DeadAt(sc: Schema, tr: seq<Node>, ops: seq<Op>, floors: seq<u64>, i: nat)
    requires i < |ops| && |tr| == |floors| == |ops| + 1
  {
    SavesDead(sc, tr[i], ops[i], floors[i])
  }

  lemma BeforeAt(sc: Schema, tr: seq<Node>, ops: seq<Op>, floors: seq<u64>, i: nat)
    requires Behaviour(sc, tr, ops, floors) && i < |ops|
    ensures Before(sc, tr[i], ops[i], floors[i]) && tr[i + 1] == Take(sc, tr[i], ops[i], floors[i])
    ensures IsFloor(tr[i + 1].state, floors[i + 1])
  {
    RunKeeps(sc, tr, ops, floors, i);
    assert Steps(sc, tr, ops, floors, i) && FloorAt(tr, floors, i) && FloorAt(tr, floors, i + 1);
  }

  lemma StepAtKeepsSlots(sc: Schema, tr: seq<Node>, ops: seq<Op>, floors: seq<u64>, i: nat)
    requires Behaviour(sc, tr, ops, floors) && i < |ops| && SlotsOk(sc, tr[i].state.store, floors[i])
    ensures SlotsOk(sc, tr[i + 1].state.store, floors[i + 1]) <==> !DeadAt(sc, tr, ops, floors, i)
  {
    BeforeAt(sc, tr, ops, floors, i);
    StepKeepsSlotsIff(sc, tr[i], ops[i], floors[i], floors[i + 1]);
  }

  lemma {:induction false} RunKeepsSlots(sc: Schema, tr: seq<Node>, ops: seq<Op>, floors: seq<u64>, i: nat)
    requires Behaviour(sc, tr, ops, floors) && i < |tr| && forall j: nat :: j < i ==> !DeadAt(sc, tr, ops, floors, j)
    ensures SlotsOk(sc, tr[i].state.store, floors[i])
  {
    if i > 0 {
      RunKeepsSlots(sc, tr, ops, floors, i - 1);
      StepAtKeepsSlots(sc, tr, ops, floors, i - 1);
    }
  }

  lemma {:induction false} FirstDead(sc: Schema, tr: seq<Node>, ops: seq<Op>, floors: seq<u64>, i: nat) returns (j: nat)
    requires |tr| == |floors| == |ops| + 1 && i < |ops| && DeadAt(sc, tr, ops, floors, i)
    ensures j <= i && DeadAt(sc, tr, ops, floors, j) && forall l: nat :: l < j ==> !DeadAt(sc, tr, ops, floors, l)
  {
    j := i;
    if l: nat :| l < i && DeadAt(sc, tr, ops, floors, l) { j := FirstDead(sc, tr, ops, floors, l); }
  }

  /** Over every run of one collection, across restarts and whatever the clocks: all instants stay covered and all slots
      free exactly when no save addresses a dead record. */
  lemma SlotsStayFreeIff(sc: Schema, tr: seq<Node>, ops: seq<Op>, floors: seq<u64>)
    requires Behaviour(sc, tr, ops, floors)
    ensures (forall i: nat :: i < |tr| ==> SlotsOk(sc, tr[i].state.store, floors[i])) <==>
            (forall i: nat :: i < |ops| ==> !DeadAt(sc, tr, ops, floors, i))
  {
    if i: nat :| i < |ops| && DeadAt(sc, tr, ops, floors, i) {
      var j := FirstDead(sc, tr, ops, floors, i);
      RunKeepsSlots(sc, tr, ops, floors, j);
      StepAtKeepsSlots(sc, tr, ops, floors, j);
      assert !SlotsOk(sc, tr[j + 1].state.store, floors[j + 1]);
    } else {
      forall i: nat | i < |tr| ensures SlotsOk(sc, tr[i].state.store, floors[i]) {
        RunKeepsSlots(sc, tr, ops, floors, i);
      }
    }
  }

  ghost predicate NoneDead(sc: Schema, tr: seq<Node>, ops: seq<Op>, floors: seq<u64>)
    requires |tr| == |floors| == |ops| + 1
  {
    forall i: nat :: i < |ops| ==> !DeadAt(sc, tr, ops, floors, i)
  }

  /** Then every archive lands on a vacant slot, holding the version it supersedes, and no other archive changes but one
      a removal names. */
  lemma ArchivesLandOnVacancy(sc: Schema, tr: seq<Node>, ops: seq<Op>, floors: seq<u64>, i: nat) returns (ef: Effect)
    requires Behaviour(sc, tr, ops, floors) && NoneDead(sc, tr, ops, floors) && i < |ops|
    ensures Effects(sc, tr[i].state.store, tr[i + 1].state.store, floors[i], ef)
    ensures ArchivesKept(sc, tr[i].state.store, tr[i + 1].state.store, ef)
    ensures ef.Flags? ==> ops[i].Removing? && ef.id == ops[i].id
  {
    RunKeepsSlots(sc, tr, ops, floors, i);
    BeforeAt(sc, tr, ops, floors, i);
    ef := StepEffect(sc, tr[i], ops[i], floors[i]);
    EffectKeepsArchives(sc, tr[i].state.store, tr[i + 1].state.store, floors[i], ef);
  }

  /** Once written, an archive no removal names keeps its bytes for the rest of the run. */
  lemma {:induction false} ArchivesAreWriteOnce(sc: Schema, tr: seq<Node>, ops: seq<Op>, floors: seq<u64>, i: nat, j: nat,
                                                id: Id)
    requires Behaviour(sc, tr, ops, floors) && NoneDead(sc, tr, ops, floors) && i <= j < |tr|
    requires id in tr[i].state.store && id.flag
    requires forall l :: i <= l < j && ops[l].Removing? ==> ops[l].id != id
    ensures Get(tr[j].state.store, id) == Some(tr[i].state.store[id])
    decreases j
  {
    if i < j {
      ArchivesAreWriteOnce(sc, tr, ops, floors, i, j - 1, id);
      var ef := ArchivesLandOnVacancy(sc, tr, ops, floors, j - 1);
    }
  }
}
