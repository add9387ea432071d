/** Whole runs of a collection: agreement, and a timeline that only moves forward. */
module CollectionRuns {
  import opened Ids
  import opened Minting
  import opened Stores
  import opened Records
  import opened Keys
  import opened Collections
  import opened CollectionAgreement

  // ---- What each operation does ----------------------------------------------------------------------

  /** Metadata a write may carry: authored here, or a living node version. */
  predicate Imposable(imposed: Option<Metadata>) {
    imposed.Some? ==> imposed.value.succession.CreatedAt? && !imposed.value.removed
  }

  predicate KeyFits(sc: Schema, id: Id, body: Bytes) {
    sc.keyed ==> KeyedAnchor(sc, body) == Some(id)
  }

  /** The record now living at `id` is `body`, under the imposed metadata or at a freshly minted instant. */
  ghost predicate Installed(s': State, id: Id, body: Bytes, imposed: Option<Metadata>, last': u64) {
    var now := Lives(s'.store, id);
    && now.Some? && now.value.body == body
    && (imposed.Some? ==> now.value.meta == imposed.value)
    && (imposed.None? ==> T(now.value) == last')
  }

  lemma SaveLiving(sc: Schema, s: State, id: Id, body: Bytes, imposed: Option<Metadata>, floor: u64, clock: u64, last: u64)
    requires ChainsAgree(sc, s) && Lives(s.store, id).Some? && Imposable(imposed) && KeyFits(sc, id, body)
    ensures var o := SavePlanned(sc, s, id, body, imposed, floor, clock, last);
            && o.result.Ok?
            && var s' := o.result.value;
               && AnchorsOk(sc, s'.store) && ChainsFollow(sc, s, s', id) && s'.removals == s.removals
               && (TreesAgree(sc, s) ==> TreesFollow(sc, s, s', id))
               && Installed(s', id, body, imposed, o.last)
               && (imposed.None? && floor < MAX64 ==> floor < o.last)
  {
    SaveLivingChains(sc, s, id, body, imposed, floor, clock, last);
    if TreesAgree(sc, s) { SaveLivingTrees(sc, s, id, body, imposed, floor, clock, last); }
    SavedEffect(sc, s.store, id, body, imposed, floor, false, clock, last);
  }

  lemma SaveLivingChains(sc: Schema, s: State, id: Id, body: Bytes, imposed: Option<Metadata>, floor: u64, clock: u64,
                         last: u64)
    requires ChainsAgree(sc, s) && Lives(s.store, id).Some? && Imposable(imposed) && KeyFits(sc, id, body)
    ensures var o := SavePlanned(sc, s, id, body, imposed, floor, clock, last);
            && o.result.Ok?
            && var s' := o.result.value;
               AnchorsOk(sc, s'.store) && ChainsFollow(sc, s, s', id) && s'.removals == s.removals
  {
    SavedEffect(sc, s.store, id, body, imposed, floor, false, clock, last);
    var p := PlanChainedSave(s.store, Plan(sc, id, imposed, floor, false), body, clock, last).value;
    MovedChains(sc, s, Apply(s.store, p.writes).value, id, s.store[id], Envelope(sc.hash, p.meta, body));
  }

  lemma SaveLivingTrees(sc: Schema, s: State, id: Id, body: Bytes, imposed: Option<Metadata>, floor: u64, clock: u64,
                        last: u64)
    requires ChainsAgree(sc, s) && TreesAgree(sc, s) && Lives(s.store, id).Some? && Imposable(imposed)
    requires KeyFits(sc, id, body)
    ensures var o := SavePlanned(sc, s, id, body, imposed, floor, clock, last);
            o.result.Ok? && TreesFollow(sc, s, o.result.value, id)
  {
    SavedEffect(sc, s.store, id, body, imposed, floor, false, clock, last);
    var p := PlanChainedSave(s.store, Plan(sc, id, imposed, floor, false), body, clock, last).value;
    MovedTrees(sc, s, Apply(s.store, p.writes).value, id, s.store[id], Envelope(sc.hash, p.meta, body));
  }

  /** A plain save never revives: a dead anchor stays dead, and neither chain nor lists take it in. */
  lemma SaveDead(sc: Schema, s: State, id: Id, body: Bytes, floor: u64, clock: u64, last: u64)
    requires ChainsAgree(sc, s) && id in s.store && Lives(s.store, id).None?
    ensures var o := SavePlanned(sc, s, id, body, None, floor, clock, last);
            o.result.Ok? ==>
              var s' := o.result.value;
              && AnchorsOk(sc, s'.store) && ChainsFollow(sc, s, s', id)
              && s'.removals == s.removals && s'.recency == s.recency && s'.lists == s.lists
              && Lives(s'.store, id).None?
  {
    var o := SavePlanned(sc, s, id, body, None, floor, clock, last);
    if o.result.Ok? {
      SavedEffect(sc, s.store, id, body, None, floor, false, clock, last);
      var p := PlanChainedSave(s.store, Plan(sc, id, None, floor, false), body, clock, last).value;
      var store' := Apply(s.store, p.writes).value;
      UnmovedChains(sc, s, store', id, p.prior.value, Envelope(sc.hash, p.meta, body));
    }
  }

  /** A keyed upsert at a vacant or dead anchor always ends living, everywhere at once. */
  lemma Revive(sc: Schema, s: State, id: Id, body: Bytes, imposed: Option<Metadata>, floor: u64, clock: u64, last: u64)
    requires ChainsAgree(sc, s) && Lives(s.store, id).None? && id.tenant == sc.tenant && !id.flag && Imposable(imposed)
    ensures var o := ChainIntoLiving(sc, s, id, body, imposed, floor, clock, last);
            && o.result.Ok?
            && var s' := o.result.value;
               && AnchorsOk(sc, s'.store) && ChainsFollow(sc, s, s', id) && s'.removals == s.removals
               && (TreesAgree(sc, s) ==> TreesFollow(sc, s, s', id))
               && Installed(s', id, body, imposed, o.last)
               && (imposed.None? && floor < MAX64 ==> floor < o.last)
  {
    SavedEffect(sc, s.store, id, body, imposed, floor, true, clock, last);
    var p := PlanChainedSave(s.store, Plan(sc, id, imposed, floor, true), body, clock, last).value;
    var store' := Apply(s.store, p.writes).value;
    EnteredChains(sc, s, store', id, Envelope(sc.hash, p.meta, body));
    if TreesAgree(sc, s) { EnteredTrees(sc, s, store', id, Envelope(sc.hash, p.meta, body)); }
  }

  lemma FirstVersion(sc: Schema, s: State, id: Id, meta: Metadata, body: Bytes)
    requires ChainsAgree(sc, s) && Lives(s.store, id).None? && id.tenant == sc.tenant && !id.flag
    requires meta.succession.CreatedAt? && !meta.removed
    ensures var r := InsertWithMeta(sc, s, id, meta, body);
            && r.Ok? && AnchorsOk(sc, r.value.store) && ChainsFollow(sc, s, r.value, id) && r.value.removals == s.removals
            && (TreesAgree(sc, s) ==> TreesFollow(sc, s, r.value, id))
            && Lives(r.value.store, id) == Some(Envelope(sc.hash, meta, body))
  {
    var e := Envelope(sc.hash, meta, body);
    EnteredChains(sc, s, s.store[id := e], id, e);
    if TreesAgree(sc, s) { EnteredTrees(sc, s, s.store[id := e], id, e); }
  }

  lemma RemoveLive(sc: Schema, s: State, id: Id, floor: u64, clock: u64, last: u64)
    requires ChainsAgree(sc, s) && ReadsLive(s.store, id)
    ensures var o := Withdraw(sc, s, id, floor, clock, last);
            && o.result.Ok?
            && var s' := o.result.value;
               && AnchorsOk(sc, s'.store) && ChainsFollow(sc, s, s', id)
               && s'.removals == s.removals + {Stamp(o.last, FromId(id))}
               && (TreesAgree(sc, s) ==> TreesFollow(sc, s, s', id))
               && Lives(s'.store, id).None?
               && (floor < MAX64 ==> floor < o.last)
  {
    var e := s.store[id];
    var removedAt := MintValue(clock, floor, last);
    GoneChains(sc, s, id, e, removedAt);
    if TreesAgree(sc, s) { GoneTrees(sc, s, id, e, removedAt); }
    assert Withdraw(sc, s, id, floor, clock, last).result.value == Gone(sc, s, id, e, removedAt);
  }

  // ---- One step -------------------------------------------------------------------------------------

  /** What a step did to the timeline: nothing, or one record moved at one instant. */
  datatype Move = Still | Moved(id: Id, instant: u64)

  ghost predicate Moves(sc: Schema, s: State, s': State, floor: u64, mv: Move) {
    match mv
    case Still =>
      s'.recency == s.recency && s'.removals == s.removals && forall x :: Lives(s'.store, x) == Lives(s.store, x)
    case Moved(id, t) =>
      var now := Lives(s'.store, id);
      && floor < t && id.tenant == sc.tenant
      && SameElsewhere(s.store, s'.store, id)
      && RecencyFollows(s.recency, s'.recency, FromId(id), now)
      && (now.Some? ==> T(now.value) == t && s'.removals == s.removals)
      && (now.None? ==> s'.removals == s.removals + {Stamp(t, FromId(id))})
  }

  /** Instant-keyed anchors never outrun the collection's instants, so a fresh one is vacant. */
  ghost predicate AnchorsBelow(sc: Schema, store: Contents<Envelope>, floor: u64) {
    !sc.keyed ==> forall id :: id in store && !id.flag ==> id.key <= floor
  }

  /** An insert without a natural key lands on a vacant anchor, whatever the clock and however often restarted. */
  lemma InsertLandsOnVacant(sc: Schema, s: State, floor: u64, clock: u64, last: u64)
    requires AnchorsBelow(sc, s.store, floor) && !sc.keyed && floor < MAX64
    ensures KeyedId(sc.tenant, sc.hash, MintValue(clock, floor, last)) !in s.store
  {
  }

  lemma InsertMoves(sc: Schema, s: State, body: Bytes, floor: u64, clock: u64, last: u64) returns (mv: Move)
    requires ChainsAgree(sc, s) && AnchorsBelow(sc, s.store, floor) && floor < MAX64
    ensures var o := Insert(sc, s, body, floor, clock, last);
            && (o.result.Err? ==> mv == Still)
            && (o.result.Ok? ==> ChainsAgree(sc, o.result.value) && Moves(sc, s, o.result.value, floor, mv)
                                 && (TreesAgree(sc, s) ==> TreesAgree(sc, o.result.value)))
  {
    var o := Insert(sc, s, body, floor, clock, last);
    mv := Still;
    if !sc.keyed {
      InsertLandsOnVacant(sc, s, floor, clock, last);
      var id := KeyedId(sc.tenant, sc.hash, o.last);
      FirstVersion(sc, s, id, FirstMeta(o.last, Some(sc.pivot), sc.user), body);
      mv := Moved(id, o.last);
    } else {
      var id := KeyedAnchor(sc, body).value;
      if Lives(s.store, id).Some? {
        SaveLiving(sc, s, id, body, None, floor, clock, last);
      } else {
        Revive(sc, s, id, body, None, floor, clock, last);
      }
      mv := Moved(id, o.last);
    }
    ChainsKept(sc, s, o.result.value, mv.id);
    if TreesAgree(sc, s) { TreesKept(sc, s, o.result.value, mv.id); }
  }

  lemma SaveMoves(sc: Schema, s: State, id: Id, body: Bytes, floor: u64, clock: u64, last: u64) returns (mv: Move)
    requires ChainsAgree(sc, s) && id in s.store && floor < MAX64
    ensures var o := Save(sc, s, id, body, floor, clock, last);
            && (o.result.Err? ==> mv == Still)
            && (o.result.Ok? ==> ChainsAgree(sc, o.result.value) && Moves(sc, s, o.result.value, floor, mv))
            && (o.result.Ok? && TreesAgree(sc, s) && Lives(s.store, id).Some? ==> TreesAgree(sc, o.result.value))
  {
    var o := Save(sc, s, id, body, floor, clock, last);
    mv := Still;
    if o.result.Ok? {
      if Lives(s.store, id).Some? {
        SaveLiving(sc, s, id, body, None, floor, clock, last);
        mv := Moved(id, o.last);
        if TreesAgree(sc, s) { TreesKept(sc, s, o.result.value, id); }
      } else {
        SaveDead(sc, s, id, body, floor, clock, last);
      }
      ChainsKept(sc, s, o.result.value, id);
    }
  }

  lemma RemoveMoves(sc: Schema, s: State, id: Id, floor: u64, clock: u64, last: u64) returns (mv: Move)
    requires ChainsAgree(sc, s) && floor < MAX64
    ensures var o := Withdraw(sc, s, id, floor, clock, last);
            && (o.result.Err? ==> mv == Still)
            && (o.result.Ok? ==> ChainsAgree(sc, o.result.value) && Moves(sc, s, o.result.value, floor, mv)
                                 && (TreesAgree(sc, s) ==> TreesAgree(sc, o.result.value)))
  {
    var o := Withdraw(sc, s, id, floor, clock, last);
    mv := Still;
    if o.result.Ok? && ReadsLive(s.store, id) {
      RemoveLive(sc, s, id, floor, clock, last);
      mv := Moved(id, o.last);
      ChainsKept(sc, s, o.result.value, id);
      if TreesAgree(sc, s) { TreesKept(sc, s, o.result.value, id); }
    }
  }

  lemma StepMoves(sc: Schema, n: Node, op: Op, floor: u64) returns (mv: Move)
    requires ChainsAgree(sc, n.state) && AnchorsBelow(sc, n.state.store, floor) && floor < MAX64
    requires op.Saving? ==> op.id in n.state.store
    ensures var n' := Take(sc, n, op, floor);
            ChainsAgree(sc, n'.state) && Moves(sc, n.state, n'.state, floor, mv)
            && (TreesAgree(sc, n.state) && (op.Saving? ==> Lives(n.state.store, op.id).Some?) ==> TreesAgree(sc, n'.state))
  {
    match op
    case Inserting(body, clock) => mv := InsertMoves(sc, n.state, body, floor, clock, n.last);
    case Saving(id, body, clock) => mv := SaveMoves(sc, n.state, id, body, floor, clock, n.last);
    case Removing(id, clock) => mv := RemoveMoves(sc, n.state, id, floor, clock, n.last);
    case Restarting => mv := Still;
  }

  // ---- The timeline --------------------------------------------------------------------------------------

  ghost predicate Recorded(s: State, st: Stamp) {
    st in s.recency || st in s.removals
  }

  /** No two entries share an instant, and no record's removal follows its live version. */
  ghost predicate TimelineOk(s: State) {
    && (forall x, y :: Recorded(s, x) && Recorded(s, y) && x.instant == y.instant ==> x == y)
    && (forall x :: x in s.recency ==> x !in s.removals)
    && (forall x, y :: x in s.recency && y in s.removals && x.rec == y.rec ==> y.instant < x.instant)
  }

  /** The stamp of the record a step moved. */
  lemma MoveIsRecorded(sc: Schema, s: State, s': State, floor: u64, mv: Move)
    requires Moves(sc, s, s', floor, mv) && mv.Moved?
    ensures Stamp(mv.instant, FromId(mv.id)) in s'.recency + s'.removals
    ensures forall st :: Recorded(s', st) && st != Stamp(mv.instant, FromId(mv.id)) ==> Recorded(s, st)
  {
    var st := Stamp(mv.instant, FromId(mv.id));
    if Lives(s'.store, mv.id).Some? { assert st in s'.recency; } else { assert st in s'.removals; }
    forall x | Recorded(s', x) && x != st ensures Recorded(s, x) {
      if x in s'.recency { assert x.rec != st.rec; }
    }
  }

  lemma FloorIs(s: State, floor: u64, top: Stamp)
    requires IsFloor(s, floor) && Recorded(s, top) && forall st :: Recorded(s, st) ==> st.instant <= top.instant
    ensures floor == top.instant
  {
    assert top in s.recency + s.removals;
    if floor > 0 {
      var st :| st in s.recency + s.removals && st.instant == floor;
      assert Recorded(s, st);
    }
  }

  lemma FloorAtMost(s: State, s': State, floor: u64, floor': u64)
    requires IsFloor(s, floor) && IsFloor(s', floor') && s.recency == s'.recency && s.removals == s'.removals
    ensures floor <= floor'
  {
    if floor > 0 {
      var st :| st in s.recency + s.removals && st.instant == floor;
      assert st in s'.recency + s'.removals;
    }
  }

  /** Two states with the same stamps have the same floor. */
  lemma OneFloor(s: State, s': State, floor: u64, floor': u64)
    requires IsFloor(s, floor) && IsFloor(s', floor') && s.recency == s'.recency && s.removals == s'.removals
    ensures floor == floor'
  {
    FloorAtMost(s, s', floor, floor');
    FloorAtMost(s', s, floor', floor);
  }

  /** A recording step raises the floor to its own instant; any other leaves it. */
  lemma FloorFollows(sc: Schema, s: State, s': State, floor: u64, floor': u64, mv: Move)
    requires Moves(sc, s, s', floor, mv) && IsFloor(s, floor) && IsFloor(s', floor')
    ensures floor' == if mv.Still? then floor else mv.instant
    ensures forall st :: Recorded(s', st) && !Recorded(s, st) ==> mv.Moved? && st.instant == mv.instant
  {
    if mv.Still? {
      OneFloor(s, s', floor, floor');
    } else {
      var top := Stamp(mv.instant, FromId(mv.id));
      MoveIsRecorded(sc, s, s', floor, mv);
      forall st | Recorded(s', st) ensures st.instant <= top.instant {
        if st != top { assert st in s.recency + s.removals; }
      }
      FloorIs(s', floor', top);
    }
  }

  lemma TimelineKept(sc: Schema, s: State, s': State, floor: u64, mv: Move)
    requires TimelineOk(s) && IsFloor(s, floor) && Moves(sc, s, s', floor, mv)
    ensures TimelineOk(s')
  {
    if mv.Moved? {
      var st := Stamp(mv.instant, FromId(mv.id));
      forall x | Recorded(s, x) ensures x.instant < mv.instant {
        assert x in s.recency + s.removals;
      }
      MoveIsRecorded(sc, s, s', floor, mv);
      forall x, y | Recorded(s', x) && Recorded(s', y) && x.instant == y.instant ensures x == y {
        assert x != st ==> Recorded(s, x);
        assert y != st ==> Recorded(s, y);
      }
    }
  }

  /** Where anchors may appear: a step adds at most the one an insert minted. */
  lemma AnchorsStayBelow(sc: Schema, n: Node, op: Op, floor: u64, floor': u64)
    requires AnchorsOk(sc, n.state.store) && AnchorsBelow(sc, n.state.store, floor) && floor <= floor'
    requires op.Saving? ==> op.id in n.state.store
    requires op.Inserting? && !sc.keyed ==> Take(sc, n, op, floor).last <= floor'
    ensures AnchorsBelow(sc, Take(sc, n, op, floor).state.store, floor')
  {
    if op.Saving? && !sc.keyed {
      var plan := Plan(sc, op.id, None, floor, false);
      if PlanChainedSave(n.state.store, plan, op.body, op.clock, n.last).Ok? {
        PlanCommits(n.state.store, plan, op.body, op.clock, n.last);
      }
    }
  }

  ghost predicate Kept(sc: Schema, s: State, floor: u64) {
    ChainsAgree(sc, s) && AnchorsBelow(sc, s.store, floor) && TimelineOk(s)
  }

  lemma StepKeeps(sc: Schema, n: Node, op: Op, floor: u64, floor': u64) returns (mv: Move)
    requires Kept(sc, n.state, floor) && IsFloor(n.state, floor) && floor < MAX64
    requires op.Saving? ==> op.id in n.state.store
    requires IsFloor(Take(sc, n, op, floor).state, floor')
    ensures Kept(sc, Take(sc, n, op, floor).state, floor')
    ensures Moves(sc, n.state, Take(sc, n, op, floor).state, floor, mv)
    ensures floor' == if mv.Still? then floor else mv.instant
  {
    var n' := Take(sc, n, op, floor);
    mv := StepMoves(sc, n, op, floor);
    FloorFollows(sc, n.state, n'.state, floor, floor', mv);
    TimelineKept(sc, n.state, n'.state, floor, mv);
    if op.Inserting? && !sc.keyed { InsertIsRecorded(sc, n, op, floor, floor'); }
    AnchorsStayBelow(sc, n, op, floor, floor');
  }

  lemma InsertIsRecorded(sc: Schema, n: Node, op: Op, floor: u64, floor': u64)
    requires op.Inserting? && !sc.keyed && IsFloor(Take(sc, n, op, floor).state, floor')
    ensures Take(sc, n, op, floor).last <= floor'
  {
  }

  lemma EmptyIsKept(sc: Schema, lists: nat, fuzzy: nat, floor: u64)
    ensures Kept(sc, Empty(lists, sc.secondaries, fuzzy), floor) && TreesAgree(sc, Empty(lists, sc.secondaries, fuzzy))
  {
  }

  /** In every reachable state the recency chain and every list agree with the anchors, and the timeline has no ties. */
  lemma {:induction false} RunKeeps(sc: Schema, tr: seq<Node>, ops: seq<Op>, floors: seq<u64>, i: nat)
    requires Behaviour(sc, tr, ops, floors) && i < |tr|
    ensures Kept(sc, tr[i].state, floors[i])
  {
    if i == 0 {
      var lists, fuzzy :| tr[0] == Node(Empty(lists, sc.secondaries, fuzzy), 0);
      EmptyIsKept(sc, lists, fuzzy, floors[0]);
    } else {
      RunKeeps(sc, tr, ops, floors, i - 1);
      assert Steps(sc, tr, ops, floors, i - 1);
      assert FloorAt(tr, floors, i - 1) && FloorAt(tr, floors, i);
      var mv := StepKeeps(sc, tr[i - 1], ops[i - 1], floors[i - 1], floors[i]);
    }
  }

  lemma RunMoves(sc: Schema, tr: seq<Node>, ops: seq<Op>, floors: seq<u64>, i: nat) returns (mv: Move)
    requires Behaviour(sc, tr, ops, floors) && i < |ops|
    ensures Moves(sc, tr[i].state, tr[i + 1].state, floors[i], mv)
    ensures floors[i + 1] == if mv.Still? then floors[i] else mv.instant
  {
    RunKeeps(sc, tr, ops, floors, i);
    assert Steps(sc, tr, ops, floors, i);
    assert FloorAt(tr, floors, i) && FloorAt(tr, floors, i + 1);
    mv := StepKeeps(sc, tr[i], ops[i], floors[i], floors[i + 1]);
  }

  lemma {:induction false} FloorsRise(sc: Schema, tr: seq<Node>, ops: seq<Op>, floors: seq<u64>, i: nat, j: nat)
    requires Behaviour(sc, tr, ops, floors) && i <= j < |tr|
    ensures floors[i] <= floors[j]
    decreases j
  {
    if i < j {
      FloorsRise(sc, tr, ops, floors, i, j - 1);
      var mv := RunMoves(sc, tr, ops, floors, j - 1);
    }
  }

  /** Every instant a step records, in the chain or in the removal log, is above every instant either ever held before
      and above every floor ever handed out as a cursor, across restarts and whatever the clock reads. */
  lemma NewInstantsAreNewest(sc: Schema, tr: seq<Node>, ops: seq<Op>, floors: seq<u64>, i: nat, st: Stamp, j: nat,
                             earlier: Stamp)
    requires Behaviour(sc, tr, ops, floors) && j <= i < |ops|
    requires Recorded(tr[i + 1].state, st) && !Recorded(tr[i].state, st) && Recorded(tr[j].state, earlier)
    ensures earlier.instant <= floors[j] < st.instant == floors[i + 1]
  {
    FloorsRise(sc, tr, ops, floors, j, i);
    var mv := RunMoves(sc, tr, ops, floors, i);
    assert FloorAt(tr, floors, i) && FloorAt(tr, floors, j) && FloorAt(tr, floors, i + 1);
    FloorFollows(sc, tr[i].state, tr[i + 1].state, floors[i], floors[i + 1], mv);
    assert earlier in tr[j].state.recency + tr[j].state.removals;
  }

  ghost predicate SavesLiving(tr: seq<Node>, ops: seq<Op>, i: nat)
    requires i < |ops| < |tr|
  {
    ops[i].Saving? ==> Lives(tr[i].state.store, ops[i].id).Some?
  }

  /** On runs whose saves address living anchors, every secondary and fuzzy tree is what a rebuild would give. */
  lemma {:induction false} RunKeepsTrees(sc: Schema, tr: seq<Node>, ops: seq<Op>, floors: seq<u64>, i: nat)
    requires Behaviour(sc, tr, ops, floors) && i < |tr|
    requires forall j: nat :: j < |ops| ==> SavesLiving(tr, ops, j)
    ensures TreesAgree(sc, tr[i].state)
  {
    if i == 0 {
      var lists, fuzzy :| tr[0] == Node(Empty(lists, sc.secondaries, fuzzy), 0);
      EmptyIsKept(sc, lists, fuzzy, floors[0]);
    } else {
      RunKeepsTrees(sc, tr, ops, floors, i - 1);
      RunKeeps(sc, tr, ops, floors, i - 1);
      assert Steps(sc, tr, ops, floors, i - 1) && SavesLiving(tr, ops, i - 1);
      var mv := StepMoves(sc, tr[i - 1], ops[i - 1], floors[i - 1]);
    }
  }

  // ---- Where a save falls short ------------------------------------------------------------------------------

  /** A save keeps the recency chain in agreement exactly when its anchor was once inserted: to a vacant one, a type
      with secondaries refuses, and any other type writes a record that reads as living but is in no structure. */
  lemma SaveKeepsChainsIff(sc: Schema, s: State, id: Id, body: Bytes, floor: u64, clock: u64, last: u64)
    requires ChainsAgree(sc, s) && id.tenant == sc.tenant && !id.flag && floor < MAX64 && KeyFits(sc, id, body)
    ensures var r := Save(sc, s, id, body, floor, clock, last).result;
            && (id !in s.store && sc.secondaries > 0 ==> r == Err(RecordMissing(id)))
            && (id !in s.store && sc.secondaries == 0 ==> r.Ok? && Lives(r.value.store, id).Some?)
            && (r.Ok? ==> (ChainsAgree(sc, r.value) <==> id in s.store))
  {
    if id in s.store {
      var mv := SaveMoves(sc, s, id, body, floor, clock, last);
    } else {
      SavedEffect(sc, s.store, id, body, None, floor, false, clock, last);
      var r := Save(sc, s, id, body, floor, clock, last).result;
      if r.Ok? {
        var st := Stamp(T(r.value.store[id]), FromId(id));
        assert ToId(st.rec, sc.tenant) == id;
        assert At(sc, s.store, st.rec).None? && At(sc, r.value.store, st.rec).Some?;
      }
    }
  }

  /** On an empty collection without secondaries, a save by address leaves a living record no structure holds. */
  lemma VacantSaveIsUnindexed()
    ensures var sc := Schema(7, 1, LocalId(1, false, 1), 1, false, 0, _ => 0, (b, _) => b, (b, _) => b, (_, _) => []);
            var r := Save(sc, Empty(0, 0, 0), KeyedId(1, 7, 5), [1], 0, 10, 0).result;
            r.Ok? && Lives(r.value.store, KeyedId(1, 7, 5)).Some? && r.value.recency == {} && !ChainsAgree(sc, r.value)
  {
    var sc := Schema(7, 1, LocalId(1, false, 1), 1, false, 0, _ => 0, (b, _) => b, (b, _) => b, (_, _) => []);
    EmptyIsKept(sc, 0, 0, 0);
    SaveKeepsChainsIff(sc, Empty(0, 0, 0), KeyedId(1, 7, 5), [1], 0, 10, 0);
  }

  /** The fields a save leaves alone: every secondary's, and every posting it would add. */
  ghost predicate NothingNewToIndex(sc: Schema, s: State, prior: Bytes, body: Bytes) {
    && (forall i: nat :: i < |s.secs| ==> sc.secField(prior, i) == sc.secField(body, i))
    && (forall i: nat :: i < |s.fuzzy| ==> Postings(sc, body, i) <= Postings(sc, prior, i))
  }

  /** A save keeps the secondary and fuzzy trees in agreement exactly when the record is living or nothing indexed
      changed: the liveness gate covers lists and not trees, so a dead record re-enters them. */
  lemma SaveKeepsTreesIff(sc: Schema, s: State, id: Id, body: Bytes, floor: u64, clock: u64, last: u64)
    requires ChainsAgree(sc, s) && TreesAgree(sc, s) && id in s.store && floor < MAX64
    ensures var r := Save(sc, s, id, body, floor, clock, last).result;
            r.Ok? ==> (TreesAgree(sc, r.value) <==>
                       Lives(s.store, id).Some? || NothingNewToIndex(sc, s, s.store[id].body, body))
  {
    var r := Save(sc, s, id, body, floor, clock, last).result;
    if r.Ok? {
      if Lives(s.store, id).Some? {
        var mv := SaveMoves(sc, s, id, body, floor, clock, last);
      } else {
        SaveDead(sc, s, id, body, floor, clock, last);
        DeadSaveTrees(sc, s, id, body, r.value);
      }
    }
  }

  /** The trees after a save to a dead record. */
  lemma DeadSaveTrees(sc: Schema, s: State, id: Id, body: Bytes, s': State)
    requires TreesAgree(sc, s) && id in s.store && id.tenant == sc.tenant
    requires Lives(s.store, id).None? && Lives(s'.store, id).None? && SameElsewhere(s.store, s'.store, id)
    requires s'.secs == SecsMoved(sc, s.secs, FromId(id), s.store[id].body, body)
    requires s'.fuzzy == FuzzyMoved(sc, s.fuzzy, FromId(id), s.store[id].body, body)
    ensures TreesAgree(sc, s') <==> NothingNewToIndex(sc, s, s.store[id].body, body)
  {
    var rec, prior := FromId(id), s.store[id].body;
    assert ToId(rec, sc.tenant) == id;
    if NothingNewToIndex(sc, s, prior, body) {
      forall i: nat | i < |s.secs| ensures TreeFollows(s.secs[i], s'.secs[i], rec, SecFields(sc, i, None)) {
        assert SecOk(sc, s.store, i, s.secs[i]);
      }
      forall i: nat | i < |s.fuzzy| ensures TreeFollows(s.fuzzy[i], s'.fuzzy[i], rec, FuzzyFields(sc, i, None)) {
        assert FuzzyOk(sc, s.store, i, s.fuzzy[i]);
        forall k | k in FuzzyKeys(sc, body, i, rec) ensures k in FuzzyKeys(sc, prior, i, rec) {
          assert k.field in Postings(sc, body, i) && k.field in Postings(sc, prior, i);
        }
      }
      TreesKept(sc, s, s', id);
    } else if i: nat :| i < |s.secs| && sc.secField(prior, i) != sc.secField(body, i) {
      assert SecondaryKey(sc, body, i, rec) in s'.secs[i];
      assert !SecOk(sc, s'.store, i, s'.secs[i]);
    } else {
      var i: nat :| i < |s.fuzzy| && !(Postings(sc, body, i) <= Postings(sc, prior, i));
      var f :| f in Postings(sc, body, i) && f !in Postings(sc, prior, i);
      assert SecKey(f, rec) in s'.fuzzy[i];
      assert !FuzzyOk(sc, s'.store, i, s'.fuzzy[i]);
    }
  }

  /** One record inserted, removed and then saved by its address under a new label: the secondary lists it again. */
  lemma DeadSaveReentersASecondary()
    ensures var sc := Schema(7, 1, LocalId(1, false, 1), 1, false, 1, _ => 0, (b, _) => b, (b, _) => b, (_, _) => []);
            var n1 := Take(sc, Node(Empty(0, 1, 0), 0), Inserting([1], 10), 0);
            var id := KeyedId(1, 7, 10);
            var n2 := Take(sc, n1, Removing(id, 20), 10);
            var n3 := Take(sc, n2, Saving(id, [2], 30), 20);
            Lives(n3.state.store, id).None? && SecKey([2], FromId(id)) in n3.state.secs[0]
            && !TreesAgree(sc, n3.state)
  {
    var sc := Schema(7, 1, LocalId(1, false, 1), 1, false, 1, _ => 0, (b, _) => b, (b, _) => b, (_, _) => []);
    var s0 := Empty(0, 1, 0);
    var id := KeyedId(1, 7, 10);
    var rec := FromId(id);
    var n1 := Take(sc, Node(s0, 0), Inserting([1], 10), 0);
    assert n1.last == 10 && n1.state.store == map[id := Envelope(7, FirstMeta(10, Some(sc.pivot), 1), [1])];
    var n2 := Take(sc, n1, Removing(id, 20), 10);
    assert n2.last == 20 && n2.state.store[id].meta.removed && n2.state.secs == SecsRemoved(sc, n1.state.secs, rec, [1]);
    var plan := Plan(sc, id, None, 20, false);
    PlanCommits(n2.state.store, plan, [2], 30, 20);
    var n3 := Take(sc, n2, Saving(id, [2], 30), 20);
    assert n3.state.secs == SecsMoved(sc, n2.state.secs, rec, [1], [2]);
    assert SecondaryKey(sc, [2], 0, rec) == SecKey([2], rec) && SecondaryKey(sc, [1], 0, rec) == SecKey([1], rec);
    assert [1] != [2];
    assert !SecOk(sc, n3.state.store, 0, n3.state.secs[0]);
  }
}
