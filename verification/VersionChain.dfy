/** The version-chain protocol: any number of writers plan saves and commit them later, interleaved.

    One type is modelled, with all of its records under all tenants. `hist` records, per anchor, the versions whose
    commits succeeded, in commit order and in the form they had while live; `owner` names the version each archive
    slot was written for; `high` is the greatest instant a version was authored at. The real store never sees them. */
module VersionChain {
  import opened Ids
  import opened Minting
  import opened Stores
  import opened Records

  /** A type: its hash, its shape, and whether its anchors are derived from a natural key. */
  datatype Kind = Kind(hash: u64, shape: Shape, keyed: bool)

  /** A planned save not yet committed. */
  datatype Pending = Pending(
    anchor: Id,
    writes: seq<Write<Envelope>>,
    expected: Option<Envelope>,
    next: Envelope)

  datatype Sys = Sys(
    store: Contents<Envelope>,
    last: u64,
    high: u64,
    pending: map<nat, Pending>,
    hist: map<Id, seq<Envelope>>,
    owner: map<Id, (Id, nat)>)

  datatype Step =
    | Plan(w: nat, anchor: Id, user: u48, pivot: Option<LocalId>, floor: u64, revives: bool, body: Bytes, clock: u64)
    | Commit(w: nat)
    | Insert(tenant: u48, user: u48, owner: LocalId, floor: u64, body: Bytes, clock: u64)
    | Retire(anchor: Id, floor: u64, clock: u64)
    | Restart

  const Start := Sys(map[], 0, 0, map[], map[], map[])

  /** The ids a save of this type can name: its fixed anchor under a tenant, or an anchor some natural key derives.
      Without a natural key the caller's id is taken as it is. */
  predicate Addressable(k: Kind, a: Id) {
    && (k.shape.Unique? ==> a == UniqueAnchor(k.hash, a.tenant))
    && (k.keyed ==> a.flag == AnchorFlag(k.shape))
  }

  function Last<V>(vs: seq<V>): V
    requires |vs| > 0
  {
    vs[|vs| - 1]
  }

  function Slot(k: Kind, a: Id, e: Envelope): Id {
    ArchiveId(k.hash, k.shape, T(e), a.tenant)
  }

  /** What a writer plans against the store it reads. */
  function Planning(k: Kind, s: Sys, step: Step): Option<Pending>
    requires step.Plan?
  {
    if !Addressable(k, step.anchor) then None
    else
      var plan := SavePlan(k.hash, k.shape, step.anchor, step.anchor.tenant, step.user, step.pivot, None, step.floor,
                           step.revives);
      match PlanChainedSave(s.store, plan, step.body, step.clock, s.last)
      case Err(_) => None
      case Ok(p) =>
        Some(Pending(step.anchor, p.writes, Get(s.store, step.anchor), Envelope(k.hash, p.meta, step.body)))
  }

  function Versions(hist: map<Id, seq<Envelope>>, a: Id): seq<Envelope> {
    if a in hist then hist[a] else []
  }

  /** The state after a pending save's batch was accepted. */
  function Committed(k: Kind, s: Sys, w: nat, store: Contents<Envelope>): Sys
    requires w in s.pending
  {
    var p := s.pending[w];
    var vs := Versions(s.hist, p.anchor);
    Sys(store, s.last, s.high, s.pending - {w}, s.hist[p.anchor := vs + [p.next]],
        if vs == [] then s.owner else s.owner[Slot(k, p.anchor, Last(vs)) := (p.anchor, |vs| - 1)])
  }

  /** The version an insert authors, at its minted anchor. */
  function Inserting(k: Kind, s: Sys, step: Step): (Id, Envelope)
    requires step.Insert?
  {
    var instant := MintValue(step.clock, step.floor, s.last);
    (KeyedId(step.tenant, k.hash, instant),
     Envelope(k.hash, FirstMeta(instant, Some(step.owner), step.user), step.body))
  }

  function Retired(e: Envelope): Envelope {
    e.(meta := e.meta.(removed := true))
  }

  /** The state after what `a` holds has been marked removed. */
  function Flagged(s: Sys, a: Id): Sys
    requires a in s.store
  {
    var e := Retired(s.store[a]);
    s.(store := s.store[a := e],
       hist := if a in s.hist && s.hist[a] != [] then s.hist[a := s.hist[a][..|s.hist[a]| - 1] + [e]] else s.hist)
  }

  function Take(k: Kind, s: Sys, step: Step): Sys {
    match step
    case Plan(_, _, _, _, _, _, _, _) =>
      (match Planning(k, s, step)
       case None => s
       case Some(p) => s.(last := T(p.next), high := Max(s.high, T(p.next)), pending := s.pending[step.w := p]))
    case Commit(w) =>
      if w !in s.pending then s
      else
        (match Apply(s.store, s.pending[w].writes)
         case Err(_) => s.(pending := s.pending - {w})
         case Ok(store) => Committed(k, s, w, store))
    case Insert(_, _, _, _, _, _) =>
      if k.shape.Unique? || k.keyed then s
      else
        var (id, e) := Inserting(k, s, step);
        s.(store := s.store[id := e], last := T(e), high := Max(s.high, T(e)),
           hist := s.hist[id := Versions(s.hist, id) + [e]])
    case Retire(a, floor, clock) =>
      if k.shape.Unique? || a !in s.store || s.store[a].meta.removed then s
      else
        Flagged(s, a).(last := MintValue(clock, floor, s.last))
    case Restart =>
      // A new process has lost its plans and starts from a zero watermark.
      s.(last := 0, pending := map[])
  }

  /** No operand of a mint has reached the top of the 64-bit range. */
  predicate Unsaturated(s: Sys, step: Step) {
    && s.last < MAX64
    && (step.Plan? ==> step.floor < MAX64 && (step.anchor in s.store ==> T(s.store[step.anchor]) < MAX64))
    && (step.Insert? || step.Retire? ==> step.floor < MAX64)
  }

  ghost predicate Steps(k: Kind, tr: seq<Sys>, steps: seq<Step>, i: nat)
    requires i < |steps| < |tr|
  {
    tr[i + 1] == Take(k, tr[i], steps[i]) && Unsaturated(tr[i], steps[i])
  }

  /** A run: the states of any interleaving of any steps from the empty store, at any clock readings, no mint
      saturating. */
  ghost predicate Run(k: Kind, tr: seq<Sys>, steps: seq<Step>) {
    && |tr| == |steps| + 1
    && tr[0] == Start
    && (forall i: nat :: i < |steps| ==> Steps(k, tr, steps, i))
  }

  // ---- Intact chains -----------------------------------------------------------------

  type Histories = map<Id, seq<Envelope>>

  /** The anchors in the store are exactly the recorded ones, each holding its newest version. */
  ghost predicate LiveOk(k: Kind, store: Contents<Envelope>, hist: Histories) {
    && (forall a :: a in hist <==> a in store && a.flag == AnchorFlag(k.shape))
    && (forall a :: a in hist ==> |hist[a]| > 0 && store[a] == Last(hist[a]))
    && (k.shape.Unique? ==> forall a :: a in hist ==> a == UniqueAnchor(k.hash, a.tenant))
  }

  ghost predicate LinkedBack(vs: seq<Envelope>, i: nat)
    requires i < |vs|
  {
    vs[i].meta.previous == if i == 0 then None else Some(T(vs[i - 1]))
  }

  /** One record's versions: strictly rising instants, each naming its predecessor's. */
  ghost predicate Linked(k: Kind, vs: seq<Envelope>) {
    && (forall i :: 0 <= i < |vs| ==> vs[i].hash == k.hash && vs[i].meta.succession.CreatedAt? && 0 < T(vs[i]))
    && (forall i, j :: 0 <= i < j < |vs| ==> T(vs[i]) < T(vs[j]))
    && (forall i: nat :: i < |vs| ==> LinkedBack(vs, i))
  }

  ghost predicate LinkedOk(k: Kind, hist: Histories) {
    forall a :: a in hist ==> Linked(k, hist[a])
  }

  /** Every superseded version sits at its slot, stamped with its successor's instant. */
  ghost predicate ArchivedAt(k: Kind, store: Contents<Envelope>, a: Id, vs: seq<Envelope>, i: nat)
    requires i + 1 < |vs|
  {
    Slot(k, a, vs[i]) in store && store[Slot(k, a, vs[i])] == Superseded(vs[i], T(vs[i + 1]))
  }

  ghost predicate Archived(k: Kind, store: Contents<Envelope>, a: Id, vs: seq<Envelope>) {
    forall i: nat :: i + 1 < |vs| ==> ArchivedAt(k, store, a, vs, i)
  }

  ghost predicate ArchivedOk(k: Kind, store: Contents<Envelope>, hist: Histories) {
    forall a :: a in hist ==> Archived(k, store, a, hist[a])
  }

  /** Nothing else sits in the archive namespace. */
  ghost predicate Owned(k: Kind, hist: Histories, id: Id, v: (Id, nat)) {
    v.0 in hist && v.1 < |hist[v.0]| - 1 && id == Slot(k, v.0, hist[v.0][v.1])
  }

  ghost predicate OwnedOk(k: Kind, store: Contents<Envelope>, hist: Histories, owner: map<Id, (Id, nat)>) {
    forall id :: id in store && id.flag != AnchorFlag(k.shape) ==> id in owner && Owned(k, hist, id, owner[id])
  }

  /** Every version ever committed is in the store, where the walk from its anchor looks for it. */
  ghost predicate Intact(k: Kind, s: Sys) {
    && LiveOk(k, s.store, s.hist)
    && LinkedOk(k, s.hist)
    && ArchivedOk(k, s.store, s.hist)
    && OwnedOk(k, s.store, s.hist, s.owner)
  }

  /** The guarded batch of one pending save. */
  function BatchFor(k: Kind, p: Pending): seq<Write<Envelope>> {
    if p.expected.None? then [Expect(k.hash, p.anchor, None), Put(p.anchor, p.next)]
    else [Expect(k.hash, p.anchor, p.expected),
          Put(Slot(k, p.anchor, p.expected.value), Superseded(p.expected.value, T(p.next))),
          Put(p.anchor, p.next)]
  }

  ghost predicate PendingShape(k: Kind, p: Pending) {
    && Addressable(k, p.anchor)
    && p.writes == BatchFor(k, p)
    && p.next.hash == k.hash && p.next.meta.succession.CreatedAt? && 0 < T(p.next)
    && (p.expected.None? ==> p.next.meta.previous == None)
    && (p.expected.Some? ==> p.anchor.flag == AnchorFlag(k.shape) && p.next.meta.previous == Some(T(p.expected.value))
                             && T(p.expected.value) < T(p.next))
  }

  ghost predicate Shaped(k: Kind, pending: map<nat, Pending>) {
    forall w :: w in pending ==> PendingShape(k, pending[w])
  }

  /** The step writes where a chain's bytes are or belong: an insert at an anchor in use, an accepted save whose archive
      slot holds something else or whose record would itself live in an archive slot, or a removal of an archive. */
  predicate Clobbers(k: Kind, s: Sys, step: Step) {
    match step
    case Insert(_, _, _, _, _, _) => k.shape.NonUnique? && !k.keyed && Inserting(k, s, step).0 in s.store
    case Commit(w) => w in s.pending && (Overwrites(k, s.store, s.pending[w]) || Strays(k, s.store, s.pending[w]))
    case Retire(a, _, _) =>
      k.shape.NonUnique? && a in s.store && a.flag != AnchorFlag(k.shape) && !s.store[a].meta.removed
    case _ => false
  }

  predicate Strays(k: Kind, store: Contents<Envelope>, p: Pending) {
    p.expected.None? && p.anchor !in store && p.anchor.flag != AnchorFlag(k.shape)
  }

  predicate Overwrites(k: Kind, store: Contents<Envelope>, p: Pending) {
    && p.expected.Some? && Get(store, p.anchor) == p.expected
    && var slot := Slot(k, p.anchor, p.expected.value);
       slot in store && store[slot] != Superseded(p.expected.value, T(p.next))
  }

  /** The floor a step mints above: the caller's, and for a save the live version's instant. */
  function MintFloor(s: Sys, step: Step): u64
    requires step.Plan? || step.Insert?
  {
    if step.Plan? && step.anchor in s.store then Max(T(s.store[step.anchor]), step.floor) else step.floor
  }

  /** What sits in the archive namespace is some version's archive. */
  lemma ArchiveIsOwned(k: Kind, s: Sys, id: Id) returns (b: Id, i: nat)
    requires ArchivedOk(k, s.store, s.hist) && OwnedOk(k, s.store, s.hist, s.owner)
    requires id in s.store && id.flag != AnchorFlag(k.shape)
    ensures b in s.hist && i + 1 < |s.hist[b]| && id == Slot(k, b, s.hist[b][i])
    ensures s.store[id] == Superseded(s.hist[b][i], T(s.hist[b][i + 1]))
  {
    b, i := s.owner[id].0, s.owner[id].1;
    assert Owned(k, s.hist, id, (b, i));
    assert Archived(k, s.store, b, s.hist[b]);
    assert ArchivedAt(k, s.store, b, s.hist[b], i);
  }

  lemma PlanningShape(k: Kind, s: Sys, step: Step)
    requires Intact(k, s) && step.Plan? && Unsaturated(s, step) && Planning(k, s, step).Some?
    ensures var p := Planning(k, s, step).value;
            && PendingShape(k, p) && p.anchor == step.anchor && p.expected == Get(s.store, step.anchor)
            && T(p.next) == MintValue(step.clock, MintFloor(s, step), s.last)
  {
    var a := step.anchor;
    if a in s.store {
      if a.flag == AnchorFlag(k.shape) {
        assert Linked(k, s.hist[a]);
      } else {
        var b, i := ArchiveIsOwned(k, s, a);
      }
    }
  }

  /** Writing a record's newest version at its anchor. */
  lemma LiveUpdate(k: Kind, store: Contents<Envelope>, hist: Histories, a: Id, e: Envelope, vs: seq<Envelope>)
    requires LiveOk(k, store, hist) && a.flag == AnchorFlag(k.shape) && |vs| > 0 && Last(vs) == e
    requires k.shape.Unique? ==> a == UniqueAnchor(k.hash, a.tenant)
    ensures LiveOk(k, store[a := e], hist[a := vs])
  {
  }

  lemma LinkedUpdate(k: Kind, hist: Histories, a: Id, vs: seq<Envelope>)
    requires LinkedOk(k, hist) && Linked(k, vs)
    ensures LinkedOk(k, hist[a := vs])
  {
  }

  lemma InsertArchives(k: Kind, s: Sys, id: Id, e: Envelope)
    requires ArchivedOk(k, s.store, s.hist) && OwnedOk(k, s.store, s.hist, s.owner)
    requires id !in s.hist && id.flag == AnchorFlag(k.shape)
    ensures ArchivedOk(k, s.store[id := e], s.hist[id := [e]])
    ensures OwnedOk(k, s.store[id := e], s.hist[id := [e]], s.owner)
  {
    forall a | a in s.hist ensures Archived(k, s.store[id := e], a, s.hist[a]) {
      assert Archived(k, s.store, a, s.hist[a]);
      var store' := s.store[id := e];
      forall i: nat | i + 1 < |s.hist[a]| ensures ArchivedAt(k, store', a, s.hist[a], i) {
        assert ArchivedAt(k, s.store, a, s.hist[a], i);
      }
    }
    forall i | i in s.store && i.flag != AnchorFlag(k.shape) ensures Owned(k, s.hist[id := [e]], i, s.owner[i]) {
      assert Owned(k, s.hist, i, s.owner[i]);
    }
  }

  lemma InsertIntact(k: Kind, s: Sys, step: Step)
    requires Intact(k, s) && step.Insert? && Unsaturated(s, step)
    ensures Intact(k, Take(k, s, step)) <==> !Clobbers(k, s, step)
  {
    if k.shape.NonUnique? && !k.keyed {
      var (id, e) := Inserting(k, s, step);
      if id in s.store {
        assert !LinkedBack(s.hist[id] + [e], |s.hist[id]|);
        assert id in Take(k, s, step).hist && !Linked(k, Take(k, s, step).hist[id]);
      } else {
        assert [] + [e] == [e] && Linked(k, [e]);
        FirstIntact(k, s, id, e);
      }
    }
  }

  /** A record's first version at a vacant anchor. */
  lemma FirstIntact(k: Kind, s: Sys, id: Id, e: Envelope)
    requires Intact(k, s) && id !in s.store && id.flag == AnchorFlag(k.shape) && Linked(k, [e])
    requires k.shape.Unique? ==> id == UniqueAnchor(k.hash, id.tenant)
    ensures Intact(k, s.(store := s.store[id := e], hist := s.hist[id := [e]]))
  {
    InsertArchives(k, s, id, e);
    LiveUpdate(k, s.store, s.hist, id, e, [e]);
    LinkedUpdate(k, s.hist, id, [e]);
  }

  /** `vs` is `was` with its newest version re-stamped at the same instant. */
  ghost predicate Restamped(was: seq<Envelope>, vs: seq<Envelope>) {
    && |vs| == |was|
    && (forall i :: 0 <= i < |vs| ==> T(vs[i]) == T(was[i]))
    && (forall i :: 0 <= i < |vs| - 1 ==> vs[i] == was[i])
  }

  lemma RetireLinks(k: Kind, vs: seq<Envelope>, e: Envelope)
    requires Linked(k, vs) && |vs| > 0 && e == Retired(Last(vs))
    ensures Linked(k, vs[..|vs| - 1] + [e]) && Restamped(vs, vs[..|vs| - 1] + [e])
  {
    var vs' := vs[..|vs| - 1] + [e];
    forall i: nat | i < |vs'| ensures LinkedBack(vs', i) {
      assert LinkedBack(vs, i);
    }
  }

  lemma RetireArchives(k: Kind, s: Sys, a: Id, e: Envelope, vs: seq<Envelope>)
    requires ArchivedOk(k, s.store, s.hist) && OwnedOk(k, s.store, s.hist, s.owner)
    requires a in s.hist && a.flag == AnchorFlag(k.shape) && Restamped(s.hist[a], vs)
    ensures ArchivedOk(k, s.store[a := e], s.hist[a := vs])
    ensures OwnedOk(k, s.store[a := e], s.hist[a := vs], s.owner)
  {
    var store, hist := s.store[a := e], s.hist[a := vs];
    forall b | b in hist ensures Archived(k, store, b, hist[b]) {
      assert Archived(k, s.store, b, s.hist[b]);
      forall i: nat | i + 1 < |hist[b]| ensures ArchivedAt(k, store, b, hist[b], i) {
        assert ArchivedAt(k, s.store, b, s.hist[b], i);
      }
    }
    forall i | i in store && i.flag != AnchorFlag(k.shape) ensures Owned(k, hist, i, s.owner[i]) {
      assert Owned(k, s.hist, i, s.owner[i]);
    }
  }

  lemma RestampIntact(k: Kind, s: Sys, a: Id, e: Envelope, vs: seq<Envelope>)
    requires Intact(k, s) && a in s.hist && Linked(k, vs) && Restamped(s.hist[a], vs) && |vs| > 0 && Last(vs) == e
    ensures Intact(k, s.(store := s.store[a := e], hist := s.hist[a := vs]))
  {
    LiveUpdate(k, s.store, s.hist, a, e, vs);
    LinkedUpdate(k, s.hist, a, vs);
    RetireArchives(k, s, a, e, vs);
  }

  lemma FlagAnchor(k: Kind, s: Sys, a: Id) returns (vs: seq<Envelope>)
    requires LiveOk(k, s.store, s.hist) && LinkedOk(k, s.hist) && a in s.hist
    ensures Flagged(s, a) == s.(store := s.store[a := Retired(s.store[a])], hist := s.hist[a := vs])
    ensures Linked(k, vs) && Restamped(s.hist[a], vs) && |vs| > 0 && Last(vs) == Retired(s.store[a])
  {
    vs := s.hist[a][..|s.hist[a]| - 1] + [Retired(s.store[a])];
    assert Linked(k, s.hist[a]);
    RetireLinks(k, s.hist[a], Retired(s.store[a]));
  }

  /** Flagging an archive changes bytes the chain still needs, unless the flag was set. */
  lemma RetiredArchiveIff(k: Kind, s: Sys, a: Id)
    requires Intact(k, s) && a in s.store && a.flag != AnchorFlag(k.shape)
    ensures Intact(k, Flagged(s, a)) <==> s.store[a].meta.removed
  {
    var store := s.store[a := Retired(s.store[a])];
    if s.store[a].meta.removed {
      assert store == s.store;
    } else {
      var b, i := ArchiveIsOwned(k, s, a);
      assert !ArchivedAt(k, store, b, s.hist[b], i);
      assert !Archived(k, store, b, s.hist[b]);
    }
  }

  lemma RetireIntact(k: Kind, s: Sys, step: Step)
    requires Intact(k, s) && step.Retire?
    ensures Intact(k, Take(k, s, step)) <==> !Clobbers(k, s, step)
  {
    var a := step.anchor;
    if k.shape.NonUnique? && a in s.store && !s.store[a].meta.removed {
      if a in s.hist {
        var vs := FlagAnchor(k, s, a);
        RestampIntact(k, s, a, Retired(s.store[a]), vs);
      } else {
        RetiredArchiveIff(k, s, a);
      }
    }
  }

  /** An accepted batch: the anchor still held what the plan read. */
  lemma CommitEffect(k: Kind, s: Sys, p: Pending)
    requires PendingShape(k, p)
    ensures Apply(s.store, p.writes).Ok? <==> Get(s.store, p.anchor) == p.expected
    ensures Apply(s.store, p.writes).Ok? ==>
              Apply(s.store, p.writes).value ==
              if p.expected.None? then s.store[p.anchor := p.next]
              else s.store[Slot(k, p.anchor, p.expected.value) := Superseded(p.expected.value, T(p.next))]
                   [p.anchor := p.next]
  {
    FailedGuardIsExact(s.store, p.writes);
    var ws := p.writes;
    assert ws[0] == Expect(k.hash, p.anchor, p.expected);
    if p.expected.None? {
      ApplyTwo(s.store, ws[0], ws[1]);
    } else {
      ApplyThree(s.store, ws[0], ws[1], ws[2]);
    }
  }

  lemma LinkNext(k: Kind, s: Sys, p: Pending)
    requires LiveOk(k, s.store, s.hist) && LinkedOk(k, s.hist) && PendingShape(k, p)
    requires Get(s.store, p.anchor) == p.expected
    ensures Linked(k, Versions(s.hist, p.anchor) + [p.next])
  {
    var vs := Versions(s.hist, p.anchor);
    var vs' := vs + [p.next];
    if vs != [] { assert Linked(k, vs); }
    forall i: nat | i < |vs'| ensures LinkedBack(vs', i) {
      if i < |vs| { assert LinkedBack(vs, i); }
    }
  }

  lemma AppendLive(k: Kind, s: Sys, p: Pending)
    requires LiveOk(k, s.store, s.hist) && PendingShape(k, p) && p.anchor in s.hist
    requires p.expected == Some(s.store[p.anchor])
    ensures LiveOk(k, s.store[Slot(k, p.anchor, p.expected.value) := Superseded(p.expected.value, T(p.next))]
                      [p.anchor := p.next], s.hist[p.anchor := s.hist[p.anchor] + [p.next]])
  {
  }

  lemma AppendArchives(k: Kind, s: Sys, p: Pending)
    requires ArchivedOk(k, s.store, s.hist) && OwnedOk(k, s.store, s.hist, s.owner) && PendingShape(k, p)
    requires p.anchor in s.hist && |s.hist[p.anchor]| > 0 && p.expected == Some(Last(s.hist[p.anchor]))
    requires !Overwrites(k, s.store, p) && Get(s.store, p.anchor) == p.expected
    ensures var vs := s.hist[p.anchor];
            var slot := Slot(k, p.anchor, Last(vs));
            var store := s.store[slot := Superseded(Last(vs), T(p.next))][p.anchor := p.next];
            var hist := s.hist[p.anchor := vs + [p.next]];
            ArchivedOk(k, store, hist) && OwnedOk(k, store, hist, s.owner[slot := (p.anchor, |vs| - 1)])
  {
    var vs := s.hist[p.anchor];
    var slot := Slot(k, p.anchor, Last(vs));
    var store := s.store[slot := Superseded(Last(vs), T(p.next))][p.anchor := p.next];
    var hist := s.hist[p.anchor := vs + [p.next]];
    var owner := s.owner[slot := (p.anchor, |vs| - 1)];
    forall b | b in hist ensures Archived(k, store, b, hist[b]) {
      assert Archived(k, s.store, b, s.hist[b]);
      forall i: nat | i + 1 < |hist[b]| ensures ArchivedAt(k, store, b, hist[b], i) {
        if i + 1 < |s.hist[b]| { assert ArchivedAt(k, s.store, b, s.hist[b], i); }
      }
    }
    forall id | id in store && id.flag != AnchorFlag(k.shape) ensures Owned(k, hist, id, owner[id]) {
      if id != slot { assert Owned(k, s.hist, id, s.owner[id]); }
    }
  }

  /** A slot that held other bytes held some version's archive, which is then gone. */
  lemma OverwriteLoses(k: Kind, s: Sys, p: Pending, hist: Histories, store: Contents<Envelope>)
    requires ArchivedOk(k, s.store, s.hist) && OwnedOk(k, s.store, s.hist, s.owner) && PendingShape(k, p)
    requires Overwrites(k, s.store, p) && p.anchor in s.hist
    requires hist == s.hist[p.anchor := s.hist[p.anchor] + [p.next]]
    requires store == s.store[Slot(k, p.anchor, p.expected.value) := Superseded(p.expected.value, T(p.next))]
                      [p.anchor := p.next]
    ensures !ArchivedOk(k, store, hist)
  {
    var slot := Slot(k, p.anchor, p.expected.value);
    var b, i := ArchiveIsOwned(k, s, slot);
    assert hist[b][i] == s.hist[b][i] && hist[b][i + 1] == s.hist[b][i + 1];
    assert !ArchivedAt(k, store, b, hist[b], i);
    assert !Archived(k, store, b, hist[b]);
  }

  /** What an accepted save makes of store, histories and owners. */
  function Appended(k: Kind, s: Sys, p: Pending): Sys {
    var vs := Versions(s.hist, p.anchor);
    var hist := s.hist[p.anchor := vs + [p.next]];
    if p.expected.None? || vs == [] then s.(store := s.store[p.anchor := p.next], hist := hist)
    else
      var slot := Slot(k, p.anchor, p.expected.value);
      s.(store := s.store[slot := Superseded(p.expected.value, T(p.next))][p.anchor := p.next], hist := hist,
         owner := s.owner[slot := (p.anchor, |vs| - 1)])
  }

  lemma FirstVersionIntact(k: Kind, s: Sys, p: Pending)
    requires Intact(k, s) && PendingShape(k, p) && p.expected.None? && p.anchor !in s.store
    requires !Strays(k, s.store, p)
    ensures Intact(k, Appended(k, s, p))
  {
    LinkNext(k, s, p);
    assert [] + [p.next] == [p.next];
    FirstIntact(k, s, p.anchor, p.next);
  }

  lemma NextVersionArchived(k: Kind, s: Sys, p: Pending)
    requires ArchivedOk(k, s.store, s.hist) && OwnedOk(k, s.store, s.hist, s.owner) && PendingShape(k, p)
    requires p.anchor in s.hist && |s.hist[p.anchor]| > 0 && p.expected == Some(Last(s.hist[p.anchor]))
    requires !Overwrites(k, s.store, p) && Get(s.store, p.anchor) == p.expected
    ensures var s' := Appended(k, s, p); ArchivedOk(k, s'.store, s'.hist) && OwnedOk(k, s'.store, s'.hist, s'.owner)
  {
    AppendArchives(k, s, p);
  }

  lemma NextVersionLinked(k: Kind, s: Sys, p: Pending)
    requires LiveOk(k, s.store, s.hist) && LinkedOk(k, s.hist)
    requires PendingShape(k, p) && p.expected.Some? && Get(s.store, p.anchor) == p.expected
    ensures LinkedOk(k, Appended(k, s, p).hist)
  {
    LinkNext(k, s, p);
    LinkedUpdate(k, s.hist, p.anchor, s.hist[p.anchor] + [p.next]);
  }

  lemma AcceptedIntact(k: Kind, s: Sys, p: Pending)
    requires Intact(k, s) && PendingShape(k, p) && Get(s.store, p.anchor) == p.expected
    ensures Intact(k, Appended(k, s, p)) <==> !Overwrites(k, s.store, p) && !Strays(k, s.store, p)
  {
    if Strays(k, s.store, p) {
      assert p.anchor in Appended(k, s, p).hist;
    } else if p.expected.None? {
      FirstVersionIntact(k, s, p);
    } else if Overwrites(k, s.store, p) {
      OverwriteLoses(k, s, p, Appended(k, s, p).hist, Appended(k, s, p).store);
    } else {
      NextVersionArchived(k, s, p);
      AppendLive(k, s, p);
      NextVersionLinked(k, s, p);
    }
  }

  lemma CommitAppends(k: Kind, s: Sys, w: nat)
    requires LiveOk(k, s.store, s.hist) && w in s.pending && PendingShape(k, s.pending[w])
    ensures var p := s.pending[w];
            Take(k, s, Commit(w)) == (if Get(s.store, p.anchor) == p.expected then Appended(k, s, p) else s)
                                     .(pending := s.pending - {w})
  {
    CommitEffect(k, s, s.pending[w]);
  }

  lemma CommitIntact(k: Kind, s: Sys, step: Step)
    requires Intact(k, s) && Shaped(k, s.pending) && step.Commit?
    ensures Intact(k, Take(k, s, step)) <==> !Clobbers(k, s, step)
  {
    if step.w in s.pending {
      var p := s.pending[step.w];
      CommitAppends(k, s, step.w);
      if Get(s.store, p.anchor) == p.expected { AcceptedIntact(k, s, p); }
    }
  }

  lemma StepKeepsShapes(k: Kind, s: Sys, step: Step)
    requires Intact(k, s) && Shaped(k, s.pending) && Unsaturated(s, step)
    ensures Shaped(k, Take(k, s, step).pending)
  {
    if step.Plan? && Planning(k, s, step).Some? { PlanningShape(k, s, step); }
  }

  /** One step, at any clock reading: the chains stay intact exactly when the step clobbers nothing. */
  lemma StepKeepsChainsIff(k: Kind, s: Sys, step: Step)
    requires Intact(k, s) && Shaped(k, s.pending) && Unsaturated(s, step)
    ensures Intact(k, Take(k, s, step)) <==> !Clobbers(k, s, step)
  {
    match step
    case Plan(_, _, _, _, _, _, _, _) =>
    case Commit(_) => CommitIntact(k, s, step);
    case Insert(_, _, _, _, _, _) => InsertIntact(k, s, step);
    case Retire(_, _, _) => RetireIntact(k, s, step);
    case Restart =>
  }

  lemma {:induction false} NoClobberKeepsChains(k: Kind, tr: seq<Sys>, steps: seq<Step>, i: nat)
    requires Run(k, tr, steps) && i < |tr| && forall j: nat :: j < i ==> !Clobbers(k, tr[j], steps[j])
    ensures Intact(k, tr[i]) && Shaped(k, tr[i].pending)
  {
    if i > 0 {
      NoClobberKeepsChains(k, tr, steps, i - 1);
      assert Steps(k, tr, steps, i - 1);
      StepKeepsChainsIff(k, tr[i - 1], steps[i - 1]);
      StepKeepsShapes(k, tr[i - 1], steps[i - 1]);
    }
  }

  /** Over every run, whatever its clocks and restarts: the chains are intact at every point exactly when no step
      clobbers. */
  lemma ChainsIntactIffNothingClobbered(k: Kind, tr: seq<Sys>, steps: seq<Step>)
    requires Run(k, tr, steps)
    ensures (forall i: nat :: i < |tr| ==> Intact(k, tr[i])) <==>
            (forall i: nat :: i < |steps| ==> !Clobbers(k, tr[i], steps[i]))
  {
    if i: nat :| i < |steps| && Clobbers(k, tr[i], steps[i]) {
      var j := FirstClobber(k, tr, steps, i);
      NoClobberKeepsChains(k, tr, steps, j);
      assert Steps(k, tr, steps, j);
      StepKeepsChainsIff(k, tr[j], steps[j]);
      assert !Intact(k, tr[j + 1]);
    } else {
      forall i: nat | i < |tr| ensures Intact(k, tr[i]) {
        NoClobberKeepsChains(k, tr, steps, i);
      }
    }
  }

  lemma {:induction false} FirstClobber(k: Kind, tr: seq<Sys>, steps: seq<Step>, i: nat) returns (j: nat)
    requires Run(k, tr, steps) && i < |steps| && Clobbers(k, tr[i], steps[i])
    ensures j <= i && Clobbers(k, tr[j], steps[j]) && forall l: nat :: l < j ==> !Clobbers(k, tr[l], steps[l])
  {
    j := i;
    if l: nat :| l < i && Clobbers(k, tr[l], steps[l]) { j := FirstClobber(k, tr, steps, l); }
  }
}
