/** When instants keep chains intact. Archive slots and instant-keyed anchors are named by instants alone, so what
    protects them is that no two records of a type share one: every mint must exceed every mint before it. A process
    has that from its own watermark; across a restart it takes a clock or a floor that has not fallen behind. */
module VersionInstants {
  import opened Ids
  import Minting
  import opened Stores
  import opened Records
  import opened VersionChain

  // ---- Clocks and addresses ---------------------------------------------------------------------

  /** The clock, the floor or the process's own watermark has reached every version's instant so far. */
  predicate Clears(s: Sys, step: Step)
    requires step.Plan? || step.Insert?
  {
    s.high < step.clock || s.high <= MintFloor(s, step) || s.high <= s.last
  }

  /** The records of a type that has many per tenant share the tenant's slots; a `Unique` one has them to itself. */
  predicate ClockHolds(k: Kind, s: Sys, step: Step) {
    k.shape.NonUnique? && (step.Plan? || step.Insert?) ==> Clears(s, step)
  }

  /** A save names a record that exists, a removal an anchor. A natural key or a `Unique` type sees to it by itself. */
  predicate AddressHolds(k: Kind, s: Sys, step: Step) {
    k.shape.NonUnique? ==>
      && (step.Plan? && !k.keyed ==> step.anchor in s.store)
      && (step.Retire? ==> step.anchor.flag == AnchorFlag(k.shape))
  }

  predicate Proper(k: Kind, s: Sys, step: Step) {
    ClockHolds(k, s, step) && AddressHolds(k, s, step)
  }

  ghost predicate ProperAt(k: Kind, tr: seq<Sys>, steps: seq<Step>, i: nat)
    requires i < |steps| < |tr|
  {
    Proper(k, tr[i], steps[i])
  }

  /** A run whose clocks and addresses hold. */
  ghost predicate Behaviour(k: Kind, tr: seq<Sys>, steps: seq<Step>) {
    Run(k, tr, steps) && forall i: nat :: i < |steps| ==> ProperAt(k, tr, steps, i)
  }

  function Minted(s: Sys, step: Step): u64
    requires step.Plan? || step.Insert?
  {
    Minting.MintValue(step.clock, MintFloor(s, step), s.last)
  }

  /** A version's instant exceeds every earlier one exactly when the step clears them. */
  lemma MintExceedsIffClears(s: Sys, step: Step)
    requires (step.Plan? || step.Insert?) && Unsaturated(s, step)
    ensures s.high < Minted(s, step) <==> Clears(s, step)
  {
  }

  lemma StepMints(k: Kind, s: Sys, step: Step)
    requires Unsaturated(s, step)
    ensures var s' := Take(k, s, step);
            if (step.Plan? && Planning(k, s, step).Some?) || (step.Insert? && k.shape.NonUnique? && !k.keyed)
            then s'.last == Minted(s, step) > s.last && s'.high == Minting.Max(s.high, Minted(s, step))
            else s'.high == s.high && (step.Restart? || s.last <= s'.last)
  {
  }

  lemma {:induction false} OneProcessLeads(k: Kind, tr: seq<Sys>, steps: seq<Step>, i: nat)
    requires Run(k, tr, steps) && i < |tr| && forall j :: 0 <= j < i ==> !steps[j].Restart?
    ensures tr[i].high <= tr[i].last
  {
    if i > 0 {
      OneProcessLeads(k, tr, steps, i - 1);
      assert Steps(k, tr, steps, i - 1);
      StepMints(k, tr[i - 1], steps[i - 1]);
    }
  }

  /** One process needs nothing of its clock: a run without a restart is a behaviour if its addresses hold. So is any
      run of a `Unique` type. */
  lemma OneProcessClocksHold(k: Kind, tr: seq<Sys>, steps: seq<Step>)
    requires Run(k, tr, steps) && (k.shape.Unique? || forall j :: 0 <= j < |steps| ==> !steps[j].Restart?)
    requires forall j :: 0 <= j < |steps| ==> AddressHolds(k, tr[j], steps[j])
    ensures Behaviour(k, tr, steps)
  {
    forall i: nat | i < |steps| ensures ProperAt(k, tr, steps, i) {
      if k.shape.NonUnique? { OneProcessLeads(k, tr, steps, i); }
    }
  }

  // ---- Distinct instants -----------------------------------------------------------------

  /** The instant `t` is in none of these versions. */
  ghost predicate Avoids(vs: seq<Envelope>, t: u64) {
    forall i :: 0 <= i < |vs| ==> T(vs[i]) != t
  }

  /** No other record of the tenant has used the instant `t`. */
  ghost predicate Fresh(hist: Histories, a: Id, t: u64) {
    forall b :: b in hist && b != a && b.tenant == a.tenant ==> Avoids(hist[b], t)
  }

  /** Two records of a tenant never share an instant. */
  ghost predicate DistinctOk(hist: Histories) {
    forall a, i :: a in hist && 0 <= i < |hist[a]| ==> Fresh(hist, a, T(hist[a][i]))
  }

  /** A pending save's instant is used by no other record and no other record's pending save. */
  ghost predicate PendingOk(k: Kind, pending: map<nat, Pending>, hist: Histories) {
    && (forall w :: w in pending ==> PendingShape(k, pending[w]) && Fresh(hist, pending[w].anchor, T(pending[w].next)))
    && (forall w, v :: w in pending && v in pending && pending[w].anchor != pending[v].anchor
                       && pending[w].anchor.tenant == pending[v].anchor.tenant ==>
          T(pending[w].next) != T(pending[v].next))
  }

  ghost predicate AllAtMost(vs: seq<Envelope>, last: u64) {
    forall i :: 0 <= i < |vs| ==> T(vs[i]) <= last
  }

  /** Every instant of a many-record type is at or below the greatest one minted. */
  ghost predicate BoundedOk(k: Kind, high: u64, pending: map<nat, Pending>, hist: Histories) {
    k.shape.NonUnique? ==>
      && (forall a :: a in hist ==> AllAtMost(hist[a], high) && (!k.keyed ==> a.key <= high))
      && (forall w :: w in pending ==> T(pending[w].next) <= high && (!k.keyed ==> pending[w].anchor in hist))
  }

  /** An instant-keyed anchor is keyed by its record's first instant. */
  ghost predicate FirstOk(k: Kind, hist: Histories) {
    k.shape.NonUnique? && !k.keyed ==>
      forall a :: a in hist ==> |hist[a]| > 0 && a == KeyedId(a.tenant, k.hash, T(hist[a][0]))
  }

  ghost predicate Timely(k: Kind, s: Sys) {
    && DistinctOk(s.hist) && PendingOk(k, s.pending, s.hist) && BoundedOk(k, s.high, s.pending, s.hist)
    && FirstOk(k, s.hist)
  }

  ghost predicate Inv(k: Kind, s: Sys) {
    Intact(k, s) && Timely(k, s)
  }

  /** A mint above every earlier one, or for a record alone under its tenant, is fresh. */
  lemma MintIsFresh(k: Kind, s: Sys, a: Id, t: u64)
    requires LiveOk(k, s.store, s.hist) && PendingOk(k, s.pending, s.hist) && BoundedOk(k, s.high, s.pending, s.hist)
    requires k.shape.NonUnique? ==> s.high < t
    requires k.shape.Unique? ==> a == UniqueAnchor(k.hash, a.tenant)
    ensures Fresh(s.hist, a, t)
    ensures forall w :: w in s.pending && s.pending[w].anchor != a && s.pending[w].anchor.tenant == a.tenant ==>
              T(s.pending[w].next) != t
  {
  }

  lemma PendingUpdate(k: Kind, pending: map<nat, Pending>, hist: Histories, w: nat, p: Pending)
    requires PendingOk(k, pending, hist) && PendingShape(k, p) && Fresh(hist, p.anchor, T(p.next))
    requires forall v :: v in pending && pending[v].anchor != p.anchor && pending[v].anchor.tenant == p.anchor.tenant ==>
               T(pending[v].next) != T(p.next)
    ensures PendingOk(k, pending[w := p], hist)
  {
  }

  lemma BoundedPending(k: Kind, t: u64, pending: map<nat, Pending>, hist: Histories, w: nat, p: Pending)
    requires BoundedOk(k, t, pending, hist) && T(p.next) <= t
    requires k.shape.NonUnique? && !k.keyed ==> p.anchor in hist
    ensures BoundedOk(k, t, pending[w := p], hist)
  {
  }

  lemma BoundRises(k: Kind, s: Sys, t: u64)
    requires BoundedOk(k, s.high, s.pending, s.hist) && s.high <= t
    ensures BoundedOk(k, t, s.pending, s.hist)
  {
  }

  /** A version appended to one history keeps the others' freshness, and its own when it is fresh. */
  lemma DistinctAppend(hist: Histories, a: Id, vs: seq<Envelope>, e: Envelope)
    requires DistinctOk(hist) && Fresh(hist, a, T(e))
    requires vs == if a in hist then hist[a] else []
    ensures DistinctOk(hist[a := vs + [e]])
  {
  }

  lemma InsertPending(k: Kind, s: Sys, id: Id, e: Envelope)
    requires PendingOk(k, s.pending, s.hist) && id !in s.hist
    requires forall w :: w in s.pending ==> T(s.pending[w].next) < T(e)
    ensures PendingOk(k, s.pending, s.hist[id := [e]])
  {
  }

  lemma BoundedUpdate(k: Kind, high: u64, pending: map<nat, Pending>, hist: Histories, a: Id, vs: seq<Envelope>)
    requires BoundedOk(k, high, pending, hist) && AllAtMost(vs, high)
    requires k.shape.NonUnique? && !k.keyed ==> a.key <= high
    ensures BoundedOk(k, high, pending, hist[a := vs])
  {
  }

  lemma PlanTimely(k: Kind, s: Sys, step: Step)
    requires Inv(k, s) && step.Plan? && Unsaturated(s, step) && Proper(k, s, step)
    ensures Timely(k, Take(k, s, step))
  {
    if Planning(k, s, step).Some? {
      PlanningShape(k, s, step);
      AddPending(k, s, step.w, Planning(k, s, step).value);
    }
  }

  lemma AddPending(k: Kind, s: Sys, w: nat, p: Pending)
    requires LiveOk(k, s.store, s.hist) && Timely(k, s) && PendingShape(k, p)
    requires k.shape.NonUnique? ==> s.high < T(p.next) && (!k.keyed ==> p.anchor in s.hist)
    ensures Timely(k, s.(high := Minting.Max(s.high, T(p.next)), pending := s.pending[w := p]))
  {
    MintIsFresh(k, s, p.anchor, T(p.next));
    BoundRises(k, s, Minting.Max(s.high, T(p.next)));
    PendingUpdate(k, s.pending, s.hist, w, p);
    BoundedPending(k, Minting.Max(s.high, T(p.next)), s.pending, s.hist, w, p);
  }

  lemma InsertTimely(k: Kind, s: Sys, step: Step)
    requires LiveOk(k, s.store, s.hist) && Timely(k, s)
    requires step.Insert? && Unsaturated(s, step) && ClockHolds(k, s, step)
    ensures Timely(k, Take(k, s, step)) && !Clobbers(k, s, step)
  {
    if k.shape.NonUnique? && !k.keyed {
      var (id, e) := Inserting(k, s, step);
      assert s.high < T(e) && id !in s.hist && id !in s.store;
      AddInstant(k, s, id, e);
      assert [] + [e] == [e];
    }
  }

  lemma AddInstant(k: Kind, s: Sys, id: Id, e: Envelope)
    requires LiveOk(k, s.store, s.hist) && Timely(k, s)
    requires k.shape.NonUnique? && !k.keyed && s.high < T(e) && id !in s.hist && id == KeyedId(id.tenant, k.hash, T(e))
    ensures Timely(k, s.(high := T(e), hist := s.hist[id := [e]]))
  {
    MintIsFresh(k, s, id, T(e));
    BoundRises(k, s, T(e));
    DistinctAppend(s.hist, id, [], e);
    assert [] + [e] == [e];
    InsertPending(k, s, id, e);
    BoundedUpdate(k, T(e), s.pending, s.hist, id, [e]);
  }

  lemma RetireInstants(k: Kind, s: Sys, a: Id, vs: seq<Envelope>)
    requires DistinctOk(s.hist) && PendingOk(k, s.pending, s.hist) && BoundedOk(k, s.high, s.pending, s.hist)
    requires a in s.hist && Restamped(s.hist[a], vs)
    ensures DistinctOk(s.hist[a := vs]) && PendingOk(k, s.pending, s.hist[a := vs])
    ensures BoundedOk(k, s.high, s.pending, s.hist[a := vs])
  {
    var hist := s.hist[a := vs];
    forall b, t | b in s.hist && Fresh(s.hist, b, t) ensures Fresh(hist, b, t) {
      forall c | c in hist && c != b && c.tenant == b.tenant ensures Avoids(hist[c], t) {
        assert Avoids(s.hist[c], t);
      }
    }
    forall b, i | b in hist && 0 <= i < |hist[b]| ensures Fresh(hist, b, T(hist[b][i])) {
      assert Fresh(s.hist, b, T(s.hist[b][i]));
    }
    forall w | w in s.pending ensures Fresh(hist, s.pending[w].anchor, T(s.pending[w].next)) {
      var p := s.pending[w];
      assert Fresh(s.hist, p.anchor, T(p.next));
      forall c | c in hist && c != p.anchor && c.tenant == p.anchor.tenant ensures Avoids(hist[c], T(p.next)) {
        assert Avoids(s.hist[c], T(p.next));
      }
    }
    if k.shape.NonUnique? {
      assert AllAtMost(s.hist[a], s.high);
      assert AllAtMost(vs, s.high);
    }
  }

  lemma FirstKept(k: Kind, hist: Histories, a: Id, vs: seq<Envelope>)
    requires FirstOk(k, hist) && a in hist && |hist[a]| > 0 && Restamped(hist[a], vs)
    ensures FirstOk(k, hist[a := vs])
  {
  }

  lemma RetireTimely(k: Kind, s: Sys, step: Step)
    requires LiveOk(k, s.store, s.hist) && LinkedOk(k, s.hist) && Timely(k, s) && step.Retire?
    ensures Timely(k, Take(k, s, step))
  {
    var a := step.anchor;
    if k.shape.NonUnique? && a in s.store && a in s.hist && !s.store[a].meta.removed {
      var vs := FlagAnchor(k, s, a);
      RetireInstants(k, s, a, vs);
      FirstKept(k, s.hist, a, vs);
    }
  }

  lemma AppendPending(k: Kind, s: Sys, w: nat)
    requires PendingOk(k, s.pending, s.hist) && w in s.pending
    ensures var p := s.pending[w];
            PendingOk(k, s.pending - {w}, s.hist[p.anchor := Versions(s.hist, p.anchor) + [p.next]])
  {
    var p := s.pending[w];
    var hist' := s.hist[p.anchor := Versions(s.hist, p.anchor) + [p.next]];
    forall v | v in s.pending && v != w ensures Fresh(hist', s.pending[v].anchor, T(s.pending[v].next)) {
      var q := s.pending[v];
      assert Fresh(s.hist, q.anchor, T(q.next));
      forall b | b in hist' && b != q.anchor && b.tenant == q.anchor.tenant ensures Avoids(hist'[b], T(q.next)) {
        if b in s.hist { assert Avoids(s.hist[b], T(q.next)); }
      }
    }
  }

  lemma AppendBounded(k: Kind, s: Sys, w: nat)
    requires BoundedOk(k, s.high, s.pending, s.hist) && w in s.pending
    ensures var p := s.pending[w];
            var hist := s.hist[p.anchor := Versions(s.hist, p.anchor) + [p.next]];
            BoundedOk(k, s.high, s.pending - {w}, hist) && (FirstOk(k, s.hist) ==> FirstOk(k, hist))
  {
  }

  lemma CommitTimely(k: Kind, s: Sys, step: Step)
    requires Timely(k, s) && step.Commit?
    ensures Timely(k, Take(k, s, step))
  {
    var w := step.w;
    if w in s.pending {
      var p := s.pending[w];
      DropPending(k, s, w);
      DistinctAppend(s.hist, p.anchor, Versions(s.hist, p.anchor), p.next);
      AppendPending(k, s, w);
      AppendBounded(k, s, w);
    }
  }

  lemma DropPending(k: Kind, s: Sys, w: nat)
    requires Timely(k, s)
    ensures Timely(k, s.(pending := s.pending - {w}))
  {
  }

  // ---- Slots and anchors in use ----------------------------------------------------------

  ghost predicate SupersededAt(vs: seq<Envelope>, t: u64) {
    exists i :: 0 <= i < |vs| - 1 && T(vs[i]) == t
  }

  /** The slot a live version will be archived at is taken exactly when another record of its tenant has a superseded
      version of the same instant. */
  lemma SlotTakenIff(k: Kind, s: Sys, a: Id)
    requires Intact(k, s) && a in s.hist
    ensures Slot(k, a, Last(s.hist[a])) in s.store <==>
            exists b :: b in s.hist && b != a && b.tenant == a.tenant && SupersededAt(s.hist[b], T(Last(s.hist[a])))
  {
    var slot, t := Slot(k, a, Last(s.hist[a])), T(Last(s.hist[a]));
    if slot in s.store {
      var (b, i) := s.owner[slot];
      assert Owned(k, s.hist, slot, (b, i));
      assert Linked(k, s.hist[a]);
      assert b != a && SupersededAt(s.hist[b], t);
    }
    if b :| b in s.hist && b != a && b.tenant == a.tenant && SupersededAt(s.hist[b], t) {
      var i :| 0 <= i < |s.hist[b]| - 1 && T(s.hist[b][i]) == t;
      assert Archived(k, s.store, b, s.hist[b]);
      assert ArchivedAt(k, s.store, b, s.hist[b], i);
    }
  }

  /** The anchor an insert would mint is taken exactly when a record of the tenant was first authored at that
      instant. */
  lemma AnchorTakenIff(k: Kind, s: Sys, tenant: u48, t: u64)
    requires Intact(k, s) && FirstOk(k, s.hist) && k.shape.NonUnique? && !k.keyed
    ensures KeyedId(tenant, k.hash, t) in s.store <==>
            exists a :: a in s.hist && a.tenant == tenant && T(s.hist[a][0]) == t
  {
    var id := KeyedId(tenant, k.hash, t);
    if id in s.store { assert id in s.hist && T(s.hist[id][0]) == t; }
  }

  /** While instants are distinct, the slot of a record's newest version is vacant, and no anchor is ever there. */
  lemma NewestSlotIsVacant(k: Kind, s: Sys, a: Id)
    requires Inv(k, s) && a in s.hist
    ensures Slot(k, a, Last(s.hist[a])) !in s.store
    ensures forall b: Id :: b.flag == AnchorFlag(k.shape) ==> b != Slot(k, a, Last(s.hist[a]))
  {
    SlotTakenIff(k, s, a);
    var t := T(Last(s.hist[a]));
    assert Fresh(s.hist, a, t);
    forall b | b in s.hist && b != a && b.tenant == a.tenant ensures !SupersededAt(s.hist[b], t) {
      assert Avoids(s.hist[b], t);
    }
  }

  // ---- Every behaviour -------------------------------------------------------------------

  lemma PendingClobbersNothing(k: Kind, s: Sys, w: nat)
    requires Inv(k, s) && w in s.pending
    ensures !Overwrites(k, s.store, s.pending[w]) && !Strays(k, s.store, s.pending[w])
  {
    var p := s.pending[w];
    assert PendingShape(k, p);
    if p.anchor in s.hist { NewestSlotIsVacant(k, s, p.anchor); }
  }

  lemma NothingClobbered(k: Kind, s: Sys, step: Step)
    requires Inv(k, s) && Unsaturated(s, step) && Proper(k, s, step)
    ensures !Clobbers(k, s, step)
  {
    if step.Insert? { InsertTimely(k, s, step); }
    if step.Commit? && step.w in s.pending { PendingClobbersNothing(k, s, step.w); }
  }

  lemma StepTimely(k: Kind, s: Sys, step: Step)
    requires Inv(k, s) && Unsaturated(s, step) && Proper(k, s, step)
    ensures Timely(k, Take(k, s, step))
  {
    match step
    case Plan(_, _, _, _, _, _, _, _) => PlanTimely(k, s, step);
    case Commit(_) => CommitTimely(k, s, step);
    case Insert(_, _, _, _, _, _) => InsertTimely(k, s, step);
    case Retire(_, _, _) => RetireTimely(k, s, step);
    case Restart =>
  }

  lemma StepKeeps(k: Kind, s: Sys, step: Step)
    requires Inv(k, s) && Unsaturated(s, step) && Proper(k, s, step)
    ensures Inv(k, Take(k, s, step)) && !Clobbers(k, s, step)
  {
    NothingClobbered(k, s, step);
    StepKeepsChainsIff(k, s, step);
    StepTimely(k, s, step);
  }

  /** The invariant holds at every point of every behaviour. */
  lemma {:induction false} RunKeeps(k: Kind, tr: seq<Sys>, steps: seq<Step>, i: nat)
    requires Behaviour(k, tr, steps) && i < |tr|
    ensures Inv(k, tr[i])
  {
    if i > 0 {
      RunKeeps(k, tr, steps, i - 1);
      assert Steps(k, tr, steps, i - 1) && ProperAt(k, tr, steps, i - 1);
      StepKeeps(k, tr[i - 1], steps[i - 1]);
    }
  }
}
