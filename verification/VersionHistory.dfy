/** What the version-chain protocol promises over whole runs. */
module VersionHistory {
  import opened Ids
  import opened Stores
  import opened Records
  import opened VersionChain
  import opened VersionInstants

  // ---- The history walk -------------------------------------------------------------

  /** Version `i` as it is stored now: the newest in live form, an older one naming its successor. */
  function Form(vs: seq<Envelope>, i: nat): Envelope
    requires i < |vs|
  {
    if i == |vs| - 1 then vs[i] else Superseded(vs[i], T(vs[i + 1]))
  }

  /** The newest `n` of the first `top` versions, newest first. */
  function NewestFirst(vs: seq<Envelope>, top: nat, n: nat): seq<Result<Version>>
    requires top <= |vs|
  {
    seq(if n < top then n else top,
        j requires 0 <= j < top => Ok((Form(vs, top - 1 - j).meta, Form(vs, top - 1 - j).body)))
  }

  function Address(k: Kind, a: Id, vs: seq<Envelope>, i: nat): Id
    requires i < |vs|
  {
    if i == |vs| - 1 then a else Slot(k, a, vs[i])
  }

  lemma {:induction false} WalkFrom(k: Kind, store: Contents<Envelope>, a: Id, vs: seq<Envelope>, i: nat, n: nat)
    requires i < |vs| && Linked(k, vs) && Archived(k, store, a, vs) && a in store && store[a] == Last(vs)
    ensures History(store, k.hash, k.shape, a.tenant, Some(Address(k, a, vs, i)), n) == NewestFirst(vs, i + 1, n)
    decreases i
  {
    var id := Address(k, a, vs, i);
    if i < |vs| - 1 { assert ArchivedAt(k, store, a, vs, i); }
    assert id in store && store[id] == Form(vs, i);
    assert LinkedBack(vs, i);
    if n > 0 {
      var (item, older) := HistoryStep(store, k.hash, k.shape, a.tenant, id);
      assert item == Ok((Form(vs, i).meta, Form(vs, i).body));
      if i > 0 {
        assert older == Some(Slot(k, a, vs[i - 1])) == Some(Address(k, a, vs, i - 1));
        WalkFrom(k, store, a, vs, i - 1, n - 1);
        assert NewestFirst(vs, i + 1, n) == [item] + NewestFirst(vs, i, n - 1);
      } else {
        assert History(store, k.hash, k.shape, a.tenant, None, n - 1) == [];
      }
    }
  }

  lemma WalkIntact(k: Kind, s: Sys, a: Id, n: nat)
    requires LiveOk(k, s.store, s.hist) && LinkedOk(k, s.hist) && ArchivedOk(k, s.store, s.hist) && a in s.hist
    ensures History(s.store, k.hash, k.shape, a.tenant, Some(a), n) == NewestFirst(s.hist[a], |s.hist[a]|, n)
  {
    assert Linked(k, s.hist[a]) && Archived(k, s.store, a, s.hist[a]);
    WalkFrom(k, s.store, a, s.hist[a], |s.hist[a]| - 1, n);
  }

  /** Whatever the store holds, a walk that meets an unreadable version reports it and ends there. */
  lemma WalkEndsAtFault(k: Kind, store: Contents<Envelope>, tenant: u48, id: Id, n: nat)
    requires n > 0
    ensures id !in store ==> History(store, k.hash, k.shape, tenant, Some(id), n) == [Err(RecordMissing(id))]
    ensures id in store && store[id].hash != k.hash ==>
              History(store, k.hash, k.shape, tenant, Some(id), n) == [Err(UnknownStructHash(store[id].hash))]
  {
    assert History(store, k.hash, k.shape, tenant, None, n - 1) == [];
  }

  /** In every behaviour, the walk from an anchor yields exactly the committed versions in reverse commit order, and then
      ends: however many items are asked for, no more and no others come. */
  lemma HistoryIsCommitOrder(k: Kind, tr: seq<Sys>, steps: seq<Step>, i: nat, a: Id, n: nat)
    requires Behaviour(k, tr, steps) && i < |tr| && a in tr[i].hist
    ensures History(tr[i].store, k.hash, k.shape, a.tenant, Some(a), n) ==
            NewestFirst(tr[i].hist[a], |tr[i].hist[a]|, n)
  {
    RunKeeps(k, tr, steps, i);
    WalkIntact(k, tr[i], a, n);
  }

  /** A commit whose anchor still holds what its plan read appends its version to the record's history; any other
      commit conflicts and writes nothing. */
  lemma CommitAppendsOrNothing(k: Kind, tr: seq<Sys>, steps: seq<Step>, i: nat)
    requires Behaviour(k, tr, steps) && i < |steps| && steps[i].Commit? && steps[i].w in tr[i].pending
    ensures var p := tr[i].pending[steps[i].w];
            if Get(tr[i].store, p.anchor) == p.expected
            then tr[i + 1].hist == tr[i].hist[p.anchor := Versions(tr[i].hist, p.anchor) + [p.next]]
                 && Get(tr[i + 1].store, p.anchor) == Some(p.next)
            else Apply(tr[i].store, p.writes) == Err(Conflict(p.anchor))
                 && tr[i + 1].store == tr[i].store && tr[i + 1].hist == tr[i].hist
  {
    RunKeeps(k, tr, steps, i);
    assert Steps(k, tr, steps, i);
    CommitTakes(k, tr[i], steps[i].w);
  }

  lemma CommitTakes(k: Kind, s: Sys, w: nat)
    requires LiveOk(k, s.store, s.hist) && w in s.pending && PendingShape(k, s.pending[w])
    ensures var p, s' := s.pending[w], Take(k, s, Commit(w));
            if Get(s.store, p.anchor) == p.expected
            then s'.hist == s.hist[p.anchor := Versions(s.hist, p.anchor) + [p.next]] && Get(s'.store, p.anchor) == Some(p.next)
            else Apply(s.store, p.writes) == Err(Conflict(p.anchor)) && s'.store == s.store && s'.hist == s.hist
  {
    CommitEffect(k, s, s.pending[w]);
  }

  // ---- No live bytes recur ------------------------------------------------------------

  /** Later versions rank higher, and removal ranks above the version it marks. */
  function Rank(e: Envelope): nat {
    2 * T(e) + Bit(e.meta.removed)
  }

  /** A record's live bytes stay, or move up. */
  ghost predicate Rises(before: Contents<Envelope>, after: Contents<Envelope>, a: Id) {
    a in before && a in after && (after[a] == before[a] || Rank(before[a]) < Rank(after[a]))
  }

  lemma CommitRaises(k: Kind, s: Sys, w: nat, a: Id)
    requires LiveOk(k, s.store, s.hist) && w in s.pending && PendingShape(k, s.pending[w]) && a in s.hist
    ensures var s' := Take(k, s, Commit(w)); a in s'.hist && Rises(s.store, s'.store, a)
  {
    CommitEffect(k, s, s.pending[w]);
  }

  lemma InsertRaises(k: Kind, s: Sys, step: Step, a: Id)
    requires LiveOk(k, s.store, s.hist) && BoundedOk(k, s.high, s.pending, s.hist) && step.Insert? && a in s.hist
    requires Unsaturated(s, step) && ClockHolds(k, s, step)
    ensures var s' := Take(k, s, step); a in s'.hist && Rises(s.store, s'.store, a)
  {
  }

  lemma RetireRaises(k: Kind, s: Sys, step: Step, a: Id)
    requires LiveOk(k, s.store, s.hist) && step.Retire? && a in s.hist
    ensures var s' := Take(k, s, step); a in s'.hist && Rises(s.store, s'.store, a)
  {
  }

  lemma StepRaisesRank(k: Kind, s: Sys, step: Step, a: Id)
    requires Inv(k, s) && Unsaturated(s, step) && Proper(k, s, step) && a in s.hist
    ensures var s' := Take(k, s, step); a in s'.hist && Rises(s.store, s'.store, a)
  {
    match step
    case Commit(w) => if w in s.pending { CommitRaises(k, s, w, a); }
    case Insert(_, _, _, _, _, _) => InsertRaises(k, s, step, a);
    case Plan(_, _, _, _, _, _, _, _) =>
    case Retire(_, _, _) => RetireRaises(k, s, step, a);
    case Restart =>
  }

  lemma StepAtRaises(k: Kind, tr: seq<Sys>, steps: seq<Step>, i: nat, a: Id)
    requires Behaviour(k, tr, steps) && i < |steps| && a in tr[i].hist
    ensures a in tr[i + 1].hist && Rises(tr[i].store, tr[i + 1].store, a)
  {
    RunKeeps(k, tr, steps, i);
    assert Steps(k, tr, steps, i) && ProperAt(k, tr, steps, i);
    StepRaisesRank(k, tr[i], steps[i], a);
  }

  /** A record is in the history exactly when its anchor is in the store. */
  lemma AnchorsAreRecorded(k: Kind, tr: seq<Sys>, steps: seq<Step>, i: nat, a: Id)
    requires Behaviour(k, tr, steps) && i < |tr| && a.flag == AnchorFlag(k.shape)
    ensures a in tr[i].hist <==> a in tr[i].store
  {
    RunKeeps(k, tr, steps, i);
  }

  /** Between two points of a run a record stays, and its live bytes are unchanged or rank strictly higher. */
  lemma {:induction false} RankRises(k: Kind, tr: seq<Sys>, steps: seq<Step>, i: nat, j: nat, a: Id)
    requires Behaviour(k, tr, steps) && i <= j < |tr| && a in tr[i].hist && a.flag == AnchorFlag(k.shape)
    ensures a in tr[j].hist && Rises(tr[i].store, tr[j].store, a)
    decreases j
  {
    AnchorsAreRecorded(k, tr, steps, i, a);
    if i < j {
      RankRises(k, tr, steps, i, j - 1, a);
      StepAtRaises(k, tr, steps, j - 1, a);
    }
  }

  /** No ABA: if an anchor holds the same bytes at two points of a run, it held them throughout. */
  lemma LiveBytesNeverRecur(k: Kind, tr: seq<Sys>, steps: seq<Step>, i: nat, j: nat, l: nat, a: Id)
    requires Behaviour(k, tr, steps) && i <= j <= l < |tr| && a.flag == AnchorFlag(k.shape)
    requires Get(tr[i].store, a) == Get(tr[l].store, a)
    ensures Get(tr[j].store, a) == Get(tr[i].store, a)
  {
    AnchorsAreRecorded(k, tr, steps, i, a);
    AnchorsAreRecorded(k, tr, steps, j, a);
    if a in tr[j].hist { RankRises(k, tr, steps, j, l, a); }
    if a in tr[i].hist { RankRises(k, tr, steps, i, j, a); }
  }

  /** Writer `w` leaves its pending save alone from step `i` to step `j`. */
  predicate Holds(steps: seq<Step>, w: nat, i: nat, j: nat)
    requires j <= |steps|
  {
    forall m :: i <= m < j ==> !steps[m].Restart? && (steps[m].Plan? || steps[m].Commit? ==> steps[m].w != w)
  }

  lemma StepHolds(k: Kind, s: Sys, step: Step, w: nat)
    requires w in s.pending && !step.Restart? && (step.Plan? || step.Commit? ==> step.w != w)
    ensures w in Take(k, s, step).pending && Take(k, s, step).pending[w] == s.pending[w]
  {
  }

  lemma {:induction false} PendingHeld(k: Kind, tr: seq<Sys>, steps: seq<Step>, w: nat, i: nat, j: nat)
    requires Behaviour(k, tr, steps) && i <= j < |tr| && Holds(steps, w, i, j) && w in tr[i].pending
    ensures w in tr[j].pending && tr[j].pending[w] == tr[i].pending[w]
    decreases j
  {
    if i < j {
      PendingHeld(k, tr, steps, w, i, j - 1);
      assert Steps(k, tr, steps, j - 1);
      StepHolds(k, tr[j - 1], steps[j - 1], w);
    }
  }

  /** The guard is exact: a save planned at step `p` and committed at point `c`, after any interleaving, succeeds if
      and only if the anchor's bytes never changed in between. */
  lemma CommitSucceedsIffUntouched(k: Kind, tr: seq<Sys>, steps: seq<Step>, p: nat, c: nat, w: nat)
    requires Behaviour(k, tr, steps) && p < c < |tr|
    requires steps[p].Plan? && steps[p].w == w && Holds(steps, w, p + 1, c) && Planning(k, tr[p], steps[p]).Some?
    ensures w in tr[c].pending
    ensures Apply(tr[c].store, tr[c].pending[w].writes).Ok? <==>
            forall j :: p <= j <= c ==> Get(tr[j].store, steps[p].anchor) == Get(tr[p].store, steps[p].anchor)
  {
    var a := steps[p].anchor;
    assert Steps(k, tr, steps, p) && ProperAt(k, tr, steps, p);
    PendingHeld(k, tr, steps, w, p + 1, c);
    var pend := tr[c].pending[w];
    assert pend == Planning(k, tr[p], steps[p]).value;
    RunKeeps(k, tr, steps, p);
    PlanningShape(k, tr[p], steps[p]);
    CommitEffect(k, tr[c], pend);
    assert pend.expected == Get(tr[p].store, a);
    if Get(tr[c].store, a) == pend.expected {
      forall j | p <= j <= c ensures Get(tr[j].store, a) == Get(tr[p].store, a) {
        LiveBytesNeverRecur(k, tr, steps, p, j, c, a);
      }
    }
  }

  // ---- Archives are write-once -----------------------------------------------------------

  /** A pending save may archive only at a vacant slot. */
  ghost predicate ArchivesAtVacancy(k: Kind, store: Contents<Envelope>, p: Pending) {
    PendingShape(k, p) && (p.expected.Some? && Get(store, p.anchor) == p.expected ==>
                             Slot(k, p.anchor, p.expected.value) !in store)
  }

  lemma PendingArchivesAtVacancy(k: Kind, s: Sys, w: nat)
    requires Inv(k, s) && w in s.pending
    ensures ArchivesAtVacancy(k, s.store, s.pending[w])
  {
    if s.pending[w].anchor in s.hist { NewestSlotIsVacant(k, s, s.pending[w].anchor); }
  }

  lemma StepKeepsArchives(k: Kind, s: Sys, step: Step, id: Id)
    requires LiveOk(k, s.store, s.hist) && id in s.store && id.flag != AnchorFlag(k.shape)
    requires step.Commit? && step.w in s.pending ==> ArchivesAtVacancy(k, s.store, s.pending[step.w])
    requires AddressHolds(k, s, step)
    ensures Get(Take(k, s, step).store, id) == Some(s.store[id])
  {
    if step.Commit? && step.w in s.pending { CommitEffect(k, s, s.pending[step.w]); }
  }

  lemma StepAtKeepsArchives(k: Kind, tr: seq<Sys>, steps: seq<Step>, i: nat, id: Id)
    requires Behaviour(k, tr, steps) && i < |steps| && id in tr[i].store && id.flag != AnchorFlag(k.shape)
    ensures Get(tr[i + 1].store, id) == Some(tr[i].store[id])
  {
    RunKeeps(k, tr, steps, i);
    assert Steps(k, tr, steps, i) && ProperAt(k, tr, steps, i);
    if steps[i].Commit? && steps[i].w in tr[i].pending { PendingArchivesAtVacancy(k, tr[i], steps[i].w); }
    StepKeepsArchives(k, tr[i], steps[i], id);
  }

  /** Once written, an archive keeps its bytes for the rest of the behaviour: no save of any record of the type, no insert,
      and no removal of an anchor lands on its slot. */
  lemma {:induction false} ArchivesAreWriteOnce(k: Kind, tr: seq<Sys>, steps: seq<Step>, i: nat, j: nat, id: Id)
    requires Behaviour(k, tr, steps) && i <= j < |tr| && id in tr[i].store && id.flag != AnchorFlag(k.shape)
    ensures Get(tr[j].store, id) == Some(tr[i].store[id])
    decreases j
  {
    if i < j {
      ArchivesAreWriteOnce(k, tr, steps, i, j - 1, id);
      StepAtKeepsArchives(k, tr, steps, j - 1, id);
    }
  }

  /** The archive namespace holds nothing but superseded versions, and the link each carries names the instant its
      successor was authored at. */
  lemma ArchivesNameTheirSuccessors(k: Kind, tr: seq<Sys>, steps: seq<Step>, j: nat, id: Id)
    requires Behaviour(k, tr, steps) && j < |tr| && id in tr[j].store && id.flag != AnchorFlag(k.shape)
    ensures var s := tr[j];
            exists a: Id, i: nat :: a in s.hist && i + 1 < |s.hist[a]| && id == Slot(k, a, s.hist[a][i])
                                    && s.store[id] == Superseded(s.hist[a][i], T(s.hist[a][i + 1]))
  {
    RunKeeps(k, tr, steps, j);
    var s := tr[j];
    var (a, i) := s.owner[id];
    assert Owned(k, s.hist, id, (a, i));
    assert Archived(k, s.store, a, s.hist[a]);
    assert ArchivedAt(k, s.store, a, s.hist[a], i);
  }
}
