/** What each step of the version-chain protocol writes, told from the step alone: who wrote it, what it says, and what it
    takes over from the version before. */
module VersionAuthors {
  import opened Ids
  import Minting
  import opened Stores
  import opened Records
  import opened VersionChain
  import opened VersionInstants
  import opened VersionHistory

  lemma PlanAuthors(k: Kind, s: Sys, step: Step)
    requires step.Plan? && Planning(k, s, step).Some?
    ensures var p := Planning(k, s, step).value;
            SavedBy(Get(s.store, step.anchor), p.next, k.hash, step.user, step.pivot, step.revives, step.body)
  {
  }

  /** While chains are intact, a save can be planned exactly where it names a record's own address, in use or vacant, and
      not an archive. */
  lemma PlanSucceedsIff(k: Kind, s: Sys, step: Step)
    requires Intact(k, s) && step.Plan?
    ensures Planning(k, s, step).Some? <==>
            Addressable(k, step.anchor) && (step.anchor in s.store ==> step.anchor.flag == AnchorFlag(k.shape))
  {
    var a := step.anchor;
    if a in s.store {
      if a.flag == AnchorFlag(k.shape) {
        assert Linked(k, s.hist[a]);
      } else {
        var b, i := ArchiveIsOwned(k, s, a);
        assert Linked(k, s.hist[b]);
      }
    }
  }

  /** The store after an accepted commit. */
  lemma CommitWrites(k: Kind, s: Sys, w: nat)
    requires w in s.pending && PendingShape(k, s.pending[w])
    requires Get(s.store, s.pending[w].anchor) == s.pending[w].expected
    ensures var p, store := s.pending[w], Take(k, s, Commit(w)).store;
            && Get(store, p.anchor) == Some(p.next)
            && (p.expected.Some? ==>
                  var slot := ArchiveId(k.hash, k.shape, T(p.expected.value), p.anchor.tenant);
                  slot in store && KeptAs(p.expected.value, store[slot], T(p.next)))
  {
    CommitEffect(k, s, s.pending[w]);
  }

  /** What waits from a plan at step `p` to a commit at step `c`. */
  lemma PlannedWaits(k: Kind, tr: seq<Sys>, steps: seq<Step>, p: nat, c: nat)
    requires Behaviour(k, tr, steps) && p < c < |steps| && steps[p].Plan?
    requires Holds(steps, steps[p].w, p + 1, c) && Planning(k, tr[p], steps[p]).Some?
    ensures steps[p].w in tr[c].pending
    ensures var pend, step := tr[c].pending[steps[p].w], steps[p];
            && PendingShape(k, pend) && pend.anchor == step.anchor && pend.expected == Get(tr[p].store, step.anchor)
            && SavedBy(pend.expected, pend.next, k.hash, step.user, step.pivot, step.revives, step.body)
            && tr[p].last < T(pend.next) && step.floor < T(pend.next) && step.clock <= T(pend.next)
  {
    var step := steps[p];
    assert Steps(k, tr, steps, p) && ProperAt(k, tr, steps, p);
    RunKeeps(k, tr, steps, p);
    PlanningShape(k, tr[p], step);
    PlanAuthors(k, tr[p], step);
    assert tr[p + 1].pending[step.w] == Planning(k, tr[p], step).value;
    PendingHeld(k, tr, steps, step.w, p + 1, c);
  }

  /** Over every behaviour: a save planned at step `p` and accepted at step `c`, whatever happened in between, leaves at its
      anchor exactly the version its writer asked for, on top of what the plan read; and a reader of the history gets it
      first. */
  lemma SaveIsAsWritten(k: Kind, tr: seq<Sys>, steps: seq<Step>, p: nat, c: nat)
    requires Behaviour(k, tr, steps) && p < c < |steps| && steps[p].Plan? && steps[c] == Commit(steps[p].w)
    requires Holds(steps, steps[p].w, p + 1, c) && Planning(k, tr[p], steps[p]).Some?
    requires Get(tr[c].store, steps[p].anchor) == Get(tr[p].store, steps[p].anchor)
    ensures var step, prior := steps[p], Get(tr[p].store, steps[p].anchor);
            && step.anchor in tr[c + 1].store
            && var now := tr[c + 1].store[step.anchor];
               && SavedBy(prior, now, k.hash, step.user, step.pivot, step.revives, step.body)
               && tr[p].last < T(now) && step.floor < T(now) && step.clock <= T(now)
               && (prior.Some? ==>
                     var slot := ArchiveId(k.hash, k.shape, T(prior.value), step.anchor.tenant);
                     slot in tr[c + 1].store && KeptAs(prior.value, tr[c + 1].store[slot], T(now)))
               && History(tr[c + 1].store, k.hash, k.shape, step.anchor.tenant, Some(step.anchor), 1)
                  == [Ok((now.meta, step.body))]
  {
    var step := steps[p];
    PlannedWaits(k, tr, steps, p, c);
    assert Steps(k, tr, steps, c);
    CommitWrites(k, tr[c], step.w);
    ReadsBack(k, tr[c + 1].store, step.anchor);
  }

  /** The first item of a walk is what the anchor holds. */
  lemma ReadsBack(k: Kind, store: Contents<Envelope>, a: Id)
    requires a in store && store[a].hash == k.hash
    ensures History(store, k.hash, k.shape, a.tenant, Some(a), 1) == [Ok((store[a].meta, store[a].body))]
  {
    var (item, older) := HistoryStep(store, k.hash, k.shape, a.tenant, a);
    assert History(store, k.hash, k.shape, a.tenant, older, 0) == [];
  }

  /** An insert puts one record at the anchor its instant names, in its tenant and under its type's salt, and touches
      nothing else. */
  lemma InsertIsAsWritten(k: Kind, s: Sys, step: Step)
    requires step.Insert? && k.shape.NonUnique? && !k.keyed && Unsaturated(s, step)
    ensures var s' := Take(k, s, step);
            var id := Id(s'.last, step.tenant, false, k.hash % 0x8000);
            && id in s'.store && SavedBy(None, s'.store[id], k.hash, step.user, Some(step.owner), false, step.body)
            && T(s'.store[id]) == s'.last && s.last < s'.last && step.floor < s'.last && step.clock <= s'.last
            && forall x :: x != id ==> Get(s'.store, x) == Get(s.store, x)
  {
  }

  /** A removal that acts marks what the id holds, in that field alone, and mints an instant. */
  lemma RetireIsAsWritten(k: Kind, s: Sys, step: Step)
    requires step.Retire? && k.shape.NonUnique? && Unsaturated(s, step) && step.anchor in s.store
    ensures var s', a := Take(k, s, step), step.anchor;
            && a in s'.store && s'.store[a].meta.removed
            && s'.store[a].hash == s.store[a].hash && s'.store[a].body == s.store[a].body
            && s'.store[a].meta.(removed := s.store[a].meta.removed) == s.store[a].meta
            && (forall x :: x != a ==> Get(s'.store, x) == Get(s.store, x))
            && if s.store[a].meta.removed then s'.last == s.last
               else s.last < s'.last && step.floor < s'.last && step.clock <= s'.last
  {
  }
}
