/** Runs that lose a version although every step reads the floor of its own collection: a restart finds a clock that has
    fallen behind, a removal names an archive, a save names an archive slot. */
module LostVersions {
  import opened Ids
  import opened Stores
  import opened Records
  import opened VersionChain

  /** The records of one collection: those of a tenant whose live version hangs off `pivot`. */
  ghost predicate InCollection(s: Sys, tenant: u48, pivot: Option<LocalId>, a: Id) {
    a in s.store && !a.flag && a.tenant == tenant && s.store[a].meta.pivot == pivot
  }

  /** `floor` is what a collection without removals reads as its floor: its greatest live instant. */
  ghost predicate CollectionFloor(s: Sys, tenant: u48, pivot: Option<LocalId>, floor: u64) {
    && (forall a :: InCollection(s, tenant, pivot, a) ==> T(s.store[a]) <= floor)
    && (floor == 0 || exists a :: InCollection(s, tenant, pivot, a) && T(s.store[a]) == floor)
  }

  /** The collection a step writes to: that of the record it names, or the one it brings along. */
  function PivotOf(s: Sys, step: Step): Option<LocalId>
    requires step.Plan? || step.Retire?
  {
    if step.anchor in s.store then s.store[step.anchor].meta.pivot else if step.Plan? then step.pivot else None
  }

  /** A step that mints reads the floor of the collection it writes to. */
  ghost predicate ReadsFloor(s: Sys, step: Step) {
    && (step.Insert? ==> CollectionFloor(s, step.tenant, Some(step.owner), step.floor))
    && (step.Plan? || step.Retire? ==> CollectionFloor(s, step.anchor.tenant, PivotOf(s, step), step.floor))
  }

  lemma OneRecordFloor(s: Sys, a: Id)
    requires a in s.store && !a.flag
    requires forall b :: InCollection(s, a.tenant, s.store[a].meta.pivot, b) ==> b == a
    ensures CollectionFloor(s, a.tenant, s.store[a].meta.pivot, T(s.store[a]))
  {
    assert InCollection(s, a.tenant, s.store[a].meta.pivot, a);
  }

  const NOTES := Kind(0, NonUnique, false)
  const HERE := LocalId(0, false, 0)
  const THERE := LocalId(1, false, 0)

  function Adding(owner: LocalId, body: Bytes, clock: u64): Step {
    Insert(1, 1, owner, 0, body, clock)
  }

  function Saving(a: Id, floor: u64, body: Bytes, clock: u64): Step {
    Plan(0, a, 1, None, floor, false, body, clock)
  }

  function Live(previous: Option<u64>, t: u64, owner: LocalId, body: Bytes): Envelope {
    Envelope(0, Metadata(previous, CreatedAt(t), false, Some(owner), 1, 0, None), body)
  }

  /** An insert at a clock above floor and watermark. */
  lemma Adds(s: Sys, owner: LocalId, body: Bytes, clock: u64)
    requires s.last < clock
    ensures var s' := Take(NOTES, s, Adding(owner, body, clock));
            s'.store == s.store[Id(clock, 1, false, 0) := Live(None, clock, owner, body)] && s'.last == clock
    ensures Unsaturated(s, Adding(owner, body, clock))
  {
  }

  /** A save planned and committed at once, at a clock above floor and watermark. */
  lemma Saves(s: Sys, a: Id, previous: Option<u64>, t: u64, owner: LocalId, was: Bytes, body: Bytes, clock: u64)
    requires !a.flag && a.tenant == 1 && Get(s.store, a) == Some(Live(previous, t, owner, was))
    requires s.last < clock && t < clock
    ensures var s1 := Take(NOTES, s, Saving(a, t, body, clock));
            var s2 := Take(NOTES, s1, Commit(0));
            && s1.store == s.store && s1.last == s2.last == clock
            && Unsaturated(s, Saving(a, t, body, clock)) && (clock < MAX64 ==> Unsaturated(s1, Commit(0)))
            && s2.store == s.store[Id(t, 1, true, 0) := Superseded(Live(previous, t, owner, was), clock)]
                           [a := Live(Some(t), clock, owner, body)]
  {
    var step := Saving(a, t, body, clock);
    var s1 := Take(NOTES, s, step);
    var p := Planning(NOTES, s, step).value;
    assert p.expected == Some(Live(previous, t, owner, was)) && p.next == Live(Some(t), clock, owner, body);
    assert p.writes == BatchFor(NOTES, p);
    CommitEffect(NOTES, s1, p);
  }

  ghost predicate Reads(tr: seq<Sys>, steps: seq<Step>, i: nat)
    requires i < |steps| < |tr|
  {
    ReadsFloor(tr[i], steps[i])
  }

  /** The last state of a run in which every mint reads its own collection's floor. */
  ghost predicate Ends(tr: seq<Sys>, steps: seq<Step>, s: Sys) {
    Run(NOTES, tr, steps) && tr[|steps|] == s && forall i: nat :: i < |steps| ==> Reads(tr, steps, i)
  }

  ghost predicate Reachable(s: Sys) {
    exists tr: seq<Sys>, steps: seq<Step> :: Ends(tr, steps, s)
  }

  lemma Onward(s: Sys, step: Step)
    requires Reachable(s) && ReadsFloor(s, step) && Unsaturated(s, step)
    ensures Reachable(Take(NOTES, s, step))
  {
    var tr: seq<Sys>, steps: seq<Step> :| Ends(tr, steps, s);
    var tr', steps' := tr + [Take(NOTES, s, step)], steps + [step];
    forall i: nat | i < |steps'| ensures Steps(NOTES, tr', steps', i) && Reads(tr', steps', i) {
      if i < |steps| { assert Steps(NOTES, tr, steps, i) && Reads(tr, steps, i); }
    }
    assert Ends(tr', steps', Take(NOTES, s, step));
  }

  lemma Starts()
    ensures Reachable(Start)
  {
    assert Ends([Start], [], Start);
  }

  lemma AddsOnward(s: Sys, owner: LocalId, body: Bytes, clock: u64) returns (s': Sys)
    requires Reachable(s) && s.last < clock < MAX64 && forall b :: !InCollection(s, 1, Some(owner), b)
    ensures Reachable(s') && s'.last == clock
    ensures s'.store == s.store[Id(clock, 1, false, 0) := Live(None, clock, owner, body)]
  {
    Adds(s, owner, body, clock);
    Onward(s, Adding(owner, body, clock));
    s' := Take(NOTES, s, Adding(owner, body, clock));
  }

  lemma RestartsOnward(s: Sys) returns (s': Sys)
    requires Reachable(s) && s.last < MAX64
    ensures Reachable(s') && s'.last == 0 && s'.store == s.store
  {
    Onward(s, Restart);
    s' := Take(NOTES, s, Restart);
  }

  lemma PlansOnward(s: Sys, a: Id, previous: Option<u64>, t: u64, owner: LocalId, was: Bytes, body: Bytes, clock: u64)
    returns (s': Sys)
    requires Reachable(s) && !a.flag && a.tenant == 1 && Get(s.store, a) == Some(Live(previous, t, owner, was))
    requires s.last < clock < MAX64 && t < clock
    requires forall b :: InCollection(s, 1, Some(owner), b) ==> b == a
    ensures Reachable(s') && s'.store == s.store && s'.last == clock && Unsaturated(s', Commit(0))
    ensures Take(NOTES, s', Commit(0)).last == clock
    ensures Take(NOTES, s', Commit(0)).store
            == s.store[Id(t, 1, true, 0) := Superseded(Live(previous, t, owner, was), clock)]
               [a := Live(Some(t), clock, owner, body)]
  {
    OneRecordFloor(s, a);
    Saves(s, a, previous, t, owner, was, body, clock);
    Onward(s, Saving(a, t, body, clock));
    s' := Take(NOTES, s, Saving(a, t, body, clock));
  }

  lemma SavesOnward(s: Sys, a: Id, previous: Option<u64>, t: u64, owner: LocalId, was: Bytes, body: Bytes, clock: u64)
    returns (s': Sys)
    requires Reachable(s) && !a.flag && a.tenant == 1 && Get(s.store, a) == Some(Live(previous, t, owner, was))
    requires s.last < clock < MAX64 && t < clock
    requires forall b :: InCollection(s, 1, Some(owner), b) ==> b == a
    ensures Reachable(s') && s'.last == clock
    ensures s'.store == s.store[Id(t, 1, true, 0) := Superseded(Live(previous, t, owner, was), clock)]
                        [a := Live(Some(t), clock, owner, body)]
  {
    var s1 := PlansOnward(s, a, previous, t, owner, was, body, clock);
    Onward(s1, Commit(0));
    s' := Take(NOTES, s1, Commit(0));
  }

  // ---- A clock that has fallen behind ----------------------------------------------------

  /** An insert into one collection replaces a record of another, minted at the same instant. */
  lemma RewoundInsertReplacesARecord()
    ensures exists s: Sys, step: Step, a: Id ::
              && Reachable(s) && step.Insert? && ReadsFloor(s, step) && Unsaturated(s, step)
              && !a.flag && a in s.store && Get(Take(NOTES, s, step).store, a) != Get(s.store, a)
  {
    Starts();
    var s := AddsOnward(Start, HERE, [1], 5);
    s := RestartsOnward(s);
    var step := Adding(THERE, [2], 5);
    Adds(s, THERE, [2], 5);
    var a := Id(5, 1, false, 0);
    assert ReadsFloor(s, step) && a in s.store && Get(Take(NOTES, s, step).store, a) != Get(s.store, a);
  }

  /** Two collections after a restart at a clock that fell back from 20 to 3: a record of the first with one archive,
      and a record of the second whose live version has that archive's instant. */
  lemma SharedInstant() returns (s: Sys)
    ensures Reachable(s) && s.last == 5
    ensures s.store == map[Id(5, 1, false, 0) := Live(Some(5), 20, HERE, [2]),
                           Id(5, 1, true, 0) := Superseded(Live(None, 5, HERE, [1]), 20),
                           Id(3, 1, true, 0) := Superseded(Live(None, 3, THERE, [3]), 5),
                           Id(3, 1, false, 0) := Live(Some(3), 5, THERE, [4])]
  {
    Starts();
    s := AddsOnward(Start, HERE, [1], 5);
    s := SavesOnward(s, Id(5, 1, false, 0), None, 5, HERE, [1], [2], 20);
    s := RestartsOnward(s);
    s := AddsOnward(s, THERE, [3], 3);
    s := SavesOnward(s, Id(3, 1, false, 0), None, 3, THERE, [3], [4], 5);
  }

  /** A save in one collection overwrites the archive of a record of another. */
  lemma RewoundSaveOverwritesAnArchive()
    ensures exists s: Sys, step: Step, id: Id ::
              && Reachable(s) && step.Commit? && Unsaturated(s, step)
              && id.flag && id in s.store && Get(Take(NOTES, s, step).store, id) != Get(s.store, id)
  {
    var s := SharedInstant();
    s := PlansOnward(s, Id(3, 1, false, 0), Some(3), 5, THERE, [4], [5], 30);
    var id := Id(5, 1, true, 0);
    assert id in s.store && Get(Take(NOTES, s, Commit(0)).store, id) != Get(s.store, id);
  }

  // ---- Addresses that are not anchors ----------------------------------------------------

  /** A removal that names an archive rewrites it, in one process and whatever the clock. */
  lemma RemovalRewritesAnArchive()
    ensures exists s: Sys, step: Step, id: Id ::
              && Reachable(s) && step.Retire? && ReadsFloor(s, step) && Unsaturated(s, step)
              && id.flag && id in s.store && Get(Take(NOTES, s, step).store, id) != Get(s.store, id)
  {
    Starts();
    var s := AddsOnward(Start, HERE, [1], 10);
    var a, id := Id(10, 1, false, 0), Id(10, 1, true, 0);
    s := SavesOnward(s, a, None, 10, HERE, [1], [2], 20);
    OneRecordFloor(s, a);
    var step := Retire(id, 20, 30);
    assert s.store[id].meta.pivot == Some(HERE) && !s.store[id].meta.removed;
    assert ReadsFloor(s, step) && id in s.store && Get(Take(NOTES, s, step).store, id) != Get(s.store, id);
  }

  /** The first version of a record saved at an id nobody inserted, with an archive's flag. */
  lemma Strayed() returns (s: Sys)
    ensures Reachable(s) && s.last == 5 && s.store == map[Id(7, 1, true, 0) := Live(None, 5, HERE, [1])]
  {
    var step := Plan(0, Id(7, 1, true, 0), 1, Some(HERE), 0, false, [1], 5);
    Starts();
    Onward(Start, step);
    var s1 := Take(NOTES, Start, step);
    var p := Planning(NOTES, Start, step).value;
    assert p.next == Live(None, 5, HERE, [1]) && s1.pending[0] == p;
    CommitEffect(NOTES, s1, p);
    Onward(s1, Commit(0));
    s := Take(NOTES, s1, Commit(0));
  }

  /** A record saved there is lost to the first archive of that instant. */
  lemma StraySaveIsOverwritten()
    ensures exists s: Sys, step: Step, id: Id ::
              && Reachable(s) && step.Commit? && Unsaturated(s, step)
              && id.flag && id in s.store && s.store[id].meta.succession.CreatedAt?
              && Get(Take(NOTES, s, step).store, id) != Get(s.store, id)
  {
    var s := Strayed();
    s := AddsOnward(s, HERE, [2], 7);
    s := PlansOnward(s, Id(7, 1, false, 0), None, 7, HERE, [2], [3], 20);
    var id := Id(7, 1, true, 0);
    assert id in s.store && Get(Take(NOTES, s, Commit(0)).store, id) != Get(s.store, id);
  }
}
