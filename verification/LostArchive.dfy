/** A run of one collection that loses an archive, every operation reading the collection's floor: a save to a removed
    record mints an instant nothing records, and after a restart an insert mints it again. */
module LostArchive {
  import opened Ids
  import opened Minting
  import opened Stores
  import opened Records
  import opened Keys
  import opened Collections

  const PLAIN := Schema(7, 1, LocalId(1, false, 1), 1, false, 0, _ => 0, (b, _) => b, (b, _) => b, (_, _) => [])

  ghost predicate Ends(tr: seq<Node>, ops: seq<Op>, floors: seq<u64>, n: Node, floor: u64) {
    Behaviour(PLAIN, tr, ops, floors) && tr[|ops|] == n && floors[|ops|] == floor
  }

  /** A node of some run of the collection, and its floor. */
  ghost predicate Reached(n: Node, floor: u64) {
    exists tr, ops, floors :: Ends(tr, ops, floors, n, floor)
  }

  lemma Starts()
    ensures Reached(Node(Empty(0, 0, 0), 0), 0)
  {
    var n := Node(Empty(0, 0, 0), 0);
    assert [n][0] == Node(Empty(0, PLAIN.secondaries, 0), 0);
    assert FloorAt([n], [0], 0);
    assert Ends([n], [], [0], n, 0);
  }

  lemma StepsOnward(tr: seq<Node>, ops: seq<Op>, floors: seq<u64>, op: Op, n': Node, floor': u64)
    requires Behaviour(PLAIN, tr, ops, floors)
    requires var n, floor := tr[|ops|], floors[|ops|];
             n' == Take(PLAIN, n, op, floor) && Unsaturated(n, floor) && (op.Saving? ==> op.id in n.state.store)
    ensures forall i: nat :: i <= |ops| ==> Steps(PLAIN, tr + [n'], ops + [op], floors + [floor'], i)
  {
    forall i: nat | i <= |ops| ensures Steps(PLAIN, tr + [n'], ops + [op], floors + [floor'], i) {
      if i < |ops| { assert Steps(PLAIN, tr, ops, floors, i); }
    }
  }

  lemma FloorsOnward(tr: seq<Node>, floors: seq<u64>, n': Node, floor': u64)
    requires |tr| == |floors| && (forall i: nat :: i < |tr| ==> FloorAt(tr, floors, i)) && IsFloor(n'.state, floor')
    ensures forall i: nat :: i <= |tr| ==> FloorAt(tr + [n'], floors + [floor'], i)
  {
    forall i: nat | i <= |tr| ensures FloorAt(tr + [n'], floors + [floor'], i) {
      if i < |tr| { assert FloorAt(tr, floors, i); }
    }
  }

  lemma Onward(n: Node, floor: u64, op: Op, n': Node, floor': u64)
    requires Reached(n, floor) && Unsaturated(n, floor) && (op.Saving? ==> op.id in n.state.store)
    requires n' == Take(PLAIN, n, op, floor) && IsFloor(n'.state, floor')
    ensures Reached(n', floor')
  {
    var tr, ops, floors :| Ends(tr, ops, floors, n, floor);
    StepsOnward(tr, ops, floors, op, n', floor');
    FloorsOnward(tr, floors, n', floor');
    var lists, fuzzy :| tr[0] == Node(Empty(lists, PLAIN.secondaries, fuzzy), 0);
    assert (tr + [n'])[0] == Node(Empty(lists, PLAIN.secondaries, fuzzy), 0);
    assert Ends(tr + [n'], ops + [op], floors + [floor'], n', floor');
  }

  function Bare(store: Contents<Envelope>, recency: set<Stamp>, removals: set<Stamp>): State {
    State(store, recency, removals, [], [], [])
  }

  function Version(previous: Option<u64>, t: u64, removed: bool, body: Bytes): Envelope {
    Envelope(7, Metadata(previous, CreatedAt(t), removed, Some(PLAIN.pivot), 1, 0, None), body)
  }

  function Anchor(t: u64): Id {
    Id(t, 1, false, 7)
  }

  lemma Inserts(s: State, last: u64, floor: u64, body: Bytes, clock: u64)
    requires s == Bare(s.store, s.recency, s.removals) && last < clock && floor < clock
    ensures Take(PLAIN, Node(s, last), Inserting(body, clock), floor)
            == Node(Bare(s.store[Anchor(clock) := Version(None, clock, false, body)],
                         s.recency + {Stamp(clock, FromId(Anchor(clock)))}, s.removals), clock)
  {
  }

  lemma Removes(s: State, last: u64, floor: u64, a: Id, e: Envelope, clock: u64)
    requires s == Bare(s.store, s.recency, s.removals) && last < clock && floor < clock
    requires Get(s.store, a) == Some(e) && e.hash == 7 && !e.meta.removed && e.meta.succession.CreatedAt?
    ensures Take(PLAIN, Node(s, last), Removing(a, clock), floor)
            == Node(Bare(s.store[a := e.(meta := e.meta.(removed := true))], s.recency - {Stamp(T(e), FromId(a))},
                         s.removals + {Stamp(clock, FromId(a))}), clock)
  {
  }

  lemma Resaves(s: State, last: u64, floor: u64, a: Id, previous: Option<u64>, t: u64, removed: bool, was: Bytes,
                body: Bytes, clock: u64)
    requires s == Bare(s.store, s.recency, s.removals) && last < clock && floor < clock && t < clock
    requires Get(s.store, a) == Some(Version(previous, t, removed, was)) && !a.flag
    ensures var st := Stamp(t, FromId(a));
            Take(PLAIN, Node(s, last), Saving(a, body, clock), floor)
            == Node(Bare(s.store[Id(t, 1, true, 7) := Superseded(Version(previous, t, removed, was), clock)]
                         [a := Version(Some(t), clock, removed, body)],
                         if st in s.recency then s.recency - {st} + {Stamp(clock, FromId(a))} else s.recency,
                         s.removals), clock)
  {
    PlanCommits(s.store, Plan(PLAIN, a, None, floor, false), body, clock, last);
  }

  /** A state without indexes, whose instants leave room for one more mint. */
  ghost predicate Ready(n: Node, floor: u64) {
    && Reached(n, floor) && IsFloor(n.state, floor) && Unsaturated(n, floor)
    && n.state == Bare(n.state.store, n.state.recency, n.state.removals)
  }

  lemma InsertsOnward(n: Node, floor: u64, body: Bytes, clock: u64) returns (n': Node)
    requires Ready(n, floor) && n.last < clock < MAX64 && floor < clock
    ensures Ready(n', clock) && n'.last == clock && n'.state.removals == n.state.removals
    ensures n'.state.store == n.state.store[Anchor(clock) := Version(None, clock, false, body)]
    ensures n'.state.recency == n.state.recency + {Stamp(clock, FromId(Anchor(clock)))}
  {
    Inserts(n.state, n.last, floor, body, clock);
    n' := Take(PLAIN, n, Inserting(body, clock), floor);
    assert Stamp(clock, FromId(Anchor(clock))) in n'.state.recency + n'.state.removals;
    Onward(n, floor, Inserting(body, clock), n', clock);
  }

  lemma RemovesOnward(n: Node, floor: u64, a: Id, t: u64, body: Bytes, clock: u64) returns (n': Node)
    requires Ready(n, floor) && n.last < clock < MAX64 && floor < clock && t < MAX64
    requires Get(n.state.store, a) == Some(Version(None, t, false, body))
    ensures Ready(n', clock) && n'.last == clock && n'.state.removals == n.state.removals + {Stamp(clock, FromId(a))}
    ensures n'.state.store == n.state.store[a := Version(None, t, true, body)]
    ensures n'.state.recency == n.state.recency - {Stamp(t, FromId(a))}
  {
    Removes(n.state, n.last, floor, a, Version(None, t, false, body), clock);
    n' := Take(PLAIN, n, Removing(a, clock), floor);
    assert Stamp(clock, FromId(a)) in n'.state.recency + n'.state.removals;
    Onward(n, floor, Removing(a, clock), n', clock);
  }

  lemma ResavesOnward(n: Node, floor: u64, a: Id, previous: Option<u64>, t: u64, removed: bool, was: Bytes, body: Bytes,
                      clock: u64) returns (n': Node)
    requires Ready(n, floor) && n.last < clock < MAX64 && floor < clock && t < clock && !a.flag
    requires Get(n.state.store, a) == Some(Version(previous, t, removed, was))
    ensures var living := Stamp(t, FromId(a)) in n.state.recency;
            && Ready(n', if living then clock else floor) && n'.last == clock && n'.state.removals == n.state.removals
            && (!living ==> n'.state.recency == n.state.recency)
    ensures n'.state.store == n.state.store[Id(t, 1, true, 7) := Superseded(Version(previous, t, removed, was), clock)]
                              [a := Version(Some(t), clock, removed, body)]
  {
    Resaves(n.state, n.last, floor, a, previous, t, removed, was, body, clock);
    n' := Take(PLAIN, n, Saving(a, body, clock), floor);
    if Stamp(t, FromId(a)) in n.state.recency {
      assert Stamp(clock, FromId(a)) in n'.state.recency + n'.state.removals;
      Onward(n, floor, Saving(a, body, clock), n', clock);
    } else {
      Onward(n, floor, Saving(a, body, clock), n', floor);
    }
  }

  lemma RestartsOnward(n: Node, floor: u64) returns (n': Node)
    requires Ready(n, floor)
    ensures Ready(n', floor) && n' == Node(n.state, 0)
  {
    n' := Take(PLAIN, n, Restarting, floor);
    Onward(n, floor, Restarting, n', floor);
  }

  /** Inserted at 10, removed at 20, saved at 30 while removed; then the process restarts, and the floor is still 20. */
  lemma SavedDead() returns (n: Node)
    ensures Ready(n, 20) && n.last == 0 && n.state.recency == {}
    ensures n.state.store == map[Anchor(10) := Version(Some(10), 30, true, [2]),
                                 Id(10, 1, true, 7) := Superseded(Version(None, 10, true, [1]), 30)]
  {
    Starts();
    n := InsertsOnward(Node(Empty(0, 0, 0), 0), 0, [1], 10);
    n := RemovesOnward(n, 10, Anchor(10), 10, [1], 20);
    n := ResavesOnward(n, 20, Anchor(10), None, 10, true, [1], [2], 30);
    n := RestartsOnward(n, 20);
  }

  /** Another record inserted at 30 and saved at 40. */
  lemma SharedInstant() returns (n: Node)
    ensures Ready(n, 40) && n.last == 40
    ensures n.state.store == map[Anchor(10) := Version(Some(10), 30, true, [2]),
                                 Id(10, 1, true, 7) := Superseded(Version(None, 10, true, [1]), 30),
                                 Id(30, 1, true, 7) := Superseded(Version(None, 30, false, [3]), 40),
                                 Anchor(30) := Version(Some(30), 40, false, [4])]
  {
    n := SavedDead();
    n := InsertsOnward(n, 20, [3], 30);
    n := ResavesOnward(n, 30, Anchor(30), None, 30, false, [3], [4], 40);
  }

  /** The next save of the removed record archives over the other's archive. */
  lemma DeadSaveOverwritesAnArchive()
    ensures exists n: Node, floor: u64, op: Op, id: Id ::
              && Reached(n, floor) && Unsaturated(n, floor) && op.Saving? && op.id in n.state.store
              && id.flag && id in n.state.store
              && Get(Take(PLAIN, n, op, floor).state.store, id) != Get(n.state.store, id)
  {
    var n := SharedInstant();
    Resaves(n.state, 40, 40, Anchor(10), Some(10), 30, true, [2], [5], 50);
    var op, id := Saving(Anchor(10), [5], 50), Id(30, 1, true, 7);
    assert id in n.state.store && Get(Take(PLAIN, n, op, 40).state.store, id) != Get(n.state.store, id);
  }
}
