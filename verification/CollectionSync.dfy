/** Catch-up of a collection by navigation: no log is replayed, and every client converges. */
module CollectionSync {
  import opened Ids
  import opened Minting
  import opened Stores
  import opened Records
  import opened Keys
  import opened Collections
  import opened CollectionAgreement
  import opened CollectionRuns
  import US = UniqueSync

  /** One entry of the merged timeline. */
  datatype Event = Event(instant: u64, change: US.Change)

  /** What a stamp tells a client: a save, if recency holds it, and otherwise a removal. */
  ghost function EventOf(sc: Schema, s: State, st: Stamp): Event {
    var id := ToId(st.rec, sc.tenant);
    if st in s.recency && id in s.store then Event(st.instant, US.Saved(id, s.store[id].meta, s.store[id].body))
    else Event(st.instant, US.Removed(id, st.instant))
  }

  function StampOf(ev: Event): Stamp {
    Stamp(ev.instant, FromId(ev.change.id))
  }

  /** `es` is what a node in state `s` answers a client at cursor `c`: everything recorded above it, once, in order. */
  ghost predicate Timeline(sc: Schema, s: State, c: u64, es: seq<Event>) {
    && (forall i, j :: 0 <= i < j < |es| ==> es[i].instant < es[j].instant)
    && (forall i :: 0 <= i < |es| ==> Recorded(s, StampOf(es[i])) && es[i].instant > c && es[i] == EventOf(sc, s, StampOf(es[i])))
    && (forall st :: Recorded(s, st) && st.instant > c ==> EventOf(sc, s, st) in es)
  }

  /** The cursor the answer carries. */
  function NewCursor(c: u64, es: seq<Event>): u64 {
    if es == [] then c else Max(es[|es| - 1].instant, c)
  }

  // ---- A client that keeps the living map ----------------------------------------------------------------

  function ApplyChange(hash: u64, m: Contents<Envelope>, change: US.Change): Contents<Envelope> {
    match change
    case Saved(id, meta, body) => m[id := Envelope(hash, meta, body)]
    case Removed(id, _) => m - {id}
  }

  function Applied(hash: u64, m: Contents<Envelope>, es: seq<Event>): Contents<Envelope> {
    if es == [] then m else ApplyChange(hash, Applied(hash, m, es[..|es| - 1]), es[|es| - 1].change)
  }

  function Carried(hash: u64, change: US.Change): Option<Envelope> {
    if change.Saved? then Some(Envelope(hash, change.meta, change.body)) else None
  }

  ghost predicate Concerns(es: seq<Event>, p: nat, x: Id)
    requires p < |es|
  {
    es[p].change.id == x && forall q :: p < q < |es| ==> es[q].change.id != x
  }

  /** The last event about a record decides it; a record no event is about keeps its value. */
  lemma {:induction false} LastEventDecides(hash: u64, m: Contents<Envelope>, es: seq<Event>, x: Id) returns (p: Option<nat>)
    ensures p.Some? ==> p.value < |es| && Concerns(es, p.value, x)
                        && Get(Applied(hash, m, es), x) == Carried(hash, es[p.value].change)
    ensures p.None? ==> (forall q :: 0 <= q < |es| ==> es[q].change.id != x) && Get(Applied(hash, m, es), x) == Get(m, x)
  {
    if es == [] { return None; }
    var n := |es| - 1;
    if es[n].change.id == x { return Some(n); }
    p := LastEventDecides(hash, m, es[..n], x);
    if p.Some? {
      assert es[..n][p.value] == es[p.value];
      forall q | p.value < q < |es| ensures es[q].change.id != x {
        if q < n { assert es[..n][q] == es[q]; }
      }
    } else {
      forall q | 0 <= q < |es| ensures es[q].change.id != x {
        if q < n { assert es[..n][q] == es[q]; }
      }
    }
  }

  ghost predicate SameLiving(m: Contents<Envelope>, store: Contents<Envelope>) {
    forall x :: Get(m, x) == Lives(store, x)
  }

  // ---- Convergence ----------------------------------------------------------------------------------------

  /** Between two points of a run, a record either lives as it did or the later state records it above the earlier
      floor. */
  lemma {:induction false} StillOrRecorded(sc: Schema, tr: seq<Node>, ops: seq<Op>, floors: seq<u64>, i: nat, j: nat, x: Id)
    returns (st: Stamp)
    requires Behaviour(sc, tr, ops, floors) && i <= j < |tr|
    ensures || Lives(tr[j].state.store, x) == Lives(tr[i].state.store, x)
            || (Recorded(tr[j].state, st) && st.instant > floors[i] && ToId(st.rec, sc.tenant) == x)
    decreases j
  {
    st := Stamp(0, FromId(x));
    if i < j {
      var mv := RunMoves(sc, tr, ops, floors, j - 1);
      FloorsRise(sc, tr, ops, floors, i, j - 1);
      if mv.Moved? && mv.id == x {
        st := Stamp(mv.instant, FromId(x));
      } else {
        st := StillOrRecorded(sc, tr, ops, floors, i, j - 1, x);
        StaysRecorded(sc, tr[j - 1].state, tr[j].state, floors[j - 1], mv, st, x);
      }
    }
  }

  lemma StaysRecorded(sc: Schema, s: State, s': State, floor: u64, mv: Move, st: Stamp, x: Id)
    requires Moves(sc, s, s', floor, mv) && (mv.Still? || mv.id != x)
    ensures Lives(s'.store, x) == Lives(s.store, x)
    ensures Recorded(s, st) && ToId(st.rec, sc.tenant) == x ==> Recorded(s', st)
  {
  }

  /** One record of the convergence theorem. */
  lemma ConvergesAt(sc: Schema, s: State, c: u64, m: Contents<Envelope>, es: seq<Event>, x: Id, st: Stamp, was: Option<Envelope>)
    requires ChainsAgree(sc, s) && TimelineOk(s) && Timeline(sc, s, c, es) && Get(m, x) == was
    requires Lives(s.store, x) == was || (Recorded(s, st) && st.instant > c && ToId(st.rec, sc.tenant) == x)
    ensures Get(Applied(sc.hash, m, es), x) == Lives(s.store, x)
  {
    var p := LastEventDecides(sc.hash, m, es, x);
    RecordedIsAnswered(sc, s, c, es, st);
    if p.Some? {
      var ev := es[p.value];
      var at := StampOf(ev);
      assert at.rec == FromId(x) && ToId(at.rec, sc.tenant) == x && At(sc, s.store, at.rec) == Lives(s.store, x);
      if ev.change.Removed? {
        LiveIsAnswered(sc, s, c, es, x);
        RemovalPrecedesLife(sc, s, at, x);
      }
    }
  }

  /** Whatever is recorded above the cursor is in the answer. */
  lemma RecordedIsAnswered(sc: Schema, s: State, c: u64, es: seq<Event>, st: Stamp)
    requires Timeline(sc, s, c, es)
    ensures Recorded(s, st) && st.instant > c ==>
              exists q :: 0 <= q < |es| && es[q].instant == st.instant && es[q].change.id == ToId(st.rec, sc.tenant)
  {
  }

  lemma LiveIsAnswered(sc: Schema, s: State, c: u64, es: seq<Event>, x: Id)
    requires ChainsAgree(sc, s) && Timeline(sc, s, c, es)
    ensures Lives(s.store, x).Some? && T(Lives(s.store, x).value) > c ==>
              exists q :: 0 <= q < |es| && es[q].instant == T(Lives(s.store, x).value) && es[q].change.id == x
  {
    if Lives(s.store, x).Some? {
      var live := Stamp(T(s.store[x]), FromId(x));
      assert ToId(live.rec, sc.tenant) == x && At(sc, s.store, live.rec) == Lives(s.store, x);
      RecordedIsAnswered(sc, s, c, es, live);
    }
  }

  lemma RemovalPrecedesLife(sc: Schema, s: State, at: Stamp, x: Id)
    requires ChainsAgree(sc, s) && TimelineOk(s) && ToId(at.rec, sc.tenant) == x
    requires Recorded(s, at) && EventOf(sc, s, at).change.Removed?
    ensures Lives(s.store, x).Some? ==> at.instant < T(Lives(s.store, x).value)
  {
    if Lives(s.store, x).Some? {
      RemovedIsLogged(sc, s, at, x);
      var live := Stamp(T(s.store[x]), at.rec);
      assert At(sc, s.store, live.rec) == Lives(s.store, x);
      assert live in s.recency;
    }
  }

  lemma RemovedIsLogged(sc: Schema, s: State, at: Stamp, x: Id)
    requires Recorded(s, at) && EventOf(sc, s, at).change.Removed? && ToId(at.rec, sc.tenant) == x && x in s.store
    ensures at in s.removals
  {
  }

  /** The returned cursor is the node's current instant floor. */
  lemma CursorIsFloor(sc: Schema, s: State, c: u64, es: seq<Event>, floor: u64)
    requires Timeline(sc, s, c, es) && IsFloor(s, floor) && c <= floor
    ensures NewCursor(c, es) == floor
  {
  }

  /** A client whose living map is the node's at any point no older than its cursor, applying the answer in order after
      any further run, ends with exactly the node's living map and the node's current floor as its cursor. */
  lemma CatchUpConverges(sc: Schema, tr: seq<Node>, ops: seq<Op>, floors: seq<u64>, i: nat, j: nat, c: u64,
                         m: Contents<Envelope>, es: seq<Event>)
    requires Behaviour(sc, tr, ops, floors) && i <= j < |tr| && c <= floors[i]
    requires SameLiving(m, tr[i].state.store) && Timeline(sc, tr[j].state, c, es)
    ensures SameLiving(Applied(sc.hash, m, es), tr[j].state.store)
    ensures NewCursor(c, es) == floors[j]
  {
    RunKeeps(sc, tr, ops, floors, j);
    FloorsRise(sc, tr, ops, floors, i, j);
    assert FloorAt(tr, floors, j);
    CursorIsFloor(sc, tr[j].state, c, es, floors[j]);
    forall x ensures Get(Applied(sc.hash, m, es), x) == Lives(tr[j].state.store, x) {
      var st := StillOrRecorded(sc, tr, ops, floors, i, j, x);
      ConvergesAt(sc, tr[j].state, c, m, es, x, st, Lives(tr[i].state.store, x));
    }
  }

  /** One exchange: the node's answer at cursor `c` takes the client from `m` to `m'`. */
  ghost predicate Answered(sc: Schema, s: State, c: u64, m: Contents<Envelope>, m': Contents<Envelope>, c': u64) {
    exists es: seq<Event> :: Timeline(sc, s, c, es) && m' == Applied(sc.hash, m, es) && c' == NewCursor(c, es)
  }

  lemma AnswerConverges(sc: Schema, tr: seq<Node>, ops: seq<Op>, floors: seq<u64>, i: nat, j: nat, c: u64,
                        m: Contents<Envelope>, m': Contents<Envelope>, c': u64)
    requires Behaviour(sc, tr, ops, floors) && i <= j < |tr| && c <= floors[i]
    requires SameLiving(m, tr[i].state.store) && Answered(sc, tr[j].state, c, m, m', c')
    ensures SameLiving(m', tr[j].state.store) && c' == floors[j]
  {
    var es: seq<Event> :| Timeline(sc, tr[j].state, c, es) && m' == Applied(sc.hash, m, es) && c' == NewCursor(c, es);
    CatchUpConverges(sc, tr, ops, floors, i, j, c, m, es);
  }

  /** A series of catch-ups at points `at` of a run; `from[x]` says which earlier answer's cursor the client used. */
  ghost predicate CatchingUp(sc: Schema, tr: seq<Node>, at: seq<nat>, from: seq<nat>, cursors: seq<u64>,
                             maps: seq<Contents<Envelope>>) {
    && |at| == |from| == |cursors| == |maps| > 0
    && at[0] == 0 && cursors[0] == 0 && maps[0] == map[]
    && (forall y :: 0 <= y < |at| ==> at[y] < |tr|)
    && (forall y, z :: 0 <= y <= z < |at| ==> at[y] <= at[z])
    && (forall y: nat :: 0 < y < |at| ==> Exchange(sc, tr, at, from, cursors, maps, y))
  }

  ghost predicate Exchange(sc: Schema, tr: seq<Node>, at: seq<nat>, from: seq<nat>, cursors: seq<u64>,
                           maps: seq<Contents<Envelope>>, x: nat)
    requires 0 < x < |at| == |from| == |cursors| == |maps| && at[x] < |tr|
  {
    from[x] < x && Answered(sc, tr[at[x]].state, cursors[from[x]], maps[x - 1], maps[x], cursors[x])
  }

  /** A client starts empty at the zero cursor and catches up again and again, each time from any cursor it was ever
      given. After every catch-up it holds the node's living map. */
  lemma {:induction false} RepeatedCatchUps(sc: Schema, tr: seq<Node>, ops: seq<Op>, floors: seq<u64>, at: seq<nat>,
                                            from: seq<nat>, cursors: seq<u64>, maps: seq<Contents<Envelope>>, x: nat)
    requires Behaviour(sc, tr, ops, floors) && CatchingUp(sc, tr, at, from, cursors, maps) && x < |at|
    ensures SameLiving(maps[x], tr[at[x]].state.store) && cursors[x] == floors[at[x]]
  {
    if x == 0 {
      assert FloorAt(tr, floors, 0);
    } else {
      var y := from[x];
      assert Exchange(sc, tr, at, from, cursors, maps, x);
      RepeatedCatchUps(sc, tr, ops, floors, at, from, cursors, maps, x - 1);
      RepeatedCatchUps(sc, tr, ops, floors, at, from, cursors, maps, y);
      FloorsRise(sc, tr, ops, floors, at[y], at[x - 1]);
      AnswerConverges(sc, tr, ops, floors, at[x - 1], at[x], cursors[y], maps[x - 1], maps[x], cursors[x]);
    }
  }

  // ---- A client that is itself a collection ---------------------------------------------------------------

  /** How a mirror takes one change in: `adopt_with` for a version, `remove` for a removal. The mirror's own floor, clock
      and watermark are whatever they are. */
  function MirrorApply(sc: Schema, ms: State, change: US.Change, env: (u64, u64, u64)): Result<State> {
    match change
    case Saved(id, meta, body) => AdoptWith(sc, ms, id, meta, body, env.0, env.1, env.2).result
    case Removed(id, _) => Withdraw(sc, ms, id, env.0, env.1, env.2).result
  }

  function MirrorReplay(sc: Schema, ms: State, es: seq<Event>, envs: seq<(u64, u64, u64)>): Result<State>
    requires |envs| == |es|
  {
    if es == [] then Ok(ms)
    else
      var n := |es| - 1;
      match MirrorReplay(sc, ms, es[..n], envs[..n])
      case Err(x) => Err(x)
      case Ok(ms') => MirrorApply(sc, ms', es[n].change, envs[n])
  }

  /** A change a node of this schema can ship. */
  ghost predicate Shippable(sc: Schema, change: US.Change) {
    && change.id.tenant == sc.tenant
    && (change.Saved? ==> !change.id.flag && change.meta.succession.CreatedAt? && !change.meta.removed
                          && KeyFits(sc, change.id, change.body))
  }

  lemma MirrorSaves(sc: Schema, ms: State, change: US.Change, env: (u64, u64, u64), m: Contents<Envelope>)
    requires ChainsAgree(sc, ms) && TreesAgree(sc, ms) && Shippable(sc, change) && SameLiving(m, ms.store) && change.Saved?
    ensures var r := MirrorApply(sc, ms, change, env);
            r.Ok? && ChainsAgree(sc, r.value) && TreesAgree(sc, r.value)
            && SameLiving(ApplyChange(sc.hash, m, change), r.value.store)
  {
    var id, meta, body := change.id, change.meta, change.body;
    var r := MirrorApply(sc, ms, change, env);
    if id !in ms.store {
      FirstVersion(sc, ms, id, meta, body);
    } else if Lives(ms.store, id).None? {
      Revive(sc, ms, id, body, Some(meta), env.0, env.1, env.2);
    } else if ms.store[id].meta != meta || ms.store[id].body != body {
      SaveLiving(sc, ms, id, body, Some(meta), env.0, env.1, env.2);
    }
    if r.value != ms {
      ChainsKept(sc, ms, r.value, id);
      TreesKept(sc, ms, r.value, id);
    }
    assert Lives(r.value.store, id) == Some(Envelope(sc.hash, meta, body));
    LivingUpdated(m, ms.store, r.value.store, id, ApplyChange(sc.hash, m, change));
  }

  lemma LivingUpdated(m: Contents<Envelope>, store: Contents<Envelope>, store': Contents<Envelope>, id: Id,
                      m': Contents<Envelope>)
    requires SameLiving(m, store) && (store == store' || SameElsewhere(store, store', id)) && Get(m', id) == Lives(store', id)
    requires m' - {id} == m - {id}
    ensures SameLiving(m', store')
  {
    forall x ensures Get(m', x) == Lives(store', x) {
      assert Get(m, x) == Lives(store, x);
      if x != id { assert Get(m' - {id}, x) == Get(m', x) && Get(m - {id}, x) == Get(m, x); }
    }
  }

  lemma MirrorFollows(sc: Schema, ms: State, change: US.Change, env: (u64, u64, u64), m: Contents<Envelope>)
    requires ChainsAgree(sc, ms) && TreesAgree(sc, ms) && Shippable(sc, change) && SameLiving(m, ms.store)
    ensures var r := MirrorApply(sc, ms, change, env);
            r.Ok? && ChainsAgree(sc, r.value) && TreesAgree(sc, r.value)
            && SameLiving(ApplyChange(sc.hash, m, change), r.value.store)
  {
    if change.Saved? {
      MirrorSaves(sc, ms, change, env, m);
    } else {
      var r, id := MirrorApply(sc, ms, change, env), change.id;
      if ReadsLive(ms.store, id) {
        RemoveLive(sc, ms, id, env.0, env.1, env.2);
        ChainsKept(sc, ms, r.value, id);
        TreesKept(sc, ms, r.value, id);
      }
      LivingUpdated(m, ms.store, r.value.store, id, ApplyChange(sc.hash, m, change));
    }
  }

  /** A mirror replaying any shippable events stays a consistent collection holding what the map client holds. */
  lemma {:induction false} MirrorTracksMap(sc: Schema, ms: State, es: seq<Event>, envs: seq<(u64, u64, u64)>,
                                           m: Contents<Envelope>)
    requires ChainsAgree(sc, ms) && TreesAgree(sc, ms) && SameLiving(m, ms.store) && |envs| == |es|
    requires forall i :: 0 <= i < |es| ==> Shippable(sc, es[i].change)
    ensures var r := MirrorReplay(sc, ms, es, envs);
            r.Ok? && ChainsAgree(sc, r.value) && TreesAgree(sc, r.value)
            && SameLiving(Applied(sc.hash, m, es), r.value.store)
  {
    if es != [] {
      var n := |es| - 1;
      MirrorTracksMap(sc, ms, es[..n], envs[..n], m);
      MirrorFollows(sc, MirrorReplay(sc, ms, es[..n], envs[..n]).value, es[n].change, envs[n], Applied(sc.hash, m, es[..n]));
    }
  }

  /** Under a natural key, a record lives at the anchor its body names. */
  ghost predicate KeysFit(sc: Schema, store: Contents<Envelope>) {
    forall id :: Lives(store, id).Some? ==> KeyFits(sc, id, store[id].body)
  }

  lemma SavedKeepsKeys(sc: Schema, store: Contents<Envelope>, id: Id, body: Bytes, floor: u64, revives: bool, clock: u64,
                       last: u64)
    requires KeysFit(sc, store) && KeyFits(sc, id, body)
    requires PlanChainedSave(store, Plan(sc, id, None, floor, revives), body, clock, last).Ok?
    ensures var r := Apply(store, PlanChainedSave(store, Plan(sc, id, None, floor, revives), body, clock, last).value.writes);
            r.Ok? && KeysFit(sc, r.value)
  {
    PlanCommits(store, Plan(sc, id, None, floor, revives), body, clock, last);
  }

  lemma StepKeepsKeys(sc: Schema, n: Node, op: Op, floor: u64)
    requires KeysFit(sc, n.state.store)
    ensures KeysFit(sc, Take(sc, n, op, floor).state.store)
  {
    var store := n.state.store;
    if op.Inserting? && sc.keyed {
      var id := KeyedAnchor(sc, op.body).value;
      var revives := !ReadsLive(store, id);
      if PlanChainedSave(store, Plan(sc, id, None, floor, revives), op.body, op.clock, n.last).Ok? {
        SavedKeepsKeys(sc, store, id, op.body, floor, revives, op.clock, n.last);
      }
    } else if op.Saving? && KeyFits(sc, op.id, op.body) {
      if PlanChainedSave(store, Plan(sc, op.id, None, floor, false), op.body, op.clock, n.last).Ok? {
        SavedKeepsKeys(sc, store, op.id, op.body, floor, false, op.clock, n.last);
      }
    }
  }

  lemma {:induction false} RunKeepsKeys(sc: Schema, tr: seq<Node>, ops: seq<Op>, floors: seq<u64>, i: nat)
    requires Behaviour(sc, tr, ops, floors) && i < |tr|
    ensures KeysFit(sc, tr[i].state.store)
  {
    if i > 0 {
      RunKeepsKeys(sc, tr, ops, floors, i - 1);
      RunKeeps(sc, tr, ops, floors, i - 1);
      assert Steps(sc, tr, ops, floors, i - 1);
      StepKeepsKeys(sc, tr[i - 1], ops[i - 1], floors[i - 1]);
    }
  }

  lemma TimelineShips(sc: Schema, s: State, c: u64, es: seq<Event>, i: nat)
    requires ChainsAgree(sc, s) && KeysFit(sc, s.store) && Timeline(sc, s, c, es) && i < |es|
    ensures Shippable(sc, es[i].change)
  {
  }

  /** A mirror collection converges like the map client does, and every structure it derives agrees with it. */
  lemma MirrorConverges(sc: Schema, tr: seq<Node>, ops: seq<Op>, floors: seq<u64>, i: nat, j: nat, c: u64, ms: State,
                        es: seq<Event>, envs: seq<(u64, u64, u64)>)
    requires Behaviour(sc, tr, ops, floors) && i <= j < |tr| && c <= floors[i] && |envs| == |es|
    requires ChainsAgree(sc, ms) && TreesAgree(sc, ms)
    requires forall x :: Lives(ms.store, x) == Lives(tr[i].state.store, x)
    requires Timeline(sc, tr[j].state, c, es)
    ensures var r := MirrorReplay(sc, ms, es, envs);
            r.Ok? && ChainsAgree(sc, r.value) && TreesAgree(sc, r.value)
            && forall x :: Lives(r.value.store, x) == Lives(tr[j].state.store, x)
  {
    var m := map x | x in ms.store && Lives(ms.store, x).Some? :: ms.store[x];
    RunKeeps(sc, tr, ops, floors, j);
    RunKeepsKeys(sc, tr, ops, floors, j);
    forall e | 0 <= e < |es| ensures Shippable(sc, es[e].change) {
      TimelineShips(sc, tr[j].state, c, es, e);
    }
    MirrorTracksMap(sc, ms, es, envs, m);
    CatchUpConverges(sc, tr, ops, floors, i, j, c, m, es);
    var r := MirrorReplay(sc, ms, es, envs);
    forall x ensures Lives(r.value.store, x) == Lives(tr[j].state.store, x) {
      assert Get(Applied(sc.hash, m, es), x) == Lives(r.value.store, x);
    }
  }
}
