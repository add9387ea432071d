/** A many-record collection: its anchors and every structure derived from them.

    Recency and removals are sets of stamps here, a declared list the sorted map its chain stands
    for, a secondary or fuzzy tree the set of its keys; `CollectionObjects` runs the same operations over real chains.
    One collection is modelled alone in its store. */
module Collections {
  import opened Ids
  import opened Minting
  import opened Stores
  import opened Records
  import opened Keys

  /** What the type declares: its natural key, its lists, its secondaries and its fuzzy indexes, all computed from the
      record's body. `secondaries` is how many secondaries there are. */
  datatype Schema = Schema(
    hash: u64,
    tenant: u48,
    pivot: LocalId,
    user: u48,
    keyed: bool,
    secondaries: nat,
    naturalKey: Bytes -> u64,
    listField: (Bytes, nat) -> Bytes,
    secField: (Bytes, nat) -> Bytes,
    fuzzyFields: (Bytes, nat) -> seq<Bytes>)

  /** A recency or removal-log entry. */
  datatype Stamp = Stamp(instant: u64, rec: LocalId)

  datatype State = State(
    store: Contents<Envelope>,
    recency: set<Stamp>,
    removals: set<Stamp>,
    lists: seq<map<SecKey, Envelope>>,
    secs: seq<set<SecKey>>,
    fuzzy: seq<set<SecKey>>)

  /** What an operation did, and the watermark it left: a failed operation may still have minted. */
  datatype Outcome = Outcome(result: Result<State>, last: u64)

  /** The living record at an anchor, if any. */
  function Lives(store: Contents<Envelope>, id: Id): Option<Envelope> {
    if id in store && !store[id].meta.removed && !id.flag then Some(store[id]) else None
  }

  /** `floor` bounds every stamp of the state, and some stamp attains it unless it is zero. */
  ghost predicate IsFloor(s: State, floor: u64) {
    && (forall st :: st in s.recency + s.removals ==> st.instant <= floor)
    && (floor > 0 ==> exists st :: st in s.recency + s.removals && st.instant == floor)
  }

  function ListKey(sc: Schema, body: Bytes, i: nat, rec: LocalId): SecKey {
    SecKey(sc.listField(body, i), rec)
  }

  function SecondaryKey(sc: Schema, body: Bytes, i: nat, rec: LocalId): SecKey {
    SecKey(sc.secField(body, i), rec)
  }

  function FuzzyKeys(sc: Schema, body: Bytes, i: nat, rec: LocalId): set<SecKey> {
    set f | f in sc.fuzzyFields(body, i) :: SecKey(f, rec)
  }

  // ---- One structure at a time --------------------------------------------------------------------

  function ListsInserted(sc: Schema, lists: seq<map<SecKey, Envelope>>, rec: LocalId, e: Envelope):
    seq<map<SecKey, Envelope>>
  {
    seq(|lists|, i requires 0 <= i < |lists| => lists[i][ListKey(sc, e.body, i, rec) := e])
  }

  function ListsMoved(sc: Schema, lists: seq<map<SecKey, Envelope>>, rec: LocalId, prior: Bytes, e: Envelope):
    seq<map<SecKey, Envelope>>
  {
    seq(|lists|, i requires 0 <= i < |lists| =>
      (lists[i] - {ListKey(sc, prior, i, rec)})[ListKey(sc, e.body, i, rec) := e])
  }

  function ListsRemoved(sc: Schema, lists: seq<map<SecKey, Envelope>>, rec: LocalId, body: Bytes):
    seq<map<SecKey, Envelope>>
  {
    seq(|lists|, i requires 0 <= i < |lists| => lists[i] - {ListKey(sc, body, i, rec)})
  }

  function SecsInserted(sc: Schema, secs: seq<set<SecKey>>, rec: LocalId, body: Bytes): seq<set<SecKey>> {
    seq(|secs|, i requires 0 <= i < |secs| => secs[i] + {SecondaryKey(sc, body, i, rec)})
  }

  /** A tree whose key for the record is the same before and after stays as it is. */
  function SecsMoved(sc: Schema, secs: seq<set<SecKey>>, rec: LocalId, prior: Bytes, body: Bytes): seq<set<SecKey>> {
    seq(|secs|, i requires 0 <= i < |secs| =>
      if SecondaryKey(sc, prior, i, rec) == SecondaryKey(sc, body, i, rec) then secs[i]
      else secs[i] - {SecondaryKey(sc, prior, i, rec)} + {SecondaryKey(sc, body, i, rec)})
  }

  function SecsRemoved(sc: Schema, secs: seq<set<SecKey>>, rec: LocalId, body: Bytes): seq<set<SecKey>> {
    seq(|secs|, i requires 0 <= i < |secs| => secs[i] - {SecondaryKey(sc, body, i, rec)})
  }

  function FuzzyInserted(sc: Schema, fuzzy: seq<set<SecKey>>, rec: LocalId, body: Bytes): seq<set<SecKey>> {
    seq(|fuzzy|, i requires 0 <= i < |fuzzy| => fuzzy[i] + FuzzyKeys(sc, body, i, rec))
  }

  /** Only the postings that moved. */
  function FuzzyMoved(sc: Schema, fuzzy: seq<set<SecKey>>, rec: LocalId, prior: Bytes, body: Bytes): seq<set<SecKey>> {
    seq(|fuzzy|, i requires 0 <= i < |fuzzy| =>
      var was, now := FuzzyKeys(sc, prior, i, rec), FuzzyKeys(sc, body, i, rec);
      fuzzy[i] - (was - now) + (now - was))
  }

  function FuzzyRemoved(sc: Schema, fuzzy: seq<set<SecKey>>, rec: LocalId, body: Bytes): seq<set<SecKey>> {
    seq(|fuzzy|, i requires 0 <= i < |fuzzy| => fuzzy[i] - FuzzyKeys(sc, body, i, rec))
  }

  // ---- The operations -------------------------------------------------------------------------------

  function KeyedAnchor(sc: Schema, body: Bytes): Option<Id> {
    if sc.keyed then Some(KeyedId(sc.tenant, sc.hash, sc.naturalKey(body))) else None
  }

  /** Every derived structure takes the record in: a first version, or a revival. */
  function Entered(sc: Schema, s: State, store: Contents<Envelope>, id: Id, e: Envelope): State {
    var rec := FromId(id);
    State(store, s.recency + {Stamp(e.meta.succession.instant, rec)}, s.removals, ListsInserted(sc, s.lists, rec, e),
          SecsInserted(sc, s.secs, rec, e.body), FuzzyInserted(sc, s.fuzzy, rec, e.body))
  }

  /** `insert_with_meta`: a record enters the store and every derived structure, under the metadata given. */
  function InsertWithMeta(sc: Schema, s: State, id: Id, meta: Metadata, body: Bytes): Result<State> {
    if meta.succession.Next? then Err(ChainCorrupt(id))
    else
      var e := Envelope(sc.hash, meta, body);
      Ok(Entered(sc, s, s.store[id := e], id, e))
  }

  function Plan(sc: Schema, id: Id, imposed: Option<Metadata>, floor: u64, revives: bool): SavePlan {
    SavePlan(sc.hash, NonUnique, id, sc.tenant, sc.user, Some(sc.pivot), imposed, floor, revives)
  }

  /** `plan_reindex`: a record the recency chain holds moves to its new instant and in every list; a secondary or
      fuzzy tree is re-keyed either way. */
  function Reindexed(sc: Schema, s: State, store: Contents<Envelope>, id: Id, prior: (u64, Bytes), e: Envelope): State {
    var rec := FromId(id);
    var was := Stamp(prior.0, rec);
    State(store,
          if was in s.recency then s.recency - {was} + {Stamp(e.meta.succession.instant, rec)} else s.recency,
          s.removals,
          if was in s.recency then ListsMoved(sc, s.lists, rec, prior.1, e) else s.lists,
          SecsMoved(sc, s.secs, rec, prior.1, e.body),
          FuzzyMoved(sc, s.fuzzy, rec, prior.1, e.body))
  }

  /** The watermark after a plan: only a version authored here was minted. */
  function LastAfter(imposed: Option<Metadata>, planned: Result<Planned>, last: u64): u64 {
    if imposed.None? && planned.Ok? then planned.value.meta.succession.instant else last
  }

  /** `save_planned`. */
  function SavePlanned(sc: Schema, s: State, id: Id, body: Bytes, imposed: Option<Metadata>, floor: u64, clock: u64,
                       last: u64): Outcome {
    var anchor := KeyedAnchor(sc, body);
    if anchor.Some? && anchor.value != id then Outcome(Err(KeyMismatch(id)), last)
    else
      var plan := Plan(sc, id, imposed, floor, false);
      var planned := PlanChainedSave(s.store, plan, body, clock, last);
      Outcome(
        match planned
        case Err(x) => Err(x)
        case Ok(p) =>
          (match Apply(s.store, p.writes)
           case Err(x) => Err(x)
           case Ok(store) =>
             if p.prior.Some? then Ok(Reindexed(sc, s, store, id, p.prior.value, Envelope(sc.hash, p.meta, body)))
             else if sc.secondaries > 0 then Err(RecordMissing(id))
             else Ok(s.(store := store))),
        LastAfter(imposed, planned, last))
  }

  /** `chain_into_living`: a chained live version at a vacant or dead anchor, indexed like a first version. */
  function ChainIntoLiving(sc: Schema, s: State, id: Id, body: Bytes, imposed: Option<Metadata>, floor: u64,
                           clock: u64, last: u64): Outcome {
    var plan := Plan(sc, id, imposed, floor, true);
    var planned := PlanChainedSave(s.store, plan, body, clock, last);
    Outcome(
      match planned
      case Err(x) => Err(x)
      case Ok(p) =>
        if p.meta.succession.Next? then Err(ChainCorrupt(id))
        else
          (match Apply(s.store, p.writes)
           case Err(x) => Err(x)
           case Ok(store) => Ok(Entered(sc, s, store, id, Envelope(sc.hash, p.meta, body)))),
      LastAfter(imposed, planned, last))
  }

  /** A foreign type's record at the anchor is a decode fault. */
  predicate Foreign(sc: Schema, store: Contents<Envelope>, id: Id) {
    id in store && store[id].hash != sc.hash
  }

  /** The removed flag is clear: what an anchor read calls living, whatever the id's flag bit. */
  predicate ReadsLive(store: Contents<Envelope>, id: Id) {
    id in store && !store[id].meta.removed
  }

  /** `upsert_keyed`. */
  function UpsertKeyed(sc: Schema, s: State, id: Id, body: Bytes, floor: u64, clock: u64, last: u64): Outcome {
    if Foreign(sc, s.store, id) then Outcome(Err(UnknownStructHash(s.store[id].hash)), last)
    else if ReadsLive(s.store, id) then SavePlanned(sc, s, id, body, None, floor, clock, last)
    else ChainIntoLiving(sc, s, id, body, None, floor, clock, last)
  }

  /** `insert`: by natural key where the schema has one, otherwise at a new instant-keyed anchor. */
  function Insert(sc: Schema, s: State, body: Bytes, floor: u64, clock: u64, last: u64): Outcome {
    var anchor := KeyedAnchor(sc, body);
    if anchor.Some? then UpsertKeyed(sc, s, anchor.value, body, floor, clock, last)
    else
      var instant := MintValue(clock, floor, last);
      Outcome(InsertWithMeta(sc, s, KeyedId(sc.tenant, sc.hash, instant),
                             FirstMeta(instant, Some(sc.pivot), sc.user), body), instant)
  }

  function Save(sc: Schema, s: State, id: Id, body: Bytes, floor: u64, clock: u64, last: u64): Outcome {
    SavePlanned(sc, s, id, body, None, floor, clock, last)
  }

  /** The state after what `id` holds has left every structure. */
  function Gone(sc: Schema, s: State, id: Id, e: Envelope, removedAt: u64): State {
    var rec := FromId(id);
    State(s.store[id := e.(meta := e.meta.(removed := true))],
          if e.meta.succession.CreatedAt? then s.recency - {Stamp(e.meta.succession.instant, rec)} else s.recency,
          s.removals + {Stamp(removedAt, rec)},
          ListsRemoved(sc, s.lists, rec, e.body),
          SecsRemoved(sc, s.secs, rec, e.body),
          FuzzyRemoved(sc, s.fuzzy, rec, e.body))
  }

  /** `remove`: the live version is flagged and leaves every structure; a stamp at a new instant says when. */
  function Withdraw(sc: Schema, s: State, id: Id, floor: u64, clock: u64, last: u64): Outcome {
    if Foreign(sc, s.store, id) then Outcome(Err(UnknownStructHash(s.store[id].hash)), last)
    else if !ReadsLive(s.store, id) then Outcome(Ok(s), last)
    else
      var removedAt := MintValue(clock, floor, last);
      Outcome(Ok(Gone(sc, s, id, s.store[id], removedAt)), removedAt)
  }

  /** `adopt_with`: mirror the node's version verbatim. */
  function AdoptWith(sc: Schema, s: State, id: Id, meta: Metadata, body: Bytes, floor: u64, clock: u64, last: u64):
    Outcome
  {
    if id !in s.store then Outcome(InsertWithMeta(sc, s, id, meta, body), last)
    else if Foreign(sc, s.store, id) then Outcome(Err(UnknownStructHash(s.store[id].hash)), last)
    else if !ReadsLive(s.store, id) then ChainIntoLiving(sc, s, id, body, Some(meta), floor, clock, last)
    else if s.store[id].meta == meta && s.store[id].body == body then Outcome(Ok(s), last)
    else SavePlanned(sc, s, id, body, Some(meta), floor, clock, last)
  }

  // ---- Runs -----------------------------------------------------------------------------------------

  datatype Op =
    | Inserting(body: Bytes, clock: u64)
    | Saving(id: Id, body: Bytes, clock: u64)
    | Removing(id: Id, clock: u64)
    | Restarting

  /** A node: the stored collection and the process's watermark, which a restart resets. */
  datatype Node = Node(state: State, last: u64)

  function Perform(sc: Schema, n: Node, op: Op, floor: u64): Outcome {
    match op
    case Inserting(body, clock) => Insert(sc, n.state, body, floor, clock, n.last)
    case Saving(id, body, clock) => Save(sc, n.state, id, body, floor, clock, n.last)
    case Removing(id, clock) => Withdraw(sc, n.state, id, floor, clock, n.last)
    case Restarting => Outcome(Ok(n.state), 0)
  }

  function Take(sc: Schema, n: Node, op: Op, floor: u64): Node {
    var o := Perform(sc, n, op, floor);
    Node(if o.result.Ok? then o.result.value else n.state, o.last)
  }

  function Empty(lists: nat, secs: nat, fuzzy: nat): State {
    State(map[], {}, {}, seq(lists, _ => map[]), seq(secs, _ => {}), seq(fuzzy, _ => {}))
  }

  predicate Unsaturated(n: Node, floor: u64) {
    && n.last < MAX64
    && floor < MAX64
    && (forall id :: id in n.state.store ==> n.state.store[id].meta.succession.instant < MAX64)
  }

  /** One step of a run: its floor was read from the state, no mint saturates, and a save names an anchor that was
      once inserted. */
  ghost predicate Steps(sc: Schema, tr: seq<Node>, ops: seq<Op>, floors: seq<u64>, i: nat)
    requires i < |ops| && |tr| == |floors| == |ops| + 1
  {
    && tr[i + 1] == Take(sc, tr[i], ops[i], floors[i])
    && Unsaturated(tr[i], floors[i])
    && (ops[i].Saving? ==> ops[i].id in tr[i].state.store)
  }

  ghost predicate FloorAt(tr: seq<Node>, floors: seq<u64>, i: nat)
    requires i < |tr| == |floors|
  {
    IsFloor(tr[i].state, floors[i])
  }

  /** A run from the empty collection: any operations, any clock readings, any restarts. */
  ghost predicate Behaviour(sc: Schema, tr: seq<Node>, ops: seq<Op>, floors: seq<u64>) {
    && |tr| == |floors| == |ops| + 1
    && (exists lists, fuzzy :: tr[0] == Node(Empty(lists, sc.secondaries, fuzzy), 0))
    && (forall i: nat :: i < |ops| ==> Steps(sc, tr, ops, floors, i))
    && (forall i: nat :: i < |tr| ==> FloorAt(tr, floors, i))
  }
}
