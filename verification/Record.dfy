/** Stored records: the metadata every version carries, the chained save, and the history walk. */
module Records {
  import opened Ids
  import opened Minting
  import opened Stores

  type byte = x: int | 0 <= x < 256
  type Bytes = seq<byte>

  /** `CreatedAt` while live, naming the version's own instant; `Next` in the archive, naming its successor's. */
  datatype Succession = CreatedAt(instant: u64) | Next(instant: u64)

  datatype Permission = Public | Tenants(tenants: seq<u48>) | Group(group: u64)

  datatype Metadata = Metadata(
    previous: Option<u64>,
    succession: Succession,
    removed: bool,
    pivot: Option<LocalId>,
    user: u48,
    device: u64,
    permission: Option<Permission>)

  /** A stored record; `Envelopes` relates it to its bytes. */
  datatype Envelope = Envelope(hash: u64, meta: Metadata, body: Bytes)

  /** The instant a version carries: its own while live, its successor's once archived. */
  function T(e: Envelope): u64 {
    e.meta.succession.instant
  }

  function Split(hash: u64, e: Envelope): Result<(Metadata, Bytes)> {
    if e.hash != hash then Err(UnknownStructHash(e.hash)) else Ok((e.meta, e.body))
  }

  function FirstMeta(instant: u64, pivot: Option<LocalId>, user: u48): Metadata {
    Metadata(None, CreatedAt(instant), false, pivot, user, 0, None)
  }

  datatype SavePlan = SavePlan(
    hash: u64,
    shape: Shape,
    live: Id,
    tenant: u48,
    user: u48,
    pivot: Option<LocalId>,
    imposed: Option<Metadata>,
    floor: u64,
    revives: bool)

  /** The planned batch, the superseded version's instant and body, and the new live metadata. */
  datatype Planned = Planned(writes: seq<Write<Envelope>>, prior: Option<(u64, Bytes)>, meta: Metadata)

  /** The metadata of a version authored here on top of `prior`. */
  function Authored(plan: SavePlan, prior: Metadata, instant: u64): Metadata {
    Metadata(Some(prior.succession.instant), CreatedAt(instant), !plan.revives && prior.removed, prior.pivot, plan.user, 0,
             prior.permission)
  }

  /** The archive form of a superseded version: the forward link names its successor. */
  function Superseded(e: Envelope, next: u64): Envelope {
    e.(meta := e.meta.(succession := Next(next)))
  }

  function PlanChainedSave(store: Contents<Envelope>, plan: SavePlan, body: Bytes, clock: u64, last: u64):
    Result<Planned>
  {
    if plan.live !in store then
      var meta := if plan.imposed.Some? then plan.imposed.value
                  else FirstMeta(MintValue(clock, plan.floor, last), plan.pivot, plan.user);
      Ok(Planned([Expect(plan.hash, plan.live, None), Put(plan.live, Envelope(plan.hash, meta, body))], None, meta))
    else
      var prior := store[plan.live];
      if prior.hash != plan.hash then Err(UnknownStructHash(prior.hash))
      else if prior.meta.succession.Next? then Err(ChainCorrupt(plan.live))
      else
        var authored := prior.meta.succession.instant;
        var meta := if plan.imposed.Some? then plan.imposed.value
                    else Authored(plan, prior.meta, MintValue(clock, Max(authored, plan.floor), last));
        if meta.succession.Next? then Err(ChainCorrupt(plan.live))
        else
          var instant := meta.succession.instant;
          var archive := if authored < instant
                         then [Put(ArchiveId(plan.hash, plan.shape, authored, plan.tenant), Superseded(prior, instant))]
                         else [];
          Ok(Planned([Expect(plan.hash, plan.live, Some(prior))] + archive
                     + [Put(plan.live, Envelope(plan.hash, meta, body))],
                     Some((authored, prior.body)), meta))
  }

  /** The live version `now`, as a save of `body` by `user` makes it of what was there. */
  predicate SavedBy(prior: Option<Envelope>, now: Envelope, hash: u64, user: u48, pivot: Option<LocalId>, revives: bool,
                    body: Bytes)
  {
    && now.hash == hash && now.body == body
    && now.meta.user == user && now.meta.device == 0 && now.meta.succession.CreatedAt?
    && match prior
       case None =>
         now.meta.previous == None && now.meta.pivot == pivot && now.meta.permission == None && !now.meta.removed
       case Some(e) =>
         && now.meta.previous == Some(T(e))
         && now.meta.pivot == e.meta.pivot && now.meta.permission == e.meta.permission
         && (now.meta.removed <==> e.meta.removed && !revives)
  }

  /** `e` as it is kept once superseded: the same version in every field, but that it names its successor. */
  predicate KeptAs(e: Envelope, archived: Envelope, next: u64) {
    && archived.hash == e.hash && archived.body == e.body && archived.meta.succession == Next(next)
    && archived.meta.previous == e.meta.previous && archived.meta.removed == e.meta.removed
    && archived.meta.pivot == e.meta.pivot && archived.meta.user == e.meta.user
    && archived.meta.device == e.meta.device && archived.meta.permission == e.meta.permission
  }

  /** A plan refuses exactly a foreign record, an archive at the live address and an imposed archive form, and names what
      it met. */
  lemma PlanRefusesIff(store: Contents<Envelope>, plan: SavePlan, body: Bytes, clock: u64, last: u64)
    ensures var r := PlanChainedSave(store, plan, body, clock, last);
            match Get(store, plan.live)
            case None => r.Ok?
            case Some(e) =>
              if e.hash != plan.hash then r == Err(UnknownStructHash(e.hash))
              else if e.meta.succession.Next? || (plan.imposed.Some? && plan.imposed.value.succession.Next?)
              then r == Err(ChainCorrupt(plan.live))
              else r.Ok?
  {
  }

  /** What an accepted save authored here stores, read from the store alone: the new version at its address, minted above
      floor, watermark and predecessor; and the predecessor, whole, at its slot. */
  lemma SaveStores(store: Contents<Envelope>, plan: SavePlan, body: Bytes, clock: u64, last: u64)
    requires plan.imposed.None? && PlanChainedSave(store, plan, body, clock, last).Ok?
    requires plan.floor < MAX64 && last < MAX64 && (plan.live in store ==> T(store[plan.live]) < MAX64)
    requires plan.live in store ==> plan.live.flag == AnchorFlag(plan.shape)
    ensures var r := Apply(store, PlanChainedSave(store, plan, body, clock, last).value.writes);
            && r.Ok? && plan.live in r.value
            && var prior, now := Get(store, plan.live), r.value[plan.live];
               && SavedBy(prior, now, plan.hash, plan.user, plan.pivot, plan.revives, body)
               && plan.floor < T(now) && last < T(now) && clock <= T(now)
               && (prior.Some? ==>
                     var slot := ArchiveId(plan.hash, plan.shape, T(prior.value), plan.tenant);
                     T(prior.value) < T(now) && slot in r.value && KeptAs(prior.value, r.value[slot], T(now)))
  {
    PlanCommits(store, plan, body, clock, last);
  }

  /** What an accepted save of a version authored elsewhere stores: that version verbatim, and its predecessor at its slot
      exactly if it is older; nothing else moves. */
  lemma ImposedStores(store: Contents<Envelope>, plan: SavePlan, body: Bytes, clock: u64, last: u64, x: Id)
    requires plan.imposed.Some? && PlanChainedSave(store, plan, body, clock, last).Ok?
    requires plan.live in store ==> plan.live.flag == AnchorFlag(plan.shape)
    ensures var r := Apply(store, PlanChainedSave(store, plan, body, clock, last).value.writes);
            && r.Ok? && Get(r.value, plan.live) == Some(Envelope(plan.hash, plan.imposed.value, body))
            && var prior, instant := Get(store, plan.live), plan.imposed.value.succession.instant;
               var archives := prior.Some? && T(prior.value) < instant;
               var slot := if archives then ArchiveId(plan.hash, plan.shape, T(prior.value), plan.tenant) else plan.live;
               && (archives ==> slot in r.value && KeptAs(prior.value, r.value[slot], instant))
               && (x != plan.live && x != slot ==> Get(r.value, x) == Get(store, x))
  {
    PlanCommits(store, plan, body, clock, last);
  }

  /** What committing a plan against the store it was planned on gives. */
  function Saved(store: Contents<Envelope>, plan: SavePlan, meta: Metadata, body: Bytes): Contents<Envelope> {
    var live := Envelope(plan.hash, meta, body);
    if plan.live in store && store[plan.live].meta.succession.instant < meta.succession.instant then
      var prior := store[plan.live];
      store[ArchiveId(plan.hash, plan.shape, prior.meta.succession.instant, plan.tenant)
            := Superseded(prior, meta.succession.instant)][plan.live := live]
    else store[plan.live := live]
  }

  lemma ApplyTwo<V>(s: Contents<V>, a: Write<V>, b: Write<V>)
    ensures ApplyWrites(s, [a, b]) == ApplyOne(ApplyOne(s, a), b)
  {
    assert [a, b][..1] == [a] && [a][..0] == [];
    assert ApplyWrites(s, [a]) == ApplyOne(s, a);
  }

  lemma ApplyThree<V>(s: Contents<V>, a: Write<V>, b: Write<V>, c: Write<V>)
    ensures ApplyWrites(s, [a, b, c]) == ApplyOne(ApplyOne(ApplyOne(s, a), b), c)
  {
    assert [a, b, c][..2] == [a, b];
    ApplyTwo(s, a, b);
  }

  /** A planned save commits at once: the prior version moves to its slot and the new one takes the anchor. */
  lemma PlanCommits(store: Contents<Envelope>, plan: SavePlan, body: Bytes, clock: u64, last: u64)
    requires PlanChainedSave(store, plan, body, clock, last).Ok?
    ensures var p := PlanChainedSave(store, plan, body, clock, last).value;
            Apply(store, p.writes) == Ok(Saved(store, plan, p.meta, body))
  {
    var p := PlanChainedSave(store, plan, body, clock, last).value;
    FailedGuardIsExact(store, p.writes);
    if |p.writes| == 2 {
      assert p.writes == [p.writes[0], p.writes[1]];
      ApplyTwo(store, p.writes[0], p.writes[1]);
    } else {
      assert p.writes == [p.writes[0], p.writes[1], p.writes[2]];
      ApplyThree(store, p.writes[0], p.writes[1], p.writes[2]);
    }
  }

  // ---- History ------------------------------------------------------------------

  type Version = (Metadata, Bytes)

  /** One step of the unfold: an item, and the id to read next. */
  function HistoryStep(store: Contents<Envelope>, hash: u64, shape: Shape, tenant: u48, id: Id):
    (Result<Version>, Option<Id>)
  {
    if id !in store then (Err(RecordMissing(id)), None)
    else
      match Split(hash, store[id])
      case Err(e) => (Err(e), None)
      case Ok(v) =>
        (Ok(v), if v.0.previous.Some? then Some(ArchiveId(hash, shape, v.0.previous.value, tenant)) else None)
  }

  /** The first `n` items of the newest-first stream that starts at `at`. */
  function History(store: Contents<Envelope>, hash: u64, shape: Shape, tenant: u48, at: Option<Id>, n: nat):
    seq<Result<Version>>
    decreases n
  {
    if n == 0 || at.None? then []
    else
      var (item, older) := HistoryStep(store, hash, shape, tenant, at.value);
      [item] + History(store, hash, shape, tenant, older, n - 1)
  }
}
