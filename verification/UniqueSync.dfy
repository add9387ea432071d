/** Catch-up of a `Unique` record by walking its chain forward, and the mirror that replays it. */
module UniqueSync {
  import opened Ids
  import opened Stores
  import opened Records
  import opened VersionChain
  import opened VersionInstants

  /** One catch-up item. */
  datatype Change = Saved(id: Id, meta: Metadata, body: Bytes) | Removed(id: Id, at: u64)

  /** A `Changes` answer: the cursor to come back with, and what was missed. */
  datatype Reply = Reply(cursor: u64, changes: seq<Change>)

  /** An archived version as it looked while live. */
  function LiveForm(a: Id, e: Envelope, instant: u64): Change {
    Saved(a, e.meta.(succession := CreatedAt(instant)), e.body)
  }

  /** The archived versions met walking forward from the instant `at`, up to but not including the live one. */
  function Missed(store: Contents<Envelope>, k: Kind, a: Id, cursor: u64, live: u64, at: u64): Result<seq<Change>>
    decreases live - at
  {
    var slot := ArchiveId(k.hash, k.shape, at, a.tenant);
    if at == 0 || live <= at || slot !in store then Ok([])
    else
      var e := store[slot];
      if e.hash != k.hash then Err(UnknownStructHash(e.hash))
      else if e.meta.succession.CreatedAt? || e.meta.succession.instant <= at then Err(ChainCorrupt(slot))
      else
        match Missed(store, k, a, cursor, live, e.meta.succession.instant)
        case Err(x) => Err(x)
        case Ok(later) => Ok((if cursor < at then [LiveForm(a, e, at)] else []) + later)
  }

  function Changes(store: Contents<Envelope>, k: Kind, a: Id, since: Option<u64>): Result<Reply> {
    if a !in store then Ok(Reply(if since.Some? then since.value else 0, []))
    else
      var live := store[a];
      if live.hash != k.hash then Err(UnknownStructHash(live.hash))
      else if live.meta.succession.Next? then Err(ChainCorrupt(a))
      else if since.None? then Ok(Reply(T(live), []))
      else if T(live) <= since.value then Ok(Reply(since.value, []))
      else
        match Missed(store, k, a, since.value, T(live), since.value)
        case Err(x) => Err(x)
        case Ok(missed) => Ok(Reply(T(live), missed + [Saved(a, live.meta, live.body)]))
  }

  /** `unique_changes`: the forward walk as the loop the node runs. */
  method UniqueChanges(store: Contents<Envelope>, k: Kind, a: Id, since: Option<u64>) returns (r: Result<Reply>)
    ensures r == Changes(store, k, a, since)
    ensures a !in store ==> r == Ok(Reply(if since.Some? then since.value else 0, []))
    ensures a in store && store[a].hash != k.hash ==> r == Err(UnknownStructHash(store[a].hash))
    ensures a in store && store[a].hash == k.hash && store[a].meta.succession.Next? ==> r == Err(ChainCorrupt(a))
    ensures a in store && store[a].hash == k.hash && store[a].meta.succession.CreatedAt? ==>
              && (since.None? ==> r == Ok(Reply(store[a].meta.succession.instant, [])))
              && (since.Some? && r.Ok? ==> r.value.cursor >= since.value
                                           && r.value.cursor >= store[a].meta.succession.instant)
  {
    if a !in store { return Ok(Reply(if since.Some? then since.value else 0, [])); }
    var live := store[a];
    if live.hash != k.hash { return Err(UnknownStructHash(live.hash)); }
    if live.meta.succession.Next? { return Err(ChainCorrupt(a)); }
    var liveInstant := live.meta.succession.instant;
    if since.None? { return Ok(Reply(liveInstant, [])); }
    var cursor := since.value;
    if liveInstant <= cursor { return Ok(Reply(cursor, [])); }
    var changes: seq<Change> := [];
    var at: u64 := cursor;
    assert forall later: seq<Change> {:trigger changes + later} :: changes + later == later;
    while at > 0 && at < liveInstant
      invariant match Missed(store, k, a, cursor, liveInstant, at)
                case Ok(later) => Missed(store, k, a, cursor, liveInstant, cursor) == Ok(changes + later)
                case Err(x) => Missed(store, k, a, cursor, liveInstant, cursor) == Err(x)
      decreases if at < liveInstant then liveInstant - at else 0
    {
      ghost var before := changes;
      var slot := ArchiveId(k.hash, k.shape, at, a.tenant);
      if slot !in store { break; }
      var e := store[slot];
      if e.hash != k.hash { return Err(UnknownStructHash(e.hash)); }
      if e.meta.succession.CreatedAt? { return Err(ChainCorrupt(slot)); }
      var next := e.meta.succession.instant;
      if next <= at { return Err(ChainCorrupt(slot)); }
      if at > cursor { changes := changes + [LiveForm(a, e, at)]; }
      at := next;
      assert forall later: seq<Change> {:trigger changes + later} ::
          changes + later == before + ((if cursor < slot.key then [LiveForm(a, e, slot.key)] else []) + later);
    }
    assert changes + [] == changes;
    r := Ok(Reply(liveInstant, changes + [Saved(a, live.meta, live.body)]));
  }

  /** `adopt_unique`: write a node version verbatim, unless the mirror already holds exactly it. */
  function Adopt(m: Contents<Envelope>, k: Kind, a: Id, meta: Metadata, body: Bytes): Result<Contents<Envelope>> {
    if a in m && m[a].hash != k.hash then Err(UnknownStructHash(m[a].hash))
    else if a in m && m[a].meta == meta && m[a].body == body then Ok(m)
    else
      var plan := SavePlan(k.hash, k.shape, a, a.tenant, meta.user, None, Some(meta), 0, false);
      match PlanChainedSave(m, plan, body, 0, 0)
      case Err(x) => Err(x)
      case Ok(p) => Apply(m, p.writes)
  }

  /** A mirror adopting an answer in order. */
  function AdoptAll(m: Contents<Envelope>, k: Kind, a: Id, changes: seq<Change>): Result<Contents<Envelope>>
    decreases |changes|
  {
    if changes == [] then Ok(m)
    else if changes[0].Removed? then AdoptAll(m, k, a, changes[1..])
    else
      match Adopt(m, k, a, changes[0].meta, changes[0].body)
      case Err(x) => Err(x)
      case Ok(m') => AdoptAll(m', k, a, changes[1..])
  }

  // ---- What the forward walk answers ----------------------------------------------------

  /** The store holds the record at `a` with versions `vs`, and its tenant's archive slots hold nothing else. */
  ghost predicate Holds(k: Kind, store: Contents<Envelope>, a: Id, vs: seq<Envelope>) {
    && |vs| > 0
    && Linked(k, vs)
    && Archived(k, store, a, vs)
    && a in store && store[a] == Last(vs)
  }

  ghost predicate NothingElse(k: Kind, store: Contents<Envelope>, a: Id, vs: seq<Envelope>) {
    forall t: u64 :: ArchiveId(k.hash, k.shape, t, a.tenant) in store ==> !Avoids(vs, t)
  }

  function SavedVersion(a: Id, e: Envelope): Change {
    Saved(a, e.meta, e.body)
  }

  /** Versions `lo` up to but not including `hi`, oldest first, each as it was while live. */
  function Between(a: Id, vs: seq<Envelope>, lo: nat, hi: nat): seq<Change>
    requires hi <= |vs|
    decreases hi - lo
  {
    if hi <= lo then [] else [SavedVersion(a, vs[lo])] + Between(a, vs, lo + 1, hi)
  }

  /** The walk from version `i`, for a client whose own version is `c`, meets every archive from there on. */
  lemma {:induction false} WalkForward(k: Kind, store: Contents<Envelope>, a: Id, vs: seq<Envelope>, c: nat, i: nat)
    requires Holds(k, store, a, vs) && c <= i < |vs|
    ensures Missed(store, k, a, T(vs[c]), T(Last(vs)), T(vs[i])) ==
            Ok(Between(a, vs, if i == c then c + 1 else i, |vs| - 1))
    decreases |vs| - i
  {
    if i < |vs| - 1 {
      assert ArchivedAt(k, store, a, vs, i);
      assert T(vs[i]) < T(vs[i + 1]) <= T(Last(vs));
      WalkForward(k, store, a, vs, c, i + 1);
      assert LiveForm(a, store[Slot(k, a, vs[i])], T(vs[i])) == SavedVersion(a, vs[i]);
      assert [] + Between(a, vs, i + 1, |vs| - 1) == Between(a, vs, i + 1, |vs| - 1);
    }
  }

  lemma {:induction false} BetweenSnoc(a: Id, vs: seq<Envelope>, lo: nat, hi: nat)
    requires lo <= hi < |vs|
    ensures Between(a, vs, lo, hi + 1) == Between(a, vs, lo, hi) + [SavedVersion(a, vs[hi])]
    decreases hi - lo
  {
    if lo < hi { BetweenSnoc(a, vs, lo + 1, hi); }
  }

  /** A walk that meets another type's record, an archive that is none or a link that leads nowhere new is refused, and what
      it met is named. */
  lemma WalkRefuses(k: Kind, store: Contents<Envelope>, a: Id, cursor: u64, live: u64, at: u64)
    requires 0 < at < live && ArchiveId(k.hash, k.shape, at, a.tenant) in store
    ensures var slot := ArchiveId(k.hash, k.shape, at, a.tenant);
            var e, r := store[slot], Missed(store, k, a, cursor, live, at);
            && (e.hash != k.hash ==> r == Err(UnknownStructHash(e.hash)))
            && (e.hash == k.hash && (e.meta.succession.CreatedAt? || e.meta.succession.instant <= at) ==>
                  r == Err(ChainCorrupt(slot)))
  {
  }

  /** A client without a cursor is registered at the live version, and is owed nothing yet. */
  lemma AnswerRegisters(k: Kind, store: Contents<Envelope>, a: Id, vs: seq<Envelope>)
    requires Holds(k, store, a, vs)
    ensures Changes(store, k, a, None) == Ok(Reply(T(Last(vs)), []))
  {
    assert vs[|vs| - 1].meta.succession.CreatedAt?;
  }

  /** Where nothing was ever saved, a client keeps its cursor, zero if it has none. */
  lemma AnswerVacant(k: Kind, store: Contents<Envelope>, a: Id, since: Option<u64>)
    requires a !in store
    ensures Changes(store, k, a, since) == Ok(Reply(match since case None => 0 case Some(t) => t, []))
  {
  }

  /** A client at or past the live version gets nothing. */
  lemma AnswerPast(k: Kind, store: Contents<Envelope>, a: Id, vs: seq<Envelope>, cursor: u64)
    requires Holds(k, store, a, vs) && T(Last(vs)) <= cursor
    ensures Changes(store, k, a, Some(cursor)) == Ok(Reply(cursor, []))
  {
  }

  /** A client holding version `c` gets every later version, in authoring order. */
  lemma AnswerFrom(k: Kind, store: Contents<Envelope>, a: Id, vs: seq<Envelope>, c: nat)
    requires Holds(k, store, a, vs) && c < |vs| - 1
    ensures Changes(store, k, a, Some(T(vs[c]))) == Ok(Reply(T(Last(vs)), Between(a, vs, c + 1, |vs|)))
  {
    WalkForward(k, store, a, vs, c, c);
    BetweenSnoc(a, vs, c + 1, |vs| - 1);
    ChangesAre(k, store, a, Last(vs), T(vs[c]), Between(a, vs, c + 1, |vs| - 1));
  }

  /** What a walk met, and the live version last. */
  lemma ChangesAre(k: Kind, store: Contents<Envelope>, a: Id, live: Envelope, since: u64, missed: seq<Change>)
    requires Get(store, a) == Some(live) && live.hash == k.hash && live.meta.succession.CreatedAt? && since < T(live)
    requires Missed(store, k, a, since, T(live), since) == Ok(missed)
    ensures Changes(store, k, a, Some(since)) == Ok(Reply(T(live), missed + [SavedVersion(a, live)]))
  {
  }

  /** Any other cursor gets the live version alone. */
  lemma AnswerElsewhere(k: Kind, store: Contents<Envelope>, a: Id, vs: seq<Envelope>, cursor: u64)
    requires Holds(k, store, a, vs) && NothingElse(k, store, a, vs) && cursor < T(Last(vs)) && Avoids(vs, cursor)
    ensures Changes(store, k, a, Some(cursor)) == Ok(Reply(T(Last(vs)), [SavedVersion(a, Last(vs))]))
  {
    assert Linked(k, vs) && vs[|vs| - 1].meta.succession.CreatedAt?;
    assert ArchiveId(k.hash, k.shape, cursor, a.tenant) !in store;
    assert Missed(store, k, a, cursor, T(Last(vs)), cursor) == Ok([]);
    assert [] + [SavedVersion(a, Last(vs))] == [SavedVersion(a, Last(vs))];
  }

  // ---- The mirror -----------------------------------------------------------------------------

  /** The mirror's anchor holds version `top` as the node held it, and its slots from `from` on are the node's. */
  ghost predicate Mirrors(k: Kind, m: Contents<Envelope>, a: Id, vs: seq<Envelope>, from: nat, top: nat) {
    && from <= top < |vs|
    && a in m && m[a] == vs[top]
    && (forall i: nat :: from <= i < top ==> ArchivedAt(k, m, a, vs, i))
  }

  /** Every answer of an adoption: another type's record, an archive form on either side are refused by name; anything else
      leaves the version at the anchor verbatim, and archives an older one it replaces. */
  lemma AdoptAnswers(m: Contents<Envelope>, k: Kind, a: Id, meta: Metadata, body: Bytes)
    requires a in m ==> a.flag == AnchorFlag(k.shape)
    ensures var r := Adopt(m, k, a, meta, body);
            match Get(m, a)
            case None => r == Ok(m[a := Envelope(k.hash, meta, body)])
            case Some(e) =>
              if e.hash != k.hash then r == Err(UnknownStructHash(e.hash))
              else if e.meta == meta && e.body == body then r == Ok(m)
              else if e.meta.succession.Next? || meta.succession.Next? then r == Err(ChainCorrupt(a))
              else
                && r.Ok? && Get(r.value, a) == Some(Envelope(k.hash, meta, body))
                && var slot := ArchiveId(k.hash, k.shape, T(e), a.tenant);
                   && (T(e) < meta.succession.instant ==>
                         slot in r.value && KeptAs(e, r.value[slot], meta.succession.instant))
                   && (T(e) >= meta.succession.instant ==> Get(r.value, slot) == Get(m, slot))
  {
    var plan := SavePlan(k.hash, k.shape, a, a.tenant, meta.user, None, Some(meta), 0, false);
    PlanRefusesIff(m, plan, body, 0, 0);
    if PlanChainedSave(m, plan, body, 0, 0).Ok? { PlanCommits(m, plan, body, 0, 0); }
  }

  lemma AdoptNext(k: Kind, m: Contents<Envelope>, a: Id, vs: seq<Envelope>, from: nat, top: nat)
    requires Linked(k, vs) && Mirrors(k, m, a, vs, from, top) && top + 1 < |vs| && a.flag == AnchorFlag(k.shape)
    ensures var r := Adopt(m, k, a, vs[top + 1].meta, vs[top + 1].body);
            r.Ok? && Mirrors(k, r.value, a, vs, from, top + 1)
  {
    var e := vs[top + 1];
    var plan := SavePlan(k.hash, k.shape, a, a.tenant, e.meta.user, None, Some(e.meta), 0, false);
    assert T(vs[top]) < T(e);
    PlanCommits(m, plan, e.body, 0, 0);
    var m' := Adopt(m, k, a, e.meta, e.body).value;
    assert m' == m[Slot(k, a, vs[top]) := Superseded(vs[top], T(e))][a := e];
    forall i: nat | from <= i < top + 1 ensures ArchivedAt(k, m', a, vs, i) {
      if i < top { assert ArchivedAt(k, m, a, vs, i); }
    }
  }

  lemma {:induction false} AdoptBetween(k: Kind, m: Contents<Envelope>, a: Id, vs: seq<Envelope>, from: nat, top: nat)
    requires Linked(k, vs) && Mirrors(k, m, a, vs, from, top) && a.flag == AnchorFlag(k.shape)
    ensures var r := AdoptAll(m, k, a, Between(a, vs, top + 1, |vs|));
            r.Ok? && Mirrors(k, r.value, a, vs, from, |vs| - 1)
    decreases |vs| - top
  {
    if top + 1 < |vs| {
      AdoptNext(k, m, a, vs, from, top);
      var e := vs[top + 1];
      AdoptBetween(k, Adopt(m, k, a, e.meta, e.body).value, a, vs, from, top + 1);
      assert Between(a, vs, top + 1, |vs|)[1..] == Between(a, vs, top + 2, |vs|);
    }
  }

  /** One catch-up: a mirror at version `top` of a node that moved on to `vs` ends with the same bytes as the node at the
      anchor and at every archive slot from its first version on. */
  lemma CatchUpConverges(k: Kind, node: Contents<Envelope>, m: Contents<Envelope>, a: Id, vs: seq<Envelope>, from: nat,
                         top: nat)
    requires Holds(k, node, a, vs) && NothingElse(k, node, a, vs) && Mirrors(k, m, a, vs, from, top)
    requires a.flag == AnchorFlag(k.shape)
    ensures var reply := Changes(node, k, a, Some(T(vs[top])));
            reply.Ok? && reply.value.cursor == T(Last(vs))
            && var r := AdoptAll(m, k, a, reply.value.changes);
               r.Ok? && Mirrors(k, r.value, a, vs, from, |vs| - 1)
  {
    if top < |vs| - 1 { AnswerFrom(k, node, a, vs, top); } else { AnswerPast(k, node, a, vs, T(vs[top])); }
    AdoptBetween(k, m, a, vs, from, top);
  }

  /** A first contact, from the zero cursor: the mirror starts at the live version. */
  lemma FirstContact(k: Kind, node: Contents<Envelope>, a: Id, vs: seq<Envelope>)
    requires Holds(k, node, a, vs) && NothingElse(k, node, a, vs)
    ensures var reply := Changes(node, k, a, Some(0));
            reply.Ok? && reply.value.cursor == T(Last(vs))
            && var r := AdoptAll(map[], k, a, reply.value.changes);
               r.Ok? && Mirrors(k, r.value, a, vs, |vs| - 1, |vs| - 1)
  {
    AnswerElsewhere(k, node, a, vs, 0);
    var e := Last(vs);
    var plan := SavePlan(k.hash, k.shape, a, a.tenant, e.meta.user, None, Some(e.meta), 0, false);
    PlanCommits(map[], plan, e.body, 0, 0);
    assert [SavedVersion(a, e)][1..] == [];
    assert Adopt(map[], k, a, e.meta, e.body) == Ok(map[a := e]);
  }

  // ---- Over whole runs of the node --------------------------------------------------------------

  lemma StepExtends(k: Kind, s: Sys, step: VersionChain.Step, a: Id)
    requires k.shape.Unique? && a in s.hist
    ensures a in Take(k, s, step).hist && s.hist[a] <= Take(k, s, step).hist[a]
  {
  }

  /** A `Unique` record's history only grows. */
  lemma {:induction false} HistoryExtends(k: Kind, tr: seq<Sys>, steps: seq<VersionChain.Step>, i: nat, j: nat, a: Id)
    requires Behaviour(k, tr, steps) && k.shape.Unique? && i <= j < |tr| && a in tr[i].hist
    ensures a in tr[j].hist && tr[i].hist[a] <= tr[j].hist[a]
    decreases j
  {
    if i < j {
      HistoryExtends(k, tr, steps, i, j - 1, a);
      assert Steps(k, tr, steps, j - 1);
      StepExtends(k, tr[j - 1], steps[j - 1], a);
    }
  }

  /** At every point of a run the node's store holds the record and nothing else in its archive slots. */
  lemma NodeHolds(k: Kind, tr: seq<Sys>, steps: seq<VersionChain.Step>, i: nat, a: Id)
    requires Behaviour(k, tr, steps) && k.shape.Unique? && i < |tr| && a in tr[i].hist
    ensures Holds(k, tr[i].store, a, tr[i].hist[a]) && NothingElse(k, tr[i].store, a, tr[i].hist[a])
    ensures a.flag == AnchorFlag(k.shape)
  {
    RunKeeps(k, tr, steps, i);
    var s := tr[i];
    assert Linked(k, s.hist[a]) && Archived(k, s.store, a, s.hist[a]);
    forall t: u64 | ArchiveId(k.hash, k.shape, t, a.tenant) in s.store ensures !Avoids(s.hist[a], t) {
      var id := ArchiveId(k.hash, k.shape, t, a.tenant);
      assert Owned(k, s.hist, id, s.owner[id]);
      assert s.owner[id].0 == a;
    }
  }

  /** A client that registers at point `i` of a run and catches up at a later point `j` gets exactly the versions committed
      in between, oldest first, if the record existed when it registered. If not, it gets the live version alone, which
      is all of them exactly when no more than one was committed. */
  lemma RegisterThenCatchUp(k: Kind, tr: seq<Sys>, steps: seq<VersionChain.Step>, i: nat, j: nat, a: Id)
    requires Behaviour(k, tr, steps) && k.shape.Unique? && i <= j < |tr| && a.flag == AnchorFlag(k.shape)
    ensures var was, now := Versions(tr[i].hist, a), Versions(tr[j].hist, a);
            var registered := Changes(tr[i].store, k, a, None);
            && was <= now
            && registered == Ok(Reply(if was == [] then 0 else T(Last(was)), []))
            && var reply := Changes(tr[j].store, k, a, Some(registered.value.cursor));
               && reply.Ok?
               && reply.value.cursor == (if now == [] then 0 else T(Last(now)))
               && (was != [] || now == [] ==> reply.value.changes == Between(a, now, |was|, |now|))
               && (was == [] && now != [] ==> reply.value.changes == [SavedVersion(a, Last(now))])
               && (reply.value.changes == Between(a, now, |was|, |now|) <==> was != [] || |now| <= 1)
  {
    RunKeeps(k, tr, steps, i);
    RunKeeps(k, tr, steps, j);
    if a in tr[i].hist {
      HistoryExtends(k, tr, steps, i, j, a);
      NodeHolds(k, tr, steps, i, a);
      NodeHolds(k, tr, steps, j, a);
      AnswerRegisters(k, tr[i].store, a, tr[i].hist[a]);
      AnswerSince(k, tr[j].store, a, tr[j].hist[a], |tr[i].hist[a]|);
    } else {
      AnswerVacant(k, tr[i].store, a, None);
      if a in tr[j].hist {
        NodeHolds(k, tr, steps, j, a);
        AnswerElsewhere(k, tr[j].store, a, tr[j].hist[a], 0);
        BetweenSize(a, tr[j].hist[a], 0, |tr[j].hist[a]|);
      } else {
        AnswerVacant(k, tr[j].store, a, Some(0));
      }
    }
  }

  lemma AnswerSince(k: Kind, store: Contents<Envelope>, a: Id, vs: seq<Envelope>, n: nat)
    requires Holds(k, store, a, vs) && 0 < n <= |vs|
    ensures Changes(store, k, a, Some(T(vs[n - 1]))) == Ok(Reply(T(Last(vs)), Between(a, vs, n, |vs|)))
  {
    if n < |vs| { AnswerFrom(k, store, a, vs, n - 1); } else { AnswerPast(k, store, a, vs, T(vs[n - 1])); }
  }

  lemma {:induction false} BetweenSize(a: Id, vs: seq<Envelope>, lo: nat, hi: nat)
    requires lo <= hi <= |vs|
    ensures |Between(a, vs, lo, hi)| == hi - lo
    decreases hi - lo
  {
    if lo < hi { BetweenSize(a, vs, lo + 1, hi); }
  }

  /** A mirror that first contacts the node at point `at[0]` and catches up at points `at[1]`, `at[2]`, ... of one run,
      each time passing back the cursor of its previous answer. */
  ghost predicate CatchingUp(k: Kind, tr: seq<Sys>, a: Id, at: seq<nat>, mirrors: seq<Contents<Envelope>>,
                             cursors: seq<u64>) {
    && |at| == |mirrors| == |cursors| > 0
    && (forall x :: 0 <= x < |at| ==> at[x] < |tr|)
    && (forall x, y :: 0 <= x < y < |at| ==> at[x] <= at[y])
    && Answered(k, tr[at[0]].store, a, map[], 0, mirrors[0], cursors[0])
    && (forall x: nat :: x + 1 < |at| ==> Follows(k, tr, a, at, mirrors, cursors, x))
  }

  ghost predicate Follows(k: Kind, tr: seq<Sys>, a: Id, at: seq<nat>, mirrors: seq<Contents<Envelope>>,
                          cursors: seq<u64>, x: nat)
    requires x + 1 < |at| == |mirrors| == |cursors| && at[x + 1] < |tr|
  {
    Answered(k, tr[at[x + 1]].store, a, mirrors[x], cursors[x], mirrors[x + 1], cursors[x + 1])
  }

  /** One exchange: the node's answer since `since` takes the mirror from `m` to `m'`. */
  ghost predicate Answered(k: Kind, node: Contents<Envelope>, a: Id, m: Contents<Envelope>, since: u64,
                           m': Contents<Envelope>, cursor: u64) {
    var reply := Changes(node, k, a, Some(since));
    reply.Ok? && reply.value.cursor == cursor && AdoptAll(m, k, a, reply.value.changes) == Ok(m')
  }

  /** After every catch-up of every run, the mirror's bytes are the node's at the anchor and at every archive
      slot since its first contact. */
  lemma {:induction false} MirrorIsByteIdentical(k: Kind, tr: seq<Sys>, steps: seq<VersionChain.Step>, a: Id, at: seq<nat>,
                                                 mirrors: seq<Contents<Envelope>>, cursors: seq<u64>, x: nat)
    requires Behaviour(k, tr, steps) && k.shape.Unique? && CatchingUp(k, tr, a, at, mirrors, cursors) && x < |at|
    requires a in tr[at[0]].hist
    ensures a in tr[at[x]].hist && |tr[at[x]].hist[a]| > 0 && |tr[at[0]].hist[a]| > 0
    ensures cursors[x] == T(Last(tr[at[x]].hist[a]))
    ensures Mirrors(k, mirrors[x], a, tr[at[x]].hist[a], |tr[at[0]].hist[a]| - 1, |tr[at[x]].hist[a]| - 1)
  {
    NodeHolds(k, tr, steps, at[0], a);
    if x == 0 {
      FirstContact(k, tr[at[0]].store, a, tr[at[0]].hist[a]);
    } else {
      MirrorIsByteIdentical(k, tr, steps, a, at, mirrors, cursors, x - 1);
      var i, j := at[x - 1], at[x];
      HistoryExtends(k, tr, steps, i, j, a);
      NodeHolds(k, tr, steps, j, a);
      var from, top := |tr[at[0]].hist[a]| - 1, |tr[i].hist[a]| - 1;
      MirrorsLonger(k, mirrors[x - 1], a, tr[i].hist[a], tr[j].hist[a], from, top);
      CatchUpConverges(k, tr[j].store, mirrors[x - 1], a, tr[j].hist[a], from, top);
      assert Follows(k, tr, a, at, mirrors, cursors, x - 1);
    }
  }

  lemma MirrorsLonger(k: Kind, m: Contents<Envelope>, a: Id, vs: seq<Envelope>, ws: seq<Envelope>, from: nat, top: nat)
    requires Mirrors(k, m, a, vs, from, top) && vs <= ws
    ensures Mirrors(k, m, a, ws, from, top)
  {
    forall i: nat | from <= i < top ensures ArchivedAt(k, m, a, ws, i) {
      assert ArchivedAt(k, m, a, vs, i);
    }
  }

  /** What `Mirrors` means byte for byte: the node's own bytes at the anchor and at each slot. */
  lemma MirrorsTheNode(k: Kind, node: Contents<Envelope>, m: Contents<Envelope>, a: Id, vs: seq<Envelope>, from: nat)
    requires Holds(k, node, a, vs) && Mirrors(k, m, a, vs, from, |vs| - 1)
    ensures Get(m, a) == Get(node, a)
    ensures forall i :: from <= i < |vs| - 1 ==> Get(m, Slot(k, a, vs[i])) == Get(node, Slot(k, a, vs[i]))
                                                 && Slot(k, a, vs[i]) in node
  {
    forall i: nat | from <= i < |vs| - 1
      ensures Get(m, Slot(k, a, vs[i])) == Get(node, Slot(k, a, vs[i])) && Slot(k, a, vs[i]) in node
    {
      assert ArchivedAt(k, m, a, vs, i) && ArchivedAt(k, node, a, vs, i);
    }
  }

  /** The theorem in the node's own bytes: after every catch-up of every run, anchor and slots read the same on both. */
  lemma MirrorReadsAsNode(k: Kind, tr: seq<Sys>, steps: seq<VersionChain.Step>, a: Id, at: seq<nat>,
                          mirrors: seq<Contents<Envelope>>, cursors: seq<u64>, x: nat, i: nat)
    requires Behaviour(k, tr, steps) && k.shape.Unique? && CatchingUp(k, tr, a, at, mirrors, cursors) && x < |at|
    requires a in tr[at[0]].hist && a in tr[at[x]].hist && |tr[at[0]].hist[a]| - 1 <= i < |tr[at[x]].hist[a]| - 1
    ensures Get(mirrors[x], a) == Get(tr[at[x]].store, a)
    ensures var slot := Slot(k, a, tr[at[x]].hist[a][i]); slot in mirrors[x] && Get(mirrors[x], slot) == Get(tr[at[x]].store, slot)
  {
    MirrorIsByteIdentical(k, tr, steps, a, at, mirrors, cursors, x);
    NodeHolds(k, tr, steps, at[x], a);
    MirrorsTheNode(k, tr[at[x]].store, mirrors[x], a, tr[at[x]].hist[a], |tr[at[0]].hist[a]| - 1);
  }
}
