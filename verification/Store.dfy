/** The backend seam: a key-to-value store whose batch commits all or nothing, and the plan-time overlay. */
module Stores {
  import opened Ids

  datatype Option<+T> = None | Some(value: T)

  datatype Error =
    | Conflict(id: Id)
    | UnknownStructHash(hash: u64)
    | ChainCorrupt(id: Id)
    | RecordMissing(id: Id)
    | KeyMismatch(id: Id)
    | ReadOnly

  datatype Result<+T> = Ok(value: T) | Err(error: Error)

  type Contents<V> = map<Id, V>

  datatype Write<+V> =
    | Put(id: Id, value: V)
    | Remove(hash: u64, id: Id)
    | Expect(hash: u64, id: Id, expected: Option<V>)

  function Get<V>(s: Contents<V>, id: Id): Option<V> {
    if id in s then Some(s[id]) else None
  }

  /** The first guard the state fails, if any. */
  function FailedGuard<V(==)>(s: Contents<V>, batch: seq<Write<V>>): Option<Id> {
    if batch == [] then None
    else if batch[0].Expect? && Get(s, batch[0].id) != batch[0].expected then Some(batch[0].id)
    else FailedGuard(s, batch[1..])
  }

  function ApplyOne<V>(s: Contents<V>, w: Write<V>): Contents<V> {
    match w
    case Put(id, v) => s[id := v]
    case Remove(_, id) => s - {id}
    case Expect(_, _, _) => s
  }

  function ApplyWrites<V>(s: Contents<V>, batch: seq<Write<V>>): Contents<V>
    decreases |batch|
  {
    if batch == [] then s
    else ApplyOne(ApplyWrites(s, batch[..|batch| - 1]), batch[|batch| - 1])
  }

  /** The `apply` contract: every guard is checked against the state before the batch. */
  function Apply<V(==)>(s: Contents<V>, batch: seq<Write<V>>): Result<Contents<V>> {
    match FailedGuard(s, batch)
    case Some(id) => Err(Conflict(id))
    case None => Ok(ApplyWrites(s, batch))
  }

  lemma {:induction false} ApplyAppend<V>(s: Contents<V>, a: seq<Write<V>>, b: seq<Write<V>>)
    ensures ApplyWrites(s, a + b) == ApplyWrites(ApplyWrites(s, a), b)
    decreases |b|
  {
    if b == [] {
      assert a + b == a;
    } else {
      var n := |b| - 1;
      assert (a + b)[..|a + b| - 1] == a + b[..n];
      ApplyAppend(s, a, b[..n]);
    }
  }

  /** The value a write leaves at the id it names. */
  function Leaves<V>(w: Write<V>): Option<V>
    requires !w.Expect?
  {
    if w.Put? then Some(w.value) else None
  }

  predicate Touches<V>(w: Write<V>, id: Id) {
    !w.Expect? && w.id == id
  }

  predicate Untouched<V>(batch: seq<Write<V>>, id: Id) {
    forall i :: 0 <= i < |batch| ==> !Touches(batch[i], id)
  }

  /** An id no write of the batch names holds what it held. */
  lemma {:induction false} UntouchedStays<V>(s: Contents<V>, batch: seq<Write<V>>, id: Id)
    requires Untouched(batch, id)
    ensures Get(ApplyWrites(s, batch), id) == Get(s, id)
    decreases |batch|
  {
    if batch != [] {
      UntouchedStays(s, batch[..|batch| - 1], id);
    }
  }

  /** Otherwise it holds what the last write that names it left. */
  lemma LastWriteWins<V>(s: Contents<V>, front: seq<Write<V>>, w: Write<V>, back: seq<Write<V>>, id: Id)
    requires Touches(w, id) && Untouched(back, id)
    ensures Get(ApplyWrites(s, front + [w] + back), id) == Leaves(w)
  {
    ApplyAppend(s, front + [w], back);
    UntouchedStays(ApplyWrites(s, front + [w]), back, id);
    assert (front + [w])[..|front|] == front;
  }

  /** A failed guard is a real mismatch of the pre-batch state, and no failed guard means none mismatches. */
  lemma {:induction false} FailedGuardIsExact<V>(s: Contents<V>, batch: seq<Write<V>>)
    ensures FailedGuard(s, batch).None? <==>
            forall i :: 0 <= i < |batch| && batch[i].Expect? ==> Get(s, batch[i].id) == batch[i].expected
  {
    if batch != [] {
      FailedGuardIsExact(s, batch[1..]);
      if FailedGuard(s, batch).None? {
        forall i | 0 <= i < |batch| && batch[i].Expect? ensures Get(s, batch[i].id) == batch[i].expected {
          if i > 0 { assert batch[i] == batch[1..][i - 1]; }
        }
      } else if !(batch[0].Expect? && Get(s, batch[0].id) != batch[0].expected) {
        var i :| 0 <= i < |batch[1..]| && batch[1..][i].Expect? && Get(s, batch[1..][i].id) != batch[1..][i].expected;
        assert batch[i + 1] == batch[1..][i];
      }
    }
  }

  /** The guard a refusal names is the first in the batch that the state does not match. */
  lemma {:induction false} FirstFailedGuard<V>(s: Contents<V>, batch: seq<Write<V>>) returns (i: nat)
    requires FailedGuard(s, batch).Some?
    ensures i < |batch| && batch[i].Expect? && Get(s, batch[i].id) != batch[i].expected
    ensures FailedGuard(s, batch) == Some(batch[i].id)
    ensures forall j :: 0 <= j < i && batch[j].Expect? ==> Get(s, batch[j].id) == batch[j].expected
  {
    if batch[0].Expect? && Get(s, batch[0].id) != batch[0].expected { return 0; }
    var later := FirstFailedGuard(s, batch[1..]);
    i := later + 1;
    forall j | 0 <= j < i && batch[j].Expect? ensures Get(s, batch[j].id) == batch[j].expected {
      if j > 0 { assert batch[j] == batch[1..][j - 1]; }
    }
  }

  /** The in-memory reference backend. */
  class MemStore<V(==)> {
    var contents: Contents<V>

    constructor ()
      ensures contents == map[]
    {
      contents := map[];
    }

    /** Validate, then mutate: a conflict leaves the store as it was. */
    method Commit(batch: seq<Write<V>>) returns (r: Result<()>)
      modifies this
      ensures match Apply(old(contents), batch)
              case Ok(s) => r == Ok(()) && contents == s
              case Err(e) => r == Err(e) && contents == old(contents)
    {
      for i := 0 to |batch|
        invariant contents == old(contents)
        invariant FailedGuard(contents, batch) == FailedGuard(contents, batch[i..])
      {
        assert batch[i..][1..] == batch[i + 1..];
        if batch[i].Expect? && Get(contents, batch[i].id) != batch[i].expected {
          return Err(Conflict(batch[i].id));
        }
      }
      for i := 0 to |batch|
        invariant contents == ApplyWrites(old(contents), batch[..i])
      {
        assert batch[..i + 1][..i] == batch[..i];
        match batch[i] {
          case Put(id, v) => contents := contents[id := v];
          case Remove(_, id) => contents := contents - {id};
          case Expect(_, _, _) =>
        }
      }
      assert batch[..|batch|] == batch;
      r := Ok(());
    }
  }

  // ---- The overlay -----------------------------------------------------------

  /** Staged writes over a fixed store: `Some` stages a put, `None` a removal. */
  class Overlay<V(==)> {
    const inner: Contents<V>
    var pending: map<Id, Option<V>>

    constructor (inner: Contents<V>)
      ensures this.inner == inner && pending == map[]
      ensures View() == inner
    {
      this.inner := inner;
      pending := map[];
    }

    /** The store the view stands for. */
    ghost function View(): Contents<V>
      reads this
    {
      Layered(inner, pending)
    }

    method Read(id: Id) returns (v: Option<V>)
      ensures v == Get(View(), id)
    {
      if id in pending { v := pending[id]; } else { v := Get(inner, id); }
    }

    /** Staging a batch moves the view exactly as committing it would move the store. */
    method Stage(writes: seq<Write<V>>)
      modifies this
      ensures View() == ApplyWrites(old(View()), writes)
    {
      for i := 0 to |writes|
        invariant View() == ApplyWrites(old(View()), writes[..i])
      {
        assert writes[..i + 1][..i] == writes[..i];
        StagedOne(inner, pending, writes[i]);
        match writes[i] {
          case Put(id, v) => pending := pending[id := Some(v)];
          case Remove(_, id) => pending := pending[id := None];
          case Expect(_, _, _) =>
        }
      }
      assert writes[..|writes|] == writes;
    }

    method Commit(batch: seq<Write<V>>) returns (r: Result<()>)
      ensures r == Err(ReadOnly)
    {
      r := Err(ReadOnly);
    }
  }

  /** One pending write moves the view as it would move the store. */
  lemma StagedOne<V>(inner: Contents<V>, pending: map<Id, Option<V>>, w: Write<V>)
    ensures w.Put? ==> Layered(inner, pending[w.id := Some(w.value)]) == ApplyOne(Layered(inner, pending), w)
    ensures w.Remove? ==> Layered(inner, pending[w.id := None]) == ApplyOne(Layered(inner, pending), w)
  {
  }

  function Layered<V>(inner: Contents<V>, pending: map<Id, Option<V>>): Contents<V> {
    map id | id in inner.Keys + pending.Keys && (id in pending ==> pending[id].Some?) ::
      if id in pending then pending[id].value else inner[id]
  }

  // ---- Planning through the overlay refines committing ------------------------

  /** A planner reads a store and answers the writes it wants. */
  type Planner<!V> = Contents<V> -> seq<Write<V>>

  /** Commit each plan before the next one reads. */
  ghost function CommitInTurn<V>(s: Contents<V>, plans: seq<Planner<V>>): Contents<V>
    decreases |plans|
  {
    if plans == [] then s
    else
      var before := CommitInTurn(s, plans[..|plans| - 1]);
      ApplyWrites(before, plans[|plans| - 1](before))
  }

  /** Let each plan read an overlay of the earlier ones, gathering one batch. */
  method PlanThroughOverlay<V(==)>(s: Contents<V>, plans: seq<Planner<V>>) returns (batch: seq<Write<V>>)
    ensures ApplyWrites(s, batch) == CommitInTurn(s, plans)
    ensures (forall p, t :: p in plans ==> Unguarded(p(t))) ==> Apply(s, batch) == Ok(CommitInTurn(s, plans))
  {
    var view := new Overlay(s);
    batch := [];
    for i := 0 to |plans|
      invariant view.inner == s
      invariant view.View() == CommitInTurn(s, plans[..i]) == ApplyWrites(s, batch)
      invariant (forall p, t :: p in plans ==> Unguarded(p(t))) ==> Unguarded(batch)
    {
      assert plans[..i + 1][..i] == plans[..i];
      var writes := plans[i](Layered(view.inner, view.pending));
      view.Stage(writes);
      ApplyAppend(s, batch, writes);
      batch := batch + writes;
    }
    assert plans[..|plans|] == plans;
    FailedGuardIsExact(s, batch);
  }

  predicate Unguarded<V>(batch: seq<Write<V>>) {
    forall i :: 0 <= i < |batch| ==> !batch[i].Expect?
  }

  // ---- Bytes and what they encode ---------------------------------------------

  ghost predicate Injective<V(!new), W>(enc: V -> W) {
    forall a, b :: enc(a) == enc(b) ==> a == b
  }

  ghost function EncodeStore<V, W>(s: Contents<V>, enc: V -> W): Contents<W> {
    map id | id in s :: enc(s[id])
  }

  ghost function EncodeWrite<V, W>(w: Write<V>, enc: V -> W): Write<W> {
    match w
    case Put(id, v) => Put(id, enc(v))
    case Remove(h, id) => Remove(h, id)
    case Expect(h, id, e) => Expect(h, id, if e.Some? then Some(enc(e.value)) else None)
  }

  ghost function EncodeBatch<V, W>(batch: seq<Write<V>>, enc: V -> W): seq<Write<W>> {
    seq(|batch|, i requires 0 <= i < |batch| => EncodeWrite(batch[i], enc))
  }

  /** A store of encoded values behaves as the store of the values: the same conflicts, the same contents. */
  lemma {:induction false} ApplyEncodes<V(!new), W(!new)>(s: Contents<V>, batch: seq<Write<V>>, enc: V -> W)
    requires Injective(enc)
    ensures Apply(EncodeStore(s, enc), EncodeBatch(batch, enc)) ==
            match Apply(s, batch)
            case Ok(t) => Ok(EncodeStore(t, enc))
            case Err(e) => Err(e)
  {
    GuardsEncode(s, batch, enc);
    WritesEncode(s, batch, enc);
  }

  lemma {:induction false} GuardsEncode<V(!new), W(!new)>(s: Contents<V>, batch: seq<Write<V>>, enc: V -> W)
    requires Injective(enc)
    ensures FailedGuard(EncodeStore(s, enc), EncodeBatch(batch, enc)) == FailedGuard(s, batch)
  {
    if batch != [] {
      GuardsEncode(s, batch[1..], enc);
      assert EncodeBatch(batch, enc)[1..] == EncodeBatch(batch[1..], enc);
    }
  }

  lemma {:induction false} WritesEncode<V(!new), W(!new)>(s: Contents<V>, batch: seq<Write<V>>, enc: V -> W)
    ensures ApplyWrites(EncodeStore(s, enc), EncodeBatch(batch, enc)) == EncodeStore(ApplyWrites(s, batch), enc)
    decreases |batch|
  {
    if batch != [] {
      var n := |batch| - 1;
      WritesEncode(s, batch[..n], enc);
      assert EncodeBatch(batch, enc)[..n] == EncodeBatch(batch[..n], enc);
    }
  }
}
