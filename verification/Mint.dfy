/** Instants: the monotone clock every version and every time-keyed identity is stamped by.

    `mint_instant` is a compare-and-swap loop on a process-wide watermark. The wall clock is adversarial: every
    evaluation of the closure may read any 64-bit value. */
module Minting {
  import opened Ids

  function Max(a: u64, b: u64): u64 {
    if a < b then b else a
  }

  function SaturatingSucc(x: u64): u64 {
    if x == MAX64 then MAX64 else x + 1
  }

  /** One evaluation of the update closure: the clock, the caller's floor and the watermark it saw. */
  function MintValue(clock: u64, floor: u64, last: u64): (m: u64)
    ensures floor < m <==> floor < MAX64
    ensures last < m <==> last < MAX64
    ensures clock <= m && (m == clock || m - 1 == floor || m - 1 == last || m == MAX64)
  {
    Max(Max(clock, SaturatingSucc(floor)), SaturatingSucc(last))
  }

  /** The process-wide watermark, used where minting is sequential. */
  class Watermark {
    var last: u64

    constructor ()
      ensures last == 0
    {
      last := 0;
    }

    method Mint(clock: u64, floor: u64) returns (minted: u64)
      modifies this
      ensures minted == last == MintValue(clock, floor, old(last))
      ensures old(last) < MAX64 ==> old(last) < minted
      ensures floor < MAX64 ==> floor < minted
    {
      last := Max(Max(clock, SaturatingSucc(floor)), SaturatingSucc(last));
      minted := last;
    }
  }

  // ---- Any number of threads -------------------------------------------------

  /** A thread inside `fetch_update`: its caller's floor and the watermark it last observed. */
  datatype Thread = Thread(floor: u64, seen: u64)

  datatype Minted = Minted(floor: u64, value: u64)

  /** `log` records the successful exchanges in the order they took effect. */
  datatype Clock = Clock(last: u64, threads: map<nat, Thread>, log: seq<Minted>)

  datatype Step =
    | Begin(tid: nat, floor: u64)
    | Exchange(tid: nat, clock: u64, spurious: bool)

  /** `Begin` loads the watermark. `Exchange` evaluates the closure and tries to swap it in; a thread that finds
      the watermark moved (or fails spuriously) retries from the value it found. */
  function Advance(s: Clock, step: Step): Clock {
    match step
    case Begin(tid, floor) =>
      s.(threads := s.threads[tid := Thread(floor, s.last)])
    case Exchange(tid, clock, spurious) =>
      if tid !in s.threads then s
      else
        var t := s.threads[tid];
        if spurious || s.last != t.seen then
          s.(threads := s.threads[tid := t.(seen := s.last)])
        else
          var minted := MintValue(clock, t.floor, t.seen);
          Clock(minted, s.threads - {tid}, s.log + [Minted(t.floor, minted)])
  }

  function Run(s: Clock, steps: seq<Step>): Clock
    decreases |steps|
  {
    if steps == [] then s else Advance(Run(s, steps[..|steps| - 1]), steps[|steps| - 1])
  }

  const Start := Clock(0, map[], [])

  /** The log rises, strictly while it is below the top, and its last value is the watermark. */
  ghost predicate Rising(s: Clock) {
    && (forall i :: 0 <= i < |s.log| ==> s.log[i].value <= s.last)
    && (forall i, j :: 0 <= i < j < |s.log| ==> (s.log[i].value < s.log[j].value <==> s.log[i].value < MAX64))
    && (forall i :: 0 <= i < |s.log| ==> (s.log[i].floor < s.log[i].value <==> s.log[i].floor < MAX64))
    && (s.log != [] ==> s.log[|s.log| - 1].value == s.last)
  }

  lemma StepKeepsRising(s: Clock, step: Step)
    requires Rising(s)
    ensures Rising(Advance(s, step))
  {
    if step.Exchange? && step.tid in s.threads && !step.spurious && s.last == s.threads[step.tid].seen {
      var s' := Advance(s, step);
      forall i, j | 0 <= i < j < |s'.log|
        ensures s'.log[i].value < s'.log[j].value <==> s'.log[i].value < MAX64
      {
        if j == |s.log| {
          assert s.log[i].value <= s.last;
        }
      }
    }
  }

  lemma {:induction false} RunKeepsRising(steps: seq<Step>)
    ensures Rising(Run(Start, steps))
    decreases |steps|
  {
    if steps != [] {
      var n := |steps| - 1;
      RunKeepsRising(steps[..n]);
      StepKeepsRising(Run(Start, steps[..n]), steps[n]);
    }
  }

  /** Over every schedule of every set of threads and every clock: an instant clears its caller's floor exactly
      when the floor is not already the greatest word, and two mints differ - the later one greater - exactly
      when the earlier one is not the greatest word. */
  lemma MintsAreDistinctAndClearTheirFloors(steps: seq<Step>, i: nat, j: nat)
    requires i < |Run(Start, steps).log|
    ensures var e := Run(Start, steps).log[i]; e.floor < e.value <==> e.floor < MAX64
    ensures i < j < |Run(Start, steps).log| ==>
              var log := Run(Start, steps).log; log[i].value < log[j].value <==> log[i].value < MAX64
  {
    RunKeepsRising(steps);
  }

  /** Saturation is reachable: once a mint has returned 2^64 - 1, the next one does too. */
  lemma SaturationRepeatsAnInstant()
    ensures exists steps :: |Run(Start, steps).log| == 2
                            && Run(Start, steps).log[0].value == Run(Start, steps).log[1].value
  {
    var a, b := [Begin(0, 0)], [Exchange(0, MAX64, false)];
    var c, d := [Begin(0, 0)], [Exchange(0, 0, false)];
    var two, three, four := a + b, a + b + c, a + b + c + d;
    assert Run(Start, []) == Start;
    assert a[..0] == [] && two[..1] == a && three[..2] == two && four[..3] == three;
    assert Run(Start, a) == Advance(Start, a[0]);
    assert Run(Start, two) == Advance(Run(Start, a), two[1]) == Clock(MAX64, map[], [Minted(0, MAX64)]);
    assert Run(Start, three) == Advance(Run(Start, two), three[2]);
    assert Run(Start, four).log == [Minted(0, MAX64), Minted(0, MAX64)];
  }
}
