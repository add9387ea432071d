/** Edit distance: the banded computation, the recurrence it must agree with, and what the recurrence means. */
module Levenshtein {
  import opened Ids
  import opened Stores

  function Min(a: nat, b: nat): nat {
    if a < b then a else b
  }

  /** The distance between the first `i` characters of `a` and the first `j` of `b`. */
  function Dist(a: string, b: string, i: nat, j: nat): nat
    requires i <= |a| && j <= |b|
    decreases i + j
  {
    if i == 0 then j
    else if j == 0 then i
    else Best(a[i - 1] == b[j - 1], Dist(a, b, i - 1, j - 1), Dist(a, b, i, j - 1), Dist(a, b, i - 1, j))
  }

  function Best(same: bool, diagonal: nat, left: nat, up: nat): nat {
    Min(diagonal + if same then 0 else 1, Min(left, up) + 1)
  }

  function Distance(a: string, b: string): nat {
    Dist(a, b, |a|, |b|)
  }

  // ---- Tables: the recurrence, one cell at a time -----------------------------------------------------

  type Table = (nat, nat) -> nat

  ghost predicate CellIs(a: string, b: string, d: Table, i: nat, j: nat)
    requires i <= |a| && j <= |b|
  {
    d(i, j) == if i == 0 then j
               else if j == 0 then i
               else Best(a[i - 1] == b[j - 1], d(i - 1, j - 1), d(i, j - 1), d(i - 1, j))
  }

  ghost predicate IsTable(a: string, b: string, d: Table) {
    forall i: nat, j: nat :: i <= |a| && j <= |b| ==> CellIs(a, b, d, i, j)
  }

  function TableOf(a: string, b: string): Table {
    (i: nat, j: nat) => if i <= |a| && j <= |b| then Dist(a, b, i, j) else 0
  }

  lemma TableOfIsTable(a: string, b: string)
    ensures IsTable(a, b, TableOf(a, b)) && TableOf(a, b)(|a|, |b|) == Distance(a, b)
  {
  }

  lemma {:induction false} Symmetric(a: string, b: string, d: Table, e: Table, i: nat, j: nat)
    requires i <= |a| && j <= |b| && IsTable(a, b, d) && IsTable(b, a, e)
    ensures d(i, j) == e(j, i)
    decreases i + j
  {
    assert CellIs(a, b, d, i, j) && CellIs(b, a, e, j, i);
    if i > 0 && j > 0 {
      Symmetric(a, b, d, e, i - 1, j - 1);
      Symmetric(a, b, d, e, i, j - 1);
      Symmetric(a, b, d, e, i - 1, j);
    }
  }

  lemma {:induction false} Bounds(a: string, b: string, d: Table, i: nat, j: nat)
    requires i <= |a| && j <= |b| && IsTable(a, b, d)
    ensures i - j <= d(i, j) && j - i <= d(i, j) && (d(i, j) <= i || d(i, j) <= j)
    decreases i + j
  {
    assert CellIs(a, b, d, i, j);
    if i > 0 && j > 0 {
      Bounds(a, b, d, i - 1, j - 1);
      Bounds(a, b, d, i, j - 1);
      Bounds(a, b, d, i - 1, j);
    }
  }

  /** Once a whole row is over budget, no later cell comes back under. */
  lemma {:induction false} RowBound(a: string, b: string, d: Table, k: nat, row: nat, i: nat, j: nat)
    requires i <= |a| && row <= j <= |b| && IsTable(a, b, d)
    requires forall x: nat :: x <= |a| ==> d(x, row) > k
    ensures d(i, j) > k
    decreases i + j
  {
    if j > row {
      assert CellIs(a, b, d, i, j);
      if i == 0 {
        assert CellIs(a, b, d, 0, row) && d(0, row) > k;
      } else {
        RowBound(a, b, d, k, row, i - 1, j - 1);
        RowBound(a, b, d, k, row, i, j - 1);
        RowBound(a, b, d, k, row, i - 1, j);
      }
    }
  }

  // ---- The banded computation ------------------------------------------------------------------------

  function SatAdd(a: nat, b: nat): nat {
    if a + b > MAX64 then MAX64 else a + b
  }

  /** A cell may overestimate, but not when the true distance is within budget. */
  ghost predicate CellOk(d: Table, k: nat, i: nat, j: nat, v: nat) {
    d(i, j) <= v <= MAX64 && (d(i, j) <= k ==> v == d(i, j))
  }

  function Cell(sub: nat, del: nat, ins: nat, same: bool): nat {
    Min(Min(SatAdd(sub, if same then 0 else 1), SatAdd(del, 1)), SatAdd(ins, 1))
  }

  lemma CellStep(a: string, b: string, d: Table, k: nat, i: nat, j: nat, sub: nat, del: nat, ins: nat)
    requires 0 < i <= |a| <= MAX64 && 0 < j <= |b| <= MAX64 && IsTable(a, b, d)
    requires CellOk(d, k, i - 1, j - 1, sub) && CellOk(d, k, i, j - 1, del) && CellOk(d, k, i - 1, j, ins)
    ensures CellOk(d, k, i, j, Cell(sub, del, ins, a[i - 1] == b[j - 1]))
  {
    assert CellIs(a, b, d, i, j);
    Bounds(a, b, d, i, j);
  }

  lemma OutsideBand(a: string, b: string, d: Table, k: nat, i: nat, j: nat)
    requires i <= |a| <= MAX64 && j <= |b| <= MAX64 && (i + k < j || j + k < i) && IsTable(a, b, d)
    ensures CellOk(d, k, i, j, MAX64)
  {
    Bounds(a, b, d, i, j);
  }

  lemma OverBudget(a: string, b: string, d: Table, k: nat, row: nat, cells: seq<nat>)
    requires IsTable(a, b, d) && row <= |b| && |cells| == |a| + 1
    requires forall x: nat :: x <= |a| ==> CellOk(d, k, x, row, cells[x]) && cells[x] > k
    ensures d(|a|, |b|) > k
  {
    forall x: nat | x <= |a| ensures d(x, row) > k { assert CellOk(d, k, x, row, cells[x]); }
    RowBound(a, b, d, k, row, |a|, |b|);
  }

  /** What arithmetic on machine words gives: a value, or an overflow. */
  datatype Checked<T> = Overflow | Fine(value: T)

  /** More 4-byte characters than a slice can hold. */
  const SLICE_LIMIT: nat := 0x2000_0000_0000_0000

  /** One row of the table. */
  method Row(a: string, b: string, ghost d: Table, k: nat, j: nat, prev: array<nat>, cur: array<nat>) returns (best: nat)
    requires prev != cur && prev.Length == cur.Length == |a| + 1 && |a| <= MAX64 && j < |b| <= MAX64 && j + 1 + k <= MAX64
    requires IsTable(a, b, d)
    requires forall i: nat :: i <= |a| ==> CellOk(d, k, i, j, prev[i])
    modifies cur
    ensures forall i: nat :: i <= |a| ==> CellOk(d, k, i, j + 1, cur[i])
    ensures forall i :: 1 <= i <= |a| ==> best <= cur[i]
    ensures cur[0] == j + 1
  {
    cur[0] := j + 1;
    assert CellIs(a, b, d, 0, j + 1);
    var lo := if j + 1 > k then j + 1 - k else 0;
    var hi := Min(j + 1 + k, |a|);
    best := MAX64;
    var i := 1;
    while i <= |a|
      invariant 1 <= i <= |a| + 1 && cur[0] == j + 1
      invariant forall x: nat :: x < i ==> CellOk(d, k, x, j + 1, cur[x])
      invariant forall x :: 1 <= x < i ==> best <= cur[x]
    {
      if i < lo || i > hi {
        OutsideBand(a, b, d, k, i, j + 1);
        cur[i] := MAX64;
      } else {
        CellStep(a, b, d, k, i, j + 1, prev[i - 1], prev[i], cur[i - 1]);
        cur[i] := Cell(prev[i - 1], prev[i], cur[i - 1], a[i - 1] == b[j]);
      }
      best := Min(best, cur[i]);
      i := i + 1;
    }
  }

  /** The loop over rows, with the shorter string along the row. */
  method Banded(a: string, b: string, k: u64) returns (r: Checked<Option<nat>>)
    requires |a| <= |b| < SLICE_LIMIT
    ensures r.Overflow? <==> |b| > 0 && |b| + k > MAX64
    ensures r.Fine? ==> r.value == if Distance(a, b) <= k then Some(Distance(a, b)) else None
  {
    ghost var d := TableOf(a, b);
    TableOfIsTable(a, b);
    var prev := new nat[|a| + 1](i => i);
    var cur := new nat[|a| + 1](_ => 0);
    forall i: nat | i <= |a| ensures CellOk(d, k, i, 0, prev[i]) { assert CellIs(a, b, d, i, 0); }
    var j := 0;
    while j < |b|
      invariant 0 <= j <= |b| && prev != cur && fresh(prev) && fresh(cur) && prev.Length == cur.Length == |a| + 1
      invariant forall i: nat :: i <= |a| ==> CellOk(d, k, i, j, prev[i])
      invariant j > 0 ==> j + k <= MAX64
    {
      if j + 1 + k > MAX64 { return Overflow; }
      var best := Row(a, b, d, k, j, prev, cur);
      if best > k && cur[0] > k {
        OverBudget(a, b, d, k, j + 1, cur[..]);
        return Fine(None);
      }
      prev, cur := cur, prev;
      j := j + 1;
    }
    assert CellOk(d, k, |a|, |b|, prev[|a|]);
    var v := prev[|a|];
    return Fine(if v <= k then Some(v) else None);
  }

  /** `levenshtein_within`: the distance exactly when it is within the budget; the band overflows exactly when the
      longer length and the budget do. */
  method LevenshteinWithin(a: string, b: string, k: u64) returns (r: Checked<Option<nat>>)
    requires |a| < SLICE_LIMIT && |b| < SLICE_LIMIT
    ensures var longer := if |a| < |b| then |b| else |a|;
            r.Overflow? <==> longer > 0 && longer + k > MAX64
    ensures r.Fine? ==> r.value == if Distance(a, b) <= k then Some(Distance(a, b)) else None
  {
    DistanceFacts(a, b);
    if (if |a| < |b| then |b| - |a| else |a| - |b|) > k { return Fine(None); }
    if |a| <= |b| { r := Banded(a, b, k); } else { r := Banded(b, a, k); }
  }

  lemma DistanceFacts(a: string, b: string)
    ensures Distance(a, b) == Distance(b, a)
    ensures |a| - |b| <= Distance(a, b) && |b| - |a| <= Distance(a, b)
  {
    TableOfIsTable(a, b);
    TableOfIsTable(b, a);
    Bounds(a, b, TableOf(a, b), |a|, |b|);
    Symmetric(a, b, TableOf(a, b), TableOf(b, a), |a|, |b|);
  }

  // ---- What the distance means ---------------------------------------------------------------------------

  /** A single-character edit. */
  datatype Edit = Ins(at: nat, c: char) | Del(at: nat) | Sub(at: nat, c: char)

  predicate FitsIn(s: string, e: Edit) {
    if e.Ins? then e.at <= |s| else e.at < |s|
  }

  function Edited(s: string, e: Edit): string
    requires FitsIn(s, e)
  {
    match e
    case Ins(p, c) => s[..p] + [c] + s[p..]
    case Del(p) => s[..p] + s[p + 1..]
    case Sub(p, c) => s[..p] + [c] + s[p + 1..]
  }

  /** The script `es` takes `s` to `t`. */
  predicate Script(s: string, es: seq<Edit>, t: string)
    decreases |es|
  {
    if es == [] then s == t else FitsIn(s, es[0]) && Script(Edited(s, es[0]), es[1..], t)
  }

  lemma {:induction false} ScriptThen(s: string, es: seq<Edit>, t: string, e: Edit)
    requires Script(s, es, t) && FitsIn(t, e)
    ensures Script(s, es + [e], Edited(t, e))
    decreases |es|
  {
    if es == [] {
      assert [e][1..] == [];
    } else {
      ScriptThen(Edited(s, es[0]), es[1..], t, e);
      assert (es + [e])[1..] == es[1..] + [e];
    }
  }

  lemma EditedBefore(s: string, e: Edit, tail: string)
    requires FitsIn(s, e)
    ensures FitsIn(s + tail, e) && Edited(s + tail, e) == Edited(s, e) + tail
  {
    assert (s + tail)[..e.at] == s[..e.at];
    assert (s + tail)[e.at..] == s[e.at..] + tail;
    if !e.Ins? { assert (s + tail)[e.at + 1..] == s[e.at + 1..] + tail; }
  }

  /** A script works the same in front of any tail. */
  lemma {:induction false} ScriptBefore(s: string, es: seq<Edit>, t: string, tail: string)
    requires Script(s, es, t)
    ensures Script(s + tail, es, t + tail)
    decreases |es|
  {
    if es != [] {
      EditedBefore(s, es[0], tail);
      ScriptBefore(Edited(s, es[0]), es[1..], t, tail);
    }
  }

  lemma DelLast(s: string, c: char)
    ensures Edited(s + [c], Del(|s|)) == s
  {
  }

  lemma InsLast(s: string, c: char)
    ensures Edited(s, Ins(|s|, c)) == s + [c]
  {
  }

  lemma SubLast(s: string, c: char, c': char)
    ensures Edited(s + [c], Sub(|s|, c')) == s + [c']
  {
  }

  /** Some script of `n` edits takes `s` to `t`. */
  ghost predicate Reaches(s: string, t: string, n: nat) {
    exists es :: |es| == n && Script(s, es, t)
  }

  /** `s'` is `s` and one more character. */
  ghost predicate Extends(s: string, s': string) {
    |s'| == |s| + 1 && s'[..|s|] == s
  }

  lemma Extended(s: string, s': string)
    requires Extends(s, s')
    ensures s' == s + [s'[|s|]]
  {
  }

  lemma ThenDelete(s: string, fs: seq<Edit>, t: string, s': string) returns (es: seq<Edit>)
    requires Script(s, fs, t) && Extends(s, s')
    ensures |es| == |fs| + 1 && Script(s', es, t)
  {
    var c := s'[|s|];
    Extended(s, s');
    ScriptBefore(s, fs, t, [c]);
    ScriptThen(s', fs, t + [c], Del(|t|));
    DelLast(t, c);
    es := fs + [Del(|t|)];
  }

  lemma ThenInsert(s: string, fs: seq<Edit>, t: string, t': string) returns (es: seq<Edit>)
    requires Script(s, fs, t) && Extends(t, t')
    ensures |es| == |fs| + 1 && Script(s, es, t')
  {
    var c := t'[|t|];
    Extended(t, t');
    ScriptThen(s, fs, t, Ins(|t|, c));
    InsLast(t, c);
    es := fs + [Ins(|t|, c)];
  }

  lemma ThenMatch(s: string, fs: seq<Edit>, t: string, s': string, t': string) returns (es: seq<Edit>)
    requires Script(s, fs, t) && Extends(s, s') && Extends(t, t')
    ensures |es| == |fs| + (if s'[|s|] == t'[|t|] then 0 else 1) && Script(s', es, t')
  {
    var c, c' := s'[|s|], t'[|t|];
    Extended(s, s');
    Extended(t, t');
    ScriptBefore(s, fs, t, [c]);
    es := fs;
    if c != c' {
      ScriptThen(s', fs, t + [c], Sub(|t|, c'));
      SubLast(t, c, c');
      es := fs + [Sub(|t|, c')];
    }
  }

  /** The cell a cell's cost came from. */
  lemma Predecessor(a: string, b: string, d: Table, i: nat, j: nat) returns (x: nat, y: nat)
    requires i <= |a| && j <= |b| && i + j > 0 && IsTable(a, b, d)
    ensures || (x + 1 == i && y == j && d(i, j) == d(x, y) + 1)
            || (x == i && y + 1 == j && d(i, j) == d(x, y) + 1)
            || (x + 1 == i && y + 1 == j && d(i, j) == d(x, y) + if a[x] == b[y] then 0 else 1)
  {
    assert CellIs(a, b, d, i, j);
    if j == 0 {
      assert CellIs(a, b, d, i - 1, 0);
      return i - 1, 0;
    }
    if i == 0 {
      assert CellIs(a, b, d, 0, j - 1);
      return 0, j - 1;
    }
    if d(i, j) == d(i - 1, j) + 1 { return i - 1, j; }
    if d(i, j) == d(i, j - 1) + 1 { return i, j - 1; }
    return i - 1, j - 1;
  }

  /** The distance is reached by a script of that many edits. */
  lemma {:induction false} ShortestScript(a: string, b: string, d: Table, i: nat, j: nat) returns (es: seq<Edit>)
    requires i <= |a| && j <= |b| && IsTable(a, b, d)
    ensures |es| == d(i, j) && Script(a[..i], es, b[..j])
    decreases i + j
  {
    if i + j == 0 {
      assert CellIs(a, b, d, 0, 0);
      return [];
    }
    var x, y := Predecessor(a, b, d, i, j);
    var fs := ShortestScript(a, b, d, x, y);
    assert x < i ==> Extends(a[..x], a[..i]);
    assert y < j ==> Extends(b[..y], b[..j]);
    if y == j {
      es := ThenDelete(a[..x], fs, b[..y], a[..i]);
    } else if x == i {
      es := ThenInsert(a[..x], fs, b[..y], b[..j]);
    } else {
      es := ThenMatch(a[..x], fs, b[..y], a[..i], b[..j]);
    }
  }

  // ---- No script is shorter ------------------------------------------------------------------------------

  /** Neighbouring cells of a row differ by at most one. */
  lemma {:induction false} Neighbours(a: string, b: string, d: Table, i: nat, j: nat)
    requires i <= |a| && j < |b| && IsTable(a, b, d)
    ensures d(i, j + 1) <= d(i, j) + 1 && d(i, j) <= d(i, j + 1) + 1
    decreases i
  {
    assert CellIs(a, b, d, i, j + 1) && CellIs(a, b, d, i, j);
    if i > 0 {
      assert CellIs(a, b, d, i - 1, j);
      Neighbours(a, b, d, i - 1, j);
    }
  }

  /** A table depends only on the characters before its cell. */
  lemma {:induction false} PrefixOnly(a: string, b: string, c: string, d: Table, e: Table, i: nat, j: nat)
    requires i <= |a| && j <= |b| && j <= |c| && b[..j] == c[..j] && IsTable(a, b, d) && IsTable(a, c, e)
    ensures d(i, j) == e(i, j)
    decreases i + j
  {
    assert CellIs(a, b, d, i, j) && CellIs(a, c, e, i, j);
    if i > 0 && j > 0 {
      assert b[..j][j - 1] == c[..j][j - 1];
      assert b[..j - 1] == b[..j][..j - 1] && c[..j - 1] == c[..j][..j - 1];
      PrefixOnly(a, b, c, d, e, i - 1, j - 1);
      PrefixOnly(a, b, c, d, e, i, j - 1);
      PrefixOnly(a, b, c, d, e, i - 1, j);
    }
  }

  /** `t` is `s` with one character put in at `p`. */
  ghost predicate Longer(s: string, t: string, p: nat) {
    p <= |s| && |t| == |s| + 1 && s[..p] == t[..p] && forall x :: p <= x < |s| ==> s[x] == t[x + 1]
  }

  lemma {:induction false} InsertedCells(a: string, s: string, t: string, p: nat, d: Table, e: Table, i: nat, j: nat)
    requires Longer(s, t, p) && i <= |a| && p <= j <= |s| && IsTable(a, s, d) && IsTable(a, t, e)
    ensures e(i, j + 1) <= d(i, j) + 1 && d(i, j) <= e(i, j + 1) + 1
    decreases i + j
  {
    if j == p {
      assert s[..p] == t[..p];
      PrefixOnly(a, s, t, d, e, i, p);
      Neighbours(a, t, e, i, p);
    } else {
      assert CellIs(a, s, d, i, j) && CellIs(a, t, e, i, j + 1) && s[j - 1] == t[j];
      if i > 0 {
        InsertedCells(a, s, t, p, d, e, i - 1, j - 1);
        InsertedCells(a, s, t, p, d, e, i, j - 1);
        InsertedCells(a, s, t, p, d, e, i - 1, j);
      }
    }
  }

  lemma {:induction false} SubstitutedCells(a: string, s: string, t: string, p: nat, d: Table, e: Table, i: nat, j: nat)
    requires p < |s| == |t| && s[..p] == t[..p] && (forall x :: p < x < |s| ==> s[x] == t[x])
    requires i <= |a| && p < j <= |s| && IsTable(a, s, d) && IsTable(a, t, e)
    ensures e(i, j) <= d(i, j) + 1
    decreases i + j
  {
    assert CellIs(a, s, d, i, j) && CellIs(a, t, e, i, j);
    if i > 0 {
      SubstitutedCells(a, s, t, p, d, e, i - 1, j);
      if j == p + 1 {
        PrefixOnly(a, s, t, d, e, i, p);
        PrefixOnly(a, s, t, d, e, i - 1, p);
      } else {
        assert s[j - 1] == t[j - 1];
        SubstitutedCells(a, s, t, p, d, e, i - 1, j - 1);
        SubstitutedCells(a, s, t, p, d, e, i, j - 1);
      }
    }
  }

  lemma OneEdit(a: string, s: string, e: Edit)
    requires FitsIn(s, e)
    ensures Distance(a, Edited(s, e)) <= Distance(a, s) + 1
  {
    var t := Edited(s, e);
    TableOfIsTable(a, s);
    TableOfIsTable(a, t);
    var d, d' := TableOf(a, s), TableOf(a, t);
    match e
    case Ins(p, _) => InsertedCells(a, s, t, p, d, d', |a|, |s|);
    case Del(p) =>
      assert s[..p] == t[..p];
      InsertedCells(a, t, s, p, d', d, |a|, |t|);
    case Sub(p, _) =>
      assert s[..p] == t[..p];
      SubstitutedCells(a, s, t, p, d, d', |a|, |s|);
  }

  lemma {:induction false} NoShorterScript(a: string, s: string, es: seq<Edit>, t: string)
    requires Script(s, es, t)
    ensures Distance(a, t) <= Distance(a, s) + |es|
    decreases |es|
  {
    if es != [] {
      OneEdit(a, s, es[0]);
      NoShorterScript(a, Edited(s, es[0]), es[1..], t);
    }
  }

  lemma {:induction false} DistanceToSelf(a: string, d: Table, i: nat)
    requires i <= |a| && IsTable(a, a, d)
    ensures d(i, i) == 0
  {
    assert CellIs(a, a, d, i, i);
    if i > 0 { DistanceToSelf(a, d, i - 1); }
  }

  /** The distance is the least number of single-character edits that turn one string into the other. */
  lemma DistanceIsLeastScript(a: string, b: string)
    ensures Reaches(a, b, Distance(a, b))
    ensures forall n :: Reaches(a, b, n) ==> Distance(a, b) <= n
  {
    TableOfIsTable(a, b);
    TableOfIsTable(a, a);
    var shortest := ShortestScript(a, b, TableOf(a, b), |a|, |b|);
    assert a[..|a|] == a && b[..|b|] == b;
    forall n | Reaches(a, b, n) ensures Distance(a, b) <= n {
      var es :| |es| == n && Script(a, es, b);
      NoShorterScript(a, a, es, b);
      DistanceToSelf(a, TableOf(a, a), |a|);
    }
  }
}
