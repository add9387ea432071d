/** When the distance search is complete: the counting argument is tight, by a text that spoils every gram of the query
    with as few edits as that takes. */
module FuzzyComplete {
  import opened Records
  import opened Levenshtein
  import G = Grams
  import F = FuzzySearch

  // ---- Remainders --------------------------------------------------------------------------------------

  lemma Scaled(n: nat, x: int, y: int)
    ensures x <= y ==> n * x <= n * y
  {
  }

  lemma NoMultipleBetween(n: int, d: int)
    requires n > 0 && -n < n * d < n
    ensures d == 0
  {
    Scaled(n, 1, d);
    Scaled(n, d, -1);
  }

  lemma DivMod(n: nat, a: nat, r: nat)
    requires r < n
    ensures (n * a + r) / n == a && (n * a + r) % n == r
  {
    var x := n * a + r;
    assert n * (x / n - a) == n * (x / n) - n * a;
    NoMultipleBetween(n, x / n - a);
  }

  // ---- The spoiled query -------------------------------------------------------------------------------

  /** Every `n`-th position, and the last. */
  predicate Marked(len: nat, n: nat, p: nat)
    requires n > 0
  {
    p % n == 0 || p == len - 1
  }

  function Spoiled(q: string, n: nat, c: char): string
    requires n > 0
  {
    seq(|q|, p requires 0 <= p < |q| => if Marked(|q|, n, p) then c else q[p])
  }

  /** A window that starts `n - 1` before position `i` has a marked position in it. */
  lemma MarkInWindow(len: nat, n: nat, i: nat) returns (p: nat)
    requires n > 0 && len > 0 && i < len + n - 1
    ensures p < len && p <= i < p + n && Marked(len, n, p)
  {
    if i < n {
      p := 0;
    } else if i >= len {
      p := len - 1;
    } else {
      p := n * (i / n);
      DivMod(n, i / n, 0);
    }
  }

  lemma SpoiledGram(q: string, n: nat, c: char, i: nat, j: nat)
    requires n > 0 && |q| > 0 && c !in q && i < |q| + n - 1 && j < |q| + n - 1
    ensures G.GramAt(G.Padded(Spoiled(q, n, c), n), n, i) != G.GramAt(G.Padded(q, n), n, j)
  {
    var t := Spoiled(q, n, c);
    var u, v := G.Padded(t, n), G.Padded(q, n);
    var p := MarkInWindow(|q|, n, i);
    var x := n - 1 + p - i;
    assert u[i + x] == t[p] as int == c as int;
    if n - 1 <= j + x < n - 1 + |q| {
      assert v[j + x] == q[j + x - (n - 1)] as int;
    } else {
      assert v[j + x] == G.SENTINEL;
    }
    F.WindowKeysDiffer(u[i..i + n], v[j..j + n], x);
  }

  lemma SpoiledSharesNothing(q: string, n: nat, c: char)
    requires n > 0 && |q| > 0 && c !in q
    ensures F.Shared(q, Spoiled(q, n, c), n) == {}
  {
    var t := Spoiled(q, n, c);
    var u, v := G.Padded(t, n), G.Padded(q, n);
    forall g | g in G.Grams(t, n) ensures g !in G.Grams(q, n) {
      var i: nat :| i < G.WindowCount(u, n) && g == G.GramAt(u, n, i);
      forall j: nat | j < G.WindowCount(v, n) ensures G.GramAt(v, n, j) != g { SpoiledGram(q, n, c, i, j); }
    }
  }

  // ---- What it costs -----------------------------------------------------------------------------------

  /** How many of the first `i` characters differ. */
  function Differ(a: string, b: string, i: nat): nat
    requires |a| == |b| && i <= |a|
  {
    if i == 0 then 0 else Differ(a, b, i - 1) + if a[i - 1] == b[i - 1] then 0 else 1
  }

  lemma {:induction false} DiagonalBound(a: string, b: string, d: Table, i: nat)
    requires |a| == |b| && i <= |a| && IsTable(a, b, d)
    ensures d(i, i) <= Differ(a, b, i)
  {
    assert CellIs(a, b, d, i, i);
    if i > 0 { DiagonalBound(a, b, d, i - 1); }
  }

  lemma DistanceAtMostDiffer(a: string, b: string)
    requires |a| == |b|
    ensures Distance(a, b) <= Differ(a, b, |a|)
  {
    TableOfIsTable(a, b);
    DiagonalBound(a, b, TableOf(a, b), |a|);
  }

  /** Below the last position, one in `n` differs. */
  lemma {:induction false} SpoiledBelow(q: string, n: nat, c: char, a: nat, r: nat)
    requires n > 0 && r < n && n * a + r < |q|
    ensures Differ(q, Spoiled(q, n, c), n * a + r) <= a + if r > 0 then 1 else 0
    decreases a, r
  {
    if r > 0 {
      SpoiledBelow(q, n, c, a, r - 1);
      DivMod(n, a, r - 1);
    } else if a > 0 {
      assert n * a == n * (a - 1) + n;
      SpoiledBelow(q, n, c, a - 1, n - 1);
      DivMod(n, a - 1, n - 1);
    }
  }

  lemma MarkCount(n: nat, len: nat, k: nat, a: nat, r: nat)
    requires r < n && len == n * a + r + 1 && len + n - 1 <= n * k
    ensures a + (if r > 0 then 1 else 0) + 1 <= k
  {
    var m := a + (if r > 0 then 1 else 0);
    assert n * m == n * a + if r > 0 then n else 0;
    assert n * m < n * k;
    Scaled(n, k, m);
  }

  lemma LastSplits(n: nat, last: nat)
    requires n > 0
    ensures last == n * (last / n) + last % n && last % n < n
  {
  }

  lemma SpoiledIsNear(q: string, n: nat, c: char, k: nat)
    requires n > 0 && |q| > 0 && |q| + n - 1 <= n * k
    ensures Distance(q, Spoiled(q, n, c)) <= k
  {
    var last := |q| - 1;
    var a, r := last / n, last % n;
    LastSplits(n, last);
    SpoiledBelow(q, n, c, a, r);
    MarkCount(n, |q|, k, a, r);
    OneMore(q, Spoiled(q, n, c));
    DistanceAtMostDiffer(q, Spoiled(q, n, c));
  }

  lemma OneMore(a: string, b: string)
    requires |a| == |b| > 0
    ensures Differ(a, b, |a|) <= Differ(a, b, |a| - 1) + 1
  {
  }

  // ---- Exactly when ------------------------------------------------------------------------------------

  /** With no more windows than `n * k`, some text in range shares no gram with the query. */
  lemma FewWindowsMiss(q: string, n: nat, k: nat, c: char)
    requires n > 0 && |q| > 0 && c !in q && |q| + n - 1 <= n * k
    ensures Distance(q, Spoiled(q, n, c)) <= k && F.Shared(q, Spoiled(q, n, c), n) == {}
  {
    SpoiledIsNear(q, n, c, k);
    SpoiledSharesNothing(q, n, c);
  }

  /** Where no window of the query repeats, every text in range shares a gram exactly when there are more than `n * k`. */
  lemma CompleteIff(q: string, n: nat, k: nat, c: char)
    requires n > 0 && |q| > 0 && c !in q && |G.Grams(q, n)| == |q| + n - 1
    ensures (forall text :: Distance(q, text) <= k ==> F.Shared(q, text, n) != {}) <==> |G.Grams(q, n)| > n * k
  {
    if |G.Grams(q, n)| > n * k {
      forall text | Distance(q, text) <= k ensures F.Shared(q, text, n) != {} {
        F.ExactWhenGramsExceed(q, text, n, k);
      }
    } else {
      FewWindowsMiss(q, n, k, c);
    }
  }
}
