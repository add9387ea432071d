/** n-grams, and how few of them an edit can destroy. */
module Grams {
  import opened Ids
  import opened Stores
  import opened Records
  import opened Keys
  import opened Levenshtein
  import opened LittleEndian

  type Word = x: int | 0 <= x < 0x1_0000_0000

  /** The pad: above every character. */
  const SENTINEL: Word := 0xFFFF_FFFF

  function Codes(s: string): seq<Word> {
    seq(|s|, i requires 0 <= i < |s| => s[i] as int)
  }

  function Pad(n: nat): seq<Word> {
    seq(n, _ => SENTINEL)
  }

  /** The characters between two pads, so that every character is in `n` windows. */
  function Padded(s: string, n: nat): seq<Word>
    requires n > 0
  {
    Pad(n - 1) + Codes(s) + Pad(n - 1)
  }

  /** The byte form of one window. */
  function WindowKey(w: seq<Word>): Bytes {
    if w == [] then [] else FourBytes(); BigEndian(4, w[0]) + WindowKey(w[1..])
  }

  lemma {:induction false} WindowKeyWidth(w: seq<Word>)
    ensures |WindowKey(w)| == 4 * |w|
  {
    FourBytes();
    if w != [] { WindowKeyWidth(w[1..]); }
  }

  /** The key of the window at `i`. */
  function GramAt(p: seq<Word>, n: nat, i: nat): Bytes
    requires i + n <= |p|
  {
    WindowKey(p[i..i + n])
  }

  /** The keys of the windows starting at `lo` up to `hi`. */
  function Windows(p: seq<Word>, n: nat, lo: nat, hi: nat): set<Bytes>
    requires hi + n <= |p| + 1
  {
    set i: nat | lo <= i < hi :: GramAt(p, n, i)
  }

  function WindowCount(p: seq<Word>, n: nat): nat {
    if n <= |p| then |p| + 1 - n else 0
  }

  function AllWindows(p: seq<Word>, n: nat): set<Bytes> {
    if n <= |p| then Windows(p, n, 0, WindowCount(p, n)) else {}
  }

  /** The distinct grams a value is filed under. */
  function Grams(s: string, n: nat): set<Bytes>
    requires n > 0
  {
    AllWindows(Padded(s, n), n)
  }

  /** `gram_prefixes`: one window at a time; a width of zero counts as one. */
  method GramPrefixes(s: string, width: nat) returns (out: set<Bytes>)
    ensures out == Grams(s, if width == 0 then 1 else width)
  {
    var n := if width == 0 then 1 else width;
    var p := Padded(s, n);
    out := {};
    var i := 0;
    while i + n <= |p|
      invariant 0 <= i <= WindowCount(p, n)
      invariant i + n <= |p| + 1 ==> out == Windows(p, n, 0, i)
      invariant i + n > |p| + 1 ==> out == {}
    {
      out := out + {GramAt(p, n, i)};
      i := i + 1;
    }
  }

  lemma GramWidth(s: string, n: nat, g: Bytes)
    requires n > 0 && g in Grams(s, n)
    ensures |g| == 4 * n
  {
    var p := Padded(s, n);
    var i: nat :| i < WindowCount(p, n) && g == GramAt(p, n, i);
    WindowKeyWidth(p[i..i + n]);
  }

  // ---- Counting -----------------------------------------------------------------------------------------

  lemma {:induction false} WindowsSize(p: seq<Word>, n: nat, lo: nat, hi: nat)
    requires lo <= hi && hi + n <= |p| + 1
    ensures |Windows(p, n, lo, hi)| <= hi - lo
    decreases hi
  {
    if lo < hi {
      WindowsSize(p, n, lo, hi - 1);
      assert Windows(p, n, lo, hi) == Windows(p, n, lo, hi - 1) + {GramAt(p, n, hi - 1)};
    } else {
      assert Windows(p, n, lo, hi) == {};
    }
  }

  lemma {:induction false} SubsetSize<T>(a: set<T>, b: set<T>)
    requires a <= b
    ensures |a| <= |b|
  {
    if a != {} {
      var x :| x in a;
      SubsetSize(a - {x}, b - {x});
    }
  }

  lemma UnionSize<T>(a: set<T>, b: set<T>)
    ensures |a + b| <= |a| + |b|
  {
  }

  lemma ShareSize<T>(a: set<T>, b: set<T>)
    ensures |a * b| + |a - b| == |a|
  {
  }

  // ---- One edit -------------------------------------------------------------------------------------------

  /** Replacing `u` by `v` between `a` and `b` keeps every window that touches neither `u` nor the seam. */
  lemma UntouchedWindow(a: seq<Word>, u: seq<Word>, v: seq<Word>, b: seq<Word>, n: nat, i: nat)
    requires n > 0 && i + n <= |a + u + b| && (i + n <= |a| || |a| + |u| <= i)
    ensures GramAt(a + u + b, n, i) in AllWindows(a + v + b, n)
  {
    var p, q := a + u + b, a + v + b;
    var j := if i + n <= |a| then i else i - |u| + |v|;
    assert p[i..i + n] == q[j..j + n];
    assert 0 <= j < WindowCount(q, n) && GramAt(p, n, i) == GramAt(q, n, j);
  }

  lemma LostWindows(a: seq<Word>, u: seq<Word>, v: seq<Word>, b: seq<Word>, n: nat)
    requires n > 0 && |u| <= 1 && n - 1 <= |a| && n - 1 <= |b|
    ensures |AllWindows(a + u + b, n) - AllWindows(a + v + b, n)| <= n
  {
    var p := a + u + b;
    var lost := AllWindows(p, n) - AllWindows(a + v + b, n);
    if n <= |p| {
      var lo, hi := |a| - (n - 1), |a| + |u|;
      forall g | g in lost ensures g in Windows(p, n, lo, hi) {
        var i: nat :| i < WindowCount(p, n) && g == GramAt(p, n, i);
        if !(lo <= i < hi) { UntouchedWindow(a, u, v, b, n, i); }
      }
      SubsetSize(lost, Windows(p, n, lo, hi));
      WindowsSize(p, n, lo, hi);
    }
  }

  lemma PaddedSplit(x: string, y: string, z: string, n: nat)
    requires n > 0
    ensures Padded(x + y + z, n) == (Pad(n - 1) + Codes(x)) + Codes(y) + (Codes(z) + Pad(n - 1))
  {
  }

  /** An edit replaces at most one character by at most one. */
  lemma EditSplices(s: string, e: Edit, x: string, y: string, y': string, z: string)
    requires FitsIn(s, e) && x == s[..e.at]
    requires y == if e.Ins? then "" else [s[e.at]]
    requires y' == if e.Del? then "" else [e.c]
    requires z == if e.Ins? then s[e.at..] else s[e.at + 1..]
    ensures s == x + y + z && Edited(s, e) == x + y' + z
  {
    match e
    case Ins(_, _) => assert x + y == x;
    case Del(_) => assert x + y' == x;
    case Sub(_, _) =>
  }

  /** One edit removes at most `n` distinct grams. */
  lemma EditLoses(s: string, e: Edit, n: nat)
    requires n > 0 && FitsIn(s, e)
    ensures Loses(s, Edited(s, e), n, n)
  {
    var x := s[..e.at];
    var y := if e.Ins? then "" else [s[e.at]];
    var y' := if e.Del? then "" else [e.c];
    var z := if e.Ins? then s[e.at..] else s[e.at + 1..];
    EditSplices(s, e, x, y, y', z);
    PaddedSplit(x, y, z, n);
    PaddedSplit(x, y', z, n);
    LostWindows(Pad(n - 1) + Codes(x), Codes(y), Codes(y'), Codes(z) + Pad(n - 1), n);
  }

  lemma LossesAdd<T>(a: set<T>, b: set<T>, c: set<T>)
    ensures |a - c| <= |a - b| + |b - c|
  {
    SubsetSize(a - c, (a - b) + (b - c));
    UnionSize(a - b, b - c);
  }

  lemma OneMore(n: nat, m: nat)
    ensures n * (m + 1) == n + n * m
  {
  }

  ghost predicate Loses(s: string, t: string, n: nat, m: int)
    requires n > 0
  {
    |Grams(s, n) - Grams(t, n)| <= m
  }

  lemma LosesThen(s: string, x: string, t: string, n: nat, m: nat)
    requires n > 0 && Loses(s, x, n, n) && Loses(x, t, n, n * m)
    ensures Loses(s, t, n, n * (m + 1))
  {
    LossesAdd(Grams(s, n), Grams(x, n), Grams(t, n));
    OneMore(n, m);
  }

  lemma LosesNothing(s: string, n: nat)
    requires n > 0
    ensures Loses(s, s, n, n * 0)
  {
  }

  lemma {:induction false} ScriptLoses(s: string, es: seq<Edit>, t: string, n: nat)
    requires n > 0 && Script(s, es, t)
    ensures Loses(s, t, n, n * |es|)
    decreases |es|
  {
    if es == [] {
      LosesNothing(s, n);
    } else {
      var x, rest := Edited(s, es[0]), es[1..];
      EditLoses(s, es[0], n);
      ScriptLoses(x, rest, t, n);
      LosesThen(s, x, t, n, |rest|);
      assert |es| == |rest| + 1;
    }
  }

  /** The q-gram lemma: a string within distance `k` shares all but `n * k` of the distinct grams. */
  lemma SharedGrams(q: string, s: string, n: nat, k: nat)
    requires n > 0 && Distance(q, s) <= k
    ensures |Grams(q, n) * Grams(s, n)| >= |Grams(q, n)| - n * k
  {
    DistanceIsLeastScript(q, s);
    var es :| |es| == Distance(q, s) && Script(q, es, s);
    ScriptLoses(q, es, s, n);
    ShareSize(Grams(q, n), Grams(s, n));
    Scale(n, |es|, k);
  }

  lemma Scale(n: nat, a: nat, b: nat)
    requires a <= b
    ensures n * a <= n * b
  {
  }
}
