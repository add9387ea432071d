/** Fuzzy lookup by edit distance: counting filter, length filter, exact verification, ranking. */
module FuzzySearch {
  import opened Ids
  import opened Stores
  import opened Records
  import opened Keys
  import opened Collections
  import opened CollectionAgreement
  import opened Levenshtein
  import LittleEndian
  import G = Grams

  const LEN_CAP: nat := 255

  function Saturated(len: nat): byte {
    if len > LEN_CAP then 255 else len
  }

  /** A posting's field: the gram, then the saturated length of the indexed value. */
  function FieldKey(prefix: Bytes, len: nat): Bytes {
    prefix + [Saturated(len)]
  }

  function KeyLen(field: Bytes): nat {
    if field == [] then 0 else field[|field| - 1]
  }

  function LengthGap(queryLen: nat, stored: nat): nat {
    var q, s := Saturated(queryLen), Min(stored, LEN_CAP);
    if q < s then s - q else q - s
  }

  function SaturatingSub(a: nat, b: nat): nat {
    if a < b then 0 else a - b
  }

  /** The index holds exactly one posting per distinct gram of each living record's text. */
  ghost predicate Posted(tree: set<SecKey>, texts: map<LocalId, string>, n: nat)
    requires n > 0
  {
    forall k :: k in tree <==> k.rec in texts && IsPosting(k.field, texts[k.rec], n)
  }

  ghost predicate IsPosting(field: Bytes, text: string, n: nat)
    requires n > 0
  {
    |field| > 0 && field[..|field| - 1] in G.Grams(text, n) && field[|field| - 1] == Saturated(|text|)
  }

  function Shared(q: string, text: string, n: nat): set<Bytes>
    requires n > 0
  {
    G.Grams(q, n) * G.Grams(text, n)
  }

  // ---- The filters are sound ------------------------------------------------------------------------------

  lemma GapIsWithinDistance(q: string, text: string, k: nat)
    requires Distance(q, text) <= k
    ensures LengthGap(|q|, Saturated(|text|)) <= k
  {
    DistanceFacts(q, text);
  }

  /** Up to the cap, the gap the key bytes tell is the difference of the lengths. */
  lemma GapIsDifference(q: string, text: string)
    requires |q| <= LEN_CAP && |text| <= LEN_CAP
    ensures LengthGap(|q|, KeyLen(FieldKey([], |text|))) == if |q| < |text| then |text| - |q| else |q| - |text|
  {
  }

  lemma CountIsEnough(q: string, text: string, n: nat, k: nat)
    requires n > 0 && Distance(q, text) <= k
    ensures |Shared(q, text, n)| >= |G.Grams(q, n)| - n * k
  {
    G.SharedGrams(q, text, n, k);
  }

  // ---- Counting shared grams -------------------------------------------------------------------------------

  datatype Candidate = Candidate(shared: nat, len: nat)

  /** The counts after the grams in `done` have been looked up. */
  ghost predicate Counted(seen: map<LocalId, Candidate>, texts: map<LocalId, string>, done: set<Bytes>, n: nat)
    requires n > 0
  {
    forall rec :: EntryOk(seen, texts, rec, done, n)
  }

  /** One record's count over some of the query's grams; a record sharing none has no entry. */
  ghost predicate EntryOk(seen: map<LocalId, Candidate>, texts: map<LocalId, string>, rec: LocalId, grams: set<Bytes>, n: nat)
    requires n > 0
  {
    && (rec in seen <==> rec in texts && grams * G.Grams(texts[rec], n) != {})
    && (rec in seen ==> seen[rec] == Candidate(|grams * G.Grams(texts[rec], n)|, Saturated(|texts[rec]|)))
  }

  /** What one gram's prefix scan answers: its postings, one per record that has it. */
  lemma ScanAnswers(tree: set<SecKey>, texts: map<LocalId, string>, n: nat, g: Bytes, k: SecKey)
    requires n > 0 && Posted(tree, texts, n) && |g| == 4 * n
    ensures k in tree && g <= k.field <==>
            k.rec in texts && g in G.Grams(texts[k.rec], n) && k.field == FieldKey(g, |texts[k.rec]|)
  {
    if k in tree && g <= k.field {
      var head := k.field[..|k.field| - 1];
      G.GramWidth(texts[k.rec], n, head);
      assert head == k.field[..|g|] == g;
      assert k.field == head + [k.field[|k.field| - 1]];
    }
    if k.rec in texts && g in G.Grams(texts[k.rec], n) && k.field == FieldKey(g, |texts[k.rec]|) {
      assert k.field[..|k.field| - 1] == g;
    }
  }

  /** The records a scan has counted so far. */
  ghost predicate Partly(seen: map<LocalId, Candidate>, texts: map<LocalId, string>, done: set<Bytes>, g: Bytes,
                         hit: set<LocalId>, n: nat)
    requires n > 0
  {
    forall rec :: EntryOk(seen, texts, rec, Upto(done, g, rec in hit), n)
  }

  function Upto(done: set<Bytes>, g: Bytes, counted: bool): set<Bytes> {
    if counted then done + {g} else done
  }

  function Bump(seen: map<LocalId, Candidate>, k: SecKey): map<LocalId, Candidate> {
    seen[k.rec := if k.rec in seen then seen[k.rec].(shared := seen[k.rec].shared + 1) else Candidate(1, KeyLen(k.field))]
  }

  lemma BumpCounts(seen: map<LocalId, Candidate>, texts: map<LocalId, string>, done: set<Bytes>, g: Bytes,
                   hit: set<LocalId>, n: nat, k: SecKey)
    requires n > 0 && Partly(seen, texts, done, g, hit, n) && g !in done && k.rec !in hit
    requires k.rec in texts && g in G.Grams(texts[k.rec], n) && k.field == FieldKey(g, |texts[k.rec]|)
    ensures Partly(Bump(seen, k), texts, done, g, hit + {k.rec}, n)
  {
    forall rec ensures EntryOk(Bump(seen, k), texts, rec, Upto(done, g, rec in hit + {k.rec}), n) {
      assert EntryOk(seen, texts, rec, Upto(done, g, rec in hit), n);
      if rec == k.rec { OneMoreShared(done, g, G.Grams(texts[rec], n)); }
    }
  }

  lemma OneMoreShared(done: set<Bytes>, g: Bytes, gs: set<Bytes>)
    requires g !in done && g in gs
    ensures |(done + {g}) * gs| == |done * gs| + 1 && (done + {g}) * gs != {} && (done * gs == {} ==> |done * gs| == 0)
  {
    assert (done + {g}) * gs == (done * gs) + {g};
  }

  lemma ScanComplete(seen: map<LocalId, Candidate>, texts: map<LocalId, string>, done: set<Bytes>, g: Bytes,
                     hit: set<LocalId>, n: nat)
    requires n > 0 && Partly(seen, texts, done, g, hit, n)
    requires forall rec :: rec in texts && g in G.Grams(texts[rec], n) ==> rec in hit
    ensures Counted(seen, texts, done + {g}, n)
  {
    forall rec ensures EntryOk(seen, texts, rec, done + {g}, n) {
      assert EntryOk(seen, texts, rec, Upto(done, g, rec in hit), n);
      if rec in texts {
        assert Upto(done, g, rec in hit) * G.Grams(texts[rec], n) == (done + {g}) * G.Grams(texts[rec], n);
      }
    }
  }

  /** One gram's postings, merged into the counts. */
  method Scan(tree: set<SecKey>, ghost texts: map<LocalId, string>, n: nat, ghost done: set<Bytes>, g: Bytes,
              seen: map<LocalId, Candidate>) returns (out: map<LocalId, Candidate>)
    requires n > 0 && Posted(tree, texts, n) && |g| == 4 * n && g !in done && Counted(seen, texts, done, n)
    ensures Counted(out, texts, done + {g}, n)
  {
    var keys := set k | k in tree && g <= k.field;
    ghost var all := keys;
    ghost var hit: set<LocalId> := {};
    out := seen;
    while keys != {}
      invariant keys <= all && Partly(out, texts, done, g, hit, n)
      invariant forall k :: k in all ==> (k in keys <==> k.rec !in hit)
      decreases |keys|
    {
      var k :| k in keys;
      ScanAnswers(tree, texts, n, g, k);
      BumpCounts(out, texts, done, g, hit, n, k);
      forall j | j in all && j.rec == k.rec ensures j == k { ScanAnswers(tree, texts, n, g, j); }
      out := Bump(out, k);
      hit := hit + {k.rec};
      keys := keys - {k};
    }
    forall rec | rec in texts && g in G.Grams(texts[rec], n) ensures rec in hit {
      var k := SecKey(FieldKey(g, |texts[rec]|), rec);
      ScanAnswers(tree, texts, n, g, k);
      assert k in all;
    }
    ScanComplete(out, texts, done, g, hit, n);
  }

  /** Steps 1 and 2: every gram of the query, one scan each. */
  method CountShared(tree: set<SecKey>, ghost texts: map<LocalId, string>, q: string, n: nat, grams: set<Bytes>)
    returns (seen: map<LocalId, Candidate>)
    requires n > 0 && Posted(tree, texts, n) && grams == G.Grams(q, n)
    ensures Counted(seen, texts, grams, n)
  {
    var rest := grams;
    seen := map[];
    while rest != {}
      invariant rest <= grams && Counted(seen, texts, grams - rest, n)
      decreases |rest|
    {
      var g :| g in rest;
      G.GramWidth(q, n, g);
      seen := Scan(tree, texts, n, grams - rest, g, seen);
      assert grams - (rest - {g}) == (grams - rest) + {g};
      rest := rest - {g};
    }
    assert grams - {} == grams;
  }

  // ---- Filtering, verifying, ranking ---------------------------------------------------------------------------

  datatype Hit = Hit(rec: LocalId, distance: nat)

  /** Nearer first, then by record. */
  predicate HitLess(a: Hit, b: Hit) {
    a.distance < b.distance || (a.distance == b.distance && LocalLess(a.rec, b.rec))
  }

  /** Of two hits the nearer comes first, and of two as near the one whose id is the lesser word. */
  lemma HitLessIff(a: Hit, b: Hit, tenant: u48)
    ensures HitLess(a, b) <==>
            a.distance < b.distance
            || (a.distance == b.distance && Pack(ToId(a.rec, tenant)) < Pack(ToId(b.rec, tenant)))
  {
    LocalOrders(a.rec, b.rec, tenant);
  }

  predicate Ranked(hits: seq<Hit>) {
    forall i, j :: 0 <= i < j < |hits| ==> HitLess(hits[i], hits[j])
  }

  /** In range, and sharing at least one gram with the query. */
  ghost predicate Found(texts: map<LocalId, string>, q: string, n: nat, k: nat, h: Hit)
    requires n > 0
  {
    && h.rec in texts
    && Distance(q, texts[h.rec]) <= k
    && Shared(q, texts[h.rec], n) != {}
    && h.distance == Distance(q, texts[h.rec])
  }

  method InsertRanked(hits: seq<Hit>, h: Hit) returns (out: seq<Hit>)
    requires Ranked(hits) && forall x :: x in hits ==> x.rec != h.rec
    ensures Ranked(out) && forall x :: x in out <==> x in hits || x == h
  {
    var p := |hits|;
    while p > 0 && HitLess(h, hits[p - 1])
      invariant 0 <= p <= |hits|
      invariant forall j :: p <= j < |hits| ==> HitLess(h, hits[j])
    {
      p := p - 1;
    }
    out := hits[..p] + [h] + hits[p..];
    if p > 0 { assert hits[p - 1] in hits; }
    forall i | 0 <= i < p ensures HitLess(hits[i], h) {
      assert i < p - 1 ==> HitLess(hits[i], hits[p - 1]);
    }
    RankedAround(hits, p, h);
    MembersAround(hits, p, h);
  }

  lemma RankedAround(hits: seq<Hit>, p: nat, h: Hit)
    requires p <= |hits| && Ranked(hits)
    requires (forall i :: 0 <= i < p ==> HitLess(hits[i], h)) && (forall i :: p <= i < |hits| ==> HitLess(h, hits[i]))
    ensures Ranked(hits[..p] + [h] + hits[p..])
  {
  }

  lemma MembersAround<T>(s: seq<T>, p: nat, h: T)
    requires p <= |s|
    ensures forall x :: x in s[..p] + [h] + s[p..] <==> x in s || x == h
  {
  }

  /** The count below which the first filter rejects. */
  function Threshold(q: string, n: nat, k: nat): nat
    requires n > 0
  {
    SaturatingSub(|G.Grams(q, n)|, n * k)
  }

  /** Both filters, on what the scans learned alone. */
  predicate Admits(c: Candidate, threshold: nat, queryLen: nat, k: nat) {
    c.shared >= threshold && LengthGap(queryLen, c.len) <= k
  }

  /** What the scans learn about a text. */
  function Learned(q: string, text: string, n: nat): Candidate
    requires n > 0
  {
    Candidate(|Shared(q, text, n)|, Saturated(|text|))
  }

  /** Neither filter rejects a record in range. */
  lemma FiltersAdmit(q: string, text: string, n: nat, k: nat)
    requires n > 0 && Distance(q, text) <= k
    ensures Admits(Learned(q, text, n), Threshold(q, n, k), |q|, k)
  {
    CountIsEnough(q, text, n, k);
    GapIsWithinDistance(q, text, k);
  }

  /** A gram has at least two characters, so once the filter's product fits a word, so does every later sum. */
  lemma ProductFits(n: nat, k: nat, len: nat)
    requires n >= 2 && n * k <= MAX64 && len < SLICE_LIMIT
    ensures len + k <= MAX64
  {
    assert 2 * k <= n * k;
  }

  /** What the filters let through: texts that share all but `n * k` of the query's grams, and whose length, as far as the
      key bytes tell, is within `k` of the query's. */
  lemma AdmitsIff(q: string, text: string, n: nat, k: nat)
    requires n > 0 && |q| <= LEN_CAP && |text| <= LEN_CAP
    ensures Admits(Learned(q, text, n), Threshold(q, n, k), |q|, k) <==>
            |G.Grams(q, n)| <= |Shared(q, text, n)| + n * k && |text| <= |q| + k && |q| <= |text| + k
  {
    GapIsDifference(q, text);
  }

  /** One candidate: filtered on arithmetic alone, then verified on its text. */
  method Verify(text: string, q: string, ghost n: nat, k: u64, threshold: nat, c: Candidate) returns (hit: Option<nat>)
    requires n >= 2 && n * k <= MAX64 && |q| < SLICE_LIMIT && |text| < SLICE_LIMIT
    requires threshold == Threshold(q, n, k) && c == Learned(q, text, n)
    ensures hit == if Distance(q, text) <= k then Some(Distance(q, text)) else None
  {
    if Distance(q, text) <= k { FiltersAdmit(q, text, n, k); }
    if !Admits(c, threshold, |q|, k) { return None; }
    ProductFits(n, k, |q|);
    ProductFits(n, k, |text|);
    var within := LevenshteinWithin(q, text, k);
    hit := within.value;
  }

  /** After every scan, the candidates are exactly the records sharing a gram, each with what there is to learn. */
  lemma CountedAll(seen: map<LocalId, Candidate>, texts: map<LocalId, string>, q: string, n: nat)
    requires n > 0 && Counted(seen, texts, G.Grams(q, n), n)
    ensures forall rec :: rec in seen <==> rec in texts && Shared(q, texts[rec], n) != {}
    ensures forall rec :: rec in seen ==> seen[rec] == Learned(q, texts[rec], n)
  {
    forall rec
      ensures rec in seen <==> rec in texts && Shared(q, texts[rec], n) != {}
      ensures rec in seen ==> seen[rec] == Learned(q, texts[rec], n)
    {
      assert EntryOk(seen, texts, rec, G.Grams(q, n), n);
    }
  }

  /** Every record in range that shares a gram, ranked. The filter's product overflows exactly when it exceeds a word,
      and nothing else does. */
  method RankAll(tree: set<SecKey>, texts: map<LocalId, string>, q: string, n: nat, k: u64)
    returns (r: Checked<seq<Hit>>)
    requires n >= 2 && Posted(tree, texts, n) && |q| < SLICE_LIMIT
    requires forall rec :: rec in texts ==> |texts[rec]| < SLICE_LIMIT
    ensures r.Overflow? <==> n * k > MAX64
    ensures r.Fine? ==> Ranked(r.value) && forall h :: h in r.value <==> Found(texts, q, n, k, h)
  {
    var grams := G.GramPrefixes(q, n);
    if n * k > MAX64 { return Overflow; }
    var hits := RankShared(tree, texts, q, n, k, grams);
    r := Fine(hits);
  }

  method RankShared(tree: set<SecKey>, texts: map<LocalId, string>, q: string, n: nat, k: u64, grams: set<Bytes>)
    returns (hits: seq<Hit>)
    requires n >= 2 && n * k <= MAX64 && Posted(tree, texts, n) && grams == G.Grams(q, n) && |q| < SLICE_LIMIT
    requires forall rec :: rec in texts ==> |texts[rec]| < SLICE_LIMIT
    ensures Ranked(hits) && forall h :: h in hits <==> Found(texts, q, n, k, h)
  {
    var seen := CountShared(tree, texts, q, n, grams);
    CountedAll(seen, texts, q, n);
    var threshold := SaturatingSub(|grams|, n * k);
    hits := [];
    var rest := seen.Keys;
    while rest != {}
      invariant rest <= seen.Keys && Ranked(hits)
      invariant forall h :: h in hits <==> Found(texts, q, n, k, h) && h.rec !in rest
      decreases |rest|
    {
      var rec :| rec in rest;
      var d := Verify(texts[rec], q, n, k, threshold, seen[rec]);
      if d.Some? { hits := InsertRanked(hits, Hit(rec, d.value)); }
      rest := rest - {rec};
    }
  }

  /** `out` is the best `limit` of the records in range that share a gram, in rank order; whatever is cut ranks after
      everything kept. */
  ghost predicate BestOf(out: seq<Hit>, texts: map<LocalId, string>, q: string, n: nat, k: nat, limit: nat)
    requires n > 0
  {
    && Ranked(out) && |out| <= limit && (forall h :: h in out ==> Found(texts, q, n, k, h))
    && forall h :: Found(texts, q, n, k, h) && h !in out ==>
         |out| == limit && forall i :: 0 <= i < |out| ==> HitLess(out[i], h)
  }

  /** `fuzzy_search` by distance. */
  method Search(tree: set<SecKey>, texts: map<LocalId, string>, q: string, n: nat, k: u64, limit: nat)
    returns (r: Checked<seq<Hit>>)
    requires n >= 2 && Posted(tree, texts, n) && |q| < SLICE_LIMIT
    requires forall rec :: rec in texts ==> |texts[rec]| < SLICE_LIMIT
    ensures r.Overflow? <==> n * k > MAX64
    ensures r.Fine? ==> BestOf(r.value, texts, q, n, k, limit)
    ensures r.Fine? ==> forall i, j :: 0 <= i < j < |r.value| ==> r.value[i].distance <= r.value[j].distance
    ensures r.Fine? ==> forall h :: Found(texts, q, n, k, h) && h !in r.value ==>
                          forall i :: 0 <= i < |r.value| ==> r.value[i].distance <= h.distance
  {
    r := RankAll(tree, texts, q, n, k);
    if r.Fine? {
      CutRanked(r.value, texts, q, n, k, limit);
      r := Fine(if |r.value| <= limit then r.value else r.value[..limit]);
    }
  }

  lemma CutRanked(hits: seq<Hit>, texts: map<LocalId, string>, q: string, n: nat, k: nat, limit: nat)
    requires n > 0 && Ranked(hits) && forall h :: h in hits <==> Found(texts, q, n, k, h)
    ensures BestOf(if |hits| <= limit then hits else hits[..limit], texts, q, n, k, limit)
  {
    var out := if |hits| <= limit then hits else hits[..limit];
    forall h | h in hits
      ensures h in out || (|out| == limit && forall i :: 0 <= i < |out| ==> HitLess(out[i], h))
    {
      var j :| 0 <= j < |hits| && hits[j] == h;
      if j < |out| { assert out[j] == h; }
    }
  }

  // ---- When the answer is complete ------------------------------------------------------------------------------

  /** With more distinct grams than `n * k`, every record in range shares one, so the answer is every record in range. */
  lemma ExactWhenGramsExceed(q: string, text: string, n: nat, k: nat)
    requires n > 0 && |G.Grams(q, n)| > n * k && Distance(q, text) <= k
    ensures Shared(q, text, n) != {}
  {
    G.SharedGrams(q, text, n, k);
  }

  lemma {:induction false} WindowKeyInjective(w: seq<G.Word>, v: seq<G.Word>)
    requires |w| == |v| && G.WindowKey(w) == G.WindowKey(v)
    ensures w == v
  {
    LittleEndian.FourBytes();
    if w != [] {
      assert G.WindowKey(w)[..4] == BigEndian(4, w[0]) && G.WindowKey(v)[..4] == BigEndian(4, v[0]);
      BigEndianRoundTrip(4, w[0]);
      BigEndianRoundTrip(4, v[0]);
      assert G.WindowKey(w)[4..] == G.WindowKey(w[1..]) && G.WindowKey(v)[4..] == G.WindowKey(v[1..]);
      WindowKeyInjective(w[1..], v[1..]);
      assert w == [w[0]] + w[1..] && v == [v[0]] + v[1..];
    }
  }

  /** Without that many grams the bound is needed: one substitution away and not one gram in common. */
  lemma ShortQueryMisses()
    ensures Distance("a", "b") == 1 && |G.Grams("a", 3)| <= 3 * 1 && Shared("a", "b", 3) == {}
  {
    var p, r := G.Padded("a", 3), G.Padded("b", 3);
    assert |p| == |r| == 5 && p[2] == 'a' as int && r[2] == 'b' as int;
    G.WindowsSize(p, 3, 0, 3);
    forall i: nat, j: nat | i < 3 && j < 3 ensures G.GramAt(p, 3, i) != G.GramAt(r, 3, j) {
      WindowKeysDiffer(p[i..i + 3], r[j..j + 3], 2 - i);
    }
  }

  lemma WindowKeysDiffer(w: seq<G.Word>, v: seq<G.Word>, x: nat)
    requires |w| == |v| && x < |w| && w[x] != v[x]
    ensures G.WindowKey(w) != G.WindowKey(v)
  {
    if G.WindowKey(w) == G.WindowKey(v) { WindowKeyInjective(w, v); }
  }

  /** A fuzzy tree that agrees with the living records holds exactly their postings, so a search over it is a search
      over them. */
  lemma AgreeingTreeIsPosted(sc: Schema, store: Contents<Envelope>, i: nat, tree: set<SecKey>, n: nat,
                             text: Bytes -> string, texts: map<LocalId, string>)
    requires n > 0 && FuzzyOk(sc, store, i, tree)
    requires forall body, f :: f in sc.fuzzyFields(body, i) <==> IsPosting(f, text(body), n)
    requires forall rec :: rec in texts <==> At(sc, store, rec).Some?
    requires forall rec :: rec in texts ==> texts[rec] == text(At(sc, store, rec).value.body)
    ensures Posted(tree, texts, n)
  {
  }
}
