/** The embedding cache kept in genba_embeddings.json and the semantic half of the
    duplicate gate: the rebuild of the cache from the published articles, the search for
    the best-scoring cached article, and the upsert of a freshly published article.
    Embedding vectors and cosine similarity come from outside as parameters; what is
    modelled is the selection and the bookkeeping around them. */
module Similarity {
  import opened Text
  import MarkdownSections

  /** The `embedding` field of a cache entry as read back from JSON: absent or falsy,
      an array of numbers, or some other truthy value. */
  datatype Embedding = Missing | Vector(v: seq<real>) | NotArray

  datatype CacheEntry = CacheEntry(file: string, title: string, embedding: Embedding, updatedAt: string)

  /** An article found among the published posts: its file name and its (non-empty) title. */
  datatype Summary = Summary(file: string, title: string)

  /** The `{ sim, file, title }` record kept by maxSimilarityForDraft. */
  datatype Best = Best(sim: real, file: string, title: string)

  /** The starting value of the search: below every cosine similarity. */
  const NoMatch: Best := Best(-1.0, "", "")

  /** The cache keeps at most this many entries after an upsert. */
  const MaxCacheEntries: nat := 400

  /** The draft text that goes into a draft's fingerprint is clipped to this length. */
  const DraftClip: nat := 2600

  // ---------------------------------------------------------------------------
  // fingerprintFromDraft
  // ---------------------------------------------------------------------------

  /** `THEME:<theme>\nDRAFT:<first 2600 characters of the draft>`. */
  function FingerprintFromDraft(theme: string, draft: string): (fp: string)
    ensures |fp| == 13 + |theme| + Min(DraftClip, |draft|)
  {
    "THEME:" + theme + "\nDRAFT:" + Take(draft, DraftClip)
  }

  /** Only the first 2600 characters of a draft reach the embedding. */
  lemma {:induction false} FingerprintIgnoresTail(theme: string, a: string, b: string)
    requires |a| >= DraftClip && |b| >= DraftClip && a[..DraftClip] == b[..DraftClip]
    ensures FingerprintFromDraft(theme, a) == FingerprintFromDraft(theme, b)
  {
  }

  /** Drafts of at most 2600 characters are told apart by their fingerprints. */
  lemma {:induction false} FingerprintOfShortDraft(theme: string, a: string, b: string)
    requires |a| <= DraftClip && |b| <= DraftClip && a != b
    ensures FingerprintFromDraft(theme, a) != FingerprintFromDraft(theme, b)
  {
    var fa := FingerprintFromDraft(theme, a);
    var fb := FingerprintFromDraft(theme, b);
    assert fa[13 + |theme|..] == a;
    if |fa| == |fb| {
      assert fb[13 + |theme|..] == b;
    }
  }

  // ---------------------------------------------------------------------------
  // maxSimilarityForDraft: the best-scoring cached article
  // ---------------------------------------------------------------------------

  predicate HasVector(x: CacheEntry) {
    x.embedding.Vector?
  }

  /** The score of a cached entry; `sim` is cosine similarity against the draft's vector. */
  function Score(x: CacheEntry, sim: seq<real> -> real): real
    requires HasVector(x)
  {
    sim(x.embedding.v)
  }

  /** One turn of the search loop: an entry with a vector that scores strictly higher
      than the best so far replaces it; anything else leaves the best alone. */
  function Consider(b: Best, x: CacheEntry, sim: seq<real> -> real): (r: Best)
    ensures r == b || (HasVector(x) && r.sim == Score(x, sim) > b.sim && r.file == x.file && r.title == x.title)
    ensures HasVector(x) ==> Score(x, sim) <= r.sim && b.sim <= r.sim
  {
    if HasVector(x) && Score(x, sim) > b.sim then Best(Score(x, sim), x.file, x.title) else b
  }

  /** The search as a fold over the cache, left to right from NoMatch. The best score is
      never below -1, and it is -1 only when nothing replaced NoMatch. */
  function BestOf(items: seq<CacheEntry>, sim: seq<real> -> real): (r: Best)
    ensures r.sim >= -1.0
    ensures r.sim == -1.0 ==> r == NoMatch
  {
    if items == [] then NoMatch
    else Consider(BestOf(items[..|items| - 1], sim), items[|items| - 1], sim)
  }

  method MaxSimilarity(items: seq<CacheEntry>, sim: seq<real> -> real) returns (best: Best)
    ensures best == BestOf(items, sim)
  {
    best := NoMatch;
    for i := 0 to |items|
      invariant best == BestOf(items[..i], sim)
    {
      assert items[..i + 1][..i] == items[..i];
      var x := items[i];
      if x.embedding.Vector? {
        var s := sim(x.embedding.v);
        if s > best.sim {
          best := Best(s, x.file, x.title);
        }
      }
    }
    assert items[..|items|] == items;
  }

  /** Entry `i` is the result: it has a vector, the result carries its score, file and
      title, and every earlier entry with a vector scores strictly lower. */
  ghost predicate FirstMaximum(items: seq<CacheEntry>, sim: seq<real> -> real, i: int, b: Best) {
    && 0 <= i < |items|
    && HasVector(items[i])
    && b == Best(Score(items[i], sim), items[i].file, items[i].title)
    && forall j :: 0 <= j < i && HasVector(items[j]) ==> Score(items[j], sim) < b.sim
  }

  /** No entry with a vector scores above the result, and the result is never below -1. */
  lemma {:induction false} BestOfIsUpperBound(items: seq<CacheEntry>, sim: seq<real> -> real)
    ensures BestOf(items, sim).sim >= -1.0
    ensures forall j :: 0 <= j < |items| && HasVector(items[j]) ==> Score(items[j], sim) <= BestOf(items, sim).sim
  {
    if items != [] {
      var init := items[..|items| - 1];
      BestOfIsUpperBound(init, sim);
      forall j | 0 <= j < |items| - 1 && HasVector(items[j])
        ensures Score(items[j], sim) <= BestOf(items, sim).sim
      {
        assert items[j] == init[j];
      }
    }
  }

  /** The search ends on NoMatch exactly when no entry with a vector scores above -1. */
  lemma {:induction false} BestOfNoMatch(items: seq<CacheEntry>, sim: seq<real> -> real)
    ensures BestOf(items, sim) == NoMatch <==> forall j :: 0 <= j < |items| && HasVector(items[j]) ==> Score(items[j], sim) <= -1.0
  {
    BestOfIsUpperBound(items, sim);
    if items != [] {
      var init := items[..|items| - 1];
      BestOfNoMatch(init, sim);
      BestOfIsUpperBound(init, sim);
      assert forall j :: 0 <= j < |init| ==> init[j] == items[j];
    }
  }

  /** Any other result is the first entry reaching the maximum: strict `>` lets an
      equal score found later never replace it. */
  lemma {:induction false} BestOfIsFirstMaximum(items: seq<CacheEntry>, sim: seq<real> -> real)
    requires BestOf(items, sim) != NoMatch
    ensures exists i :: FirstMaximum(items, sim, i, BestOf(items, sim))
  {
    var init := items[..|items| - 1];
    var x := items[|items| - 1];
    var b := BestOf(items, sim);
    if b == BestOf(init, sim) {
      BestOfIsFirstMaximum(init, sim);
      var i :| FirstMaximum(init, sim, i, b);
      assert items[i] == init[i];
      forall j | 0 <= j < i && HasVector(items[j])
        ensures Score(items[j], sim) < b.sim
      {
        assert items[j] == init[j];
      }
      assert FirstMaximum(items, sim, i, b);
    } else {
      BestOfIsUpperBound(init, sim);
      forall j | 0 <= j < |items| - 1 && HasVector(items[j])
        ensures Score(items[j], sim) < b.sim
      {
        assert items[j] == init[j];
      }
      assert FirstMaximum(items, sim, |items| - 1, b);
    }
  }

  /** When entry `i` is the first with the top score, and that score is above -1, the
      search returns entry `i`. */
  lemma {:induction false} FirstTopScoreWins(items: seq<CacheEntry>, sim: seq<real> -> real, i: nat)
    requires i < |items| && HasVector(items[i]) && Score(items[i], sim) > -1.0
    requires forall j :: 0 <= j < |items| && HasVector(items[j]) ==> Score(items[j], sim) <= Score(items[i], sim)
    requires forall j :: 0 <= j < i && HasVector(items[j]) ==> Score(items[j], sim) < Score(items[i], sim)
    ensures BestOf(items, sim) == Best(Score(items[i], sim), items[i].file, items[i].title)
  {
    BestOfNoMatch(items, sim);
    BestOfIsUpperBound(items, sim);
    BestOfIsFirstMaximum(items, sim);
    var w :| FirstMaximum(items, sim, w, BestOf(items, sim));
    assert w == i;
  }

  // ---------------------------------------------------------------------------
  // Rebuilding the cache from the published articles
  // ---------------------------------------------------------------------------

  /** Every entry is stored under its own file name. */
  ghost predicate KeyedByFile(m: map<string, CacheEntry>) {
    forall f :: f in m ==> m[f].file == f
  }

  /** `new Map(cache.items.map(x => [x.file, x]))`: a later entry for the same file wins. */
  function ByFile(items: seq<CacheEntry>): (m: map<string, CacheEntry>)
    ensures KeyedByFile(m)
    ensures forall i :: 0 <= i < |items| ==> items[i].file in m
  {
    if items == [] then map[]
    else ByFile(items[..|items| - 1])[items[|items| - 1].file := items[|items| - 1]]
  }

  /** Entry `i` is the last one for its file. */
  ghost predicate LastForFile(items: seq<CacheEntry>, i: int) {
    0 <= i < |items| && forall j :: i < j < |items| ==> items[j].file != items[i].file
  }

  /** The map holds, for each file, the last entry naming it, and no other key. */
  lemma {:induction false} ByFileKeepsLast(items: seq<CacheEntry>, f: string)
    ensures f in ByFile(items) <==> exists i :: 0 <= i < |items| && items[i].file == f
    ensures f in ByFile(items) ==> exists i :: LastForFile(items, i) && ByFile(items)[f] == items[i]
  {
    if items != [] {
      var n := |items| - 1;
      var init := items[..n];
      var x := items[n];
      ByFileKeepsLast(init, f);
      assert ByFile(items) == ByFile(init)[x.file := x];
      if f == x.file {
        assert LastForFile(items, n);
      } else if f in ByFile(init) {
        var i :| LastForFile(init, i) && ByFile(init)[f] == init[i];
        LastStaysLast(items, i);
        assert items[i] == init[i];
      } else {
        AbsentStaysAbsent(items, init, f);
      }
    }
  }

  /** An entry last for its file stays last when an entry for another file is appended. */
  lemma {:induction false} LastStaysLast(items: seq<CacheEntry>, i: int)
    requires items != [] && LastForFile(items[..|items| - 1], i)
    requires items[|items| - 1].file != items[i].file
    ensures LastForFile(items, i)
  {
    var init := items[..|items| - 1];
    forall j | i < j < |items| ensures items[j].file != items[i].file {
      if j < |items| - 1 {
        assert items[j] == init[j];
      }
    }
  }

  /** A file no entry names stays unnamed when an entry for another file is appended. */
  lemma {:induction false} AbsentStaysAbsent(items: seq<CacheEntry>, init: seq<CacheEntry>, f: string)
    requires items != [] && init == items[..|items| - 1] && items[|items| - 1].file != f
    requires !exists i :: 0 <= i < |init| && init[i].file == f
    ensures forall i :: 0 <= i < |items| ==> items[i].file != f
  {
    forall i | 0 <= i < |items| ensures items[i].file != f {
      if i < |items| - 1 {
        assert items[i] == init[i];
      }
    }
  }

  /** One turn of the rebuild loop for a listed article: a cached entry that has an
      embedding is kept, with the listed title; otherwise a new entry is made from the
      article's freshly computed vector. */
  function Refreshed(m: map<string, CacheEntry>, it: Summary, vector: seq<real>, now: string): (e: CacheEntry)
    ensures e.file == it.file || (it.file in m && e.file == m[it.file].file)
    ensures !e.embedding.Missing?
  {
    if it.file in m && !m[it.file].embedding.Missing? then
      var cur := m[it.file];
      cur.(title := if it.title != "" then it.title else cur.title)
    else CacheEntry(it.file, it.title, Vector(vector), now)
  }

  /** The items written back after the rebuild, one per listed article; `vectorOf` gives
      the embedding of an article's fingerprint. */
  function Rebuild(m: map<string, CacheEntry>, existing: seq<Summary>, vectorOf: string -> seq<real>, now: string): (r: seq<CacheEntry>)
    ensures |r| == |existing|
    decreases |existing|
  {
    if existing == [] then []
    else
      var e := Refreshed(m, existing[0], vectorOf(existing[0].file), now);
      [e] + Rebuild(m[existing[0].file := e], existing[1..], vectorOf, now)
  }

  method RebuildCache(cached: seq<CacheEntry>, existing: seq<Summary>, vectorOf: string -> seq<real>, now: string)
    returns (updated: seq<CacheEntry>)
    ensures updated == Rebuild(ByFile(cached), existing, vectorOf, now)
  {
    var m := ByFile(cached);
    updated := [];
    for i := 0 to |existing|
      invariant updated + Rebuild(m, existing[i..], vectorOf, now) == Rebuild(ByFile(cached), existing, vectorOf, now)
    {
      var it := existing[i];
      var e;
      if it.file in m && !m[it.file].embedding.Missing? {
        var cur := m[it.file];
        e := cur.(title := if it.title != "" then it.title else cur.title);
      } else {
        e := CacheEntry(it.file, it.title, Vector(vectorOf(it.file)), now);
      }
      assert e == Refreshed(m, it, vectorOf(it.file), now);
      RebuildStep(m, existing, i, vectorOf, now);
      m := m[it.file := e];
      updated := updated + [e];
    }
  }

  /** One turn of the rebuild loop, seen on the reference definition. */
  lemma {:induction false} RebuildStep(m: map<string, CacheEntry>, existing: seq<Summary>, i: nat, vectorOf: string -> seq<real>, now: string)
    requires i < |existing|
    ensures var e := Refreshed(m, existing[i], vectorOf(existing[i].file), now);
      Rebuild(m, existing[i..], vectorOf, now) == [e] + Rebuild(m[existing[i].file := e], existing[i + 1..], vectorOf, now)
  {
    assert existing[i..][0] == existing[i];
    assert existing[i..][1..] == existing[i + 1..];
  }

  ghost predicate DistinctFiles(existing: seq<Summary>) {
    forall i, j :: 0 <= i < j < |existing| ==> existing[i].file != existing[j].file
  }

  /** With distinct file names (a directory listing), entry `i` of the rebuilt cache is
      article `i` refreshed against the cache as it was read. */
  lemma {:induction false} RebuildAt(m: map<string, CacheEntry>, existing: seq<Summary>, vectorOf: string -> seq<real>, now: string, i: nat)
    requires DistinctFiles(existing) && i < |existing|
    ensures Rebuild(m, existing, vectorOf, now)[i] == Refreshed(m, existing[i], vectorOf(existing[i].file), now)
    decreases i
  {
    if i > 0 {
      var e := Refreshed(m, existing[0], vectorOf(existing[0].file), now);
      var m' := m[existing[0].file := e];
      var rest := existing[1..];
      assert DistinctFiles(rest) by {
        forall a, b | 0 <= a < b < |rest| ensures rest[a].file != rest[b].file {
          assert rest[a] == existing[a + 1] && rest[b] == existing[b + 1];
        }
      }
      RebuildAt(m', rest, vectorOf, now, i - 1);
      assert rest[i - 1] == existing[i];
      assert existing[i].file != existing[0].file;
    }
  }

  /** The rebuilt cache lists the articles in order, with their titles, and never lacks
      an embedding: the last cached entry for the file is reused (with its timestamp)
      when it has an embedding, and the article is embedded afresh otherwise. */
  lemma {:induction false} RebuildMeaning(cached: seq<CacheEntry>, existing: seq<Summary>, vectorOf: string -> seq<real>, now: string, i: nat)
    requires DistinctFiles(existing) && i < |existing| && existing[i].title != ""
    ensures var e := Rebuild(ByFile(cached), existing, vectorOf, now)[i];
      && e.file == existing[i].file && e.title == existing[i].title && !e.embedding.Missing?
      && (forall j :: LastForFile(cached, j) && cached[j].file == existing[i].file ==>
            if cached[j].embedding.Missing? then e == CacheEntry(existing[i].file, existing[i].title, Vector(vectorOf(existing[i].file)), now)
            else e == cached[j].(title := existing[i].title))
      && ((forall j :: 0 <= j < |cached| ==> cached[j].file != existing[i].file) ==>
            e == CacheEntry(existing[i].file, existing[i].title, Vector(vectorOf(existing[i].file)), now))
  {
    var m := ByFile(cached);
    var f := existing[i].file;
    RebuildAt(m, existing, vectorOf, now, i);
    ByFileKeepsLast(cached, f);
    if f in m {
      var k :| LastForFile(cached, k) && m[f] == cached[k];
      forall j | LastForFile(cached, j) && cached[j].file == f ensures cached[j] == m[f] {
        assert !(j < k) && !(k < j);
      }
    }
  }

  // ---------------------------------------------------------------------------
  // Upsert of a newly published article
  // ---------------------------------------------------------------------------

  /** `items.filter(x => x.file !== file)`. */
  function WithoutFile(items: seq<CacheEntry>, file: string): (r: seq<CacheEntry>)
    ensures |r| <= |items|
    ensures forall i :: 0 <= i < |r| ==> r[i].file != file
  {
    if items == [] then []
    else (if items[0].file != file then [items[0]] else []) + WithoutFile(items[1..], file)
  }

  /** The filter keeps exactly the entries for other files. */
  lemma {:induction false} WithoutFileMembers(items: seq<CacheEntry>, file: string, x: CacheEntry)
    ensures x in WithoutFile(items, file) <==> x in items && x.file != file
  {
    if items != [] {
      WithoutFileMembers(items[1..], file, x);
      assert x in items <==> x == items[0] || x in items[1..];
    }
  }

  /** The positions from `from` on of the entries for other files than `file`,
      increasing. */
  ghost function KeptFrom(items: seq<CacheEntry>, file: string, from: nat): (idx: seq<nat>)
    requires from <= |items|
    ensures forall t :: 0 <= t < |idx| ==> from <= idx[t] < |items| && items[idx[t]].file != file
    ensures forall t, u :: 0 <= t < u < |idx| ==> idx[t] < idx[u]
    ensures forall j :: from <= j < |items| && items[j].file != file ==> j in idx
    decreases |items| - from
  {
    if from == |items| then []
    else (if items[from].file != file then [from] else []) + KeptFrom(items, file, from + 1)
  }

  /** The positions of the entries for other files than `file`, increasing. */
  ghost function KeptIndices(items: seq<CacheEntry>, file: string): (idx: seq<nat>)
    ensures forall t :: 0 <= t < |idx| ==> idx[t] < |items| && items[idx[t]].file != file
    ensures forall t, u :: 0 <= t < u < |idx| ==> idx[t] < idx[u]
    ensures forall j :: 0 <= j < |items| && items[j].file != file ==> j in idx
  {
    KeptFrom(items, file, 0)
  }

  /** The filter of the entries from `from` on is the input at the kept positions from
      `from` on. */
  lemma {:induction false} WithoutFileFrom(items: seq<CacheEntry>, file: string, from: nat)
    requires from <= |items|
    ensures MarkdownSections.SubseqAt(WithoutFile(items[from..], file), items, KeptFrom(items, file, from))
    decreases |items| - from
  {
    if from < |items| {
      WithoutFileFrom(items, file, from + 1);
      assert items[from..][1..] == items[from + 1..];
      var out := WithoutFile(items[from..], file);
      var rest := WithoutFile(items[from + 1..], file);
      var head := if items[from].file != file then [items[from]] else [];
      assert out == head + rest;
      var idx := KeptFrom(items, file, from);
      var tail := KeptFrom(items, file, from + 1);
      forall t | 0 <= t < |idx| ensures out[t] == items[idx[t]] {
        if t >= |head| {
          assert idx[t] == tail[t - |head|];
          assert out[t] == rest[t - |head|];
        }
      }
    }
  }

  /** The filter keeps the entries for other files in their order: the result is the
      input at exactly those entries' positions. */
  lemma {:induction false} WithoutFileAt(items: seq<CacheEntry>, file: string)
    ensures MarkdownSections.SubseqAt(WithoutFile(items, file), items, KeptIndices(items, file))
  {
    WithoutFileFrom(items, file, 0);
    assert items[0..] == items;
  }

  /** The new entry first, then the cache without its file, at most 400 entries. */
  function Upsert(items: seq<CacheEntry>, e: CacheEntry): (r: seq<CacheEntry>)
    ensures |r| == Min(MaxCacheEntries, 1 + |WithoutFile(items, e.file)|)
    ensures r[0] == e
    ensures forall i :: 1 <= i < |r| ==> r[i] == WithoutFile(items, e.file)[i - 1]
  {
    Take([e] + WithoutFile(items, e.file), MaxCacheEntries)
  }

  ghost predicate UniqueFiles(items: seq<CacheEntry>) {
    forall i, j :: 0 <= i < j < |items| ==> items[i].file != items[j].file
  }

  /** After an upsert the new file appears exactly once, at the head, every other entry
      came from the old cache, and an old entry for another file is dropped only when
      the 400-entry bound is reached. */
  lemma {:induction false} UpsertMeaning(items: seq<CacheEntry>, e: CacheEntry, x: CacheEntry)
    ensures forall i :: 0 <= i < |Upsert(items, e)| && Upsert(items, e)[i].file == e.file ==> i == 0
    ensures x in Upsert(items, e) ==> x == e || (x in items && x.file != e.file)
    ensures x in items && x.file != e.file && |items| < MaxCacheEntries ==> x in Upsert(items, e)
  {
    var rest := WithoutFile(items, e.file);
    WithoutFileMembers(items, e.file, x);
    if x in Upsert(items, e) && x != e {
      var i :| 0 <= i < |Upsert(items, e)| && Upsert(items, e)[i] == x;
      assert rest[i - 1] == x;
    }
    if x in items && x.file != e.file && |items| < MaxCacheEntries {
      var k :| 0 <= k < |rest| && rest[k] == x;
      assert Upsert(items, e)[k + 1] == x;
    }
  }

  /** The upsert keeps the cache free of duplicate files. */
  lemma {:induction false} UpsertKeepsUniqueFiles(items: seq<CacheEntry>, e: CacheEntry)
    requires UniqueFiles(items)
    ensures UniqueFiles(Upsert(items, e))
  {
    var r := Upsert(items, e);
    var rest := WithoutFile(items, e.file);
    forall i, j | 0 <= i < j < |r| ensures r[i].file != r[j].file {
      if i > 0 {
        WithoutFileAt(items, e.file);
        var idx := KeptIndices(items, e.file);
        assert rest[i - 1] == items[idx[i - 1]] && rest[j - 1] == items[idx[j - 1]];
      }
    }
  }
}
