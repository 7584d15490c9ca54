/** The engine's module state and its two entry points, `initEngine` and
    `querySuggestions` (src/search/engine.ts). The embedder, the cosine
    similarity, the lexical index's hits and `toFixed(3)` rounding are
    parameters; the index itself is reduced to whether it has been built. */
module Engine {
  import opened Wrappers
  import opened Text
  import opened Lists
  import opened Types
  import opened Themes
  import opened Fusion
  import opened Ranking

  /** Verses embedded per call during lazy population. */
  const BATCH: nat := 500

  /** Why a query rejects: the embedder failed, the cache lacks an embedding
      the dense step reads, or the index was never built. */
  datatype QueryError = ProviderUnavailable | EmbeddingMissing | IndexMissing

  /** `embed(texts)`: every text embedded in order, or a failure. */
  function EmbedBatch(texts: seq<string>, embed: string -> Option<Vec>): (r: Option<seq<Vec>>)
    ensures r.Some? ==> |r.value| == |texts|
  {
    if texts == [] then Some([])
    else match embed(texts[0])
      case None => None
      case Some(v) =>
        match EmbedBatch(texts[1..], embed)
        case None => None
        case Some(vs) => Some([v] + vs)
  }

  /** A batch succeeds exactly when every text embeds, and then holds the
      texts' vectors in order. */
  lemma {:induction false} EmbedBatchSpec(texts: seq<string>, embed: string -> Option<Vec>)
    ensures var r := EmbedBatch(texts, embed);
      && (r.Some? ==> forall i :: 0 <= i < |texts| ==> embed(texts[i]) == Some(r.value[i]))
      && (r.None? <==> exists i :: 0 <= i < |texts| && embed(texts[i]).None?)
  {
    if texts != [] {
      EmbedBatchSpec(texts[1..], embed);
      var r := EmbedBatch(texts, embed);
      if embed(texts[0]).Some? && EmbedBatch(texts[1..], embed).Some? {
        forall i | 0 <= i < |texts| ensures embed(texts[i]) == Some(r.value[i]) {
          if i > 0 { assert texts[i] == texts[1..][i - 1]; }
        }
      }
      if EmbedBatch(texts[1..], embed).None? {
        var i :| 0 <= i < |texts[1..]| && embed(texts[1..][i]).None?;
        assert embed(texts[i + 1]).None?;
      }
    }
  }

  function Texts(vs: seq<Verse>): (r: seq<string>)
    ensures |r| == |vs| && forall i :: 0 <= i < |vs| ==> r[i] == vs[i].text
  {
    seq(|vs|, i requires 0 <= i < |vs| => vs[i].text)
  }

  function BatchEnd(i: nat, n: nat): nat {
    if i + BATCH < n then i + BATCH else n
  }

  /** The embeddings the lazy loop appends from batch start `i` on: whole
      batches, up to the first batch whose embedding fails. */
  function Populate(verses: seq<Verse>, embed: string -> Option<Vec>, i: nat): seq<Vec>
    decreases |verses| - i
  {
    if i >= |verses| then []
    else match EmbedBatch(Texts(verses[i..BatchEnd(i, |verses|)]), embed)
      case None => []
      case Some(vecs) => vecs + Populate(verses, embed, i + BATCH)
  }

  /** Population stops after whole batches or at the end of the corpus, and
      entry `j` is the embedding of verse `i + j`. */
  lemma {:induction false} PopulateAligned(verses: seq<Verse>, embed: string -> Option<Vec>, i: nat)
    ensures i + |Populate(verses, embed, i)| <= |verses| || Populate(verses, embed, i) == []
    ensures |Populate(verses, embed, i)| % BATCH == 0 || i + |Populate(verses, embed, i)| == |verses|
    ensures forall j :: 0 <= j < |Populate(verses, embed, i)| ==>
      i + j < |verses| && embed(verses[i + j].text) == Some(Populate(verses, embed, i)[j])
    decreases |verses| - i
  {
    if i < |verses| {
      var b := EmbedBatch(Texts(verses[i..BatchEnd(i, |verses|)]), embed);
      if b.Some? {
        BatchAligned(verses, embed, i);
        PopulateAligned(verses, embed, i + BATCH);
        var p, vecs, rest := Populate(verses, embed, i), b.value, Populate(verses, embed, i + BATCH);
        assert p == vecs + rest;
        forall j | 0 <= j < |p| ensures i + j < |verses| && embed(verses[i + j].text) == Some(p[j]) {
          if j >= |vecs| { assert p[j] == rest[j - |vecs|]; }
        }
      }
    }
  }

  /** A batch that embeds holds the vectors of its verses, in order. */
  lemma BatchAligned(verses: seq<Verse>, embed: string -> Option<Vec>, i: nat)
    requires i < |verses| && EmbedBatch(Texts(verses[i..BatchEnd(i, |verses|)]), embed).Some?
    ensures var vecs := EmbedBatch(Texts(verses[i..BatchEnd(i, |verses|)]), embed).value;
      && |vecs| == BatchEnd(i, |verses|) - i
      && forall k :: 0 <= k < |vecs| ==> embed(verses[i + k].text) == Some(vecs[k])
  {
    var texts := Texts(verses[i..BatchEnd(i, |verses|)]);
    EmbedBatchSpec(texts, embed);
    forall k | 0 <= k < |texts| ensures embed(verses[i + k].text) == Some(EmbedBatch(texts, embed).value[k]) {
      assert texts[k] == verses[i + k].text;
    }
  }

  /** Population covers the rest of the corpus exactly when every verse text
      from `i` on embeds. */
  lemma {:induction false} PopulateComplete(verses: seq<Verse>, embed: string -> Option<Vec>, i: nat)
    requires i <= |verses|
    ensures |Populate(verses, embed, i)| == |verses| - i <==>
      forall j :: i <= j < |verses| ==> embed(verses[j].text).Some?
    decreases |verses| - i
  {
    if i < |verses| {
      var e := BatchEnd(i, |verses|);
      var texts := Texts(verses[i..e]);
      var b := EmbedBatch(texts, embed);
      EmbedBatchSpec(texts, embed);
      if b.None? {
        var k :| 0 <= k < |texts| && embed(texts[k]).None?;
        assert embed(verses[i + k].text).None?;
      } else if e == |verses| {
        assert Populate(verses, embed, i + BATCH) == [];
        forall j | i <= j < |verses| ensures embed(verses[j].text).Some? {
          assert embed(texts[j - i]) == Some(b.value[j - i]);
        }
      } else {
        PopulateComplete(verses, embed, i + BATCH);
        if forall j :: i <= j < |verses| ==> embed(verses[j].text).Some? {
          assert forall j :: i + BATCH <= j < |verses| ==> embed(verses[j].text).Some?;
        }
        if forall j :: i + BATCH <= j < |verses| ==> embed(verses[j].text).Some? {
          forall j | i <= j < i + BATCH ensures embed(verses[j].text).Some? {
            assert embed(texts[j - i]) == Some(b.value[j - i]);
          }
        }
      }
    }
  }

  /** One iteration of the lazy loop keeps `acc + Populate(vs, embed, i)`
      fixed. */
  lemma PopulateStep(vs: seq<Verse>, embed: string -> Option<Vec>, i: nat, acc: seq<Vec>, target: seq<Vec>)
    requires i < |vs| && acc + Populate(vs, embed, i) == target && |acc| == i
    ensures var b := EmbedBatch(Texts(vs[i..BatchEnd(i, |vs|)]), embed);
      && (b.None? ==> acc == target && |acc| < |vs|)
      && (b.Some? ==> (acc + b.value) + Populate(vs, embed, i + BATCH) == target &&
                      |acc + b.value| == BatchEnd(i, |vs|))
  {
    var b := EmbedBatch(Texts(vs[i..BatchEnd(i, |vs|)]), embed);
    if b.Some? {
      assert Populate(vs, embed, i) == b.value + Populate(vs, embed, i + BATCH);
    }
  }

  /** What a query returns together with the embedding cache it leaves. */
  datatype Outcome = Outcome(result: Result<seq<Suggestion>, QueryError>, cache: seq<Vec>)

  /** Steps 1 to 6 on a cache that covers the corpus: dense and lexical
      retrieval, fusion, re-rank, hysteresis and output. */
  function Answer(verses: seq<Verse>, cache: seq<Vec>, q: Vec, themes: seq<string>,
                  topK: Option<int>, translation: string, prev: Option<Suggestion>,
                  sim: (Vec, Vec) -> real, hits: seq<Option<seq<string>>>, round3: real -> real): seq<Suggestion>
    requires |cache| >= |verses|
  {
    var dense := DenseTop(verses, cache, q, sim);
    var bm := BmIds(hits);
    var fused := SliceTo(RrfSpec([dense, bm], RRF_K), FUSED_LIMIT);
    var ranked := ReRank(verses, cache, q, sim, themes, bm, fused);
    if ranked == [] then []
    else Present(Stabilize(ranked, prev), topK.GetOr(DEFAULT_TOP_K), translation, round3)
  }

  /** The query after its vector `q` has been computed: lazy population when
      the cache is empty, then the checks that reject, then the answer. */
  function AfterEmbedding(verses: seq<Verse>, cache: seq<Vec>, indexBuilt: bool, q: Vec, themes: seq<string>,
                          topK: Option<int>, translation: string, prev: Option<Suggestion>,
                          embed: string -> Option<Vec>, sim: (Vec, Vec) -> real,
                          hits: seq<Option<seq<string>>>, round3: real -> real): Outcome
  {
    var cache' := if cache == [] then Populate(verses, embed, 0) else cache;
    if cache == [] && |cache'| < |verses| then Outcome(Failure(ProviderUnavailable), cache')
    else if |cache'| < |verses| then Outcome(Failure(EmbeddingMissing), cache')
    else if !indexBuilt then Outcome(Failure(IndexMissing), cache')
    else Outcome(Success(Answer(verses, cache', q, themes, topK, translation, prev, sim, hits, round3)), cache')
  }

  /** The value `querySuggestions` resolves or rejects with, and the cache it
      leaves, given the corpus, the cache and whether the index exists. */
  function Respond(verses: seq<Verse>, cache: seq<Vec>, indexBuilt: bool,
                   window: string, topK: Option<int>, translation: string, prev: Option<Suggestion>,
                   embed: string -> Option<Vec>, sim: (Vec, Vec) -> real,
                   hits: seq<Option<seq<string>>>, round3: real -> real): Outcome
  {
    if IsBlank(window) then Outcome(Success([]), cache)
    else
      match embed(window)
      case None => Outcome(Failure(ProviderUnavailable), cache)
      case Some(q) =>
        AfterEmbedding(verses, cache, indexBuilt, q, DetectThemes(window), topK, translation, prev,
                       embed, sim, hits, round3)
  }

  /** A suggestion that reproduces a corpus verse. */
  predicate Describes(s: Suggestion, verses: seq<Verse>) {
    exists v :: v in verses && s.id == v.id && s.ref == v.ref && s.text == v.text && s.themes == v.themes
  }

  predicate DistinctSuggestions(out: seq<Suggestion>) {
    forall i, j :: 0 <= i < j < |out| ==> out[i].id != out[j].id
  }

  /** At most 40 suggestions, no more than `limit` (when that is not
      negative) and no more than the corpus has verses; each reproduces a
      distinct corpus verse, carries the requested translation and at least
      one reason. */
  predicate AnswerBounds(out: seq<Suggestion>, verses: seq<Verse>, limit: int, translation: string) {
    && |out| <= FUSED_LIMIT && |out| <= |verses|
    && (0 <= limit ==> |out| <= limit)
    && DistinctSuggestions(out)
    && forall i :: 0 <= i < |out| ==>
         Describes(out[i], verses) && out[i].translation == translation && out[i].reasons != []
  }

  /** Candidates for distinct corpus verses, at most 40 of them. */
  predicate CandidateBounds(ranked: seq<Candidate>, verses: seq<Verse>) {
    && |ranked| <= FUSED_LIMIT && |ranked| <= |verses| && DistinctIds(ranked)
    && forall i :: 0 <= i < |ranked| ==> ranked[i].verse in verses
  }

  lemma ReRankBounds(verses: seq<Verse>, cache: seq<Vec>, q: Vec, themes: seq<string>,
                     sim: (Vec, Vec) -> real, hits: seq<Option<seq<string>>>)
    requires |cache| >= |verses|
    ensures var bm := BmIds(hits);
      var fused := SliceTo(RrfSpec([DenseTop(verses, cache, q, sim), bm], RRF_K), FUSED_LIMIT);
      CandidateBounds(ReRank(verses, cache, q, sim, themes, bm, fused), verses)
  {
    var dense := DenseTop(verses, cache, q, sim);
    var bm := BmIds(hits);
    var fused := SliceTo(RrfSpec([dense, bm], RRF_K), FUSED_LIMIT);
    var ranked := ReRank(verses, cache, q, sim, themes, bm, fused);
    assert Distinct(fused) by {
      RrfExactlyOnce([dense, bm], RRF_K);
    }
    ReRankSound(verses, cache, q, sim, themes, bm, fused);
    ReRankOrdered(verses, cache, q, sim, themes, bm, fused);
    DistinctIdsBound(ranked, verses);
  }

  lemma StabilizeBounds(ranked: seq<Candidate>, prev: Option<Suggestion>, verses: seq<Verse>)
    requires CandidateBounds(ranked, verses)
    ensures CandidateBounds(Stabilize(ranked, prev), verses)
  {
    var st := Stabilize(ranked, prev);
    StabilizeSpec(ranked, prev);
    StabilizeDistinct(ranked, prev);
    forall i | 0 <= i < |st| ensures st[i].verse in verses {
      assert st[i] in multiset(ranked);
      var j :| 0 <= j < |ranked| && ranked[j] == st[i];
    }
  }

  lemma PresentBounds(ranked: seq<Candidate>, verses: seq<Verse>, limit: int, translation: string,
                      round3: real -> real)
    requires CandidateBounds(ranked, verses)
    ensures AnswerBounds(Present(ranked, limit, translation, round3), verses, limit, translation)
  {
    var out := Present(ranked, limit, translation, round3);
    forall i | 0 <= i < |out| ensures Describes(out[i], verses) {
      assert ranked[i].verse in verses;
    }
  }

  /** Every answer keeps `AnswerBounds`. */
  lemma AnswerSpec(verses: seq<Verse>, cache: seq<Vec>, q: Vec, themes: seq<string>,
                   topK: Option<int>, translation: string, prev: Option<Suggestion>,
                   sim: (Vec, Vec) -> real, hits: seq<Option<seq<string>>>, round3: real -> real)
    requires |cache| >= |verses|
    ensures AnswerBounds(Answer(verses, cache, q, themes, topK, translation, prev, sim, hits, round3),
                         verses, topK.GetOr(DEFAULT_TOP_K), translation)
  {
    var bm := BmIds(hits);
    var fused := SliceTo(RrfSpec([DenseTop(verses, cache, q, sim), bm], RRF_K), FUSED_LIMIT);
    var ranked := ReRank(verses, cache, q, sim, themes, bm, fused);
    if ranked != [] {
      ReRankBounds(verses, cache, q, themes, sim, hits);
      StabilizeBounds(ranked, prev, verses);
      PresentBounds(Stabilize(ranked, prev), verses, topK.GetOr(DEFAULT_TOP_K), translation, round3);
    }
  }

  /** After the window is embedded: the cache is refilled only when empty,
      and then entry `j` embeds verse `j`. */
  lemma AfterEmbeddingCache(verses: seq<Verse>, cache: seq<Vec>, indexBuilt: bool, q: Vec, themes: seq<string>,
                            topK: Option<int>, translation: string, prev: Option<Suggestion>,
                            embed: string -> Option<Vec>, sim: (Vec, Vec) -> real,
                            hits: seq<Option<seq<string>>>, round3: real -> real)
    ensures var o := AfterEmbedding(verses, cache, indexBuilt, q, themes, topK, translation, prev,
                                    embed, sim, hits, round3);
      && (cache != [] ==> o.cache == cache)
      && (cache == [] ==> (|o.cache| <= |verses| &&
            forall j :: 0 <= j < |o.cache| ==> embed(verses[j].text) == Some(o.cache[j])))
  {
    AfterEmbeddingSuccess(verses, cache, indexBuilt, q, themes, topK, translation, prev, embed, sim, hits, round3);
    PopulateAligned(verses, embed, 0);
  }

  /** A window that is not blank and embeds to `q` goes on to the cache step. */
  lemma RespondEmbedded(verses: seq<Verse>, cache: seq<Vec>, indexBuilt: bool,
                        window: string, q: Vec, topK: Option<int>, translation: string, prev: Option<Suggestion>,
                        embed: string -> Option<Vec>, sim: (Vec, Vec) -> real,
                        hits: seq<Option<seq<string>>>, round3: real -> real)
    requires !IsBlank(window) && embed(window) == Some(q)
    ensures Respond(verses, cache, indexBuilt, window, topK, translation, prev, embed, sim, hits, round3)
      == AfterEmbedding(verses, cache, indexBuilt, q, DetectThemes(window), topK, translation, prev,
                        embed, sim, hits, round3)
  {
  }

  /** Once the cache covers the corpus and the index exists, the answer is
      the ranking over that cache. */
  lemma AfterEmbeddingSuccess(verses: seq<Verse>, cache: seq<Vec>, indexBuilt: bool, q: Vec, themes: seq<string>,
                              topK: Option<int>, translation: string, prev: Option<Suggestion>,
                              embed: string -> Option<Vec>, sim: (Vec, Vec) -> real,
                              hits: seq<Option<seq<string>>>, round3: real -> real)
    ensures var c := if cache == [] then Populate(verses, embed, 0) else cache;
      var o := AfterEmbedding(verses, cache, indexBuilt, q, themes, topK, translation, prev,
                              embed, sim, hits, round3);
      && o.cache == c
      && (cache == [] && |c| < |verses| ==> o.result == Failure(ProviderUnavailable))
      && (cache != [] && |c| < |verses| ==> o.result == Failure(EmbeddingMissing))
      && (|c| >= |verses| && !indexBuilt ==> o.result == Failure(IndexMissing))
      && (|c| >= |verses| && indexBuilt ==>
            o.result == Success(Answer(verses, c, q, themes, topK, translation, prev, sim, hits, round3)))
  {
  }

  /** After the window is embedded: the error reported depends only on how
      complete the cache is and on the index. */
  lemma AfterEmbeddingErrors(verses: seq<Verse>, cache: seq<Vec>, indexBuilt: bool, q: Vec, themes: seq<string>,
                             topK: Option<int>, translation: string, prev: Option<Suggestion>,
                             embed: string -> Option<Vec>, sim: (Vec, Vec) -> real,
                             hits: seq<Option<seq<string>>>, round3: real -> real)
    ensures var o := AfterEmbedding(verses, cache, indexBuilt, q, themes, topK, translation, prev,
                                    embed, sim, hits, round3);
      && (o.result == Failure(ProviderUnavailable) <==>
            cache == [] && exists j :: 0 <= j < |verses| && embed(verses[j].text).None?)
      && (o.result == Failure(EmbeddingMissing) <==> cache != [] && |cache| < |verses|)
      && (o.result == Failure(IndexMissing) <==> |o.cache| >= |verses| && !indexBuilt)
      && (o.result.Success? <==> |o.cache| >= |verses| && indexBuilt)
  {
    PopulateComplete(verses, embed, 0);
    PopulateAligned(verses, embed, 0);
  }

  /** How a query can reject: the embedder fails on the window, or lazy
      population hits a verse it cannot embed; the cache misses an
      embedding it was not refilled for; or the index was never built. A
      blank window never rejects. */
  lemma RespondErrors(verses: seq<Verse>, cache: seq<Vec>, indexBuilt: bool,
                      window: string, topK: Option<int>, translation: string, prev: Option<Suggestion>,
                      embed: string -> Option<Vec>, sim: (Vec, Vec) -> real,
                      hits: seq<Option<seq<string>>>, round3: real -> real)
    ensures var o := Respond(verses, cache, indexBuilt, window, topK, translation, prev, embed, sim, hits, round3);
      && (o.result == Failure(ProviderUnavailable) <==>
            !IsBlank(window) && (embed(window).None? ||
              (cache == [] && exists j :: 0 <= j < |verses| && embed(verses[j].text).None?)))
      && (o.result == Failure(EmbeddingMissing) <==>
            !IsBlank(window) && embed(window).Some? && cache != [] && |cache| < |verses|)
      && (o.result == Failure(IndexMissing) <==>
            !IsBlank(window) && embed(window).Some? && |o.cache| >= |verses| && !indexBuilt)
  {
    if !IsBlank(window) && embed(window).Some? {
      var th := DetectThemes(window);
      AfterEmbeddingErrors(verses, cache, indexBuilt, embed(window).value, th, topK, translation, prev,
                           embed, sim, hits, round3);
    }
  }

  /** Lazy population runs only on an empty cache and leaves it aligned with
      the corpus: entry `j` embeds verse `j`. A blank window leaves
      everything as it was and answers `[]`. */
  lemma RespondCache(verses: seq<Verse>, cache: seq<Vec>, indexBuilt: bool,
                     window: string, topK: Option<int>, translation: string, prev: Option<Suggestion>,
                     embed: string -> Option<Vec>, sim: (Vec, Vec) -> real,
                     hits: seq<Option<seq<string>>>, round3: real -> real)
    ensures var o := Respond(verses, cache, indexBuilt, window, topK, translation, prev, embed, sim, hits, round3);
      && (IsBlank(window) ==> o == Outcome(Success([]), cache))
      && (cache != [] || IsBlank(window) || embed(window).None? ==> o.cache == cache)
      && (cache == [] ==> (|o.cache| <= |verses| &&
            forall j :: 0 <= j < |o.cache| ==> embed(verses[j].text) == Some(o.cache[j])))
      && (o.result.Success? && !IsBlank(window) ==> |o.cache| >= |verses|)
  {
    if !IsBlank(window) && embed(window).Some? {
      var th := DetectThemes(window);
      AfterEmbeddingCache(verses, cache, indexBuilt, embed(window).value, th, topK, translation, prev,
                          embed, sim, hits, round3);
      AfterEmbeddingErrors(verses, cache, indexBuilt, embed(window).value, th, topK, translation, prev,
                           embed, sim, hits, round3);
    }
  }

  lemma AfterEmbeddingAnswers(verses: seq<Verse>, cache: seq<Vec>, indexBuilt: bool, q: Vec, themes: seq<string>,
                              topK: Option<int>, translation: string, prev: Option<Suggestion>,
                              embed: string -> Option<Vec>, sim: (Vec, Vec) -> real,
                              hits: seq<Option<seq<string>>>, round3: real -> real)
    ensures var o := AfterEmbedding(verses, cache, indexBuilt, q, themes, topK, translation, prev,
                                    embed, sim, hits, round3);
      o.result.Success? ==> AnswerBounds(o.result.value, verses, topK.GetOr(DEFAULT_TOP_K), translation)
  {
    var cache' := if cache == [] then Populate(verses, embed, 0) else cache;
    if |cache'| >= |verses| {
      AnswerSpec(verses, cache', q, themes, topK, translation, prev, sim, hits, round3);
    }
  }

  /** Every answer of a query keeps `AnswerBounds`. */
  lemma RespondAnswers(verses: seq<Verse>, cache: seq<Vec>, indexBuilt: bool,
                       window: string, topK: Option<int>, translation: string, prev: Option<Suggestion>,
                       embed: string -> Option<Vec>, sim: (Vec, Vec) -> real,
                       hits: seq<Option<seq<string>>>, round3: real -> real)
    ensures var o := Respond(verses, cache, indexBuilt, window, topK, translation, prev, embed, sim, hits, round3);
      o.result.Success? ==> AnswerBounds(o.result.value, verses, topK.GetOr(DEFAULT_TOP_K), translation)
  {
    if IsBlank(window) {
      assert AnswerBounds([], verses, topK.GetOr(DEFAULT_TOP_K), translation);
    } else if embed(window).Some? {
      AfterEmbeddingAnswers(verses, cache, indexBuilt, embed(window).value, DetectThemes(window), topK,
                            translation, prev, embed, sim, hits, round3);
    }
  }

  /** A lazy population that fails after whole batches leaves a non-empty,
      incomplete cache, and no later query refills it: every non-blank query
      whose window embeds is rejected for a missing embedding. */
  lemma NoRetryAfterPartialPopulation(verses: seq<Verse>, indexBuilt: bool,
                                      window: string, topK: Option<int>, translation: string, prev: Option<Suggestion>,
                                      embed: string -> Option<Vec>, sim: (Vec, Vec) -> real,
                                      hits: seq<Option<seq<string>>>, round3: real -> real,
                                      window': string, embed': string -> Option<Vec>)
    requires var o := Respond(verses, [], indexBuilt, window, topK, translation, prev, embed, sim, hits, round3);
      o.result == Failure(ProviderUnavailable) && o.cache != []
    requires !IsBlank(window') && embed'(window').Some?
    ensures var o := Respond(verses, [], indexBuilt, window, topK, translation, prev, embed, sim, hits, round3);
      Respond(verses, o.cache, indexBuilt, window', topK, translation, prev, embed', sim, hits, round3).result ==
        Failure(EmbeddingMissing)
  {
    var o := Respond(verses, [], indexBuilt, window, topK, translation, prev, embed, sim, hits, round3);
    RespondErrors(verses, [], indexBuilt, window, topK, translation, prev, embed, sim, hits, round3);
    RespondCache(verses, [], indexBuilt, window, topK, translation, prev, embed, sim, hits, round3);
    RespondErrors(verses, o.cache, indexBuilt, window', topK, translation, prev, embed', sim, hits, round3);
  }

  /** The hysteresis step as the source performs it: `splice` the previous
      top out of `ranked`, then `unshift` it back in at the front. */
  method Hysteresis(ranked: seq<Candidate>, prev: Option<Suggestion>) returns (out: seq<Candidate>)
    ensures out == Stabilize(ranked, prev)
  {
    out := ranked;
    if prev.Some? && ranked != [] && prev.value.id != ranked[0].verse.id &&
       ranked[0].score - prev.value.confidence < HYSTERESIS_MARGIN {
      var i := FindCandidate(out, prev.value.id);
      if i >= 0 {
        var moved := out[i];
        out := out[..i] + out[i + 1..];
        out := [moved] + out;
      }
    }
  }

  /** Steps 1 to 6 as the method performs them, on a cache that covers the
      corpus. */
  method Rank(verses: seq<Verse>, cache: seq<Vec>, q: Vec, themes: seq<string>,
              topK: Option<int>, translation: string, prev: Option<Suggestion>,
              sim: (Vec, Vec) -> real, hits: seq<Option<seq<string>>>, round3: real -> real)
    returns (out: seq<Suggestion>)
    requires |cache| >= |verses|
    ensures out == Answer(verses, cache, q, themes, topK, translation, prev, sim, hits, round3)
  {
    var dense := DenseTop(verses, cache, q, sim);
    var bm := BmIds(hits);
    var fusedAll := Rrf([dense, bm], RRF_K);
    var fused := SliceTo(fusedAll, FUSED_LIMIT);
    var ranked := ReRank(verses, cache, q, sim, themes, bm, fused);
    if ranked == [] {
      return [];
    }
    ranked := Hysteresis(ranked, prev);
    out := Present(ranked, topK.GetOr(DEFAULT_TOP_K), translation, round3);
  }

  /** The search engine's module state. */
  class SearchEngine {
    var verses: seq<Verse>
    var embeddings: seq<Vec>
    var indexBuilt: bool

    /** The state before `initEngine`: no corpus, no cache, no index. */
    constructor ()
      ensures verses == [] && embeddings == [] && !indexBuilt
    {
      verses := [];
      embeddings := [];
      indexBuilt := false;
    }

    /** Loads the corpus, builds the lexical index and takes the precomputed
        embeddings, if any, as the cache. */
    method InitEngine(bible: seq<Verse>, precomputed: Option<seq<Vec>>)
      modifies this
      ensures verses == bible && indexBuilt
      ensures embeddings == precomputed.GetOr([])
    {
      verses := bible;
      indexBuilt := true;
      embeddings := precomputed.GetOr([]);
    }

    /** The lazy loop: embeds the corpus texts 500 at a time and pushes each
        batch onto the cache; a failing batch ends the loop with the earlier
        batches kept. */
    method PopulateCache(embed: string -> Option<Vec>) returns (ok: bool)
      requires embeddings == []
      modifies this
      ensures verses == old(verses) && indexBuilt == old(indexBuilt)
      ensures embeddings == Populate(verses, embed, 0)
      ensures |embeddings| <= |verses|
      ensures ok <==> |embeddings| == |verses|
    {
      var vs := verses;
      ghost var target := Populate(vs, embed, 0);
      var i: nat := 0;
      while i < |vs|
        invariant verses == vs && indexBuilt == old(indexBuilt)
        invariant embeddings + Populate(vs, embed, i) == target
        invariant |embeddings| == if i < |vs| then i else |vs|
        decreases |vs| - i
      {
        var batch := EmbedBatch(Texts(vs[i..BatchEnd(i, |vs|)]), embed);
        PopulateStep(vs, embed, i, embeddings, target);
        if batch.None? {
          ok := false;
          return;
        }
        embeddings := embeddings + batch.value;
        i := i + BATCH;
      }
      ok := true;
    }

    /** `querySuggestions`: the method's steps, with the hysteresis reorder
        done as the source does it, by `splice` and `unshift`. */
    method QuerySuggestions(window: string, topK: Option<int>, translation: string, prev: Option<Suggestion>,
                            embed: string -> Option<Vec>, sim: (Vec, Vec) -> real,
                            hits: seq<Option<seq<string>>>, round3: real -> real)
      returns (r: Result<seq<Suggestion>, QueryError>)
      modifies this
      ensures verses == old(verses) && indexBuilt == old(indexBuilt)
      ensures var o := Respond(old(verses), old(embeddings), old(indexBuilt), window, topK, translation,
                               prev, embed, sim, hits, round3);
        r == o.result && embeddings == o.cache
    {
      if IsBlank(window) {
        return Success([]);
      }
      var themes := DetectThemes(window);
      var qv := embed(window);
      ghost var cache := embeddings;
      if qv.None? {
        return Failure(ProviderUnavailable);
      }
      var q := qv.value;
      ghost var o := AfterEmbedding(verses, cache, indexBuilt, q, themes, topK, translation, prev,
                                    embed, sim, hits, round3);
      RespondEmbedded(verses, cache, indexBuilt, window, q, topK, translation, prev, embed, sim, hits, round3);
      AfterEmbeddingSuccess(verses, cache, indexBuilt, q, themes, topK, translation, prev, embed, sim, hits, round3);
      if embeddings == [] {
        var ok := PopulateCache(embed);
        if !ok {
          return Failure(ProviderUnavailable);
        }
      }
      if |embeddings| < |verses| {
        return Failure(EmbeddingMissing);
      }
      if !indexBuilt {
        return Failure(IndexMissing);
      }
      var out := Rank(verses, embeddings, q, themes, topK, translation, prev, sim, hits, round3);
      r := Success(out);
    }
  }
}
