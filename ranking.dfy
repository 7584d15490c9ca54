/** The pure stages of `querySuggestions` (src/search/engine.ts): the dense
    top list, the lexical id list, the re-rank with its small boosts and
    reasons, the one-step hysteresis and the mapping to suggestions. The
    similarity function, the query vector and the index hits are inputs. */
module Ranking {
  import opened Wrappers
  import opened Text
  import opened Lists
  import opened Types

  /** Length of the dense candidate list. */
  const DENSE_LIMIT: int := 50
  /** Length of the fused candidate list. */
  const FUSED_LIMIT: int := 40
  /** `rrf`'s default constant. */
  const RRF_K: nat := 60
  /** Score margin under which the previous top suggestion is kept. */
  const HYSTERESIS_MARGIN: real := 0.05
  /** Default number of suggestions. */
  const DEFAULT_TOP_K: int := 5

  /* ---------------- Dense retrieval ---------------- */

  /** Each corpus verse's id with the similarity of the query to the cached
      embedding at the same index. */
  function DenseEntries(verses: seq<Verse>, emb: seq<Vec>, q: Vec, sim: (Vec, Vec) -> real): (r: seq<Scored<string>>)
    requires |emb| >= |verses|
    ensures |r| == |verses| && PosIncreasing(r)
    ensures forall i :: 0 <= i < |verses| ==> r[i] == Scored(i, verses[i].id, sim(q, emb[i]))
  {
    seq(|verses|, i requires 0 <= i < |verses| => Scored(i, verses[i].id, sim(q, emb[i])))
  }

  /** `denseTop`: the ids of the 50 verses most similar to the query, most
      similar first, ties in corpus order. */
  function DenseTop(verses: seq<Verse>, emb: seq<Vec>, q: Vec, sim: (Vec, Vec) -> real): seq<string>
    requires |emb| >= |verses|
  {
    SliceTo(Items(SortDesc(DenseEntries(verses, emb, q, sim))), DENSE_LIMIT)
  }

  /** The dense list holds `min(50, |verses|)` corpus ids, in non-increasing
      similarity, and never repeats an id when the corpus does not. */
  lemma DenseTopShape(verses: seq<Verse>, emb: seq<Vec>, q: Vec, sim: (Vec, Vec) -> real)
    requires |emb| >= |verses|
    ensures |DenseTop(verses, emb, q, sim)| == if |verses| < DENSE_LIMIT then |verses| else DENSE_LIMIT
    ensures forall x :: x in DenseTop(verses, emb, q, sim) ==> exists i :: 0 <= i < |verses| && verses[i].id == x
    ensures Distinct(Ids(verses)) ==> Distinct(DenseTop(verses, emb, q, sim))
  {
    var e := DenseEntries(verses, emb, q, sim);
    var sorted := Items(SortDesc(e));
    ItemsSortDesc(e);
    assert Items(e) == Ids(verses);
    forall x | x in DenseTop(verses, emb, q, sim)
      ensures exists i :: 0 <= i < |verses| && verses[i].id == x
    {
      assert x in sorted;
      assert x in multiset(Ids(verses));
      var i :| 0 <= i < |verses| && Ids(verses)[i] == x;
    }
    if Distinct(Ids(verses)) {
      DistinctPermutation(Ids(verses), sorted);
      PrefixDistinct(sorted, DenseTop(verses, emb, q, sim));
    }
  }

  /** The dense list depends only on the order of the similarities: any
      strictly increasing reshaping of them gives the same ids. */
  lemma DenseTopRankOnly(verses: seq<Verse>, emb: seq<Vec>, q: Vec,
                         sim: (Vec, Vec) -> real, sim': (Vec, Vec) -> real, g: real -> real)
    requires |emb| >= |verses|
    requires StrictlyIncreasing(g)
    requires forall i :: 0 <= i < |verses| ==> sim'(q, emb[i]) == g(sim(q, emb[i]))
    ensures DenseTop(verses, emb, q, sim') == DenseTop(verses, emb, q, sim)
  {
    var e := DenseEntries(verses, emb, q, sim);
    RescoreAt(e, g);
    assert DenseEntries(verses, emb, q, sim') == Rescore(e, g);
    SortDescRescore(e, g);
  }

  function Ids(verses: seq<Verse>): (r: seq<string>)
    ensures |r| == |verses| && forall i :: 0 <= i < |verses| ==> r[i] == verses[i].id
  {
    seq(|verses|, i requires 0 <= i < |verses| => verses[i].id)
  }

  lemma PrefixDistinct(xs: seq<string>, p: seq<string>)
    requires Distinct(xs) && p <= xs
    ensures Distinct(p)
  {
  }

  /* ---------------- Lexical retrieval ---------------- */

  /** The ids of each per-field result; a field without results gives none. */
  function HitIds(hits: seq<Option<seq<string>>>): (r: seq<seq<string>>)
    ensures |r| == |hits| && forall i :: 0 <= i < |hits| ==> r[i] == hits[i].GetOr([])
  {
    seq(|hits|, i requires 0 <= i < |hits| => hits[i].GetOr([]))
  }

  /** `bmIds`: the ids of all per-field results, each once. */
  function BmIds(hits: seq<Option<seq<string>>>): seq<string> {
    Dedup(Flatten(HitIds(hits)))
  }

  /** `bmIds` holds exactly the ids some field result reports, without
      repetitions, in the order of their first appearance across the
      concatenated field results. */
  lemma BmIdsFirstSeen(hits: seq<Option<seq<string>>>)
    ensures forall x :: x in BmIds(hits) <==>
      exists i :: 0 <= i < |hits| && hits[i].Some? && x in hits[i].value
    ensures Distinct(BmIds(hits))
    ensures forall i, j :: 0 <= i < j < |BmIds(hits)| ==>
      FirstIndex(Flatten(HitIds(hits)), BmIds(hits)[i]) < FirstIndex(Flatten(HitIds(hits)), BmIds(hits)[j])
  {
    DedupFirstSeen(Flatten(HitIds(hits)));
    forall x ensures x in BmIds(hits) <==> exists i :: 0 <= i < |hits| && hits[i].Some? && x in hits[i].value {
      if x in BmIds(hits) {
        var i :| 0 <= i < |HitIds(hits)| && x in HitIds(hits)[i];
        assert hits[i].Some?;
      }
    }
  }

  /* ---------------- Re-rank ---------------- */

  /** A kept candidate: the verse, its final score and its reasons. */
  datatype Candidate = Candidate(verse: Verse, score: real, reasons: seq<string>)

  /** The index of the first verse with this id, or -1; the verse lookup of
      the source finds the verse at this index. */
  function FindVerse(verses: seq<Verse>, id: string): (r: int)
    ensures -1 <= r < |verses|
    ensures 0 <= r ==> verses[r].id == id
    ensures forall j :: 0 <= j < |verses| && (r < 0 || j < r) ==> verses[j].id != id
    decreases |verses|
  {
    if verses == [] then -1
    else if verses[0].id == id then 0
    else
      var r := FindVerse(verses[1..], id);
      if r < 0 then -1 else r + 1
  }

  /** The verse themes that are also query themes, in the verse's order. */
  function SharedThemes(ts: seq<string>, themes: seq<string>): (r: seq<string>)
    ensures forall t :: t in r <==> t in ts && t in themes
    ensures IsSubsequence(r, ts)
  {
    if ts == [] then []
    else if ts[0] in themes then [ts[0]] + SharedThemes(ts[1..], themes)
    else
      var r := SharedThemes(ts[1..], themes);
      SubsequenceCons(r, ts);
      r
  }

  /** 0.05 when the verse shares a theme with the query, else 0. */
  function ThemeBoost(v: Verse, themes: seq<string>): real {
    if v.themes.Some? && SharedThemes(v.themes.value, themes) != [] then 0.05 else 0.0
  }

  /** 0.02 when the id is among the lexical hits, else 0. */
  function LexScore(bm: seq<string>, id: string): real {
    if id in bm then 0.02 else 0.0
  }

  /** The weighted score: 0.8 of the dense similarity, 0.15 of the lexical
      score and 0.05 of the theme boost. */
  function Weighted(dense: real, lex: real, boost: real): real {
    0.8 * dense + 0.15 * lex + 0.05 * boost
  }

  /** The explanation strings, in the order they are pushed. */
  function Reasons(v: Verse, themes: seq<string>, dense: real, lex: real, boost: real): seq<string> {
    (if boost != 0.0 && v.themes.Some?
     then ["theme match: " + Join(SharedThemes(v.themes.value, themes), ", ")] else [])
    + (if lex != 0.0 then ["lexical phrase match"] else [])
    + (if dense > 0.6 then ["semantic similarity"] else [])
  }

  /** The `map` callback of the re-rank: `None` for an id without a verse or
      without a cached embedding. */
  function Evaluate(verses: seq<Verse>, emb: seq<Vec>, q: Vec, sim: (Vec, Vec) -> real,
                    themes: seq<string>, bm: seq<string>, id: string): (r: Option<Candidate>)
    ensures r.Some? ==> r.value.verse.id == id && r.value.verse in verses
  {
    var i := FindVerse(verses, id);
    if i < 0 || i >= |emb| then None
    else
      var v := verses[i];
      var boost := ThemeBoost(v, themes);
      var dense := sim(q, emb[i]);
      var lex := LexScore(bm, id);
      Some(Candidate(v, Weighted(dense, lex, boost), Reasons(v, themes, dense, lex, boost)))
  }

  /** What a kept candidate is made of: its verse is the first corpus verse
      with that id, the boosts follow the lexical and theme tests, and each
      reason is present exactly when its condition holds. Ids with no verse
      or no embedding are dropped. */
  lemma EvaluateSpec(verses: seq<Verse>, emb: seq<Vec>, q: Vec, sim: (Vec, Vec) -> real,
                     themes: seq<string>, bm: seq<string>, id: string)
    ensures var r := Evaluate(verses, emb, q, sim, themes, bm, id);
      r.None? <==> (forall j :: 0 <= j < |verses| ==> verses[j].id != id) ||
                   FindVerse(verses, id) >= |emb|
    ensures var r := Evaluate(verses, emb, q, sim, themes, bm, id);
      r.Some? ==>
        var i := FindVerse(verses, id);
        var dense := sim(q, emb[i]);
        var sharesTheme := exists t :: t in r.value.verse.themes.GetOr([]) && t in themes;
        && r.value.verse == verses[i] && r.value.verse.id == id
        && r.value.score == 0.8 * dense + 0.15 * (if id in bm then 0.02 else 0.0)
                            + 0.05 * (if sharesTheme then 0.05 else 0.0)
        && ("lexical phrase match" in r.value.reasons <==> id in bm)
        && ("semantic similarity" in r.value.reasons <==> dense > 0.6)
        && ((exists k :: 0 <= k < |r.value.reasons| && HasThemePrefix(r.value.reasons[k])) <==> sharesTheme)
        && |r.value.reasons| <= 3
  {
    var r := Evaluate(verses, emb, q, sim, themes, bm, id);
    if r.Some? {
      var i := FindVerse(verses, id);
      var v := verses[i];
      var ts := v.themes.GetOr([]);
      assert (exists t :: t in ts && t in themes) <==> (v.themes.Some? && SharedThemes(ts, themes) != []) by {
        if exists t :: t in ts && t in themes {
          var t :| t in ts && t in themes;
          assert t in SharedThemes(ts, themes);
        }
        if v.themes.Some? && SharedThemes(ts, themes) != [] {
          var t := SharedThemes(ts, themes)[0];
          assert t in ts && t in themes;
        }
      }
      var lex := "lexical phrase match";
      var sem := "semantic similarity";
      assert !HasThemePrefix(lex) by { assert lex[0] != 't'; }
      assert !HasThemePrefix(sem) by { assert sem[0] != 't'; }
      var tm := "theme match: " + Join(SharedThemes(ts, themes), ", ");
      assert HasThemePrefix(tm) by { assert tm[..|THEME_PREFIX|] == THEME_PREFIX; }
      assert tm != lex && tm != sem;
      var rs := r.value.reasons;
      var shares := v.themes.Some? && SharedThemes(ts, themes) != [];
      if shares {
        assert rs[0] == tm;
      } else {
        forall k | 0 <= k < |rs| ensures !HasThemePrefix(rs[k]) {
          assert rs[k] == lex || rs[k] == sem;
        }
      }
    }
  }

  const THEME_PREFIX: string := "theme match: "

  predicate HasThemePrefix(s: string) {
    THEME_PREFIX <= s
  }

  /** The boosts move a score by at most 0.0055 above `0.8 * dense`, so a
      dense similarity lead of more than 0.006875 is never overturned. */
  lemma BoostsAreSmall(dense: real, lex: real, boost: real, dense': real, lex': real, boost': real)
    requires lex == 0.0 || lex == 0.02
    requires boost == 0.0 || boost == 0.05
    requires lex' == 0.0 || lex' == 0.02
    requires boost' == 0.0 || boost' == 0.05
    ensures 0.8 * dense <= Weighted(dense, lex, boost) <= 0.8 * dense + 0.0055
    ensures dense > dense' + 0.006875 ==> Weighted(dense, lex, boost) > Weighted(dense', lex', boost')
  {
  }

  /** The re-rank `map` over the fused ids. */
  function Evaluations(verses: seq<Verse>, emb: seq<Vec>, q: Vec, sim: (Vec, Vec) -> real,
                       themes: seq<string>, bm: seq<string>, fused: seq<string>): (r: seq<Option<Candidate>>)
    ensures |r| == |fused|
    ensures forall i :: 0 <= i < |fused| ==> r[i] == Evaluate(verses, emb, q, sim, themes, bm, fused[i])
  {
    seq(|fused|, i requires 0 <= i < |fused| => Evaluate(verses, emb, q, sim, themes, bm, fused[i]))
  }

  /** Drops the missing evaluations; each kept entry remembers its position. */
  function KeepPresent(evals: seq<Option<Candidate>>): (r: seq<Scored<Candidate>>)
    ensures |r| <= |evals| && PosIncreasing(r)
    ensures forall e :: e in r ==> (e.pos < |evals| && evals[e.pos] == Some(e.item) && e.score == e.item.score)
    decreases |evals|
  {
    if evals == [] then []
    else
      var n := |evals| - 1;
      var front := KeepPresent(evals[..n]);
      match evals[n]
      case None => front
      case Some(c) => front + [Scored(n, c, c.score)]
  }

  /** Every present evaluation is kept. */
  lemma {:induction false} KeepPresentComplete(evals: seq<Option<Candidate>>, p: nat)
    requires p < |evals| && evals[p].Some?
    ensures exists e :: e in KeepPresent(evals) && e.pos == p
    decreases |evals|
  {
    var n := |evals| - 1;
    var front := KeepPresent(evals[..n]);
    if p == n {
      var e := Scored(n, evals[n].value, evals[n].value.score);
      assert KeepPresent(evals) == front + [e];
      assert e in KeepPresent(evals);
    } else {
      KeepPresentComplete(evals[..n], p);
      var e :| e in front && e.pos == p;
      assert KeepPresent(evals) == front || KeepPresent(evals) == front + [Scored(n, evals[n].value, evals[n].value.score)];
      assert e in KeepPresent(evals);
    }
  }

  function Kept(verses: seq<Verse>, emb: seq<Vec>, q: Vec, sim: (Vec, Vec) -> real,
                themes: seq<string>, bm: seq<string>, fused: seq<string>): seq<Scored<Candidate>>
  {
    KeepPresent(Evaluations(verses, emb, q, sim, themes, bm, fused))
  }

  /** `ranked` before the hysteresis step: the kept candidates by
      non-increasing score, ties in fused order. */
  function ReRank(verses: seq<Verse>, emb: seq<Vec>, q: Vec, sim: (Vec, Vec) -> real,
                  themes: seq<string>, bm: seq<string>, fused: seq<string>): seq<Candidate>
  {
    Items(SortDesc(Kept(verses, emb, q, sim, themes, bm, fused)))
  }

  /** Every sorted entry is a kept entry. */
  lemma SortedKept(verses: seq<Verse>, emb: seq<Vec>, q: Vec, sim: (Vec, Vec) -> real,
                   themes: seq<string>, bm: seq<string>, fused: seq<string>)
    ensures var s := SortDesc(Kept(verses, emb, q, sim, themes, bm, fused));
      && SortedDesc(s)
      && forall i :: 0 <= i < |s| ==> (s[i].pos < |fused| && s[i].score == s[i].item.score &&
           Evaluate(verses, emb, q, sim, themes, bm, fused[s[i].pos]) == Some(s[i].item))
  {
    var kept := Kept(verses, emb, q, sim, themes, bm, fused);
    var s := SortDesc(kept);
    SortDescSorted(kept);
    forall i | 0 <= i < |s|
      ensures s[i].pos < |fused| && s[i].score == s[i].item.score &&
              Evaluate(verses, emb, q, sim, themes, bm, fused[s[i].pos]) == Some(s[i].item)
    {
      assert s[i] in multiset(kept);
    }
  }

  /** Each re-ranked candidate is the evaluation of one of the fused ids; its
      verse belongs to the corpus. */
  lemma ReRankSound(verses: seq<Verse>, emb: seq<Vec>, q: Vec, sim: (Vec, Vec) -> real,
                    themes: seq<string>, bm: seq<string>, fused: seq<string>)
    ensures var r := ReRank(verses, emb, q, sim, themes, bm, fused);
      && |r| <= |fused|
      && forall i :: 0 <= i < |r| ==> (r[i].verse in verses && r[i].verse.id in fused &&
           Evaluate(verses, emb, q, sim, themes, bm, r[i].verse.id) == Some(r[i]))
  {
    var s := SortDesc(Kept(verses, emb, q, sim, themes, bm, fused));
    var r := ReRank(verses, emb, q, sim, themes, bm, fused);
    SortedKept(verses, emb, q, sim, themes, bm, fused);
    forall i | 0 <= i < |r|
      ensures r[i].verse in verses && r[i].verse.id in fused &&
              Evaluate(verses, emb, q, sim, themes, bm, r[i].verse.id) == Some(r[i])
    {
    }
  }

  /** No fused id that has a verse and an embedding is lost. */
  lemma ReRankComplete(verses: seq<Verse>, emb: seq<Vec>, q: Vec, sim: (Vec, Vec) -> real,
                       themes: seq<string>, bm: seq<string>, fused: seq<string>, id: string)
    requires id in fused && Evaluate(verses, emb, q, sim, themes, bm, id).Some?
    ensures exists i :: (0 <= i < |ReRank(verses, emb, q, sim, themes, bm, fused)| &&
      ReRank(verses, emb, q, sim, themes, bm, fused)[i].verse.id == id)
  {
    var kept := Kept(verses, emb, q, sim, themes, bm, fused);
    var evals := Evaluations(verses, emb, q, sim, themes, bm, fused);
    var p :| 0 <= p < |fused| && fused[p] == id;
    assert evals[p] == Evaluate(verses, emb, q, sim, themes, bm, id);
    KeepPresentComplete(evals, p);
    var e :| e in kept && e.pos == p;
    assert evals[p] == Some(e.item);
    assert e.item.verse.id == id;
    SortedItem(kept, e);
    var items := Items(SortDesc(kept));
    var i :| 0 <= i < |items| && items[i] == e.item;
    assert ReRank(verses, emb, q, sim, themes, bm, fused) == items;
  }

  /** The re-ranked list is ordered by non-increasing score; equal scores
      keep their fused order. */
  lemma ReRankOrdered(verses: seq<Verse>, emb: seq<Vec>, q: Vec, sim: (Vec, Vec) -> real,
                      themes: seq<string>, bm: seq<string>, fused: seq<string>)
    ensures var r := ReRank(verses, emb, q, sim, themes, bm, fused);
      forall i, j :: 0 <= i < j < |r| ==> r[i].score >= r[j].score
    ensures Distinct(fused) ==> DistinctIds(ReRank(verses, emb, q, sim, themes, bm, fused))
  {
    var s := SortDesc(Kept(verses, emb, q, sim, themes, bm, fused));
    var r := ReRank(verses, emb, q, sim, themes, bm, fused);
    SortedKept(verses, emb, q, sim, themes, bm, fused);
    forall i, j | 0 <= i < j < |r| ensures r[i].score >= r[j].score {
      assert Precedes(s[i], s[j]);
    }
    if Distinct(fused) {
      forall i, j | 0 <= i < j < |r| ensures r[i].verse.id != r[j].verse.id {
        assert Precedes(s[i], s[j]);
      }
    }
  }

  predicate DistinctIds(r: seq<Candidate>) {
    forall i, j :: 0 <= i < j < |r| ==> r[i].verse.id != r[j].verse.id
  }

  /* ---------------- Hysteresis ---------------- */

  /** The index of the first candidate for this id, or -1. */
  function FindCandidate(ranked: seq<Candidate>, id: string): (r: int)
    ensures -1 <= r < |ranked|
    ensures 0 <= r ==> ranked[r].verse.id == id
    ensures forall j :: 0 <= j < |ranked| && (r < 0 || j < r) ==> ranked[j].verse.id != id
    decreases |ranked|
  {
    if ranked == [] then -1
    else if ranked[0].verse.id == id then 0
    else
      var r := FindCandidate(ranked[1..], id);
      if r < 0 then -1 else r + 1
  }

  /** The previous top differs from the new top, and the new top leads it by
      less than the margin. */
  predicate HysteresisApplies(ranked: seq<Candidate>, prev: Option<Suggestion>) {
    && prev.Some? && ranked != []
    && prev.value.id != ranked[0].verse.id
    && ranked[0].score - prev.value.confidence < HYSTERESIS_MARGIN
  }

  /** `ranked` after the hysteresis step. */
  function Stabilize(ranked: seq<Candidate>, prev: Option<Suggestion>): seq<Candidate> {
    if HysteresisApplies(ranked, prev) then
      var i := FindCandidate(ranked, prev.value.id);
      if i >= 0 then [ranked[i]] + (ranked[..i] + ranked[i + 1..]) else ranked
    else ranked
  }

  predicate Retained(ranked: seq<Candidate>, prev: Option<Suggestion>) {
    prev.Some? && exists j :: 0 <= j < |ranked| && ranked[j].verse.id == prev.value.id
  }

  /** Hysteresis is a permutation. It changes the list exactly when it
      applies and the previous top is still ranked; the previous top then
      comes first and the other candidates keep their relative order. */
  lemma StabilizeSpec(ranked: seq<Candidate>, prev: Option<Suggestion>)
    ensures multiset(Stabilize(ranked, prev)) == multiset(ranked)
    ensures |Stabilize(ranked, prev)| == |ranked|
    ensures Stabilize(ranked, prev) != ranked <==> HysteresisApplies(ranked, prev) && Retained(ranked, prev)
    ensures HysteresisApplies(ranked, prev) && Retained(ranked, prev) ==>
      Stabilize(ranked, prev)[0].verse.id == prev.value.id &&
      IsSubsequence(Stabilize(ranked, prev)[1..], ranked)
  {
    if HysteresisApplies(ranked, prev) {
      var i := FindCandidate(ranked, prev.value.id);
      if Retained(ranked, prev) {
        var j :| 0 <= j < |ranked| && ranked[j].verse.id == prev.value.id;
        assert i >= 0;
        var r := Stabilize(ranked, prev);
        MoveToFront(ranked, i);
        SubsequenceDelete(ranked, i);
        assert r[1..] == ranked[..i] + ranked[i + 1..];
        assert r[0] != ranked[0];
      }
    }
  }

  /** With the previous suggestion at 0.70, a new top at 0.74 is within the
      margin and the previous one is kept first; a new top at 0.76 wins. */
  lemma HysteresisExamples(v1: Verse, v2: Verse, prev: Suggestion)
    requires v1.id != v2.id && prev.id == v2.id && prev.confidence == 0.70
    ensures Stabilize([Candidate(v1, 0.74, []), Candidate(v2, 0.72, [])], Some(prev)) ==
      [Candidate(v2, 0.72, []), Candidate(v1, 0.74, [])]
    ensures Stabilize([Candidate(v1, 0.76, []), Candidate(v2, 0.72, [])], Some(prev)) ==
      [Candidate(v1, 0.76, []), Candidate(v2, 0.72, [])]
  {
    var r := [Candidate(v1, 0.74, []), Candidate(v2, 0.72, [])];
    assert FindCandidate(r, v2.id) == 1 by {
      assert r[1..][0].verse.id == v2.id;
    }
  }

  /* ---------------- Output ---------------- */

  /** One output suggestion; `round3` stands for `Number(x.toFixed(3))`. */
  function ToSuggestion(c: Candidate, translation: string, round3: real -> real): Suggestion {
    Suggestion(c.verse.id, c.verse.ref, c.verse.text, translation, round3(c.score), c.verse.themes,
               if c.reasons != [] then c.reasons else ["hybrid retrieval"])
  }

  /** The output step: at most `topK` suggestions (all of
      them when fewer are ranked), each describing the candidate at the same
      rank, and none without a reason. */
  function Present(ranked: seq<Candidate>, topK: int, translation: string, round3: real -> real): (r: seq<Suggestion>)
    ensures |r| <= |ranked|
    ensures 0 <= topK ==> |r| == if topK < |ranked| then topK else |ranked|
    ensures forall i :: 0 <= i < |r| ==> (
      && r[i].id == ranked[i].verse.id && r[i].ref == ranked[i].verse.ref
      && r[i].text == ranked[i].verse.text && r[i].themes == ranked[i].verse.themes
      && r[i].translation == translation && r[i].confidence == round3(ranked[i].score)
      && r[i].reasons != []
      && (ranked[i].reasons != [] ==> r[i].reasons == ranked[i].reasons)
      && (ranked[i].reasons == [] ==> r[i].reasons == ["hybrid retrieval"]))
  {
    var top := SliceTo(ranked, topK);
    seq(|top|, i requires 0 <= i < |top| => ToSuggestion(top[i], translation, round3))
  }

  /** Hysteresis keeps candidate ids distinct. */
  lemma StabilizeDistinct(ranked: seq<Candidate>, prev: Option<Suggestion>)
    requires DistinctIds(ranked)
    ensures DistinctIds(Stabilize(ranked, prev))
  {
    var r := Stabilize(ranked, prev);
    if r != ranked {
      var i := FindCandidate(ranked, prev.value.id);
      assert r == [ranked[i]] + (ranked[..i] + ranked[i + 1..]);
      forall a, b | 0 <= a < b < |r| ensures r[a].verse.id != r[b].verse.id {
        var fb := if b <= i then b - 1 else b;
        assert r[b] == ranked[fb];
        if a == 0 {
          assert r[a] == ranked[i] && fb != i;
        } else {
          var fa := if a <= i then a - 1 else a;
          assert r[a] == ranked[fa] && fa < fb;
        }
      }
    }
  }

  function IdSet(verses: seq<Verse>): (r: set<string>)
    ensures |r| <= |verses|
    ensures forall v :: v in verses ==> v.id in r
  {
    if verses == [] then {} else {verses[0].id} + IdSet(verses[1..])
  }

  lemma {:induction false} DistinctInSet(r: seq<Candidate>, ids: set<string>)
    requires DistinctIds(r) && forall i :: 0 <= i < |r| ==> r[i].verse.id in ids
    ensures |r| <= |ids|
    decreases |r|
  {
    if r != [] {
      var rest := ids - {r[0].verse.id};
      forall i | 0 <= i < |r[1..]| ensures r[1..][i].verse.id in rest {
        assert r[1..][i] == r[i + 1];
      }
      DistinctInSet(r[1..], rest);
    }
  }

  /** Candidates with distinct ids drawn from the corpus are no more
      numerous than the corpus. */
  lemma DistinctIdsBound(r: seq<Candidate>, verses: seq<Verse>)
    requires DistinctIds(r) && forall i :: 0 <= i < |r| ==> r[i].verse in verses
    ensures |r| <= |verses|
  {
    DistinctInSet(r, IdSet(verses));
  }
}
