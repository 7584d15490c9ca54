/** Reciprocal-rank fusion (`rrf` in src/search/engine.ts): every id of every
    input list gets `1/(k + rank + 1)` per occurrence, and the ids come out by
    non-increasing total. */
module Fusion {
  import opened Lists

  /** The contribution of one occurrence at 0-based position `rank`. */
  function Reciprocal(k: nat, rank: nat): (r: real)
    ensures 0.0 < r
  {
    1.0 / ((k + rank + 1) as real)
  }

  /** The sum of `Reciprocal(k, rank)` over the positions of `id` in `list`. */
  function ListScore(list: seq<string>, id: string, k: nat): real
    decreases |list|
  {
    if list == [] then 0.0
    else
      var last := |list| - 1;
      ListScore(list[..last], id, k) + (if list[last] == id then Reciprocal(k, last) else 0.0)
  }

  /** The fused score of `id`: the sum of its list scores. */
  function RrfScore(lists: seq<seq<string>>, id: string, k: nat): real
    decreases |lists|
  {
    if lists == [] then 0.0
    else RrfScore(lists[..|lists| - 1], id, k) + ListScore(lists[|lists| - 1], id, k)
  }

  /** The ids in first-seen order, each with its fused score; the position
      in this list is what the stable sort falls back on. */
  function Entries(keys: seq<string>, lists: seq<seq<string>>, k: nat): (r: seq<Scored<string>>)
    ensures |r| == |keys| && PosIncreasing(r)
    ensures forall i :: 0 <= i < |keys| ==> r[i] == Scored(i, keys[i], RrfScore(lists, keys[i], k))
  {
    seq(|keys|, i requires 0 <= i < |keys| => Scored(i, keys[i], RrfScore(lists, keys[i], k)))
  }

  /** The value `rrf(lists, k)` returns. */
  function RrfSpec(lists: seq<seq<string>>, k: nat): seq<string> {
    Items(SortDesc(Entries(Dedup(Flatten(lists)), lists, k)))
  }

  lemma {:induction false} ListScoreAbsent(list: seq<string>, id: string, k: nat)
    requires id !in list
    ensures ListScore(list, id, k) == 0.0
    decreases |list|
  {
    if list != [] {
      ListScoreAbsent(list[..|list| - 1], id, k);
    }
  }

  lemma {:induction false} RrfScoreAbsent(lists: seq<seq<string>>, id: string, k: nat)
    requires id !in Flatten(lists)
    ensures RrfScore(lists, id, k) == 0.0
    decreases |lists|
  {
    if lists != [] {
      var n := |lists| - 1;
      assert Flatten(lists) == Flatten(lists[..n]) + lists[n];
      RrfScoreAbsent(lists[..n], id, k);
      ListScoreAbsent(lists[n], id, k);
    }
  }

  lemma DedupSnoc(xs: seq<string>, x: string)
    ensures Dedup(xs + [x]) == if x in Dedup(xs) then Dedup(xs) else Dedup(xs) + [x]
  {
    assert (xs + [x])[..|xs|] == xs;
  }

  lemma ListScoreSnoc(list: seq<string>, rank: nat, k: nat)
    requires rank < |list|
    ensures forall id :: (ListScore(list[..rank + 1], id, k) ==
      ListScore(list[..rank], id, k) + (if list[rank] == id then Reciprocal(k, rank) else 0.0))
  {
    assert list[..rank + 1][..rank] == list[..rank];
  }

  /** Recording one occurrence extends the first-seen key list. */
  lemma KeysStep(done: seq<seq<string>>, list: seq<string>, rank: nat, keys: seq<string>)
    requires rank < |list|
    requires keys == Dedup(Flatten(done) + list[..rank])
    ensures (if list[rank] in keys then keys else keys + [list[rank]]) ==
      Dedup(Flatten(done) + list[..rank + 1])
  {
    var seen := Flatten(done) + list[..rank];
    assert list[..rank + 1] == list[..rank] + [list[rank]];
    assert seen + [list[rank]] == Flatten(done) + list[..rank + 1];
    DedupSnoc(seen, list[rank]);
  }

  /** Fusing one more list adds its scores to the earlier totals. */
  lemma AppendList(done: seq<seq<string>>, list: seq<string>, k: nat)
    ensures Flatten(done + [list]) == Flatten(done) + list
    ensures forall id :: RrfScore(done + [list], id, k) == RrfScore(done, id, k) + ListScore(list, id, k)
  {
    assert (done + [list])[..|done|] == done;
  }

  /** Adds `inc` to the score of `id`, counting a missing entry as zero. */
  function Record(score: map<string, real>, id: string, inc: real): map<string, real> {
    score[id := (if id in score then score[id] else 0.0) + inc]
  }

  /** The key order of the score record after writing `id`. */
  function AddKey(keys: seq<string>, id: string): seq<string> {
    if id in keys then keys else keys + [id]
  }

  /** The inner loop's invariant at `rank`. */
  ghost predicate PartialScores(done: seq<seq<string>>, list: seq<string>, rank: nat, k: nat,
                          keys: seq<string>, score: map<string, real>)
    requires rank <= |list|
  {
    && keys == Dedup(Flatten(done) + list[..rank])
    && (forall id :: id in score <==> id in keys)
    && (forall id :: id in score ==> score[id] == RrfScore(done, id, k) + ListScore(list[..rank], id, k))
  }

  /** Recording the occurrence at `rank` keeps the invariant. */
  lemma OccurrenceStep(done: seq<seq<string>>, list: seq<string>, rank: nat, k: nat,
                       keys: seq<string>, score: map<string, real>)
    requires rank < |list| && PartialScores(done, list, rank, k, keys, score)
    ensures PartialScores(done, list, rank + 1, k, AddKey(keys, list[rank]),
                          Record(score, list[rank], Reciprocal(k, rank)))
  {
    var id := list[rank];
    var keys' := AddKey(keys, id);
    var score' := Record(score, id, Reciprocal(k, rank));
    assert keys' == Dedup(Flatten(done) + list[..rank + 1]) by {
      KeysStep(done, list, rank, keys);
    }
    assert forall x :: x in score' <==> x in keys';
    assert forall x :: x in score' ==>
      score'[x] == RrfScore(done, x, k) + ListScore(list[..rank + 1], x, k)
    by {
      ListScoreSnoc(list, rank, k);
      forall x | x in score'
        ensures score'[x] == RrfScore(done, x, k) + ListScore(list[..rank + 1], x, k)
      {
        if x == id && id !in score {
          assert id !in Flatten(done) && id !in list[..rank];
          RrfScoreAbsent(done, id, k);
          ListScoreAbsent(list[..rank], id, k);
        }
      }
    }
  }

  /** The inner loop of `rrf`: every occurrence in one more list. */
  method ScoreList(done: seq<seq<string>>, list: seq<string>, k: nat,
                   keys0: seq<string>, score0: map<string, real>)
    returns (keys: seq<string>, score: map<string, real>)
    requires keys0 == Dedup(Flatten(done))
    requires forall id :: id in score0 <==> id in keys0
    requires forall id :: id in score0 ==> score0[id] == RrfScore(done, id, k)
    ensures keys == Dedup(Flatten(done + [list]))
    ensures forall id :: id in score <==> id in keys
    ensures forall id :: id in score ==> score[id] == RrfScore(done + [list], id, k)
  {
    keys, score := keys0, score0;
    var rank := 0;
    assert Flatten(done) + list[..rank] == Flatten(done);
    while rank < |list|
      invariant 0 <= rank <= |list|
      invariant PartialScores(done, list, rank, k, keys, score)
    {
      OccurrenceStep(done, list, rank, k, keys, score);
      score := Record(score, list[rank], Reciprocal(k, rank));
      keys := AddKey(keys, list[rank]);
      rank := rank + 1;
    }
    assert list[..rank] == list;
    AppendList(done, list, k);
  }

  /** `rrf` as written: a score record updated in nested loops, whose keys
      keep their insertion order, then a stable sort by score. */
  method Rrf(lists: seq<seq<string>>, k: nat) returns (r: seq<string>)
    ensures r == RrfSpec(lists, k)
  {
    var score: map<string, real> := map[];
    var keys: seq<string> := [];
    var li := 0;
    while li < |lists|
      invariant 0 <= li <= |lists|
      invariant keys == Dedup(Flatten(lists[..li]))
      invariant forall id :: id in score <==> id in keys
      invariant forall id :: id in score ==> score[id] == RrfScore(lists[..li], id, k)
    {
      assert lists[..li + 1] == lists[..li] + [lists[li]];
      keys, score := ScoreList(lists[..li], lists[li], k, keys, score);
      li := li + 1;
    }
    assert lists[..li] == lists;
    var entries := seq(|keys|, i requires 0 <= i < |keys| => Scored(i, keys[i], score[keys[i]]));
    assert entries == Entries(keys, lists, k);
    r := Items(SortDesc(entries));
  }

  lemma ItemsEntries(keys: seq<string>, lists: seq<seq<string>>, k: nat)
    ensures Items(Entries(keys, lists, k)) == keys
  {
  }

  /** The fused ranking lists every id of every input list, each exactly once. */
  lemma RrfExactlyOnce(lists: seq<seq<string>>, k: nat)
    ensures Distinct(RrfSpec(lists, k))
    ensures forall id :: id in RrfSpec(lists, k) <==> exists i :: 0 <= i < |lists| && id in lists[i]
  {
    var keys := Dedup(Flatten(lists));
    var e := Entries(keys, lists, k);
    var r := RrfSpec(lists, k);
    ItemsEntries(keys, lists, k);
    ItemsSortDesc(e);
    assert multiset(r) == multiset(keys);
    DedupFirstSeen(Flatten(lists));
    DistinctPermutation(keys, r);
    forall id ensures id in r <==> id in keys {
      assert id in r <==> id in multiset(r);
      assert id in keys <==> id in multiset(keys);
    }
  }

  /** Each entry of the sorted list is the entry of its own id. */
  lemma SortedEntries(lists: seq<seq<string>>, k: nat)
    ensures var keys := Dedup(Flatten(lists));
      var s := SortDesc(Entries(keys, lists, k));
      && SortedDesc(s)
      && forall p :: 0 <= p < |s| ==>
           s[p].pos < |keys| && s[p].item == keys[s[p].pos] &&
           s[p].score == RrfScore(lists, s[p].item, k)
  {
    var keys := Dedup(Flatten(lists));
    var e := Entries(keys, lists, k);
    var s := SortDesc(e);
    SortDescSorted(e);
    forall p | 0 <= p < |s|
      ensures s[p].pos < |keys| && s[p].item == keys[s[p].pos] &&
              s[p].score == RrfScore(lists, s[p].item, k)
    {
      assert s[p] in multiset(e);
      var q :| 0 <= q < |e| && e[q] == s[p];
    }
  }

  /** Ids come out by non-increasing fused score; ids with equal scores keep
      the order in which they were first seen across the input lists. */
  lemma RrfOrdered(lists: seq<seq<string>>, k: nat)
    ensures forall i :: 0 <= i < |RrfSpec(lists, k)| ==> RrfSpec(lists, k)[i] in Flatten(lists)
    ensures forall i, j :: 0 <= i < j < |RrfSpec(lists, k)| ==>
      RrfScore(lists, RrfSpec(lists, k)[i], k) >= RrfScore(lists, RrfSpec(lists, k)[j], k)
    ensures forall i, j :: (0 <= i < j < |RrfSpec(lists, k)| &&
      RrfScore(lists, RrfSpec(lists, k)[i], k) == RrfScore(lists, RrfSpec(lists, k)[j], k)) ==>
      FirstIndex(Flatten(lists), RrfSpec(lists, k)[i]) < FirstIndex(Flatten(lists), RrfSpec(lists, k)[j])
  {
    var keys := Dedup(Flatten(lists));
    var s := SortDesc(Entries(keys, lists, k));
    var r := RrfSpec(lists, k);
    SortedEntries(lists, k);
    DedupFirstSeen(Flatten(lists));
    assert forall i :: 0 <= i < |r| ==> r[i] == s[i].item;
    forall i | 0 <= i < |r| ensures r[i] in Flatten(lists) {
      assert keys[s[i].pos] in keys;
    }
    forall i, j | 0 <= i < j < |r| && RrfScore(lists, r[i], k) == RrfScore(lists, r[j], k)
      ensures FirstIndex(Flatten(lists), r[i]) < FirstIndex(Flatten(lists), r[j])
    {
      assert Precedes(s[i], s[j]);
      assert s[i].pos < s[j].pos;
    }
  }

  lemma {:induction false} ListScorePositive(list: seq<string>, id: string, k: nat)
    ensures ListScore(list, id, k) >= 0.0
    ensures ListScore(list, id, k) > 0.0 <==> id in list
    decreases |list|
  {
    if list != [] {
      var n := |list| - 1;
      ListScorePositive(list[..n], id, k);
      assert list == list[..n] + [list[n]];
    }
  }

  /** An id scores above zero exactly when some input list contains it. */
  lemma {:induction false} RrfScorePositive(lists: seq<seq<string>>, id: string, k: nat)
    ensures RrfScore(lists, id, k) >= 0.0
    ensures RrfScore(lists, id, k) > 0.0 <==> id in Flatten(lists)
    decreases |lists|
  {
    if lists != [] {
      var n := |lists| - 1;
      RrfScorePositive(lists[..n], id, k);
      ListScorePositive(lists[n], id, k);
      assert Flatten(lists) == Flatten(lists[..n]) + lists[n];
    }
  }

  lemma {:induction false} ListScoreAt(list: seq<string>, i: nat, k: nat)
    requires Distinct(list) && i < |list|
    ensures ListScore(list, list[i], k) == Reciprocal(k, i)
    decreases |list|
  {
    var n := |list| - 1;
    if i == n {
      assert list[i] !in list[..n];
      ListScoreAbsent(list[..n], list[i], k);
    } else {
      assert Distinct(list[..n]) && list[..n][i] == list[i];
      ListScoreAt(list[..n], i, k);
    }
  }

  lemma ReciprocalDecreasing(k: nat, i: nat, j: nat)
    requires i <= j
    ensures Reciprocal(k, i) >= Reciprocal(k, j)
  {
    var a := (k + i + 1) as real;
    var b := (k + j + 1) as real;
    var x := 1.0 / a;
    var y := 1.0 / b;
    assert x * a == 1.0 && y * b == 1.0 && 0.0 < y;
    assert y * a <= y * b;
    assert y * a <= x * a;
  }

  lemma ReciprocalsNonIncreasing(e: seq<Scored<string>>, k: nat)
    requires forall i :: 0 <= i < |e| ==> e[i].score == Reciprocal(k, i)
    ensures NonIncreasing(e)
  {
    forall i, j | 0 <= i < j < |e| ensures e[i].score >= e[j].score {
      ReciprocalDecreasing(k, i, j);
    }
  }

  lemma RrfScoreSingle(list: seq<string>, id: string, k: nat)
    ensures Flatten([list]) == list
    ensures RrfScore([list], id, k) == ListScore(list, id, k)
  {
    assert [list][..0] == [];
  }

  /** Fusing a single list without repetitions gives that list back: the
      reciprocal-rank scores decrease with the rank. */
  lemma RrfSingle(list: seq<string>, k: nat)
    requires Distinct(list)
    ensures RrfSpec([list], k) == list
  {
    var e := Entries(list, [list], k);
    assert RrfSpec([list], k) == Items(SortDesc(e)) by {
      RrfScoreSingle(list, "", k);
      DedupDistinct(list);
    }
    forall i | 0 <= i < |list| ensures e[i].score == Reciprocal(k, i) {
      RrfScoreSingle(list, list[i], k);
      ListScoreAt(list, i, k);
    }
    ReciprocalsNonIncreasing(e, k);
    SortDescOrdered(e);
    ItemsEntries(list, [list], k);
  }
}
