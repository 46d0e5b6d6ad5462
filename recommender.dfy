/** The outfit recommender: one text document per wardrobe item, a mean
    similarity score per item, and the top-N items by score.

    The TF-IDF vectoriser and the cosine similarity are library numerics; here
    they are one opaque function from the batch of documents to the similarity
    matrix. Because it is a function of this batch alone, the vocabulary it fits
    cannot depend on any other request. */
module Recommender {

  import opened Common
  import opened Text
  import opened RealOrder

  /** The fields of a wardrobe record that the recommender reads. */
  datatype WardrobeItem = WardrobeItem(
    clothingType: string,
    imageUrl: string,
    dominantColor: Rgb,
    tags: seq<string>)

  /** One returned recommendation: the item's fields and its mean score. */
  datatype Recommendation = Recommendation(
    clothingType: string,
    imageUrl: string,
    dominantColor: Rgb,
    tags: seq<string>,
    similarityScore: real)

  // ----- feature documents -----

  /** The words of an item's document: its clothing type, the request's weather
      and event type, then the item's tags in stored order. */
  function DocumentWords(item: WardrobeItem, weather: string, eventType: string): seq<string>
  {
    [item.clothingType, weather, eventType] + item.tags
  }

  /** The item's feature document: its words joined by single spaces. */
  function FeatureDocument(item: WardrobeItem, weather: string, eventType: string): string
  {
    Join(DocumentWords(item, weather, eventType), " ")
  }

  /** The `features` column: one document per wardrobe item, in wardrobe order. */
  function FeatureDocuments(wardrobe: seq<WardrobeItem>, weather: string, eventType: string): (docs: seq<string>)
    ensures |docs| == |wardrobe|
    ensures forall i :: 0 <= i < |wardrobe| ==> docs[i] == FeatureDocument(wardrobe[i], weather, eventType)
  {
    seq(|wardrobe|, i requires 0 <= i < |wardrobe| => FeatureDocument(wardrobe[i], weather, eventType))
  }

  /** Concatenation of `" " + t` for every tag `t`, in order. */
  function SpacedTags(tags: seq<string>): string
  {
    if tags == [] then "" else " " + tags[0] + SpacedTags(tags[1..])
  }

  /** Joining with a space is the same as putting a space before every word but the first. */
  lemma {:induction false} JoinSpaced(words: seq<string>)
    requires |words| > 0
    ensures Join(words, " ") == words[0] + SpacedTags(words[1..])
  {
    if |words| > 1 {
      JoinSpaced(words[1..]);
      assert words[1..][1..] == words[2..];
    }
  }

  /** Every document starts with the clothing type, the weather and the event
      type separated by single spaces, followed by a space and each tag. */
  lemma FeatureDocumentLayout(item: WardrobeItem, weather: string, eventType: string)
    ensures FeatureDocument(item, weather, eventType)
            == item.clothingType + " " + weather + " " + eventType + SpacedTags(item.tags)
  {
    var words := DocumentWords(item, weather, eventType);
    JoinSpaced(words);
    assert words[1..] == [weather, eventType] + item.tags;
    assert words[1..][1..] == [eventType] + item.tags;
    assert words[1..][1..][1..] == item.tags;
  }

  /** Every document of a request carries the same weather and event type,
      right after the item's own clothing type. */
  lemma DocumentsShareContext(wardrobe: seq<WardrobeItem>, weather: string, eventType: string, i: nat)
    requires i < |wardrobe|
    ensures StartsWith(FeatureDocuments(wardrobe, weather, eventType)[i],
                       wardrobe[i].clothingType + " " + weather + " " + eventType)
  {
    FeatureDocumentLayout(wardrobe[i], weather, eventType);
  }

  /** When no field contains a space, splitting a document on spaces gives back
      exactly the clothing type, weather, event type and tags. */
  lemma FeatureDocumentWords(item: WardrobeItem, weather: string, eventType: string)
    requires ' ' !in item.clothingType && ' ' !in weather && ' ' !in eventType
    requires forall k :: 0 <= k < |item.tags| ==> ' ' !in item.tags[k]
    ensures Split(FeatureDocument(item, weather, eventType), ' ')
            == [item.clothingType, weather, eventType] + item.tags
  {
    var words := DocumentWords(item, weather, eventType);
    assert forall k :: 0 <= k < |words| ==> ' ' !in words[k] by {
      forall k | 0 <= k < |words| ensures ' ' !in words[k] {
        if k >= 3 { assert words[k] == item.tags[k - 3]; }
      }
    }
    SplitJoin(words, ' ');
  }

  // ----- mean similarity scores -----

  /** A similarity matrix for `n` items: `n` rows of `n` entries. */
  predicate IsSquare(matrix: seq<seq<real>>, n: nat)
  {
    |matrix| == n && forall i :: 0 <= i < n ==> |matrix[i]| == n
  }

  function Sum(row: seq<real>): real
  {
    if row == [] then 0.0 else row[0] + Sum(row[1..])
  }

  /** The arithmetic mean of a whole row. */
  function Mean(row: seq<real>): real
    requires |row| > 0
  {
    Sum(row) / |row| as real
  }

  /** `np.mean(similarity, axis=1)`: each item's mean over its whole row, its
      similarity with itself included. */
  function MeanScores(matrix: seq<seq<real>>): (scores: seq<real>)
    requires forall i :: 0 <= i < |matrix| ==> |matrix[i]| > 0
    ensures |scores| == |matrix|
    ensures forall i :: 0 <= i < |matrix| ==> scores[i] == Mean(matrix[i])
  {
    seq(|matrix|, i requires 0 <= i < |matrix| => Mean(matrix[i]))
  }

  lemma {:induction false} SumWithin(row: seq<real>, lo: real, hi: real)
    requires forall k :: 0 <= k < |row| ==> lo <= row[k] <= hi
    ensures |row| as real * lo <= Sum(row) <= |row| as real * hi
  {
    if row != [] {
      SumWithin(row[1..], lo, hi);
    }
  }

  /** A mean lies between the smallest and largest bounds of its row. */
  lemma MeanWithin(row: seq<real>, lo: real, hi: real)
    requires |row| > 0
    requires forall k :: 0 <= k < |row| ==> lo <= row[k] <= hi
    ensures lo <= Mean(row) <= hi
  {
    SumWithin(row, lo, hi);
    QuotientCompare(Sum(row), |row| as real, lo);
    QuotientCompare(Sum(row), |row| as real, hi);
  }

  /** Cosine similarities of non-negative term weights lie in [0, 1], and then
      so does every item's score. */
  lemma ScoresWithinUnitInterval(matrix: seq<seq<real>>, n: nat)
    requires IsSquare(matrix, n)
    requires forall i, j :: 0 <= i < n && 0 <= j < n ==> 0.0 <= matrix[i][j] <= 1.0
    ensures forall i :: 0 <= i < n ==> 0.0 <= MeanScores(matrix)[i] <= 1.0
  {
    forall i | 0 <= i < n
      ensures 0.0 <= MeanScores(matrix)[i] <= 1.0
    {
      MeanWithin(matrix[i], 0.0, 1.0);
    }
  }

  // ----- ranking -----

  /** `0, 1, ..., n - 1`. */
  function Indices(n: nat): (s: seq<nat>)
    ensures |s| == n
    ensures forall i :: 0 <= i < n ==> s[i] == i
  {
    if n == 0 then [] else Indices(n - 1) + [n - 1]
  }

  /** What `np.argsort(scores)` returns: the indices of `scores`, each exactly
      once, in ascending order of score. Nothing is said about the order of
      equal scores. */
  ghost predicate IsArgSort(scores: seq<real>, order: seq<nat>)
  {
    && |order| == |scores|
    && multiset(order) == multiset(Indices(|scores|))
    && (forall i :: 0 <= i < |order| ==> order[i] < |scores|)
    && (forall i, j :: 0 <= i < j < |order| ==> scores[order[i]] <= scores[order[j]])
  }

  method ArgSort(scores: seq<real>) returns (order: seq<nat>)
    ensures IsArgSort(scores, order)
  {
    var n := |scores|;
    var a := new nat[n](i => i);
    assert a[..] == Indices(n);
    for i := 0 to n
      invariant multiset(a[..]) == multiset(Indices(n))
      invariant forall k :: 0 <= k < n ==> a[k] < n
      invariant forall k, l :: 0 <= k < l < i ==> scores[a[k]] <= scores[a[l]]
    {
      Insert(a, scores, i);
    }
    order := a[..];
  }

  /** One step of insertion sort: move `a[i]` left past every larger score, so
      that `a[..i + 1]` is in ascending order of score. */
  method Insert(a: array<nat>, scores: seq<real>, i: nat)
    requires i < a.Length == |scores|
    requires forall k :: 0 <= k < a.Length ==> a[k] < |scores|
    requires forall k, l :: 0 <= k < l < i ==> scores[a[k]] <= scores[a[l]]
    modifies a
    ensures multiset(a[..]) == old(multiset(a[..]))
    ensures forall k :: 0 <= k < a.Length ==> a[k] < |scores|
    ensures forall k, l :: 0 <= k < l <= i ==> scores[a[k]] <= scores[a[l]]
  {
    var j := i;
    while j > 0 && scores[a[j - 1]] > scores[a[j]]
      invariant 0 <= j <= i
      invariant multiset(a[..]) == old(multiset(a[..]))
      invariant forall k :: 0 <= k < a.Length ==> a[k] < |scores|
      invariant forall k, l :: 0 <= k < l <= i && k != j && l != j ==> scores[a[k]] <= scores[a[l]]
      invariant forall l :: j < l <= i ==> scores[a[j]] < scores[a[l]]
    {
      Swap(a, j - 1, j);
      j := j - 1;
    }
  }

  method Swap(a: array<nat>, i: nat, j: nat)
    requires i < j < a.Length
    modifies a
    ensures a[i] == old(a[j]) && a[j] == old(a[i])
    ensures forall k :: 0 <= k < a.Length && k != i && k != j ==> a[k] == old(a[k])
    ensures multiset(a[..]) == old(multiset(a[..]))
  {
    a[i], a[j] := a[j], a[i];
  }

  /** Where a Python slice `s[start:]` of a length-`n` list begins. */
  function SliceStart(n: nat, start: int): (i: nat)
    ensures i <= n
  {
    if start < 0 then (if n + start < 0 then 0 else n + start)
    else if start > n then n
    else start
  }

  /** How many items `argsort(...)[-top_n:]` keeps out of `n`. */
  function TopCount(n: nat, topN: int): (count: nat)
    ensures count <= n
    ensures topN >= 1 ==> count == if topN < n then topN else n
    ensures topN == 0 ==> count == n
    ensures topN < 0 ==> count == if n + topN > 0 then n + topN else 0
  {
    n - SliceStart(n, -topN)
  }

  function Reverse(s: seq<nat>): (r: seq<nat>)
    ensures |r| == |s|
    ensures forall i :: 0 <= i < |s| ==> r[i] == s[|s| - 1 - i]
  {
    seq(|s|, i requires 0 <= i < |s| => s[|s| - 1 - i])
  }

  /** `sel` holds `count` distinct item indices in non-increasing order of
      score, and no item left out scores above any item kept. */
  ghost predicate IsTopSelection(scores: seq<real>, count: nat, sel: seq<nat>)
  {
    && |sel| == count
    && (forall k :: 0 <= k < |sel| ==> sel[k] < |scores|)
    && (forall k, l :: 0 <= k < l < |sel| ==> sel[k] != sel[l])
    && (forall k, l :: 0 <= k < l < |sel| ==> scores[sel[k]] >= scores[sel[l]])
    && (forall j, k :: 0 <= j < |scores| && j !in sel && 0 <= k < |sel| ==> scores[j] <= scores[sel[k]])
  }

  lemma {:induction false} IndicesCount(n: nat, v: nat)
    ensures multiset(Indices(n))[v] == if v < n then 1 else 0
  {
    if n > 0 {
      var last: nat := n - 1;
      var prefix := Indices(last);
      IndicesCount(last, v);
      assert Indices(n) == prefix + [last];
      assert multiset(prefix + [last]) == multiset(prefix) + multiset{last};
      assert multiset{last}[v] == if v == last then 1 else 0;
    }
  }

  /** A rearrangement of `0, ..., n - 1` holds no index twice and every index once. */
  lemma PermutationOfIndices(s: seq<nat>, n: nat)
    requires multiset(s) == multiset(Indices(n))
    ensures forall k, l :: 0 <= k < l < |s| ==> s[k] != s[l]
    ensures forall v :: 0 <= v < n ==> v in s
  {
    forall k, l | 0 <= k < l < |s|
      ensures s[k] != s[l]
    {
      if s[k] == s[l] {
        var v := s[k];
        assert s == s[..l] + s[l..];
        assert v in s[..l] && v in s[l..];
        assert multiset(s)[v] == multiset(s[..l])[v] + multiset(s[l..])[v];
        IndicesCount(n, v);
        assert false;
      }
    }
    forall v | 0 <= v < n
      ensures v in s
    {
      IndicesCount(n, v);
      assert v in multiset(s);
    }
  }

  /** Reversing the last items of an ascending argsort gives a top selection. */
  lemma TopOfArgSort(scores: seq<real>, order: seq<nat>, start: nat)
    requires IsArgSort(scores, order)
    requires start <= |order|
    ensures IsTopSelection(scores, |order| - start, Reverse(order[start..]))
  {
    var n := |order|;
    var sel := Reverse(order[start..]);
    PermutationOfIndices(order, n);
    assert forall k :: 0 <= k < |sel| ==> sel[k] == order[n - 1 - k];
    assert forall q :: start <= q < n ==> order[q] in sel by {
      forall q | start <= q < n
        ensures order[q] in sel
      {
        assert sel[n - 1 - q] == order[q];
      }
    }
    forall j, k | 0 <= j < n && j !in sel && 0 <= k < |sel|
      ensures scores[j] <= scores[sel[k]]
    {
      assert j in order;
      var p :| 0 <= p < n && order[p] == j;
      assert p < start;
    }
  }

  /** Each recommendation `k` copies the fields of item `sel[k]` and carries its score. */
  ghost predicate CopiesItems(recs: seq<Recommendation>, wardrobe: seq<WardrobeItem>, scores: seq<real>, sel: seq<nat>)
  {
    && |recs| == |sel|
    && forall k :: 0 <= k < |sel| ==>
         && sel[k] < |wardrobe| && sel[k] < |scores|
         && recs[k].clothingType == wardrobe[sel[k]].clothingType
         && recs[k].imageUrl == wardrobe[sel[k]].imageUrl
         && recs[k].dominantColor == wardrobe[sel[k]].dominantColor
         && recs[k].tags == wardrobe[sel[k]].tags
         && recs[k].similarityScore == scores[sel[k]]
  }

  /** `_get_top_recommendations`: mean scores, argsort, keep the last `topN`,
      reverse, and build one record per selected index. */
  method GetTopRecommendations(wardrobe: seq<WardrobeItem>, similarity: seq<seq<real>>, topN: int)
    returns (recs: seq<Recommendation>, ghost sel: seq<nat>)
    requires IsSquare(similarity, |wardrobe|)
    ensures IsTopSelection(MeanScores(similarity), TopCount(|wardrobe|, topN), sel)
    ensures CopiesItems(recs, wardrobe, MeanScores(similarity), sel)
    ensures forall k, l :: 0 <= k < l < |recs| ==> recs[k].similarityScore >= recs[l].similarityScore
  {
    var avgScores := MeanScores(similarity);
    var order := ArgSort(avgScores);
    var topIndices := Reverse(order[SliceStart(|order|, -topN)..]);
    TopOfArgSort(avgScores, order, SliceStart(|order|, -topN));
    sel := topIndices;
    recs := [];
    for k := 0 to |topIndices|
      invariant |recs| == k
      invariant forall m :: 0 <= m < k ==>
                  && recs[m].clothingType == wardrobe[topIndices[m]].clothingType
                  && recs[m].imageUrl == wardrobe[topIndices[m]].imageUrl
                  && recs[m].dominantColor == wardrobe[topIndices[m]].dominantColor
                  && recs[m].tags == wardrobe[topIndices[m]].tags
                  && recs[m].similarityScore == avgScores[topIndices[m]]
    {
      var item := wardrobe[topIndices[k]];
      recs := recs + [Recommendation(item.clothingType, item.imageUrl, item.dominantColor,
                                     item.tags, avgScores[topIndices[k]])];
    }
  }

  /** `recommend_outfits`: build the documents, let the vectoriser and cosine
      similarity turn them into a matrix, and rank by mean similarity. */
  method RecommendOutfits(wardrobe: seq<WardrobeItem>, weather: string, eventType: string, topN: int,
                          similarity: seq<string> -> seq<seq<real>>)
    returns (recs: seq<Recommendation>, ghost sel: seq<nat>)
    requires |wardrobe| > 0
    requires IsSquare(similarity(FeatureDocuments(wardrobe, weather, eventType)), |wardrobe|)
    ensures IsTopSelection(MeanScores(similarity(FeatureDocuments(wardrobe, weather, eventType))),
                           TopCount(|wardrobe|, topN), sel)
    ensures CopiesItems(recs, wardrobe, MeanScores(similarity(FeatureDocuments(wardrobe, weather, eventType))), sel)
    ensures forall k, l :: 0 <= k < l < |recs| ==> recs[k].similarityScore >= recs[l].similarityScore
  {
    var features := FeatureDocuments(wardrobe, weather, eventType);
    var similarityScores := similarity(features);
    recs, sel := GetTopRecommendations(wardrobe, similarityScores, topN);
  }
}
