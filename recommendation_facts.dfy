/** What the tag filter and the reduction of `get_recommendations` guarantee. */
module RecommendationFacts {
  import opened Wrappers
  import opened Text
  import opened Types
  import opened NodeMap
  import opened Recommendation

  // The tag filter

  /** The sentinel lets every item through, whatever its tags. */
  lemma SentinelPassesEverything(tags: seq<string>)
    ensures PassesFilter(Sentinel, tags)
  {
  }

  /** A request without commas and without surrounding white space is one lower-cased token. */
  lemma ParseTagsSingle(s: string)
    requires ',' !in s
    requires s != [] ==> !IsWhitespace(s[0]) && !IsWhitespace(s[|s| - 1])
    ensures ParseTags(s) == [Lower(s)]
  {
    SplitWithoutSeparator(s, ',');
    TrimUnpadded(s);
  }

  /** A single-token request passes exactly the items with that tag, letter case aside. */
  lemma SingleTokenRequest(s: string, tags: seq<string>)
    requires s != Sentinel && ',' !in s
    requires s != [] ==> !IsWhitespace(s[0]) && !IsWhitespace(s[|s| - 1])
    ensures PassesFilter(s, tags) <==> Lower(s) in LowerAll(tags)
  {
    ParseTagsSingle(s);
    assert ParseTags(s)[0] == Lower(s);
  }

  /**
   * The sentinel is compared exactly, untrimmed: wrapped in white space it is an
   * ordinary request for the tag `none`, which only an item carrying that tag (in
   * any letter case) passes.
   */
  lemma PaddedSentinelIsATag(pre: string, post: string, tags: seq<string>)
    requires pre + post != []
    requires forall i :: 0 <= i < |pre| ==> IsWhitespace(pre[i])
    requires forall i :: 0 <= i < |post| ==> IsWhitespace(post[i])
    ensures PassesFilter(pre + Sentinel + post, tags) <==> Lower(Sentinel) in LowerAll(tags)
  {
    var s := pre + Sentinel + post;
    assert s != Sentinel by {
      assert |s| > |Sentinel|;
    }
    assert ',' !in s by {
      forall i | 0 <= i < |s|
        ensures s[i] != ','
      {
        if i < |pre| {
          assert s[i] == pre[i];
        } else if i < |pre| + |Sentinel| {
          assert s[i] == Sentinel[i - |pre|];
        } else {
          assert s[i] == post[i - |pre| - |Sentinel|];
        }
      }
    }
    SplitWithoutSeparator(s, ',');
    PaddedTrim(pre, Sentinel, post);
    assert ParseTags(s) == [Lower(Sentinel)];
    assert ParseTags(s)[0] == Lower(Sentinel);
  }

  /** The tokens of two comma-joined requests are the tokens of each. */
  lemma ParseTagsConcat(a: string, b: string)
    ensures ParseTags(a + "," + b) == ParseTags(a) + ParseTags(b)
  {
    SplitConcat(a, b, ',');
    CleanTokensConcat(Split(a, ','), Split(b, ','));
  }

  lemma CleanTokensConcat(pa: seq<string>, pb: seq<string>)
    ensures CleanTokens(pa + pb) == CleanTokens(pa) + CleanTokens(pb)
  {
    var t := CleanTokens(pa + pb);
    forall i | 0 <= i < |t|
      ensures t[i] == (CleanTokens(pa) + CleanTokens(pb))[i]
    {
      if i < |pa| {
        assert (pa + pb)[i] == pa[i];
      } else {
        assert (pa + pb)[i] == pb[i - |pa|];
      }
    }
  }

  /**
   * AND semantics: a request of two comma-joined parts passes exactly when each part
   * on its own passes (neither part, nor the whole, being the sentinel).
   */
  lemma FilterIsConjunction(a: string, b: string, tags: seq<string>)
    requires a != Sentinel && b != Sentinel
    ensures PassesFilter(a + "," + b, tags) <==> PassesFilter(a, tags) && PassesFilter(b, tags)
  {
    assert a + "," + b != Sentinel by {
      assert (a + "," + b)[|a|] == ',';
      assert ',' !in Sentinel;
    }
    ParseTagsConcat(a, b);
    var ta, tb := ParseTags(a), ParseTags(b);
    assert forall j :: 0 <= j < |ta| ==> (ta + tb)[j] == ta[j];
    assert forall j :: 0 <= j < |tb| ==> (ta + tb)[|ta| + j] == tb[j];
  }

  /** Lower-casing a request does not change its tokens. */
  lemma ParseTagsLower(s: string)
    ensures ParseTags(Lower(s)) == ParseTags(s)
  {
    SplitLower(s, ',');
    var parts := Split(s, ',');
    forall i | 0 <= i < |parts|
      ensures Lower(Trim(Split(Lower(s), ',')[i])) == Lower(Trim(parts[i]))
    {
      TrimLower(parts[i]);
      LowerIdempotent(Trim(parts[i]));
    }
  }

  /** Requests that differ only in letter case filter alike (the exact sentinel aside). */
  lemma FilterIgnoresRequestCase(s1: string, s2: string, tags: seq<string>)
    requires s1 != Sentinel && s2 != Sentinel
    requires Lower(s1) == Lower(s2)
    ensures PassesFilter(s1, tags) == PassesFilter(s2, tags)
  {
    ParseTagsLower(s1);
    ParseTagsLower(s2);
  }

  /** Items whose tags differ only in letter case filter alike. */
  lemma FilterIgnoresTagCase(s: string, tags1: seq<string>, tags2: seq<string>)
    requires |tags1| == |tags2|
    requires forall i :: 0 <= i < |tags1| ==> Lower(tags1[i]) == Lower(tags2[i])
    ensures PassesFilter(s, tags1) == PassesFilter(s, tags2)
  {
    assert LowerAll(tags1) == LowerAll(tags2);
  }

  /** An empty token is compared literally: only an item with an empty tag passes it. */
  lemma EmptyTokenNeedsEmptyTag(s: string, j: nat, tags: seq<string>)
    requires s != Sentinel
    requires j < |Split(s, ',')| && Trim(Split(s, ',')[j]) == ""
    ensures PassesFilter(s, tags) ==> "" in tags
  {
    if PassesFilter(s, tags) {
      assert ParseTags(s)[j] == "";
      var k :| 0 <= k < |tags| && LowerAll(tags)[k] == "";
      LowerEmpty(tags[k]);
    }
  }

  /** A trailing comma adds an empty token, so the request fails every item without an empty tag. */
  lemma TrailingCommaNeedsEmptyTag(p: string, tags: seq<string>)
    ensures PassesFilter(p + ",", tags) ==> "" in tags
  {
    var s := p + ",";
    assert s != Sentinel by {
      assert s[|s| - 1] == ',';
    }
    SplitTrailingSeparator(p, ',');
    EmptyTokenNeedsEmptyTag(s, |Split(s, ',')| - 1, tags);
  }

  // The reduction

  /** With distinct keys, each key is kept once if the loop does not skip it and never otherwise. */
  lemma {:induction false} EligiblesCount(keys: seq<Data>, q: Query)
    requires forall i, j :: 0 <= i < j < |keys| ==> keys[i] != keys[j]
    ensures forall d :: multiset(Eligibles(keys, q))[d] == if d in keys && !Skipped(d, q) then 1 else 0
    decreases |keys|
  {
    if keys != [] {
      var front, last := keys[..|keys| - 1], keys[|keys| - 1];
      EligiblesCount(front, q);
      assert keys == front + [last];
      assert last !in front;
    }
  }

  /**
   * `insert_or_skip` is called once for every eligible item and never for another
   * one: call `i` of the log offers the name and score of kept key `i`.
   */
  lemma InsertedOncePerEligible(data: Nodes, rawInput: Option<string>, query: Tensor, tagsInput: string,
                                similarity: (Tensor, Tensor) -> real)
    requires data.Valid()
    requires Calls(data, QueryOf(rawInput, tagsInput), query, similarity).Ok?
    ensures var el := Eligibles(data.keys, QueryOf(rawInput, tagsInput));
            var log := Calls(data, QueryOf(rawInput, tagsInput), query, similarity).value;
            |log| == |el| &&
            (forall i :: 0 <= i < |el| ==> log[i] == (el[i].name, similarity(query, data.vals[el[i]].value))) &&
            (forall d :: d in data.keys ==> multiset(el)[d] == if Eligible(d, rawInput, tagsInput) then 1 else 0)
  {
    var q := QueryOf(rawInput, tagsInput);
    EligiblesCount(data.keys, q);
    forall d | d in data.keys
      ensures Skipped(d, q) <==> !Eligible(d, rawInput, tagsInput)
    {
      SkippedIffIneligible(d, rawInput, tagsInput);
    }
  }

  /** No offered call names the queried item: its name is compared trimmed and case-insensitively. */
  lemma QueriedItemNeverOffered(data: Nodes, raw: string, query: Tensor, tagsInput: string,
                                similarity: (Tensor, Tensor) -> real)
    requires Calls(data, QueryOf(Some(raw), tagsInput), query, similarity).Ok?
    ensures var log := Calls(data, QueryOf(Some(raw), tagsInput), query, similarity).value;
            forall i :: 0 <= i < |log| ==> Lower(log[i].0) != Lower(Trim(raw))
  {
    var q := QueryOf(Some(raw), tagsInput);
    EligiblesSound(data.keys, q);
  }

  /**
   * What the collector has been offered after any scanned prefix of the keys, in
   * particular when the scan stops early at a missing embedding: only eligible items,
   * each under its own name, and never the queried item.
   */
  lemma OffersOfScannedPrefix(data: Nodes, rawInput: Option<string>, tagsInput: string, n: nat,
                              query: Tensor, similarity: (Tensor, Tensor) -> real)
    requires n <= |data.keys|
    requires AllEmbedded(Eligibles(data.keys[..n], QueryOf(rawInput, tagsInput)), data.vals)
    ensures var el := Eligibles(data.keys[..n], QueryOf(rawInput, tagsInput));
            var log := Entries(el, data.vals, query, similarity);
            forall i :: 0 <= i < |log| ==>
              el[i] in data.keys && Eligible(el[i], rawInput, tagsInput) && log[i].0 == el[i].name &&
              (rawInput.Some? ==> Lower(log[i].0) != Lower(Trim(rawInput.value)))
  {
    var q := QueryOf(rawInput, tagsInput);
    var el := Eligibles(data.keys[..n], q);
    EligiblesSound(data.keys[..n], q);
    forall i | 0 <= i < |el|
      ensures el[i] in data.keys && Eligible(el[i], rawInput, tagsInput)
    {
      var k :| 0 <= k < n && data.keys[..n][k] == el[i];
      assert data.keys[k] == el[i];
      SkippedIffIneligible(el[i], rawInput, tagsInput);
    }
  }

  /** Without a queried item nothing is excluded by name: every key through the tag filter is kept. */
  lemma NothingExcludedWithoutItem(data: Nodes, tagsInput: string)
    ensures forall d :: d in data.keys && PassesFilter(tagsInput, d.tags) ==>
              d in Eligibles(data.keys, QueryOf(None, tagsInput))
  {
    EligiblesComplete(data.keys, QueryOf(None, tagsInput));
  }

  /** The scan fails exactly when a key it does not skip has no embedding. */
  lemma CallsErrIff(data: Nodes, q: Query, query: Tensor, similarity: (Tensor, Tensor) -> real)
    requires data.Valid()
    ensures Calls(data, q, query, similarity).Err? <==>
            exists d :: d in data.keys && !Skipped(d, q) && data.vals[d].None?
  {
    var el := Eligibles(data.keys, q);
    if Calls(data, q, query, similarity).Err? {
      EligiblesSound(data.keys, q);
      var j :| 0 <= j < |el| && !(el[j] in data.vals && data.vals[el[j]].Some?);
      assert el[j] in data.keys;
    }
    if exists d :: d in data.keys && !Skipped(d, q) && data.vals[d].None? {
      var d :| d in data.keys && !Skipped(d, q) && data.vals[d].None?;
      MissingEmbeddingFails(data, q, query, similarity, d);
    }
  }

  /** When every key is skipped, the collector is offered nothing, and missing embeddings do not matter. */
  lemma NoEligibleNoCalls(data: Nodes, q: Query, query: Tensor, similarity: (Tensor, Tensor) -> real)
    requires forall d :: d in data.keys ==> Skipped(d, q)
    ensures Calls(data, q, query, similarity) == Ok([])
  {
    NothingKept(data.keys, q);
    var none: seq<Data> := [];
    assert AllEmbedded(none, data.vals);
    assert Entries(none, data.vals, query, similarity) == [];
  }

  lemma {:induction false} NothingKept(keys: seq<Data>, q: Query)
    requires forall d :: d in keys ==> Skipped(d, q)
    ensures Eligibles(keys, q) == []
    decreases |keys|
  {
    if keys != [] {
      var front := keys[..|keys| - 1];
      assert forall d :: d in front ==> d in keys;
      NothingKept(front, q);
    }
  }

  /** The result is the collector's readout of the calls, or `Err` from the self product or a missing embedding. */
  lemma ReduceOutcome(data: Nodes, rawInput: Option<string>, query: Tensor, tagsInput: string,
                      numRecommendations: nat, ops: Oracle)
    requires data.Valid()
    ensures var r := Reduce(data, rawInput, query, tagsInput, numRecommendations, ops);
            var q := QueryOf(rawInput, tagsInput);
            r.Err? <==> !ops.selfProductOk(query) ||
                        exists d :: d in data.keys && !Skipped(d, q) && data.vals[d].None?
    ensures var r := Reduce(data, rawInput, query, tagsInput, numRecommendations, ops);
            r.Ok? ==> r.value == ops.readout(numRecommendations,
                                             Calls(data, QueryOf(rawInput, tagsInput), query, ops.similarity).value)
  {
    CallsErrIff(data, QueryOf(rawInput, tagsInput), query, ops.similarity);
  }
}
