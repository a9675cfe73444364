/**
 * `src/helpers/post_recommendation.rs`: the `recommendations` stub and the older
 * `filter_by_tags`, which keeps an item as soon as one trimmed token of the request
 * is one of its tags, letter case included.
 */
module PostRecommendation {
  import opened Wrappers
  import opened Text
  import opened Types
  import opened NodeMap
  import Recommendation
  import RecommendationFacts

  /** `recommendations`: a stub that finds nothing, whatever it is asked. */
  function Recommendations(nodes: Nodes, descriptionInput: string, tagsInput: string): (r: Result<seq<string>, ()>)
    ensures r == Ok([])
  {
    Ok([])
  }

  /** The request split on `,`, each piece trimmed; letter case is kept. */
  function Tokens(tagsInput: string): seq<string>
  {
    TrimAll(Split(tagsInput, ','))
  }

  function TrimAll(parts: seq<string>): seq<string>
  {
    seq(|parts|, i requires 0 <= i < |parts| => Trim(parts[i]))
  }

  /** OR semantics: some token is, character for character, one of the tags. */
  predicate MatchesAny(tokens: seq<string>, tags: seq<string>)
  {
    exists j :: 0 <= j < |tokens| && tokens[j] in tags
  }

  /** The entries `filter_by_tags` keeps, each with its original value. */
  function OrFiltered(vals: map<Data, Option<Tensor>>, tokens: seq<string>): map<Data, Option<Tensor>>
  {
    map d | d in vals && MatchesAny(tokens, d.tags) :: vals[d]
  }

  /** Whether one of the first `n` tokens is a tag. */
  predicate MatchesPrefix(tokens: seq<string>, n: nat, tags: seq<string>)
  {
    exists j :: 0 <= j < n && j < |tokens| && tokens[j] in tags
  }

  /** The entries of `acc` are entries of `nodes`, with the same values. */
  predicate SubMap(acc: Nodes, nodes: Nodes)
  {
    forall d :: d in acc.vals ==> d in nodes.vals && acc.vals[d] == nodes.vals[d]
  }

  /** The inner loop of `filter_by_tags`: every entry carrying `token` is inserted with its value. */
  method InsertCarrying(nodes: Nodes, token: string, acc: Nodes) returns (out: Nodes)
    requires nodes.Valid() && acc.Valid() && SubMap(acc, nodes)
    ensures out.Valid() && SubMap(out, nodes)
    ensures forall d :: d in out.vals <==> d in acc.vals || (d in nodes.vals && token in d.tags)
  {
    out := acc;
    for k := 0 to |nodes.keys|
      invariant out.Valid() && SubMap(out, nodes)
      invariant forall d :: d in out.vals <==> d in acc.vals || (d in nodes.keys[..k] && token in d.tags)
    {
      var key := nodes.keys[k];
      assert nodes.keys[..k + 1] == nodes.keys[..k] + [key];
      if token in key.tags {
        out := out.Insert(key, nodes.vals[key]);
      }
    }
    assert nodes.keys[..|nodes.keys|] == nodes.keys;
  }

  lemma MatchesPrefixStep(tokens: seq<string>, n: nat, tags: seq<string>)
    requires n < |tokens|
    ensures MatchesPrefix(tokens, n + 1, tags) <==> MatchesPrefix(tokens, n, tags) || tokens[n] in tags
  {
    if MatchesPrefix(tokens, n + 1, tags) && !(tokens[n] in tags) {
      var j :| 0 <= j < n + 1 && j < |tokens| && tokens[j] in tags;
      assert j < n;
    }
  }

  /** A map holding exactly the matching entries of `vals`, with their values, is the filtered map. */
  lemma OrFilteredByMembership(vals: map<Data, Option<Tensor>>, tokens: seq<string>, m: map<Data, Option<Tensor>>)
    requires forall d :: d in m <==> d in vals && MatchesAny(tokens, d.tags)
    requires forall d :: d in m ==> d in vals && m[d] == vals[d]
    ensures m == OrFiltered(vals, tokens)
  {
  }

  /**
   * `filter_by_tags`: for each trimmed token, every entry carrying it is inserted into
   * a fresh map with its value. It never fails.
   */
  method FilterByTags(nodes: Nodes, tagsInput: string) returns (r: Result<Nodes, ()>)
    requires nodes.Valid()
    ensures r.Ok? && r.value.Valid()
    ensures r.value.vals == OrFiltered(nodes.vals, Tokens(tagsInput))
  {
    var split := Split(tagsInput, ',');
    ghost var tokens := Tokens(tagsInput);
    var newMap := Empty();
    for s := 0 to |split|
      invariant newMap.Valid() && SubMap(newMap, nodes)
      invariant forall d :: d in newMap.vals <==> d in nodes.vals && MatchesPrefix(tokens, s, d.tags)
    {
      var trimmed := Trim(split[s]);
      assert trimmed == tokens[s];
      newMap := InsertCarrying(nodes, trimmed, newMap);
      forall tags: seq<string>
        ensures MatchesPrefix(tokens, s + 1, tags) <==> MatchesPrefix(tokens, s, tags) || tokens[s] in tags
      {
        MatchesPrefixStep(tokens, s, tags);
      }
    }
    assert forall tags: seq<string> :: MatchesPrefix(tokens, |split|, tags) == MatchesAny(tokens, tags);
    OrFilteredByMembership(nodes.vals, tokens, newMap.vals);
    return Ok(newMap);
  }

  /** Only the set of tokens matters: order and repetition do not change what is kept. */
  lemma SameTokenSetSameResult(vals: map<Data, Option<Tensor>>, ta: seq<string>, tb: seq<string>)
    requires forall t :: t in ta <==> t in tb
    ensures OrFiltered(vals, ta) == OrFiltered(vals, tb)
  {
    forall tags: seq<string>
      ensures MatchesAny(ta, tags) == MatchesAny(tb, tags)
    {
      if MatchesAny(ta, tags) {
        var j :| 0 <= j < |ta| && ta[j] in tags;
        assert ta[j] in tb;
      }
      if MatchesAny(tb, tags) {
        var j :| 0 <= j < |tb| && tb[j] in tags;
        assert tb[j] in ta;
      }
    }
  }

  lemma TrimAllConcat(pa: seq<string>, pb: seq<string>)
    ensures TrimAll(pa + pb) == TrimAll(pa) + TrimAll(pb)
  {
    var t := TrimAll(pa + pb);
    forall i | 0 <= i < |t|
      ensures t[i] == (TrimAll(pa) + TrimAll(pb))[i]
    {
      if i < |pa| {
        assert (pa + pb)[i] == pa[i];
      } else {
        assert (pa + pb)[i] == pb[i - |pa|];
      }
    }
  }

  /** Repeating the whole request after a comma keeps exactly what the request alone keeps. */
  lemma RepeatedRequestSameResult(vals: map<Data, Option<Tensor>>, s: string)
    ensures OrFiltered(vals, Tokens(s + "," + s)) == OrFiltered(vals, Tokens(s))
  {
    SplitConcat(s, s, ',');
    TrimAllConcat(Split(s, ','), Split(s, ','));
    SameTokenSetSameResult(vals, Tokens(s) + Tokens(s), Tokens(s));
  }

  /** A single-token request keeps exactly the items that carry the token as it is written. */
  lemma SingleTokenIsExact(s: string, tags: seq<string>)
    requires ',' !in s
    requires s != [] ==> !IsWhitespace(s[0]) && !IsWhitespace(s[|s| - 1])
    ensures MatchesAny(Tokens(s), tags) <==> s in tags
  {
    SplitWithoutSeparator(s, ',');
    TrimUnpadded(s);
    assert Tokens(s) == [s];
    assert MatchesAny(Tokens(s), tags) <==> Tokens(s)[0] in tags;
  }

  /**
   * Unlike the AND filter of `get_recommendations`, this filter is case-sensitive: a
   * request `Action` keeps no item tagged only `action`, which the AND filter lets through.
   */
  lemma CaseSensitiveUnlikeAndFilter(s: string, tag: string)
    requires s != Recommendation.Sentinel && ',' !in s
    requires s != [] ==> !IsWhitespace(s[0]) && !IsWhitespace(s[|s| - 1])
    requires s != tag && Lower(s) == Lower(tag)
    ensures !MatchesAny(Tokens(s), [tag])
    ensures Recommendation.PassesFilter(s, [tag])
  {
    SingleTokenIsExact(s, [tag]);
    RecommendationFacts.SingleTokenRequest(s, [tag]);
    assert Recommendation.LowerAll([tag]) == [Lower(tag)];
  }
}
