/**
 * `get_recommendations` of `src/helpers/recommendation.rs`: the tag request is
 * parsed once, every catalog entry is either skipped (its name is the queried
 * item's, or it fails the tag filter) or scored and offered to the collector, and
 * an eligible entry without an embedding aborts the whole query.
 */
module Recommendation {
  import opened Wrappers
  import opened Text
  import opened Types
  import opened NodeMap
  import Collector

  /**
   * What the model leaves uninterpreted: whether candle's `input * input` succeeds,
   * the f32 cosine similarity, and what the collector hands back from its calls.
   */
  datatype Oracle = Oracle(
    selfProductOk: Tensor -> bool,
    similarity: (Tensor, Tensor) -> real,
    readout: (nat, seq<Entry>) -> seq<Entry>)

  /** The request that switches tag filtering off; compared exactly, untrimmed. */
  const Sentinel: string := "NONE"

  /** `tags_to_match`: the request split on `,`, each piece trimmed and lower-cased. */
  function ParseTags(tagsInput: string): (r: seq<string>)
    ensures |r| == |Split(tagsInput, ',')|
    ensures forall i :: 0 <= i < |r| ==> Trim(r[i]) == r[i] && Lower(r[i]) == r[i]
  {
    CleanTokensNormal(Split(tagsInput, ','));
    CleanTokens(Split(tagsInput, ','))
  }

  /** Each piece trimmed and lower-cased. */
  function CleanTokens(parts: seq<string>): seq<string>
  {
    seq(|parts|, i requires 0 <= i < |parts| => Lower(Trim(parts[i])))
  }

  /** A cleaned token has nothing left to trim or to lower-case. */
  lemma CleanTokensNormal(parts: seq<string>)
    ensures forall i :: 0 <= i < |parts| ==>
              Trim(CleanTokens(parts)[i]) == CleanTokens(parts)[i] && Lower(CleanTokens(parts)[i]) == CleanTokens(parts)[i]
  {
    forall i | 0 <= i < |parts|
      ensures Trim(CleanTokens(parts)[i]) == CleanTokens(parts)[i]
      ensures Lower(CleanTokens(parts)[i]) == CleanTokens(parts)[i]
    {
      var t := Trim(parts[i]);
      TrimUnpadded(t);
      TrimLower(t);
      LowerIdempotent(t);
    }
  }

  /** An item's tags, each lower-cased. */
  function LowerAll(tags: seq<string>): seq<string>
  {
    seq(|tags|, i requires 0 <= i < |tags| => Lower(tags[i]))
  }

  predicate AllPresent(tokens: seq<string>, pool: seq<string>)
  {
    forall j :: 0 <= j < |tokens| ==> tokens[j] in pool
  }

  /** The tag filter: the sentinel lets everything through, otherwise every token must be a tag. */
  predicate PassesFilter(tagsInput: string, tags: seq<string>)
  {
    tagsInput == Sentinel || AllPresent(ParseTags(tagsInput), LowerAll(tags))
  }

  /** The `through_filter` closure, over the tokens it captured. */
  method ThroughFilter(tagsInput: string, tagsToMatch: seq<string>, tags: seq<string>) returns (through: bool)
    ensures through == (tagsInput == Sentinel || AllPresent(tagsToMatch, LowerAll(tags)))
  {
    if tagsInput == Sentinel {
      return true;
    }
    through := true;
    for i := 0 to |tagsToMatch|
      invariant through
      invariant forall j :: 0 <= j < i ==> tagsToMatch[j] in LowerAll(tags)
    {
      if tagsToMatch[i] !in LowerAll(tags) {
        through := false;
        break;
      }
    }
  }

  /** The queried item is skipped by its trimmed, lower-cased name against each lower-cased name. */
  predicate Excluded(d: Data, rawInput: Option<string>)
  {
    rawInput.Some? && Lower(Trim(rawInput.value)) == Lower(d.name)
  }

  /** An entry that the loop scores: not the queried item, and through the tag filter. */
  predicate Eligible(d: Data, rawInput: Option<string>, tagsInput: string)
  {
    !Excluded(d, rawInput) && PassesFilter(tagsInput, d.tags)
  }

  /** What the loop tests each key against, computed once before it. */
  datatype Query = Query(tagsInput: string, tagsToMatch: seq<string>, inputCleaned: Option<string>)

  /** `tags_to_match` and `input_cleaned` as computed from the request. */
  function QueryOf(rawInput: Option<string>, tagsInput: string): Query
  {
    Query(tagsInput, ParseTags(tagsInput),
          match rawInput
          case Some(input) => Some(Lower(Trim(input)))
          case None => None)
  }

  /** The skip test of the loop, on the precomputed request. */
  predicate Skipped(d: Data, q: Query)
  {
    (q.inputCleaned.Some? && q.inputCleaned == Some(Lower(d.name)))
    || !(q.tagsInput == Sentinel || AllPresent(q.tagsToMatch, LowerAll(d.tags)))
  }

  /** The loop skips exactly the ineligible entries. */
  lemma SkippedIffIneligible(d: Data, rawInput: Option<string>, tagsInput: string)
    ensures Skipped(d, QueryOf(rawInput, tagsInput)) <==> !Eligible(d, rawInput, tagsInput)
  {
  }

  /** The keys the loop does not skip, in iteration order. */
  function Eligibles(keys: seq<Data>, q: Query): seq<Data>
    decreases |keys|
  {
    if keys == [] then []
    else
      var last := keys[|keys| - 1];
      Eligibles(keys[..|keys| - 1], q) + (if Skipped(last, q) then [] else [last])
  }

  /** Only keys that are not skipped are kept. */
  lemma {:induction false} EligiblesSound(keys: seq<Data>, q: Query)
    ensures forall j :: 0 <= j < |Eligibles(keys, q)| ==>
              Eligibles(keys, q)[j] in keys && !Skipped(Eligibles(keys, q)[j], q)
    decreases |keys|
  {
    if keys != [] {
      var front := keys[..|keys| - 1];
      EligiblesSound(front, q);
      assert forall d :: d in front ==> d in keys;
    }
  }

  /** Every key that is not skipped is kept. */
  lemma {:induction false} EligiblesComplete(keys: seq<Data>, q: Query)
    ensures forall d :: d in keys && !Skipped(d, q) ==> d in Eligibles(keys, q)
    decreases |keys|
  {
    if keys != [] {
      var front := keys[..|keys| - 1];
      EligiblesComplete(front, q);
      assert keys == front + [keys[|keys| - 1]];
    }
  }

  /** Distinct keys give distinct kept keys: no entry is kept twice. */
  lemma {:induction false} EligiblesDistinct(keys: seq<Data>, q: Query)
    requires forall i, j :: 0 <= i < j < |keys| ==> keys[i] != keys[j]
    ensures forall i, j :: 0 <= i < j < |Eligibles(keys, q)| ==> Eligibles(keys, q)[i] != Eligibles(keys, q)[j]
    decreases |keys|
  {
    if keys != [] {
      var front := keys[..|keys| - 1];
      var last := keys[|keys| - 1];
      EligiblesDistinct(front, q);
      EligiblesSound(front, q);
      assert last !in front;
    }
  }

  predicate AllEmbedded(ds: seq<Data>, vals: map<Data, Option<Tensor>>)
  {
    forall j :: 0 <= j < |ds| ==> ds[j] in vals && vals[ds[j]].Some?
  }

  /** One `(name, similarity)` pair per item, in order. */
  function Entries(ds: seq<Data>, vals: map<Data, Option<Tensor>>, query: Tensor,
                   similarity: (Tensor, Tensor) -> real): seq<Entry>
    requires AllEmbedded(ds, vals)
  {
    seq(|ds|, i requires 0 <= i < |ds| => (ds[i].name, similarity(query, vals[ds[i]].value)))
  }

  /**
   * The `insert_or_skip` calls of the loop, or `Err` when a key it does not skip has
   * no embedding.
   */
  function Calls(data: Nodes, q: Query, query: Tensor, similarity: (Tensor, Tensor) -> real): Result<seq<Entry>, ()>
  {
    var el := Eligibles(data.keys, q);
    if AllEmbedded(el, data.vals) then Ok(Entries(el, data.vals, query, similarity)) else Err(())
  }

  /** What `get_recommendations` returns. */
  function Reduce(data: Nodes, rawInput: Option<string>, query: Tensor, tagsInput: string,
                  numRecommendations: nat, ops: Oracle): Result<seq<Entry>, ()>
  {
    if !ops.selfProductOk(query) then Err(())
    else
      match Calls(data, QueryOf(rawInput, tagsInput), query, ops.similarity)
      case Err(_) => Err(())
      case Ok(log) => Ok(ops.readout(numRecommendations, log))
  }

  /** Scanning one more key appends it to the kept ones exactly when it is not skipped. */
  lemma EligiblesStep(keys: seq<Data>, i: nat, q: Query)
    requires i < |keys|
    ensures Eligibles(keys[..i + 1], q) ==
            Eligibles(keys[..i], q) + (if Skipped(keys[i], q) then [] else [keys[i]])
  {
    assert keys[..i + 1][..i] == keys[..i];
  }

  lemma EntriesStep(ds: seq<Data>, d: Data, vals: map<Data, Option<Tensor>>, query: Tensor,
                    similarity: (Tensor, Tensor) -> real)
    requires AllEmbedded(ds + [d], vals)
    ensures AllEmbedded(ds, vals) && d in vals && vals[d].Some?
    ensures Entries(ds + [d], vals, query, similarity) ==
            Entries(ds, vals, query, similarity) + [(d.name, similarity(query, vals[d].value))]
  {
    assert forall j :: 0 <= j < |ds| ==> ds[j] == (ds + [d])[j];
    assert (ds + [d])[|ds|] == d;
  }

  /** A key the loop does not skip and that has no embedding makes the whole scan fail. */
  lemma MissingEmbeddingFails(data: Nodes, q: Query, query: Tensor, similarity: (Tensor, Tensor) -> real, d: Data)
    requires d in data.keys && !Skipped(d, q)
    requires d in data.vals && data.vals[d].None?
    ensures Calls(data, q, query, similarity) == Err(())
  {
    var el := Eligibles(data.keys, q);
    EligiblesComplete(data.keys, q);
    var j :| 0 <= j < |el| && el[j] == d;
  }

  /** The skip test of the loop: the queried item itself, or an item the tag filter rejects. */
  method SkipCase(key: Data, q: Query) returns (skip: bool)
    ensures skip == Skipped(key, q)
  {
    skip := q.inputCleaned.Some? && q.inputCleaned == Some(Lower(key.name));
    if !skip {
      var through := ThroughFilter(q.tagsInput, q.tagsToMatch, key.tags);
      skip := !through;
    }
  }

  /**
   * The `for (key, value) in data.iter()` loop: every key that is not skipped is
   * scored and offered to the collector, and the scan stops at the first such key
   * without an embedding.
   */
  method ScanCatalog(data: Nodes, q: Query, query: Tensor, similarity: (Tensor, Tensor) -> real,
                     recommendations: Collector.Recommendations) returns (ok: bool)
    requires data.Valid()
    modifies recommendations
    ensures ok <==> Calls(data, q, query, similarity).Ok?
    ensures ok ==> recommendations.calls == old(recommendations.calls) + Calls(data, q, query, similarity).value
    ensures !ok ==>
      (exists n :: 0 <= n <= |data.keys| &&
         AllEmbedded(Eligibles(data.keys[..n], q), data.vals) &&
         recommendations.calls == old(recommendations.calls) + Entries(Eligibles(data.keys[..n], q), data.vals, query, similarity))
  {
    ghost var start := recommendations.calls;
    ghost var el: seq<Data> := [];
    for i := 0 to |data.keys|
      invariant el == Eligibles(data.keys[..i], q)
      invariant AllEmbedded(el, data.vals)
      invariant recommendations.calls == start + Entries(el, data.vals, query, similarity)
    {
      var key := data.keys[i];
      EligiblesStep(data.keys, i, q);
      var skip := SkipCase(key, q);
      if skip {
        continue;
      }
      var value := data.vals[key];
      if value.None? {
        MissingEmbeddingFails(data, q, query, similarity, key);
        assert el == Eligibles(data.keys[..i], q);
        return false;
      }
      EntriesStep(el, key, data.vals, query, similarity);
      recommendations.InsertOrSkip(key.name, similarity(query, value.value));
      el := el + [key];
    }
    assert data.keys[..|data.keys|] == data.keys;
    return true;
  }

  method GetRecommendations(data: Nodes, rawInput: Option<string>, inputEmbedding: Tensor,
                            tagsInput: string, numRecommendations: nat, ops: Oracle)
    returns (r: Result<seq<Entry>, ()>)
    requires data.Valid()
    ensures r == Reduce(data, rawInput, inputEmbedding, tagsInput, numRecommendations, ops)
  {
    var tagsToMatch := ParseTags(tagsInput);
    if !ops.selfProductOk(inputEmbedding) {
      return Err(());
    }
    var inputCleaned := match rawInput
      case Some(input) => Some(Lower(Trim(input)))
      case None => None;
    var q := Query(tagsInput, tagsToMatch, inputCleaned);
    assert q == QueryOf(rawInput, tagsInput);
    var recommendations := new Collector.Recommendations(numRecommendations, ops.readout);
    var ok := ScanCatalog(data, q, inputEmbedding, ops.similarity, recommendations);
    if !ok {
      return Err(());
    }
    assert recommendations.calls == Calls(data, q, inputEmbedding, ops.similarity).value;
    return Ok(recommendations.GetRecommendations());
  }
}
