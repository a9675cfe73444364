/**
 * The two loops of `src/helpers/pre_recommendation.rs` that build the catalog: the
 * map of loaded records with no embeddings (`extract_data`), and the map pairing
 * each record with its embedding row (`get_embeddings`).
 */
module PreRecommendation {
  import opened Wrappers
  import opened Types
  import opened NodeMap

  /** What opening and deserialising the JSON file produced. */
  datatype LoadOutcome = CannotOpen | CannotDeserialize | Loaded(items: seq<Data>)

  /** The map the insertion loop builds: every loaded record inserted, in order, with no embedding. */
  function FromItems(items: seq<Data>): (m: Nodes)
    ensures m.Valid()
    ensures forall d :: d in m.vals <==> d in items
    ensures forall d :: d in m.vals ==> m.vals[d] == None
    decreases |items|
  {
    if items == [] then Empty()
    else FromItems(items[..|items| - 1]).Insert(items[|items| - 1], None)
  }

  /** A record loaded twice is stored once: the second insertion changes nothing. */
  lemma FromItemsDuplicate(items: seq<Data>, d: Data)
    requires d in items
    ensures FromItems(items + [d]) == FromItems(items)
  {
    assert (items + [d])[..|items|] == items;
    InsertExisting(FromItems(items), d, None);
  }

  /**
   * `extract_data`: `Err` when the file cannot be opened or deserialised, otherwise
   * the map with one `None` entry per distinct loaded record.
   */
  method ExtractData(file: LoadOutcome) returns (r: Result<Nodes, ()>)
    ensures r.Ok? <==> file.Loaded?
    ensures r.Ok? ==> r.value == FromItems(file.items)
  {
    if file.CannotOpen? {
      return Err(());
    }
    if file.CannotDeserialize? {
      return Err(());
    }
    var vectorOfData := file.items;
    var vectorToMap := Empty();
    for i := 0 to |vectorOfData|
      invariant vectorToMap == FromItems(vectorOfData[..i])
    {
      assert vectorOfData[..i + 1][..i] == vectorOfData[..i];
      vectorToMap := vectorToMap.Insert(vectorOfData[i], None);
    }
    assert vectorOfData[..|vectorOfData|] == vectorOfData;
    return Ok(vectorToMap);
  }

  /** The summaries handed to the tokenizer: one per key, in the map's iteration order. */
  function Summaries(keys: seq<Data>): seq<string>
  {
    seq(|keys|, i requires 0 <= i < |keys| => keys[i].summary)
  }

  /** The map the `counter` loop builds: key `i` of the iteration order gets embedding row `i`. */
  function Zip(keys: seq<Data>, rows: seq<Tensor>): Nodes
    requires |rows| >= |keys|
    decreases |keys|
  {
    if keys == [] then Empty()
    else Zip(keys[..|keys| - 1], rows).Insert(keys[|keys| - 1], Some(rows[|keys| - 1]))
  }

  /** With distinct keys, the zipped map is well formed and keeps the keys in their order. */
  lemma {:induction false} ZipKeys(keys: seq<Data>, rows: seq<Tensor>)
    requires forall i, j :: 0 <= i < j < |keys| ==> keys[i] != keys[j]
    requires |rows| >= |keys|
    ensures Zip(keys, rows).Valid()
    ensures Zip(keys, rows).keys == keys
    decreases |keys|
  {
    if keys != [] {
      var n := |keys|;
      var front, last := keys[..n - 1], keys[n - 1];
      ZipKeys(front, rows);
      assert last !in Zip(front, rows).vals by {
        assert forall i :: 0 <= i < n - 1 ==> front[i] == keys[i];
      }
      assert keys == front + [last];
    }
  }

  /** With distinct keys, key `i` of the zipped map holds row `i`. */
  lemma {:induction false} ZipValues(keys: seq<Data>, rows: seq<Tensor>)
    requires forall i, j :: 0 <= i < j < |keys| ==> keys[i] != keys[j]
    requires |rows| >= |keys|
    ensures forall i :: 0 <= i < |keys| ==> keys[i] in Zip(keys, rows).vals && Zip(keys, rows).vals[keys[i]] == Some(rows[i])
    decreases |keys|
  {
    if keys != [] {
      var n := |keys|;
      var front, last := keys[..n - 1], keys[n - 1];
      ZipValues(front, rows);
      var m := Zip(keys, rows);
      assert m.vals == Zip(front, rows).vals[last := Some(rows[n - 1])];
      forall i | 0 <= i < n
        ensures keys[i] in m.vals && m.vals[keys[i]] == Some(rows[i])
      {
        if i < n - 1 {
          assert keys[i] == front[i] && keys[i] != last;
        }
      }
    }
  }

  /**
   * `get_embeddings`: the summaries in iteration order go to the model, and the new
   * map pairs each key with the row of its position. `infer` stands for the
   * tokenizer, BERT and pooling, `None` for any of their errors; the `unwrap` of a
   * missing row is excluded by the precondition.
   */
  method GetEmbeddings(data: Nodes, infer: seq<string> -> Option<seq<Tensor>>) returns (r: Result<Nodes, ()>)
    requires data.Valid()
    requires infer(Summaries(data.keys)).Some? ==> |infer(Summaries(data.keys)).value| >= |data.keys|
    ensures r.Err? <==> infer(Summaries(data.keys)).None?
    ensures r.Ok? ==> r.value == Zip(data.keys, infer(Summaries(data.keys)).value)
  {
    var summaries: seq<string> := [];
    for i := 0 to |data.keys|
      invariant |summaries| == i
      invariant forall j :: 0 <= j < i ==> summaries[j] == data.keys[j].summary
    {
      summaries := summaries + [data.keys[i].summary];
    }
    assert summaries == Summaries(data.keys);
    var embeddings := infer(summaries);
    if embeddings.None? {
      return Err(());
    }
    var rows := embeddings.value;
    var counter: nat := 0;
    var newMap := Empty();
    for i := 0 to |data.keys|
      invariant counter == i
      invariant newMap == Zip(data.keys[..i], rows)
    {
      assert data.keys[..i + 1][..i] == data.keys[..i];
      newMap := newMap.Insert(data.keys[i], Some(rows[counter]));
      counter := counter + 1;
    }
    assert data.keys[..|data.keys|] == data.keys;
    return Ok(newMap);
  }

  /** What a successful `get_embeddings` returns: the input's keys, each with its own row. */
  lemma EmbeddedMap(data: Nodes, rows: seq<Tensor>)
    requires data.Valid() && |rows| >= |data.keys|
    ensures Zip(data.keys, rows).Valid()
    ensures forall d :: d in Zip(data.keys, rows).vals <==> d in data.vals
    ensures forall d :: d in Zip(data.keys, rows).vals ==> Zip(data.keys, rows).vals[d].Some?
    ensures forall i :: 0 <= i < |data.keys| ==> Zip(data.keys, rows).vals[data.keys[i]] == Some(rows[i])
  {
    ZipKeys(data.keys, rows);
    ZipValues(data.keys, rows);
    var m := Zip(data.keys, rows);
    assert m.keys == data.keys;
    forall d
      ensures d in m.vals <==> d in data.vals
      ensures d in m.vals ==> m.vals[d].Some?
    {
      if d in m.vals {
        var i :| 0 <= i < |data.keys| && data.keys[i] == d;
        assert m.vals[d] == Some(rows[i]);
      }
    }
  }
}
