/**
 * The public entry points of `src/lib.rs`: building the catalog from a file, and the
 * two queries, by description and by item. The embedding model and the two helpers
 * whose definitions are not part of this model are parameters.
 */
module Lib {
  import opened Wrappers
  import opened Types
  import opened NodeMap
  import opened PreRecommendation
  import opened Recommendation

  const FileErrorMessage: string :=
    "File path is not valid or file cannot be deserialized, please input the correct file path and try again:"
  const EmbeddingErrorMessage: string := "Error inserting embeddings"

  /**
   * `create_model`: the loaded catalog with its embeddings, or the message of the step
   * that failed. `insertEmbeddings` is `insert_embeddings(&mut nodes)`: the nodes it
   * leaves behind, or `None` for its error; like every `HashMap`, what it leaves
   * behind is a well-formed map.
   */
  method CreateModel(file: LoadOutcome, insertEmbeddings: Nodes -> Option<Nodes>) returns (r: Result<Nodes, string>)
    requires file.Loaded? && insertEmbeddings(FromItems(file.items)).Some? ==>
               insertEmbeddings(FromItems(file.items)).value.Valid()
    ensures !file.Loaded? ==> r == Err(FileErrorMessage)
    ensures file.Loaded? && insertEmbeddings(FromItems(file.items)).None? ==> r == Err(EmbeddingErrorMessage)
    ensures r.Ok? <==> file.Loaded? && insertEmbeddings(FromItems(file.items)).Some?
    ensures r.Ok? ==> r.value == insertEmbeddings(FromItems(file.items)).value && r.value.Valid()
  {
    var nodesWrapped := ExtractData(file);
    if nodesWrapped.Err? {
      return Err(FileErrorMessage);
    }
    var nodes := nodesWrapped.value;
    var inserted := insertEmbeddings(nodes);
    if inserted.Some? {
      nodes := inserted.value;
      return Ok(nodes);
    }
    return Err(EmbeddingErrorMessage);
  }

  /** The two failures of `create_model` are told apart by their messages. */
  lemma CreateModelMessagesDiffer()
    ensures FileErrorMessage != EmbeddingErrorMessage
  {
    assert |FileErrorMessage| != |EmbeddingErrorMessage|;
  }

  /**
   * `pass_description`: the description's embedding is the query, nothing is excluded
   * by name, and the tag request and count are passed on as given. The two `unwrap`s
   * of `create_input_embedding` are the precondition.
   */
  method PassDescription(nodeEmbeddings: Nodes, descriptionInput: string, tagsInput: string,
                         numRecommendations: nat, createInputEmbedding: string -> Option<Tensor>, ops: Oracle)
    returns (r: Result<seq<Entry>, ()>)
    requires nodeEmbeddings.Valid()
    requires createInputEmbedding(descriptionInput).Some?
    ensures r == Reduce(nodeEmbeddings, None, createInputEmbedding(descriptionInput).value, tagsInput,
                        numRecommendations, ops)
  {
    var inputEmbedding := createInputEmbedding(descriptionInput).value;
    r := GetRecommendations(nodeEmbeddings, None, inputEmbedding, tagsInput, numRecommendations, ops);
  }

  /**
   * `pass_item`: `Err` when `find_embedding` finds no embedding for the item;
   * otherwise the item's embedding is the query and the item itself is excluded.
   */
  method PassItem(nodeEmbeddings: Nodes, item: string, tagsInput: string, numRecommendations: nat,
                  findEmbedding: (Nodes, string) -> Option<Tensor>, ops: Oracle)
    returns (r: Result<seq<Entry>, ()>)
    requires nodeEmbeddings.Valid()
    ensures findEmbedding(nodeEmbeddings, item).None? ==> r == Err(())
    ensures findEmbedding(nodeEmbeddings, item).Some? ==>
              r == Reduce(nodeEmbeddings, Some(item), findEmbedding(nodeEmbeddings, item).value, tagsInput,
                          numRecommendations, ops)
  {
    var found := findEmbedding(nodeEmbeddings, item);
    if found.None? {
      return Err(());
    }
    var inputEmbedding := found.value;
    r := GetRecommendations(nodeEmbeddings, Some(item), inputEmbedding, tagsInput, numRecommendations, ops);
  }
}
