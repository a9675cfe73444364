/** The records of `src/helpers/types.rs` and the model/revision defaults. */
module Types {
  import opened Wrappers

  /** Rust `i32`. */
  newtype int32 = x: int | -0x8000_0000 <= x < 0x8000_0000

  /**
   * A candle tensor holding one embedding row. Its numbers are never inspected:
   * every computation on them is an oracle parameter.
   */
  type Tensor = seq<real>

  /** One `(name, similarity)` pair handed to, and read back from, the collector. */
  type Entry = (string, real)

  /** One catalog record. Equality is structural over all four fields. */
  datatype Data = Data(id: int32, name: string, summary: string, tags: seq<string>)

  /** A catalog record together with its optional embedding. */
  datatype DataWithEmbeddings = DataWithEmbeddings(
    id: int32,
    name: string,
    summary: string,
    tags: seq<string>,
    embedding: Option<Tensor>)

  /** `DataWithEmbeddings::new`: every argument lands in its own field. */
  function NewDataWithEmbeddings(
    id: int32, name: string, summary: string, tags: seq<string>, embedding: Option<Tensor>
  ): (r: DataWithEmbeddings)
    ensures r.id == id && r.name == name && r.summary == summary
    ensures r.tags == tags && r.embedding == embedding
  {
    DataWithEmbeddings(id, name, summary, tags, embedding)
  }

  const NamePrefix: string := "Name: "
  const SummaryPrefix: string := ", Summary: "

  /** `Display for Data`: `Name: {name}, Summary: {summary}`. */
  function Display(d: Data): (r: string)
    ensures |r| == |NamePrefix| + |d.name| + |SummaryPrefix| + |d.summary|
    ensures r[..|NamePrefix|] == NamePrefix
    ensures r[|NamePrefix|..|NamePrefix| + |d.name|] == d.name
    ensures r[|NamePrefix| + |d.name|..|NamePrefix| + |d.name| + |SummaryPrefix|] == SummaryPrefix
    ensures r[|NamePrefix| + |d.name| + |SummaryPrefix|..] == d.summary
  {
    NamePrefix + d.name + SummaryPrefix + d.summary
  }

  /** The id and the tags never show in the rendering. */
  lemma DisplayIgnoresIdAndTags(d: Data, id: int32, tags: seq<string>)
    ensures Display(d.(id := id, tags := tags)) == Display(d)
  {
  }

  /** Two renderings with names of one length are equal only for equal names and summaries. */
  lemma DisplayDeterminesNameAndSummary(a: Data, b: Data)
    requires |a.name| == |b.name|
    requires Display(a) == Display(b)
    ensures a.name == b.name && a.summary == b.summary
  {
    var n := |NamePrefix| + |a.name|;
    assert a.name == Display(a)[|NamePrefix|..n] == Display(b)[|NamePrefix|..n] == b.name;
    assert a.summary == Display(a)[n + |SummaryPrefix|..] == Display(b)[n + |SummaryPrefix|..] == b.summary;
  }

  const DefaultModel: string := "sentence-transformers/all-MiniLM-L6-v2"
  const DefaultRevision: string := "refs/pr/21"
  /** The revision taken when only a model id is given. */
  const MainRevision: string := "main"

  /** The `(model_id, revision)` pair `build_model_and_tokenizer` resolves from its two options. */
  function ResolveModelRevision(modelId: Option<string>, revision: Option<string>): (r: (string, string))
    ensures modelId.Some? ==> r.0 == modelId.value
    ensures modelId.None? ==> r.0 == DefaultModel
    ensures revision.Some? ==> r.1 == revision.value
    ensures revision.None? && modelId.Some? ==> r.1 == MainRevision
    ensures revision.None? && modelId.None? ==> r.1 == DefaultRevision
  {
    match (modelId, revision)
    case (Some(m), Some(rev)) => (m, rev)
    case (Some(m), None) => (m, MainRevision)
    case (None, Some(rev)) => (DefaultModel, rev)
    case (None, None) => (DefaultModel, DefaultRevision)
  }

  /**
   * The default revision only ever comes with the default model: an explicit model
   * without a revision gets `main`, never `refs/pr/21`.
   */
  lemma DefaultRevisionOnlyWithDefaultModel(modelId: Option<string>, revision: Option<string>)
    requires revision.None?
    ensures ResolveModelRevision(modelId, revision).1 == DefaultRevision <==> modelId.None?
  {
    if modelId.Some? {
      assert MainRevision[0] != DefaultRevision[0];
    }
  }
}
