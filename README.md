# reco-forge: a verified model of the retrieval and filtering core

reco-forge turns a JSON catalog of items into a recommender. Each item has an id, a name, a summary and tags. The crate embeds every summary with a BERT sentence model. A query is a free-text description, or the name of an item already in the catalog. The crate answers it by scoring every stored embedding against the query's embedding. Only items that pass a comma-separated tag request are scored, and the queried item itself is skipped.

This project models the parts of that pipeline that can be stated without floating point or a neural network, and proves properties about them:

- **The `Data` record, its display format, and the defaults for the model id and revision.** Module `Types`.
- **The catalog store.** `HashMap<Data, Option<Tensor>>` is modelled as the value `NodeMap.Nodes`: the keys in iteration order, plus a map from key to value. A new key goes at the end of the order; re-inserting a key keeps its place.
- **The string operations the filters rely on.** `str::to_lowercase`, `str::trim` and `str::split(',')`, in module `Text`.
- **`get_recommendations`.** Module `Recommendation`, with its lemmas in `RecommendationFacts`. The method covers:
  - parsing the tag request, with `NONE` as an exact sentinel;
  - the `through_filter` loop, which is an AND filter over lower-cased tags;
  - skipping the queried item;
  - failing on a missing embedding;
  - the `insert_or_skip` loop that feeds the `Recommendations` collector.

  The collector is the class `Collector.Recommendations`. Its `calls` field records every `insert_or_skip` call. Its read-out is a function the collector is created with, because the source does not define the selection policy.

  The method is proved equal to the specification function `Recommendation.Reduce`:
  - `Eligibles` lists the keys the loop does not skip, in order.
  - `Calls` is the list of `insert_or_skip` calls, or `Err` for a missing embedding.
  - `Reduce` adds the self-product check in front and the collector read-out at the end.

  The lemmas relate `Reduce` to the source's promises:
  - an item that passes is offered exactly once;
  - an item that does not pass is never offered;
  - the queried item is never offered;
  - a missing embedding gives `Err` exactly when the item is eligible.
- **The two catalog-building loops of `pre_recommendation.rs`.**
  - `ExtractData` inserts every loaded record with no embedding. It is proved equal to the fold `FromItems`.
  - `GetEmbeddings` gathers the summaries in iteration order and pairs key `i` with embedding row `i`. It is proved equal to `Zip`.
- **The older OR filter `filter_by_tags` and the `recommendations` stub.** Module `PostRecommendation`. `filter_by_tags` is case-sensitive and keeps an item as soon as any trimmed token is one of its tags. The method is proved equal to the map comprehension `OrFiltered`.
- **The wiring in `lib.rs`.** `create_model`, `pass_description` and `pass_item` are in module `Lib`. They work against oracles for:
  - loading the file;
  - `insert_embeddings`;
  - `find_embedding`;
  - `create_input_embedding`.

All the mutation in the source is local: maps built by loop insertion, and a collector fed by a loop. It is modelled as methods whose loops carry invariants. Each method's postcondition ties its result to a specification function, and the lemmas state what those functions guarantee.

Four points of the code's behaviour that the model keeps as they are:
- `get_recommendations` hands every scored item to the `Recommendations` collector through `insert_or_skip` and returns the collector's `get_recommendations()`. The collector type is not defined in the files modelled, so its read-out (how many pairs it keeps, in which order, how ties fall) is abstract.
- Looking an item up by name is `find_embedding`'s job, and it is not defined in the files modelled. The model uses only whether it finds an embedding.
- Empty tag tokens, as in `"a,"` or `""`, are not dropped. They are compared literally, so they match only an empty tag (`TrailingCommaNeedsEmptyTag`).
- The queried item is skipped by comparing the trimmed, lower-cased query with each stored name, which is lower-cased but not trimmed. A stored name with surrounding white space is therefore offered (`Recommendation.Excluded`, `Recommendation.Skipped`).

## Model

| member | source | states |
|---|---|---|
| Types.NewDataWithEmbeddings | src/helpers/types.rs:32-46 | every argument lands unchanged in the field of the same name |
| Types.Display | src/helpers/types.rs:49-55 | the rendering is `Name: `, the name, `, Summary: `, the summary, in that order and nothing else (length and each slice) |
| Types.DisplayIgnoresIdAndTags | src/helpers/types.rs:52-54 | changing the id or the tags does not change the rendering |
| Types.DisplayDeterminesNameAndSummary | src/helpers/types.rs:52-54 | two records with names of one length render alike only when their names and summaries are equal |
| Types.ResolveModelRevision | src/helpers/types.rs:99-106 | a given model id or revision is used as is; a missing model id becomes `sentence-transformers/all-MiniLM-L6-v2`; a missing revision becomes `main` beside a given model and `refs/pr/21` beside the default one |
| Types.DefaultRevisionOnlyWithDefaultModel | src/helpers/types.rs:99-106 | without a revision, `refs/pr/21` is chosen exactly when no model id was given |
| Text.Lower | src/helpers/recommendation.rs:70 | lower-casing keeps the length, leaves no ASCII upper-case letter, and changes no other character |
| Text.Trim | src/helpers/recommendation.rs:70 | `trim` never lengthens its input, and what it keeps neither starts nor ends with white space |
| Text.Split | src/helpers/recommendation.rs:66-68 | `split` always yields at least one piece |
| Text.JoinSplit | src/helpers/recommendation.rs:66-68 | joining the pieces with the separator gives back the input: splitting loses nothing |
| Text.SplitPiecesHaveNoSeparator | src/helpers/recommendation.rs:66-68 | no piece contains the separator |
| Text.SplitTrailingSeparator | src/helpers/recommendation.rs:66-68 | a trailing separator adds exactly one empty last piece |
| Text.SplitConcat | src/helpers/recommendation.rs:66-68 | splitting `a + sep + b` gives the pieces of `a` followed by those of `b` |
| Text.SplitWithoutSeparator | src/helpers/recommendation.rs:66-68 | a string without the separator is its own single piece |
| Text.SplitLower | src/helpers/recommendation.rs:66-70 | for a separator that is not a letter, lower-casing before or after splitting gives the same pieces |
| Text.TrimStartShape | src/helpers/recommendation.rs:70 | `trim_start` keeps a suffix that does not start with white space and drops only white space |
| Text.TrimEndShape | src/helpers/recommendation.rs:70 | `trim_end` keeps a prefix that does not end in white space and drops only white space |
| Text.TrimShape | src/helpers/recommendation.rs:70 | `trim` keeps a slice of the input with no white space at either end; everything outside the slice is white space |
| Text.TrimUnpadded | src/helpers/recommendation.rs:70 | a string with no white space at its ends is its own trim |
| Text.TrimStartPadded | src/helpers/recommendation.rs:70 | leading white space makes no difference to `trim_start` |
| Text.TrimEndPadded | src/helpers/recommendation.rs:70 | trailing white space makes no difference to `trim_end` |
| Text.PaddedTrim | src/helpers/recommendation.rs:70 | a non-blank word wrapped in white space trims to the word |
| Text.LowerCharKeepsWhitespace | src/helpers/recommendation.rs:70 | lower-casing a character keeps it white space exactly when it was |
| Text.TrimStartLower | src/helpers/recommendation.rs:70 | `trim_start` and lower-casing commute |
| Text.TrimEndLower | src/helpers/recommendation.rs:70 | `trim_end` and lower-casing commute |
| Text.TrimLower | src/helpers/recommendation.rs:70 | `trim` and lower-casing commute |
| Text.LowerIdempotent | src/helpers/recommendation.rs:70 | lower-casing twice is lower-casing once |
| Text.LowerEmpty | src/helpers/recommendation.rs:80 | only the empty string lower-cases to the empty string |
| NodeMap.Empty | src/helpers/pre_recommendation.rs:30 | `HashMap::new()` is well formed, with no keys and no values |
| NodeMap.Nodes.Insert | src/helpers/pre_recommendation.rs:33 | after `insert` the key maps to the new value and the map stays well formed; a new key is appended to the order, an existing key keeps its place |
| NodeMap.InsertTwice | src/helpers/post_recommendation.rs:23-28 | inserting the same key and value again is a no-op |
| NodeMap.InsertExisting | src/helpers/pre_recommendation.rs:32-34 | inserting a key with the value it already holds changes nothing |
| Collector.Recommendations.constructor | src/helpers/recommendation.rs:111 | a new collector has the requested capacity and has been offered nothing |
| Collector.Recommendations.InsertOrSkip | src/helpers/recommendation.rs:137 | each `insert_or_skip` appends its `(name, score)` pair to the record of offers |
| Collector.Recommendations.GetRecommendations | src/helpers/recommendation.rs:139 | the read-out the collector was created with, applied to its capacity and to the whole log of `insert_or_skip` calls (no contract of its own: see "Left out") |
| Recommendation.ParseTags | src/helpers/recommendation.rs:66-71 | one token per comma-separated piece of the request, each trimmed and lower-cased already: trimming or lower-casing it again changes nothing |
| Recommendation.PassesFilter | src/helpers/recommendation.rs:72-90 | the reference definition of `through_filter`: the exact request `NONE`, or every token among the item's lower-cased tags. `ThroughFilter` is proved to agree with it, and the `RecommendationFacts` lemmas state what it accepts |
| Recommendation.ThroughFilter | src/helpers/recommendation.rs:72-90 | the loop with `break` answers true exactly for the sentinel request, or when every token is among the item's lower-cased tags |
| Recommendation.SkipCase | src/helpers/recommendation.rs:114-118 | the skip test is true exactly for the queried item (lower-cased names equal) or an item the tag filter rejects |
| Recommendation.SkippedIffIneligible | src/helpers/recommendation.rs:105-118 | on the precomputed request, an item is skipped exactly when it is the queried item or fails the tag filter |
| Recommendation.EligiblesSound | src/helpers/recommendation.rs:112-118 | every scored key is a catalog key that the loop does not skip |
| Recommendation.EligiblesComplete | src/helpers/recommendation.rs:112-118 | every catalog key that the loop does not skip is scored |
| Recommendation.EligiblesDistinct | src/helpers/recommendation.rs:112-118 | no key is scored twice |
| Recommendation.MissingEmbeddingFails | src/helpers/recommendation.rs:119-122 | a key that is not skipped and has no embedding makes the scan fail |
| Recommendation.ScanCatalog | src/helpers/recommendation.rs:110-138 | the loop succeeds exactly when every key it does not skip has an embedding; it then has offered the collector one `(name, score)` pair per such key, in order. When it stops at a missing embedding, it has offered exactly the pairs of the non-skipped keys of some scanned prefix, all of which had embeddings |
| Recommendation.GetRecommendations | src/helpers/recommendation.rs:58-140 | the result is `Reduce`: `Err` when the query's self product fails or a scored key has no embedding, otherwise the collector's read-out of exactly the offers the loop made |
| RecommendationFacts.SentinelPassesEverything | src/helpers/recommendation.rs:73-74 | the request `NONE` lets every item through, whatever its tags |
| RecommendationFacts.ParseTagsSingle | src/helpers/recommendation.rs:66-71 | a request with no comma and no surrounding white space is the single token of its lower-cased text |
| RecommendationFacts.SingleTokenRequest | src/helpers/recommendation.rs:66-88 | a single-token request other than `NONE` passes exactly the items with that tag, letter case aside |
| RecommendationFacts.PaddedSentinelIsATag | src/helpers/recommendation.rs:66-74 | `NONE` with white space around it is not the sentinel: it passes exactly the items tagged `none` in some letter case |
| RecommendationFacts.ParseTagsConcat | src/helpers/recommendation.rs:66-71 | the tokens of `a,b` are the tokens of `a` followed by those of `b` |
| RecommendationFacts.CleanTokensConcat | src/helpers/recommendation.rs:69-71 | trimming and lower-casing pieces distributes over concatenation |
| RecommendationFacts.FilterIsConjunction | src/helpers/recommendation.rs:76-88 | AND semantics: `a,b` passes an item exactly when `a` and `b` each pass it |
| RecommendationFacts.ParseTagsLower | src/helpers/recommendation.rs:66-71 | lower-casing the request does not change its tokens |
| RecommendationFacts.FilterIgnoresRequestCase | src/helpers/recommendation.rs:70 | two requests (neither the sentinel) that differ only in letter case filter alike |
| RecommendationFacts.FilterIgnoresTagCase | src/helpers/recommendation.rs:80 | items whose tags differ only in letter case filter alike |
| RecommendationFacts.EmptyTokenNeedsEmptyTag | src/helpers/recommendation.rs:66-82 | a request with an empty token passes only items that have an empty tag |
| RecommendationFacts.TrailingCommaNeedsEmptyTag | src/helpers/recommendation.rs:66-82 | a request ending in a comma passes only items that have an empty tag |
| RecommendationFacts.NothingKept | src/helpers/recommendation.rs:112-118 | when the loop skips every key, no key is scored |
| RecommendationFacts.EligiblesCount | src/helpers/recommendation.rs:112-137 | each catalog key is scored once if the loop does not skip it and never otherwise |
| RecommendationFacts.InsertedOncePerEligible | src/helpers/recommendation.rs:111-139 | on success, `insert_or_skip` is called once per eligible item with its name and score, and never for an ineligible one |
| RecommendationFacts.QueriedItemNeverOffered | src/helpers/recommendation.rs:105-118 | with a queried item, no offered name lower-cases to the trimmed, lower-cased query |
| RecommendationFacts.OffersOfScannedPrefix | src/helpers/recommendation.rs:112-122 | after any scanned prefix, including one that a missing embedding cuts short, every pair offered carries the name of an eligible catalog key, and never the queried item's name |
| RecommendationFacts.NothingExcludedWithoutItem | src/helpers/recommendation.rs:105-118 | without a queried item, every key through the tag filter is scored |
| RecommendationFacts.CallsErrIff | src/helpers/recommendation.rs:114-122 | the scan fails exactly when some key that is not skipped has no embedding; skipped keys without embeddings cause no error |
| RecommendationFacts.NoEligibleNoCalls | src/helpers/recommendation.rs:111-139 | when every key is skipped, the collector is offered nothing and the scan succeeds |
| RecommendationFacts.ReduceOutcome | src/helpers/recommendation.rs:93-139 | the result is `Err` exactly when the self product fails or a scored key has no embedding; otherwise it is the collector's read-out of the offers |
| PreRecommendation.FromItems | src/helpers/pre_recommendation.rs:30-34 | the map built from the loaded records is well formed, its keys are exactly the loaded records, and every value is `None` |
| PreRecommendation.FromItemsDuplicate | src/helpers/pre_recommendation.rs:32-34 | a record loaded a second time leaves the map as it was: duplicates collapse |
| PreRecommendation.ExtractData | src/helpers/pre_recommendation.rs:15-37 | `Err` when the file cannot be opened or deserialised, otherwise the map built from the records |
| PreRecommendation.ZipKeys | src/helpers/pre_recommendation.rs:88-93 | the map built by the `counter` loop is well formed and has the input's keys in their order |
| PreRecommendation.ZipValues | src/helpers/pre_recommendation.rs:88-93 | key `i` of the iteration order holds embedding row `i` |
| PreRecommendation.GetEmbeddings | src/helpers/pre_recommendation.rs:45-96 | `Err` exactly when inference fails on the summaries, which are taken one per key in iteration order; otherwise the map pairing key `i` with row `i` |
| PreRecommendation.EmbeddedMap | src/helpers/pre_recommendation.rs:88-95 | the map built by `get_embeddings` is well formed, has exactly the input's keys, gives every key an embedding, and gives key `i` row `i` |
| PostRecommendation.Recommendations | src/helpers/post_recommendation.rs:9-11 | always `Ok` of an empty list |
| PostRecommendation.InsertCarrying | src/helpers/post_recommendation.rs:25-29 | the inner loop adds every entry carrying the token, with its own value, and nothing else |
| PostRecommendation.FilterByTags | src/helpers/post_recommendation.rs:20-32 | always `Ok`; the new map keeps exactly the input's entries that carry some trimmed token as a tag, letter case included, each with its original value |
| PostRecommendation.MatchesPrefixStep | src/helpers/post_recommendation.rs:23-28 | after one more token, an item matches exactly when it matched before or carries that token |
| PostRecommendation.OrFilteredByMembership | src/helpers/post_recommendation.rs:25-27 | a map made of exactly the matching entries, with their values, is the filtered map |
| PostRecommendation.SameTokenSetSameResult | src/helpers/post_recommendation.rs:23-28 | only the set of tokens matters: their order and repetitions change nothing |
| PostRecommendation.TrimAllConcat | src/helpers/post_recommendation.rs:21-24 | trimming pieces distributes over concatenation |
| PostRecommendation.RepeatedRequestSameResult | src/helpers/post_recommendation.rs:21-28 | a request repeated after a comma keeps exactly what it keeps alone |
| PostRecommendation.SingleTokenIsExact | src/helpers/post_recommendation.rs:24-26 | a single-token request keeps exactly the items carrying that token as written |
| PostRecommendation.CaseSensitiveUnlikeAndFilter | src/helpers/post_recommendation.rs:24-26 | a token that differs from a tag only in letter case is rejected here, but passed by the filter of `get_recommendations` |
| Lib.CreateModel | src/lib.rs:104-114 | load failure gives the "File path is not valid…" message whatever the embedder would do; an embedding failure gives "Error inserting embeddings"; `Ok` comes only with the nodes `insert_embeddings` produced from the loaded map, and those are well formed |
| Lib.CreateModelMessagesDiffer | src/lib.rs:107-113 | the two failures carry different messages |
| Lib.PassDescription | src/lib.rs:145-151 | the result is `get_recommendations` on the description's embedding, with no exclusion and the tag request and count unchanged |
| Lib.PassItem | src/lib.rs:182-194 | `Err` when no embedding is found for the item; otherwise `get_recommendations` on that embedding, with the item as the exclusion and the tag request and count unchanged |

## Left out

- Text.Lower: only the ASCII letters `A`–`Z` are lower-cased. Rust's `to_lowercase` also maps other Unicode upper-case letters and can change a string's length. The model has no Unicode tables.
- Text.TrimStart, Text.TrimEnd: white space is the Unicode White_Space set, listed by code point. No other Unicode processing is modelled.
- Collector.Recommendations.GetRecommendations has no stated contract beyond its read-out. The `Recommendations` type's selection policy, capacity handling, ordering and tie-breaking are not defined in the files modelled. The read-out is a function the collector is created with.
- Embeddings and scores are not computed. The f32 dot products, the square root and `normalize_l2` are replaced by the oracle `Oracle.similarity`. Whether `input_embedding * input_embedding` fails is the oracle `Oracle.selfProductOk`.
- The `unwrap`s on tensor operations in `get_recommendations` are assumed not to panic. These are the ones on the self-product after its `is_err` check (lines 97-102) and the ones on the per-item products inside the loop (lines 124-135).
- The BERT model, the tokenizer and Hugging Face loading are oracles:
  - `build_model_and_tokenizer` apart from its default match;
  - the inference part of `get_embeddings`;
  - `create_input_embedding`;
  - `embedding_for_input`.

  `get_embeddings` receives them as `infer`, whose `None` covers every error of the `?` chain. The other entry points receive an embedding function.
- PreRecommendation.GetEmbeddings requires that inference yields at least one row per key. This stands for the panic of `embeddings.get(counter).unwrap()`.
- Lib.PassDescription requires that `create_input_embedding` succeeds. This stands for its two `unwrap`s.
- File opening and JSON deserialisation are I/O. They are the `PreRecommendation.LoadOutcome` value that `ExtractData` receives. Reading CLI arguments with `Args::parse()` is not modelled.
- `insert_embeddings` and `find_embedding` are called from `src/lib.rs` but not defined in the files modelled. They are oracles.
- Lib.CreateModel requires that `insert_embeddings`, when it succeeds on the loaded map, returns a well-formed map. A Rust `HashMap` always is one; the oracle stands for code that is not in the files modelled.
- Lib.CreateModel cannot show that `insert_embeddings` is never called after a load failure. It shows that the result does not depend on it.
- The iteration order of a Rust `HashMap` is unspecified. The model fixes it to first-insertion order. So the map `extract_data` builds iterates in the order of the loaded records. The map `get_embeddings` builds iterates in the order of the map passed in, because it inserts the keys in that order (`PreRecommendation.ZipKeys`). A real `HashMap` promises neither; only the key sets and the values are the source's promise.
- PostRecommendation.FilterByTags states the entries of the new map, not their iteration order.
- PreRecommendation.GetEmbeddings takes the catalog by value, so the model does not represent the `&mut` borrow. That the input map is only iterated, never modified, holds by construction.
- In the files modelled, `Data` derives neither `Hash` nor `Eq`. The model gives it structural equality over all four fields, which is what such derives would give.
- The interactive programs (`src/main.rs`, `examples/desc_example.rs`) are left out. So are the Python data-preparation scripts and the commented-out helpers of `src/helpers/utils.rs`. None of them is part of the library's logic.
