# e-Stat query translator — a Dafny model

This project models the decision logic of a translator that turns a Japanese
request for government statistics ("東京都の年齢別人口") into parameters for
the e-Stat API. It also models the pure kernels of the catalog tooling that
feeds it.

- **Translator** (`translator.dfy`) covers `parse_query`:
  - gazetteer lookup, item lexicon, 4-digit years and `latest`, category trigger words.
  - It also covers `search_stats_tables`, `generate_parameters`, `calculate_confidence` (on `real`) and the rule path `_translate_with_rules` (truncate, score, stable sort, primary plus alternatives).
  - It also covers the assistant path `_translate_with_ollama` with `_generate_ai_parameters`, `translate_query` and `get_query_suggestions`.
- **Lexicon** (`lexicon.dfy`) holds the built-in `area_mappings` gazetteer and the `stats_keywords` item lexicon.
- **CatalogStore** (`catalog_store.dfy`) models the `stats_tables` table:
  - a list of rows in insertion order;
  - `INSERT OR REPLACE` as an upsert by id;
  - the `keywords LIKE '%term%'` search over the stored JSON text, `ORDER BY stats_data_id`, and decoding of NULL columns.
- **Assistant** (`assistant.dfy`) covers the keyword-dispatched canned response `_fallback_response`, the never-failing `_call_ollama` and the tolerant `_parse_ollama_response`. It also covers `_create_fallback_response` and `suggest_stats_table_and_axes`.
- **CatalogSync** (`catalog_sync.dfy`) covers the keyword tagger `_extract_keywords` and the upsert fold of `sync_catalog_to_mcp_db`, including the `IntegrityError` that an empty statistic name raises before the commit.
- **Downloader** (`downloader.dfy`) covers `classify_by_field`:
  - field buckets, and the `"99"` bucket with its size condition;
  - the combined catalog and record counts of `save_catalogs`;
  - the survey index of `create_catalog_index`.
- **MetadataLoader** (`metadata_loader.dfy`) covers:
  - record normalisation in `fetch_all_stats_tables`, including Python's `int()` on the total number;
  - priority selection in `update_metadata_cache`;
  - grouping in `load_all_stats_for_ollama`;
  - the axis details of `get_table_axis_details`.
- **Support modules:**
  - `Strings`: substrings, `strip`, `lower`, digits.
  - `Seqs`: filters, dict-as-entry-list, `set()`, slices.
  - `Sorting`: a stable insertion sort standing in for `list.sort`.
  - `Json`: an abstract codec.
  - `Wrappers`: `Option` and `Result`.

Inputs the program gets from elsewhere are parameters of the model:
- the network reply of the assistant: `Reply.Raised` for an exception, or `Answered(status, response)`;
- the assistant's availability flag;
- the XML children of each `TABLE_INF` element, as (tag, text) pairs;
- the rows of each SQL query, in order;
- the rows of the newest combined CSV, or `None` when there is none;
- `json.dumps`/`json.loads`, as function values of a `Codec`.

The laws the codec obeys are preconditions of the lemmas that need them:
- decoding an encoding gives it back;
- an encoded object is framed by `{`…`}`;
- the default `ensure_ascii` output is ASCII.

## Behaviour worth knowing

- **Catalog search.** The search runs `LIKE '%item%'` over the stored text of `json.dumps(keywords)`, and `json.dumps` escapes every non-ASCII character by default. So a Japanese item never matches a table stored by this code, and the rule path then finds nothing (`CatalogStore.EscapedKeywordsNeverMatch`, `Translator.RulesFindNothingOnEscapedStore`).
- **Ranking ties.** Results are stable-sorted by confidence alone, so tied results keep search order. That order is id order only when some item was recognised; otherwise it is the table's row order.
- **Region aliasing.** Regions are found by plain substring search. So `京都` is recognised inside `東京都`, and `東京` comes first (`Translator.TokyoAliasing`).
- **Table id.** The table id is read from a child element tagged `TABLE_INF`. The `TABLE_INF` element's own `id` attribute is not used, so the id is `""` unless such a child exists.
- **Axis units.** `get_table_axis_details` keeps a NULL unit as stored. Only the grouped data for the assistant turns a NULL or empty unit into `""`.

## Model

| member | source | states |
|---|---|---|
| Translator.ParseQueryRegions | src/opendatajounalism/mcp/estat_query_translator.py:218-226 | Regions are exactly the gazetteer names occurring in the query, in gazetteer order. The strip changes nothing, since names hold no spaces. |
| Translator.ParseQueryItems | src/opendatajounalism/mcp/estat_query_translator.py:228-232 | An item is listed iff it is a lexicon label and the label or one of its synonyms occurs in the stripped query. Each item is listed once. |
| Translator.TokyoAliasing | src/opendatajounalism/mcp/estat_query_translator.py:222-226 | With the built-in gazetteer, a query containing `東京都` yields `東京`, `東京都` and `京都`, in that order. |
| Translator.AliasedRegions | src/opendatajounalism/mcp/estat_query_translator.py:222-226 | The same aliasing holds for any gazetteer listing `東京`, then `東京都`, then later `京都`. |
| Lexicon.TokyoKyotoNames | src/opendatajounalism/mcp/estat_query_translator.py:84-97 | The gazetteer has 94 names. `東京` and `東京都` are adjacent, and `京都` comes later. |
| Lexicon.DefaultValid | src/opendatajounalism/mcp/estat_query_translator.py:70-136 | Every gazetteer name and item label is a word without spaces, and the labels are distinct. |
| Translator.YearsAreDigitRuns | src/opendatajounalism/mcp/estat_query_translator.py:234-238 | Every year the pattern scan returns is a run of four digits occurring in the query. |
| Translator.YearFound | src/opendatajounalism/mcp/estat_query_translator.py:234-238 | Every four-digit block that starts a digit run is among the years found. |
| Translator.YearsLeftToRight | src/opendatajounalism/mcp/estat_query_translator.py:234-238 | Take the starts of four-digit blocks that do not overlap, each the leftmost block after the previous one ends, with no block after the last. The years found are exactly those blocks, in order. |
| Translator.LeftmostBlocksUnique | src/opendatajounalism/mcp/estat_query_translator.py:234-238 | Only one list of starts has that leftmost, non-overlapping shape. |
| Translator.FirstYearLeftmost | src/opendatajounalism/mcp/estat_query_translator.py:234-238 | A year is found iff the query holds four consecutive digits. The first year found is the leftmost such block. |
| Translator.TimePeriodsLatestLast | src/opendatajounalism/mcp/estat_query_translator.py:234-241 | `latest` is present iff `最新` or `最近` occurs. When present, it is the single last period. |
| Translator.CategoriesAreAsked | src/opendatajounalism/mcp/estat_query_translator.py:243-250 | The categories are the subsequence of `age`, `gender`, `industry` whose trigger words occur. |
| Translator.CategoryAskedIff | src/opendatajounalism/mcp/estat_query_translator.py:245-250 | Gives the two trigger words of each category, both directions. |
| Translator.GenerateParameters | src/opendatajounalism/mcp/estat_query_translator.py:298-331 | Parameter keys come only from `cdArea`, `cdCat01`, `cdCat02` and `cdTime`. |
| Translator.FirstRegion | src/opendatajounalism/mcp/estat_query_translator.py:222-226 | The first region is the first gazetteer name, in gazetteer order, that occurs in the query. |
| Translator.AreaParameter | src/opendatajounalism/mcp/estat_query_translator.py:302-307 | `cdArea` is set iff some gazetteer name occurs in the query. It is the code of the first such name. |
| Translator.CategoryParameters | src/opendatajounalism/mcp/estat_query_translator.py:309-319 | From a query: `cdCat02 = 002,003` iff a gender word occurs and the table has `cdCat02`. `cdCat01 = 01000-01021` iff an age word occurs and the table has `cdCat01`. |
| Translator.TimeParameter | src/opendatajounalism/mcp/estat_query_translator.py:321-329 | From a query: `cdTime` is set iff a recency word or a year occurs. A recency word wins over any year. Otherwise the value is the first year + `000000`. |
| Translator.Confidence | src/opendatajounalism/mcp/estat_query_translator.py:333-357 | The capped score never exceeds 1. |
| Translator.MatchedBound | src/opendatajounalism/mcp/estat_query_translator.py:339-341 | The number of matched distinct items never exceeds the number of items. |
| Translator.ItemScoreBounds | src/opendatajounalism/mcp/estat_query_translator.py:337-341 | The item term lies in [0, 0.6]. |
| Translator.ConfidenceUncapped | src/opendatajounalism/mcp/estat_query_translator.py:333-357 | The weighted sum always lies in [0, 1], so `min(…, 1.0)` never changes it. |
| Translator.ItemScoreMonotone | src/opendatajounalism/mcp/estat_query_translator.py:337-341 | A table listing more keywords never gets a lower item term. |
| Translator.ItemAddedMonotone | src/opendatajounalism/mcp/estat_query_translator.py:337-341 | Recognising one more, new item that the table lists never lowers the item term. |
| Translator.ItemScoreFull | src/opendatajounalism/mcp/estat_query_translator.py:337-341 | Distinct items that the table all lists earn exactly 0.6. |
| Translator.PerfectConfidence | src/opendatajounalism/mcp/estat_query_translator.py:333-357 | The score is exactly 1.0 when the table has all of these: every item, the first region, and an axis for asked categories. |
| Translator.ScoreAll | src/opendatajounalism/mcp/estat_query_translator.py:418-430 | One result per candidate, in candidate order. |
| Translator.FlattenRank | src/opendatajounalism/mcp/estat_query_translator.py:432-441 | Primary followed by its alternatives is the confidence-sorted result list, and there is one primary when there are results. |
| Translator.RankSpec | src/opendatajounalism/mcp/estat_query_translator.py:432-441 | `[]` for no results, else exactly one primary. Primary plus alternatives is a permutation of the results. It is sorted by descending confidence and stable among ties. The primary scores at least every alternative. |
| Translator.RulesSpec | src/opendatajounalism/mcp/estat_query_translator.py:409-441 | On a decodable store the rule path succeeds. Only the first `limit` candidates (Python slice) are scored, and their results are ranked. Every confidence lies in [0, 1]. |
| Translator.RankedScores | src/opendatajounalism/mcp/estat_query_translator.py:418-433 | Every ranked result's confidence lies in [0, 1]. |
| Translator.RulesFindNothingOnEscapedStore | src/opendatajounalism/mcp/estat_query_translator.py:259-279 | If items were recognised and each has a non-ASCII character, the rule path returns `[]` against keyword text written by an ASCII-escaping encoder. |
| Translator.AiParameters | src/opendatajounalism/mcp/estat_query_translator.py:443-472 | Succeeds iff `axis_mappings` is a dict and every `cdCat*` description that a category test reads is a str, list or dict. `in` raises on anything else, and `.items()` raises on a non-dict. On success the result is the `cdArea`/`cdTime` codes plus the `cdCat*` codes. |
| Translator.CategoryCode | src/opendatajounalism/mcp/estat_query_translator.py:463-470 | A `cdCat*` axis fails iff gender or age is asked and its description cannot be searched with `in`. Otherwise it gets `002,003` iff gender is asked and `男女` is in the description. It gets `01000` iff that does not hold, age is asked and `年齢` is in it. Otherwise it gets nothing. |
| Translator.AiParameterSpec | src/opendatajounalism/mcp/estat_query_translator.py:443-472 | On success, `cdArea`/`cdTime` appear only if the assistant mapped them. Other keys are `cdCat*` axes the assistant mapped. A non-digit first period gives no `cdTime`. A mapped `cdCat*` axis is set iff gender is asked and `男女` is in its description, or age is asked and `年齢` is. |
| Translator.AiParameterSources | src/opendatajounalism/mcp/estat_query_translator.py:447-460 | On success: `cdArea` is set iff a region is known to the gazetteer and the assistant mapped the axis. `cdTime` is set iff periods exist, the axis is mapped, and `latest` is present or the first period is all digits. Both values are given. |
| Translator.AiAreaAgrees | src/opendatajounalism/mcp/estat_query_translator.py:447-451 | When the assistant maps `cdArea`, both paths agree on it. |
| Translator.AiTimeAgrees | src/opendatajounalism/mcp/estat_query_translator.py:453-460 | When the assistant maps `cdTime`, both paths agree on it, for periods parsed from a query. |
| Translator.AssistantSpec | src/opendatajounalism/mcp/estat_query_translator.py:368-407 | Succeeds iff the answer is usable: a dict of axes whose read descriptions are searchable, and a numeric or boolean confidence (`min` raises otherwise). Then there is exactly one result. It carries the assistant's table id, name and parameters as given, whatever their JSON type. Its confidence is `min(confidence, 1.0)`, with no lower clamp. Its alternatives are the rule path's output for `limit-1`, at most one result. |
| Translator.AssistantResultSpec | src/opendatajounalism/mcp/estat_query_translator.py:386-395 | The primary result exists iff the answer is usable. It keeps the assistant's id, name and parameters, and its confidence is at most 1, equal to the assistant's when that is at most 1. |
| Translator.AnswerPrimary | src/opendatajounalism/mcp/estat_query_translator.py:379-407 | A usable answer written as an object's text yields exactly one result, with the object's table id and its confidence when that is at most 1. |
| Translator.NumericIdKept | src/opendatajounalism/mcp/estat_query_translator.py:389-395 | The answer `{"stats_table_id": 123, "confidence": 0.9}` yields one result with id `123`, a number, at confidence 0.9. |
| Translator.TextConfidenceFails | src/opendatajounalism/mcp/estat_query_translator.py:393 | A confidence written as a string makes the translation fail. |
| Translator.ListAxesFail | src/opendatajounalism/mcp/estat_query_translator.py:463 | `axis_mappings` written as a list makes the translation fail. |
| Translator.AssistantOffline | src/opendatajounalism/mcp/estat_query_translator.py:368-407 | With the assistant failing and no catalog loaded, the primary is the census table at 0.7. |
| Translator.TranslateShape | src/opendatajounalism/mcp/estat_query_translator.py:359-366 | On a decodable store the rule path never fails. The assistant path succeeds iff the answer is usable. On success at most one result comes back, and exactly one with the assistant available. |
| Translator.Suggestions | src/opendatajounalism/mcp/estat_query_translator.py:474-490 | At most ten suggestions. |
| Translator.SuggestionsOrder | src/opendatajounalism/mcp/estat_query_translator.py:474-490 | Two suggestions per gazetteer name extending the prefix, in order, then two per item label extending it, cut at ten. Both the length and every position are given. |
| Translator.RegionLinesSpec | src/opendatajounalism/mcp/estat_query_translator.py:478-482 | Region lines pair up with the gazetteer names extending the prefix. |
| Translator.ItemLinesSpec | src/opendatajounalism/mcp/estat_query_translator.py:484-488 | Item lines pair up with the labels extending the prefix. |
| Translator.SuggestionsShape | src/opendatajounalism/mcp/estat_query_translator.py:474-490 | Every suggestion is built from a name or label that extends the prefix. |
| Translator.SuggestionsRecognised | src/opendatajounalism/mcp/estat_query_translator.py:474-490 | Parsing a suggestion back recognises the name or label it was built from. |
| Sorting.Sort | src/opendatajounalism/mcp/estat_query_translator.py:433 | Sorting permutes the list. |
| Sorting.SortSorted | src/opendatajounalism/mcp/estat_query_translator.py:433 | The output is ordered under any total preorder. |
| Sorting.SortStable | src/opendatajounalism/mcp/estat_query_translator.py:433 | Equal-key elements keep their relative order. |
| CatalogStore.InitialStore | src/opendatajounalism/mcp/estat_query_translator.py:200-213 | The three sample tables have distinct ids and keyword text encoded by the codec. |
| CatalogStore.InitialStoreDecodable | src/opendatajounalism/mcp/estat_query_translator.py:200-213 | With a lawful codec, every sample row decodes. |
| CatalogStore.SelectRowsSpec | src/opendatajounalism/mcp/estat_query_translator.py:264-279 | Without terms: every row, in row order. With terms: exactly the rows whose keyword text LIKE-matches some term, as a permutation sorted by id. |
| CatalogStore.DecodeRow | src/opendatajounalism/mcp/estat_query_translator.py:283-293 | A row decodes iff its JSON columns do. NULL keyword, area and category columns decode to `[]`, `[]` and `{}`. Id, name and description are copied. |
| CatalogStore.DecodeRows | src/opendatajounalism/mcp/estat_query_translator.py:281-293 | All rows decode, in order, or the search raises. |
| CatalogStore.SearchSucceeds | src/opendatajounalism/mcp/estat_query_translator.py:259-296 | On a decodable store the search succeeds and returns one table per selected row. |
| CatalogStore.LikeNeedsAscii | src/opendatajounalism/mcp/estat_query_translator.py:272-273 | A term with a non-ASCII character never LIKE-matches ASCII text. |
| CatalogStore.EscapedKeywordsNeverMatch | src/opendatajounalism/mcp/estat_query_translator.py:272-279 | Against ASCII-escaped keyword text, terms that each have a non-ASCII character select nothing. |
| CatalogStore.Upsert | src/opendatajounalism/mcp/catalog_integration.py:61-73 | After the upsert a non-NULL id maps to the new row. A NULL id collides with nothing, so the row is appended. Every other id is unchanged, NULL-keyed rows stay, and ids stay unique. |
| CatalogStore.UpsertAll | src/opendatajounalism/mcp/catalog_integration.py:57-73 | A sequence of upserts keeps ids unique. |
| CatalogStore.UpsertAllLookup | src/opendatajounalism/mcp/catalog_integration.py:57-73 | Each id holds the last row carrying it, and ids not carried are untouched. |
| CatalogStore.UpsertAllKeepsNull | src/opendatajounalism/mcp/catalog_integration.py:61-73 | Rows keyed NULL, stored or upserted, are never replaced. |
| Assistant.CallOllama | src/opendatajounalism/mcp/ollama_integration.py:63-86 | Unavailable, an exception or a non-200 status all give the canned response as text. A 200 reply gives its `response` member as it is, whatever its JSON type, or `""` when it is missing. |
| Assistant.JsonSpan | src/opendatajounalism/mcp/ollama_integration.py:196-198 | A span exists iff some `{` precedes some `}`. It runs from the first `{` to the last `}`. |
| Assistant.SpanOfFramed | src/opendatajounalism/mcp/ollama_integration.py:196-198 | A text framed by braces is its own span. |
| Assistant.FromObject | src/opendatajounalism/mcp/ollama_integration.py:200-206 | Each of the five members is taken as it is, whatever its JSON type. A missing member defaults to `""`, `""`, `{}`, `0.0` and `""`. |
| Assistant.ObjectRoundTrip | src/opendatajounalism/mcp/ollama_integration.py:200-206 | Reading an answer's five members back gives the answer. |
| Assistant.AnswerRoundTrip | src/opendatajounalism/mcp/ollama_integration.py:200-206 | An object holding all five members is, on those members, the object its answer writes. |
| Assistant.ParseResponse | src/opendatajounalism/mcp/ollama_integration.py:192-213 | An answer that is not a str, has no span, or has a span that does not decode gives the fixed fallback. A decoded object is read member by member. |
| Assistant.ParseEncoded | src/opendatajounalism/mcp/ollama_integration.py:192-213 | Parsing the encoded text of any object reads that object member by member. |
| Assistant.ParseAnswer | src/opendatajounalism/mcp/ollama_integration.py:192-213 | Parsing the encoded text of an answer gives the answer back. |
| Assistant.SuggestReadsAnswer | src/opendatajounalism/mcp/ollama_integration.py:63-86 | Whatever the prompt, a model that answers 200 with the text of an object has that object read member by member. |
| Assistant.ParseEmptyObject | src/opendatajounalism/mcp/ollama_integration.py:200-206 | `{}` parses to all defaults. |
| Assistant.FallbackParsed | src/opendatajounalism/mcp/ollama_integration.py:88-121 | Read back, the canned response is as follows. `人口` gives the census table at 0.7 with three axes. Otherwise `労働`/`失業` gives the labour survey at 0.6 with two axes. Otherwise the census table at 0.4 with `cdArea` only. |
| Assistant.SampleMentionsPopulation | src/opendatajounalism/mcp/ollama_integration.py:341-354 | The sample context shown when no catalog is loaded contains `人口`. |
| Assistant.OfflineSuggestion | src/opendatajounalism/mcp/ollama_integration.py:123-134 | An unreachable assistant with no loaded catalog always suggests the census table at 0.7 with three axes. |
| CatalogSync.TopicKeysListed | src/opendatajounalism/mcp/catalog_integration.py:86-97 | The ten canonical keys, in declaration order. |
| CatalogSync.TopicKeysDistinct | src/opendatajounalism/mcp/catalog_integration.py:86-97 | The ten keys are distinct. |
| CatalogSync.LowerJoined | src/opendatajounalism/mcp/catalog_integration.py:83 | Lower-casing the joined text is joining the lower-cased parts. |
| CatalogSync.AnyInJoined | src/opendatajounalism/mcp/catalog_integration.py:83-101 | A space-free trigger occurs in `a + " " + b` iff it occurs in `a` or in `b`. |
| CatalogSync.ExtractKeywordsSpec | src/opendatajounalism/mcp/catalog_integration.py:80-103 | A duplicate-free list: a key is included iff one of its triggers occurs in the lower-cased name or in the lower-cased title. |
| CatalogSync.ExtractFromNothing | src/opendatajounalism/mcp/catalog_integration.py:80-103 | Two empty inputs give `[]`. |
| CatalogSync.SyncCatalog | src/opendatajounalism/mcp/catalog_integration.py:47-75 | Fails iff some CSV row has no statistic name. A successful sync keeps ids unique. |
| CatalogSync.SyncCatalogSpec | src/opendatajounalism/mcp/catalog_integration.py:47-75 | With no combined CSV the store is unchanged. Otherwise the sync fails iff some row's `STAT_NAME` is empty, since `NaN` is bound as NULL into a `NOT NULL` column. On success each id holds its last CSV row, with empty cells NULL, keywords from the text with `nan` for an empty cell, and NULL areas and categories. Other ids are untouched. |
| CatalogSync.SyncKeepsNullIds | src/opendatajounalism/mcp/catalog_integration.py:55-73 | A row whose `TABLE_INF` is empty is stored under a NULL key and kept next to every other row. |
| Downloader.FieldBuckets | catalog_downloader.py:195-203 | Every bucket is non-empty and is one field's matching rows in catalog order. |
| Downloader.TotalIsHits | catalog_downloader.py:209-212 | The concatenated buckets' size counts a record once per field it matches. |
| Downloader.FieldBucketsFind | catalog_downloader.py:195-203 | A field's bucket is present iff some row matches, and it holds exactly those rows. |
| Downloader.FieldBucketsOrder | catalog_downloader.py:195-203 | The buckets come from the fields in strictly increasing declaration order, each holding that field's matching rows, and every field without a bucket matches no row. |
| Downloader.ClassifyOrder | catalog_downloader.py:195-218 | The dict's order, which is the row order of the combined catalog (:239-247): the field buckets in declaration order, then at most one more entry, `"99"` with the unclassified rows. |
| Downloader.ClassifySpec | catalog_downloader.py:165-218 | Gives each field bucket. `"99"` holds exactly the rows no field matches, and exists only when there are some and the duplicate-counting total is below the catalog size. Membership both ways. |
| Downloader.SharedRecord | catalog_downloader.py:195-203 | A record two fields match is listed under both codes. |
| Downloader.UnclassifiedDropped | catalog_downloader.py:209-216 | When one record matches two fields, an unclassified record alongside it is in no bucket, `"99"` included. |
| Downloader.ShippedCodes | catalog_downloader.py:178-193 | The shipped field codes are distinct and omit `"99"`. The first is `"01"` and the third `"03"`. |
| Downloader.ShippedClassification | catalog_downloader.py:178-216 | Take a record with name `人口` and agency `労働`, next to an empty record. With the shipped keywords, the first lands in both `"01"` and `"03"`, and the empty record is dropped. |
| Downloader.Tagged | catalog_downloader.py:240-244 | Every row of a bucket copy carries that bucket's code and name. |
| Downloader.CombineSpec | catalog_downloader.py:239-256 | The combined catalog has `total_records` rows. Each carries the code of a bucket holding its record, and every bucket record appears under its code. |
| Downloader.RecordCountSpec | catalog_downloader.py:257-260 | A field's `record_count` is the number of rows matching it, present only when positive. |
| Downloader.SurveysOf | catalog_downloader.py:291-293 | The surveys are exactly the (name, agency) pairs of rows having both. |
| Downloader.GroupsSpec | catalog_downloader.py:291-293 | The groups are distinct, strictly ordered, and exactly those pairs. |
| Downloader.LatestSpec | catalog_downloader.py:303-306 | `max` fails iff dated and undated rows are mixed. It is absent iff no row has a date. Otherwise every row has a date, and the result is some row's date with no row's date later. |
| Downloader.MaxDateSpec | catalog_downloader.py:303-306 | The greatest present date is some row's date and no row's date is later. It is absent iff no row has one. |
| Downloader.MixedDatesFail | catalog_downloader.py:303-306 | A dated row next to an undated one makes `max` fail. |
| Downloader.IndexRowSpec | catalog_downloader.py:289-310 | An index row fails iff its survey's rows mix dated and undated ones. Otherwise it carries the bucket's code and name and the survey. `table_count` is the number of its rows (at least one), and `latest_survey` is the maximum date among them. |
| Downloader.CatalogIndexSpec | catalog_downloader.py:277-312 | The index fails iff some survey of some bucket does. Otherwise every index row is the row of a survey of some bucket, and every survey of every bucket has its row. |
| MetadataLoader.ChildMapSpec | src/opendatajounalism/mcp/estat_metadata_loader.py:120-123 | A tag is present iff some child has it. It maps to the last such child's text, or `""` when that child has none. |
| MetadataLoader.ParseShow | src/opendatajounalism/mcp/estat_metadata_loader.py:140 | `int()` reads back every decimal numeral, negative ones included. |
| MetadataLoader.ParseShowNat | src/opendatajounalism/mcp/estat_metadata_loader.py:140 | `int()` reads back every natural numeral. |
| MetadataLoader.ParseDigits | src/opendatajounalism/mcp/estat_metadata_loader.py:140 | Digit groups, with single underscores between them, read as their value. |
| MetadataLoader.ParseRejects | src/opendatajounalism/mcp/estat_metadata_loader.py:140 | Text holding a character that is not a space, a digit, a sign or `_` makes `int()` raise. |
| MetadataLoader.NormaliseSpec | src/opendatajounalism/mcp/estat_metadata_loader.py:120-140 | Absent tags give `""`. The table id comes from a `TABLE_INF` child. `small_area` is 1 iff the text is exactly `1`. The total is 0 when empty, else `int(text)`, and the record is rejected when that raises. |
| MetadataLoader.FetchAllSpec | src/opendatajounalism/mcp/estat_metadata_loader.py:116-151 | Either every table is normalised in document order, or one rejected table makes the result `[]`. |
| MetadataLoader.IsPriorityIff | src/opendatajounalism/mcp/estat_metadata_loader.py:397-403 | A table has priority iff one of the five keywords occurs in its name or title. |
| MetadataLoader.MetadataTargetsSpec | src/opendatajounalism/mcp/estat_metadata_loader.py:397-407 | The priority ids are exactly those of priority tables, in input order. Metadata is fetched for the first 20. |
| MetadataLoader.AxesSpec | src/opendatajounalism/mcp/estat_metadata_loader.py:309-323 | A table's axes are the axis ids of its rows, each from its last row. A NULL or empty unit becomes `""`. |
| MetadataLoader.GroupMembers | src/opendatajounalism/mcp/estat_metadata_loader.py:299-335 | The tables under main → sub are exactly that category's rows, in query order. |
| MetadataLoader.GroupKeys | src/opendatajounalism/mcp/estat_metadata_loader.py:299-303 | The main categories are the distinct ones, in order of first appearance. |
| MetadataLoader.GroupSize | src/opendatajounalism/mcp/estat_metadata_loader.py:293-335 | The table count equals the number of grouped entries, so every row is listed once. |
| MetadataLoader.ValuesOfSpec | src/opendatajounalism/mcp/estat_metadata_loader.py:359-364 | An axis's values are exactly its value rows, as a permutation sorted by code. |
| MetadataLoader.AxisDetailsSpec | src/opendatajounalism/mcp/estat_metadata_loader.py:340-385 | Details cover the axis ids of the table's rows, each from its last row, with the stored unit (NULL kept) and its values. |

## Left out

- HTTP calls, ElementTree parsing, SQLite connections and schema creation, CSV globbing and reading, and file writes. Their results are inputs, and their side effects are not modelled.
- JSON syntax. `json.dumps`/`json.loads` are abstract functions. In the assistant's reply a decoded value is a JSON value of any type, and the parser keeps it as it is. JSON's non-standard `NaN` and `Infinity` numbers are not modelled.
- CatalogStore.DecodeRow: the stored JSON columns are decoded at fixed types: `keywords` and `available_areas` as a list of str, `categories` as a dict of str to (str to str). Every writer in the program stores them so. A column holding another JSON type, which only a database written by some other program could contain, makes the model's decode fail, whereas `json.loads` would return that value and the later code would use it as it is.
- Python's `str()` of a non-str value, as an f-string shows it, is an abstract function of the codec. Only str values are shown exactly.
- The prose of the prompt and of the rendered catalog context. Only the fact that the no-catalog sample context contains `人口` is modelled.
- Printing and `datetime.now()`: the `updated_date` and `最新更新` timestamps, and the summary's `download_date`.
- The per-field `organizations` and `survey_years` lists of the `save_catalogs` summary. Only the record counts and the combined catalog are modelled.
- `fetch_table_metadata` and `save_table_metadata_to_db`: XML parsing and writes.
- The `limit`/`max_tables` API parameters: the list of tables is an input.
- `load_all_stats_for_ollama`'s `ORDER BY main_category_code, sub_category_code`: rows are taken in the order the query returns them.
- `get_ollama_status`, `explain_axis_codes`, the population report, the `main` and demo scripts, and the downloads wrapped around `pandas_estat`. These are I/O around the modelled logic.
- Unicode coverage:
  - `str.lower` is modelled for ASCII and fullwidth Latin letters only;
  - SQLite `LIKE` folds ASCII letters only;
  - pandas `case=False` is modelled with the same lowercasing.
- `int()` and `\d` are modelled for ASCII and fullwidth digits only. Other Unicode decimal digits are treated as non-digits.
- pandas typing. An empty CSV cell and a missing catalog value are both `None`. Every non-empty cell is read as text, so pandas' numeric type inference (an all-digit `TABLE_INF` column read as integers) is not modelled. `SURVEY_DATE` values are strings compared by code point.
- Downloader.LatestSpec: follows pandas before 3.0, where `max` of an object column pads missing cells with `-inf` and so raises when text dates sit next to missing ones.
- `_fallback_response`'s JSON text. It is encoded by the same abstract codec, so the lemmas state what the parser reads back, not the exact characters.
- Translator.Confidence: the result is a `real`, not a binary float, so the rounding of `0.6 * m / n` and of the sums is not modelled.
