/** The translator's catalog store: the `stats_tables` table of
    `catalog_index.db`, held as its rows in rowid order. Columns that may be
    NULL are `Option`s; the three JSON columns hold the text `json.dumps`
    produced. Search is the source's SQL: `keywords LIKE '%term%'` OR-ed over
    the terms and ordered by `stats_data_id`, or every row when there are no
    terms. */
module CatalogStore {
  import opened Wrappers
  import opened Strings
  import opened Seqs
  import opened Sorting
  import opened Json

  /** One row of `stats_tables` as stored (`created_at` is not modelled).
      SQLite lets a primary key that is not an INTEGER hold NULL, so `id`
      may be NULL too. */
  datatype StoredTable = StoredTable(
    id: Option<string>,
    tableName: string,
    description: Option<string>,
    organization: Option<string>,
    fieldCode: Option<string>,
    fieldName: Option<string>,
    keywords: Option<string>,
    availableAreas: Option<string>,
    categories: Option<string>)

  /** The rows in rowid order, which is the order of an unordered `SELECT`. */
  type Store = seq<StoredTable>

  /** A row as `search_stats_tables` hands it on, JSON columns decoded. */
  datatype TableInfo = TableInfo(
    id: Option<string>,
    tableName: string,
    description: Option<string>,
    organization: Option<string>,
    fieldCode: Option<string>,
    fieldName: Option<string>,
    keywords: seq<string>,
    availableAreas: seq<string>,
    categories: CategoryMap)

  /** `stats_data_id` is the primary key: no two rows share a key, while
      NULL keys never count as equal. */
  predicate UniqueIds(store: Store) {
    forall i, j :: 0 <= i < j < |store| && store[i].id.Some? ==> store[i].id != store[j].id
  }

  predicate OtherId(id: string, row: StoredTable) {
    row.id != Some(id)
  }

  function Lookup(store: Store, id: string): (r: Option<StoredTable>)
    ensures r.Some? ==> r.value in store && r.value.id == Some(id)
    ensures r.None? ==> forall k :: 0 <= k < |store| ==> store[k].id != Some(id)
  {
    if |store| == 0 then None
    else if store[0].id == Some(id) then Some(store[0])
    else Lookup(store[1..], id)
  }

  /** `INSERT OR REPLACE`: the row holding the same key is deleted and the
      new row is appended with a fresh rowid. A NULL key collides with
      nothing, so a row carrying one is simply appended. */
  function Upsert(store: Store, row: StoredTable): (r: Store)
    requires UniqueIds(store)
    ensures UniqueIds(r)
    ensures row.id.Some? ==> Lookup(r, row.id.value) == Some(row)
    ensures forall id :: Some(id) != row.id ==> Lookup(r, id) == Lookup(store, id)
    ensures row.id.None? ==> r == store + [row]
    ensures forall x :: x in store && x.id.None? ==> x in r
  {
    if row.id.None? then
      LookupAppended(store, row);
      AppendUnique(store, row);
      store + [row]
    else
      var kept := Filter(store, row.id.value, OtherId);
      FilterUnique(store, row.id.value);
      LookupKept(store, row.id.value);
      LookupAppended(kept, row);
      AppendUnique(kept, row);
      kept + [row]
  }

  /** Appending a row whose key no row holds keeps the keys unique. */
  lemma AppendUnique(store: Store, row: StoredTable)
    requires UniqueIds(store)
    requires forall k :: 0 <= k < |store| ==> store[k].id.None? || store[k].id != row.id
    ensures UniqueIds(store + [row])
  {
    var r := store + [row];
    forall i, j | 0 <= i < j < |r| && r[i].id.Some? ensures r[i].id != r[j].id {
      assert r[i] == store[i];
      if j < |store| { assert r[j] == store[j]; }
    }
  }

  lemma {:induction false} FilterUnique(store: Store, id: string)
    requires UniqueIds(store)
    ensures UniqueIds(Filter(store, id, OtherId))
    ensures forall k :: 0 <= k < |Filter(store, id, OtherId)| ==> Filter(store, id, OtherId)[k].id != Some(id)
    decreases |store|
  {
    if |store| > 0 {
      UniqueTail(store);
      FilterUnique(store[1..], id);
      var rest := Filter(store[1..], id, OtherId);
      if store[0].id != Some(id) {
        assert Filter(store, id, OtherId) == [store[0]] + rest;
        forall k | 0 <= k < |rest| && store[0].id.Some? ensures rest[k].id != store[0].id {
          var m :| 0 <= m < |store[1..]| && store[1..][m] == rest[k];
          assert store[m + 1] == rest[k];
        }
        UniqueCons(store[0], rest);
      }
    }
  }

  lemma UniqueTail(store: Store)
    requires |store| > 0 && UniqueIds(store)
    ensures UniqueIds(store[1..])
  {
    forall i, j | 0 <= i < j < |store| - 1 && store[1..][i].id.Some? ensures store[1..][i].id != store[1..][j].id {
      assert store[1..][i] == store[i + 1] && store[1..][j] == store[j + 1];
    }
  }

  lemma UniqueCons(row: StoredTable, rest: Store)
    requires UniqueIds(rest)
    requires forall k :: 0 <= k < |rest| && row.id.Some? ==> rest[k].id != row.id
    ensures UniqueIds([row] + rest)
  {
    var f := [row] + rest;
    forall i, j | 0 <= i < j < |f| && f[i].id.Some? ensures f[i].id != f[j].id {
      if i > 0 { assert f[i] == rest[i - 1]; }
      assert f[j] == rest[j - 1];
    }
  }

  lemma {:induction false} LookupKept(store: Store, id: string)
    ensures forall other :: other != id ==> Lookup(Filter(store, id, OtherId), other) == Lookup(store, other)
    decreases |store|
  {
    if |store| > 0 {
      LookupKept(store[1..], id);
      var rest := Filter(store[1..], id, OtherId);
      forall other | other != id
        ensures Lookup(Filter(store, id, OtherId), other) == Lookup(store, other)
      {
        if store[0].id != Some(id) {
          assert Filter(store, id, OtherId) == [store[0]] + rest;
          assert ([store[0]] + rest)[1..] == rest;
        } else {
          assert Filter(store, id, OtherId) == rest;
        }
      }
    }
  }

  lemma {:induction false} LookupAppended(kept: Store, row: StoredTable)
    requires row.id.Some? ==> forall k :: 0 <= k < |kept| ==> kept[k].id != row.id
    ensures row.id.Some? ==> Lookup(kept + [row], row.id.value) == Some(row)
    ensures forall other :: Some(other) != row.id ==> Lookup(kept + [row], other) == Lookup(kept, other)
    decreases |kept|
  {
    if |kept| > 0 {
      assert (kept + [row])[1..] == kept[1..] + [row];
      LookupAppended(kept[1..], row);
    }
  }

  /** Upserting rows one after another, in order. */
  function UpsertAll(store: Store, rows: seq<StoredTable>): (r: Store)
    requires UniqueIds(store)
    ensures UniqueIds(r)
    decreases |rows|
  {
    if |rows| == 0 then store else Upsert(UpsertAll(store, rows[..|rows| - 1]), rows[|rows| - 1])
  }

  /** Rows keyed NULL are never replaced: every one already stored or
      upserted is still there afterwards. */
  lemma {:induction false} UpsertAllKeepsNull(store: Store, rows: seq<StoredTable>)
    requires UniqueIds(store)
    ensures forall x :: x in store && x.id.None? ==> x in UpsertAll(store, rows)
    ensures forall k :: 0 <= k < |rows| && rows[k].id.None? ==> rows[k] in UpsertAll(store, rows)
    decreases |rows|
  {
    if |rows| > 0 {
      var init := rows[..|rows| - 1];
      UpsertAllKeepsNull(store, init);
      forall k | 0 <= k < |rows| - 1 && rows[k].id.None? ensures rows[k] in UpsertAll(store, rows) {
        assert init[k] == rows[k];
      }
    }
  }

  /** Row `k` is the last of `rows` with key `id`. */
  predicate LastWith(rows: seq<StoredTable>, id: string, k: int) {
    0 <= k < |rows| && rows[k].id == Some(id) && forall j :: k < j < |rows| ==> rows[j].id != Some(id)
  }

  /** After a run of upserts each key holds the last row written with it,
      and keys never written keep their rows. */
  lemma UpsertAllLookup(store: Store, rows: seq<StoredTable>, id: string)
    requires UniqueIds(store)
    ensures forall k :: LastWith(rows, id, k) ==> Lookup(UpsertAll(store, rows), id) == Some(rows[k])
    ensures (forall k :: 0 <= k < |rows| ==> rows[k].id != Some(id)) ==>
      Lookup(UpsertAll(store, rows), id) == Lookup(store, id)
  {
    forall k | LastWith(rows, id, k) ensures Lookup(UpsertAll(store, rows), id) == Some(rows[k]) {
      UpsertAllLast(store, rows, id, k);
    }
    if forall k :: 0 <= k < |rows| ==> rows[k].id != Some(id) {
      UpsertAllUntouched(store, rows, id);
    }
  }

  lemma {:induction false} UpsertAllLast(store: Store, rows: seq<StoredTable>, id: string, k: int)
    requires UniqueIds(store) && LastWith(rows, id, k)
    ensures Lookup(UpsertAll(store, rows), id) == Some(rows[k])
    decreases |rows|
  {
    var init, last := rows[..|rows| - 1], rows[|rows| - 1];
    assert UpsertAll(store, rows) == Upsert(UpsertAll(store, init), last);
    if k < |rows| - 1 {
      assert last.id != Some(id);
      assert LastWith(init, id, k) by {
        assert init[k] == rows[k];
        forall j | k < j < |init| ensures init[j].id != Some(id) {
          assert init[j] == rows[j];
        }
      }
      UpsertAllLast(store, init, id, k);
    }
  }

  lemma {:induction false} UpsertAllUntouched(store: Store, rows: seq<StoredTable>, id: string)
    requires UniqueIds(store)
    requires forall k :: 0 <= k < |rows| ==> rows[k].id != Some(id)
    ensures Lookup(UpsertAll(store, rows), id) == Lookup(store, id)
    decreases |rows|
  {
    if |rows| > 0 {
      var init, last := rows[..|rows| - 1], rows[|rows| - 1];
      assert UpsertAll(store, rows) == Upsert(UpsertAll(store, init), last);
      assert last.id != Some(id);
      forall k | 0 <= k < |init| ensures init[k].id != Some(id) {
        assert init[k] == rows[k];
      }
      UpsertAllUntouched(store, init, id);
    }
  }

  // ---------------------------------------------------------------------
  // The sample rows `_create_database` inserts into a new store

  const SampleKeywords: seq<seq<string>> :=
    [["人口", "推計"], ["人口", "年齢", "男女"], ["労働", "雇用", "失業率"]]

  const SampleAreas: seq<seq<string>> :=
    [["全国", "都道府県"], ["全国", "都道府県", "市区町村"], ["全国"]]

  const SampleCategories: seq<CategoryMap> := [
    map["cdCat01" := map["001" := "総人口", "002" := "男", "003" := "女"],
        "cdCat02" := map["01" := "総数", "02" := "0～14歳", "03" := "15～64歳", "04" := "65歳以上"]],
    map["cdCat01" := map["01000" := "総数", "01001" := "0歳", "01002" := "1歳"],
        "cdCat02" := map["001" := "総数", "002" := "男", "003" := "女"]],
    map["cdCat01" := map["11020" := "完全失業率", "10101" := "就業者数"],
        "cdCat02" := map["001" := "総数", "002" := "男", "003" := "女"]]]

  /** `_create_database`: the three sample tables, JSON columns encoded by
      the codec, organisation and field columns left NULL. */
  function InitialStore(c: Codec): (r: Store)
    ensures |r| == 3 && UniqueIds(r)
    ensures forall k :: 0 <= k < 3 ==> r[k].keywords == Some(c.dumpList(SampleKeywords[k]))
  {
    [ StoredTable(Some("0000020101"), "人口推計", Some("人口推計（月報）"), None, None, None,
                  Some(c.dumpList(SampleKeywords[0])), Some(c.dumpList(SampleAreas[0])),
                  Some(c.dumpCategories(SampleCategories[0]))),
      StoredTable(Some("0003084821"), "国勢調査", Some("人口等基本集計（年齢・男女別人口）"), None, None, None,
                  Some(c.dumpList(SampleKeywords[1])), Some(c.dumpList(SampleAreas[1])),
                  Some(c.dumpCategories(SampleCategories[1]))),
      StoredTable(Some("0003191203"), "労働力調査", Some("労働力調査（基本集計）"), None, None, None,
                  Some(c.dumpList(SampleKeywords[2])), Some(c.dumpList(SampleAreas[2])),
                  Some(c.dumpCategories(SampleCategories[2]))) ]
  }

  // ---------------------------------------------------------------------
  // Search

  /** `column LIKE '%term%'`: NULL never matches; SQLite folds only ASCII
      letters. */
  predicate Like(column: Option<string>, term: string) {
    column.Some? && Contains(AsciiLower(column.value), AsciiLower(term))
  }

  predicate MatchesSomeTerm(terms: seq<string>, row: StoredTable) {
    exists k :: 0 <= k < |terms| && Like(row.keywords, terms[k])
  }

  /** `ORDER BY stats_data_id`: SQLite puts NULL before every text. */
  predicate IdLe(a: StoredTable, b: StoredTable) {
    a.id.None? || (b.id.Some? && LexLe(a.id.value, b.id.value))
  }

  lemma IdLeTotalPreorder()
    ensures TotalPreorder(IdLe)
  {
    forall a: StoredTable, b: StoredTable ensures IdLe(a, b) || IdLe(b, a) {
      if a.id.Some? && b.id.Some? {
        LexLeTotal(a.id.value, b.id.value);
      }
    }
    forall a: StoredTable, b: StoredTable, c: StoredTable | IdLe(a, b) && IdLe(b, c)
      ensures IdLe(a, c)
    {
      if a.id.Some? {
        LexLeTrans(a.id.value, b.id.value, c.id.value);
      }
    }
  }

  /** The rows the SQL statement returns, in the order it returns them. */
  function SelectRows(store: Store, terms: seq<string>): seq<StoredTable> {
    if |terms| == 0 then store
    else Sort(Filter(store, terms, MatchesSomeTerm), IdLe)
  }

  /** With terms, exactly the rows whose stored keyword text LIKE-matches a
      term, in ascending `stats_data_id`; without terms, every row. */
  lemma SelectRowsSpec(store: Store, terms: seq<string>)
    ensures |terms| == 0 ==> SelectRows(store, terms) == store
    ensures |terms| > 0 ==> Sorted(SelectRows(store, terms), IdLe)
    ensures |terms| > 0 ==>
      multiset(SelectRows(store, terms)) == multiset(Filter(store, terms, MatchesSomeTerm))
    ensures forall row :: row in SelectRows(store, terms) <==>
      row in store && (|terms| == 0 || MatchesSomeTerm(terms, row))
  {
    if |terms| > 0 {
      IdLeTotalPreorder();
      SortSorted(Filter(store, terms, MatchesSomeTerm), IdLe);
      var f := Filter(store, terms, MatchesSomeTerm);
      forall row ensures row in SelectRows(store, terms) <==> row in f {
        assert row in SelectRows(store, terms) <==> row in multiset(SelectRows(store, terms));
        assert row in f <==> row in multiset(f);
      }
      forall row | row in store && MatchesSomeTerm(terms, row) ensures row in f {
        var k :| 0 <= k < |store| && store[k] == row;
      }
    }
  }

  /** `json.loads(col) if col else []`: NULL and the empty string both read
      as the empty list. */
  function DecodeList(c: Codec, column: Option<string>): Option<seq<string>> {
    if column.None? || column.value == "" then Some([]) else c.loadList(column.value)
  }

  function DecodeCategories(c: Codec, column: Option<string>): Option<CategoryMap> {
    if column.None? || column.value == "" then Some(map[]) else c.loadCategories(column.value)
  }

  function DecodeRow(c: Codec, row: StoredTable): (r: Option<TableInfo>)
    ensures r.Some? ==> r.value.id == row.id && r.value.tableName == row.tableName
                        && r.value.description == row.description
    ensures r.Some? <==> DecodeList(c, row.keywords).Some?
                         && DecodeList(c, row.availableAreas).Some?
                         && DecodeCategories(c, row.categories).Some?
    ensures row.keywords.None? && r.Some? ==> r.value.keywords == []
    ensures row.availableAreas.None? && r.Some? ==> r.value.availableAreas == []
    ensures row.categories.None? && r.Some? ==> r.value.categories == map[]
  {
    var kw := DecodeList(c, row.keywords);
    var areas := DecodeList(c, row.availableAreas);
    var cats := DecodeCategories(c, row.categories);
    if kw.Some? && areas.Some? && cats.Some? then
      Some(TableInfo(row.id, row.tableName, row.description, row.organization,
                     row.fieldCode, row.fieldName, kw.value, areas.value, cats.value))
    else None
  }

  /** The decoding loop of `search_stats_tables`: a `json.loads` error on any
      row escapes as an exception. */
  function DecodeRows(c: Codec, rows: seq<StoredTable>): (r: Result<seq<TableInfo>>)
    ensures r.Success? <==> forall k :: 0 <= k < |rows| ==> DecodeRow(c, rows[k]).Some?
    ensures r.Success? ==> |r.value| == |rows|
                           && forall k :: 0 <= k < |rows| ==> Some(r.value[k]) == DecodeRow(c, rows[k])
  {
    if |rows| == 0 then Success([])
    else
      match DecodeRow(c, rows[0])
      case None => Failure("JSONDecodeError")
      case Some(t) =>
        match DecodeRows(c, rows[1..])
        case Failure(e) => Failure(e)
        case Success(rest) => Success([t] + rest)
  }

  /** `search_stats_tables(entities)` with `terms == entities.statistical_items`. */
  function Search(store: Store, c: Codec, terms: seq<string>): Result<seq<TableInfo>> {
    DecodeRows(c, SelectRows(store, terms))
  }

  /** Every stored JSON column decodes. */
  predicate Decodable(c: Codec, store: Store) {
    forall k :: 0 <= k < |store| ==> DecodeRow(c, store[k]).Some?
  }

  lemma SearchSucceeds(store: Store, c: Codec, terms: seq<string>)
    requires Decodable(c, store)
    ensures Search(store, c, terms).Success?
    ensures |Search(store, c, terms).value| == |SelectRows(store, terms)|
  {
    SelectRowsSpec(store, terms);
    var rows := SelectRows(store, terms);
    forall k | 0 <= k < |rows| ensures DecodeRow(c, rows[k]).Some? {
      assert rows[k] in store;
    }
  }

  lemma InitialStoreDecodable(c: Codec)
    requires RoundTrips(c) && Framed(c)
    ensures Decodable(c, InitialStore(c))
  {
    var s := InitialStore(c);
    forall k | 0 <= k < 3 ensures DecodeRow(c, s[k]).Some? {
      assert |c.dumpList(SampleKeywords[k])| >= 2;
      assert |c.dumpList(SampleAreas[k])| >= 2;
      assert c.loadList(c.dumpList(SampleKeywords[k])) == Some(SampleKeywords[k]);
      assert c.loadList(c.dumpList(SampleAreas[k])) == Some(SampleAreas[k]);
      assert c.loadCategories(c.dumpCategories(SampleCategories[k])) == Some(SampleCategories[k]);
    }
  }

  // ---------------------------------------------------------------------
  // LIKE against ASCII-escaped JSON

  predicate HasNonAscii(s: string) {
    exists k :: 0 <= k < |s| && s[k] >= '\U{80}'
  }

  predicate AsciiText(s: string) {
    forall k :: 0 <= k < |s| ==> s[k] < '\U{80}'
  }

  /** A term with a non-ASCII character never LIKE-matches ASCII text. */
  lemma LikeNeedsAscii(text: string, term: string)
    requires AsciiText(text) && HasNonAscii(term)
    ensures !Like(Some(text), term)
  {
    var k :| 0 <= k < |term| && term[k] >= '\U{80}';
    var lt, lp := AsciiLower(text), AsciiLower(term);
    assert lp[k] == term[k];
    ContainsIffOccurs(lt, lp);
    forall i | 0 <= i && i + |lp| <= |lt| ensures !OccursAt(lt, lp, i) {
      assert lt[i + k] == AsciiLowerChar(text[i + k]);
      assert lt[i..i + |lp|][k] == lt[i + k] != lp[k];
    }
  }

  /** With `json.dumps`' default ASCII escaping, a store whose keyword texts
      were all written by the codec (or are NULL) returns nothing for terms
      that each contain a non-ASCII character, such as every Japanese item
      label: the stored text holds `\uXXXX` escapes, not the characters. */
  lemma EscapedKeywordsNeverMatch(store: Store, c: Codec, terms: seq<string>)
    requires AsciiOnly(c)
    requires forall k :: 0 <= k < |store| ==>
      store[k].keywords.None? || exists xs :: store[k].keywords == Some(c.dumpList(xs))
    requires |terms| > 0 && forall k :: 0 <= k < |terms| ==> HasNonAscii(terms[k])
    ensures SelectRows(store, terms) == []
  {
    SelectRowsSpec(store, terms);
    forall k | 0 <= k < |store| ensures !MatchesSomeTerm(terms, store[k]) {
      if store[k].keywords.Some? {
        var xs :| store[k].keywords == Some(c.dumpList(xs));
        forall t | 0 <= t < |terms| ensures !Like(store[k].keywords, terms[t]) {
          LikeNeedsAscii(c.dumpList(xs), terms[t]);
        }
      }
    }
    FilterNone(store, terms, MatchesSomeTerm);
  }
}
