/** Copying the downloaded catalog into the translator's store: each CSV row
    is tagged with topic keywords found in its statistic name and title, and
    the rows are upserted one after another by table id. */
module CatalogSync {
  import opened Wrappers
  import opened Strings
  import opened Seqs
  import opened Json
  import opened CatalogStore
  import opened Lexicon

  // ---------------------------------------------------------------------
  // Keyword tagging

  /** A trigger: non-empty and free of spaces. */
  type Trigger = p: string | |p| > 0 && forall i :: 0 <= i < |p| ==> p[i] != ' ' witness "x"

  function Topic(key: string, triggers: seq<Trigger>): (string, seq<Trigger>) {
    (key, triggers)
  }

  /** `keyword_patterns` in declaration order. */
  const KeywordPatterns: seq<(string, seq<Trigger>)> := [
    Topic("人口", ["人口", "国勢", "住民"]),
    Topic("労働", ["労働", "雇用", "失業", "就業"]),
    Topic("賃金", ["賃金", "給与", "所得"]),
    Topic("物価", ["物価", "価格", "指数"]),
    Topic("家計", ["家計", "消費", "支出"]),
    Topic("企業", ["企業", "法人", "会社"]),
    Topic("建設", ["建設", "建築", "住宅"]),
    Topic("農業", ["農業", "農林", "作物"]),
    Topic("工業", ["工業", "製造", "生産"]),
    Topic("商業", ["商業", "小売", "卸売"])]

  function TopicKeys(): seq<string> {
    Keys(KeywordPatterns)
  }

  function Triggers(key: string): seq<Trigger> {
    Find(KeywordPatterns, key).GetOr([])
  }

  predicate Tagged(text: string, key: string) {
    AnyIn(text, Triggers(key))
  }

  /** `_extract_keywords`: the topics, in declaration order, one of whose
      triggers occurs in the lower-cased `stat_name + " " + title`. */
  function ExtractKeywords(statName: string, title: string): seq<string> {
    Filter(TopicKeys(), Lower(statName + " " + title), Tagged)
  }

  lemma TopicKeysListed()
    ensures Keys(KeywordPatterns) == ["人口", "労働", "賃金", "物価", "家計", "企業", "建設", "農業", "工業", "商業"]
  {
  }

  lemma DistinctTopics(keys: seq<string>)
    requires keys == ["人口", "労働", "賃金", "物価", "家計", "企業", "建設", "農業", "工業", "商業"]
    ensures NoDup(keys)
  {
  }

  lemma TopicKeysDistinct()
    ensures NoDup(TopicKeys())
  {
    TopicKeysListed();
    DistinctTopics(TopicKeys());
  }

  /** Lower-casing keeps the separating space. */
  lemma LowerJoined(a: string, b: string)
    ensures Lower(a + " " + b) == Lower(a) + [' '] + Lower(b)
  {
    var l, r := Lower(a + " " + b), Lower(a) + [' '] + Lower(b);
    forall i | 0 <= i < |l| ensures l[i] == r[i] {
      if i < |a| {
        assert (a + " " + b)[i] == a[i];
      } else if i > |a| {
        assert (a + " " + b)[i] == b[i - |a| - 1];
      }
    }
  }

  /** A trigger cannot straddle the space, so it occurs in the joined text
      iff it occurs in one of the two parts. */
  lemma {:induction false} AnyInJoined(a: string, b: string, triggers: seq<Trigger>)
    ensures AnyIn(a + [' '] + b, triggers) <==> AnyIn(a, triggers) || AnyIn(b, triggers)
    decreases |triggers|
  {
    if |triggers| > 0 {
      AnyInJoined(a, b, triggers[1..]);
      var p: Trigger := triggers[0];
      if Contains(a + [' '] + b, p) {
        ContainsAcrossSeparator(a, ' ', b, p);
      }
      if Contains(a, p) || Contains(b, p) {
        ContainsJoined(a, ' ', b, p);
      }
    }
  }

  /** A topic is tagged iff one of its triggers occurs in the lower-cased
      statistic name or in the lower-cased title; the result lists each
      topic at most once. */
  lemma ExtractKeywordsSpec(statName: string, title: string)
    ensures NoDup(ExtractKeywords(statName, title))
    ensures forall key :: key in ExtractKeywords(statName, title) <==>
      key in TopicKeys() && (AnyIn(Lower(statName), Triggers(key)) || AnyIn(Lower(title), Triggers(key)))
  {
    var text := Lower(statName + " " + title);
    TopicKeysDistinct();
    FilterNoDup(TopicKeys(), text, Tagged);
    FilterMembers(TopicKeys(), text, Tagged);
    LowerJoined(statName, title);
    forall key ensures Tagged(text, key) <==> AnyIn(Lower(statName), Triggers(key)) || AnyIn(Lower(title), Triggers(key)) {
      AnyInJoined(Lower(statName), Lower(title), Triggers(key));
    }
  }

  lemma NothingInEmpty(triggers: seq<Trigger>)
    ensures !AnyIn("", triggers)
  {
    AnyInIff("", triggers);
    forall j | 0 <= j < |triggers| ensures !Contains("", triggers[j]) {
      var p: Trigger := triggers[j];
      assert !StartsWith("", p);
    }
  }

  /** Two empty inputs are tagged with nothing. */
  lemma ExtractFromNothing()
    ensures ExtractKeywords("", "") == []
  {
    var text := Lower("" + " " + "");
    forall k | 0 <= k < |TopicKeys()| ensures !Tagged(text, TopicKeys()[k]) {
      ExtractKeywordsSpec("", "");
      NothingInEmpty(Triggers(TopicKeys()[k]));
      assert Lower("") == "";
      LowerJoined("", "");
      AnyInJoined("", "", Triggers(TopicKeys()[k]));
    }
    FilterNone(TopicKeys(), text, Tagged);
  }

  // ---------------------------------------------------------------------
  // Sync

  /** A CSV row as `pd.read_csv` yields it: `None` is an empty cell, which
      pandas reads as NaN. */
  type CsvRow = map<string, Option<string>>

  /** `row.get(column, '')`: a column the file lacks reads as the empty text. */
  function Cell(row: CsvRow, column: string): (r: Option<string>)
    ensures column !in row ==> r == Some("")
    ensures column in row ==> r == row[column]
  {
    if column in row then row[column] else Some("")
  }

  /** How an f-string shows a cell: NaN shows as `nan`. */
  function Shown(cell: Option<string>): string {
    cell.GetOr("nan")
  }

  /** `table_name` is `NOT NULL` and NaN is bound as NULL, so a row without
      a statistic name cannot be inserted. */
  predicate Insertable(row: CsvRow) {
    Cell(row, "STAT_NAME").Some?
  }

  /** The row `INSERT OR REPLACE` writes: seven columns, so the area and
      category columns are NULL, and every NaN cell is bound as NULL. */
  function SyncedRow(c: Codec, row: CsvRow): StoredTable
    requires Insertable(row)
  {
    StoredTable(Cell(row, "TABLE_INF"), Cell(row, "STAT_NAME").value, Cell(row, "TITLE"),
                Cell(row, "GOV_ORG"), Cell(row, "FIELD_CODE"), Cell(row, "FIELD_NAME"),
                Some(c.dumpList(ExtractKeywords(Shown(Cell(row, "STAT_NAME")), Shown(Cell(row, "TITLE"))))),
                None, None)
  }

  function SyncedRows(c: Codec, rows: seq<CsvRow>): (r: seq<StoredTable>)
    requires forall k :: 0 <= k < |rows| ==> Insertable(rows[k])
    ensures |r| == |rows|
    ensures forall k :: 0 <= k < |rows| ==> r[k] == SyncedRow(c, rows[k])
  {
    seq(|rows|, k requires 0 <= k < |rows| => SyncedRow(c, rows[k]))
  }

  /** `sync_catalog_to_mcp_db` given the newest combined catalog, if any:
      the rows are upserted in file order and committed at the end. A row
      without a statistic name raises `IntegrityError` before the commit,
      so the whole sync fails and the stored table keeps its old rows. */
  function SyncCatalog(store: Store, c: Codec, catalog: Option<seq<CsvRow>>): (r: Result<Store>)
    requires UniqueIds(store)
    ensures r.Success? ==> UniqueIds(r.value)
    ensures r.Failure? <==> catalog.Some? && exists k :: 0 <= k < |catalog.value| && !Insertable(catalog.value[k])
  {
    match catalog
    case None => Success(store)
    case Some(rows) =>
      if forall k :: 0 <= k < |rows| ==> Insertable(rows[k]) then Success(UpsertAll(store, SyncedRows(c, rows)))
      else Failure("IntegrityError")
  }

  /** Row `k` is the last one carrying `id`. */
  predicate LastRowFor(rows: seq<CsvRow>, id: string, k: int) {
    0 <= k < |rows| && Cell(rows[k], "TABLE_INF") == Some(id)
    && forall j :: k < j < |rows| ==> Cell(rows[j], "TABLE_INF") != Some(id)
  }

  /** With no combined catalog nothing is written. With one, the sync fails
      iff some row lacks a statistic name; otherwise each id carried by the
      catalog holds its last row, with NaN cells NULL, keyword text encoded
      and the area and category columns NULL, and every other id is
      untouched. */
  lemma SyncCatalogSpec(store: Store, c: Codec, catalog: Option<seq<CsvRow>>, id: string)
    requires UniqueIds(store)
    ensures catalog.None? ==> SyncCatalog(store, c, catalog) == Success(store)
    ensures catalog.Some? ==>
      (SyncCatalog(store, c, catalog).Success? <==> forall k :: 0 <= k < |catalog.value| ==> Insertable(catalog.value[k]))
    ensures catalog.Some? && SyncCatalog(store, c, catalog).Success? ==> forall k :: LastRowFor(catalog.value, id, k) ==>
      var csv := catalog.value[k];
      var row := Lookup(SyncCatalog(store, c, catalog).value, id);
      row.Some? && row.value.tableName == Cell(csv, "STAT_NAME").value
      && row.value.description == Cell(csv, "TITLE") && row.value.organization == Cell(csv, "GOV_ORG")
      && row.value.fieldCode == Cell(csv, "FIELD_CODE") && row.value.fieldName == Cell(csv, "FIELD_NAME")
      && row.value.availableAreas.None? && row.value.categories.None?
      && row.value.keywords == Some(c.dumpList(ExtractKeywords(Cell(csv, "STAT_NAME").value, Shown(Cell(csv, "TITLE")))))
    ensures catalog.Some? && SyncCatalog(store, c, catalog).Success?
            && (forall k :: 0 <= k < |catalog.value| ==> Cell(catalog.value[k], "TABLE_INF") != Some(id)) ==>
      Lookup(SyncCatalog(store, c, catalog).value, id) == Lookup(store, id)
  {
    if catalog.Some? && forall k :: 0 <= k < |catalog.value| ==> Insertable(catalog.value[k]) {
      assert SyncCatalog(store, c, catalog) == Success(UpsertAll(store, SyncedRows(c, catalog.value)));
      SyncedLookup(store, c, catalog.value, id);
    }
  }

  /** The lookups after upserting a catalog whose rows are all insertable. */
  lemma SyncedLookup(store: Store, c: Codec, csv: seq<CsvRow>, id: string)
    requires UniqueIds(store)
    requires forall k :: 0 <= k < |csv| ==> Insertable(csv[k])
    ensures forall k :: LastRowFor(csv, id, k) ==> Lookup(UpsertAll(store, SyncedRows(c, csv)), id) == Some(SyncedRow(c, csv[k]))
    ensures (forall k :: 0 <= k < |csv| ==> Cell(csv[k], "TABLE_INF") != Some(id)) ==>
      Lookup(UpsertAll(store, SyncedRows(c, csv)), id) == Lookup(store, id)
  {
    var rows := SyncedRows(c, csv);
    assert forall k :: 0 <= k < |rows| ==> rows[k].id == Cell(csv[k], "TABLE_INF");
    UpsertAllLookup(store, rows, id);
    forall k | LastRowFor(csv, id, k) ensures LastWith(rows, id, k) {
    }
  }

  /** A row whose table id is NaN is stored under a NULL key, which collides
      with nothing: it is kept alongside every other row. */
  lemma SyncKeepsNullIds(store: Store, c: Codec, rows: seq<CsvRow>)
    requires UniqueIds(store)
    requires SyncCatalog(store, c, Some(rows)).Success?
    ensures forall k :: 0 <= k < |rows| && Cell(rows[k], "TABLE_INF").None? ==>
      SyncedRow(c, rows[k]) in SyncCatalog(store, c, Some(rows)).value
  {
    UpsertAllKeepsNull(store, SyncedRows(c, rows));
  }
}
