/** The metadata loader's pure kernels: turning the children of a
    `TABLE_INF` element into a table record, choosing the tables whose axis
    metadata is fetched, and arranging the cached tables by main and sub
    category for the assistant. The XML and the database are inputs: an
    element is the list of its children's (tag, text) pairs, and a query
    result is its rows in order. */
module MetadataLoader {
  import opened Wrappers
  import opened Strings
  import opened Seqs
  import opened Sorting

  // ---------------------------------------------------------------------
  // Record normalisation

  /** A child element: its tag and its text, `None` when it has none. */
  type Child = (string, Option<string>)

  /** `child.text if child.text else ""` */
  function TextOf(text: Option<string>): string {
    text.GetOr("")
  }

  /** The loop `table_data[child.tag] = …` over the children in document
      order: a later child with the same tag overwrites an earlier one. */
  function ChildMap(children: seq<Child>): map<string, string> {
    if |children| == 0 then map[]
    else
      var last := children[|children| - 1];
      ChildMap(children[..|children| - 1])[last.0 := TextOf(last.1)]
  }

  /** Child `k` is the last child tagged `tag`. */
  predicate LastTagged(children: seq<Child>, tag: string, k: int) {
    0 <= k < |children| && children[k].0 == tag
    && forall j :: k < j < |children| ==> children[j].0 != tag
  }

  /** A tag is in the map iff some child carries it, and then it maps to the
      text of the last such child, `""` when that child has no text. */
  lemma {:induction false} ChildMapSpec(children: seq<Child>, tag: string)
    ensures tag in ChildMap(children) <==> exists k :: 0 <= k < |children| && children[k].0 == tag
    ensures forall k :: LastTagged(children, tag, k) ==> ChildMap(children)[tag] == TextOf(children[k].1)
    decreases |children|
  {
    if |children| > 0 {
      var init := children[..|children| - 1];
      ChildMapSpec(init, tag);
      assert forall k :: 0 <= k < |init| ==> init[k] == children[k];
      forall k | LastTagged(children, tag, k) ensures ChildMap(children)[tag] == TextOf(children[k].1) {
        if k < |children| - 1 {
          assert LastTagged(init, tag, k);
        }
      }
    }
  }

  /** `table_data.get(key, '')` */
  function Field(m: map<string, string>, key: string): string {
    if key in m then m[key] else ""
  }

  /** The value of a well-formed digit string: digits with single
      underscores between them, as Python's `int` reads them. */
  predicate DigitGroups(s: string) {
    && |s| > 0 && IsDigit(s[0]) && IsDigit(s[|s| - 1])
    && (forall k :: 0 <= k < |s| ==> IsDigit(s[k]) || s[k] == '_')
    && (forall k :: 0 <= k < |s| - 1 ==> IsDigit(s[k]) || IsDigit(s[k + 1]))
  }

  /** The number a run of digits and underscores denotes, underscores
      skipped. */
  function DigitsValue(s: string): nat
    requires forall k :: 0 <= k < |s| ==> IsDigit(s[k]) || s[k] == '_'
  {
    if |s| == 0 then 0
    else
      var init := s[..|s| - 1];
      assert forall k :: 0 <= k < |init| ==> init[k] == s[k];
      if s[|s| - 1] == '_' then DigitsValue(init)
      else DigitsValue(init) * 10 + DigitValue(s[|s| - 1])
  }

  /** Python's `int(text)` on a string: surrounding white space is ignored,
      then an optional sign and a digit string; anything else raises, which
      is `None` here. */
  function ParseInt(text: string): (r: Option<int>)
    ensures r.Some? ==> |Strip(text)| > 0
  {
    var s := Strip(text);
    if |s| > 0 && (s[0] == '-' || s[0] == '+') then
      var body := s[1..];
      if DigitGroups(body) then
        var v: int := DigitsValue(body);
        Some(if s[0] == '-' then -v else v)
      else None
    else if DigitGroups(s) then Some(DigitsValue(s))
    else None
  }

  /** `str(n)` for a natural number. */
  function ShowNat(n: nat): (r: string)
    ensures |r| > 0 && forall k :: 0 <= k < |r| ==> '0' <= r[k] <= '9'
  {
    var d := ['0' + (n % 10) as char];
    if n < 10 then d else ShowNat(n / 10) + d
  }

  /** `str(n)` for an integer. */
  function Show(n: int): string {
    if n < 0 then "-" + ShowNat(-n) else ShowNat(n)
  }

  lemma {:induction false} ShowNatValue(n: nat)
    ensures DigitGroups(ShowNat(n)) && DigitsValue(ShowNat(n)) == n
    decreases n
  {
    var s := ShowNat(n);
    if n >= 10 {
      ShowNatValue(n / 10);
      assert s[..|s| - 1] == ShowNat(n / 10);
    }
  }

  lemma ParseDigits(s: string)
    requires DigitGroups(s)
    ensures ParseInt(s) == Some(DigitsValue(s) as int)
  {
    StripNoop(s);
  }

  lemma ParseShowNat(n: nat)
    ensures ParseInt(ShowNat(n)) == Some(n)
  {
    ShowNatValue(n);
    ParseDigits(ShowNat(n));
  }

  lemma ParseShowNegative(n: nat)
    requires n > 0
    ensures ParseInt("-" + ShowNat(n)) == Some(-(n as int))
  {
    ShowNatValue(n);
    ParseMinusDigits(ShowNat(n), n);
  }

  lemma ParseMinusDigits(d: string, n: nat)
    requires DigitGroups(d) && DigitsValue(d) == n
    ensures ParseInt("-" + d) == Some(-(n as int))
  {
    var s := "-" + d;
    assert s[0] == '-' && s[|s| - 1] == d[|d| - 1] && s[1..] == d;
    StripNoop(s);
    assert Strip(s)[1..] == d;
  }

  /** `int(str(n)) == n`: the parser reads back every rendered integer. */
  lemma ParseShow(n: int)
    ensures ParseInt(Show(n)) == Some(n)
  {
    if n < 0 {
      var m: nat := -n;
      assert Show(n) == "-" + ShowNat(m);
      ParseShowNegative(m);
    } else {
      assert Show(n) == ShowNat(n);
      ParseShowNat(n);
    }
  }

  /** Text with a character that is neither white space, a sign, a digit nor
      an underscore is rejected. */
  lemma ParseRejects(text: string, i: nat)
    requires i < |text| && !IsSpace(text[i]) && !IsDigit(text[i]) && text[i] !in "+-_"
    ensures ParseInt(text) == None
  {
    var s := Strip(text);
    if ParseInt(text).Some? {
      StripKeepsChar(text, i);
      var j :| 0 <= j < |s| && s[j] == text[i];
      if s[0] == '-' || s[0] == '+' {
        assert j > 0;
        assert s[1..][j - 1] == s[j];
      }
    }
  }

  /** A table record as `fetch_all_stats_tables` builds it (its update
      timestamp left out). */
  datatype TableRecord = TableRecord(
    tableId: string,
    statId: string,
    govOrg: string,
    statName: string,
    title: string,
    cycle: string,
    surveyDate: string,
    openDate: string,
    smallArea: int,
    mainCategoryCode: string,
    mainCategory: string,
    subCategoryCode: string,
    subCategory: string,
    overallTotalNumber: int)

  /** `overall_total_number`: `0` for an absent or empty value, else `int`
      of it; `None` when `int` raises. */
  function TotalNumber(m: map<string, string>): Option<int> {
    var t := Field(m, "OVERALL_TOTAL_NUMBER");
    if t == "" then Some(0) else ParseInt(t)
  }

  /** One `processed_table`; `None` when the total number is not a number. */
  function Normalise(children: seq<Child>): Option<TableRecord> {
    var m := ChildMap(children);
    match TotalNumber(m)
    case None => None
    case Some(total) =>
      Some(TableRecord(
        Field(m, "TABLE_INF"), Field(m, "STAT_NAME_CODE"), Field(m, "GOV_ORG"), Field(m, "STAT_NAME"),
        Field(m, "TITLE"), Field(m, "CYCLE"), Field(m, "SURVEY_DATE"), Field(m, "OPEN_DATE"),
        if Field(m, "SMALL_AREA") == "1" then 1 else 0,
        Field(m, "MAIN_CATEGORY_CODE"), Field(m, "MAIN_CATEGORY"),
        Field(m, "SUB_CATEGORY_CODE"), Field(m, "SUB_CATEGORY"), total))
  }

  /** A text column holds the last same-tagged child's text, `""` when no
      child carries the tag or it has no text; the table id is read from a
      child tagged `TABLE_INF`; `small_area` is `1` exactly when that text
      is `"1"`; the total number is `0` when absent or empty and `int` of
      the text otherwise, and the record is rejected when `int` raises. */
  lemma NormaliseSpec(children: seq<Child>)
    ensures forall tag :: (forall k :: 0 <= k < |children| ==> children[k].0 != tag) ==> Field(ChildMap(children), tag) == ""
    ensures forall tag, k :: LastTagged(children, tag, k) ==> Field(ChildMap(children), tag) == TextOf(children[k].1)
    ensures var r := Normalise(children);
      r.Some? ==> && r.value.tableId == Field(ChildMap(children), "TABLE_INF")
                  && (r.value.smallArea == 1 <==> Field(ChildMap(children), "SMALL_AREA") == "1")
                  && (r.value.smallArea == 0 || r.value.smallArea == 1)
    ensures var t := Field(ChildMap(children), "OVERALL_TOTAL_NUMBER");
      && (t == "" ==> Normalise(children).Some? && Normalise(children).value.overallTotalNumber == 0)
      && (t != "" ==> (Normalise(children).Some? <==> ParseInt(t).Some?))
      && (t != "" && ParseInt(t).Some? ==> Normalise(children).value.overallTotalNumber == ParseInt(t).value)
  {
    forall tag ensures (forall k :: 0 <= k < |children| ==> children[k].0 != tag) ==> Field(ChildMap(children), tag) == "" {
      ChildMapSpec(children, tag);
    }
    forall tag, k | LastTagged(children, tag, k) ensures Field(ChildMap(children), tag) == TextOf(children[k].1) {
      ChildMapSpec(children, tag);
    }
  }

  /** `fetch_all_stats_tables` given the `TABLE_INF` elements of the
      response, `None` when the request failed or the response had no
      `DATALIST_INF`: any failure, including one table's total number that
      `int` rejects, yields the empty list. */
  function FetchAll(tables: Option<seq<seq<Child>>>): seq<TableRecord> {
    match tables
    case None => []
    case Some(ts) => NormaliseAll(ts).GetOr([])
  }

  function NormaliseAll(tables: seq<seq<Child>>): (r: Option<seq<TableRecord>>)
    ensures r.Some? ==> |r.value| == |tables|
  {
    if |tables| == 0 then Some([])
    else
      match (Normalise(tables[0]), NormaliseAll(tables[1..]))
      case (Some(t), Some(rest)) => Some([t] + rest)
      case _ => None
  }

  /** Either every table is normalised, in document order, or one of them is
      rejected and nothing is returned. */
  lemma {:induction false} FetchAllSpec(tables: seq<seq<Child>>)
    ensures (forall k :: 0 <= k < |tables| ==> Normalise(tables[k]).Some?) ==>
      |FetchAll(Some(tables))| == |tables|
      && forall k :: 0 <= k < |tables| ==> FetchAll(Some(tables))[k] == Normalise(tables[k]).value
    ensures (exists k :: 0 <= k < |tables| && Normalise(tables[k]).None?) ==> FetchAll(Some(tables)) == []
    decreases |tables|
  {
    if |tables| > 0 {
      FetchAllSpec(tables[1..]);
      assert forall k :: 0 < k < |tables| ==> tables[k] == tables[1..][k - 1];
      if exists k :: 0 <= k < |tables| && Normalise(tables[k]).None? {
        var k :| 0 <= k < |tables| && Normalise(tables[k]).None?;
        if k > 0 {
          assert Normalise(tables[1..][k - 1]).None?;
        }
      }
    }
  }

  // ---------------------------------------------------------------------
  // Priority selection

  /** `priority_keywords` */
  const PriorityKeywords: seq<string> := ["人口", "労働", "世帯", "家計", "国勢"]

  /** Some keyword occurs in the statistic name or in the title. */
  predicate IsPriority(keywords: seq<string>, t: TableRecord) {
    AnyIn(t.statName, keywords) || AnyIn(t.title, keywords)
  }

  function Ids(tables: seq<TableRecord>): (r: seq<string>)
    ensures |r| == |tables|
    ensures forall k :: 0 <= k < |tables| ==> r[k] == tables[k].tableId
  {
    seq(|tables|, k requires 0 <= k < |tables| => tables[k].tableId)
  }

  /** `priority_tables`: the ids of the priority tables, in list order. */
  function PriorityIds(tables: seq<TableRecord>): seq<string> {
    Ids(Filter(tables, PriorityKeywords, IsPriority))
  }

  /** `priority_tables[:20]`: the tables whose metadata is fetched. */
  function MetadataTargets(tables: seq<TableRecord>): seq<string> {
    PyPrefix(PriorityIds(tables), 20)
  }

  /** A table is a priority table iff one of the five keywords occurs in its
      statistic name or in its title. */
  lemma IsPriorityIff(t: TableRecord)
    ensures IsPriority(PriorityKeywords, t) <==>
      exists j :: 0 <= j < |PriorityKeywords| && (Contains(t.statName, PriorityKeywords[j]) || Contains(t.title, PriorityKeywords[j]))
  {
    AnyInIff(t.statName, PriorityKeywords);
    AnyInIff(t.title, PriorityKeywords);
  }

  /** An id is a priority id iff it is the id of a priority table; metadata
      is fetched for the first twenty of them, in list order. */
  lemma MetadataTargetsSpec(tables: seq<TableRecord>)
    ensures forall id :: id in PriorityIds(tables) <==>
      exists k :: 0 <= k < |tables| && tables[k].tableId == id && IsPriority(PriorityKeywords, tables[k])
    ensures var ids := PriorityIds(tables);
      MetadataTargets(tables) == ids[..if |ids| < 20 then |ids| else 20]
  {
    var kept := Filter(tables, PriorityKeywords, IsPriority);
    FilterMembers(tables, PriorityKeywords, IsPriority);
    forall id | id in PriorityIds(tables)
      ensures exists k :: 0 <= k < |tables| && tables[k].tableId == id && IsPriority(PriorityKeywords, tables[k])
    {
      var i :| 0 <= i < |kept| && kept[i].tableId == id;
      var k :| 0 <= k < |tables| && tables[k] == kept[i];
    }
    forall k | 0 <= k < |tables| && IsPriority(PriorityKeywords, tables[k]) ensures tables[k].tableId in PriorityIds(tables) {
      var i :| 0 <= i < |kept| && kept[i] == tables[k];
      assert PriorityIds(tables)[i] == tables[k].tableId;
    }
  }

  // ---------------------------------------------------------------------
  // Grouping for the assistant

  /** A row of the `stats_tables` query, in query order. */
  datatype QueryRow = QueryRow(
    tableId: string,
    statName: string,
    title: string,
    mainCategory: string,
    subCategory: string,
    govOrg: string,
    surveyDate: string,
    totalNumber: int)

  /** A row of `table_metadata`; the unit column may be NULL. */
  datatype AxisRow = AxisRow(tableId: string, axisId: string, axisName: string, className: string, unit: Option<string>)

  datatype Axis = Axis(name: string, className: string, unit: string)

  /** `table_info` */
  datatype TableInfo = TableInfo(
    tableId: string,
    statName: string,
    title: string,
    govOrg: string,
    surveyDate: string,
    totalNumber: int,
    axes: map<string, Axis>)

  /** `unit if unit else ""` */
  function UnitText(unit: Option<string>): string {
    unit.GetOr("")
  }

  /** `axes` of one table: its axis rows in query order, a later row with
      the same axis id overwriting an earlier one. */
  function AxesOf(axisRows: seq<AxisRow>, tableId: string): map<string, Axis> {
    if |axisRows| == 0 then map[]
    else
      var last := axisRows[|axisRows| - 1];
      var axes := AxesOf(axisRows[..|axisRows| - 1], tableId);
      if last.tableId == tableId then axes[last.axisId := Axis(last.axisName, last.className, UnitText(last.unit))]
      else axes
  }

  predicate AxisOf(tableId: string, axisId: string, row: AxisRow) {
    row.tableId == tableId && row.axisId == axisId
  }

  /** Row `k` is the last row for that table and axis. */
  predicate LastAxisRow(axisRows: seq<AxisRow>, tableId: string, axisId: string, k: int) {
    0 <= k < |axisRows| && AxisOf(tableId, axisId, axisRows[k])
    && forall j :: k < j < |axisRows| ==> !AxisOf(tableId, axisId, axisRows[j])
  }

  /** The axis a row describes: its name and class, and a unit that is
      `""` exactly when the stored unit is NULL or empty, the stored unit
      otherwise. */
  predicate AxisFromRow(a: Axis, row: AxisRow) {
    && a.name == row.axisName && a.className == row.className
    && (a.unit == "" <==> row.unit == None || row.unit == Some(""))
    && (row.unit.Some? ==> a.unit == row.unit.value)
  }

  /** A table's axes are the axis ids of its rows, each described by its
      last row. */
  lemma {:induction false} AxesSpec(axisRows: seq<AxisRow>, tableId: string, axisId: string)
    ensures axisId in AxesOf(axisRows, tableId) <==> exists k :: 0 <= k < |axisRows| && AxisOf(tableId, axisId, axisRows[k])
    ensures forall k :: LastAxisRow(axisRows, tableId, axisId, k) ==> AxisFromRow(AxesOf(axisRows, tableId)[axisId], axisRows[k])
    decreases |axisRows|
  {
    if |axisRows| > 0 {
      var init := axisRows[..|axisRows| - 1];
      var last := axisRows[|axisRows| - 1];
      AxesSpec(init, tableId, axisId);
      assert forall k :: 0 <= k < |init| ==> init[k] == axisRows[k];
      forall k | LastAxisRow(axisRows, tableId, axisId, k) ensures AxisFromRow(AxesOf(axisRows, tableId)[axisId], axisRows[k]) {
        if k < |axisRows| - 1 {
          assert LastAxisRow(init, tableId, axisId, k);
          assert !AxisOf(tableId, axisId, last);
        }
      }
    }
  }

  function InfoOf(row: QueryRow, axisRows: seq<AxisRow>): TableInfo {
    TableInfo(row.tableId, row.statName, row.title, row.govOrg, row.surveyDate, row.totalNumber, AxesOf(axisRows, row.tableId))
  }

  function Infos(rows: seq<QueryRow>, axisRows: seq<AxisRow>): (r: seq<TableInfo>)
    ensures |r| == |rows|
    ensures forall k :: 0 <= k < |rows| ==> r[k] == InfoOf(rows[k], axisRows)
  {
    seq(|rows|, k requires 0 <= k < |rows| => InfoOf(rows[k], axisRows))
  }

  /** Sub-category → tables, in insertion order. */
  type SubGroups = seq<(string, seq<TableInfo>)>

  /** Main category → sub-categories, in insertion order. */
  type Grouped = seq<(string, SubGroups)>

  /** Appends `t` to the list under `sub`, creating it at the end if new. */
  function AddTo(subs: SubGroups, sub: string, t: TableInfo): SubGroups {
    if |subs| == 0 then [(sub, [t])]
    else if subs[0].0 == sub then [(sub, subs[0].1 + [t])] + subs[1..]
    else [subs[0]] + AddTo(subs[1..], sub, t)
  }

  /** Appends `t` under `main` → `sub`, creating either level if new. */
  function AddRow(g: Grouped, main: string, sub: string, t: TableInfo): Grouped {
    if |g| == 0 then [(main, AddTo([], sub, t))]
    else if g[0].0 == main then [(main, AddTo(g[0].1, sub, t))] + g[1..]
    else [g[0]] + AddRow(g[1..], main, sub, t)
  }

  /** `ollama_data["分类统计表"]`: the rows added one by one in query order. */
  function Group(rows: seq<QueryRow>, axisRows: seq<AxisRow>): Grouped {
    if |rows| == 0 then []
    else
      var last := rows[|rows| - 1];
      AddRow(Group(rows[..|rows| - 1], axisRows), last.mainCategory, last.subCategory, InfoOf(last, axisRows))
  }

  /** The data handed to the assistant: the table count and the groups. */
  datatype OllamaData = OllamaData(tableCount: nat, groups: Grouped)

  function LoadAllStats(rows: seq<QueryRow>, axisRows: seq<AxisRow>): OllamaData {
    OllamaData(|rows|, Group(rows, axisRows))
  }

  /** The tables listed under `main` → `sub`, none if either is missing. */
  function Members(g: Grouped, main: string, sub: string): seq<TableInfo> {
    match Find(g, main)
    case None => []
    case Some(subs) => Find(subs, sub).GetOr([])
  }

  /** The number of tables listed anywhere. */
  function SubSize(subs: SubGroups): nat {
    if |subs| == 0 then 0 else |subs[0].1| + SubSize(subs[1..])
  }

  function Size(g: Grouped): nat {
    if |g| == 0 then 0 else SubSize(g[0].1) + Size(g[1..])
  }

  lemma {:induction false} AddToFind(subs: SubGroups, sub: string, t: TableInfo, key: string)
    ensures Find(AddTo(subs, sub, t), key) == if key == sub then Some(Find(subs, sub).GetOr([]) + [t]) else Find(subs, key)
    decreases |subs|
  {
    if |subs| > 0 {
      AddToFind(subs[1..], sub, t, key);
      assert subs == [subs[0]] + subs[1..];
      FindConcat([subs[0]], subs[1..], key);
      FindConcat([subs[0]], subs[1..], sub);
      if subs[0].0 == sub {
        FindConcat([(sub, subs[0].1 + [t])], subs[1..], key);
      } else {
        FindConcat([subs[0]], AddTo(subs[1..], sub, t), key);
      }
    } else {
      var x := (sub, [t]);
      assert [x][1..] == [];
      assert Find([x], key) == if key == sub then Some([t]) else None;
      assert Find(subs, sub).GetOr([]) + [t] == [t];
    }
  }

  lemma {:induction false} AddToSize(subs: SubGroups, sub: string, t: TableInfo)
    ensures SubSize(AddTo(subs, sub, t)) == SubSize(subs) + 1
    decreases |subs|
  {
    if |subs| > 0 {
      AddToSize(subs[1..], sub, t);
      if subs[0].0 == sub {
        assert ([(sub, subs[0].1 + [t])] + subs[1..])[1..] == subs[1..];
      } else {
        assert ([subs[0]] + AddTo(subs[1..], sub, t))[1..] == AddTo(subs[1..], sub, t);
      }
    }
  }

  lemma {:induction false} AddRowFind(g: Grouped, main: string, sub: string, t: TableInfo, key: string)
    ensures Find(AddRow(g, main, sub, t), key) == if key == main then Some(AddTo(Find(g, main).GetOr([]), sub, t)) else Find(g, key)
    decreases |g|
  {
    if |g| > 0 {
      AddRowFind(g[1..], main, sub, t, key);
      assert g == [g[0]] + g[1..];
      FindConcat([g[0]], g[1..], key);
      FindConcat([g[0]], g[1..], main);
      if g[0].0 == main {
        FindConcat([(main, AddTo(g[0].1, sub, t))], g[1..], key);
      } else {
        FindConcat([g[0]], AddRow(g[1..], main, sub, t), key);
      }
    }
  }

  lemma {:induction false} AddRowKeys(g: Grouped, main: string, sub: string, t: TableInfo)
    ensures Keys(AddRow(g, main, sub, t)) == if main in Keys(g) then Keys(g) else Keys(g) + [main]
    decreases |g|
  {
    if |g| > 0 {
      AddRowKeys(g[1..], main, sub, t);
      KeysCons(g[0], g[1..]);
      assert g == [g[0]] + g[1..];
      if g[0].0 == main {
        KeysCons((main, AddTo(g[0].1, sub, t)), g[1..]);
      } else {
        KeysCons(g[0], AddRow(g[1..], main, sub, t));
      }
    }
  }

  lemma {:induction false} AddRowSize(g: Grouped, main: string, sub: string, t: TableInfo)
    ensures Size(AddRow(g, main, sub, t)) == Size(g) + 1
    decreases |g|
  {
    if |g| == 0 {
      AddToSize([], sub, t);
    } else {
      AddRowSize(g[1..], main, sub, t);
      if g[0].0 == main {
        AddToSize(g[0].1, sub, t);
        assert ([(main, AddTo(g[0].1, sub, t))] + g[1..])[1..] == g[1..];
      } else {
        assert ([g[0]] + AddRow(g[1..], main, sub, t))[1..] == AddRow(g[1..], main, sub, t);
      }
    }
  }

  predicate InCategory(c: (string, string), row: QueryRow) {
    row.mainCategory == c.0 && row.subCategory == c.1
  }

  function Mains(rows: seq<QueryRow>): (r: seq<string>)
    ensures |r| == |rows|
    ensures forall k :: 0 <= k < |rows| ==> r[k] == rows[k].mainCategory
  {
    seq(|rows|, k requires 0 <= k < |rows| => rows[k].mainCategory)
  }

  /** Adding a table extends exactly the one `main` → `sub` list it goes to. */
  lemma MembersAddRow(g: Grouped, m: string, s: string, t: TableInfo, main: string, sub: string)
    ensures Members(AddRow(g, m, s, t), main, sub)
         == Members(g, main, sub) + (if m == main && s == sub then [t] else [])
  {
    AddRowFind(g, m, s, t, main);
    if m == main {
      AddToFind(Find(g, main).GetOr([]), s, t, sub);
    }
  }

  lemma InfosSnoc(rows: seq<QueryRow>, x: QueryRow, axisRows: seq<AxisRow>)
    ensures Infos(rows + [x], axisRows) == Infos(rows, axisRows) + [InfoOf(x, axisRows)]
  {
    var l, r := Infos(rows + [x], axisRows), Infos(rows, axisRows) + [InfoOf(x, axisRows)];
    forall k | 0 <= k < |l| ensures l[k] == r[k] {
      assert (rows + [x])[k] == if k < |rows| then rows[k] else x;
    }
  }

  /** Every row is listed under its main and sub category, and nothing
      else is: the tables under `main` → `sub` are exactly the rows of that
      category, in query order. */
  lemma {:induction false} GroupMembers(rows: seq<QueryRow>, axisRows: seq<AxisRow>, main: string, sub: string)
    ensures Members(Group(rows, axisRows), main, sub) == Infos(Filter(rows, (main, sub), InCategory), axisRows)
    decreases |rows|
  {
    if |rows| > 0 {
      var init := rows[..|rows| - 1];
      var last := rows[|rows| - 1];
      GroupMembers(init, axisRows, main, sub);
      var g := Group(init, axisRows);
      var t := InfoOf(last, axisRows);
      assert Group(rows, axisRows) == AddRow(g, last.mainCategory, last.subCategory, t);
      MembersAddRow(g, last.mainCategory, last.subCategory, t, main, sub);
      assert rows == init + [last];
      FilterSnoc(init, last, (main, sub), InCategory);
      if InCategory((main, sub), last) {
        InfosSnoc(Filter(init, (main, sub), InCategory), last, axisRows);
      }
    }
  }

  /** The main categories appear once each, in order of first occurrence. */
  lemma {:induction false} GroupKeys(rows: seq<QueryRow>, axisRows: seq<AxisRow>)
    ensures Keys(Group(rows, axisRows)) == Dedup(Mains(rows))
    decreases |rows|
  {
    if |rows| > 0 {
      var init := rows[..|rows| - 1];
      var last := rows[|rows| - 1];
      GroupKeys(init, axisRows);
      var g := Group(init, axisRows);
      AddRowKeys(g, last.mainCategory, last.subCategory, InfoOf(last, axisRows));
      var m := Mains(rows);
      assert m[..|m| - 1] == Mains(init);
      assert m[|m| - 1] == last.mainCategory;
      var d := Dedup(Mains(init));
      assert Dedup(m) == if last.mainCategory in d then d else d + [last.mainCategory];
      assert Group(rows, axisRows) == AddRow(g, last.mainCategory, last.subCategory, InfoOf(last, axisRows));
    }
  }

  /** The table count equals the number of tables listed. */
  lemma {:induction false} GroupSize(rows: seq<QueryRow>, axisRows: seq<AxisRow>)
    ensures LoadAllStats(rows, axisRows).tableCount == Size(Group(rows, axisRows))
    decreases |rows|
  {
    if |rows| > 0 {
      var init := rows[..|rows| - 1];
      var last := rows[|rows| - 1];
      GroupSize(init, axisRows);
      AddRowSize(Group(init, axisRows), last.mainCategory, last.subCategory, InfoOf(last, axisRows));
    }
  }

  // ---------------------------------------------------------------------
  // Axis details

  /** A row of `class_values`. */
  datatype ValueRow = ValueRow(tableId: string, axisId: string, code: string, name: string, level: string, parent: string)

  /** An entry of `get_table_axis_details`: the unit exactly as stored. */
  datatype AxisDetail = AxisDetail(axisName: string, className: string, unit: Option<string>, values: seq<ValueRow>)

  predicate ValueOf(key: (string, string), v: ValueRow) {
    v.tableId == key.0 && v.axisId == key.1
  }

  predicate CodeLe(a: ValueRow, b: ValueRow) {
    LexLe(a.code, b.code)
  }

  /** `ORDER BY class_code` over the axis's value rows. */
  function ValuesOf(valueRows: seq<ValueRow>, tableId: string, axisId: string): seq<ValueRow> {
    Sort(Filter(valueRows, (tableId, axisId), ValueOf), CodeLe)
  }

  /** `get_table_axis_details`: the table's axis rows in query order, a
      later row with the same axis id overwriting an earlier one. */
  function AxisDetails(axisRows: seq<AxisRow>, valueRows: seq<ValueRow>, tableId: string): map<string, AxisDetail> {
    if |axisRows| == 0 then map[]
    else
      var last := axisRows[|axisRows| - 1];
      var details := AxisDetails(axisRows[..|axisRows| - 1], valueRows, tableId);
      if last.tableId == tableId then
        details[last.axisId := AxisDetail(last.axisName, last.className, last.unit, ValuesOf(valueRows, tableId, last.axisId))]
      else details
  }

  lemma CodeLeTotalPreorder()
    ensures TotalPreorder(CodeLe)
  {
    forall a: ValueRow, b: ValueRow ensures CodeLe(a, b) || CodeLe(b, a) {
      LexLeTotal(a.code, b.code);
    }
    forall a: ValueRow, b: ValueRow, c: ValueRow | CodeLe(a, b) && CodeLe(b, c) ensures CodeLe(a, c) {
      LexLeTrans(a.code, b.code, c.code);
    }
  }

  /** An axis's values are exactly the value rows of that table and axis,
      ordered by code. */
  lemma ValuesOfSpec(valueRows: seq<ValueRow>, tableId: string, axisId: string)
    ensures Sorted(ValuesOf(valueRows, tableId, axisId), CodeLe)
    ensures multiset(ValuesOf(valueRows, tableId, axisId)) == multiset(Filter(valueRows, (tableId, axisId), ValueOf))
    ensures forall v :: v in ValuesOf(valueRows, tableId, axisId) <==> v in valueRows && ValueOf((tableId, axisId), v)
  {
    var kept := Filter(valueRows, (tableId, axisId), ValueOf);
    CodeLeTotalPreorder();
    SortSorted(kept, CodeLe);
    FilterMembers(valueRows, (tableId, axisId), ValueOf);
    forall v ensures v in ValuesOf(valueRows, tableId, axisId) <==> v in kept {
      assert v in ValuesOf(valueRows, tableId, axisId) <==> v in multiset(ValuesOf(valueRows, tableId, axisId));
      assert v in kept <==> v in multiset(kept);
    }
  }

  /** The detail an axis row gives: its name, class and stored unit, NULL
      included, and the axis's values. */
  predicate DetailFromRow(d: AxisDetail, row: AxisRow, valueRows: seq<ValueRow>) {
    && d.axisName == row.axisName && d.className == row.className && d.unit == row.unit
    && d.values == ValuesOf(valueRows, row.tableId, row.axisId)
  }

  /** A table's axis details cover the axis ids of its rows, each described
      by its last row; unlike the grouped data, the unit is kept as stored. */
  lemma AxisDetailsSpec(axisRows: seq<AxisRow>, valueRows: seq<ValueRow>, tableId: string, axisId: string)
    ensures axisId in AxisDetails(axisRows, valueRows, tableId) <==> exists k :: 0 <= k < |axisRows| && AxisOf(tableId, axisId, axisRows[k])
    ensures forall k :: LastAxisRow(axisRows, tableId, axisId, k) ==>
      DetailFromRow(AxisDetails(axisRows, valueRows, tableId)[axisId], axisRows[k], valueRows)
  {
    AxisDetailsDomain(axisRows, valueRows, tableId, axisId);
    forall k | LastAxisRow(axisRows, tableId, axisId, k)
      ensures DetailFromRow(AxisDetails(axisRows, valueRows, tableId)[axisId], axisRows[k], valueRows)
    {
      AxisDetailsLast(axisRows, valueRows, tableId, axisId, k);
    }
  }

  lemma {:induction false} AxisDetailsDomain(axisRows: seq<AxisRow>, valueRows: seq<ValueRow>, tableId: string, axisId: string)
    ensures axisId in AxisDetails(axisRows, valueRows, tableId) <==> exists k :: 0 <= k < |axisRows| && AxisOf(tableId, axisId, axisRows[k])
    decreases |axisRows|
  {
    if |axisRows| > 0 {
      var init := axisRows[..|axisRows| - 1];
      AxisDetailsDomain(init, valueRows, tableId, axisId);
      assert forall k :: 0 <= k < |init| ==> init[k] == axisRows[k];
    }
  }

  lemma {:induction false} AxisDetailsLast(axisRows: seq<AxisRow>, valueRows: seq<ValueRow>, tableId: string, axisId: string, k: int)
    requires LastAxisRow(axisRows, tableId, axisId, k)
    ensures axisId in AxisDetails(axisRows, valueRows, tableId)
    ensures DetailFromRow(AxisDetails(axisRows, valueRows, tableId)[axisId], axisRows[k], valueRows)
    decreases |axisRows|
  {
    var init := axisRows[..|axisRows| - 1];
    var last := axisRows[|axisRows| - 1];
    if k < |axisRows| - 1 {
      assert !AxisOf(tableId, axisId, last);
      assert LastAxisRow(init, tableId, axisId, k) by {
        assert init[k] == axisRows[k];
        forall j | k < j < |init| ensures !AxisOf(tableId, axisId, init[j]) {
          assert init[j] == axisRows[j];
        }
      }
      AxisDetailsLast(init, valueRows, tableId, axisId, k);
    }
  }
}
