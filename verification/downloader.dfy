/** The catalog downloader's pure kernels: sorting catalog records into
    field buckets by keyword, the combined catalog and its record counts,
    and the per-bucket index of surveys. A catalog is its rows in order;
    a missing cell is `None`. */
module Downloader {
  import opened Wrappers
  import opened Strings
  import opened Seqs
  import opened Sorting

  /** The catalog columns the kernels read (the others ride along unread). */
  datatype CatalogRecord = CatalogRecord(
    statName: Option<string>,
    govOrg: Option<string>,
    mainCategory: Option<string>,
    surveyDate: Option<string>)

  /** Field code and its rows, in the order the dict holds them. */
  type Bucket = (string, seq<CatalogRecord>)

  /** `MAJOR_FIELDS` */
  const MajorFields: seq<(string, string)> := [
    ("00", "国勢統計"), ("01", "人口・世帯"), ("02", "自然環境・災害"), ("03", "労働・賃金"),
    ("04", "農林水産業"), ("05", "鉱工業"), ("06", "商業・サービス業"), ("07", "企業・家計・経済"),
    ("08", "住宅・土地・建設"), ("09", "エネルギー・水"), ("10", "運輸・観光"),
    ("11", "情報通信・科学技術"), ("12", "教育・文化・スポーツ・生活"), ("13", "行財政"),
    ("14", "司法・安全・環境"), ("99", "その他")]

  /** `MAJOR_FIELDS.get(code, "unknown")` */
  function FieldName(code: string): string {
    Find(MajorFields, code).GetOr("unknown")
  }

  /** `field_keywords` in declaration order. */
  const FieldKeywords: seq<(string, seq<string>)> := [
    ("01", ["人口", "世帯", "国勢調査", "住民基本台帳"]),
    ("02", ["災害", "環境", "気象", "地震"]),
    ("03", ["労働", "賃金", "雇用", "失業", "就業"]),
    ("04", ["農業", "林業", "水産", "漁業", "畜産"]),
    ("05", ["鉱業", "工業", "製造業", "生産"]),
    ("06", ["商業", "サービス", "小売", "卸売"]),
    ("07", ["企業", "家計", "経済", "GDP", "所得", "消費"]),
    ("08", ["住宅", "土地", "建設", "不動産"]),
    ("09", ["エネルギー", "電力", "ガス", "水道"]),
    ("10", ["運輸", "交通", "観光", "旅行"]),
    ("11", ["情報", "通信", "科学", "技術", "研究"]),
    ("12", ["教育", "文化", "スポーツ", "生活", "学校"]),
    ("13", ["行政", "財政", "税収", "予算"]),
    ("14", ["司法", "安全", "犯罪", "警察", "消防"])]

  // ---------------------------------------------------------------------
  // Field buckets

  /** `column.str.contains("|".join(keywords), na=False, case=False)`: the
      keywords hold no regex metacharacters, so the pattern is a plain
      alternation, matched ignoring case; a missing cell never matches. */
  predicate CellMatches(cell: Option<string>, keywords: seq<string>) {
    cell.Some? && exists k :: 0 <= k < |keywords| && Contains(Lower(cell.value), Lower(keywords[k]))
  }

  predicate FieldMatch(keywords: seq<string>, r: CatalogRecord) {
    CellMatches(r.statName, keywords) || CellMatches(r.govOrg, keywords) || CellMatches(r.mainCategory, keywords)
  }

  /** The record matches some field's keywords. */
  predicate Classified(fields: seq<(string, seq<string>)>, r: CatalogRecord) {
    exists j :: 0 <= j < |fields| && FieldMatch(fields[j].1, r)
  }

  predicate Unclassified(fields: seq<(string, seq<string>)>, r: CatalogRecord) {
    !Classified(fields, r)
  }

  /** The loop over `field_keywords`: each field's matching rows, in catalog
      order, kept only when there are some. */
  function FieldBuckets(fields: seq<(string, seq<string>)>, catalog: seq<CatalogRecord>): (r: seq<Bucket>)
    ensures forall i :: 0 <= i < |r| ==>
      |r[i].1| > 0 && exists j :: 0 <= j < |fields| && r[i] == (fields[j].0, Filter(catalog, fields[j].1, FieldMatch))
  {
    if |fields| == 0 then []
    else
      var b := Filter(catalog, fields[0].1, FieldMatch);
      var rest := FieldBuckets(fields[1..], catalog);
      assert forall j :: 1 <= j < |fields| ==> fields[j] == fields[1..][j - 1];
      (if |b| > 0 then [(fields[0].0, b)] else []) + rest
  }

  /** `idx` says which field each bucket of `r` comes from: the fields are
      taken in increasing declaration order, each bucket is that field's
      matching records, and every field left out matches nothing. */
  ghost predicate PicksInOrder(fields: seq<(string, seq<string>)>, catalog: seq<CatalogRecord>, r: seq<Bucket>, idx: seq<nat>) {
    && PicksBuckets(fields, catalog, r, idx)
    && Increasing(idx)
    && SkipsUnmatched(fields, catalog, idx)
  }

  ghost predicate PicksBuckets(fields: seq<(string, seq<string>)>, catalog: seq<CatalogRecord>, r: seq<Bucket>, idx: seq<nat>) {
    && |idx| == |r|
    && forall i :: 0 <= i < |idx| ==>
         idx[i] < |fields| && r[i] == (fields[idx[i]].0, Filter(catalog, fields[idx[i]].1, FieldMatch))
  }

  ghost predicate Increasing(idx: seq<nat>) {
    forall i, k :: 0 <= i < k < |idx| ==> idx[i] < idx[k]
  }

  ghost predicate SkipsUnmatched(fields: seq<(string, seq<string>)>, catalog: seq<CatalogRecord>, idx: seq<nat>) {
    forall j :: 0 <= j < |fields| && j !in idx ==> |Filter(catalog, fields[j].1, FieldMatch)| == 0
  }

  /** The buckets follow the fields' declaration order, skipping exactly the
      fields nothing matches; this order is the row order of the combined
      catalog. */
  lemma {:induction false} FieldBucketsOrder(fields: seq<(string, seq<string>)>, catalog: seq<CatalogRecord>)
    ensures exists idx :: PicksInOrder(fields, catalog, FieldBuckets(fields, catalog), idx)
    decreases |fields|
  {
    if |fields| == 0 {
      assert PicksInOrder(fields, catalog, FieldBuckets(fields, catalog), []);
    } else {
      FieldBucketsOrder(fields[1..], catalog);
      var idx' :| PicksInOrder(fields[1..], catalog, FieldBuckets(fields[1..], catalog), idx');
      var idx := ConsPicks(|Filter(catalog, fields[0].1, FieldMatch)| > 0, idx');
      StepBuckets(fields, catalog, idx');
      StepIncreasing(|Filter(catalog, fields[0].1, FieldMatch)| > 0, idx');
      StepSkips(fields, catalog, idx');
      assert PicksInOrder(fields, catalog, FieldBuckets(fields, catalog), idx);
    }
  }

  /** The indices of the tail's buckets, moved past the first field, and the
      first field's own index when it has a bucket. */
  function ConsPicks(matched: bool, idx': seq<nat>): (idx: seq<nat>)
    ensures |idx| == |idx'| + (if matched then 1 else 0)
    ensures matched ==> idx[0] == 0 && forall i :: 1 <= i < |idx| ==> idx[i] == idx'[i - 1] + 1
    ensures !matched ==> forall i :: 0 <= i < |idx| ==> idx[i] == idx'[i] + 1
  {
    var shifted := seq(|idx'|, i requires 0 <= i < |idx'| => idx'[i] + 1);
    if matched then [0] + shifted else shifted
  }

  lemma {:induction false} StepBuckets(fields: seq<(string, seq<string>)>, catalog: seq<CatalogRecord>, idx': seq<nat>)
    requires |fields| > 0
    ensures PicksBuckets(fields[1..], catalog, FieldBuckets(fields[1..], catalog), idx') ==>
      PicksBuckets(fields, catalog, FieldBuckets(fields, catalog),
                   ConsPicks(|Filter(catalog, fields[0].1, FieldMatch)| > 0, idx'))
  {
    var b := Filter(catalog, fields[0].1, FieldMatch);
    var idx := ConsPicks(|b| > 0, idx');
    var d := |idx| - |idx'|;
    var tail := FieldBuckets(fields[1..], catalog);
    var r := FieldBuckets(fields, catalog);
    if PicksBuckets(fields[1..], catalog, tail, idx') {
      var head: seq<Bucket> := if |b| > 0 then [(fields[0].0, b)] else [];
      assert r == head + tail;
      forall i | 0 <= i < |idx|
        ensures idx[i] < |fields| && r[i] == (fields[idx[i]].0, Filter(catalog, fields[idx[i]].1, FieldMatch))
      {
        if i < d {
          assert r[i] == head[i];
        } else {
          var k := idx'[i - d];
          assert idx[i] == k + 1;
          assert r[i] == tail[i - d];
          assert fields[1..][k] == fields[k + 1];
        }
      }
    }
  }

  lemma {:induction false} StepIncreasing(matched: bool, idx': seq<nat>)
    ensures Increasing(idx') ==> Increasing(ConsPicks(matched, idx'))
  {
    var idx := ConsPicks(matched, idx');
    var d := |idx| - |idx'|;
    if Increasing(idx') {
      forall i, k | 0 <= i < k < |idx| ensures idx[i] < idx[k] {
        assert idx[k] == idx'[k - d] + 1;
        if i >= d {
          assert idx[i] == idx'[i - d] + 1;
        }
      }
    }
  }

  lemma {:induction false} StepSkips(fields: seq<(string, seq<string>)>, catalog: seq<CatalogRecord>, idx': seq<nat>)
    requires |fields| > 0
    ensures SkipsUnmatched(fields[1..], catalog, idx') ==>
      SkipsUnmatched(fields, catalog, ConsPicks(|Filter(catalog, fields[0].1, FieldMatch)| > 0, idx'))
  {
    var b := Filter(catalog, fields[0].1, FieldMatch);
    var idx := ConsPicks(|b| > 0, idx');
    var d := |idx| - |idx'|;
    if SkipsUnmatched(fields[1..], catalog, idx') {
      forall j | 0 <= j < |fields| && j !in idx
        ensures |Filter(catalog, fields[j].1, FieldMatch)| == 0
      {
        if j > 0 {
          assert fields[j] == fields[1..][j - 1];
          forall i | 0 <= i < |idx'| ensures idx'[i] != j - 1 {
            assert idx[i + d] in idx;
          }
        }
      }
    }
  }

  /** Total size of the buckets, counting a record once per bucket it is
      in (`len(pd.concat(buckets))`). */
  function Total(buckets: seq<Bucket>): nat {
    if |buckets| == 0 then 0 else |buckets[0].1| + Total(buckets[1..])
  }

  /** The sum, over all fields, of how many records each matches. */
  function Hits(fields: seq<(string, seq<string>)>, catalog: seq<CatalogRecord>): nat {
    if |fields| == 0 then 0
    else |Filter(catalog, fields[0].1, FieldMatch)| + Hits(fields[1..], catalog)
  }

  /** `classify_by_field` */
  function Classify(catalog: seq<CatalogRecord>): seq<Bucket> {
    ClassifyWith(FieldKeywords, catalog)
  }

  /** The classification for a given keyword table: the field buckets, then
      bucket `"99"` with the records in no field bucket, built only when the
      field buckets' total size is below the catalog size. */
  function ClassifyWith(fields: seq<(string, seq<string>)>, catalog: seq<CatalogRecord>): seq<Bucket> {
    var buckets := FieldBuckets(fields, catalog);
    var rest := Filter(catalog, fields, Unclassified);
    if Total(buckets) < |catalog| && |rest| > 0 then buckets + [("99", rest)] else buckets
  }

  /** Every record a field's keywords match is counted in the total. */
  lemma {:induction false} TotalIsHits(fields: seq<(string, seq<string>)>, catalog: seq<CatalogRecord>)
    ensures Total(FieldBuckets(fields, catalog)) == Hits(fields, catalog)
    decreases |fields|
  {
    if |fields| > 0 {
      TotalIsHits(fields[1..], catalog);
      var b := Filter(catalog, fields[0].1, FieldMatch);
      var rest := FieldBuckets(fields[1..], catalog);
      var head := if |b| > 0 then [(fields[0].0, b)] else [];
      assert FieldBuckets(fields, catalog) == head + rest;
      TotalPrepend(head, rest);
    }
  }

  lemma TotalPrepend(head: seq<Bucket>, rest: seq<Bucket>)
    requires |head| <= 1
    ensures Total(head + rest) == (if |head| == 0 then 0 else |head[0].1|) + Total(rest)
  {
    if |head| == 0 {
      assert head + rest == rest;
    } else {
      assert (head + rest)[1..] == rest;
    }
  }

  lemma {:induction false} HitsAtLeast(fields: seq<(string, seq<string>)>, catalog: seq<CatalogRecord>, j: nat)
    requires j < |fields|
    ensures Hits(fields, catalog) >= |Filter(catalog, fields[j].1, FieldMatch)|
    decreases j
  {
    if j > 0 {
      HitsAtLeast(fields[1..], catalog, j - 1);
    }
  }

  lemma {:induction false} HitsAtLeastTwo(fields: seq<(string, seq<string>)>, catalog: seq<CatalogRecord>, i: nat, j: nat)
    requires i < j < |fields|
    ensures Hits(fields, catalog) >= |Filter(catalog, fields[i].1, FieldMatch)| + |Filter(catalog, fields[j].1, FieldMatch)|
    decreases i
  {
    if i == 0 {
      HitsAtLeast(fields[1..], catalog, j - 1);
    } else {
      HitsAtLeastTwo(fields[1..], catalog, i - 1, j - 1);
    }
  }

  /** Looking a field's code up in its buckets finds its matching rows when
      there are any, and nothing otherwise; a code of no field is absent. */
  lemma FieldBucketsFind(fields: seq<(string, seq<string>)>, catalog: seq<CatalogRecord>, code: string)
    requires NoDup(Keys(fields))
    ensures forall j :: 0 <= j < |fields| && fields[j].0 == code ==>
      Find(FieldBuckets(fields, catalog), code)
        == (var b := Filter(catalog, fields[j].1, FieldMatch); if |b| > 0 then Some(b) else None)
    ensures code !in Keys(fields) ==> Find(FieldBuckets(fields, catalog), code) == None
  {
    forall j | 0 <= j < |fields| && fields[j].0 == code
      ensures Find(FieldBuckets(fields, catalog), code)
        == (var b := Filter(catalog, fields[j].1, FieldMatch); if |b| > 0 then Some(b) else None)
    {
      FieldBucketsFindAt(fields, catalog, j);
    }
    if code !in Keys(fields) {
      FieldBucketsAbsent(fields, catalog, code);
    }
  }

  lemma FieldBucketsAbsent(fields: seq<(string, seq<string>)>, catalog: seq<CatalogRecord>, code: string)
    requires code !in Keys(fields)
    ensures Find(FieldBuckets(fields, catalog), code) == None
  {
    var r := FieldBuckets(fields, catalog);
    forall k | 0 <= k < |r| ensures r[k].0 != code {
      var j :| 0 <= j < |fields| && r[k] == (fields[j].0, Filter(catalog, fields[j].1, FieldMatch));
      assert Keys(fields)[j] == fields[j].0;
    }
  }

  lemma {:induction false} FieldBucketsFindAt(fields: seq<(string, seq<string>)>, catalog: seq<CatalogRecord>, j: nat)
    requires NoDup(Keys(fields)) && j < |fields|
    ensures Find(FieldBuckets(fields, catalog), fields[j].0)
      == (var b := Filter(catalog, fields[j].1, FieldMatch); if |b| > 0 then Some(b) else None)
    decreases |fields|
  {
    var code := fields[j].0;
    var b := Filter(catalog, fields[0].1, FieldMatch);
    var head: seq<Bucket> := if |b| > 0 then [(fields[0].0, b)] else [];
    var rest := FieldBuckets(fields[1..], catalog);
    assert FieldBuckets(fields, catalog) == head + rest;
    FindConcat(head, rest, code);
    NoDupKeysTail(fields);
    if j == 0 {
      if |b| == 0 {
        FieldBucketsAbsent(fields[1..], catalog, code);
      }
    } else {
      assert fields[1..][j - 1] == fields[j];
      assert Keys(fields)[0] != Keys(fields)[j];
      FieldBucketsFindAt(fields[1..], catalog, j - 1);
    }
  }

  /** `classify_by_field`, field by field: with distinct field codes, none of
      them `"99"`, a field's code holds exactly its matching records in
      catalog order when there are some, and `"99"` holds exactly the records
      no field matches, present only when there are some and the field
      buckets' total size, counting a record once per field it matches, is
      below the catalog size. */
  lemma ClassifySpec(fields: seq<(string, seq<string>)>, catalog: seq<CatalogRecord>)
    requires NoDup(Keys(fields)) && "99" !in Keys(fields)
    ensures forall j :: 0 <= j < |fields| ==>
      Find(ClassifyWith(fields, catalog), fields[j].0)
        == (var b := Filter(catalog, fields[j].1, FieldMatch); if |b| > 0 then Some(b) else None)
    ensures var rest := Filter(catalog, fields, Unclassified);
      Find(ClassifyWith(fields, catalog), "99")
        == if Hits(fields, catalog) < |catalog| && |rest| > 0 then Some(rest) else None
    ensures forall j, x :: 0 <= j < |fields| ==> (x in Filter(catalog, fields[j].1, FieldMatch) <==> x in catalog && FieldMatch(fields[j].1, x))
    ensures forall x :: x in Filter(catalog, fields, Unclassified) <==> x in catalog && !Classified(fields, x)
  {
    var buckets := FieldBuckets(fields, catalog);
    var rest := Filter(catalog, fields, Unclassified);
    TotalIsHits(fields, catalog);
    FilterMembers(catalog, fields, Unclassified);
    forall j | 0 <= j < |fields| ensures (var b := Filter(catalog, fields[j].1, FieldMatch);
      Find(ClassifyWith(fields, catalog), fields[j].0) == if |b| > 0 then Some(b) else None)
    {
      FieldBucketsFind(fields, catalog, fields[j].0);
      FindConcat(buckets, [("99", rest)], fields[j].0);
      assert fields[j].0 == Keys(fields)[j];
    }
    FieldBucketsFind(fields, catalog, "99");
    FindConcat(buckets, [("99", rest)], "99");
    forall j | 0 <= j < |fields| ensures forall x :: x in Filter(catalog, fields[j].1, FieldMatch) <==> x in catalog && FieldMatch(fields[j].1, x) {
      FilterMembers(catalog, fields[j].1, FieldMatch);
    }
  }

  /** The order of `classify_by_field`'s dict, which is the row order of
      the combined catalog: the field buckets in field declaration order,
      then `"99"` last when it is present. */
  lemma ClassifyOrder(fields: seq<(string, seq<string>)>, catalog: seq<CatalogRecord>)
    ensures var r := ClassifyWith(fields, catalog);
      var n := |FieldBuckets(fields, catalog)|;
      && n <= |r| <= n + 1
      && (exists idx :: PicksInOrder(fields, catalog, r[..n], idx))
      && (|r| > n ==> r[n] == ("99", Filter(catalog, fields, Unclassified)))
  {
    var r := ClassifyWith(fields, catalog);
    var buckets := FieldBuckets(fields, catalog);
    FieldBucketsOrder(fields, catalog);
    assert r[..|buckets|] == buckets;
  }

  /** Buckets are not exclusive: a record that two fields' keywords match is
      listed under both codes. */
  lemma SharedRecord(fields: seq<(string, seq<string>)>, catalog: seq<CatalogRecord>, x: CatalogRecord, i: nat, j: nat)
    requires NoDup(Keys(fields)) && "99" !in Keys(fields)
    requires i < |fields| && j < |fields| && x in catalog
    requires FieldMatch(fields[i].1, x) && FieldMatch(fields[j].1, x)
    ensures var r := ClassifyWith(fields, catalog);
      && Find(r, fields[i].0).Some? && x in Find(r, fields[i].0).value
      && Find(r, fields[j].0).Some? && x in Find(r, fields[j].0).value
  {
    ClassifySpec(fields, catalog);
    FilterMembers(catalog, fields[i].1, FieldMatch);
    FilterMembers(catalog, fields[j].1, FieldMatch);
    assert x in Filter(catalog, fields[i].1, FieldMatch) && x in Filter(catalog, fields[j].1, FieldMatch);
  }

  /** When one record matches two fields, the duplicate count hides an
      unclassified record: no bucket, `"99"` included, lists it. */
  lemma UnclassifiedDropped(fields: seq<(string, seq<string>)>, a: CatalogRecord, b: CatalogRecord, i: nat, j: nat)
    requires i < j < |fields|
    requires FieldMatch(fields[i].1, a) && FieldMatch(fields[j].1, a) && !Classified(fields, b)
    ensures Unclassified(fields, b)
    ensures ClassifyWith(fields, [a, b]) == FieldBuckets(fields, [a, b])
    ensures forall k :: 0 <= k < |ClassifyWith(fields, [a, b])| ==> b !in ClassifyWith(fields, [a, b])[k].1
  {
    var catalog := [a, b];
    TotalIsHits(fields, catalog);
    HitsAtLeastTwo(fields, catalog, i, j);
    assert a in Filter(catalog, fields[i].1, FieldMatch) && a in Filter(catalog, fields[j].1, FieldMatch);
    assert ClassifyWith(fields, catalog) == FieldBuckets(fields, catalog);
    forall k | 0 <= k < |FieldBuckets(fields, catalog)| ensures b !in FieldBuckets(fields, catalog)[k].1 {
      var f :| 0 <= f < |fields| && FieldBuckets(fields, catalog)[k] == (fields[f].0, Filter(catalog, fields[f].1, FieldMatch));
      FilterMembers(catalog, fields[f].1, FieldMatch);
    }
  }

  lemma FieldCodesListed()
    ensures Keys(FieldKeywords) == ["01", "02", "03", "04", "05", "06", "07", "08", "09", "10", "11", "12", "13", "14"]
  {
    var k := Keys(FieldKeywords);
    assert k[0] == "01" && k[1] == "02" && k[2] == "03" && k[3] == "04" && k[4] == "05";
    assert k[5] == "06" && k[6] == "07" && k[7] == "08" && k[8] == "09" && k[9] == "10";
    assert k[10] == "11" && k[11] == "12" && k[12] == "13" && k[13] == "14";
  }

  /** Two-character codes that differ in some position. */
  lemma DistinctCodes(codes: seq<string>)
    requires codes == ["01", "02", "03", "04", "05", "06", "07", "08", "09", "10", "11", "12", "13", "14"]
    ensures NoDup(codes) && "99" !in codes
  {
    forall i, j | 0 <= i < j < |codes| ensures codes[i] != codes[j] {
      assert codes[i][0] != codes[j][0] || codes[i][1] != codes[j][1];
    }
    forall i | 0 <= i < |codes| ensures codes[i] != "99" {
      assert codes[i][0] != '9';
    }
  }

  lemma ShippedCodes()
    ensures NoDup(Keys(FieldKeywords)) && "99" !in Keys(FieldKeywords)
    ensures FieldKeywords[0].0 == "01" && FieldKeywords[2].0 == "03"
  {
    FieldCodesListed();
    DistinctCodes(Keys(FieldKeywords));
  }

  lemma SampleMatches(x: CatalogRecord)
    requires x == CatalogRecord(Some("人口"), Some("労働"), None, None)
    ensures FieldMatch(FieldKeywords[0].1, x) && FieldMatch(FieldKeywords[2].1, x)
  {
    assert Lower("人口") == "人口" && Lower("労働") == "労働";
    ContainsSelf("人口");
    ContainsSelf("労働");
    assert FieldKeywords[0].1[0] == "人口" && FieldKeywords[2].1[0] == "労働";
  }

  /** A record matched by two fields next to one matched by none: the first
      is listed under both codes, there is no `"99"` bucket, and the second
      is listed nowhere. */
  lemma SharedAndDropped(fields: seq<(string, seq<string>)>, x: CatalogRecord, y: CatalogRecord, i: nat, j: nat)
    requires NoDup(Keys(fields)) && "99" !in Keys(fields)
    requires i < j < |fields|
    requires FieldMatch(fields[i].1, x) && FieldMatch(fields[j].1, x) && !Classified(fields, y)
    ensures var r := ClassifyWith(fields, [x, y]);
      && Find(r, fields[i].0).Some? && x in Find(r, fields[i].0).value
      && Find(r, fields[j].0).Some? && x in Find(r, fields[j].0).value
      && Find(r, "99").None?
      && forall k :: 0 <= k < |r| ==> y !in r[k].1
  {
    SharedRecord(fields, [x, y], x, i, j);
    UnclassifiedDropped(fields, x, y, i, j);
    FieldBucketsFind(fields, [x, y], "99");
  }

  /** A record with no text matches no field. */
  lemma BlankUnclassified(fields: seq<(string, seq<string>)>, y: CatalogRecord)
    requires y.statName.None? && y.govOrg.None? && y.mainCategory.None?
    ensures !Classified(fields, y)
  {
  }

  /** The shipped keyword table has fourteen distinct codes, none `"99"`, so
      the properties above hold of `classify_by_field`; in particular a
      record naming `人口` from an agency naming `労働` sits in buckets
      `"01"` and `"03"` at once, and a record with no text alongside it is
      in no bucket at all. */
  lemma ShippedClassification(x: CatalogRecord, y: CatalogRecord)
    requires x == CatalogRecord(Some("人口"), Some("労働"), None, None)
    requires y == CatalogRecord(None, None, None, None)
    ensures NoDup(Keys(FieldKeywords)) && "99" !in Keys(FieldKeywords)
    ensures var r := Classify([x, y]);
      && Find(r, "01").Some? && x in Find(r, "01").value
      && Find(r, "03").Some? && x in Find(r, "03").value
      && Find(r, "99").None?
      && forall k :: 0 <= k < |r| ==> y !in r[k].1
  {
    ShippedCodes();
    SampleMatches(x);
    BlankUnclassified(FieldKeywords, y);
    SharedAndDropped(FieldKeywords, x, y, 0, 2);
  }

  // ---------------------------------------------------------------------
  // The combined catalog and the record counts

  /** A row of the combined CSV: the record with its bucket's code and name. */
  datatype CombinedRow = CombinedRow(fieldCode: string, fieldName: string, record: CatalogRecord)

  function Tagged(code: string, rows: seq<CatalogRecord>): (r: seq<CombinedRow>)
    ensures |r| == |rows|
    ensures forall k :: 0 <= k < |rows| ==> r[k] == CombinedRow(code, FieldName(code), rows[k])
  {
    seq(|rows|, k requires 0 <= k < |rows| => CombinedRow(code, FieldName(code), rows[k]))
  }

  /** `pd.concat(all_data, ignore_index=True)`: the buckets' rows one bucket
      after another, each tagged with its bucket. */
  function Combine(buckets: seq<Bucket>): seq<CombinedRow> {
    if |buckets| == 0 then [] else Tagged(buckets[0].0, buckets[0].1) + Combine(buckets[1..])
  }

  /** The summary's `total_records` and per-field `record_count`. */
  function TotalRecords(buckets: seq<Bucket>): nat {
    Total(buckets)
  }

  function RecordCount(buckets: seq<Bucket>, code: string): Option<nat> {
    match Find(buckets, code)
    case None => None
    case Some(rows) => Some(|rows|)
  }

  predicate FromBucket(b: Bucket, row: CombinedRow) {
    row.fieldCode == b.0 && row.fieldName == FieldName(b.0) && row.record in b.1
  }

  /** The row carries the code and name of a bucket holding its record. */
  predicate CombinedFrom(buckets: seq<Bucket>, row: CombinedRow) {
    exists i :: 0 <= i < |buckets| && FromBucket(buckets[i], row)
  }

  /** The combined catalog has `total_records` rows; each row carries the
      code and name of a bucket holding its record, and every record of
      every bucket appears under that bucket's code. */
  lemma {:induction false} CombineSpec(buckets: seq<Bucket>)
    ensures |Combine(buckets)| == TotalRecords(buckets)
    ensures forall k :: 0 <= k < |Combine(buckets)| ==> CombinedFrom(buckets, Combine(buckets)[k])
    ensures forall i, x :: 0 <= i < |buckets| && x in buckets[i].1 ==>
      CombinedRow(buckets[i].0, FieldName(buckets[i].0), x) in Combine(buckets)
    decreases |buckets|
  {
    if |buckets| > 0 {
      CombineSpec(buckets[1..]);
      var head := Tagged(buckets[0].0, buckets[0].1);
      var rest := Combine(buckets[1..]);
      forall k | 0 <= k < |Combine(buckets)| ensures CombinedFrom(buckets, Combine(buckets)[k]) {
        if k < |head| {
          assert Combine(buckets)[k] == head[k];
        } else {
          assert Combine(buckets)[k] == rest[k - |head|];
          var i :| 0 <= i < |buckets| - 1 && FromBucket(buckets[1..][i], rest[k - |head|]);
          assert buckets[1..][i] == buckets[i + 1];
        }
      }
      forall i, x | 0 <= i < |buckets| && x in buckets[i].1
        ensures CombinedRow(buckets[i].0, FieldName(buckets[i].0), x) in Combine(buckets)
      {
        if i == 0 {
          var k :| 0 <= k < |buckets[0].1| && buckets[0].1[k] == x;
          assert head[k] == CombinedRow(buckets[0].0, FieldName(buckets[0].0), x);
        } else {
          assert buckets[1..][i - 1] == buckets[i];
        }
      }
    }
  }

  /** `record_count` of a field is the number of rows its bucket holds. */
  lemma RecordCountSpec(fields: seq<(string, seq<string>)>, catalog: seq<CatalogRecord>, j: nat)
    requires NoDup(Keys(fields)) && "99" !in Keys(fields) && j < |fields|
    ensures RecordCount(ClassifyWith(fields, catalog), fields[j].0)
      == (var n := |Filter(catalog, fields[j].1, FieldMatch)|; if n > 0 then Some(n) else None)
  {
    ClassifySpec(fields, catalog);
  }

  // ---------------------------------------------------------------------
  // The catalog index

  /** A survey: a (`STAT_NAME`, `GOV_ORG`) pair. */
  type Survey = (string, string)

  predicate OfSurvey(p: Survey, r: CatalogRecord) {
    r.statName == Some(p.0) && r.govOrg == Some(p.1)
  }

  /** The survey of every row with both columns present, in row order
      (`groupby` drops rows with a missing key). */
  function SurveysOf(rows: seq<CatalogRecord>): (r: seq<Survey>)
    ensures forall p :: p in r <==> exists k :: 0 <= k < |rows| && OfSurvey(p, rows[k])
  {
    if |rows| == 0 then []
    else
      var rest := SurveysOf(rows[1..]);
      assert forall k :: 0 < k < |rows| ==> rows[k] == rows[1..][k - 1];
      match (rows[0].statName, rows[0].govOrg)
      case (Some(n), Some(o)) => [(n, o)] + rest
      case _ => rest
  }

  /** `groupby` key order: by statistic name, then by organisation. */
  predicate SurveyLe(a: Survey, b: Survey) {
    if a.0 == b.0 then LexLe(a.1, b.1) else LexLe(a.0, b.0)
  }

  lemma SurveyLeTotalPreorder()
    ensures TotalPreorder(SurveyLe)
  {
    forall a: Survey, b: Survey ensures SurveyLe(a, b) || SurveyLe(b, a) {
      LexLeTotal(a.0, b.0);
      LexLeTotal(a.1, b.1);
    }
    forall a: Survey, b: Survey, c: Survey | SurveyLe(a, b) && SurveyLe(b, c) ensures SurveyLe(a, c) {
      if a.0 == b.0 && b.0 == c.0 {
        LexLeTrans(a.1, b.1, c.1);
      } else if a.0 == b.0 || b.0 == c.0 {
      } else {
        LexLeTrans(a.0, b.0, c.0);
        if a.0 == c.0 {
          LexLeAntisym(a.0, b.0);
        }
      }
    }
  }

  /** The distinct surveys of a bucket, in `groupby` key order. */
  function Groups(rows: seq<CatalogRecord>): seq<Survey> {
    Sort(Dedup(SurveysOf(rows)), SurveyLe)
  }

  /** The groups are the surveys with a row in the bucket, each once, in
      strictly increasing key order. */
  lemma GroupsSpec(rows: seq<CatalogRecord>)
    ensures NoDup(Groups(rows))
    ensures forall i, j :: 0 <= i < j < |Groups(rows)| ==> SurveyLe(Groups(rows)[i], Groups(rows)[j]) && !SurveyLe(Groups(rows)[j], Groups(rows)[i])
    ensures forall p :: p in Groups(rows) <==> exists k :: 0 <= k < |rows| && OfSurvey(p, rows[k])
  {
    var d := Dedup(SurveysOf(rows));
    var g := Groups(rows);
    SurveyLeTotalPreorder();
    SortSorted(d, SurveyLe);
    PermutationNoDup(d, g);
    forall p ensures p in g <==> p in d {
      assert p in g <==> p in multiset(g);
      assert p in d <==> p in multiset(d);
    }
    forall i, j | 0 <= i < j < |g| ensures !SurveyLe(g[j], g[i]) {
      if SurveyLe(g[j], g[i]) {
        if g[i].0 == g[j].0 {
          LexLeAntisym(g[i].1, g[j].1);
        } else {
          LexLeAntisym(g[i].0, g[j].0);
        }
      }
    }
  }

  /** The greatest present survey date, `None` when there is none. */
  function MaxDate(rows: seq<CatalogRecord>): Option<string> {
    if |rows| == 0 then None
    else
      var rest := MaxDate(rows[1..]);
      match rows[0].surveyDate
      case None => rest
      case Some(d) => if rest.Some? && !LexLe(rest.value, d) then rest else Some(d)
  }

  predicate Dated(rows: seq<CatalogRecord>, d: string) {
    exists k :: 0 <= k < |rows| && rows[k].surveyDate == Some(d)
  }

  predicate NoLaterThan(rows: seq<CatalogRecord>, d: string) {
    forall k :: 0 <= k < |rows| && rows[k].surveyDate.Some? ==> LexLe(rows[k].surveyDate.value, d)
  }

  /** Some rows have a survey date and some lack one. */
  predicate MixedDates(rows: seq<CatalogRecord>) {
    (exists i :: 0 <= i < |rows| && rows[i].surveyDate.Some?)
    && (exists j :: 0 <= j < |rows| && rows[j].surveyDate.None?)
  }

  /** `Series.max()` of an object column of survey dates: missing cells are
      padded with `-inf` before the comparison, so a text date next to a
      missing one raises `TypeError`; with no date at all the result is
      NaN, here `None`. */
  function LatestDate(rows: seq<CatalogRecord>): Result<Option<string>> {
    if MixedDates(rows) then Failure("TypeError") else Success(MaxDate(rows))
  }

  /** The maximum is the date of some row and no row has a later one; it is
      absent exactly when no row has a date. */
  lemma {:induction false} MaxDateSpec(rows: seq<CatalogRecord>)
    ensures MaxDate(rows).None? <==> forall k :: 0 <= k < |rows| ==> rows[k].surveyDate.None?
    ensures MaxDate(rows).Some? ==> Dated(rows, MaxDate(rows).value) && NoLaterThan(rows, MaxDate(rows).value)
    decreases |rows|
  {
    if |rows| > 0 {
      var rest := rows[1..];
      MaxDateSpec(rest);
      assert forall k :: 0 < k < |rows| ==> rows[k] == rest[k - 1];
      var l := MaxDate(rows);
      if l.Some? {
        if rows[0].surveyDate.Some? && l == rows[0].surveyDate {
          var d := rows[0].surveyDate.value;
          assert Dated(rows, d) by { assert rows[0].surveyDate == Some(d); }
          forall k | 0 <= k < |rows| && rows[k].surveyDate.Some? ensures LexLe(rows[k].surveyDate.value, d) {
            if k == 0 {
              LexLeTotal(d, d);
            } else {
              LexLeTrans(rows[k].surveyDate.value, MaxDate(rest).value, d);
            }
          }
        } else {
          var k0 :| 0 <= k0 < |rest| && rest[k0].surveyDate == l;
          assert rows[k0 + 1].surveyDate == l;
          if rows[0].surveyDate.Some? {
            LexLeTotal(l.value, rows[0].surveyDate.value);
          }
        }
      }
    }
  }

  /** The latest date fails exactly when dated and undated rows are mixed;
      it is absent when no row has a date, and otherwise every row has one
      and it is the date of some row, no row having a later one. */
  lemma LatestSpec(rows: seq<CatalogRecord>)
    ensures LatestDate(rows).Failure? <==> MixedDates(rows)
    ensures LatestDate(rows) == Success(None) <==> forall k :: 0 <= k < |rows| ==> rows[k].surveyDate.None?
    ensures LatestDate(rows).Success? && LatestDate(rows).value.Some? ==>
      var d := LatestDate(rows).value.value;
      (forall k :: 0 <= k < |rows| ==> rows[k].surveyDate.Some?) && Dated(rows, d) && NoLaterThan(rows, d)
  {
    MaxDateSpec(rows);
  }

  /** A dated row next to an undated one makes the maximum fail. */
  lemma MixedDatesFail(dated: CatalogRecord, undated: CatalogRecord)
    requires dated.surveyDate.Some? && undated.surveyDate.None?
    ensures LatestDate([dated, undated]).Failure?
  {
    assert [dated, undated][0] == dated && [dated, undated][1] == undated;
  }

  /** A row of `create_catalog_index`. */
  datatype IndexRow = IndexRow(
    fieldCode: string,
    fieldName: string,
    statName: string,
    organization: string,
    tableCount: nat,
    latestSurvey: Option<string>)

  /** The index row of one survey of one bucket; it fails when the
      survey's rows mix dated and undated ones. */
  function IndexRowFor(code: string, rows: seq<CatalogRecord>, p: Survey): Result<IndexRow> {
    var matching := Filter(rows, p, OfSurvey);
    match LatestDate(matching)
    case Failure(e) => Failure(e)
    case Success(latest) => Success(IndexRow(code, FieldName(code), p.0, p.1, |matching|, latest))
  }

  /** The index rows of one bucket's surveys, failing with the first survey
      that fails. */
  function BucketIndex(code: string, rows: seq<CatalogRecord>, groups: seq<Survey>): (r: Result<seq<IndexRow>>)
    ensures r.Success? <==> forall k :: 0 <= k < |groups| ==> IndexRowFor(code, rows, groups[k]).Success?
    ensures r.Success? ==> |r.value| == |groups|
    ensures r.Success? ==> forall k :: 0 <= k < |groups| ==> Success(r.value[k]) == IndexRowFor(code, rows, groups[k])
  {
    if forall k :: 0 <= k < |groups| ==> IndexRowFor(code, rows, groups[k]).Success? then
      Success(seq(|groups|, k requires 0 <= k < |groups| => IndexRowFor(code, rows, groups[k]).value))
    else
      Failure("TypeError")
  }

  /** `create_catalog_index`: bucket by bucket, one row per survey. */
  function CatalogIndex(buckets: seq<Bucket>): Result<seq<IndexRow>> {
    if |buckets| == 0 then Success([])
    else
      match BucketIndex(buckets[0].0, buckets[0].1, Groups(buckets[0].1))
      case Failure(e) => Failure(e)
      case Success(head) =>
        match CatalogIndex(buckets[1..])
        case Failure(e) => Failure(e)
        case Success(rest) => Success(head + rest)
  }

  /** An index row describes one survey of the bucket: it fails exactly when
      the survey's rows mix dated and undated ones; otherwise `table_count`
      is the number of the bucket's rows of that survey, which is at least
      one, and `latest_survey` is the latest date among them, absent when
      none of them has one. */
  lemma IndexRowSpec(code: string, rows: seq<CatalogRecord>, p: Survey)
    requires p in Groups(rows)
    ensures IndexRowFor(code, rows, p).Failure? <==> MixedDates(Filter(rows, p, OfSurvey))
    ensures IndexRowFor(code, rows, p).Success? ==>
      var r := IndexRowFor(code, rows, p).value;
      && r.fieldCode == code && r.fieldName == FieldName(code)
      && (r.statName, r.organization) == p
      && r.tableCount > 0 && r.tableCount == |Filter(rows, p, OfSurvey)|
      && (r.latestSurvey.None? <==> forall k :: 0 <= k < |rows| && OfSurvey(p, rows[k]) ==> rows[k].surveyDate.None?)
      && (r.latestSurvey.Some? ==>
            (exists k :: 0 <= k < |rows| && OfSurvey(p, rows[k]) && rows[k].surveyDate == r.latestSurvey)
            && forall k :: 0 <= k < |rows| && OfSurvey(p, rows[k]) && rows[k].surveyDate.Some? ==>
                 LexLe(rows[k].surveyDate.value, r.latestSurvey.value))
  {
    GroupsSpec(rows);
    var matching := Filter(rows, p, OfSurvey);
    FilterMembers(rows, p, OfSurvey);
    var k0 :| 0 <= k0 < |rows| && OfSurvey(p, rows[k0]);
    assert rows[k0] in matching;
    LatestSpec(matching);
    LatestOfSurvey(rows, p, matching);
  }

  /** The latest date among the rows of one survey, stated over the whole
      bucket. */
  lemma LatestOfSurvey(rows: seq<CatalogRecord>, p: Survey, matching: seq<CatalogRecord>)
    requires forall x :: x in matching <==> x in rows && OfSurvey(p, x)
    ensures MaxDate(matching).None? <==> forall k :: 0 <= k < |rows| && OfSurvey(p, rows[k]) ==> rows[k].surveyDate.None?
    ensures MaxDate(matching).Some? ==>
      (exists k :: 0 <= k < |rows| && OfSurvey(p, rows[k]) && rows[k].surveyDate == MaxDate(matching))
      && forall k :: 0 <= k < |rows| && OfSurvey(p, rows[k]) && rows[k].surveyDate.Some? ==>
           LexLe(rows[k].surveyDate.value, MaxDate(matching).value)
  {
    MaxDateSpec(matching);
    var l := MaxDate(matching);
    forall k | 0 <= k < |rows| && OfSurvey(p, rows[k]) ensures rows[k] in matching {
    }
    if l.Some? {
      var j :| 0 <= j < |matching| && matching[j].surveyDate == l;
      assert matching[j] in matching;
      var k :| 0 <= k < |rows| && rows[k] == matching[j];
      forall k | 0 <= k < |rows| && OfSurvey(p, rows[k]) && rows[k].surveyDate.Some?
        ensures LexLe(rows[k].surveyDate.value, l.value)
      {
        var j :| 0 <= j < |matching| && matching[j] == rows[k];
      }
    } else {
      forall k | 0 <= k < |rows| && OfSurvey(p, rows[k]) ensures rows[k].surveyDate.None? {
        var j :| 0 <= j < |matching| && matching[j] == rows[k];
      }
    }
  }

  predicate IndexedFrom(buckets: seq<Bucket>, row: IndexRow) {
    exists i, p :: 0 <= i < |buckets| && p in Groups(buckets[i].1) && IndexRowFor(buckets[i].0, buckets[i].1, p) == Success(row)
  }

  /** Some survey of some bucket cannot be indexed. */
  predicate SomeSurveyFails(buckets: seq<Bucket>) {
    exists i, p :: 0 <= i < |buckets| && p in Groups(buckets[i].1) && IndexRowFor(buckets[i].0, buckets[i].1, p).Failure?
  }

  /** The index fails exactly when some survey of some bucket does. Otherwise
      every index row is the row of a survey of some bucket, and every survey
      of every bucket has its row. */
  lemma CatalogIndexSpec(buckets: seq<Bucket>)
    ensures CatalogIndex(buckets).Failure? <==> SomeSurveyFails(buckets)
    ensures CatalogIndex(buckets).Success? ==>
      forall k :: 0 <= k < |CatalogIndex(buckets).value| ==> IndexedFrom(buckets, CatalogIndex(buckets).value[k])
    ensures CatalogIndex(buckets).Success? ==> forall i, p :: 0 <= i < |buckets| && p in Groups(buckets[i].1) ==>
      IndexRowFor(buckets[i].0, buckets[i].1, p).Success?
      && IndexRowFor(buckets[i].0, buckets[i].1, p).value in CatalogIndex(buckets).value
  {
    CatalogIndexFails(buckets);
    CatalogIndexSound(buckets);
    CatalogIndexComplete(buckets);
  }

  lemma {:induction false} CatalogIndexFails(buckets: seq<Bucket>)
    ensures CatalogIndex(buckets).Failure? <==> SomeSurveyFails(buckets)
    decreases |buckets|
  {
    if |buckets| > 0 {
      CatalogIndexFails(buckets[1..]);
      if CatalogIndex(buckets).Failure? {
        FailureWitnessed(buckets);
      }
      WitnessFails(buckets);
    }
  }

  lemma {:induction false} FailureWitnessed(buckets: seq<Bucket>)
    requires |buckets| > 0 && CatalogIndex(buckets).Failure?
    requires CatalogIndex(buckets[1..]).Failure? ==> SomeSurveyFails(buckets[1..])
    ensures SomeSurveyFails(buckets)
  {
    var g := Groups(buckets[0].1);
    if BucketIndex(buckets[0].0, buckets[0].1, g).Failure? {
      var k :| 0 <= k < |g| && IndexRowFor(buckets[0].0, buckets[0].1, g[k]).Failure?;
      assert g[k] in Groups(buckets[0].1);
    } else {
      var i, p :| 0 <= i < |buckets| - 1 && p in Groups(buckets[1..][i].1)
        && IndexRowFor(buckets[1..][i].0, buckets[1..][i].1, p).Failure?;
      assert buckets[1..][i] == buckets[i + 1];
    }
  }

  lemma {:induction false} WitnessFails(buckets: seq<Bucket>)
    requires |buckets| > 0
    requires SomeSurveyFails(buckets[1..]) ==> CatalogIndex(buckets[1..]).Failure?
    ensures SomeSurveyFails(buckets) ==> CatalogIndex(buckets).Failure?
  {
    if SomeSurveyFails(buckets) {
      var i, p :| 0 <= i < |buckets| && p in Groups(buckets[i].1) && IndexRowFor(buckets[i].0, buckets[i].1, p).Failure?;
      if i == 0 {
        var g := Groups(buckets[0].1);
        var k :| 0 <= k < |g| && g[k] == p;
        assert BucketIndex(buckets[0].0, buckets[0].1, g).Failure?;
      } else {
        assert buckets[1..][i - 1] == buckets[i];
        assert SomeSurveyFails(buckets[1..]);
      }
    }
  }

  lemma {:induction false} CatalogIndexSound(buckets: seq<Bucket>)
    ensures CatalogIndex(buckets).Success? ==>
      forall k :: 0 <= k < |CatalogIndex(buckets).value| ==> IndexedFrom(buckets, CatalogIndex(buckets).value[k])
    decreases |buckets|
  {
    if |buckets| > 0 && CatalogIndex(buckets).Success? {
      CatalogIndexSound(buckets[1..]);
      var head := BucketIndex(buckets[0].0, buckets[0].1, Groups(buckets[0].1)).value;
      var rest := CatalogIndex(buckets[1..]).value;
      assert CatalogIndex(buckets).value == head + rest;
      forall k | 0 <= k < |head| + |rest| ensures IndexedFrom(buckets, (head + rest)[k]) {
        if k < |head| {
          assert Groups(buckets[0].1)[k] in Groups(buckets[0].1);
          assert (head + rest)[k] == head[k];
        } else {
          IndexedFromTail(buckets, rest[k - |head|]);
          assert (head + rest)[k] == rest[k - |head|];
        }
      }
    }
  }

  lemma IndexedFromTail(buckets: seq<Bucket>, row: IndexRow)
    requires |buckets| > 0
    ensures IndexedFrom(buckets[1..], row) ==> IndexedFrom(buckets, row)
  {
    if IndexedFrom(buckets[1..], row) {
      var i, p :| 0 <= i < |buckets| - 1 && p in Groups(buckets[1..][i].1)
        && IndexRowFor(buckets[1..][i].0, buckets[1..][i].1, p) == Success(row);
      assert buckets[1..][i] == buckets[i + 1];
    }
  }

  lemma {:induction false} CatalogIndexComplete(buckets: seq<Bucket>)
    ensures CatalogIndex(buckets).Success? ==> forall i, p :: 0 <= i < |buckets| && p in Groups(buckets[i].1) ==>
      IndexRowFor(buckets[i].0, buckets[i].1, p).Success?
      && IndexRowFor(buckets[i].0, buckets[i].1, p).value in CatalogIndex(buckets).value
    decreases |buckets|
  {
    if |buckets| > 0 && CatalogIndex(buckets).Success? {
      CatalogIndexComplete(buckets[1..]);
      var head := BucketIndex(buckets[0].0, buckets[0].1, Groups(buckets[0].1)).value;
      var rest := CatalogIndex(buckets[1..]).value;
      assert CatalogIndex(buckets).value == head + rest;
      forall i, p | 0 <= i < |buckets| && p in Groups(buckets[i].1)
        ensures IndexRowFor(buckets[i].0, buckets[i].1, p).Success?
          && IndexRowFor(buckets[i].0, buckets[i].1, p).value in CatalogIndex(buckets).value
      {
        if i == 0 {
          var k :| 0 <= k < |Groups(buckets[0].1)| && Groups(buckets[0].1)[k] == p;
          assert Success(head[k]) == IndexRowFor(buckets[0].0, buckets[0].1, p);
        } else {
          assert buckets[1..][i - 1] == buckets[i];
        }
      }
    }
  }
}
