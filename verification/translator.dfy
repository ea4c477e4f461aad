/** The rule-based query translator: entity extraction from a Japanese
    query, catalog search, API parameter generation, confidence scoring and
    ranking, plus the assistant-backed variant and query completion. */
module Translator {
  import opened Wrappers
  import opened Strings
  import opened Seqs
  import opened Sorting
  import opened Json
  import opened CatalogStore
  import opened Lexicon
  import opened Assistant

  /** What `parse_query` recognises in a query. */
  datatype EntitySet = EntitySet(
    regions: seq<string>,
    timePeriods: seq<string>,
    categories: seq<string>,
    statisticalItems: seq<string>)

  /** One proposed e-Stat request. The id and the name are JSON values
      because the assistant's answer passes through untyped; the catalog
      always supplies strings. */
  datatype QueryResult = QueryResult(
    statsDataId: Value,
    parameters: map<string, string>,
    description: Option<string>,
    confidence: real,
    tableName: Value,
    alternatives: seq<QueryResult>)

  // ---------------------------------------------------------------------
  // Entity extraction

  /** `item in q or any(keyword in q for keyword in keywords)`; the lexicon
      travels with the query so that the predicate can drive a filter. */
  predicate ItemMentioned(ctx: (KnowledgeBase, string), item: string) {
    Contains(ctx.1, item) || AnyIn(ctx.1, ctx.0.Synonyms(item))
  }

  /** `re.findall(r'(\d{4})年?', s)`: scanning left to right, a run of four
      digits is taken and scanning resumes after it. The optional 年 the
      pattern also consumes is not a digit, so it can never start the next
      match and skipping it changes nothing. */
  function FindYears(s: string): seq<string>
    decreases |s|
  {
    if |s| < 4 then []
    else if AllDigits(s[..4]) then [s[..4]] + FindYears(s[4..])
    else FindYears(s[1..])
  }

  predicate AsksLatest(q: string) {
    Contains(q, "最新") || Contains(q, "最近")
  }

  function TimePeriods(q: string): seq<string> {
    FindYears(q) + (if AsksLatest(q) then ["latest"] else [])
  }

  /** The category labels `parse_query` can emit, in the order it checks
      them, and the words that trigger each. */
  const CategoryNames: seq<string> := ["age", "gender", "industry"]

  function CategoryTriggers(category: string): seq<string> {
    if category == "age" then ["年齢", "年代"]
    else if category == "gender" then ["男女", "性別"]
    else if category == "industry" then ["産業", "業種"]
    else []
  }

  predicate CategoryAsked(q: string, category: string) {
    AnyIn(q, CategoryTriggers(category))
  }

  function CategoriesOf(q: string): seq<string> {
    (if Contains(q, "年齢") || Contains(q, "年代") then ["age"] else [])
    + (if Contains(q, "男女") || Contains(q, "性別") then ["gender"] else [])
    + (if Contains(q, "産業") || Contains(q, "業種") then ["industry"] else [])
  }

  /** `parse_query`: every lookup runs on the stripped query. */
  function ParseQuery(kb: KnowledgeBase, query: string): EntitySet {
    var q := Strip(query);
    EntitySet(Filter(kb.AreaNames(), q, Contains), TimePeriods(q), CategoriesOf(q),
              Filter(kb.ItemLabels(), (kb, q), ItemMentioned))
  }

  lemma AreaNamesAreWords(kb: KnowledgeBase)
    requires kb.Valid()
    ensures forall k :: 0 <= k < |kb.AreaNames()| ==> Word(kb.AreaNames()[k])
  {
    forall k | 0 <= k < |kb.AreaNames()| ensures Word(kb.AreaNames()[k]) {
      assert kb.AreaNames()[k] == kb.areas[k].0;
    }
  }

  lemma ItemLabelsAreWords(kb: KnowledgeBase)
    requires kb.Valid()
    ensures forall k :: 0 <= k < |kb.ItemLabels()| ==> Word(kb.ItemLabels()[k])
  {
    forall k | 0 <= k < |kb.ItemLabels()| ensures Word(kb.ItemLabels()[k]) {
      assert kb.ItemLabels()[k] == kb.items[k].0;
    }
  }

  /** Regions are the gazetteer names occurring in the query as given (the
      strip changes nothing), in gazetteer order. */
  lemma ParseQueryRegions(kb: KnowledgeBase, query: string)
    requires kb.Valid()
    ensures ParseQuery(kb, query).regions == Filter(kb.AreaNames(), query, Contains)
    ensures forall n :: n in ParseQuery(kb, query).regions <==> n in kb.AreaNames() && Contains(query, n)
  {
    var names := kb.AreaNames();
    AreaNamesAreWords(kb);
    forall k | 0 <= k < |names| ensures Contains(Strip(query), names[k]) <==> Contains(query, names[k]) {
      ContainsStrip(query, names[k]);
    }
    FilterSame(names, Strip(query), Contains, query, Contains);
    FilterMembers(names, query, Contains);
  }

  /** Items are exactly the labels mentioned by name or synonym, each once. */
  lemma ParseQueryItems(kb: KnowledgeBase, query: string)
    requires kb.Valid()
    ensures forall i :: i in ParseQuery(kb, query).statisticalItems <==>
      i in kb.ItemLabels() && ItemMentioned((kb, Strip(query)), i)
    ensures NoDup(ParseQuery(kb, query).statisticalItems)
  {
    FilterNoDup(kb.ItemLabels(), (kb, Strip(query)), ItemMentioned);
    FilterMembers(kb.ItemLabels(), (kb, Strip(query)), ItemMentioned);
  }

  /** `京都` is part of `東京都`: with the built-in gazetteer, a query naming
      Tokyo-to also yields the regions `東京` and `京都`, and the three come
      in gazetteer order, so `東京` precedes the other two. */
  lemma TokyoAliasing(query: string)
    requires Contains(query, "東京都")
    ensures var r := ParseQuery(Default, query).regions;
      exists a, b, c :: 0 <= a < b < c < |r| && r[a] == "東京" && r[b] == "東京都" && r[c] == "京都"
  {
    TokyoKyotoNames();
    AliasedRegions(Default, query, 24, 50);
  }

  /** For any gazetteer listing `東京`, then `東京都`, then later `京都`. */
  lemma AliasedRegions(kb: KnowledgeBase, query: string, i: nat, k: nat)
    requires i + 1 < k < |kb.AreaNames()|
    requires kb.AreaNames()[i] == "東京" && kb.AreaNames()[i + 1] == "東京都" && kb.AreaNames()[k] == "京都"
    requires Contains(query, "東京都")
    ensures var r := ParseQuery(kb, query).regions;
      exists a, b, c :: 0 <= a < b < c < |r| && r[a] == "東京" && r[b] == "東京都" && r[c] == "京都"
  {
    var q := Strip(query);
    ContainsStrip(query, "東京都");
    TokyoParts(q);
    FilterKeepsOrder(kb.AreaNames(), q, Contains, i, k);
  }

  lemma TokyoParts(q: string)
    requires Contains(q, "東京都")
    ensures Contains(q, "東京") && Contains(q, "京都")
  {
    assert "" + "東京" + "都" == "東京都" && "東" + "京都" + "" == "東京都";
    ContainsPart(q, "", "東京", "都");
    ContainsPart(q, "東", "京都", "");
  }

  /** Every match the scan returns is four digits occurring in the text. */
  lemma {:induction false} YearsAreDigitRuns(s: string)
    ensures forall k :: 0 <= k < |FindYears(s)| ==>
      |FindYears(s)[k]| == 4 && AllDigits(FindYears(s)[k]) && Contains(s, FindYears(s)[k])
    decreases |s|
  {
    if |s| >= 4 {
      var y := FindYears(s);
      if AllDigits(s[..4]) {
        YearsAreDigitRuns(s[4..]);
        var rest := FindYears(s[4..]);
        assert s[4..] == s[4..|s|];
        ContainsPrefixOf(s, s[..4]);
        forall k | 0 <= k < |y| ensures |y[k]| == 4 && AllDigits(y[k]) && Contains(s, y[k]) {
          if k > 0 {
            assert y[k] == rest[k - 1];
            ContainsInfix(s, 4, |s|, rest[k - 1]);
          }
        }
      } else {
        YearsAreDigitRuns(s[1..]);
        assert s[1..] == s[1..|s|];
        forall k | 0 <= k < |y| ensures Contains(s, y[k]) {
          ContainsInfix(s, 1, |s|, y[k]);
        }
      }
    }
  }

  /** Every four-digit run that starts a run of digits is found: the scan
      never steps over the start of a digit run. */
  lemma {:induction false} YearFound(s: string, i: nat)
    requires i + 4 <= |s| && AllDigits(s[i..i + 4])
    requires i == 0 || !IsDigit(s[i - 1])
    ensures s[i..i + 4] in FindYears(s)
    decreases i
  {
    if i == 0 {
      assert s[..4] == s[0..4];
    } else if AllDigits(s[..4]) {
      // the run taken at 0 ends before the non-digit at i - 1
      assert forall k :: 0 <= k < 4 ==> IsDigit(s[k]) by {
        forall k | 0 <= k < 4 ensures IsDigit(s[k]) {
          assert s[..4][k] == s[k];
        }
      }
      assert i >= 5;
      assert s[4..][i - 4..i] == s[i..i + 4];
      YearFound(s[4..], i - 4);
    } else {
      assert s[1..][i - 1..i + 3] == s[i..i + 4];
      if i > 1 {
        assert s[1..][i - 2] == s[i - 1];
      }
      YearFound(s[1..], i - 1);
    }
  }

  /** A four-digit block starts at `i`. */
  predicate StartsYear(s: string, i: int) {
    0 <= i && i + 4 <= |s| && AllDigits(s[i..i + 4])
  }

  /** No four-digit block starts in `[lo, hi)`. */
  ghost predicate NoYearIn(s: string, lo: int, hi: int) {
    forall i :: lo <= i < hi ==> !StartsYear(s, i)
  }

  ghost predicate StartsFrom(s: string, from: nat, ps: seq<nat>) {
    forall k :: 0 <= k < |ps| ==> from <= ps[k] && StartsYear(s, ps[k])
  }

  ghost predicate Apart(ps: seq<nat>) {
    forall j, k :: 0 <= j < k < |ps| ==> ps[j] + 4 <= ps[k]
  }

  ghost predicate NoYearBetween(s: string, ps: seq<nat>) {
    forall k :: 0 <= k < |ps| - 1 ==> NoYearIn(s, ps[k] + 4, ps[k + 1])
  }

  /** The starts `re.findall` takes when it scans `s` from `from`: four-digit
      blocks in increasing order without overlap, each the leftmost block at
      or after the end of the previous one (or at `from`), and no block
      after the last. */
  ghost predicate LeftmostBlocks(s: string, from: nat, ps: seq<nat>) {
    && StartsFrom(s, from, ps)
    && Apart(ps)
    && NoYearIn(s, from, if |ps| == 0 then |s| else ps[0])
    && NoYearBetween(s, ps)
    && (|ps| > 0 ==> NoYearIn(s, ps[|ps| - 1] + 4, |s|))
  }

  /** The positions of the scan that `FindYears` performs on `s[from..]`. */
  function YearStarts(s: string, from: nat): seq<nat>
    decreases |s| - from
  {
    if from + 4 > |s| then []
    else if AllDigits(s[from..from + 4]) then [from] + YearStarts(s, from + 4)
    else YearStarts(s, from + 1)
  }

  /** The four-digit blocks of `s` at the given starts. */
  function Blocks(s: string, ps: seq<nat>): seq<string>
    requires forall k :: 0 <= k < |ps| ==> ps[k] + 4 <= |s|
  {
    seq(|ps|, k requires 0 <= k < |ps| => s[ps[k]..ps[k] + 4])
  }

  /** Taking the block at `from` and then scanning on from its end. */
  lemma LeftmostCons(s: string, from: nat, rest: seq<nat>)
    requires StartsYear(s, from) && LeftmostBlocks(s, from + 4, rest)
    ensures LeftmostBlocks(s, from, [from] + rest)
  {
    var ps := [from] + rest;
    assert StartsFrom(s, from, ps) by {
      forall k | 0 <= k < |ps| ensures from <= ps[k] && StartsYear(s, ps[k]) {
        if k > 0 { assert ps[k] == rest[k - 1]; }
      }
    }
    assert Apart(ps) by {
      forall j, k | 0 <= j < k < |ps| ensures ps[j] + 4 <= ps[k] {
        assert ps[k] == rest[k - 1];
        if j > 0 { assert ps[j] == rest[j - 1]; }
      }
    }
    assert NoYearBetween(s, ps) by {
      forall k | 0 <= k < |ps| - 1 ensures NoYearIn(s, ps[k] + 4, ps[k + 1]) {
        assert ps[k + 1] == rest[k];
        if k > 0 { assert ps[k] == rest[k - 1]; }
      }
    }
    if |rest| > 0 {
      assert ps[|ps| - 1] == rest[|rest| - 1];
    }
  }

  /** Stepping over a position where no block starts. */
  lemma LeftmostSkip(s: string, from: nat, ps: seq<nat>)
    requires !StartsYear(s, from) && LeftmostBlocks(s, from + 1, ps)
    ensures LeftmostBlocks(s, from, ps)
  {
  }

  /** The scan's positions are the leftmost non-overlapping blocks. */
  lemma {:induction false} YearStartsLeftmost(s: string, from: nat)
    ensures LeftmostBlocks(s, from, YearStarts(s, from))
    decreases |s| - from
  {
    if from + 4 > |s| {
    } else if AllDigits(s[from..from + 4]) {
      YearStartsLeftmost(s, from + 4);
      LeftmostCons(s, from, YearStarts(s, from + 4));
    } else {
      YearStartsLeftmost(s, from + 1);
      LeftmostSkip(s, from, YearStarts(s, from + 1));
    }
  }

  /** Every start the description lists leaves room for its block. */
  lemma StartsFit(s: string, from: nat, ps: seq<nat>)
    requires StartsFrom(s, from, ps)
    ensures forall k :: 0 <= k < |ps| ==> ps[k] + 4 <= |s|
  {
    forall k | 0 <= k < |ps| ensures ps[k] + 4 <= |s| {
      assert StartsYear(s, ps[k]);
    }
  }

  /** `FindYears` on the rest of `s` from `from` returns the blocks at the
      scan's positions. */
  lemma {:induction false} FindYearsBlocks(s: string, from: nat)
    requires from <= |s|
    ensures forall k :: 0 <= k < |YearStarts(s, from)| ==> YearStarts(s, from)[k] + 4 <= |s|
    ensures FindYears(s[from..]) == Blocks(s, YearStarts(s, from))
    decreases |s| - from
  {
    YearStartsLeftmost(s, from);
    StartsFit(s, from, YearStarts(s, from));
    var t := s[from..];
    if from + 4 > |s| {
      assert |t| < 4;
    } else {
      assert |t| >= 4 && t[..4] == s[from..from + 4];
      if AllDigits(s[from..from + 4]) {
        FindYearsBlocks(s, from + 4);
        var rest := YearStarts(s, from + 4);
        assert t[4..] == s[from + 4..];
        assert FindYears(t) == [t[..4]] + FindYears(t[4..]);
        BlocksCons(s, from, rest);
      } else {
        FindYearsBlocks(s, from + 1);
        assert t[1..] == s[from + 1..];
        assert FindYears(t) == FindYears(t[1..]);
      }
    }
  }

  lemma BlocksCons(s: string, p: nat, rest: seq<nat>)
    requires p + 4 <= |s| && forall k :: 0 <= k < |rest| ==> rest[k] + 4 <= |s|
    ensures forall k :: 0 <= k < |[p] + rest| ==> ([p] + rest)[k] + 4 <= |s|
    ensures Blocks(s, [p] + rest) == [s[p..p + 4]] + Blocks(s, rest)
  {
    var ps := [p] + rest;
    forall k | 0 <= k < |ps| ensures ps[k] + 4 <= |s| {
      if k > 0 { assert ps[k] == rest[k - 1]; }
    }
    assert Blocks(s, ps)[0] == s[p..p + 4];
    forall k | 1 <= k < |ps| ensures Blocks(s, ps)[k] == Blocks(s, rest)[k - 1] {
      assert ps[k] == rest[k - 1];
    }
  }

  /** After its first block, the description goes on from that block's end,
      and that block is the first one at or after `from`. */
  lemma LeftmostTail(s: string, from: nat, ps: seq<nat>)
    requires LeftmostBlocks(s, from, ps) && |ps| > 0
    ensures LeftmostBlocks(s, ps[0] + 4, ps[1..])
  {
    var t := ps[1..];
    assert StartsFrom(s, ps[0] + 4, t) by {
      forall k | 0 <= k < |t| ensures ps[0] + 4 <= t[k] && StartsYear(s, t[k]) {
        assert t[k] == ps[k + 1];
      }
    }
    assert Apart(t) by {
      forall j, k | 0 <= j < k < |t| ensures t[j] + 4 <= t[k] {
        assert t[j] == ps[j + 1] && t[k] == ps[k + 1];
      }
    }
    assert NoYearBetween(s, t) by {
      forall k | 0 <= k < |t| - 1 ensures NoYearIn(s, t[k] + 4, t[k + 1]) {
        assert t[k] == ps[k + 1] && t[k + 1] == ps[k + 2];
      }
    }
    if |t| > 0 {
      assert NoYearIn(s, ps[0] + 4, t[0]);
      assert t[|t| - 1] == ps[|ps| - 1];
    }
  }

  /** Both lists start with the least block at or after `from`. */
  lemma LeftmostHead(s: string, from: nat, ps: seq<nat>, qs: seq<nat>)
    requires LeftmostBlocks(s, from, ps) && LeftmostBlocks(s, from, qs)
    ensures |ps| == 0 <==> |qs| == 0
    ensures |ps| > 0 ==> ps[0] == qs[0]
  {
    if |ps| > 0 {
      assert StartsYear(s, ps[0]);
    }
    if |qs| > 0 {
      assert StartsYear(s, qs[0]);
    }
  }

  /** Two position lists that both satisfy the leftmost-block description
      are equal: it pins the matches down. */
  lemma {:induction false} LeftmostBlocksUnique(s: string, from: nat, ps: seq<nat>, qs: seq<nat>)
    requires LeftmostBlocks(s, from, ps) && LeftmostBlocks(s, from, qs)
    ensures ps == qs
    decreases |ps|
  {
    LeftmostHead(s, from, ps, qs);
    if |ps| > 0 {
      LeftmostTail(s, from, ps);
      LeftmostTail(s, from, qs);
      LeftmostBlocksUnique(s, ps[0] + 4, ps[1..], qs[1..]);
      assert ps == [ps[0]] + ps[1..] && qs == [qs[0]] + qs[1..];
    }
  }

  /** `re.findall(r'(\d{4})年?', s)` as a description rather than a scan:
      the years are the blocks at the one list of positions that takes, left
      to right, the leftmost four-digit block not overlapping the previous
      one. */
  lemma YearsLeftToRight(s: string, ps: seq<nat>)
    requires LeftmostBlocks(s, 0, ps)
    ensures forall k :: 0 <= k < |ps| ==> ps[k] + 4 <= |s|
    ensures FindYears(s) == Blocks(s, ps)
  {
    YearStartsLeftmost(s, 0);
    LeftmostBlocksUnique(s, 0, ps, YearStarts(s, 0));
    FindYearsBlocks(s, 0);
    assert s[0..] == s;
  }

  /** There is a year iff some four-digit block occurs, and the first year
      (what `cdTime` uses) is the leftmost block. */
  lemma FirstYearLeftmost(s: string)
    ensures |FindYears(s)| > 0 <==> exists i :: StartsYear(s, i)
    ensures forall i :: StartsYear(s, i) && NoYearIn(s, 0, i) ==> FindYears(s)[0] == s[i..i + 4]
  {
    var ps := YearStarts(s, 0);
    YearStartsLeftmost(s, 0);
    FindYearsBlocks(s, 0);
    assert s[0..] == s;
    if |ps| > 0 {
      assert StartsYear(s, ps[0]);
      forall i | StartsYear(s, i) && NoYearIn(s, 0, i) ensures FindYears(s)[0] == s[i..i + 4] {
        LeastStart(s, i, ps[0]);
      }
    } else {
      assert NoYearIn(s, 0, |s|);
      assert forall i :: !StartsYear(s, i);
    }
  }

  /** The least block start is unique. */
  lemma LeastStart(s: string, i: int, j: int)
    requires StartsYear(s, i) && NoYearIn(s, 0, i)
    requires StartsYear(s, j) && NoYearIn(s, 0, j)
    ensures i == j
  {
  }

  /** `"latest"` appears iff `最新` or `最近` does, and only as the last
      period, after the years. */
  lemma TimePeriodsLatestLast(q: string)
    ensures "latest" in TimePeriods(q) <==> AsksLatest(q)
    ensures forall k :: 0 <= k < |TimePeriods(q)| && TimePeriods(q)[k] == "latest" ==>
      k == |TimePeriods(q)| - 1
  {
    YearsAreDigitRuns(q);
    var y := FindYears(q);
    assert !IsDigit('l');
    forall k | 0 <= k < |y| ensures y[k] != "latest" {
      assert IsDigit(y[k][0]);
    }
  }

  /** The categories are the canonical labels, in canonical order, whose
      trigger words occur. */
  lemma CategoriesAreAsked(q: string)
    ensures CategoriesOf(q) == Filter(CategoryNames, q, CategoryAsked)
  {
    CategoryAskedIff(q);
    assert CategoryNames == ["age"] + ["gender"] + ["industry"];
    FilterConcat(["age"] + ["gender"], ["industry"], q, CategoryAsked);
    FilterConcat(["age"], ["gender"], q, CategoryAsked);
    FilterSingle("age", q, CategoryAsked);
    FilterSingle("gender", q, CategoryAsked);
    FilterSingle("industry", q, CategoryAsked);
  }

  lemma CategoryAskedIff(q: string)
    ensures CategoryAsked(q, "age") <==> Contains(q, "年齢") || Contains(q, "年代")
    ensures CategoryAsked(q, "gender") <==> Contains(q, "男女") || Contains(q, "性別")
    ensures CategoryAsked(q, "industry") <==> Contains(q, "産業") || Contains(q, "業種")
  {
    assert CategoryTriggers("age") == ["年齢", "年代"];
    assert CategoryTriggers("gender") == ["男女", "性別"];
    assert CategoryTriggers("industry") == ["産業", "業種"];
    AnyInTwo(q, "年齢", "年代");
    AnyInTwo(q, "男女", "性別");
    AnyInTwo(q, "産業", "業種");
  }


  // ---------------------------------------------------------------------
  // API parameters

  const ParameterKeys: set<string> := {"cdArea", "cdCat01", "cdCat02", "cdTime"}

  /** `cdTime` for the rule path: the fixed latest code when `"latest"` is
      anywhere among the periods, else the first period as a year code. */
  function TimeCode(periods: seq<string>): Option<string> {
    if |periods| == 0 then None
    else if "latest" in periods then Some("2024000000")
    else Some(periods[0] + "000000")
  }

  /** `generate_parameters` */
  function GenerateParameters(kb: KnowledgeBase, e: EntitySet, t: TableInfo): (p: map<string, string>)
    ensures p.Keys <= ParameterKeys
  {
    var area := if |e.regions| > 0 && kb.AreaCode(e.regions[0]).Some?
                then map["cdArea" := kb.AreaCode(e.regions[0]).value] else map[];
    var gender := if "gender" in e.categories && "cdCat02" in t.categories
                  then map["cdCat02" := "002,003"] else map[];
    var age := if "age" in e.categories && "cdCat01" in t.categories
               then map["cdCat01" := "01000-01021"] else map[];
    var time := if TimeCode(e.timePeriods).Some? then map["cdTime" := TimeCode(e.timePeriods).value] else map[];
    area + gender + age + time
  }

  /** Where each key of the parameter map comes from. */
  lemma ParameterSources(kb: KnowledgeBase, e: EntitySet, t: TableInfo)
    ensures var p := GenerateParameters(kb, e, t);
      && ("cdArea" in p <==> |e.regions| > 0 && kb.AreaCode(e.regions[0]).Some?)
      && ("cdArea" in p ==> p["cdArea"] == kb.AreaCode(e.regions[0]).value)
      && ("cdCat02" in p <==> "gender" in e.categories && "cdCat02" in t.categories)
      && ("cdCat02" in p ==> p["cdCat02"] == "002,003")
      && ("cdCat01" in p <==> "age" in e.categories && "cdCat01" in t.categories)
      && ("cdCat01" in p ==> p["cdCat01"] == "01000-01021")
      && ("cdTime" in p <==> TimeCode(e.timePeriods).Some?)
      && ("cdTime" in p ==> p["cdTime"] == TimeCode(e.timePeriods).value)
  {
  }

  /** `k` is the first gazetteer position whose name occurs in `query`. */
  predicate FirstAreaAt(kb: KnowledgeBase, query: string, k: int) {
    0 <= k < |kb.AreaNames()| && Contains(query, kb.AreaNames()[k])
    && forall j :: 0 <= j < k ==> !Contains(query, kb.AreaNames()[j])
  }

  /** The first region is the first gazetteer name the query contains, and
      its code is that entry's code. */
  lemma FirstRegion(kb: KnowledgeBase, query: string, k: int)
    requires kb.Valid() && FirstAreaAt(kb, query, k)
    ensures |ParseQuery(kb, query).regions| > 0 && ParseQuery(kb, query).regions[0] == kb.AreaNames()[k]
    ensures kb.AreaCode(kb.AreaNames()[k]) == Some(kb.areas[k].1)
  {
    var names := kb.AreaNames();
    ParseQueryRegions(kb, query);
    assert names[k] in Filter(names, query, Contains);
    var m := FilterFirst(names, query, Contains);
    assert m == k;
    forall j | 0 <= j < k ensures kb.areas[j].0 != names[k] {
      assert kb.areas[j].0 == names[j];
    }
    FindFirst(kb.areas, names[k], k);
  }

  /** `cdArea` is set iff the query names a gazetteer entry, and then holds
      the code of the first such entry (not necessarily the longest). */
  lemma AreaParameter(kb: KnowledgeBase, query: string, t: TableInfo)
    requires kb.Valid()
    ensures "cdArea" in GenerateParameters(kb, ParseQuery(kb, query), t) <==>
      exists k :: 0 <= k < |kb.AreaNames()| && Contains(query, kb.AreaNames()[k])
    ensures forall k :: FirstAreaAt(kb, query, k) ==>
      "cdArea" in GenerateParameters(kb, ParseQuery(kb, query), t) &&
      GenerateParameters(kb, ParseQuery(kb, query), t)["cdArea"] == kb.areas[k].1
  {
    var e := ParseQuery(kb, query);
    var names := kb.AreaNames();
    ParameterSources(kb, e, t);
    ParseQueryRegions(kb, query);
    if exists k :: 0 <= k < |names| && Contains(query, names[k]) {
      var k :| 0 <= k < |names| && Contains(query, names[k]);
      assert names[k] in e.regions;
      assert e.regions[0] in e.regions;
      var m :| 0 <= m < |names| && names[m] == e.regions[0];
      assert kb.areas[m].0 == e.regions[0];
    }
    forall k | FirstAreaAt(kb, query, k)
      ensures "cdArea" in GenerateParameters(kb, e, t) && GenerateParameters(kb, e, t)["cdArea"] == kb.areas[k].1
    {
      FirstRegion(kb, query, k);
    }
  }

  /** `cdCat02` and `cdCat01` are set iff the query asks for sex or age and
      the table has that axis. */
  lemma CategoryParameters(kb: KnowledgeBase, query: string, t: TableInfo)
    ensures var p := GenerateParameters(kb, ParseQuery(kb, query), t);
      ("cdCat02" in p <==> CategoryAsked(Strip(query), "gender") && "cdCat02" in t.categories)
      && ("cdCat01" in p <==> CategoryAsked(Strip(query), "age") && "cdCat01" in t.categories)
      && ("cdCat02" in p ==> p["cdCat02"] == "002,003")
      && ("cdCat01" in p ==> p["cdCat01"] == "01000-01021")
  {
    ParameterSources(kb, ParseQuery(kb, query), t);
    CategoriesAreAsked(Strip(query));
    FilterMembers(CategoryNames, Strip(query), CategoryAsked);
  }

  /** `cdTime` is set iff the query asks for the latest data or names a
      year; the latest words win over any year. */
  lemma TimeParameter(kb: KnowledgeBase, query: string, t: TableInfo)
    ensures var p := GenerateParameters(kb, ParseQuery(kb, query), t);
      var q := Strip(query);
      ("cdTime" in p <==> AsksLatest(q) || |FindYears(q)| > 0)
      && (AsksLatest(q) ==> p["cdTime"] == "2024000000")
      && (!AsksLatest(q) && |FindYears(q)| > 0 ==> p["cdTime"] == FindYears(q)[0] + "000000")
  {
    ParameterSources(kb, ParseQuery(kb, query), t);
    TimePeriodsLatestLast(Strip(query));
  }

  // ---------------------------------------------------------------------
  // Confidence

  /** `len(set(items) & set(keywords))` */
  function Matched(items: seq<string>, keywords: seq<string>): nat {
    |SetOf(items) * SetOf(keywords)|
  }

  /** Up to 0.6 for the share of recognised items the table lists. */
  function ItemScore(items: seq<string>, keywords: seq<string>): real {
    if |items| == 0 then 0.0 else 0.6 * (Matched(items, keywords) as real) / (|items| as real)
  }

  /** `any(region in available_areas for region in regions)` */
  predicate AreaListed(regions: seq<string>, areas: seq<string>) {
    exists k :: 0 <= k < |regions| && regions[k] in areas
  }

  /** 0.3 when a recognised region is listed verbatim, nothing when regions
      were recognised but none is listed, 0.2 when the query names none. */
  function AreaScore(regions: seq<string>, areas: seq<string>): real {
    if |regions| == 0 then 0.2 else if AreaListed(regions, areas) then 0.3 else 0.0
  }

  function CategoryScore(categories: seq<string>, axes: CategoryMap): real {
    if |categories| > 0 && axes != map[] then 0.1 else 0.0
  }

  function RawScore(e: EntitySet, t: TableInfo): real {
    ItemScore(e.statisticalItems, t.keywords) + AreaScore(e.regions, t.availableAreas)
    + CategoryScore(e.categories, t.categories)
  }

  function Min(a: real, b: real): (r: real)
    ensures r <= a && r <= b && (r == a || r == b)
  {
    if a <= b then a else b
  }

  /** `calculate_confidence` */
  function Confidence(e: EntitySet, t: TableInfo): (r: real)
    ensures r <= 1.0
  {
    Min(RawScore(e, t), 1.0)
  }

  lemma MatchedBound(items: seq<string>, keywords: seq<string>)
    ensures Matched(items, keywords) <= |items|
  {
    SubsetSize(SetOf(items) * SetOf(keywords), SetOf(items));
    SetOfSize(items);
  }

  lemma ItemScoreBounds(items: seq<string>, keywords: seq<string>)
    ensures 0.0 <= ItemScore(items, keywords) <= 0.6
  {
    if |items| > 0 {
      MatchedBound(items, keywords);
      RatioBound(Matched(items, keywords) as real, |items| as real);
    }
  }

  lemma RatioBound(m: real, n: real)
    requires 0.0 <= m <= n && n > 0.0
    ensures 0.0 <= 0.6 * m / n <= 0.6
  {
    DivideMonotone(0.0, 0.6 * m, n);
    DivideMonotone(0.6 * m, 0.6 * n, n);
    Cancel(0.6, n);
  }

  /** The weighted sum never leaves [0, 1], so the cap never changes it. */
  lemma ConfidenceUncapped(e: EntitySet, t: TableInfo)
    ensures 0.0 <= RawScore(e, t) <= 1.0
    ensures Confidence(e, t) == RawScore(e, t)
  {
    ItemScoreBounds(e.statisticalItems, t.keywords);
  }

  /** Listing more keywords never lowers the item score. */
  lemma ItemScoreMonotone(items: seq<string>, keywords: seq<string>, more: seq<string>)
    requires forall k :: 0 <= k < |keywords| ==> keywords[k] in more
    ensures ItemScore(items, keywords) <= ItemScore(items, more)
  {
    if |items| > 0 {
      var a, b, b' := SetOf(items), SetOf(keywords), SetOf(more);
      assert b <= b' by {
        forall x | x in b ensures x in b' {
          var k :| 0 <= k < |keywords| && keywords[k] == x;
        }
      }
      SubsetSize(a * b, a * b');
      ScoreStep(Matched(items, keywords), Matched(items, more), |items|);
    }
  }

  /** Recognising one more item that the table lists never lowers the item
      score. */
  lemma ItemAddedMonotone(items: seq<string>, keywords: seq<string>, x: string)
    requires x !in items && x in keywords
    ensures ItemScore(items, keywords) <= ItemScore(items + [x], keywords)
  {
    var more := items + [x];
    assert SetOf(more) == SetOf(items) + {x};
    assert SetOf(more) * SetOf(keywords) == SetOf(items) * SetOf(keywords) + {x};
    assert Matched(more, keywords) == Matched(items, keywords) + 1;
    ItemScoreBounds(more, keywords);
    if |items| > 0 {
      MatchedBound(items, keywords);
      GrowRatio(Matched(items, keywords) as real, |items| as real);
    }
  }

  /** m/n <= (m+1)/(n+1) when m <= n. */
  lemma GrowRatio(m: real, n: real)
    requires 0.0 <= m <= n && n > 0.0
    ensures 0.6 * m / n <= 0.6 * (m + 1.0) / (n + 1.0)
  {
    var d := n * (n + 1.0);
    assert d > 0.0;
    assert 0.6 * m / n == 0.6 * m * (n + 1.0) / d;
    assert 0.6 * (m + 1.0) / (n + 1.0) == 0.6 * (m + 1.0) * n / d;
    assert 0.6 * m * (n + 1.0) <= 0.6 * (m + 1.0) * n;
    DivideMonotone(0.6 * m * (n + 1.0), 0.6 * (m + 1.0) * n, d);
  }

  lemma ScoreStep(m: nat, m': nat, n: nat)
    requires m <= m' && n > 0
    ensures 0.6 * (m as real) / (n as real) <= 0.6 * (m' as real) / (n as real)
  {
    DivideMonotone(0.6 * (m as real), 0.6 * (m' as real), n as real);
  }

  lemma DivideMonotone(a: real, b: real, n: real)
    requires a <= b && n > 0.0
    ensures a / n <= b / n
  {
    assert b / n - a / n == (b - a) / n;
  }

  /** Distinct items that the table all lists earn the full 0.6. */
  lemma ItemScoreFull(items: seq<string>, keywords: seq<string>)
    requires |items| > 0 && NoDup(items)
    requires forall k :: 0 <= k < |items| ==> items[k] in keywords
    ensures ItemScore(items, keywords) == 0.6
  {
    SetOfSize(items);
    assert SetOf(items) * SetOf(keywords) == SetOf(items);
    assert Matched(items, keywords) == |items|;
    Cancel(0.6, |items| as real);
  }

  lemma Cancel(c: real, n: real)
    requires n > 0.0
    ensures c * n / n == c
  {
  }

  /** A table listing every recognised item and region, with axes for
      requested categories, scores exactly 1.0. */
  lemma PerfectConfidence(e: EntitySet, t: TableInfo)
    requires |e.statisticalItems| > 0 && NoDup(e.statisticalItems)
    requires forall k :: 0 <= k < |e.statisticalItems| ==> e.statisticalItems[k] in t.keywords
    requires |e.regions| > 0 && e.regions[0] in t.availableAreas
    requires |e.categories| > 0 && t.categories != map[]
    ensures Confidence(e, t) == 1.0
  {
    ItemScoreFull(e.statisticalItems, t.keywords);
    assert AreaListed(e.regions, t.availableAreas);
  }

  // ---------------------------------------------------------------------
  // Ranking

  /** One candidate table turned into a result. */
  function ToResult(kb: KnowledgeBase, e: EntitySet, t: TableInfo): QueryResult {
    QueryResult(if t.id.Some? then Text(t.id.value) else Null, GenerateParameters(kb, e, t), t.description, Confidence(e, t), Text(t.tableName), [])
  }

  function ScoreAll(kb: KnowledgeBase, e: EntitySet, tables: seq<TableInfo>): (r: seq<QueryResult>)
    ensures |r| == |tables|
    ensures forall k :: 0 <= k < |tables| ==> r[k] == ToResult(kb, e, tables[k])
  {
    seq(|tables|, k requires 0 <= k < |tables| => ToResult(kb, e, tables[k]))
  }

  /** `key=confidence_score, reverse=True`: a stable sort on this preorder
      keeps equal scores in input order. */
  predicate ConfGe(a: QueryResult, b: QueryResult) {
    a.confidence >= b.confidence
  }

  lemma ConfGeTotalPreorder()
    ensures TotalPreorder(ConfGe)
  {
  }

  /** Sorted by confidence, the best becomes the primary result and carries
      the rest as its alternatives. */
  function Rank(results: seq<QueryResult>): seq<QueryResult> {
    var sorted := Sort(results, ConfGe);
    if |sorted| == 0 then [] else [sorted[0].(alternatives := sorted[1..])]
  }

  /** The primary followed by its alternatives: the ranked list unwrapped. */
  function Flatten(ranked: seq<QueryResult>): seq<QueryResult> {
    if |ranked| == 0 then [] else [ranked[0].(alternatives := [])] + ranked[0].alternatives
  }

  predicate Unnested(results: seq<QueryResult>) {
    forall k :: 0 <= k < |results| ==> results[k].alternatives == []
  }

  /** Unwrapping the ranked list gives back the sorted results. */
  lemma FlattenRank(results: seq<QueryResult>)
    requires Unnested(results)
    ensures |Rank(results)| == (if |results| == 0 then 0 else 1)
    ensures Flatten(Rank(results)) == Sort(results, ConfGe)
  {
    var sorted := Sort(results, ConfGe);
    if |sorted| > 0 {
      assert sorted[0] in multiset(sorted);
      assert sorted[0] in results;
      assert sorted[0].(alternatives := []) == sorted[0];
      assert [sorted[0]] + sorted[1..] == sorted;
    }
  }

  /** Ranking returns nothing or one primary; unwrapped, it is a stable
      descending sort of its input, so the primary scores at least as high
      as every alternative and equal scores keep their input order. */
  lemma RankSpec(results: seq<QueryResult>)
    requires Unnested(results)
    ensures |Rank(results)| == (if |results| == 0 then 0 else 1)
    ensures multiset(Flatten(Rank(results))) == multiset(results)
    ensures Sorted(Flatten(Rank(results)), ConfGe)
    ensures forall x :: Ties(Flatten(Rank(results)), x, ConfGe) == Ties(results, x, ConfGe)
    ensures |Rank(results)| == 1 ==> forall k :: 0 <= k < |Rank(results)[0].alternatives| ==>
      Rank(results)[0].confidence >= Rank(results)[0].alternatives[k].confidence
  {
    var sorted := Sort(results, ConfGe);
    FlattenRank(results);
    ConfGeTotalPreorder();
    SortSorted(results, ConfGe);
    if |sorted| > 0 {
      var top := Rank(results)[0];
      assert top.confidence == sorted[0].confidence && top.alternatives == sorted[1..];
      forall k | 0 <= k < |top.alternatives| ensures top.confidence >= top.alternatives[k].confidence {
        assert top.alternatives[k] == sorted[k + 1];
        assert ConfGe(sorted[0], sorted[k + 1]);
      }
    }
    forall x ensures Ties(Flatten(Rank(results)), x, ConfGe) == Ties(results, x, ConfGe) {
      SortStable(results, x, ConfGe);
    }
  }

  // ---------------------------------------------------------------------
  // The rule path

  /** The candidates `search_stats_tables` returns for the parsed query. */
  function Candidates(kb: KnowledgeBase, store: Store, c: Codec, query: string): Result<seq<TableInfo>> {
    Search(store, c, ParseQuery(kb, query).statisticalItems)
  }

  /** `_translate_with_rules`: the first `limit` candidates (a Python slice,
      so a negative limit drops from the end) are scored and then ranked. */
  function TranslateWithRules(kb: KnowledgeBase, store: Store, c: Codec, query: string, limit: int)
    : Result<seq<QueryResult>>
  {
    var e := ParseQuery(kb, query);
    match Candidates(kb, store, c, query)
    case Failure(err) => Failure(err)
    case Success(tables) => Success(Rank(ScoreAll(kb, e, PyPrefix(tables, limit))))
  }

  lemma ScoredUnnested(kb: KnowledgeBase, e: EntitySet, tables: seq<TableInfo>)
    ensures Unnested(ScoreAll(kb, e, tables))
  {
  }

  /** On a store whose JSON columns decode, the rule path succeeds with at
      most one primary; unwrapped, its results are exactly the scored first
      `limit` candidates, best first, each scored within [0, 1]. */
  lemma RulesSpec(kb: KnowledgeBase, store: Store, c: Codec, query: string, limit: int)
    requires Decodable(c, store)
    ensures Candidates(kb, store, c, query).Success?
    ensures var tables := PyPrefix(Candidates(kb, store, c, query).value, limit);
      var r := TranslateWithRules(kb, store, c, query, limit);
      && r.Success?
      && |r.value| == (if |tables| == 0 then 0 else 1)
      && multiset(Flatten(r.value)) == multiset(ScoreAll(kb, ParseQuery(kb, query), tables))
      && Sorted(Flatten(r.value), ConfGe)
      && (forall k :: 0 <= k < |Flatten(r.value)| ==> 0.0 <= Flatten(r.value)[k].confidence <= 1.0)
  {
    var e := ParseQuery(kb, query);
    SearchSucceeds(store, c, e.statisticalItems);
    var tables := PyPrefix(Candidates(kb, store, c, query).value, limit);
    var scored := ScoreAll(kb, e, tables);
    ScoredUnnested(kb, e, tables);
    RankSpec(scored);
    RankedScores(kb, e, tables);
  }

  /** Every ranked result carries a confidence within [0, 1]. */
  lemma RankedScores(kb: KnowledgeBase, e: EntitySet, tables: seq<TableInfo>)
    ensures var flat := Flatten(Rank(ScoreAll(kb, e, tables)));
      forall k :: 0 <= k < |flat| ==> 0.0 <= flat[k].confidence <= 1.0
  {
    var scored := ScoreAll(kb, e, tables);
    ScoredUnnested(kb, e, tables);
    FlattenRank(scored);
    var flat := Flatten(Rank(scored));
    forall k | 0 <= k < |flat| ensures 0.0 <= flat[k].confidence <= 1.0 {
      assert flat[k] in multiset(scored);
      var j :| 0 <= j < |scored| && scored[j] == flat[k];
      ConfidenceUncapped(e, tables[j]);
    }
  }

  /** With `json.dumps`' ASCII escaping, a query whose recognised items all
      contain a non-ASCII character (every Japanese label) finds no table,
      so the rule path answers with no result at all. */
  lemma RulesFindNothingOnEscapedStore(kb: KnowledgeBase, store: Store, c: Codec, query: string, limit: int)
    requires AsciiOnly(c)
    requires forall k :: 0 <= k < |store| ==>
      store[k].keywords.None? || exists xs :: store[k].keywords == Some(c.dumpList(xs))
    requires var items := ParseQuery(kb, query).statisticalItems;
      |items| > 0 && forall k :: 0 <= k < |items| ==> HasNonAscii(items[k])
    ensures TranslateWithRules(kb, store, c, query, limit) == Success([])
  {
    EscapedKeywordsNeverMatch(store, c, ParseQuery(kb, query).statisticalItems);
  }

  // ---------------------------------------------------------------------
  // The assistant path

  function Head<T>(s: seq<T>): (r: Option<T>)
    ensures r.Some? <==> |s| > 0
    ensures r.Some? ==> r.value == s[0]
  {
    if |s| == 0 then None else Some(s[0])
  }

  /** `needle in d` holds without raising. */
  predicate Mentions(d: Value, needle: string) {
    InValue(needle, d) == Success(true)
  }

  /** The code `_generate_ai_parameters` gives a `cdCat*` axis described by
      `d`: sex before age. Each `in` test runs only when its category was
      asked for, and raises on a description it cannot search. */
  function CategoryCode(e: EntitySet, d: Value): (r: Result<Option<string>>)
    ensures r.Failure? <==> ("gender" in e.categories || "age" in e.categories) && !Searchable(d)
    ensures r.Success? ==>
      && (r.value == Some("002,003") <==> ("gender" in e.categories && Mentions(d, "男女")))
      && (r.value == Some("01000") <==> (!("gender" in e.categories && Mentions(d, "男女"))
                                         && "age" in e.categories && Mentions(d, "年齢")))
      && (r.value.None? <==> (!("gender" in e.categories && Mentions(d, "男女"))
                              && !("age" in e.categories && Mentions(d, "年齢"))))
  {
    var sex := if "gender" in e.categories then InValue("男女", d) else Success(false);
    if sex.Failure? then Failure(sex.error)
    else if sex.value then Success(Some("002,003"))
    else
      var age := if "age" in e.categories then InValue("年齢", d) else Success(false);
      if age.Failure? then Failure(age.error)
      else Success(if age.value then Some("01000") else None)
  }

  /** Every `cdCat*` description a category test reaches can be searched. */
  predicate CategoriesSearchable(e: EntitySet, axes: map<string, Value>) {
    forall a :: a in axes && StartsWith(a, "cdCat") && ("gender" in e.categories || "age" in e.categories) ==>
      Searchable(axes[a])
  }

  /** The `cdCat*` entries `_generate_ai_parameters` sets: a code for each
      category axis whose description answers a category test. */
  function CategoryCodes(e: EntitySet, axes: map<string, Value>): (p: map<string, string>)
    requires CategoriesSearchable(e, axes)
    ensures forall a :: a in p ==> StartsWith(a, "cdCat") && a in axes
    ensures forall a :: a in axes && StartsWith(a, "cdCat") ==>
      (a in p <==> (("gender" in e.categories && Mentions(axes[a], "男女"))
                    || ("age" in e.categories && Mentions(axes[a], "年齢"))))
    ensures forall a :: a in axes && StartsWith(a, "cdCat") && "gender" in e.categories && Mentions(axes[a], "男女") ==>
      p[a] == "002,003"
    ensures forall a :: a in axes && StartsWith(a, "cdCat") && !("gender" in e.categories && Mentions(axes[a], "男女"))
                        && "age" in e.categories && Mentions(axes[a], "年齢") ==>
      p[a] == "01000"
  {
    map a | a in axes && StartsWith(a, "cdCat") && CategoryCode(e, axes[a]).value.Some?
      :: CategoryCode(e, axes[a]).value.value
  }

  /** The `cdArea` and `cdTime` entries `_generate_ai_parameters` sets. */
  function AreaTimeCodes(kb: KnowledgeBase, e: EntitySet, axes: map<string, Value>): (p: map<string, string>)
    ensures "cdArea" in p <==> |e.regions| > 0 && "cdArea" in axes && kb.AreaCode(e.regions[0]).Some?
    ensures "cdArea" in p ==> p["cdArea"] == kb.AreaCode(e.regions[0]).value
    ensures "cdTime" in p <==> (|e.timePeriods| > 0 && "cdTime" in axes
                               && ("latest" in e.timePeriods || AllDigits(e.timePeriods[0])))
    ensures "cdTime" in p ==> p["cdTime"] == (if "latest" in e.timePeriods then "2024000000"
                                             else e.timePeriods[0] + "000000")
    ensures p.Keys <= {"cdArea", "cdTime"}
  {
    var area := if |e.regions| > 0 && "cdArea" in axes && kb.AreaCode(e.regions[0]).Some?
                then map["cdArea" := kb.AreaCode(e.regions[0]).value] else map[];
    var time := if |e.timePeriods| > 0 && "cdTime" in axes then
                  (if "latest" in e.timePeriods then map["cdTime" := "2024000000"]
                   else if AllDigits(e.timePeriods[0]) then map["cdTime" := e.timePeriods[0] + "000000"]
                   else map[])
                else map[];
    area + time
  }

  /** `_generate_ai_parameters`. An `axis_mappings` that is not a dict
      raises: `TypeError` at an `in` test that cannot search it, otherwise
      `AttributeError` at `.items()`. A `cdCat*` description a category test
      cannot search raises `TypeError`. */
  function AiParameters(kb: KnowledgeBase, e: EntitySet, resp: OllamaResponse): (r: Result<map<string, string>>)
    ensures r.Success? <==> resp.axisMappings.Dict? && CategoriesSearchable(e, resp.axisMappings.m)
    ensures r.Success? ==>
      r.value == AreaTimeCodes(kb, e, resp.axisMappings.m) + CategoryCodes(e, resp.axisMappings.m)
  {
    if !resp.axisMappings.Dict? then
      Failure(if (|e.regions| > 0 || |e.timePeriods| > 0) && !Searchable(resp.axisMappings)
              then "TypeError" else "AttributeError")
    else
      var axes := resp.axisMappings.m;
      if exists a :: a in axes && StartsWith(a, "cdCat") && CategoryCode(e, axes[a]).Failure? then
        Failure("TypeError")
      else
        Success(AreaTimeCodes(kb, e, axes) + CategoryCodes(e, axes))
  }

  /** What the assistant's parameters hold: `cdArea` and `cdTime` only when
      the answer names those axes, and on each `cdCat*` axis the code its
      description earns, sex before age. */
  lemma AiParameterSpec(kb: KnowledgeBase, e: EntitySet, resp: OllamaResponse)
    ensures var r := AiParameters(kb, e, resp);
      r.Success? ==> var p, axes := r.value, resp.axisMappings.m;
      && ("cdArea" in p ==> "cdArea" in axes)
      && ("cdTime" in p ==> "cdTime" in axes)
      && (forall a :: a in p && a != "cdArea" && a != "cdTime" ==> StartsWith(a, "cdCat") && a in axes)
      && (|e.timePeriods| > 0 && "latest" !in e.timePeriods && !AllDigits(e.timePeriods[0]) ==> "cdTime" !in p)
      && (forall a :: a in axes && StartsWith(a, "cdCat") ==>
            (a in p <==> (("gender" in e.categories && Mentions(axes[a], "男女"))
                          || ("age" in e.categories && Mentions(axes[a], "年齢")))))
  {
    assert "cdTime"[3] != "cdCat"[3] && "cdArea"[3] != "cdCat"[3];
  }

  /** Where `cdArea` and `cdTime` of the assistant's parameters come from. */
  lemma AiParameterSources(kb: KnowledgeBase, e: EntitySet, resp: OllamaResponse)
    ensures var r := AiParameters(kb, e, resp);
      r.Success? ==> var p, axes := r.value, resp.axisMappings.m;
      && ("cdArea" in p <==> |e.regions| > 0 && "cdArea" in axes && kb.AreaCode(e.regions[0]).Some?)
      && ("cdArea" in p ==> p["cdArea"] == kb.AreaCode(e.regions[0]).value)
      && ("cdTime" in p <==> |e.timePeriods| > 0 && "cdTime" in axes
                             && ("latest" in e.timePeriods || AllDigits(e.timePeriods[0])))
      && ("cdTime" in p ==> p["cdTime"] == (if "latest" in e.timePeriods then "2024000000"
                                            else e.timePeriods[0] + "000000"))
  {
    assert "cdTime"[3] != "cdCat"[3] && "cdArea"[3] != "cdCat"[3];
  }

  /** When the assistant names the area axis, its `cdArea` is the one the
      rule path sets for the same query. */
  lemma AiAreaAgrees(kb: KnowledgeBase, query: string, t: TableInfo, resp: OllamaResponse)
    requires resp.axisMappings.Dict? && "cdArea" in resp.axisMappings.m
    ensures var e := ParseQuery(kb, query);
      var ai, rules := AiParameters(kb, e, resp), GenerateParameters(kb, e, t);
      ai.Success? ==>
        ("cdArea" in ai.value <==> "cdArea" in rules) && ("cdArea" in ai.value ==> ai.value["cdArea"] == rules["cdArea"])
  {
    var e := ParseQuery(kb, query);
    AiParameterSources(kb, e, resp);
    ParameterSources(kb, e, t);
  }

  /** When the assistant names the time axis, its `cdTime` is the one the
      rule path sets: the periods the parser finds are digit runs or
      `"latest"`, so the `isdigit` guard never fires on them. */
  lemma AiTimeAgrees(kb: KnowledgeBase, query: string, t: TableInfo, resp: OllamaResponse)
    requires resp.axisMappings.Dict? && "cdTime" in resp.axisMappings.m
    ensures var e := ParseQuery(kb, query);
      var ai, rules := AiParameters(kb, e, resp), GenerateParameters(kb, e, t);
      ai.Success? ==>
        ("cdTime" in ai.value <==> "cdTime" in rules) && ("cdTime" in ai.value ==> ai.value["cdTime"] == rules["cdTime"])
  {
    var e := ParseQuery(kb, query);
    var q := Strip(query);
    AiParameterSources(kb, e, resp);
    ParameterSources(kb, e, t);
    YearsAreDigitRuns(q);
    if |e.timePeriods| > 0 && "latest" !in e.timePeriods {
      assert e.timePeriods[0] == FindYears(q)[0];
    }
  }

  /** The assistant's proposal as the primary result: the id and the name as
      given, whatever their types, and the confidence capped at 1.0 from
      above only. A confidence that is not a number makes `min` raise. */
  function AssistantResult(c: Codec, kb: KnowledgeBase, e: EntitySet, resp: OllamaResponse): Result<QueryResult> {
    match AiParameters(kb, e, resp)
    case Failure(err) => Failure(err)
    case Success(p) =>
      match NumberOf(resp.confidence)
      case None => Failure("TypeError")
      case Some(x) =>
        Success(QueryResult(resp.statsTableId, p, Some("AI提案: " + Str(c, resp.tableName)),
                            Min(x, 1.0), resp.tableName, []))
  }

  /** The assistant's answer as the primary result succeeds iff the answer
      is usable, and then keeps the id, the name and the parameters, and caps
      the confidence at 1.0 from above only. */
  lemma AssistantResultSpec(c: Codec, kb: KnowledgeBase, e: EntitySet, resp: OllamaResponse)
    ensures var r := AssistantResult(c, kb, e, resp);
      && (r.Success? <==> Usable(e, resp))
      && (r.Success? ==>
            && r.value.statsDataId == resp.statsTableId
            && r.value.tableName == resp.tableName
            && r.value.parameters == AiParameters(kb, e, resp).value
            && r.value.confidence <= 1.0
            && (NumberOf(resp.confidence).value <= 1.0 ==> r.value.confidence == NumberOf(resp.confidence).value))
  {
  }

  /** `_translate_with_ollama` gets through the assistant's answer without
      raising: `axis_mappings` is a dict, every `cdCat*` description a
      category test reaches can be searched with `in`, and the confidence is
      a number. */
  predicate Usable(e: EntitySet, resp: OllamaResponse) {
    && resp.axisMappings.Dict?
    && CategoriesSearchable(e, resp.axisMappings.m)
    && (resp.confidence.Number? || resp.confidence.Bool?)
  }

  /** `_translate_with_ollama`: the assistant is asked with the first region
      and period, and the rule path for `limit - 1` supplies the
      alternatives. `reply` is what the HTTP exchange produced and `loaded`
      the rendered real catalog, if any. Nothing catches an exception
      raised while the answer is used. */
  function TranslateWithAssistant(kb: KnowledgeBase, store: Store, c: Codec, reply: Reply,
                                  loaded: Option<string>, query: string, limit: int): Result<seq<QueryResult>>
  {
    var e := ParseQuery(kb, query);
    var resp := Suggest(c, true, reply, query, Head(e.regions), Head(e.timePeriods), loaded);
    match AssistantResult(c, kb, e, resp)
    case Failure(err) => Failure(err)
    case Success(main) =>
      match TranslateWithRules(kb, store, c, query, limit - 1)
      case Failure(err) => Failure(err)
      case Success(rest) => Success([main.(alternatives := rest)])
  }

  /** The assistant path succeeds iff the answer is usable. Then there is
      exactly one result: the assistant's id, name and parameters, its
      confidence capped above at 1.0 but not below, and as alternatives the
      rule path's answer for `limit - 1` (at most one result, itself
      carrying alternatives). */
  lemma AssistantSpec(kb: KnowledgeBase, store: Store, c: Codec, reply: Reply,
                      loaded: Option<string>, query: string, limit: int)
    requires Decodable(c, store)
    ensures var e := ParseQuery(kb, query);
      var resp := Suggest(c, true, reply, query, Head(e.regions), Head(e.timePeriods), loaded);
      var r := TranslateWithAssistant(kb, store, c, reply, loaded, query, limit);
      && (r.Success? <==> Usable(e, resp))
      && (r.Success? ==>
            && |r.value| == 1
            && r.value[0].alternatives == TranslateWithRules(kb, store, c, query, limit - 1).value
            && |r.value[0].alternatives| <= 1
            && r.value[0].statsDataId == resp.statsTableId
            && r.value[0].tableName == resp.tableName
            && r.value[0].parameters == AiParameters(kb, e, resp).value
            && r.value[0].confidence <= 1.0
            && (NumberOf(resp.confidence).value <= 1.0 ==> r.value[0].confidence == NumberOf(resp.confidence).value))
  {
    var e := ParseQuery(kb, query);
    var resp := Suggest(c, true, reply, query, Head(e.regions), Head(e.timePeriods), loaded);
    AssistantResultSpec(c, kb, e, resp);
    RulesSpec(kb, store, c, query, limit - 1);
  }

  /** With no real catalog loaded and the exchange failing, the primary is
      the census table at confidence 0.7 whatever the query says. */
  lemma AssistantOffline(kb: KnowledgeBase, store: Store, c: Codec, reply: Reply, query: string, limit: int)
    requires Decodable(c, store) && Lawful(c)
    requires reply.Raised? || reply.status != 200
    ensures var r := TranslateWithAssistant(kb, store, c, reply, None, query, limit);
      r.Success? && |r.value| == 1 && r.value[0].statsDataId == Text(CensusId) && r.value[0].confidence == 0.7
  {
    var e := ParseQuery(kb, query);
    OfflineSuggestion(c, true, reply, query, Head(e.regions), Head(e.timePeriods));
    AssistantSpec(kb, store, c, reply, None, query, limit);
  }

  /** A numeric id passes through as given: `{"stats_table_id": 123,
      "confidence": 0.9}` proposes table 123 at 0.9. */
  lemma NumericIdKept(kb: KnowledgeBase, store: Store, c: Codec, loaded: Option<string>, query: string, limit: int)
    requires Decodable(c, store) && Lawful(c)
    ensures var o := map["stats_table_id" := Number(123.0), "confidence" := Number(0.9)];
      var r := TranslateWithAssistant(kb, store, c, AnswerText(c, o), loaded, query, limit);
      r.Success? && |r.value| == 1 && r.value[0].statsDataId == Number(123.0) && r.value[0].confidence == 0.9
  {
    var o := map["stats_table_id" := Number(123.0), "confidence" := Number(0.9)];
    var resp := FromObject(o);
    assert resp.statsTableId == Number(123.0) && resp.confidence == Number(0.9);
    assert resp.axisMappings == Dict(map[]);
    AnswerPrimary(kb, store, c, o, loaded, query, limit);
  }

  /** A usable answer written as the text of `o` becomes the single primary
      result, with `o`'s table id and its confidence when at most 1. */
  lemma AnswerPrimary(kb: KnowledgeBase, store: Store, c: Codec, o: Object, loaded: Option<string>, query: string, limit: int)
    requires Decodable(c, store) && Lawful(c)
    requires Usable(ParseQuery(kb, query), FromObject(o))
    ensures var r := TranslateWithAssistant(kb, store, c, AnswerText(c, o), loaded, query, limit);
      && r.Success? && |r.value| == 1
      && r.value[0].statsDataId == FromObject(o).statsTableId
      && (NumberOf(FromObject(o).confidence).value <= 1.0 ==>
            r.value[0].confidence == NumberOf(FromObject(o).confidence).value)
  {
    var e := ParseQuery(kb, query);
    SuggestReadsAnswer(c, o, query, Head(e.regions), Head(e.timePeriods), loaded);
    AssistantSpec(kb, store, c, AnswerText(c, o), loaded, query, limit);
  }

  /** A confidence written as a string makes `min` raise, so the whole
      translation fails: `{"confidence": "0.9"}`. */
  lemma TextConfidenceFails(kb: KnowledgeBase, store: Store, c: Codec, loaded: Option<string>, query: string, limit: int)
    requires Lawful(c)
    ensures TranslateWithAssistant(kb, store, c, AnswerText(c, map["confidence" := Text("0.9")]), loaded, query, limit).Failure?
  {
    var o := map["confidence" := Text("0.9")];
    var e := ParseQuery(kb, query);
    SuggestReadsAnswer(c, o, query, Head(e.regions), Head(e.timePeriods), loaded);
    var resp := FromObject(o);
    assert resp.confidence == Text("0.9");
    AssistantResultSpec(c, kb, e, resp);
  }

  /** An `axis_mappings` written as a list makes `.items()` raise, so the
      whole translation fails: `{"axis_mappings": []}`. */
  lemma ListAxesFail(kb: KnowledgeBase, store: Store, c: Codec, loaded: Option<string>, query: string, limit: int)
    requires Lawful(c)
    ensures TranslateWithAssistant(kb, store, c, AnswerText(c, map["axis_mappings" := Array([])]), loaded, query, limit).Failure?
  {
    var o := map["axis_mappings" := Array([])];
    var e := ParseQuery(kb, query);
    SuggestReadsAnswer(c, o, query, Head(e.regions), Head(e.timePeriods), loaded);
    var resp := FromObject(o);
    assert resp.axisMappings == Array([]);
    assert AiParameters(kb, e, resp).Failure?;
  }

  /** `translate_query`: the assistant path whenever the assistant is
      reachable, the rule path otherwise. */
  function Translate(kb: KnowledgeBase, store: Store, c: Codec, assistantUp: bool, reply: Reply,
                     loaded: Option<string>, query: string, limit: int): Result<seq<QueryResult>>
  {
    if assistantUp then TranslateWithAssistant(kb, store, c, reply, loaded, query, limit)
    else TranslateWithRules(kb, store, c, query, limit)
  }

  /** On a decodable store the rule path always succeeds, and the assistant
      path succeeds iff the assistant's answer is usable. Either way at most
      one top-level result comes back, and with the assistant up exactly
      one. */
  lemma TranslateShape(kb: KnowledgeBase, store: Store, c: Codec, assistantUp: bool, reply: Reply,
                       loaded: Option<string>, query: string, limit: int)
    requires Decodable(c, store)
    ensures var e := ParseQuery(kb, query);
      var resp := Suggest(c, true, reply, query, Head(e.regions), Head(e.timePeriods), loaded);
      var r := Translate(kb, store, c, assistantUp, reply, loaded, query, limit);
      && (r.Success? <==> !assistantUp || Usable(e, resp))
      && (r.Success? ==> |r.value| <= 1 && (assistantUp ==> |r.value| == 1))
  {
    if assistantUp {
      AssistantSpec(kb, store, c, reply, loaded, query, limit);
    } else {
      RulesSpec(kb, store, c, query, limit);
    }
  }

  // ---------------------------------------------------------------------
  // Query completion

  predicate Extends(prefix: string, name: string) {
    StartsWith(name, prefix)
  }

  /** Two suggestions per gazetteer name extending the prefix. */
  function RegionLines(names: seq<string>, prefix: string): seq<string> {
    if |names| == 0 then []
    else (if Extends(prefix, names[0]) then [names[0] + "の人口データ", names[0] + "の雇用統計"] else [])
         + RegionLines(names[1..], prefix)
  }

  /** Two suggestions per item label extending the prefix. */
  function ItemLines(labels: seq<string>, prefix: string): seq<string> {
    if |labels| == 0 then []
    else (if Extends(prefix, labels[0]) then [labels[0] + "の推移", "都道府県別" + labels[0]] else [])
         + ItemLines(labels[1..], prefix)
  }

  /** `get_query_suggestions` */
  function Suggestions(kb: KnowledgeBase, prefix: string): (r: seq<string>)
    ensures |r| <= 10
  {
    PyPrefix(RegionLines(kb.AreaNames(), prefix) + ItemLines(kb.ItemLabels(), prefix), 10)
  }

  /** The region lines are, pair by pair, the names extending the prefix in
      gazetteer order. */
  lemma {:induction false} RegionLinesSpec(names: seq<string>, prefix: string)
    ensures RegionPairs(RegionLines(names, prefix), Filter(names, prefix, Extends))
    decreases |names|
  {
    if |names| > 0 {
      RegionLinesSpec(names[1..], prefix);
      var f, f' := Filter(names, prefix, Extends), Filter(names[1..], prefix, Extends);
      var r, r' := RegionLines(names, prefix), RegionLines(names[1..], prefix);
      if Extends(prefix, names[0]) {
        assert r == [names[0] + "の人口データ", names[0] + "の雇用統計"] + r';
        assert f == [names[0]] + f';
        RegionPairsCons(names[0], f', r');
      }
    }
  }

  /** `r` lists, pair by pair, the two region suggestions for each of `f`. */
  predicate RegionPairs(r: seq<string>, f: seq<string>) {
    |r| == 2 * |f|
    && forall k :: 0 <= k < |f| ==> r[2 * k] == f[k] + "の人口データ" && r[2 * k + 1] == f[k] + "の雇用統計"
  }

  lemma RegionPairsCons(n: string, f: seq<string>, r: seq<string>)
    requires RegionPairs(r, f)
    ensures RegionPairs([n + "の人口データ", n + "の雇用統計"] + r, [n] + f)
  {
    var f', r' := [n] + f, [n + "の人口データ", n + "の雇用統計"] + r;
    forall k | 1 <= k < |f'| ensures r'[2 * k] == f'[k] + "の人口データ" && r'[2 * k + 1] == f'[k] + "の雇用統計" {
      assert f'[k] == f[k - 1];
      assert r'[2 * k] == r[2 * (k - 1)] && r'[2 * k + 1] == r[2 * (k - 1) + 1];
    }
  }

  /** The item lines are, pair by pair, the labels extending the prefix in
      lexicon order. */
  lemma {:induction false} ItemLinesSpec(labels: seq<string>, prefix: string)
    ensures ItemPairs(ItemLines(labels, prefix), Filter(labels, prefix, Extends))
    decreases |labels|
  {
    if |labels| > 0 {
      ItemLinesSpec(labels[1..], prefix);
      var f, f' := Filter(labels, prefix, Extends), Filter(labels[1..], prefix, Extends);
      var r, r' := ItemLines(labels, prefix), ItemLines(labels[1..], prefix);
      if Extends(prefix, labels[0]) {
        assert r == [labels[0] + "の推移", "都道府県別" + labels[0]] + r';
        assert f == [labels[0]] + f';
        ItemPairsCons(labels[0], f', r');
      }
    }
  }

  /** `r` lists, pair by pair, the two item suggestions for each of `f`. */
  predicate ItemPairs(r: seq<string>, f: seq<string>) {
    |r| == 2 * |f|
    && forall k :: 0 <= k < |f| ==> r[2 * k] == f[k] + "の推移" && r[2 * k + 1] == "都道府県別" + f[k]
  }

  lemma ItemPairsCons(n: string, f: seq<string>, r: seq<string>)
    requires ItemPairs(r, f)
    ensures ItemPairs([n + "の推移", "都道府県別" + n] + r, [n] + f)
  {
    var f', r' := [n] + f, [n + "の推移", "都道府県別" + n] + r;
    forall k | 1 <= k < |f'| ensures r'[2 * k] == f'[k] + "の推移" && r'[2 * k + 1] == "都道府県別" + f'[k] {
      assert f'[k] == f[k - 1];
      assert r'[2 * k] == r[2 * (k - 1)] && r'[2 * k + 1] == r[2 * (k - 1) + 1];
    }
  }

  /** A suggestion is built from a name or label extending the prefix. */
  ghost predicate SuggestionFor(kb: KnowledgeBase, prefix: string, s: string) {
    exists n :: Extends(prefix, n)
      && ((n in kb.AreaNames() && (s == n + "の人口データ" || s == n + "の雇用統計"))
          || (n in kb.ItemLabels() && (s == n + "の推移" || s == "都道府県別" + n)))
  }

  /** Every suggestion begins with a gazetteer name or item label extending
      the prefix, or with `都道府県別` and such a label. */
  lemma SuggestionsShape(kb: KnowledgeBase, prefix: string)
    ensures forall i :: 0 <= i < |Suggestions(kb, prefix)| ==> SuggestionFor(kb, prefix, Suggestions(kb, prefix)[i])
  {
    var rl, il := RegionLines(kb.AreaNames(), prefix), ItemLines(kb.ItemLabels(), prefix);
    var all := rl + il;
    var r := Suggestions(kb, prefix);
    forall i | 0 <= i < |r| ensures SuggestionFor(kb, prefix, r[i]) {
      assert r[i] == all[i];
      if i < |rl| {
        RegionLineFrom(kb.AreaNames(), prefix, i);
      } else {
        ItemLineFrom(kb.ItemLabels(), prefix, i - |rl|);
      }
    }
  }

  /** `r` is, cut off after ten, two lines for each name of `fr` followed by
      two lines for each label of `fi`. */
  predicate CutPairs(r: seq<string>, fr: seq<string>, fi: seq<string>) {
    && |r| == (if 2 * (|fr| + |fi|) < 10 then 2 * (|fr| + |fi|) else 10)
    && (forall k :: 0 <= k < |fr| && 2 * k < 10 ==>
          r[2 * k] == fr[k] + "の人口データ" && r[2 * k + 1] == fr[k] + "の雇用統計")
    && (forall k :: 0 <= k < |fi| && 2 * (|fr| + k) < 10 ==>
          r[2 * (|fr| + k)] == fi[k] + "の推移" && r[2 * (|fr| + k) + 1] == "都道府県別" + fi[k])
  }

  /** Suggestions come in pairs: first for the gazetteer names extending the
      prefix, in gazetteer order, then for the item labels extending it, in
      lexicon order, cut off after ten. */
  lemma SuggestionsOrder(kb: KnowledgeBase, prefix: string)
    ensures CutPairs(Suggestions(kb, prefix), Filter(kb.AreaNames(), prefix, Extends), Filter(kb.ItemLabels(), prefix, Extends))
  {
    var names, labels := kb.AreaNames(), kb.ItemLabels();
    RegionLinesSpec(names, prefix);
    ItemLinesSpec(labels, prefix);
    PairsCut(RegionLines(names, prefix), ItemLines(labels, prefix),
             Filter(names, prefix, Extends), Filter(labels, prefix, Extends));
  }

  lemma PairsCut(rl: seq<string>, il: seq<string>, fr: seq<string>, fi: seq<string>)
    requires RegionPairs(rl, fr) && ItemPairs(il, fi)
    ensures CutPairs(PyPrefix(rl + il, 10), fr, fi)
  {
    var r := PyPrefix(rl + il, 10);
    forall k | 0 <= k < |fi| && 2 * (|fr| + k) < 10
      ensures r[2 * (|fr| + k)] == fi[k] + "の推移" && r[2 * (|fr| + k) + 1] == "都道府県別" + fi[k]
    {
      assert r[2 * (|fr| + k)] == (rl + il)[|rl| + 2 * k] == il[2 * k];
      assert r[2 * (|fr| + k) + 1] == (rl + il)[|rl| + 2 * k + 1] == il[2 * k + 1];
    }
  }

  lemma RegionLineFrom(names: seq<string>, prefix: string, i: int)
    requires 0 <= i < |RegionLines(names, prefix)|
    ensures exists n :: (Extends(prefix, n) && n in names
      && (RegionLines(names, prefix)[i] == n + "の人口データ" || RegionLines(names, prefix)[i] == n + "の雇用統計"))
  {
    RegionLinesSpec(names, prefix);
    var f := Filter(names, prefix, Extends);
    FilterMembers(names, prefix, Extends);
    var n := f[i / 2];
    assert n in f;
    assert i == 2 * (i / 2) || i == 2 * (i / 2) + 1;
  }

  lemma ItemLineFrom(labels: seq<string>, prefix: string, j: int)
    requires 0 <= j < |ItemLines(labels, prefix)|
    ensures exists n :: (Extends(prefix, n) && n in labels
      && (ItemLines(labels, prefix)[j] == n + "の推移" || ItemLines(labels, prefix)[j] == "都道府県別" + n))
  {
    ItemLinesSpec(labels, prefix);
    var f := Filter(labels, prefix, Extends);
    FilterMembers(labels, prefix, Extends);
    var n := f[j / 2];
    assert n in f;
    assert j == 2 * (j / 2) || j == 2 * (j / 2) + 1;
  }

  /** A suggestion contains the name or label it was built from. */
  lemma SuggestionContains(n: string, s: string)
    requires s == n + "の人口データ" || s == n + "の雇用統計" || s == n + "の推移" || s == "都道府県別" + n
    ensures Contains(s, n)
  {
    ContainsSelf(n);
    if s == n + "の人口データ" || s == n + "の雇用統計" || s == n + "の推移" {
      ContainsInMiddle("", n, s[|n|..], n);
      assert "" + n + s[|n|..] == s;
    } else {
      ContainsInMiddle("都道府県別", n, "", n);
      assert "都道府県別" + n + "" == s;
    }
  }

  /** Completion and parsing agree: asking any suggestion back recognises
      the name or label it was built from. */
  lemma SuggestionsRecognised(kb: KnowledgeBase, prefix: string, s: string)
    requires kb.Valid() && SuggestionFor(kb, prefix, s)
    ensures exists n :: (Extends(prefix, n)
      && (n in ParseQuery(kb, s).regions || n in ParseQuery(kb, s).statisticalItems))
  {
    var n :| Extends(prefix, n)
      && ((n in kb.AreaNames() && (s == n + "の人口データ" || s == n + "の雇用統計"))
          || (n in kb.ItemLabels() && (s == n + "の推移" || s == "都道府県別" + n)));
    SuggestionContains(n, s);
    if n in kb.AreaNames() {
      ParseQueryRegions(kb, s);
    } else {
      ItemLabelsAreWords(kb);
      var k :| 0 <= k < |kb.ItemLabels()| && kb.ItemLabels()[k] == n;
      ContainsStrip(s, n);
      ParseQueryItems(kb, s);
    }
  }
}
