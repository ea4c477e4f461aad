/** The language-model assistant as the translator sees it: a prompt goes
    out, text comes back, and a tolerant parser turns the text into an
    `OllamaResponse`. The HTTP exchange is an input (`Reply`); whenever the
    model is unreachable or the exchange fails, a canned JSON answer chosen
    by keywords of the prompt stands in for the model's text. */
module Assistant {
  import opened Wrappers
  import opened Strings
  import opened Json

  /** What the assistant proposes: a table, the axes to set, how sure it
      is. The dataclass checks no types, so each member holds whatever JSON
      value the model's text supplied. */
  datatype OllamaResponse = OllamaResponse(
    statsTableId: Value,
    tableName: Value,
    axisMappings: Value,
    confidence: Value,
    reasoning: Value)

  /** The outcome of the `POST /api/generate` exchange: an exception (a
      connection error, a timeout, a body that is not a JSON object), or a
      status code with the body's `"response"` member when it has one. */
  datatype Reply = Raised | Answered(status: int, response: Option<Value>)

  const CensusId: string := "00200521001"
  const CensusName: string := "国勢調査（人口等基本集計）"
  const LabourId: string := "00450011001"
  const LabourName: string := "労働力調査（基本集計）"

  // ---------------------------------------------------------------------
  // The canned answer

  const AnswerKeys: set<string> :=
    {"stats_table_id", "table_name", "axis_mappings", "confidence", "reasoning"}

  /** The five members an answer object carries. */
  function ToObject(r: OllamaResponse): Object {
    map["stats_table_id" := r.statsTableId, "table_name" := r.tableName,
        "axis_mappings" := r.axisMappings, "confidence" := r.confidence,
        "reasoning" := r.reasoning]
  }

  /** A well-typed answer: str id, name and reasoning, a str-to-str axis
      dict and a numeric confidence. */
  function Answer(id: string, name: string, axes: map<string, string>, confidence: real,
                  reasoning: string): OllamaResponse
  {
    OllamaResponse(Text(id), Text(name), TextMap(axes), Number(confidence), Text(reasoning))
  }


  /** `_fallback_response` before encoding: population questions get the
      census, labour questions the labour force survey, anything else the
      census with only the area axis. */
  function FallbackAnswer(prompt: string): OllamaResponse {
    if Contains(prompt, "人口") then
      Answer(CensusId, CensusName,
             map["cdCat01" := "年齢階級", "cdCat02" := "男女別", "cdArea" := "地域コード"],
             0.7, "人口関連クエリのため国勢調査を選択")
    else if Contains(prompt, "労働") || Contains(prompt, "失業") then
      Answer(LabourId, LabourName,
             map["cdCat01" := "労働力状態", "cdCat02" := "男女別"],
             0.6, "労働関連クエリのため労働力調査を選択")
    else
      Answer(CensusId, CensusName, map["cdArea" := "地域コード"],
             0.4, "一般的なクエリのためデフォルト統計表を選択")
  }

  /** `_fallback_response`: the canned answer as JSON text. */
  function FallbackResponse(c: Codec, prompt: string): string {
    c.dumpObject(ToObject(FallbackAnswer(prompt)))
  }

  /** `_call_ollama`: the body's `"response"` member on a 200 reply, as
      decoded and whatever its type (`""` when the body has none), the
      canned answer in every other case. */
  function CallOllama(c: Codec, available: bool, reply: Reply, prompt: string): (r: Value)
    ensures !(available && reply.Answered? && reply.status == 200) ==> r == Text(FallbackResponse(c, prompt))
    ensures available && reply.Answered? && reply.status == 200 ==>
      r == (if reply.response.Some? then reply.response.value else Text(""))
  {
    if !available then Text(FallbackResponse(c, prompt))
    else match reply
      case Raised => Text(FallbackResponse(c, prompt))
      case Answered(status, response) =>
        if status == 200 then response.GetOr(Text("")) else Text(FallbackResponse(c, prompt))
  }

  // ---------------------------------------------------------------------
  // Parsing the model's text

  /** Position of the first `ch` in `s`. */
  function FirstIndex(s: string, ch: char): (r: Option<nat>)
    ensures r.Some? ==> r.value < |s| && s[r.value] == ch
                        && forall k :: 0 <= k < r.value ==> s[k] != ch
    ensures r.None? ==> forall k :: 0 <= k < |s| ==> s[k] != ch
  {
    if |s| == 0 then None
    else if s[0] == ch then Some(0)
    else match FirstIndex(s[1..], ch)
      case None => None
      case Some(i) => Some(i + 1)
  }

  /** Position of the last `ch` in `s`. */
  function LastIndex(s: string, ch: char): (r: Option<nat>)
    ensures r.Some? ==> r.value < |s| && s[r.value] == ch
                        && forall k :: r.value < k < |s| ==> s[k] != ch
    ensures r.None? ==> forall k :: 0 <= k < |s| ==> s[k] != ch
  {
    if |s| == 0 then None
    else if s[|s| - 1] == ch then Some(|s| - 1)
    else LastIndex(s[..|s| - 1], ch)
  }

  /** `re.search(r'\{.*\}', text, re.DOTALL)`: the greedy match runs from
      the first `{` to the last `}`, and there is one iff some `{` comes
      before some `}`. */
  function JsonSpan(text: string): (r: Option<string>)
    ensures r.Some? <==> exists a, b :: 0 <= a < b < |text| && text[a] == '{' && text[b] == '}'
    ensures r.Some? ==> exists a :: (OccursAt(text, r.value, a)
      && (forall k :: 0 <= k < a ==> text[k] != '{')
      && (forall k :: a + |r.value| <= k < |text| ==> text[k] != '}'))
    ensures r.Some? ==> |r.value| >= 2 && r.value[0] == '{' && r.value[|r.value| - 1] == '}'
  {
    var i := FirstIndex(text, '{');
    var j := LastIndex(text, '}');
    if i.Some? && j.Some? && i.value < j.value then
      assert OccursAt(text, text[i.value..j.value + 1], i.value);
      Some(text[i.value..j.value + 1])
    else
      None
  }

  /** `_create_fallback_response` */
  const FixedFallback: OllamaResponse :=
    Answer(CensusId, CensusName, map["cdArea" := "地域コード"], 0.3,
           "AI解析に失敗したためデフォルト統計表を選択")

  /** `o.get(key, default)` */
  function Get(o: Object, key: string, default: Value): Value {
    if key in o then o[key] else default
  }

  /** The five `get`s: a member that is present is kept exactly as decoded,
      whatever its type; a missing one takes its default. */
  function FromObject(o: Object): (r: OllamaResponse)
    ensures "stats_table_id" in o ==> r.statsTableId == o["stats_table_id"]
    ensures "table_name" in o ==> r.tableName == o["table_name"]
    ensures "axis_mappings" in o ==> r.axisMappings == o["axis_mappings"]
    ensures "confidence" in o ==> r.confidence == o["confidence"]
    ensures "reasoning" in o ==> r.reasoning == o["reasoning"]
    ensures "stats_table_id" !in o ==> r.statsTableId == Text("")
    ensures "table_name" !in o ==> r.tableName == Text("")
    ensures "axis_mappings" !in o ==> r.axisMappings == Dict(map[])
    ensures "confidence" !in o ==> r.confidence == Number(0.0)
    ensures "reasoning" !in o ==> r.reasoning == Text("")
  {
    OllamaResponse(Get(o, "stats_table_id", Text("")), Get(o, "table_name", Text("")),
                   Get(o, "axis_mappings", Dict(map[])), Get(o, "confidence", Number(0.0)),
                   Get(o, "reasoning", Text("")))
  }

  /** Reading the five members back gives the answer that was written. */
  lemma ObjectRoundTrip(r: OllamaResponse)
    ensures FromObject(ToObject(r)) == r
  {
  }

  /** An object carrying all five members is, on those members, the object
      its answer writes. */
  lemma AnswerRoundTrip(o: Object)
    requires AnswerKeys <= o.Keys
    ensures ToObject(FromObject(o)) == map k | k in AnswerKeys :: o[k]
  {
  }

  /** `_parse_ollama_response`: never fails; an answer that is not a str
      (`re.search` raises), no span, or a span that does not decode give
      the fixed answer; a decoded object is read member by member. */
  function ParseResponse(c: Codec, answer: Value): (r: OllamaResponse)
    ensures !answer.Text? ==> r == FixedFallback
    ensures answer.Text? && JsonSpan(answer.s).None? ==> r == FixedFallback
    ensures answer.Text? && JsonSpan(answer.s).Some? && c.loadObject(JsonSpan(answer.s).value).None? ==>
      r == FixedFallback
    ensures answer.Text? && JsonSpan(answer.s).Some? && c.loadObject(JsonSpan(answer.s).value).Some? ==>
      r == FromObject(c.loadObject(JsonSpan(answer.s).value).value)
  {
    if !answer.Text? then FixedFallback
    else match JsonSpan(answer.s)
      case None => FixedFallback
      case Some(span) =>
        match c.loadObject(span)
        case None => FixedFallback
        case Some(o) => FromObject(o)
  }

  /** Text framed by braces is its own span. */
  lemma SpanOfFramed(t: string)
    requires |t| >= 2 && t[0] == '{' && t[|t| - 1] == '}'
    ensures JsonSpan(t) == Some(t)
  {
    assert FirstIndex(t, '{') == Some(0);
    assert LastIndex(t, '}') == Some(|t| - 1);
    assert t[0..|t|] == t;
  }

  /** Encoded objects are their own span, so parsing what the codec wrote
      reads the object back, member by member and whatever the members'
      types. */
  lemma ParseEncoded(c: Codec, o: Object)
    requires Lawful(c)
    ensures ParseResponse(c, Text(c.dumpObject(o))) == FromObject(o)
  {
    var t := c.dumpObject(o);
    SpanOfFramed(t);
    assert c.loadObject(t) == Some(o);
  }

  /** Parsing the text of an answer gives that answer back. */
  lemma ParseAnswer(c: Codec, r: OllamaResponse)
    requires Lawful(c)
    ensures ParseResponse(c, Text(c.dumpObject(ToObject(r)))) == r
  {
    ParseEncoded(c, ToObject(r));
    ObjectRoundTrip(r);
  }

  /** An object whose members are all missing parses to all defaults. */
  lemma ParseEmptyObject(c: Codec)
    requires Lawful(c)
    ensures ParseResponse(c, Text(c.dumpObject(map[])))
         == OllamaResponse(Text(""), Text(""), Dict(map[]), Number(0.0), Text(""))
  {
    ParseEncoded(c, map[]);
  }

  // ---------------------------------------------------------------------
  // The canned answer read back

  /** What the parser makes of `_fallback_response(prompt)`. */
  lemma FallbackParsed(c: Codec, prompt: string)
    requires Lawful(c)
    ensures var r := ParseResponse(c, Text(FallbackResponse(c, prompt)));
      && (Contains(prompt, "人口") ==>
            r.statsTableId == Text(CensusId) && r.confidence == Number(0.7)
            && r.axisMappings.Dict? && r.axisMappings.m.Keys == {"cdCat01", "cdCat02", "cdArea"})
      && (!Contains(prompt, "人口") && (Contains(prompt, "労働") || Contains(prompt, "失業")) ==>
            r.statsTableId == Text(LabourId) && r.confidence == Number(0.6)
            && r.axisMappings.Dict? && r.axisMappings.m.Keys == {"cdCat01", "cdCat02"})
      && (!Contains(prompt, "人口") && !Contains(prompt, "労働") && !Contains(prompt, "失業") ==>
            r.statsTableId == Text(CensusId) && r.confidence == Number(0.4)
            && r.axisMappings.Dict? && r.axisMappings.m.Keys == {"cdArea"})
    ensures var r := ParseResponse(c, Text(FallbackResponse(c, prompt)));
      r.axisMappings.Dict? && forall a :: a in r.axisMappings.m ==> r.axisMappings.m[a].Text?
  {
    ParseAnswer(c, FallbackAnswer(prompt));
    if Contains(prompt, "人口") {
      TextMapKeys(map["cdCat01" := "年齢階級", "cdCat02" := "男女別", "cdArea" := "地域コード"]);
    } else if Contains(prompt, "労働") || Contains(prompt, "失業") {
      TextMapKeys(map["cdCat01" := "労働力状態", "cdCat02" := "男女別"]);
    } else {
      TextMapKeys(map["cdArea" := "地域コード"]);
    }
  }

  lemma TextMapKeys(axes: map<string, string>)
    ensures TextMap(axes).m.Keys == axes.Keys
    ensures forall a :: a in TextMap(axes).m ==> TextMap(axes).m[a].Text?
  {
  }

  // ---------------------------------------------------------------------
  // Prompt and suggestion

  /** The sample catalog description used while no real catalog is loaded. */
  const SampleContext: string :=
    "利用可能な主要統計表（サンプル）:\n【人口・世帯】\n  00200521001: 国勢調査（人口等基本集計）\n"
    + "  0000020101: 人口推計（月報）\n【労働・雇用】\n  00450011001: 労働力調査（基本集計）\n"
    + "【家計・消費】\n  00200553001: 家計調査（家計収支編）\n"

  /** The catalog part of the prompt: the rendered real catalog when one is
      loaded, the sample otherwise. */
  function StatsContext(loaded: Option<string>): string {
    loaded.GetOr(SampleContext)
  }

  /** `_build_suggestion_prompt`, reduced to the parts that vary: the query,
      the first region and period (or `指定なし`), then the catalog context. */
  function BuildPrompt(query: string, region: Option<string>, period: Option<string>, context: string): string {
    ("【クエリ】\n" + query + "\n地域: " + region.GetOr("指定なし") + "\n時期: " + period.GetOr("指定なし") + "\n")
    + context + "\n軸コード情報:\n"
  }

  /** `suggest_stats_table_and_axes` */
  function Suggest(c: Codec, available: bool, reply: Reply, query: string, region: Option<string>,
                   period: Option<string>, loaded: Option<string>): OllamaResponse
  {
    ParseResponse(c, CallOllama(c, available, reply, BuildPrompt(query, region, period, StatsContext(loaded))))
  }

  /** A 200 reply whose `"response"` is the text of `o`. */
  function AnswerText(c: Codec, o: Object): Reply {
    Answered(200, Some(Text(c.dumpObject(o))))
  }

  /** Whatever the prompt, a model that answers with the text of `o` has
      `o` read back member by member. */
  lemma SuggestReadsAnswer(c: Codec, o: Object, query: string, region: Option<string>,
                           period: Option<string>, loaded: Option<string>)
    requires Lawful(c)
    ensures Suggest(c, true, AnswerText(c, o), query, region, period, loaded) == FromObject(o)
  {
    ParseEncoded(c, o);
  }

  lemma SampleMentionsPopulation()
    ensures Contains(SampleContext, "人口")
  {
    var first := "利用可能な主要統計表（サンプル）:\n【人口・世帯】\n  00200521001: 国勢調査（人口等基本集計）\n";
    var rest := "  0000020101: 人口推計（月報）\n【労働・雇用】\n  00450011001: 労働力調査（基本集計）\n"
      + "【家計・消費】\n  00200553001: 家計調査（家計収支編）\n";
    FirstLineMentions(first);
    ContainsInMiddle("", first, rest, "人口");
    assert SampleContext == "" + first + rest;
  }

  lemma FirstLineMentions(first: string)
    requires first == "利用可能な主要統計表（サンプル）:\n【人口・世帯】\n  00200521001: 国勢調査（人口等基本集計）\n"
    ensures Contains(first, "人口")
  {
    assert first[19] == '人' && first[20] == '口';
    assert first[19..21] == "人口";
    OccursWitness(first, "人口", 19);
  }

  /** Without a loaded catalog the prompt always mentions population, so an
      unreachable or failing assistant always yields the census suggestion
      with confidence 0.7, whatever the query. */
  lemma OfflineSuggestion(c: Codec, available: bool, reply: Reply, query: string,
                          region: Option<string>, period: Option<string>)
    requires Lawful(c)
    requires !available || reply.Raised? || reply.status != 200
    ensures var r := Suggest(c, available, reply, query, region, period, None);
      r.statsTableId == Text(CensusId) && r.confidence == Number(0.7)
      && r.axisMappings.Dict? && r.axisMappings.m.Keys == {"cdCat01", "cdCat02", "cdArea"}
      && forall a :: a in r.axisMappings.m ==> r.axisMappings.m[a].Text?
  {
    var head := "【クエリ】\n" + query + "\n地域: " + region.GetOr("指定なし") + "\n時期: " + period.GetOr("指定なし") + "\n";
    SampleMentionsPopulation();
    ContainsInMiddle(head, SampleContext, "\n軸コード情報:\n", "人口");
    FallbackParsed(c, BuildPrompt(query, region, period, SampleContext));
  }
}
