/** The translator's two fixed lexicons: the area gazetteer (name to
    e-Stat area code, prefecture names with and without their 県/都/府
    suffix) and the statistical-item lexicon (label to synonyms). Both are
    Python dicts whose keys are all distinct, so iteration order is the
    order written and a key lookup finds the single entry. */
module Lexicon {
  import opened Wrappers
  import opened Strings
  import Seqs

  /** A lexicon key: non-empty, with no whitespace at either end, so that
      `str.strip` on a query can never cut into an occurrence of it. */
  type Term = p: string | Word(p) witness "x"

  function Area(name: Term, code: string): (Term, string) { (name, code) }

  function Item(item: Term, synonyms: seq<string>): (Term, seq<string>) { (item, synonyms) }

  const HokkaidoTohokuAreas: seq<(Term, string)> := [
    Area("全国", "00000"), Area("北海道", "01000"), Area("青森", "02000"), Area("青森県", "02000"),
    Area("岩手", "03000"), Area("岩手県", "03000"), Area("宮城", "04000"), Area("宮城県", "04000"),
    Area("秋田", "05000"), Area("秋田県", "05000"), Area("山形", "06000"), Area("山形県", "06000"),
    Area("福島", "07000"), Area("福島県", "07000")
  ]

  const KantoAreas: seq<(Term, string)> := [
    Area("茨城", "08000"), Area("茨城県", "08000"), Area("栃木", "09000"), Area("栃木県", "09000"),
    Area("群馬", "10000"), Area("群馬県", "10000"), Area("埼玉", "11000"), Area("埼玉県", "11000"),
    Area("千葉", "12000"), Area("千葉県", "12000"), Area("東京", "13000"), Area("東京都", "13000"),
    Area("神奈川", "14000"), Area("神奈川県", "14000")
  ]

  const ChubuAreas: seq<(Term, string)> := [
    Area("新潟", "15000"), Area("新潟県", "15000"), Area("富山", "16000"), Area("富山県", "16000"),
    Area("石川", "17000"), Area("石川県", "17000"), Area("福井", "18000"), Area("福井県", "18000"),
    Area("山梨", "19000"), Area("山梨県", "19000"), Area("長野", "20000"), Area("長野県", "20000"),
    Area("岐阜", "21000"), Area("岐阜県", "21000"), Area("静岡", "22000"), Area("静岡県", "22000"),
    Area("愛知", "23000"), Area("愛知県", "23000")
  ]

  const KinkiAreas: seq<(Term, string)> := [
    Area("三重", "24000"), Area("三重県", "24000"), Area("滋賀", "25000"), Area("滋賀県", "25000"),
    Area("京都", "26000"), Area("京都府", "26000"), Area("大阪", "27000"), Area("大阪府", "27000"),
    Area("兵庫", "28000"), Area("兵庫県", "28000"), Area("奈良", "29000"), Area("奈良県", "29000"),
    Area("和歌山", "30000"), Area("和歌山県", "30000")
  ]

  const ChugokuShikokuAreas: seq<(Term, string)> := [
    Area("鳥取", "31000"), Area("鳥取県", "31000"), Area("島根", "32000"), Area("島根県", "32000"),
    Area("岡山", "33000"), Area("岡山県", "33000"), Area("広島", "34000"), Area("広島県", "34000"),
    Area("山口", "35000"), Area("山口県", "35000"), Area("徳島", "36000"), Area("徳島県", "36000"),
    Area("香川", "37000"), Area("香川県", "37000"), Area("愛媛", "38000"), Area("愛媛県", "38000"),
    Area("高知", "39000"), Area("高知県", "39000")
  ]

  const KyushuAreas: seq<(Term, string)> := [
    Area("福岡", "40000"), Area("福岡県", "40000"), Area("佐賀", "41000"), Area("佐賀県", "41000"),
    Area("長崎", "42000"), Area("長崎県", "42000"), Area("熊本", "43000"), Area("熊本県", "43000"),
    Area("大分", "44000"), Area("大分県", "44000"), Area("宮崎", "45000"), Area("宮崎県", "45000"),
    Area("鹿児島", "46000"), Area("鹿児島県", "46000"), Area("沖縄", "47000"), Area("沖縄県", "47000")
  ]

  /** `area_mappings`, nation first, then the prefectures in code order. */
  const Gazetteer: seq<(Term, string)> :=
    HokkaidoTohokuAreas + KantoAreas + ChubuAreas + KinkiAreas + ChugokuShikokuAreas + KyushuAreas

  /** `stats_keywords` */
  const ItemLexicon: seq<(Term, seq<string>)> := [
      Item("人口", ["国勢調査", "人口推計", "住民基本台帳"]),
      Item("失業率", ["労働力調査", "完全失業率"]),
      Item("雇用", ["労働力調査", "就業構造基本調査"]),
      Item("賃金", ["毎月勤労統計", "賃金構造基本統計"]),
      Item("物価", ["消費者物価指数", "企業物価指数"]),
      Item("GDP", ["国民経済計算", "GDP"]),
      Item("家計", ["家計調査", "家計収支"]),
      Item("企業", ["法人企業統計", "企業活動基本調査"]),
      Item("建設", ["建設工事統計", "建築着工統計"]),
      Item("農業", ["農林業センサス", "作物統計"]),
      Item("工業", ["工業統計", "鉱工業指数"]),
      Item("商業", ["商業統計", "商業販売統計"])
  ]

  /** The translator's knowledge: `area_mappings` and `stats_keywords`. */
  datatype KnowledgeBase = KnowledgeBase(areas: seq<(string, string)>, items: seq<(string, seq<string>)>)
  {
    function AreaNames(): seq<string> { Seqs.Keys(areas) }

    function ItemLabels(): seq<string> { Seqs.Keys(items) }

    /** `area_mappings.get(name)` */
    function AreaCode(name: string): Option<string> { Seqs.Find(areas, name) }

    /** `stats_keywords[item]`, empty for a name that is not a label */
    function Synonyms(item: string): seq<string> { Seqs.Find(items, item).GetOr([]) }

    /** Every key is a word and the item labels are distinct. */
    ghost predicate Valid() {
      && (forall k :: 0 <= k < |areas| ==> Word(areas[k].0))
      && (forall k :: 0 <= k < |items| ==> Word(items[k].0))
      && Seqs.NoDup(ItemLabels())
    }
  }

  const Default: KnowledgeBase := KnowledgeBase(Gazetteer, ItemLexicon)

  lemma LexiconLabels()
    ensures Seqs.Keys(ItemLexicon) == ["人口", "失業率", "雇用", "賃金", "物価", "GDP", "家計", "企業", "建設", "農業", "工業", "商業"]
  {
  }

  lemma DistinctLabels(labels: seq<string>)
    requires labels == ["人口", "失業率", "雇用", "賃金", "物価", "GDP", "家計", "企業", "建設", "農業", "工業", "商業"]
    ensures Seqs.NoDup(labels)
  {
  }

  lemma DefaultValid()
    ensures Default.Valid()
  {
    forall k | 0 <= k < |Default.areas| ensures Word(Default.areas[k].0) {
      var t: Term := Gazetteer[k].0;
    }
    forall k | 0 <= k < |Default.items| ensures Word(Default.items[k].0) {
      var t: Term := ItemLexicon[k].0;
    }
    LexiconLabels();
    assert Default.ItemLabels() == Seqs.Keys(ItemLexicon);
    DistinctLabels(Seqs.Keys(ItemLexicon));
  }

  /** Where Tokyo and Kyoto sit in the gazetteer. */
  lemma TokyoKyotoNames()
    ensures |Default.AreaNames()| == 94
    ensures Default.AreaNames()[24] == "東京" && Default.AreaNames()[25] == "東京都"
    ensures Default.AreaNames()[50] == "京都"
  {
    assert Gazetteer[24] == KantoAreas[10] && Gazetteer[25] == KantoAreas[11];
    assert Gazetteer[50] == KinkiAreas[4];
  }
}
