/** The job-listings dashboard of the main module: the title-category
    table, the classification of every listing's title (the title_category
    column) and the two callbacks that read that column: the category
    distribution behind the bar chart and the list of unclassified titles. */
module MainApp {
  import opened Wrappers
  import opened Text
  import opened Counting
  import opened Classifier

  /** The keywords of each title category. */
  const JuniorKeywords: seq<string> := ["junior", "jr", "entry level", "entry-level", "analyst i", "analyst 1"]
  const SeniorKeywords: seq<string> := ["senior", "sr", "analyst ii", "analyst 2", "analyst iii", "analyst 3", "advanced"]
  const LeadKeywords: seq<string> := ["lead", "director", "manager", "leader", "principal", "cto"]
  const RemoteKeywords: seq<string> := ["remote"]
  const BusinessKeywords: seq<string> := ["business", "commercial", "ecommerce", "commerce"]
  const BiKeywords: seq<string> := ["business intelligence", "bi"]
  const ScienceKeywords: seq<string> := ["science", "scientist", "research", "researcher", "scientific"]
  const MarketingKeywords: seq<string> := ["marketing", "market", "salesforce", "sales", "product", "production", "online retail", "trade"]
  const FinanceKeywords: seq<string> := ["financial", "finance"]
  const EngineeringKeywords: seq<string> := ["engineer", "engineering"]
  const HealthcareKeywords: seq<string> := ["health", "healthcare", "medical", "clinical", "patient"]
  const QualityKeywords: seq<string> := ["quality"]
  const SupplyChainKeywords: seq<string> := ["supply chain", "logistics"]
  const GisKeywords: seq<string> := ["gis", "geospatial", "geographic"]
  const OperationsKeywords: seq<string> := ["operations"]
  const TechnicalKeywords: seq<string> := ["technical", "tech", "technology", "it"]
  const HrKeywords: seq<string> := ["hr", "human resources"]
  const DataAnalystKeywords: seq<string> := ["data analyst", "data analysis", "data analyse", "data analyze", "data analytics"]
  const RiskKeywords: seq<string> := ["risk", "risks"]
  const GoogleKeywords: seq<string> := ["google", "ga4", "ga"]
  const QualitativeKeywords: seq<string> := ["qualitative"]
  const ExcelKeywords: seq<string> := ["excel"]
  const GovernanceKeywords: seq<string> := ["governance"]

  /** The title categories with their keywords, in the table's own order. */
  const TitleCategories: Table := [
    ("Junior Data Analysts", JuniorKeywords),
    ("Senior Data Analysts", SeniorKeywords),
    ("Lead Data Analysts", LeadKeywords),
    ("Remote Data Analysts", RemoteKeywords),
    ("Business Data Analysts", BusinessKeywords),
    ("BI Data Analysts", BiKeywords),
    ("Data Scientists", ScienceKeywords),
    ("Marketing Data Analysts", MarketingKeywords),
    ("Financial Data Analysts", FinanceKeywords),
    ("Data Engineers", EngineeringKeywords),
    ("Healthcare Data Analysts", HealthcareKeywords),
    ("Quality Data Analysts", QualityKeywords),
    ("Supply Chain Data Analysts", SupplyChainKeywords),
    ("GIS Data Analysts", GisKeywords),
    ("Operations Data Analysts", OperationsKeywords),
    ("Technical Data Analysts", TechnicalKeywords),
    ("HR Data Analysts", HrKeywords),
    ("Data Analysts", DataAnalystKeywords),
    ("Risk Analysts", RiskKeywords),
    ("Google Analytics expert", GoogleKeywords),
    ("Qualitative Data Analysts", QualitativeKeywords),
    ("Excel expert", ExcelKeywords),
    ("Data Governance Analyst", GovernanceKeywords)
  ]

  /** A job listing: its title and the category its title was given. */
  datatype Posting = Posting(title: string, titleCategory: string)

  /** The title_category column. */
  function CategoryColumn(df: seq<Posting>): (col: seq<string>)
    ensures |col| == |df| && forall i :: 0 <= i < |df| ==> col[i] == df[i].titleCategory
  {
    if df == [] then [] else [df[0].titleCategory] + CategoryColumn(df[1..])
  }

  /** Classifies every listing of the frame in place: afterwards each
      listing carries the category of its own title, and nothing else of
      the frame has changed. */
  method ApplyCategories(df: array<Posting>)
    modifies df
    ensures forall i :: 0 <= i < df.Length ==>
      df[i] == Posting(old(df[i].title), Categorize(old(df[i].title), TitleCategories))
  {
    forall i | 0 <= i < df.Length {
      df[i] := df[i].(titleCategory := Categorize(df[i].title, TitleCategories));
    }
  }

  /** After the column is written, every category in it is "Other" or one of
      the table's categories. */
  lemma CategoriesAreKnown(df: seq<Posting>, i: nat)
    requires i < |df| && df[i].titleCategory == Categorize(df[i].title, TitleCategories)
    ensures df[i].titleCategory == Unmatched
         || exists j :: 0 <= j < |TitleCategories| && TitleCategories[j].0 == df[i].titleCategory
  {
  }

  // ------------------------------------------------------- the bar chart

  /** The listings of category c, in frame order. */
  function InCategory(df: seq<Posting>, c: string): seq<Posting> {
    Filter(df, (p: Posting) => p.titleCategory == c)
  }

  /** The frame the bar chart counts: the selected category's listings when a
      category is selected, the whole frame otherwise. */
  function ChartFrame(df: seq<Posting>, selected: Option<string>): seq<Posting> {
    if Truthy(selected) then InCategory(df, selected.value) else df
  }

  /** The (category, count) rows of update_job_title_bar_chart, in the order
      value_counts returned. With a selection there is at most one row, the
      selected category with every listing of it; without one, the counts
      add up to the number of listings. */
  function CategoryCounts(df: seq<Posting>, selected: Option<string>, order: seq<string>): (r: seq<(string, nat)>)
    requires IsValueCountsOrder(CategoryColumn(ChartFrame(df, selected)), order)
    ensures NonIncreasing(r)
    ensures Truthy(selected) ==> |r| <= 1
    ensures Truthy(selected) && |r| == 1 ==> r[0] == (selected.value, Count(CategoryColumn(df), selected.value))
    ensures Truthy(selected) ==> (|r| == 0 <==> selected.value !in CategoryColumn(df))
    ensures !Truthy(selected) ==> SumCounts(r) == |df|
    ensures !Truthy(selected) ==> |r| == |order| && forall i :: 0 <= i < |r| ==>
      r[i] == (order[i], Count(CategoryColumn(df), order[i]))
  {
    var col := CategoryColumn(ChartFrame(df, selected));
    ValueCountsSorted(col, order);
    ValueCountsTotal(col, order);
    SelectedGroup(df, selected, order);
    CountsInOrder(col, order)
  }

  /** With a selection, the group order holds at most the selected category,
      and holds it exactly when the frame has listings of it. */
  lemma SelectedGroup(df: seq<Posting>, selected: Option<string>, order: seq<string>)
    requires IsValueCountsOrder(CategoryColumn(ChartFrame(df, selected)), order)
    ensures Truthy(selected) ==> |order| <= 1
    ensures Truthy(selected) && |order| == 1 ==> order[0] == selected.value
    ensures Truthy(selected) && |order| == 1 ==>
      Count(CategoryColumn(ChartFrame(df, selected)), order[0]) == Count(CategoryColumn(df), selected.value)
    ensures Truthy(selected) ==> (|order| == 0 <==> selected.value !in CategoryColumn(df))
  {
    if Truthy(selected) {
      var c := selected.value;
      SelectionCounts(df, c);
      SingleLabel(CategoryColumn(ChartFrame(df, selected)), order, c);
      CountedIffPresent(CategoryColumn(df), c);
    }
  }

  /** Filtering on category c keeps exactly the listings of c. */
  lemma {:induction false} SelectionCounts(df: seq<Posting>, c: string)
    ensures forall i :: 0 <= i < |InCategory(df, c)| ==> CategoryColumn(InCategory(df, c))[i] == c
    ensures Count(CategoryColumn(InCategory(df, c)), c) == Count(CategoryColumn(df), c)
    ensures |InCategory(df, c)| == Count(CategoryColumn(df), c)
  {
    if df != [] {
      SelectionCounts(df[1..], c);
      var keep := (p: Posting) => p.titleCategory == c;
      assert InCategory(df, c) == (if keep(df[0]) then [df[0]] else []) + InCategory(df[1..], c);
      assert CategoryColumn(df)[1..] == CategoryColumn(df[1..]);
      var head := if keep(df[0]) then [df[0]] else [];
      CategoryColumnAppend(head, InCategory(df[1..], c));
      CountAppend(CategoryColumn(head), CategoryColumn(InCategory(df[1..], c)), c);
    }
  }

  lemma CategoryColumnAppend(a: seq<Posting>, b: seq<Posting>)
    ensures CategoryColumn(a + b) == CategoryColumn(a) + CategoryColumn(b)
  {
  }

  /** A value-counts order of a column holding only c has c alone, if anything. */
  lemma SingleLabel(col: seq<string>, order: seq<string>, c: string)
    requires IsValueCountsOrder(col, order)
    requires forall i :: 0 <= i < |col| ==> col[i] == c
    ensures |order| <= 1
    ensures |order| == 1 ==> order[0] == c
    ensures |order| == 0 <==> |col| == 0
  {
    forall i | 0 <= i < |order| ensures order[i] == c {
      assert order[i] in col;
    }
    DistinctWithin(order, {c});
    if |order| > 0 {
      assert order[0] in col;
    }
    if |col| > 0 {
      assert col[0] in order;
    }
  }

  // ---------------------------------------------------- the "Other" titles

  /** What the "Other" callback renders: nothing, or a paragraph per title. */
  datatype OtherTitlesView = Blank | Paragraphs(titles: seq<string>)

  /** The titles classified "Other", in frame order. */
  function OtherTitles(df: seq<Posting>): (titles: seq<string>)
    ensures |titles| == Count(CategoryColumn(df), Unmatched)
  {
    SelectionCounts(df, Unmatched);
    var others := InCategory(df, Unmatched);
    seq(|others|, i requires 0 <= i < |others| => others[i].title)
  }

  /** show_other_category_titles: before the first click (n_clicks None or
      0) it renders nothing; afterwards one paragraph per "Other" title, in
      frame order. */
  function ShowOtherCategoryTitles(df: seq<Posting>, nClicks: Option<int>): (r: OtherTitlesView)
    ensures (nClicks.None? || nClicks.value == 0) <==> r == Blank
    ensures r.Paragraphs? ==> r.titles == OtherTitles(df)
    ensures r.Paragraphs? ==> |r.titles| == Count(CategoryColumn(df), Unmatched)
    ensures r.Paragraphs? ==> forall t :: t in r.titles <==> exists p :: p in df && p.titleCategory == Unmatched && p.title == t
  {
    if nClicks.Some? && nClicks.value != 0 then
      OtherTitlesMembers(df);
      Paragraphs(OtherTitles(df))
    else Blank
  }

  /** A title is listed exactly when some listing with that title is "Other". */
  lemma OtherTitlesMembers(df: seq<Posting>)
    ensures forall t :: t in OtherTitles(df) <==> exists p :: p in df && p.titleCategory == Unmatched && p.title == t
  {
    var others := InCategory(df, Unmatched);
    forall t | t in OtherTitles(df)
      ensures exists p :: p in df && p.titleCategory == Unmatched && p.title == t
    {
      var i :| 0 <= i < |others| && OtherTitles(df)[i] == t;
      assert others[i] in df;
    }
    forall t | (exists p :: p in df && p.titleCategory == Unmatched && p.title == t)
      ensures t in OtherTitles(df)
    {
      var p :| p in df && p.titleCategory == Unmatched && p.title == t;
      var k :| 0 <= k < |df| && df[k] == p;
      assert p in others;
      var i :| 0 <= i < |others| && others[i] == p;
      assert OtherTitles(df)[i] == t;
    }
  }

  /** The titles keep frame order: the list for two frames one after the
      other is the first frame's list followed by the second's. */
  lemma OtherTitlesAppend(a: seq<Posting>, b: seq<Posting>)
    ensures OtherTitles(a + b) == OtherTitles(a) + OtherTitles(b)
  {
    FilterAppend(a, b, (p: Posting) => p.titleCategory == Unmatched);
  }

  // ------------------------------------------------ classification examples

  /** The words of "abigail smith" begin with a, s. */
  const AbigailStarts: set<char> := {'a', 's'}

  lemma AbigailWordStarts()
    ensures WordStartsAmong("abigail smith", AbigailStarts)
  {
  }

  /** The characters of "abigail smith". */
  const AbigailChars: set<char> := {' ', 'a', 'b', 'g', 'h', 'i', 'l', 'm', 's', 't'}

  lemma AbigailCharacters()
    ensures CharsAmong("abigail smith", AbigailChars)
  {
  }

  lemma AbigailLacksBi()
    ensures !OccursAsWord("abigail smith", "bi")
  {
    var t := "abigail smith";
    OnlyCandidates(t, "bi", []);
  }

  lemma AbigailLacksGis()
    ensures !OccursAsWord("abigail smith", "gis")
  {
    var t := "abigail smith";
    OnlyCandidates(t, "gis", []);
  }

  lemma AbigailLacksGa()
    ensures !OccursAsWord("abigail smith", "ga")
  {
    var t := "abigail smith";
    OnlyCandidates(t, "ga", []);
  }

  lemma AbigailLacksIt()
    ensures !OccursAsWord("abigail smith", "it")
  {
    var t := "abigail smith";
    OnlyCandidates(t, "it", []);
  }

  lemma AbigailNotJunior()
    ensures !EntryMatches("abigail smith", JuniorKeywords)
  {
    var t := "abigail smith";
    AbigailWordStarts();
    AbigailCharacters();
    NoWordStartsWith(t, "junior", AbigailStarts);
    NoWordStartsWith(t, "jr", AbigailStarts);
    NoWordStartsWith(t, "entry level", AbigailStarts);
    NoWordStartsWith(t, "entry-level", AbigailStarts);
    LetterOutside(t, "analyst i", 1, AbigailChars);
    LetterOutside(t, "analyst 1", 1, AbigailChars);
  }

  lemma AbigailNotSenior()
    ensures !EntryMatches("abigail smith", SeniorKeywords)
  {
    var t := "abigail smith";
    AbigailCharacters();
    LetterOutside(t, "senior", 1, AbigailChars);
    LetterOutside(t, "sr", 1, AbigailChars);
    LetterOutside(t, "analyst ii", 1, AbigailChars);
    LetterOutside(t, "analyst 2", 1, AbigailChars);
    LetterOutside(t, "analyst iii", 1, AbigailChars);
    LetterOutside(t, "analyst 3", 1, AbigailChars);
    LetterOutside(t, "advanced", 1, AbigailChars);
  }

  lemma AbigailNotLead()
    ensures !EntryMatches("abigail smith", LeadKeywords)
  {
    var t := "abigail smith";
    AbigailWordStarts();
    NoWordStartsWith(t, "lead", AbigailStarts);
    NoWordStartsWith(t, "director", AbigailStarts);
    NoWordStartsWith(t, "manager", AbigailStarts);
    NoWordStartsWith(t, "leader", AbigailStarts);
    NoWordStartsWith(t, "principal", AbigailStarts);
    NoWordStartsWith(t, "cto", AbigailStarts);
  }

  lemma AbigailNotRemote()
    ensures !EntryMatches("abigail smith", RemoteKeywords)
  {
    var t := "abigail smith";
    AbigailWordStarts();
    NoWordStartsWith(t, "remote", AbigailStarts);
  }

  lemma AbigailNotBusiness()
    ensures !EntryMatches("abigail smith", BusinessKeywords)
  {
    var t := "abigail smith";
    AbigailWordStarts();
    NoWordStartsWith(t, "business", AbigailStarts);
    NoWordStartsWith(t, "commercial", AbigailStarts);
    NoWordStartsWith(t, "ecommerce", AbigailStarts);
    NoWordStartsWith(t, "commerce", AbigailStarts);
  }

  lemma AbigailNotBi()
    ensures !EntryMatches("abigail smith", BiKeywords)
  {
    var t := "abigail smith";
    AbigailWordStarts();
    NoWordStartsWith(t, "business intelligence", AbigailStarts);
    AbigailLacksBi();
  }

  lemma AbigailNotScience()
    ensures !EntryMatches("abigail smith", ScienceKeywords)
  {
    var t := "abigail smith";
    AbigailWordStarts();
    AbigailCharacters();
    LetterOutside(t, "science", 1, AbigailChars);
    LetterOutside(t, "scientist", 1, AbigailChars);
    NoWordStartsWith(t, "research", AbigailStarts);
    NoWordStartsWith(t, "researcher", AbigailStarts);
    LetterOutside(t, "scientific", 1, AbigailChars);
  }

  lemma AbigailNotMarketing()
    ensures !EntryMatches("abigail smith", MarketingKeywords)
  {
    var t := "abigail smith";
    AbigailWordStarts();
    AbigailCharacters();
    NoWordStartsWith(t, "marketing", AbigailStarts);
    NoWordStartsWith(t, "market", AbigailStarts);
    LetterOutside(t, "salesforce", 3, AbigailChars);
    LetterOutside(t, "sales", 3, AbigailChars);
    NoWordStartsWith(t, "product", AbigailStarts);
    NoWordStartsWith(t, "production", AbigailStarts);
    NoWordStartsWith(t, "online retail", AbigailStarts);
    NoWordStartsWith(t, "trade", AbigailStarts);
  }

  lemma AbigailNotFinance()
    ensures !EntryMatches("abigail smith", FinanceKeywords)
  {
    var t := "abigail smith";
    AbigailWordStarts();
    NoWordStartsWith(t, "financial", AbigailStarts);
    NoWordStartsWith(t, "finance", AbigailStarts);
  }

  lemma AbigailNotEngineering()
    ensures !EntryMatches("abigail smith", EngineeringKeywords)
  {
    var t := "abigail smith";
    AbigailWordStarts();
    NoWordStartsWith(t, "engineer", AbigailStarts);
    NoWordStartsWith(t, "engineering", AbigailStarts);
  }

  lemma AbigailNotHealthcare()
    ensures !EntryMatches("abigail smith", HealthcareKeywords)
  {
    var t := "abigail smith";
    AbigailWordStarts();
    NoWordStartsWith(t, "health", AbigailStarts);
    NoWordStartsWith(t, "healthcare", AbigailStarts);
    NoWordStartsWith(t, "medical", AbigailStarts);
    NoWordStartsWith(t, "clinical", AbigailStarts);
    NoWordStartsWith(t, "patient", AbigailStarts);
  }

  lemma AbigailNotQuality()
    ensures !EntryMatches("abigail smith", QualityKeywords)
  {
    var t := "abigail smith";
    AbigailWordStarts();
    NoWordStartsWith(t, "quality", AbigailStarts);
  }

  lemma AbigailNotSupplyChain()
    ensures !EntryMatches("abigail smith", SupplyChainKeywords)
  {
    var t := "abigail smith";
    AbigailWordStarts();
    AbigailCharacters();
    LetterOutside(t, "supply chain", 1, AbigailChars);
    NoWordStartsWith(t, "logistics", AbigailStarts);
  }

  lemma AbigailNotGis()
    ensures !EntryMatches("abigail smith", GisKeywords)
  {
    var t := "abigail smith";
    AbigailWordStarts();
    AbigailLacksGis();
    NoWordStartsWith(t, "geospatial", AbigailStarts);
    NoWordStartsWith(t, "geographic", AbigailStarts);
  }

  lemma AbigailNotOperations()
    ensures !EntryMatches("abigail smith", OperationsKeywords)
  {
    var t := "abigail smith";
    AbigailWordStarts();
    NoWordStartsWith(t, "operations", AbigailStarts);
  }

  lemma AbigailNotTechnical()
    ensures !EntryMatches("abigail smith", TechnicalKeywords)
  {
    var t := "abigail smith";
    AbigailWordStarts();
    NoWordStartsWith(t, "technical", AbigailStarts);
    NoWordStartsWith(t, "tech", AbigailStarts);
    NoWordStartsWith(t, "technology", AbigailStarts);
    AbigailLacksIt();
  }

  lemma AbigailNotHr()
    ensures !EntryMatches("abigail smith", HrKeywords)
  {
    var t := "abigail smith";
    AbigailWordStarts();
    NoWordStartsWith(t, "hr", AbigailStarts);
    NoWordStartsWith(t, "human resources", AbigailStarts);
  }

  lemma AbigailNotDataAnalyst()
    ensures !EntryMatches("abigail smith", DataAnalystKeywords)
  {
    var t := "abigail smith";
    AbigailWordStarts();
    NoWordStartsWith(t, "data analyst", AbigailStarts);
    NoWordStartsWith(t, "data analysis", AbigailStarts);
    NoWordStartsWith(t, "data analyse", AbigailStarts);
    NoWordStartsWith(t, "data analyze", AbigailStarts);
    NoWordStartsWith(t, "data analytics", AbigailStarts);
  }

  lemma AbigailNotRisk()
    ensures !EntryMatches("abigail smith", RiskKeywords)
  {
    var t := "abigail smith";
    AbigailWordStarts();
    NoWordStartsWith(t, "risk", AbigailStarts);
    NoWordStartsWith(t, "risks", AbigailStarts);
  }

  lemma AbigailNotGoogle()
    ensures !EntryMatches("abigail smith", GoogleKeywords)
  {
    var t := "abigail smith";
    AbigailWordStarts();
    NoWordStartsWith(t, "google", AbigailStarts);
    NoWordStartsWith(t, "ga4", AbigailStarts);
    AbigailLacksGa();
  }

  lemma AbigailNotQualitative()
    ensures !EntryMatches("abigail smith", QualitativeKeywords)
  {
    var t := "abigail smith";
    AbigailWordStarts();
    NoWordStartsWith(t, "qualitative", AbigailStarts);
  }

  lemma AbigailNotExcel()
    ensures !EntryMatches("abigail smith", ExcelKeywords)
  {
    var t := "abigail smith";
    AbigailWordStarts();
    NoWordStartsWith(t, "excel", AbigailStarts);
  }

  lemma AbigailNotGovernance()
    ensures !EntryMatches("abigail smith", GovernanceKeywords)
  {
    var t := "abigail smith";
    AbigailWordStarts();
    NoWordStartsWith(t, "governance", AbigailStarts);
  }

  lemma AbigailMissesAll()
    ensures forall j :: 0 <= j < |TitleCategories| ==> !EntryMatches("abigail smith", TitleCategories[j].1)
  {
    AbigailNotJunior();
    AbigailNotSenior();
    AbigailNotLead();
    AbigailNotRemote();
    AbigailNotBusiness();
    AbigailNotBi();
    AbigailNotScience();
    AbigailNotMarketing();
    AbigailNotFinance();
    AbigailNotEngineering();
    AbigailNotHealthcare();
    AbigailNotQuality();
    AbigailNotSupplyChain();
    AbigailNotGis();
    AbigailNotOperations();
    AbigailNotTechnical();
    AbigailNotHr();
    AbigailNotDataAnalyst();
    AbigailNotRisk();
    AbigailNotGoogle();
    AbigailNotQualitative();
    AbigailNotExcel();
    AbigailNotGovernance();
    forall j | 0 <= j < |TitleCategories| ensures !EntryMatches("abigail smith", TitleCategories[j].1) {
      if j == 0 {
        assert TitleCategories[j].1 == JuniorKeywords;
      } else if j == 1 {
        assert TitleCategories[j].1 == SeniorKeywords;
      } else if j == 2 {
        assert TitleCategories[j].1 == LeadKeywords;
      } else if j == 3 {
        assert TitleCategories[j].1 == RemoteKeywords;
      } else if j == 4 {
        assert TitleCategories[j].1 == BusinessKeywords;
      } else if j == 5 {
        assert TitleCategories[j].1 == BiKeywords;
      } else if j == 6 {
        assert TitleCategories[j].1 == ScienceKeywords;
      } else if j == 7 {
        assert TitleCategories[j].1 == MarketingKeywords;
      } else if j == 8 {
        assert TitleCategories[j].1 == FinanceKeywords;
      } else if j == 9 {
        assert TitleCategories[j].1 == EngineeringKeywords;
      } else if j == 10 {
        assert TitleCategories[j].1 == HealthcareKeywords;
      } else if j == 11 {
        assert TitleCategories[j].1 == QualityKeywords;
      } else if j == 12 {
        assert TitleCategories[j].1 == SupplyChainKeywords;
      } else if j == 13 {
        assert TitleCategories[j].1 == GisKeywords;
      } else if j == 14 {
        assert TitleCategories[j].1 == OperationsKeywords;
      } else if j == 15 {
        assert TitleCategories[j].1 == TechnicalKeywords;
      } else if j == 16 {
        assert TitleCategories[j].1 == HrKeywords;
      } else if j == 17 {
        assert TitleCategories[j].1 == DataAnalystKeywords;
      } else if j == 18 {
        assert TitleCategories[j].1 == RiskKeywords;
      } else if j == 19 {
        assert TitleCategories[j].1 == GoogleKeywords;
      } else if j == 20 {
        assert TitleCategories[j].1 == QualitativeKeywords;
      } else if j == 21 {
        assert TitleCategories[j].1 == ExcelKeywords;
      } else {
        assert TitleCategories[j].1 == GovernanceKeywords;
      }
    }
  }

  /** Whole words only: "bi" and "ga" sit inside "abigail", not at a word
      boundary, so no keyword of the table classifies "Abigail Smith", in
      any capitalisation. */
  lemma AbigailSmithIsOther(title: string)
    requires Lower(title) == "abigail smith"
    ensures Categorize(title, TitleCategories) == Unmatched
  {
    AbigailMissesAll();
    CategorizeNone(title, TitleCategories);
  }

  /** The words of "senior marketing analyst" begin with a, m, s. */
  const SeniorMarketingStarts: set<char> := {'a', 'm', 's'}

  lemma SeniorMarketingWordStarts()
    ensures WordStartsAmong("senior marketing analyst", SeniorMarketingStarts)
  {
  }

  /** The characters of "senior marketing analyst". */
  const SeniorMarketingChars: set<char> := {' ', 'a', 'e', 'g', 'i', 'k', 'l', 'm', 'n', 'o', 'r', 's', 't', 'y'}

  lemma SeniorMarketingCharacters()
    ensures CharsAmong("senior marketing analyst", SeniorMarketingChars)
  {
  }

  lemma SeniorMarketingLacksAnalystI()
    ensures !OccursAsWord("senior marketing analyst", "analyst i")
  {
    var t := "senior marketing analyst";
    OnlyCandidates(t, "analyst i", [17]);
  }

  /** No junior keyword occurs in "senior marketing analyst". */
  lemma SeniorMarketingNotJunior()
    ensures !EntryMatches("senior marketing analyst", JuniorKeywords)
  {
    var t := "senior marketing analyst";
    SeniorMarketingWordStarts();
    SeniorMarketingCharacters();
    NoWordStartsWith(t, "junior", SeniorMarketingStarts);
    NoWordStartsWith(t, "jr", SeniorMarketingStarts);
    NoWordStartsWith(t, "entry level", SeniorMarketingStarts);
    NoWordStartsWith(t, "entry-level", SeniorMarketingStarts);
    SeniorMarketingLacksAnalystI();
    LetterOutside(t, "analyst 1", 8, SeniorMarketingChars);
  }

  /** "senior" opens "senior marketing analyst": the senior entry matches. */
  lemma SeniorMarketingMatchesSenior()
    ensures EntryMatches("senior marketing analyst", TitleCategories[1].1)
  {
    assert TitleCategories[1].1 == SeniorKeywords && SeniorKeywords[0] == "senior";
    assert WholeWordAt("senior marketing analyst", "senior", 0);
  }

  /** "marketing" is its second word: the marketing entry matches too. */
  lemma SeniorMarketingMatchesMarketing()
    ensures EntryMatches("senior marketing analyst", TitleCategories[7].1)
  {
    assert TitleCategories[7].1 == MarketingKeywords && MarketingKeywords[0] == "marketing";
    assert WholeWordAt("senior marketing analyst", "marketing", 7);
  }
  /** Table order breaks ties: "Senior Marketing Analyst" has a senior and a
      marketing keyword, and the senior entry comes first. */
  lemma SeniorBeforeMarketing(title: string)
    requires Lower(title) == "senior marketing analyst"
    ensures EntryMatches(Lower(title), TitleCategories[7].1)
    ensures Categorize(title, TitleCategories) == "Senior Data Analysts"
  {
    SeniorMarketingJuniorEntry();
    SeniorMarketingMatchesSenior();
    SeniorMarketingMatchesMarketing();
    CategorizeFirst(title, TitleCategories, 1);
  }

  lemma SeniorMarketingJuniorEntry()
    ensures forall i :: 0 <= i < 1 ==> !EntryMatches("senior marketing analyst", TitleCategories[i].1)
  {
    SeniorMarketingNotJunior();
    assert TitleCategories[0].1 == JuniorKeywords;
  }
  /** The words of "data analyst ii" begin with a, d, i. */
  const AnalystTwoStarts: set<char> := {'a', 'd', 'i'}

  lemma AnalystTwoWordStarts()
    ensures WordStartsAmong("data analyst ii", AnalystTwoStarts)
  {
  }

  /** The characters of "data analyst ii". */
  const AnalystTwoChars: set<char> := {' ', 'a', 'd', 'i', 'l', 'n', 's', 't', 'y'}

  lemma AnalystTwoCharacters()
    ensures CharsAmong("data analyst ii", AnalystTwoChars)
  {
  }

  /** "analyst i" does not occur as a whole word in "data analyst ii": an
      "i" follows it. */
  lemma AnalystTwoLacksAnalystI()
    ensures !OccursAsWord("data analyst ii", "analyst i")
  {
    var t := "data analyst ii";
    OnlyCandidates(t, "analyst i", [5]);
  }

  /** No junior keyword occurs in "data analyst ii". */
  lemma AnalystTwoNotJunior()
    ensures !EntryMatches("data analyst ii", JuniorKeywords)
  {
    var t := "data analyst ii";
    AnalystTwoWordStarts();
    AnalystTwoCharacters();
    NoWordStartsWith(t, "junior", AnalystTwoStarts);
    NoWordStartsWith(t, "jr", AnalystTwoStarts);
    NoWordStartsWith(t, "entry level", AnalystTwoStarts);
    NoWordStartsWith(t, "entry-level", AnalystTwoStarts);
    AnalystTwoLacksAnalystI();
    LetterOutside(t, "analyst 1", 8, AnalystTwoChars);
  }

  /** "analyst ii" ends "data analyst ii": the senior entry matches. */
  lemma AnalystTwoMatchesSenior()
    ensures EntryMatches("data analyst ii", TitleCategories[1].1)
  {
    assert TitleCategories[1].1 == SeniorKeywords && SeniorKeywords[2] == "analyst ii";
    assert WholeWordAt("data analyst ii", "analyst ii", 5);
  }

  /** "data analyst" opens it: the generic data-analyst entry matches too. */
  lemma AnalystTwoMatchesDataAnalyst()
    ensures EntryMatches("data analyst ii", TitleCategories[17].1)
  {
    assert TitleCategories[17].1 == DataAnalystKeywords && DataAnalystKeywords[0] == "data analyst";
    assert WholeWordAt("data analyst ii", "data analyst", 0);
  }
  /** "analyst i" is not a whole word of "Data Analyst II", but "analyst ii"
      is; the senior entry also precedes the generic "data analyst" entry
      that matches too. */
  lemma AnalystTwoIsSenior(title: string)
    requires Lower(title) == "data analyst ii"
    ensures !OccursAsWord(Lower(title), "analyst i")
    ensures EntryMatches(Lower(title), TitleCategories[17].1)
    ensures Categorize(title, TitleCategories) == "Senior Data Analysts"
  {
    AnalystTwoLacksAnalystI();
    AnalystTwoJuniorEntry();
    AnalystTwoMatchesSenior();
    AnalystTwoMatchesDataAnalyst();
    CategorizeFirst(title, TitleCategories, 1);
  }

  lemma AnalystTwoJuniorEntry()
    ensures forall i :: 0 <= i < 1 ==> !EntryMatches("data analyst ii", TitleCategories[i].1)
  {
    AnalystTwoNotJunior();
    assert TitleCategories[0].1 == JuniorKeywords;
  }
}
