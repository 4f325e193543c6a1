/** The data-processing module of the dashboard: the two keyword tables that
    describe job levels and job domains, and the bucketing of salary text
    into eight fixed salary bands (map_salary_to_range).

    Bucketing compares the sum of the two figures averaged (twice the
    average) with doubled thresholds, so that the half-salaries of a range
    never leave the integers. */
module DataProcessing {
  import opened Wrappers
  import opened Text
  import opened Classifier

  // ------------------------------------------------------------ the tables

  /** Job levels, in the table's own order. */
  const LevelTable: Table := [
    ("Junior Data Analysts", ["junior", "jr", "entry level", "entry-level", "analyst i", "analyst 1", "intern"]),
    ("Senior Data Analysts", ["senior", "sr", "analyst ii", "analyst 2", "analyst iii", "analyst 3", "advanced"]),
    ("Lead Data Analysts", ["lead", "director", "manager", "leader", "cto"])
  ]

  /** Job domains, in the table's own order. */
  const DomainTable: Table := [
    ("BI Data Analysts", ["business intelligence"]),
    ("Google Analytics expert", ["google analytics", "ga4", "ga"]),
    ("Data Governance Analyst", ["governance"]),
    ("Qualitative Data Analysts", ["qualitative"]),
    ("Healthcare Data Analysts", ["healthcare", "clinical"]),
    ("Supply Chain Data Analysts", ["supply chain", "logistics"]),
    ("GIS Data Analysts", ["gis", "geospatial"]),
    ("HR Data Analysts", ["hr", "human resources"]),
    ("Marketing Data Analysts", ["marketing", "salesforce", "sales", "online retail", "advertising", "commercial", "ecommerce"]),
    ("Financial Data Analysts", ["financial", "finance"]),
    ("Operations Data Analysts", ["operations"]),
    ("Technical Data Analysts", ["technical", "information technology"]),
    ("Data Scientists", ["scientist", "scientific"]),
    ("Data Engineers", ["engineer", "engineering"]),
    ("Risk Analysts", ["risk", "risks"]),
    ("Excel expert", ["excel"])
  ]

  lemma SeniorTitleMisses()
    ensures !OccursAsWord("senior data analyst", "junior")
    ensures !OccursAsWord("senior data analyst", "jr")
    ensures !OccursAsWord("senior data analyst", "entry level")
    ensures !OccursAsWord("senior data analyst", "entry-level")
  {
    var t := "senior data analyst";
    MissingLetter(t, "junior", 0);
    MissingLetter(t, "jr", 0);
    MissingLetter(t, "entry level", 8);
    MissingLetter(t, "entry-level", 5);
  }

  lemma SeniorTitleMissesMore()
    ensures !OccursAsWord("senior data analyst", "analyst i")
    ensures !OccursAsWord("senior data analyst", "analyst 1")
    ensures !OccursAsWord("senior data analyst", "intern")
  {
    var t := "senior data analyst";
    OnlyCandidates(t, "analyst i", [12]);
    MissingLetter(t, "analyst 1", 8);
    OnlyCandidates(t, "intern", []);
  }

  /** No junior keyword occurs in "senior data analyst". */
  lemma SeniorTitleNotJunior()
    ensures forall i :: 0 <= i < 1 ==> !EntryMatches("senior data analyst", LevelTable[i].1)
  {
    SeniorTitleMisses();
    SeniorTitleMissesMore();
    assert LevelTable[0].1 == ["junior", "jr", "entry level", "entry-level", "analyst i", "analyst 1", "intern"];
  }

  /** The level table classifies a senior title, in any capitalisation, as
      senior: no junior keyword occurs in it, and "senior" does. */
  lemma SeniorLevel(title: string)
    requires Lower(title) == "senior data analyst"
    ensures Categorize(title, LevelTable) == "Senior Data Analysts"
  {
    SeniorTitleNotJunior();
    assert LevelTable[1].1[0] == "senior";
    assert WholeWordAt("senior data analyst", "senior", 0);
    CategorizeFirst(title, LevelTable, 1);
  }

  lemma GaTitleNotBi()
    ensures forall i :: 0 <= i < 1 ==> !EntryMatches("ga4 specialist", DomainTable[i].1)
  {
    assert DomainTable[0].1 == ["business intelligence"];
    MissingLetter("ga4 specialist", "business intelligence", 0);
  }

  lemma GaTitleMatches()
    ensures EntryMatches("ga4 specialist", DomainTable[1].1)
  {
    assert DomainTable[1].1[1] == "ga4";
    assert WholeWordAt("ga4 specialist", "ga4", 0);
  }

  /** The domain table reads "GA4" as Google Analytics although the title
      does not spell out "google analytics"; the business-intelligence entry
      before it does not match. */
  lemma GoogleAnalyticsDomain(title: string)
    requires Lower(title) == "ga4 specialist"
    ensures Categorize(title, DomainTable) == "Google Analytics expert"
  {
    GaTitleNotBi();
    GaTitleMatches();
    CategorizeFirst(title, DomainTable, 1);
  }

  // ----------------------------------------------------------------- bands

  /** The eight salary bands, from lowest to highest. */
  const BandLabels: seq<string> :=
    ["<50k", "50k-75k", "75k-100k", "100k-125k", "125k-150k", "150k-175k", "175k-200k", "200k+"]

  /** The label returned for annual-free salary text. */
  const NotAnnual: string := "Other"

  /** The band of an average salary, written with the doubled average
      `twice`: band b > 0 starts at 25000 * (b + 1) and band b < 7 ends,
      exclusive, where band b + 1 starts. */
  function BandIndex(twice: int): (b: nat)
    ensures b < |BandLabels|
    ensures b > 0 ==> 50000 * (b + 1) <= twice
    ensures b < 7 ==> twice < 50000 * (b + 2)
  {
    if twice < 100000 then 0
    else if twice < 150000 then 1
    else if twice < 200000 then 2
    else if twice < 250000 then 3
    else if twice < 300000 then 4
    else if twice < 350000 then 5
    else if twice < 400000 then 6
    else 7
  }

  /** The elif chain of map_salary_to_range, on the average itself. */
  function BandOfAverage(avg: real): string {
    if avg < 50000.0 then "<50k"
    else if 50000.0 <= avg < 75000.0 then "50k-75k"
    else if 75000.0 <= avg < 100000.0 then "75k-100k"
    else if 100000.0 <= avg < 125000.0 then "100k-125k"
    else if 125000.0 <= avg < 150000.0 then "125k-150k"
    else if 150000.0 <= avg < 175000.0 then "150k-175k"
    else if 175000.0 <= avg < 200000.0 then "175k-200k"
    else "200k+"
  }

  /** Comparing the doubled average with doubled thresholds picks the band
      the chain picks for the average. */
  lemma BandAgrees(twice: int)
    ensures BandLabels[BandIndex(twice)] == BandOfAverage(twice as real / 2.0)
  {
  }

  /** A higher average never lands in a lower band. */
  lemma {:induction false} BandMonotone(x: int, y: int)
    requires x <= y
    ensures BandIndex(x) <= BandIndex(y)
  {
  }

  /** The band edges: an average of exactly 50000 opens "50k-75k", anything
      below it is "<50k", and 200000 and above is "200k+". */
  lemma BandEdges(twice: int)
    ensures BandIndex(100000) == 1 && BandLabels[1] == "50k-75k"
    ensures twice < 100000 ==> BandLabels[BandIndex(twice)] == "<50k"
    ensures twice >= 400000 ==> BandLabels[BandIndex(twice)] == "200k+"
  {
  }

  // ------------------------------------------------------------ the parser

  /** int(x.replace(",", "")): a number that may carry thousands commas. */
  function IntWithoutCommas(x: string): Option<int> {
    PyInt(RemoveChar(x, ','))
  }

  /** The two figures averaged for annual text: a range "low-high ..."
      gives low and the first blank-separated token after the dash; a
      single figure gives its first token twice. Unpacking a split with
      other than two pieces and int() of a piece with a character other
      than digits, commas and surrounding blanks raise ValueError; a blank
      high side raises IndexError. */
  function AnnualFigures(salary: string): Result<(int, int)> {
    if '-' in salary then
      var parts := Split(salary, '-');
      if |parts| != 2 then Err(ValueError)
      else
        match IntWithoutCommas(parts[0])
        case None => Err(ValueError)
        case Some(low) =>
          match FirstToken(parts[1])
          case Err(e) => Err(e)
          case Ok(token) =>
            match IntWithoutCommas(token)
            case None => Err(ValueError)
            case Some(high) => Ok((low, high))
    else
      match FirstToken(salary)
      case Err(e) => Err(e)
      case Ok(token) =>
        match IntWithoutCommas(token)
        case None => Err(ValueError)
        case Some(v) => Ok((v, v))
  }

  /** map_salary_to_range. A missing salary (NaN) makes `"a year" in salary`
      raise TypeError; "Not specified" is None; text without "a year" is
      "Other"; annual text is one of the eight bands, or the error its
      parsing raises. */
  function MapSalaryToRange(salary: Option<string>): (r: Result<Option<string>>)
    ensures salary.None? ==> r == Err(TypeError)
    ensures r == Ok(None) <==> salary == Some("Not specified")
    ensures salary.Some? && salary.value != "Not specified" && !HasSubstring(salary.value, "a year")
            ==> r == Ok(Some(NotAnnual))
    ensures r.Ok? && r.value.Some? && r.value.value != NotAnnual ==> r.value.value in BandLabels
    ensures salary.Some? && salary.value != "Not specified" && HasSubstring(salary.value, "a year")
            ==> match AnnualFigures(salary.value)
                case Err(e) => r == Err(e)
                case Ok((low, high)) => r == Ok(Some(BandLabels[BandIndex(low + high)]))
  {
    match salary
    case None => Err(TypeError)
    case Some(s) =>
      if s == "Not specified" then Ok(None)
      else if Contains(s, "a year") then
        match AnnualFigures(s)
        case Err(e) => Err(e)
        case Ok((low, high)) => Ok(Some(BandLabels[BandIndex(low + high)]))
      else Ok(Some(NotAnnual))
  }

  // ---------------------------------------------------------------- lemmas

  /** Text made of low, one dash, and a dash-free remainder splits into
      exactly those two pieces. */
  lemma RangeSplit(low: string, remainder: string)
    requires '-' !in low && '-' !in remainder
    ensures '-' in low + "-" + remainder
    ensures Split(low + "-" + remainder, '-') == [low, remainder]
  {
    assert (low + "-" + remainder)[|low|] == '-';
    assert low + "-" + remainder == low + ['-'] + remainder;
    SplitTwo(low, remainder, '-');
  }

  lemma RangeSplitThree(low: string, high: string, rest: string)
    requires '-' !in low && '-' !in high && '-' !in rest
    ensures '-' in low + "-" + high + rest
    ensures Split(low + "-" + high + rest, '-') == [low, high + rest]
  {
    assert '-' !in high + rest;
    assert low + "-" + high + rest == low + "-" + (high + rest);
    RangeSplit(low, high + rest);
  }

  /** The range branch, read from its pieces. */
  lemma RangeFromPieces(s: string, low: string, remainder: string, high: string, a: int, b: int)
    requires '-' in s && Split(s, '-') == [low, remainder]
    requires IntWithoutCommas(low) == Some(a)
    requires FirstToken(remainder) == Ok(high) && IntWithoutCommas(high) == Some(b)
    ensures AnnualFigures(s) == Ok((a, b))
  {
  }

  /** A range of two figures with no further dash reads as those figures,
      commas removed, the high figure ending at the first blank. */
  lemma RangeReads(low: string, high: string, rest: string, a: int, b: int)
    requires '-' !in low && '-' !in high && '-' !in rest
    requires high != [] && forall i :: 0 <= i < |high| ==> !IsSpace(high[i])
    requires rest == [] || IsSpace(rest[0])
    requires IntWithoutCommas(low) == Some(a) && IntWithoutCommas(high) == Some(b)
    ensures AnnualFigures(low + "-" + high + rest) == Ok((a, b))
  {
    RangeSplitThree(low, high, rest);
    FirstTokenOf(high, rest);
    RangeFromPieces(low + "-" + high + rest, low, high + rest, high, a, b);
  }

  /** The single-figure branch, read from its token. */
  lemma SingleFromToken(s: string, token: string, v: int)
    requires '-' !in s && FirstToken(s) == Ok(token) && IntWithoutCommas(token) == Some(v)
    ensures AnnualFigures(s) == Ok((v, v))
  {
  }

  /** A single annual figure with no dash is read as both figures, commas
      removed, the figure ending at the first blank. */
  lemma SingleReads(figure: string, rest: string, v: int)
    requires '-' !in figure && '-' !in rest
    requires figure != [] && forall i :: 0 <= i < |figure| ==> !IsSpace(figure[i])
    requires rest == [] || IsSpace(rest[0])
    requires IntWithoutCommas(figure) == Some(v)
    ensures AnnualFigures(figure + rest) == Ok((v, v))
  {
    assert '-' !in figure + rest;
    FirstTokenOf(figure, rest);
    SingleFromToken(figure + rest, figure, v);
  }

  /** Salary text with two or more dashes cannot be unpacked into low and
      high: bucketing raises ValueError. */
  lemma TwoDashesRejected(salary: string)
    requires Occurrences(salary, '-') >= 2
    ensures AnnualFigures(salary) == Err(ValueError)
  {
    OccurrencesPositive(salary, '-');
  }

  /** Only commas are removed: a low side that starts with a currency sign
      is rejected by int(). */
  lemma CurrencySignRejected(low: string, high: string)
    requires '-' !in low && '-' !in high
    ensures AnnualFigures("$" + low + "-" + high) == Err(ValueError)
  {
    var s := "$" + low;
    assert '-' !in s;
    RangeSplit(s, high);
    assert s[0] == '$';
    assert RemoveChar(s, ',') == "$" + RemoveChar(low, ',') by {
      assert s[1..] == low;
    }
    ForeignCharRejected(RemoveChar(s, ','), 0);
  }

  /** Text whose comma-free form is the decimal notation of n reads as n. */
  lemma ReadsAs(x: string, n: nat)
    requires RemoveChar(x, ',') == NatToDigits(n)
    ensures IntWithoutCommas(x) == Some(n)
  {
    PyIntReadsDecimal(n);
  }

  lemma EightyThousandText()
    ensures RemoveChar("80,000", ',') == "80000"
  {
    assert "80,000" == "80" + [','] + "000";
    RemoveSeparator("80", "000", ',');
  }

  lemma HundredThousandText()
    ensures RemoveChar("100,000", ',') == "100000"
  {
    assert "100,000" == "100" + [','] + "000";
    RemoveSeparator("100", "000", ',');
  }

  lemma FiftyThousandText()
    ensures RemoveChar("50,000", ',') == "50000"
  {
    assert "50,000" == "50" + [','] + "000";
    RemoveSeparator("50", "000", ',');
  }

  lemma EightyThousandDecimal()
    ensures NatToDigits(80000) == "80000"
  {
  }

  lemma EightyThousandReads()
    ensures IntWithoutCommas("80,000") == Some(80000)
  {
    EightyThousandText();
    EightyThousandDecimal();
    ReadsAs("80,000", 80000);
  }

  lemma HundredThousandDecimal()
    ensures NatToDigits(100000) == "100000"
  {
  }

  lemma HundredThousandReads()
    ensures IntWithoutCommas("100,000") == Some(100000)
  {
    HundredThousandText();
    HundredThousandDecimal();
    ReadsAs("100,000", 100000);
  }

  lemma FiftyThousandDecimal()
    ensures NatToDigits(50000) == "50000"
  {
  }

  lemma FiftyThousandReads()
    ensures IntWithoutCommas("50,000") == Some(50000)
  {
    FiftyThousandText();
    FiftyThousandDecimal();
    ReadsAs("50,000", 50000);
  }

  /** The figures of "80,000-100,000 a year": int() reads the two sides as
      80000 and 100000 once the commas are removed. */
  lemma RangeExampleFigures(s: string)
    requires s == "80,000" + "-" + "100,000" + " a year"
    ensures AnnualFigures(s) == Ok((80000, 100000))
  {
    EightyThousandReads();
    HundredThousandReads();
    RangeExamplePieces();
    RangeReads("80,000", "100,000", " a year", 80000, 100000);
  }

  lemma RangeExamplePieces()
    ensures '-' !in "80,000" && '-' !in "100,000" && '-' !in " a year"
    ensures "100,000" != [] && forall i :: 0 <= i < |"100,000"| ==> !IsSpace("100,000"[i])
    ensures IsSpace(" a year"[0])
  {
  }

  lemma RangeExampleText()
    ensures "80,000-100,000 a year" == "80,000" + "-" + "100,000" + " a year"
    ensures SubstringAt("80,000-100,000 a year", "a year", 15)
  {
  }

  lemma RangeExampleBand()
    ensures BandLabels[BandIndex(80000 + 100000)] == "75k-100k"
  {
  }

  /** The worked range example: "80,000-100,000 a year" averages 90000,
      which is in "75k-100k". */
  lemma RangeExample()
    ensures MapSalaryToRange(Some("80,000-100,000 a year")) == Ok(Some("75k-100k"))
  {
    RangeExampleText();
    RangeExampleFigures("80,000-100,000 a year");
    RangeExampleBand();
  }

  /** The figure of "50,000 a year", read as both sides. */
  lemma SingleFigureExampleFigures(s: string)
    requires s == "50,000" + " a year"
    ensures AnnualFigures(s) == Ok((50000, 50000))
  {
    FiftyThousandReads();
    SingleFigureExamplePieces();
    SingleReads("50,000", " a year", 50000);
  }

  lemma SingleFigureExamplePieces()
    ensures '-' !in "50,000" && '-' !in " a year"
    ensures "50,000" != [] && forall i :: 0 <= i < |"50,000"| ==> !IsSpace("50,000"[i])
    ensures IsSpace(" a year"[0])
  {
  }

  lemma SingleFigureExampleText()
    ensures "50,000 a year" == "50,000" + " a year"
    ensures SubstringAt("50,000 a year", "a year", 7)
  {
  }

  lemma SingleFigureExampleBand()
    ensures BandLabels[BandIndex(50000 + 50000)] == "50k-75k"
  {
  }

  /** A single annual figure "50,000 a year" reads as 50000, exactly at the
      lower edge of "50k-75k". */
  lemma SingleFigureExample()
    ensures MapSalaryToRange(Some("50,000 a year")) == Ok(Some("50k-75k"))
  {
    SingleFigureExampleText();
    SingleFigureExampleFigures("50,000 a year");
    SingleFigureExampleBand();
  }

  /** An hourly rate is not annual text: it is "Other". */
  lemma HourlyExample()
    ensures MapSalaryToRange(Some("25 an hour")) == Ok(Some(NotAnnual))
  {
    MissingChar("25 an hour", "a year", 2);
  }
}
