/** The data-shaping steps behind the dashboard's charts: the top job titles
    of a category, the platform pie, the state map, the salary-band bar chart
    and the per-category skill tables. Figures and their styling are not
    modelled; each step ends with the rows a figure would be drawn from. */
module Visualizations {
  import opened Wrappers
  import opened Text
  import opened Counting
  import opened DataProcessing

  /** The label of every residual group. */
  const OthersLabel: string := "Others"

  /** Number of distinct elements of a sequence is at most its length. */
  lemma {:induction false} ElementsBound<T>(s: seq<T>)
    ensures |set x | x in s| <= |s|
  {
    if s != [] {
      ElementsBound(s[1..]);
      assert (set x | x in s) == {s[0]} + (set x | x in s[1..]);
    }
  }

  // ------------------------------------------------- job titles by category

  /** A listing as the title chart reads it: its title and its value in the
      grouping column the chart is given. */
  datatype Listing = Listing(title: string, group: string)

  function Titles(df: seq<Listing>): seq<string> {
    seq(|df|, i requires 0 <= i < |df| => df[i].title)
  }

  function Groups(df: seq<Listing>): seq<string> {
    seq(|df|, i requires 0 <= i < |df| => df[i].group)
  }

  /** The listings of group c, in frame order. */
  function InGroup(df: seq<Listing>, c: string): seq<Listing> {
    Filter(df, (l: Listing) => l.group == c)
  }

  /** Number of title rows shown before the residual row. */
  const TopTitles: nat := 10

  /** The counts of the labels of `order` from position n on, as one
      number: the listings whose label is not among the first n. */
  lemma ResidualCount<T>(col: seq<T>, order: seq<T>, n: nat)
    requires Distinct(order) && n <= |order|
    ensures SumCounts(CountsInOrder(col, order)[n..]) == CountAmong(col, order[n..])
  {
    var tail := order[n..];
    assert CountsInOrder(col, order)[n..] == CountsInOrder(col, tail);
    assert Distinct(tail) by {
      forall i, j | 0 <= i < j < |tail| ensures tail[i] != tail[j] {
        assert tail[i] == order[n + i] && tail[j] == order[n + j];
      }
    }
    SumOfCounts(col, tail);
  }

  /** The bar rows of create_job_title_bar_chart. With a selected group:
      the titles of that group's listings by count, cut after the tenth
      with one "Others" row that counts the listings of every other title;
      the counts still add up to the group's size. Without a selection: one
      row per group, adding up to the frame's size. order is the order the
      labels were left in by value_counts and the in-place sort by count. */
  function JobTitleBars(df: seq<Listing>, selected: Option<string>, order: seq<string>): (r: seq<(string, nat)>)
    requires Truthy(selected) ==> IsValueCountsOrder(Titles(InGroup(df, selected.value)), order)
    requires !Truthy(selected) ==> IsValueCountsOrder(Groups(df), order)
    ensures Truthy(selected) ==> SumCounts(r) == |InGroup(df, selected.value)|
    ensures Truthy(selected) && |order| > TopTitles ==>
      && |r| == TopTitles + 1
      && r[TopTitles] == (OthersLabel, CountAmong(Titles(InGroup(df, selected.value)), order[TopTitles..]))
    ensures Truthy(selected) && |order| <= TopTitles ==> |r| == |order|
    ensures Truthy(selected) ==> forall i :: 0 <= i < |r| && i < TopTitles ==>
      r[i] == (order[i], Count(Titles(InGroup(df, selected.value)), order[i]))
    ensures forall i, j :: 0 <= i < j < |r| && j < TopTitles ==> r[i].1 >= r[j].1
    ensures !Truthy(selected) ==> |r| == |order| && NonIncreasing(r) && SumCounts(r) == |df|
    ensures !Truthy(selected) ==> forall i :: 0 <= i < |r| ==> r[i] == (order[i], Count(Groups(df), order[i]))
  {
    if Truthy(selected) then
      TitleBars(Titles(InGroup(df, selected.value)), order)
    else
      ValueCountsTotal(Groups(df), order);
      ValueCountsSorted(Groups(df), order);
      CountsInOrder(Groups(df), order)
  }

  /** The bars of one group's titles: the first ten (title, count) rows by
      count, then one "Others" row with the listings of every later title. */
  function TitleBars(col: seq<string>, order: seq<string>): (r: seq<(string, nat)>)
    requires IsValueCountsOrder(col, order)
    ensures SumCounts(r) == |col|
    ensures |order| > TopTitles ==>
      |r| == TopTitles + 1 && r[TopTitles] == (OthersLabel, CountAmong(col, order[TopTitles..]))
    ensures |order| <= TopTitles ==> |r| == |order|
    ensures forall i :: 0 <= i < |r| && i < TopTitles ==> r[i] == (order[i], Count(col, order[i]))
    ensures forall i, j :: 0 <= i < j < |r| && j < TopTitles ==> r[i].1 >= r[j].1
  {
    ValueCountsTotal(col, order);
    ValueCountsSorted(col, order);
    var rows := CountsInOrder(col, order);
    if |order| > TopTitles then
      ResidualCount(col, order, TopTitles);
      TopN(rows, TopTitles, OthersLabel)
    else TopN(rows, TopTitles, OthersLabel)
  }

  // ---------------------------------------------------------- platform pie

  /** A listing as the platform pie reads it, with the column it writes. */
  datatype PlatformListing = PlatformListing(platform: string, groupedPlatform: string)

  /** Number of platforms that keep their own slice. */
  const TopPlatforms: nat := 6

  function Platforms(df: seq<PlatformListing>): seq<string> {
    seq(|df|, i requires 0 <= i < |df| => df[i].platform)
  }

  function GroupedPlatforms(df: seq<PlatformListing>): seq<string> {
    seq(|df|, i requires 0 <= i < |df| => df[i].groupedPlatform)
  }

  /** value_counts().index[:n]: the first n labels. */
  function Top(order: seq<string>, n: nat): (r: seq<string>)
    ensures |order| <= n ==> r == order
    ensures |order| > n ==> r == order[..n]
  {
    if |order| <= n then order else order[..n]
  }

  /** Every platform that keeps its name is at least as frequent as every
      platform that is regrouped into "Others". */
  lemma TopMostFrequent(platforms: seq<string>, order: seq<string>, n: nat, kept: string, regrouped: string)
    requires IsValueCountsOrder(platforms, order)
    requires kept in Top(order, n) && regrouped in platforms && regrouped !in Top(order, n)
    ensures Count(platforms, kept) >= Count(platforms, regrouped)
  {
    var top := Top(order, n);
    var i :| 0 <= i < |top| && top[i] == kept;
    var j :| 0 <= j < |platforms| && platforms[j] == regrouped;
    assert regrouped in order;
    var k :| 0 <= k < |order| && order[k] == regrouped;
    assert forall m :: 0 <= m < |top| ==> top[m] == order[m];
    assert k >= |top| > i;
    assert order[i] == kept;
  }

  /** The lambda of the apply: a top platform keeps its name, every other
      platform becomes "Others". */
  function GroupOf(platform: string, top: seq<string>): string {
    if platform in top then platform else OthersLabel
  }

  /** The grouped_platform column for a platform column. */
  function Grouped(platforms: seq<string>, top: seq<string>): seq<string> {
    seq(|platforms|, i requires 0 <= i < |platforms| => GroupOf(platforms[i], top))
  }

  /** The slices of the platform pie: grouped counts add up to the number of
      listings, there are at most seven slices (six platforms and "Others"),
      each slice is a top platform or "Others", and they come by count. */
  function PlatformSlices(platforms: seq<string>, order: seq<string>, grouped: seq<string>): (r: seq<(string, nat)>)
    requires IsValueCountsOrder(platforms, order)
    requires IsValueCountsOrder(Grouped(platforms, Top(order, TopPlatforms)), grouped)
    ensures |r| == |grouped|
    ensures forall i :: 0 <= i < |r| ==>
      r[i] == (grouped[i], Count(Grouped(platforms, Top(order, TopPlatforms)), grouped[i]))
    ensures SumCounts(r) == |platforms|
    ensures |r| <= TopPlatforms + 1
    ensures NonIncreasing(r)
    ensures forall i :: 0 <= i < |r| ==> r[i].0 in Top(order, TopPlatforms) || r[i].0 == OthersLabel
  {
    var col := Grouped(platforms, Top(order, TopPlatforms));
    ValueCountsTotal(col, grouped);
    ValueCountsSorted(col, grouped);
    SliceLabels(platforms, order, grouped);
    CountsInOrder(col, grouped)
  }

  /** The pie's labels are top platforms or "Others", so at most seven. */
  lemma SliceLabels(platforms: seq<string>, order: seq<string>, grouped: seq<string>)
    requires IsValueCountsOrder(Grouped(platforms, Top(order, TopPlatforms)), grouped)
    ensures forall i :: 0 <= i < |grouped| ==> grouped[i] in Top(order, TopPlatforms) || grouped[i] == OthersLabel
    ensures |grouped| <= TopPlatforms + 1
  {
    var top := Top(order, TopPlatforms);
    var col := Grouped(platforms, top);
    forall i | 0 <= i < |grouped| ensures grouped[i] in top + [OthersLabel] {
      assert grouped[i] in col;
    }
    DistinctWithin(grouped, set x | x in top + [OthersLabel]);
    ElementsBound(top + [OthersLabel]);
  }

  /** With six platforms or fewer nothing is regrouped. */
  lemma FewPlatforms(platforms: seq<string>, order: seq<string>)
    requires IsValueCountsOrder(platforms, order) && |order| <= TopPlatforms
    ensures Grouped(platforms, Top(order, TopPlatforms)) == platforms
  {
  }

  /** create_platform_pie(df): writes grouped_platform into the caller's
      frame and returns the slices counted from that column. */
  method CreatePlatformPie(df: array<PlatformListing>, order: seq<string>, grouped: seq<string>)
    returns (slices: seq<(string, nat)>)
    requires IsValueCountsOrder(Platforms(df[..]), order)
    requires IsValueCountsOrder(Grouped(Platforms(df[..]), Top(order, TopPlatforms)), grouped)
    modifies df
    ensures forall i :: 0 <= i < df.Length ==>
      df[i] == old(df[i]).(groupedPlatform := GroupOf(old(df[i].platform), Top(order, TopPlatforms)))
    ensures slices == PlatformSlices(Platforms(old(df[..])), order, grouped)
  {
    var top := Top(order, TopPlatforms);
    ghost var platforms := Platforms(df[..]);
    forall i | 0 <= i < df.Length {
      df[i] := df[i].(groupedPlatform := GroupOf(df[i].platform, top));
    }
    assert GroupedPlatforms(df[..]) == Grouped(platforms, top);
    slices := CountsInOrder(GroupedPlatforms(df[..]), grouped);
  }

  // ------------------------------------------------------------- state map

  /** Locations the map leaves out before extracting states. */
  const Sentinels: seq<string> := ["Anywhere", "United States"]

  /** ~isin(sentinels): a missing location is kept. */
  predicate NotSentinel(location: Option<string>) {
    location.None? || location.value !in Sentinels
  }

  /** $ of a Python regular expression: the end, or just before a final
      newline. */
  predicate EndAnchor(s: string, e: nat) {
    e == |s| || (e + 1 == |s| && s[e] == '\n')
  }

  /** ,\s*([A-Z]{2})$ matches s with the comma at k and the two letters
      ending at e. */
  predicate StateMatch(s: string, k: nat, e: nat) {
    && k + 3 <= e && EndAnchor(s, e)
    && s[k] == ','
    && (forall m :: k < m < e - 2 ==> IsSpace(s[m]))
    && IsUpper(s[e - 2]) && IsUpper(s[e - 1])
  }

  /** The last non-space position before j, if there is one. */
  function LastNonSpace(s: string, j: nat): (r: Option<nat>)
    requires j <= |s|
    ensures r.Some? ==> r.value < j && !IsSpace(s[r.value])
    ensures forall m :: (if r.Some? then r.value else -1) < m < j ==> IsSpace(s[m])
  {
    if j == 0 then None
    else if !IsSpace(s[j - 1]) then Some(j - 1)
    else LastNonSpace(s, j - 1)
  }

  /** str.extract(r',\s*([A-Z]{2})$'): the two capital letters at the end of
      the location when a comma and only spaces precede them. */
  function ExtractState(s: string): Option<string> {
    var e := MatchEnd(s);
    if e >= 3 && IsUpper(s[e - 2]) && IsUpper(s[e - 1]) then
      match LastNonSpace(s, e - 2)
      case Some(k) => if s[k] == ',' then Some(s[e - 2..e]) else None
      case None => None
    else None
  }

  /** Walking back over spaces from j stops at the first non-space k. */
  lemma {:induction false} LastNonSpaceAt(s: string, j: nat, k: nat)
    requires k < j <= |s| && !IsSpace(s[k])
    requires forall m :: k < m < j ==> IsSpace(s[m])
    ensures LastNonSpace(s, j) == Some(k)
    decreases j
  {
    if j - 1 != k {
      LastNonSpaceAt(s, j - 1, k);
    }
  }

  /** The end a match can have: before a final newline, else the end. */
  function MatchEnd(s: string): nat {
    if |s| > 0 && s[|s| - 1] == '\n' then |s| - 1 else |s|
  }

  /** A match ends at MatchEnd(s), and its comma is the first non-space
      before the letters. */
  lemma MatchIsFound(s: string, k: nat, e: nat)
    requires StateMatch(s, k, e)
    ensures e == MatchEnd(s) && ExtractState(s) == Some(s[e - 2..e])
  {
    if |s| > 0 && s[|s| - 1] == '\n' {
      assert !IsUpper(s[|s| - 1]);
    }
    LastNonSpaceAt(s, e - 2, k);
  }

  /** The extraction finds a state exactly when the pattern matches, and the
      state is the pair of letters the match captures. */
  lemma ExtractStateCorrect(s: string)
    ensures ExtractState(s).Some? <==> exists k: nat, e: nat :: StateMatch(s, k, e)
    ensures forall k: nat, e: nat :: StateMatch(s, k, e) ==> ExtractState(s) == Some(s[e - 2..e])
  {
    forall k: nat, e: nat | StateMatch(s, k, e) ensures ExtractState(s) == Some(s[e - 2..e]) {
      MatchIsFound(s, k, e);
    }
    if ExtractState(s).Some? {
      var e := MatchEnd(s);
      var k := LastNonSpace(s, e - 2).value;
      assert StateMatch(s, k, e);
    }
  }

  lemma AustinExample()
    ensures ExtractState("Austin, TX") == Some("TX")
  {
    var s := "Austin, TX";
    assert StateMatch(s, 6, 10);
    ExtractStateCorrect(s);
    assert s[8..10] == "TX";
  }

  lemma RemoteExample()
    ensures ExtractState("Remote, Global") == None
  {
    var s := "Remote, Global";
    assert !IsUpper(s[12]);
  }

  /** The state column: the extracted state of every row, NaN for a NaN
      location and for a location without a state. */
  function StateColumn(locations: seq<Option<string>>): (r: seq<Option<string>>)
    ensures |r| == |locations|
    ensures forall i :: 0 <= i < |r| ==> r[i] == if locations[i].None? then None else ExtractState(locations[i].value)
  {
    seq(|locations|, i requires 0 <= i < |locations| =>
      if locations[i].None? then None else ExtractState(locations[i].value))
  }

  /** The extracted states of the kept rows, leaving out the rows without a
      state (value_counts drops NaN). */
  function States(locations: seq<Option<string>>): (r: seq<string>)
    ensures |r| <= |locations|
    ensures forall i :: 0 <= i < |r| ==> |r[i]| == 2 && IsUpper(r[i][0]) && IsUpper(r[i][1])
  {
    var col := StateColumn(locations);
    var r := Present(col);
    forall i | 0 <= i < |r| ensures |r[i]| == 2 && IsUpper(r[i][0]) && IsUpper(r[i][1]) {
      var j :| 0 <= j < |col| && col[j] == Some(r[i]);
      var l := locations[j].value;
      var e := MatchEnd(l);
      assert ExtractState(l) == Some(l[e - 2..e]);
    }
    r
  }

  /** Each state appears as often as rows have it as their extracted state. */
  lemma StatesCount(locations: seq<Option<string>>, state: string)
    ensures Count(States(locations), state) == Count(StateColumn(locations), Some(state))
  {
    PresentCount(StateColumn(locations), state);
  }

  /** Only the rows without a state are left out. */
  lemma StatesLength(locations: seq<Option<string>>)
    ensures |States(locations)| + Count(StateColumn(locations), None) == |locations|
  {
    PresentLength(StateColumn(locations));
  }

  /** The rows the map counts: the locations other than the two sentinels,
      in frame order. */
  function MapFrame(locations: seq<Option<string>>): (r: seq<Option<string>>)
    ensures r == Filter(locations, NotSentinel)
    ensures forall i :: 0 <= i < |r| ==> r[i] in locations && NotSentinel(r[i])
    ensures forall i :: 0 <= i < |locations| && NotSentinel(locations[i]) ==> locations[i] in r
  {
    Filter(locations, NotSentinel)
  }

  /** What the map's value_counts order holds: two-letter states, each
      counted as often as rows carry it in the state column. */
  lemma StateOrder(kept: seq<Option<string>>, order: seq<string>)
    requires IsValueCountsOrder(States(kept), order)
    ensures forall i :: 0 <= i < |order| ==> |order[i]| == 2 && IsUpper(order[i][0]) && IsUpper(order[i][1])
    ensures forall i :: 0 <= i < |order| ==> Count(States(kept), order[i]) == Count(StateColumn(kept), Some(order[i]))
  {
    var states := States(kept);
    forall i | 0 <= i < |order|
      ensures |order[i]| == 2 && IsUpper(order[i][0]) && IsUpper(order[i][1])
      ensures Count(states, order[i]) == Count(StateColumn(kept), Some(order[i]))
    {
      var j :| 0 <= j < |states| && states[j] == order[i];
      StatesCount(kept, order[i]);
    }
  }

  /** Dropping the sentinels keeps every copy of any other location. */
  lemma MapFrameCount(locations: seq<Option<string>>, l: Option<string>)
    ensures Count(MapFrame(locations), l) == if NotSentinel(l) then Count(locations, l) else 0
  {
    FilterCount(locations, NotSentinel, l);
  }

  /** The (state, count) rows of the map: every label is a two-letter state,
      the rows come by count, and they add up to the number of kept rows
      with a state. */
  function StateCounts(locations: seq<Option<string>>, order: seq<string>): (r: seq<(string, nat)>)
    requires IsValueCountsOrder(States(MapFrame(locations)), order)
    ensures |r| == |order|
    ensures forall i :: 0 <= i < |r| ==>
      r[i] == (order[i], Count(StateColumn(MapFrame(locations)), Some(order[i])))
    ensures SumCounts(r) + Count(StateColumn(MapFrame(locations)), None) == |MapFrame(locations)|
    ensures SumCounts(r) <= |locations|
    ensures forall i :: 0 <= i < |r| ==> |r[i].0| == 2 && IsUpper(r[i].0[0]) && IsUpper(r[i].0[1])
    ensures NonIncreasing(r)
  {
    var kept := MapFrame(locations);
    var states := States(kept);
    ValueCountsTotal(states, order);
    ValueCountsSorted(states, order);
    StatesLength(kept);
    StateOrder(kept, order);
    CountsInOrder(states, order)
  }

  /** A sentinel location never reaches the count, and neither does it have
      a state to give. */
  lemma SentinelsHaveNoState()
    ensures ExtractState("Anywhere") == None && ExtractState("United States") == None
  {
    assert !IsUpper("Anywhere"[6]);
    assert !IsUpper("United States"[11]);
  }

  // ------------------------------------------------------ salary bar chart

  /** A listing as the salary chart reads it, with the column it writes. */
  datatype SalaryListing = SalaryListing(salary: Option<string>, salaryRange: Option<string>)

  /** The bands in the chart's own order. */
  const SalaryOrder: seq<string> :=
    ["<50k", "50k-75k", "75k-100k", "100k-125k", "125k-150k", "150k-175k", "175k-200k", "200k+"]

  /** The chart's order is the bucketing's order of bands. */
  lemma SalaryOrderIsBands()
    ensures SalaryOrder == BandLabels
  {
  }

  function Salaries(df: seq<SalaryListing>): seq<Option<string>> {
    seq(|df|, i requires 0 <= i < |df| => df[i].salary)
  }

  function SalaryRanges(df: seq<SalaryListing>): seq<Option<string>> {
    seq(|df|, i requires 0 <= i < |df| => df[i].salaryRange)
  }

  /** Total of the counts the chart shows. */
  function SumPresent(rows: seq<(string, Option<nat>)>): nat {
    if rows == [] then 0
    else (match rows[0].1 case None => 0 case Some(n) => n) + SumPresent(rows[1..])
  }

  /** value_counts().reindex(salary_order): exactly eight rows in band
      order; a band with no listing has a missing count, not 0. */
  function BandCounts(ranges: seq<Option<string>>): (r: seq<(string, Option<nat>)>)
    ensures |r| == |SalaryOrder|
    ensures forall i :: 0 <= i < |r| ==> r[i].0 == SalaryOrder[i]
    ensures forall i :: 0 <= i < |r| ==> (r[i].1.None? <==> SalaryOrder[i] !in Present(ranges))
    ensures forall i :: 0 <= i < |r| && r[i].1.Some? ==>
      r[i].1.value == Count(Present(ranges), SalaryOrder[i]) == Count(ranges, Some(SalaryOrder[i])) > 0
  {
    var labels := Present(ranges);
    forall i | 0 <= i < |SalaryOrder| ensures Count(labels, SalaryOrder[i]) == Count(ranges, Some(SalaryOrder[i])) {
      PresentCount(ranges, SalaryOrder[i]);
    }
    assert forall x :: x in labels <==> Count(labels, x) > 0 by {
      forall x ensures x in labels <==> Count(labels, x) > 0 { CountedIffPresent(labels, x); }
    }
    seq(|SalaryOrder|, i requires 0 <= i < |SalaryOrder| =>
      var n := Count(labels, SalaryOrder[i]);
      (SalaryOrder[i], if n == 0 then None else Some(n)))
  }

  /** Missing counts add nothing: the shown counts are the counts of a
      (label, count) row set. */
  lemma {:induction false} SumPresentCounts(labels: seq<string>, bands: seq<string>, rows: seq<(string, Option<nat>)>)
    requires |rows| == |bands|
    requires forall i :: 0 <= i < |rows| ==>
      rows[i].1 == (if Count(labels, bands[i]) == 0 then None else Some(Count(labels, bands[i])))
    ensures SumPresent(rows) == SumCounts(CountsInOrder(labels, bands))
  {
    if rows != [] {
      SumPresentCounts(labels, bands[1..], rows[1..]);
    }
  }

  /** When every label is one of the distinct bands or other, the shown
      band counts and the count of other add up to all labels. */
  lemma ShownPlusOther(labels: seq<string>, bands: seq<string>, other: string, rows: seq<(string, Option<nat>)>)
    requires Distinct(bands + [other])
    requires forall i :: 0 <= i < |labels| ==> labels[i] in bands + [other]
    requires |rows| == |bands|
    requires forall i :: 0 <= i < |rows| ==>
      rows[i].1 == (if Count(labels, bands[i]) == 0 then None else Some(Count(labels, bands[i])))
    ensures SumPresent(rows) + Count(labels, other) == |labels|
  {
    SumPresentCounts(labels, bands, rows);
    SumOfCounts(labels, bands + [other]);
    CountAmongAll(labels, bands + [other]);
    CountsInOrderAppend(labels, bands, [other]);
    SumCountsAppend(CountsInOrder(labels, bands), CountsInOrder(labels, [other]));
  }

  lemma SalaryOrderDistinct()
    ensures Distinct(SalaryOrder + [NotAnnual])
  {
  }

  /** Every listing is counted once when its range is a band, and not at
      all when it is "Other": the shown counts add up to the listings in a
      band. */
  lemma BandCountsTotal(ranges: seq<Option<string>>)
    requires forall x :: x in Present(ranges) ==> x in SalaryOrder || x == NotAnnual
    ensures SumPresent(BandCounts(ranges)) + Count(Present(ranges), NotAnnual) == |Present(ranges)|
  {
    var labels := Present(ranges);
    SalaryOrderDistinct();
    forall i | 0 <= i < |labels| ensures labels[i] in SalaryOrder + [NotAnnual] {
      assert labels[i] in labels;
    }
    ShownPlusOther(labels, SalaryOrder, NotAnnual, BandCounts(ranges));
  }

  /** create_salary_bar_chart(df): map_salary_to_range is applied row by row
      and the first exception ends the chart with the column unwritten;
      otherwise salary_range is written into the caller's frame and the
      eight band rows are counted from it. */
  method CreateSalaryBarChart(df: array<SalaryListing>) returns (r: Result<seq<(string, Option<nat>)>>)
    modifies df
    ensures r.Err? ==>
      && (exists i :: 0 <= i < df.Length && MapSalaryToRange(old(df[i].salary)) == Err(r.error)
           && forall j :: 0 <= j < i ==> MapSalaryToRange(old(df[j].salary)).Ok?)
      && df[..] == old(df[..])
    ensures r.Ok? ==> forall i :: 0 <= i < df.Length ==> MapSalaryToRange(old(df[i].salary)).Ok?
    ensures r.Ok? ==>
      && (forall i :: 0 <= i < df.Length ==>
            df[i] == old(df[i]).(salaryRange := MapSalaryToRange(old(df[i].salary)).value))
      && r.value == BandCounts(SalaryRanges(df[..]))
  {
    var ranges: seq<Option<string>> := [];
    var i := 0;
    while i < df.Length
      invariant 0 <= i <= df.Length && |ranges| == i
      invariant forall j :: 0 <= j < i ==> MapSalaryToRange(df[j].salary) == Ok(ranges[j])
    {
      var range := MapSalaryToRange(df[i].salary);
      if range.Err? {
        assert df[i].salary == old(df[i].salary);
        return Err(range.error);
      }
      ranges := ranges + [range.value];
      i := i + 1;
    }
    forall k | 0 <= k < df.Length {
      df[k] := df[k].(salaryRange := ranges[k]);
    }
    assert forall k :: 0 <= k < df.Length ==> df[k].salaryRange == ranges[k];
    r := Ok(BandCounts(SalaryRanges(df[..])));
  }

  // ----------------------------------------------------------- skill tables

  /** A row of the skills frame: its cells by column name. */
  type SkillRow = map<string, string>

  /** Number of skills per table. */
  const SkillSlots: nat := 10

  /** The column f"Top {i} {skill_type}". */
  function SkillColumn(i: nat, skillType: string): string {
    "Top " + NatToDigits(i) + " " + skillType
  }

  /** The entries numbered k + 1 .. 10 of a table: (number, skill). */
  function SkillsFrom(row: SkillRow, skillType: string, k: nat): (r: Result<seq<(nat, string)>>)
    requires k <= SkillSlots
    decreases SkillSlots - k
    ensures r.Ok? <==> forall i :: k < i <= SkillSlots ==> SkillColumn(i, skillType) in row
    ensures r.Err? ==> r.error == KeyError
    ensures r.Ok? ==> |r.value| == SkillSlots - k
    ensures r.Ok? ==> forall j :: 0 <= j < SkillSlots - k ==>
      r.value[j] == (k + j + 1, row[SkillColumn(k + j + 1, skillType)])
  {
    if k == SkillSlots then Ok([])
    else if SkillColumn(k + 1, skillType) !in row then Err(KeyError)
    else
      match SkillsFrom(row, skillType, k + 1)
      case Err(e) => Err(e)
      case Ok(rest) => Ok([(k + 1, row[SkillColumn(k + 1, skillType)])] + rest)
  }

  /** One pass of the loop body: the row's category and its ten numbered
      skills, or the KeyError of a missing column. */
  function RowTable(row: SkillRow, skillType: string, categoryColumn: string): (r: Result<(string, seq<(nat, string)>)>)
    ensures r.Ok? <==> categoryColumn in row && forall i :: 0 < i <= SkillSlots ==> SkillColumn(i, skillType) in row
    ensures r.Err? ==> r.error == KeyError
    ensures r.Ok? ==> r.value.0 == row[categoryColumn] && |r.value.1| == SkillSlots
    ensures r.Ok? ==> forall j :: 0 <= j < SkillSlots ==>
      r.value.1[j] == (j + 1, row[SkillColumn(j + 1, skillType)])
  {
    if categoryColumn !in row then Err(KeyError)
    else
      match SkillsFrom(row, skillType, 0)
      case Err(e) => Err(e)
      case Ok(skills) => Ok((row[categoryColumn], skills))
  }

  /** The tables after the rows `rows`, in order: each row's table is stored
      under its category, replacing an earlier one. */
  function SkillTables(rows: seq<SkillRow>, skillType: string, categoryColumn: string): (r: Result<map<string, seq<(nat, string)>>>)
    ensures r.Ok? ==> forall i :: 0 <= i < |rows| ==> RowTable(rows[i], skillType, categoryColumn).Ok?
  {
    if rows == [] then Ok(map[])
    else
      match SkillTables(rows[..|rows| - 1], skillType, categoryColumn)
      case Err(e) => Err(e)
      case Ok(tables) =>
        match RowTable(rows[|rows| - 1], skillType, categoryColumn)
        case Err(e) => Err(e)
        case Ok((category, skills)) =>
          assert forall i :: 0 <= i < |rows| - 1 ==> rows[..|rows| - 1][i] == rows[i];
          Ok(tables[category := skills])
  }

  /** create_skill_table(df, skill_type, category_column): one numbered
      table per category, filled row by row. */
  method CreateSkillTable(df: seq<SkillRow>, skillType: string, categoryColumn: string)
    returns (r: Result<map<string, seq<(nat, string)>>>)
    ensures r == SkillTables(df, skillType, categoryColumn)
  {
    var tables: map<string, seq<(nat, string)>> := map[];
    var i := 0;
    while i < |df|
      invariant 0 <= i <= |df|
      invariant SkillTables(df[..i], skillType, categoryColumn) == Ok(tables)
    {
      var row := df[i];
      if categoryColumn !in row {
        TablesFail(df, i, skillType, categoryColumn);
        return Err(KeyError);
      }
      var category := row[categoryColumn];
      var skills: seq<(nat, string)> := [];
      var k := 0;
      while k < SkillSlots
        invariant 0 <= k <= SkillSlots && |skills| == k
        invariant forall m :: 0 < m <= k ==> SkillColumn(m, skillType) in row
        invariant forall j :: 0 <= j < k ==> skills[j] == (j + 1, row[SkillColumn(j + 1, skillType)])
      {
        var column := SkillColumn(k + 1, skillType);
        if column !in row {
          TablesFail(df, i, skillType, categoryColumn);
          return Err(KeyError);
        }
        skills := skills + [(k + 1, row[column])];
        k := k + 1;
      }
      TablesStep(df, i, skillType, categoryColumn, tables, skills);
      tables := tables[category := skills];
      i := i + 1;
    }
    assert df[..|df|] == df;
    r := Ok(tables);
  }

  /** One more row that has every column extends the tables by its own. */
  lemma TablesStep(df: seq<SkillRow>, i: nat, skillType: string, categoryColumn: string,
                   tables: map<string, seq<(nat, string)>>, skills: seq<(nat, string)>)
    requires i < |df| && categoryColumn in df[i]
    requires SkillTables(df[..i], skillType, categoryColumn) == Ok(tables)
    requires |skills| == SkillSlots
    requires forall m :: 0 < m <= SkillSlots ==> SkillColumn(m, skillType) in df[i]
    requires forall j :: 0 <= j < SkillSlots ==> skills[j] == (j + 1, df[i][SkillColumn(j + 1, skillType)])
    ensures SkillTables(df[..i + 1], skillType, categoryColumn) == Ok(tables[df[i][categoryColumn] := skills])
  {
    var found := SkillsFrom(df[i], skillType, 0);
    assert found.value == skills;
    assert df[..i + 1][..i] == df[..i];
  }

  /** A row missing a column ends the loop with KeyError: every longer
      prefix, and so the whole frame, fails. */
  lemma TablesFail(df: seq<SkillRow>, i: nat, skillType: string, categoryColumn: string)
    requires i < |df| && SkillTables(df[..i], skillType, categoryColumn).Ok?
    requires RowTable(df[i], skillType, categoryColumn).Err?
    ensures SkillTables(df, skillType, categoryColumn) == Err(KeyError)
  {
    assert df[..i + 1][..i] == df[..i];
    TablesErrStays(df, i + 1, skillType, categoryColumn);
  }

  /** Once a prefix of the rows fails, every longer prefix fails the same
      way. */
  lemma {:induction false} TablesErrStays(df: seq<SkillRow>, n: nat, skillType: string, categoryColumn: string)
    requires n <= |df|
    requires SkillTables(df[..n], skillType, categoryColumn).Err?
    ensures SkillTables(df, skillType, categoryColumn) == SkillTables(df[..n], skillType, categoryColumn)
    decreases |df| - n
  {
    if n < |df| {
      assert df[..n + 1][..n] == df[..n];
      TablesErrStays(df, n + 1, skillType, categoryColumn);
    } else {
      assert df[..n] == df;
    }
  }

  /** The tables are keyed by exactly the rows' categories. */
  lemma {:induction false} SkillTablesKeys(rows: seq<SkillRow>, skillType: string, categoryColumn: string)
    requires SkillTables(rows, skillType, categoryColumn).Ok?
    ensures forall i :: 0 <= i < |rows| ==> categoryColumn in rows[i]
    ensures SkillTables(rows, skillType, categoryColumn).value.Keys
         == set i | 0 <= i < |rows| :: rows[i][categoryColumn]
  {
    if rows != [] {
      var init := rows[..|rows| - 1];
      SkillTablesKeys(init, skillType, categoryColumn);
      assert forall i :: 0 <= i < |rows| - 1 ==> init[i] == rows[i];
      assert RowTable(rows[|rows| - 1], skillType, categoryColumn).Ok?;
      assert rows == init + [rows[|rows| - 1]];
      CategoriesPeel(init, rows[|rows| - 1], categoryColumn);
    }
  }

  /** The categories of a frame are those of all but its last row, plus the last row's. */
  lemma CategoriesPeel(init: seq<SkillRow>, last: SkillRow, categoryColumn: string)
    requires categoryColumn in last && forall i :: 0 <= i < |init| ==> categoryColumn in init[i]
    ensures (set i | 0 <= i < |init + [last]| :: (init + [last])[i][categoryColumn])
         == (set i | 0 <= i < |init| :: init[i][categoryColumn]) + {last[categoryColumn]}
  {
    var rows := init + [last];
    var whole := set i | 0 <= i < |rows| :: rows[i][categoryColumn];
    var front := set i | 0 <= i < |init| :: init[i][categoryColumn];
    forall x | x in whole ensures x in front || x == last[categoryColumn] {
      var i :| 0 <= i < |rows| && rows[i][categoryColumn] == x;
      if i < |init| {
        assert rows[i] == init[i];
      }
    }
    forall x | x in front ensures x in whole {
      var i :| 0 <= i < |init| && init[i][categoryColumn] == x;
      assert rows[i] == init[i];
    }
    assert rows[|init|] == last;
  }

  /** The last row of a category decides its table: the table holds that
      row's ten skills, numbered 1 to 10, from the columns "Top i <type>". */
  lemma {:induction false} LastRowWins(rows: seq<SkillRow>, skillType: string, categoryColumn: string, i: nat)
    requires SkillTables(rows, skillType, categoryColumn).Ok?
    requires i < |rows|
    requires categoryColumn in rows[i]
    requires forall j :: i < j < |rows| && categoryColumn in rows[j] ==> rows[j][categoryColumn] != rows[i][categoryColumn]
    ensures rows[i][categoryColumn] in SkillTables(rows, skillType, categoryColumn).value
    ensures var table := SkillTables(rows, skillType, categoryColumn).value[rows[i][categoryColumn]];
            && |table| == SkillSlots
            && forall k :: 0 <= k < SkillSlots ==> table[k] == (k + 1, rows[i][SkillColumn(k + 1, skillType)])
  {
    var init := rows[..|rows| - 1];
    assert forall j :: 0 <= j < |rows| - 1 ==> init[j] == rows[j];
    assert RowTable(rows[|rows| - 1], skillType, categoryColumn).Ok?;
    if i < |rows| - 1 {
      LastRowWins(init, skillType, categoryColumn, i);
    }
  }
}
