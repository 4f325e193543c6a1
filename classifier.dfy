/** Keyword classification of job titles: an ordered table of
    (category, keywords) entries is searched entry by entry and, within an
    entry, keyword by keyword; the first category one of whose keywords
    occurs in the lower-cased title as a whole word (the regular expression
    \bKEYWORD\b) wins, and a title no keyword matches is "Other".

    Keywords are read as literal text: none of the keywords in the
    dashboard's tables contains a regular-expression metacharacter. */
module Classifier {
  import opened Wrappers
  import opened Text

  /** An ordered category table: category label and its ordered keywords. */
  type Table = seq<(string, seq<string>)>

  /** The label of a title that no keyword matches. */
  const Unmatched: string := "Other"

  /** \b at position p of t: exactly one of the characters around p is a
      word character (the outside of the string counts as non-word). */
  predicate Boundary(t: string, p: nat)
    requires p <= |t|
  {
    (p > 0 && IsWordChar(t[p - 1])) != (p < |t| && IsWordChar(t[p]))
  }

  /** \bk\b matches t at position i. */
  predicate WholeWordAt(t: string, k: string, i: nat) {
    i + |k| <= |t| && t[i..i + |k|] == k && Boundary(t, i) && Boundary(t, i + |k|)
  }

  /** re.search(r'\b' + k + r'\b', t) finds a match. */
  ghost predicate OccursAsWord(t: string, k: string) {
    exists i: nat :: WholeWordAt(t, k, i)
  }

  /** Some keyword of the entry occurs as a whole word in t. */
  ghost predicate EntryMatches(t: string, keywords: seq<string>) {
    exists m :: 0 <= m < |keywords| && OccursAsWord(t, keywords[m])
  }

  /** The characters k[m..] occur in t from position i + m on, compared one
      by one. */
  predicate PrefixFrom(t: string, k: string, i: nat, m: nat)
    requires m <= |k|
    decreases |k| - m
  {
    if m == |k| then i + m <= |t|
    else i + m < |t| && t[i + m] == k[m] && PrefixFrom(t, k, i, m + 1)
  }

  /** k occurs in t at position i. */
  predicate PrefixAt(t: string, k: string, i: nat) {
    PrefixFrom(t, k, i, 0)
  }

  lemma {:induction false} PrefixFromSlice(t: string, k: string, i: nat, m: nat)
    requires m <= |k|
    decreases |k| - m
    ensures PrefixFrom(t, k, i, m) <==> i + |k| <= |t| && t[i + m..i + |k|] == k[m..]
  {
    if m < |k| {
      PrefixFromSlice(t, k, i, m + 1);
      if i + |k| <= |t| {
        var w := t[i + m..i + |k|];
        assert w[0] == t[i + m] && w[1..] == t[i + m + 1..i + |k|];
        assert k[m..][0] == k[m] && k[m..][1..] == k[m + 1..];
        if w == k[m..] {
          assert w[1..] == k[m..][1..];
        } else if t[i + m] == k[m] {
          assert w[1..] != k[m..][1..];
        }
      }
    }
  }

  lemma PrefixAtSlice(t: string, k: string, i: nat)
    ensures PrefixAt(t, k, i) <==> i + |k| <= |t| && t[i..i + |k|] == k
  {
    PrefixFromSlice(t, k, i, 0);
  }

  /** The regex search: tries every start position from i on, left to right. */
  function SearchFrom(t: string, k: string, i: nat): bool
    requires i <= |t|
    decreases |t| - i
  {
    if i + |k| > |t| then false
    else if PrefixAt(t, k, i) && Boundary(t, i) && Boundary(t, i + |k|) then true
    else if i == |t| then false
    else SearchFrom(t, k, i + 1)
  }

  /** The search finds a match exactly when \bk\b matches at some position from i on. */
  lemma {:induction false} SearchFromCorrect(t: string, k: string, i: nat)
    requires i <= |t|
    decreases |t| - i
    ensures SearchFrom(t, k, i) <==> exists j: nat :: i <= j && WholeWordAt(t, k, j)
  {
    PrefixAtSlice(t, k, i);
    if i + |k| > |t| {
    } else if PrefixAt(t, k, i) && Boundary(t, i) && Boundary(t, i + |k|) {
      assert WholeWordAt(t, k, i);
    } else if i < |t| {
      SearchFromCorrect(t, k, i + 1);
    }
  }

  /** The inner loop: tries the keywords of one entry in order. */
  function AnyKeyword(t: string, keywords: seq<string>): bool {
    if keywords == [] then false
    else if SearchFrom(t, keywords[0], 0) then true
    else AnyKeyword(t, keywords[1..])
  }

  lemma {:induction false} AnyKeywordCorrect(t: string, keywords: seq<string>)
    ensures AnyKeyword(t, keywords) <==> EntryMatches(t, keywords)
  {
    if keywords != [] {
      SearchFromCorrect(t, keywords[0], 0);
      AnyKeywordCorrect(t, keywords[1..]);
      if EntryMatches(t, keywords[1..]) {
        var m :| 0 <= m < |keywords| - 1 && OccursAsWord(t, keywords[1..][m]);
        assert OccursAsWord(t, keywords[m + 1]);
      }
      if EntryMatches(t, keywords) && !OccursAsWord(t, keywords[0]) {
        var m :| 0 <= m < |keywords| && OccursAsWord(t, keywords[m]);
        assert keywords[1..][m - 1] == keywords[m];
      }
    }
  }

  /** The outer loop: index of the first entry of the table that has a
      keyword occurring in t. */
  function FirstMatch(t: string, table: Table): (r: Option<nat>)
    ensures r.Some? ==> r.value < |table|
  {
    if table == [] then None
    else if AnyKeyword(t, table[0].1) then Some(0)
    else match FirstMatch(t, table[1..])
         case None => None
         case Some(j) => Some(j + 1)
  }

  /** First match: the entry found matches, and no entry before it does; when
      none is found, no entry matches. */
  lemma {:induction false} FirstMatchCorrect(t: string, table: Table)
    ensures var r := FirstMatch(t, table);
            && (r.Some? ==> r.value < |table| && EntryMatches(t, table[r.value].1))
            && (r.Some? ==> forall i :: 0 <= i < r.value ==> !EntryMatches(t, table[i].1))
            && (r.None? ==> forall i :: 0 <= i < |table| ==> !EntryMatches(t, table[i].1))
  {
    if table != [] {
      AnyKeywordCorrect(t, table[0].1);
      FirstMatchCorrect(t, table[1..]);
      forall i | 1 <= i < |table| ensures table[1..][i - 1] == table[i] { }
    }
  }

  // ------------------------------------------- facts about concrete titles

  /** A keyword with a letter the title lacks does not occur in it. */
  lemma MissingLetter(t: string, k: string, m: nat)
    requires m < |k| && k[m] !in t
    ensures !OccursAsWord(t, k)
  {
  }

  /** A whole-word match of a keyword that starts with a word character
      begins a word of the title with the keyword's first letter: when every
      such place is listed in starts, every match is at one of them. */
  lemma MatchesAmong(t: string, k: string, starts: seq<nat>)
    requires |k| > 0 && IsWordChar(k[0])
    requires forall i {:trigger t[i]} :: 0 <= i < |t| && t[i] == k[0] && (i == 0 || !IsWordChar(t[i - 1])) ==> i in starts
    ensures forall j: nat :: WholeWordAt(t, k, j) ==> j in starts
  {
    forall j: nat | WholeWordAt(t, k, j) ensures j in starts {
      WordMatchStart(t, k, j);
      assert 0 <= j < |t| && t[j] == k[0] && (j == 0 || !IsWordChar(t[j - 1]));
    }
  }

  /** When every place a keyword could start is listed in starts and none
      of them holds a whole-word match, the keyword does not occur. */
  lemma OnlyCandidates(t: string, k: string, starts: seq<nat>)
    requires |k| > 0 && IsWordChar(k[0])
    requires forall i {:trigger t[i]} :: 0 <= i < |t| && t[i] == k[0] && (i == 0 || !IsWordChar(t[i - 1])) ==> i in starts
    requires forall j :: j in starts ==> !WholeWordAt(t, k, j)
    ensures !OccursAsWord(t, k)
  {
    MatchesAmong(t, k, starts);
  }

  /** A whole-word match of such a keyword begins a word of the title with
      the keyword's first letter. */
  lemma WordMatchStart(t: string, k: string, j: nat)
    requires |k| > 0 && IsWordChar(k[0]) && WholeWordAt(t, k, j)
    ensures j < |t| && t[j] == k[0] && (j == 0 || !IsWordChar(t[j - 1]))
  {
    assert t[j..j + |k|][0] == t[j];
  }

  /** Every character of t is one of chars. */
  predicate CharsAmong(t: string, chars: set<char>) {
    forall i :: 0 <= i < |t| ==> t[i] in chars
  }

  /** A keyword with a character outside chars does not occur in a title
      made of chars only. */
  lemma LetterOutside(t: string, k: string, m: nat, chars: set<char>)
    requires CharsAmong(t, chars) && m < |k| && k[m] !in chars
    ensures !OccursAsWord(t, k)
  {
    forall j: nat ensures !WholeWordAt(t, k, j) {
      if j + |k| <= |t| {
        assert t[j..j + |k|][m] == t[j + m];
      }
    }
  }

  /** Every word of t (a word character at the start of t or after a
      non-word character) begins with one of the letters firsts. */
  predicate WordStartsAmong(t: string, firsts: set<char>) {
    forall i :: 0 <= i < |t| && IsWordChar(t[i]) && (i == 0 || !IsWordChar(t[i - 1])) ==> t[i] in firsts
  }

  /** A keyword whose first letter begins no word of t does not occur in t. */
  lemma NoWordStartsWith(t: string, k: string, firsts: set<char>)
    requires |k| > 0 && IsWordChar(k[0]) && k[0] !in firsts
    requires WordStartsAmong(t, firsts)
    ensures !OccursAsWord(t, k)
  {
    forall j: nat | WholeWordAt(t, k, j) ensures false {
      WordMatchStart(t, k, j);
    }
  }

  /** The category of a title: the first entry, in table order, that has a
      keyword occurring as a whole word in the lower-cased title, else "Other". */
  function Categorize(title: string, table: Table): (r: string)
    ensures r == Unmatched || exists j :: 0 <= j < |table| && table[j].0 == r
  {
    match FirstMatch(Lower(title), table)
    case None => Unmatched
    case Some(j) => table[j].0
  }

  /** The first-match rule read backwards: a title whose lower-cased form
      matches entry j and no earlier entry gets entry j's category. */
  lemma CategorizeFirst(title: string, table: Table, j: nat)
    requires j < |table|
    requires EntryMatches(Lower(title), table[j].1)
    requires forall i :: 0 <= i < j ==> !EntryMatches(Lower(title), table[i].1)
    ensures Categorize(title, table) == table[j].0
  {
    FirstMatchCorrect(Lower(title), table);
  }

  /** A title whose lower-cased form matches no entry is "Other". */
  lemma CategorizeNone(title: string, table: Table)
    requires forall j :: 0 <= j < |table| ==> !EntryMatches(Lower(title), table[j].1)
    ensures Categorize(title, table) == Unmatched
  {
    FirstMatchCorrect(Lower(title), table);
  }

  /** Classification ignores case: a title and its lower-cased form get the
      same category. */
  lemma CaseInsensitive(title: string, table: Table)
    ensures Categorize(Lower(title), table) == Categorize(title, table)
  {
    LowerIdempotent(title);
  }

  /** Whole-word matching: when k is found as a whole word at position i of
      t, neither neighbour of the match continues the word. */
  lemma WholeWordNeighbours(t: string, k: string, i: nat)
    requires WholeWordAt(t, k, i) && |k| > 0 && IsWordChar(k[0]) && IsWordChar(k[|k| - 1])
    ensures i == 0 || !IsWordChar(t[i - 1])
    ensures i + |k| == |t| || !IsWordChar(t[i + |k|])
  {
    assert t[i] == k[0] && t[i + |k| - 1] == k[|k| - 1];
  }
}
