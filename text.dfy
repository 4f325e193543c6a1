/** The Python string built-ins the core relies on, restricted to ASCII:
    str.lower, str.strip, str.split(sep), str.split(), str.replace of one
    character, `in` on substrings, the regular expression replacement
    [^0-9] -> "" and int() of a string. */
module Text {
  import opened Wrappers

  predicate IsDigit(c: char) { '0' <= c <= '9' }

  predicate IsUpper(c: char) { 'A' <= c <= 'Z' }

  /** The regular-expression word class \w, restricted to ASCII. */
  predicate IsWordChar(c: char) {
    'a' <= c <= 'z' || IsUpper(c) || IsDigit(c) || c == '_'
  }

  /** The characters str.isspace() accepts among ASCII: space, \t \n \v \f \r
      and the four separators 0x1c..0x1f. */
  predicate IsSpace(c: char) {
    c == ' ' || 9 <= c as int <= 13 || 28 <= c as int <= 31
  }

  // ---------------------------------------------------------------- lower

  function LowerChar(c: char): char {
    if IsUpper(c) then (c as int + 32) as char else c
  }

  /** str.lower() on ASCII. */
  function Lower(s: string): (r: string)
    ensures |r| == |s|
    ensures forall i :: 0 <= i < |s| ==> r[i] == LowerChar(s[i])
  {
    seq(|s|, i requires 0 <= i < |s| => LowerChar(s[i]))
  }

  /** Lower-casing twice is lower-casing once. */
  lemma {:induction false} LowerIdempotent(s: string)
    ensures Lower(Lower(s)) == Lower(s)
  {
    if s != [] {
      LowerIdempotent(s[1..]);
      assert Lower(s)[1..] == Lower(s[1..]);
    }
  }

  // ------------------------------------------------------------ searching

  /** `sub in s` for strings: some slice of s equals sub. */
  ghost predicate HasSubstring(s: string, sub: string) {
    exists i: nat :: SubstringAt(s, sub, i)
  }

  predicate SubstringAt(s: string, sub: string, i: nat) {
    i + |sub| <= |s| && s[i..i + |sub|] == sub
  }

  /** The scanner behind `sub in s`, trying each start position in turn. */
  function Contains(s: string, sub: string): (r: bool)
    ensures r <==> HasSubstring(s, sub)
  {
    if |sub| > |s| then false
    else if s[..|sub|] == sub then assert SubstringAt(s, sub, 0); true
    else HasSubstringTail(s, sub); Contains(s[1..], sub)
  }

  /** When sub is not a prefix of s, it occurs in s iff it occurs in s[1..]. */
  lemma HasSubstringTail(s: string, sub: string)
    requires |sub| <= |s| && s[..|sub|] != sub
    ensures HasSubstring(s, sub) <==> HasSubstring(s[1..], sub)
  {
    if HasSubstring(s, sub) {
      var i: nat :| SubstringAt(s, sub, i);
      assert i > 0;
      assert SubstringAt(s[1..], sub, i - 1);
    }
    if HasSubstring(s[1..], sub) {
      var i: nat :| SubstringAt(s[1..], sub, i);
      assert SubstringAt(s, sub, i + 1);
    }
  }

  /** A text that lacks one of the characters of sub does not contain sub. */
  lemma MissingChar(s: string, sub: string, m: nat)
    requires m < |sub| && sub[m] !in s
    ensures !HasSubstring(s, sub)
  {
  }

  /** Number of occurrences of c in s. */
  function Occurrences(s: string, c: char): nat {
    if s == [] then 0 else (if s[0] == c then 1 else 0) + Occurrences(s[1..], c)
  }

  lemma {:induction false} OccurrencesPositive(s: string, c: char)
    ensures c in s <==> Occurrences(s, c) > 0
  {
    if s != [] {
      OccurrencesPositive(s[1..], c);
      assert c in s <==> s[0] == c || c in s[1..];
    }
  }

  // -------------------------------------------------------------- filters

  /** s.replace(c, ""): every occurrence of c removed, the rest kept in order. */
  function RemoveChar(s: string, c: char): (r: string)
  {
    if s == [] then []
    else (if s[0] == c then [] else [s[0]]) + RemoveChar(s[1..], c)
  }

  /** Removing c keeps every other character and only those. */
  lemma {:induction false} RemoveCharMembers(s: string, c: char)
    ensures forall x :: x in RemoveChar(s, c) <==> x in s && x != c
  {
    if s != [] {
      RemoveCharMembers(s[1..], c);
      assert forall x :: x in s <==> x == s[0] || x in s[1..];
    }
  }

  lemma {:induction false} RemoveCharAppend(a: string, b: string, c: char)
    ensures RemoveChar(a + b, c) == RemoveChar(a, c) + RemoveChar(b, c)
  {
    if a == [] {
      assert a + b == b;
    } else {
      assert (a + b)[1..] == a[1..] + b;
      RemoveCharAppend(a[1..], b, c);
    }
  }

  lemma {:induction false} RemoveCharAbsent(a: string, c: char)
    requires c !in a
    ensures RemoveChar(a, c) == a
  {
    if a != [] { RemoveCharAbsent(a[1..], c); }
  }

  /** Removing the one separator between two separator-free pieces joins them. */
  lemma RemoveSeparator(a: string, b: string, c: char)
    requires c !in a && c !in b
    ensures RemoveChar(a + [c] + b, c) == a + b
  {
    var tail := [c] + b;
    assert a + [c] + b == a + tail;
    RemoveCharAppend(a, tail, c);
    assert RemoveChar(tail, c) == RemoveChar(b, c) by {
      assert tail[0] == c && tail[1..] == b;
    }
    RemoveCharAbsent(a, c);
    RemoveCharAbsent(b, c);
  }

  /** re.sub("[^0-9]", "", s): only the ASCII digits of s, in order. */
  function KeepDigits(s: string): (r: string)
    ensures |r| <= |s|
  {
    if s == [] then []
    else (if IsDigit(s[0]) then [s[0]] else []) + KeepDigits(s[1..])
  }

  /** What remains are exactly the digits of s. */
  lemma {:induction false} KeepDigitsMembers(s: string)
    ensures AllDigits(KeepDigits(s))
    ensures forall x :: x in KeepDigits(s) <==> x in s && IsDigit(x)
  {
    if s != [] {
      KeepDigitsMembers(s[1..]);
      assert forall x :: x in s <==> x == s[0] || x in s[1..];
    }
  }

  predicate AllDigits(s: string) { forall i :: 0 <= i < |s| ==> IsDigit(s[i]) }

  predicate NoDigits(s: string) { forall i :: 0 <= i < |s| ==> !IsDigit(s[i]) }

  /** The digits of a concatenation are the digits of each part, in order. */
  lemma {:induction false} KeepDigitsAppend(a: string, b: string)
    ensures KeepDigits(a + b) == KeepDigits(a) + KeepDigits(b)
  {
    if a == [] {
      assert a + b == b;
    } else {
      var head: string := if IsDigit(a[0]) then [a[0]] else [];
      assert (a + b)[0] == a[0] && (a + b)[1..] == a[1..] + b;
      assert KeepDigits(a + b) == head + KeepDigits(a[1..] + b);
      KeepDigitsAppend(a[1..], b);
      assert KeepDigits(a) == head + KeepDigits(a[1..]);
      assert head + (KeepDigits(a[1..]) + KeepDigits(b)) == (head + KeepDigits(a[1..])) + KeepDigits(b);
    }
  }

  /** A text of digits only is kept whole. */
  lemma {:induction false} KeepDigitsOfDigits(s: string)
    requires AllDigits(s)
    ensures KeepDigits(s) == s
  {
    if s != [] {
      KeepDigitsOfDigits(s[1..]);
    }
  }

  /** A text without digits leaves nothing. */
  lemma {:induction false} KeepDigitsOfOthers(s: string)
    requires NoDigits(s)
    ensures KeepDigits(s) == []
  {
    if s != [] {
      KeepDigitsOfOthers(s[1..]);
    }
  }

  /** Non-digits in front are dropped. */
  lemma KeepDigitsSkip(a: string, b: string)
    requires NoDigits(a)
    ensures KeepDigits(a + b) == KeepDigits(b)
  {
    KeepDigitsOfOthers(a);
    KeepDigitsAppend(a, b);
  }

  /** Digits in front are kept. */
  lemma KeepDigitsTake(a: string, b: string)
    requires AllDigits(a)
    ensures KeepDigits(a + b) == a + KeepDigits(b)
  {
    KeepDigitsOfDigits(a);
    KeepDigitsAppend(a, b);
  }

  /** The digits of a figure written in two digit groups, with non-digits
      before, between and after them. */
  lemma DigitsBetween(a: string, b: string, c: string, d: string, e: string)
    requires NoDigits(a) && AllDigits(b) && NoDigits(c) && AllDigits(d) && NoDigits(e)
    ensures KeepDigits(a + (b + (c + (d + e)))) == b + d
  {
    KeepDigitsOfOthers(e);
    KeepDigitsTake(d, e);
    KeepDigitsSkip(c, d + e);
    KeepDigitsTake(b, c + (d + e));
    KeepDigitsSkip(a, b + (c + (d + e)));
  }

  /** The value of a decimal digit; other characters count as 0. */
  function DigitValue(c: char): nat {
    if IsDigit(c) then c as int - '0' as int else 0
  }

  /** The number a run of decimal digits denotes. */
  function DigitsValue(s: string): nat {
    if s == [] then 0
    else 10 * DigitsValue(s[..|s| - 1]) + DigitValue(s[|s| - 1])
  }

  /** Decimal notation of a natural number, without leading zeros. */
  function NatToDigits(n: nat): (r: string)
    ensures |r| > 0 && AllDigits(r)
    ensures DigitsValue(r) == n
  {
    var d := [(('0' as int) + n % 10) as char];
    if n < 10 then d
    else
      var r := NatToDigits(n / 10) + d;
      assert r[..|r| - 1] == NatToDigits(n / 10);
      r
  }

  // ------------------------------------------------------------ splitting

  /** str.split(sep) for a one-character separator: the pieces between the
      occurrences of c, so there is always one more piece than there are c's. */
  function Split(s: string, c: char): (r: seq<string>)
    ensures |r| == Occurrences(s, c) + 1
    ensures forall i :: 0 <= i < |r| ==> c !in r[i]
  {
    if s == [] then [[]]
    else
      var rest := Split(s[1..], c);
      if s[0] == c then [[]] + rest else [[s[0]] + rest[0]] + rest[1..]
  }

  /** sep.join(parts). */
  function Join(parts: seq<string>, c: char): string
    requires |parts| > 0
  {
    if |parts| == 1 then parts[0] else parts[0] + [c] + Join(parts[1..], c)
  }

  /** Joining the pieces of a split with the separator gives back the string. */
  lemma {:induction false} SplitJoin(s: string, c: char)
    ensures Join(Split(s, c), c) == s
  {
    if s != [] {
      var rest := Split(s[1..], c);
      SplitJoin(s[1..], c);
      if s[0] == c {
        assert Split(s, c)[1..] == rest;
      } else if |rest| == 1 {
        assert Split(s, c) == [[s[0]] + rest[0]];
      } else {
        assert Split(s, c)[1..] == rest[1..];
        assert Join(rest, c) == rest[0] + [c] + Join(rest[1..], c);
      }
    }
  }

  lemma {:induction false} SplitWithout(a: string, c: char)
    requires c !in a
    ensures Split(a, c) == [a]
  {
    if a != [] {
      SplitWithout(a[1..], c);
      assert [a[0]] + a[1..] == a;
    }
  }

  lemma {:induction false} SplitAfter(a: string, rest: string, c: char)
    requires c !in a
    ensures Split(a + rest, c) == [a + Split(rest, c)[0]] + Split(rest, c)[1..]
  {
    if a != [] {
      assert (a + rest)[1..] == a[1..] + rest;
      assert (a + rest)[0] == a[0];
      SplitAfter(a[1..], rest, c);
      var r := Split(rest, c);
      var tail := Split(a[1..] + rest, c);
      assert tail[0] == a[1..] + r[0] && tail[1..] == r[1..];
      assert [a[0]] + (a[1..] + r[0]) == a + r[0];
    } else {
      var r := Split(rest, c);
      assert a + rest == rest && a + r[0] == r[0];
      assert r == [r[0]] + r[1..];
    }
  }

  /** A string with exactly one separator splits into the text before it and
      the text after it. */
  lemma SplitTwo(a: string, b: string, c: char)
    requires c !in a && c !in b
    ensures Split(a + [c] + b, c) == [a, b]
  {
    assert a + [c] + b == a + ([c] + b);
    SplitWithout(b, c);
    assert ([c] + b)[1..] == b;
    SplitAfter(a, [c] + b, c);
    assert a + [] == a;
  }

  // --------------------------------------------------------- whitespace

  predicate AllSpace(s: string) { forall i :: 0 <= i < |s| ==> IsSpace(s[i]) }

  /** Number of whitespace characters at the start of s. */
  function LeadingSpaces(s: string): (n: nat)
    ensures n <= |s| && AllSpace(s[..n])
    ensures n == |s| || !IsSpace(s[n])
  {
    if s == [] || !IsSpace(s[0]) then 0
    else
      var n := 1 + LeadingSpaces(s[1..]);
      assert forall i :: 1 <= i < n ==> s[..n][i] == s[1..][..n - 1][i - 1];
      n
  }

  /** Number of whitespace characters at the end of s. */
  function TrailingSpaces(s: string): (n: nat)
    ensures n <= |s| && AllSpace(s[|s| - n..])
    ensures n == |s| || !IsSpace(s[|s| - n - 1])
  {
    if s == [] || !IsSpace(s[|s| - 1]) then 0
    else
      var p := s[..|s| - 1];
      var n := 1 + TrailingSpaces(p);
      assert forall i :: |s| - n <= i < |s| - 1 ==> s[i] == p[i] && p[i] == p[|p| - (n - 1)..][i - (|s| - n)];
      n
  }

  /** Drops the leading whitespace of s. */
  function TrimLeft(s: string): (r: string)
    ensures r == s[LeadingSpaces(s)..]
    ensures r == [] || !IsSpace(r[0])
  {
    var n := LeadingSpaces(s);
    assert forall i :: 0 <= i < n ==> s[..n][i] == s[i];
    assert forall i :: n <= i < |s| ==> s[i] == s[n..][i - n];
    s[n..]
  }

  /** Drops the trailing whitespace of s. */
  function TrimRight(s: string): (r: string)
    ensures r == s[..|s| - TrailingSpaces(s)]
    ensures r == [] || !IsSpace(r[|r| - 1])
  {
    var n := TrailingSpaces(s);
    assert forall i :: |s| - n <= i < |s| ==> s[|s| - n..][i - (|s| - n)] == s[i];
    assert forall i :: 0 <= i < |s| - n ==> s[i] == s[..|s| - n][i];
    s[..|s| - n]
  }

  /** Cutting s[n..] at k is cutting s at n + k. */
  lemma DropThenSplit(s: string, n: nat, k: nat)
    requires n + k <= |s|
    ensures s[n..][..k] == s[n..n + k] && s[n..][k..] == s[n + k..]
  {
  }

  /** str.strip(): s with the whitespace at both ends removed. */
  function Strip(s: string): (r: string)
    ensures LeadingSpaces(s) + |r| <= |s|
    ensures r == s[LeadingSpaces(s)..LeadingSpaces(s) + |r|]
    ensures AllSpace(s[..LeadingSpaces(s)]) && AllSpace(s[LeadingSpaces(s) + |r|..])
    ensures r == [] || (!IsSpace(r[0]) && !IsSpace(r[|r| - 1]))
  {
    var n := LeadingSpaces(s);
    var t := TrimLeft(s);
    var m := TrailingSpaces(t);
    DropThenSplit(s, n, |t| - m);
    TrimRight(t)
  }

  /** strip() keeps every character that is not whitespace. */
  lemma StripKeeps(s: string, i: nat)
    requires i < |s| && !IsSpace(s[i])
    ensures s[i] in Strip(s)
  {
    var r := Strip(s);
    var n := LeadingSpaces(s);
    var e := n + |r|;
    assert forall k :: 0 <= k < n ==> IsSpace(s[k]) by {
      forall k | 0 <= k < n ensures IsSpace(s[k]) { assert s[..n][k] == s[k]; }
    }
    assert forall k :: e <= k < |s| ==> IsSpace(s[k]) by {
      forall k | e <= k < |s| ensures IsSpace(s[k]) { assert s[e..][k - e] == s[k]; }
    }
    assert r[i - n] == s[i];
  }

  /** Length of the longest prefix of s that holds no whitespace. */
  function WordLength(s: string): (n: nat)
    ensures n <= |s|
    ensures forall i :: 0 <= i < n ==> !IsSpace(s[i])
    ensures n == |s| || IsSpace(s[n])
  {
    if s == [] || IsSpace(s[0]) then 0 else 1 + WordLength(s[1..])
  }

  /** s.split()[0]: the first whitespace-separated token, or an IndexError
      when s is blank. */
  function FirstToken(s: string): (r: Result<string>)
    ensures r.Err? <==> AllSpace(s)
    ensures r.Err? ==> r.error == IndexError
    ensures r.Ok? ==> exists a: nat ::
      && a + |r.value| <= |s| && AllSpace(s[..a]) && s[a..a + |r.value|] == r.value
      && (a + |r.value| == |s| || IsSpace(s[a + |r.value|]))
    ensures r.Ok? ==> r.value != [] && forall i :: 0 <= i < |r.value| ==> !IsSpace(r.value[i])
  {
    var a := LeadingSpaces(s);
    if a == |s| then
      assert s[..|s|] == s;
      Err(IndexError)
    else
      var t := s[a..];
      var n := WordLength(t);
      assert forall i :: 0 <= i < a ==> s[..a][i] == s[i];
      assert t[..n] == s[a..a + n];
      Ok(t[..n])
  }

  lemma {:induction false} WordLengthOf(w: string, rest: string)
    requires forall i :: 0 <= i < |w| ==> !IsSpace(w[i])
    requires rest == [] || IsSpace(rest[0])
    ensures WordLength(w + rest) == |w|
  {
    if w == [] {
      assert w + rest == rest;
    } else {
      assert (w + rest)[1..] == w[1..] + rest;
      WordLengthOf(w[1..], rest);
    }
  }

  /** A blank-free word at the start of s, followed by the end of s or a
      blank, is its first token. */
  lemma FirstTokenOf(w: string, rest: string)
    requires w != [] && forall i :: 0 <= i < |w| ==> !IsSpace(w[i])
    requires rest == [] || IsSpace(rest[0])
    ensures FirstToken(w + rest) == Ok(w)
  {
    assert (w + rest)[0] == w[0];
    assert LeadingSpaces(w + rest) == 0;
    assert (w + rest)[0..] == w + rest;
    WordLengthOf(w, rest);
    assert (w + rest)[..|w|] == w;
  }

  // ------------------------------------------------------------------ int()

  /** The body of a Python integer literal in base 10 as int() accepts it:
      digits, where single underscores may separate two digits. */
  predicate DigitGroups(b: string) {
    && |b| > 0 && IsDigit(b[0]) && IsDigit(b[|b| - 1])
    && (forall i :: 0 <= i < |b| ==> IsDigit(b[i]) || b[i] == '_')
    && (forall i :: 0 <= i < |b| - 1 ==> !(b[i] == '_' && b[i + 1] == '_'))
  }

  function DigitGroupsValue(b: string): nat
    requires DigitGroups(b)
  {
    var d := RemoveChar(b, '_');
    assert AllDigits(d) by {
      RemoveCharMembers(b, '_');
      forall i | 0 <= i < |d| ensures IsDigit(d[i]) { assert d[i] in b; }
    }
    DigitsValue(d)
  }

  /** int(s) for a str s: surrounding whitespace is ignored, one sign is
      allowed, and anything else makes int() raise ValueError (None here). */
  function PyInt(s: string): Option<int> {
    var t := Strip(s);
    if |t| > 0 && (t[0] == '+' || t[0] == '-') then
      if DigitGroups(t[1..]) then
        var n: int := DigitGroupsValue(t[1..]);
        Some(if t[0] == '-' then -n else n)
      else None
    else if DigitGroups(t) then Some(DigitGroupsValue(t))
    else None
  }

  /** Characters that may appear anywhere in a string int() accepts. */
  predicate IntChar(c: char) { IsDigit(c) || c == '_' || c == '+' || c == '-' || IsSpace(c) }

  /** A string with any other character (a currency sign, a comma, a letter)
      makes int() fail. */
  lemma ForeignCharRejected(s: string, i: nat)
    requires i < |s| && !IntChar(s[i])
    ensures PyInt(s) == None
  {
    var t := Strip(s);
    StripKeeps(s, i);
    if |t| > 0 && (t[0] == '+' || t[0] == '-') {
      var j :| 0 <= j < |t| && t[j] == s[i];
      assert t[1..][j - 1] == s[i];
    }
  }

  /** int() reads back the decimal notation of every natural number. */
  lemma PyIntReadsDecimal(n: nat)
    ensures PyInt(NatToDigits(n)) == Some(n)
  {
    var d := NatToDigits(n);
    assert LeadingSpaces(d) == 0;
    assert d[0..] == d;
    assert TrailingSpaces(d) == 0;
    assert d[..|d|] == d;
    assert Strip(d) == d;
    assert DigitGroups(d);
    assert RemoveChar(d, '_') == d by { NoUnderscore(d); }
  }

  lemma {:induction false} NoUnderscore(d: string)
    requires AllDigits(d)
    ensures RemoveChar(d, '_') == d
  {
    if d != [] { NoUnderscore(d[1..]); }
  }
}
