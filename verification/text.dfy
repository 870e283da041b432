/** The handful of Python string operations the scrapers rely on, over
    `string` (a sequence of Unicode scalar values): `str.strip`,
    `str.split(',')`, `", ".join`, `str.startswith`, substring `in`,
    `str.lower` (ASCII letters only) and `str.title` (ASCII letters only). */
module Text {

  /** Python's `str.isspace`: the characters `str.strip()` removes. */
  predicate IsSpace(c: char) {
    c == ' ' || ('\t' <= c <= '\r') || ('\U{1C}' <= c <= '\U{1F}')
    || c == '\U{85}' || c == '\U{A0}' || c == '\U{1680}'
    || ('\U{2000}' <= c <= '\U{200A}') || c == '\U{2028}' || c == '\U{2029}'
    || c == '\U{202F}' || c == '\U{205F}' || c == '\U{3000}'
  }

  predicate AllSpace(s: string) {
    forall i :: 0 <= i < |s| ==> IsSpace(s[i])
  }

  /** No whitespace at either end: what `strip()` produces. */
  predicate IsStripped(s: string) {
    |s| == 0 || (!IsSpace(s[0]) && !IsSpace(s[|s| - 1]))
  }

  /** Number of leading whitespace characters. */
  function LeadingSpaces(s: string): (n: nat)
    ensures n <= |s|
    ensures AllSpace(s[..n])
    ensures n < |s| ==> !IsSpace(s[n])
  {
    if |s| == 0 || !IsSpace(s[0]) then 0
    else
      var m := LeadingSpaces(s[1..]);
      assert s[..m + 1] == [s[0]] + s[1..][..m];
      m + 1
  }

  /** Number of trailing whitespace characters. */
  function TrailingSpaces(s: string): (n: nat)
    ensures n <= |s|
    ensures AllSpace(s[|s| - n..])
    ensures n < |s| ==> !IsSpace(s[|s| - n - 1])
  {
    if |s| == 0 || !IsSpace(s[|s| - 1]) then 0
    else
      var init := s[..|s| - 1];
      var m := TrailingSpaces(init);
      SpaceTailGrows(s, m);
      m + 1
  }

  /** A space at the end extends a space tail of everything before it. */
  lemma SpaceTailGrows(s: string, m: nat)
    requires |s| > 0 && m < |s| && IsSpace(s[|s| - 1])
    requires AllSpace(s[..|s| - 1][|s| - 1 - m..])
    ensures AllSpace(s[|s| - (m + 1)..])
  {
    var init := s[..|s| - 1];
    var tail := s[|s| - (m + 1)..];
    forall i | 0 <= i < |tail|
      ensures IsSpace(tail[i])
    {
      if i < m {
        assert tail[i] == init[|init| - m..][i];
      }
    }
  }

  /** Python's `s.strip()`: `s` is the result surrounded by whitespace
      only, and the result itself starts and ends with a non-space. */
  function Strip(s: string): (r: string)
    ensures IsStripped(r)
    ensures |r| <= |s|
    ensures var lead := LeadingSpaces(s);
      && lead + |r| <= |s|
      && r == s[lead..lead + |r|]
      && AllSpace(s[..lead]) && AllSpace(s[lead + |r|..])
  {
    var lead := LeadingSpaces(s);
    var trail := TrailingSpaces(s);
    if lead == |s| then ""
    else
      SpaceTail(s, trail);
      s[lead..|s| - trail]
  }

  /** Every position inside a space tail holds a space. */
  lemma SpaceTail(s: string, t: nat)
    requires t <= |s| && AllSpace(s[|s| - t..])
    ensures forall k :: |s| - t <= k < |s| ==> IsSpace(s[k])
  {
    forall k | |s| - t <= k < |s|
      ensures IsSpace(s[k])
    {
      assert s[k] == s[|s| - t..][k - (|s| - t)];
    }
  }

  lemma StripOfStripped(s: string)
    requires IsStripped(s)
    ensures Strip(s) == s
  {
    var r := Strip(s);
    if |s| > 0 {
      assert LeadingSpaces(s) == 0;
    }
  }

  /** Stripping a stripped string after one separating space gives it back. */
  lemma StripAfterSpace(t: string)
    requires IsStripped(t)
    ensures Strip(" " + t) == t
  {
    var s := " " + t;
    var r := Strip(s);
    var lead := LeadingSpaces(s);
    if |t| == 0 {
      assert AllSpace(s);
    } else {
      assert !IsSpace(s[1]);
      assert lead == 1;
      assert r == s[1..1 + |r|];
      assert s[1..] == t;
    }
  }

  /** `strip` removes whitespace only: every other character survives. */
  lemma StripKeeps(s: string, c: char)
    requires c in s && !IsSpace(c)
    ensures c in Strip(s)
  {
    var r := Strip(s);
    var lead := LeadingSpaces(s);
    var k :| 0 <= k < |s| && s[k] == c;
    if lead <= k < lead + |r| {
      assert r[k - lead] == c;
    }
  }

  predicate StartsWith(s: string, prefix: string) {
    |prefix| <= |s| && s[..|prefix|] == prefix
  }

  /** Python's `sub in s` for strings. */
  predicate Contains(s: string, sub: string)
    decreases |s|
  {
    StartsWith(s, sub) || (|s| > 0 && Contains(s[1..], sub))
  }

  /** Whatever occurs in `b` occurs in any string ending with `b`. */
  lemma {:induction false} ContainsSuffix(a: string, b: string, sub: string)
    requires Contains(b, sub)
    ensures Contains(a + b, sub)
    decreases |a|
  {
    if a == [] {
      assert a + b == b;
    } else {
      assert (a + b)[1..] == a[1..] + b;
      ContainsSuffix(a[1..], b, sub);
    }
  }

  /** True when some marker occurs in `s`. */
  predicate ContainsAny(s: string, markers: seq<string>) {
    exists i :: 0 <= i < |markers| && Contains(s, markers[i])
  }

  /** `str.lower` restricted to ASCII letters; every other character is kept. */
  function LowerChar(c: char): char {
    if 'A' <= c <= 'Z' then (c as int + 32) as char else c
  }

  function Lower(s: string): (r: string)
    ensures |r| == |s|
    ensures forall i :: 0 <= i < |s| ==> r[i] == LowerChar(s[i])
  {
    seq(|s|, i requires 0 <= i < |s| => LowerChar(s[i]))
  }

  predicate IsAsciiLetter(c: char) {
    'A' <= c <= 'Z' || 'a' <= c <= 'z'
  }

  function UpperChar(c: char): char {
    if 'a' <= c <= 'z' then (c as int - 32) as char else c
  }

  /** `str.title` restricted to ASCII letters: a letter is upper-cased when
      the character before it is not a letter, lower-cased otherwise. */
  function Title(s: string): (r: string)
    ensures |r| == |s|
  {
    seq(|s|, i requires 0 <= i < |s| =>
      if !IsAsciiLetter(s[i]) then s[i]
      else if i == 0 || !IsAsciiLetter(s[i - 1]) then UpperChar(s[i])
      else LowerChar(s[i]))
  }

  /** Index of the first occurrence of `c` in `s`. */
  function IndexOf(s: string, c: char): (i: nat)
    requires c in s
    ensures i < |s| && s[i] == c && c !in s[..i]
  {
    if s[0] == c then 0
    else
      var j := IndexOf(s[1..], c);
      assert s[..j + 1] == [s[0]] + s[1..][..j];
      j + 1
  }

  /** `sep.join(parts)`. */
  function Join(parts: seq<string>, sep: string): string {
    if |parts| == 0 then ""
    else if |parts| == 1 then parts[0]
    else parts[0] + sep + Join(parts[1..], sep)
  }

  /** `s.split(sep)` for a one-character separator: never empty, no piece
      contains the separator, and joining the pieces back gives `s`. */
  function Split(s: string, sep: char): (parts: seq<string>)
    ensures |parts| >= 1
    ensures forall i :: 0 <= i < |parts| ==> sep !in parts[i]
    ensures Join(parts, [sep]) == s
    decreases |s|
  {
    if sep in s then
      var i := IndexOf(s, sep);
      var rest := Split(s[i + 1..], sep);
      assert s == s[..i] + [sep] + s[i + 1..];
      [s[..i]] + rest
    else [s]
  }

  /** Splitting a join of separator-free pieces gives the pieces back. */
  lemma {:induction false} SplitJoin(parts: seq<string>, sep: char)
    requires |parts| >= 1
    requires forall i :: 0 <= i < |parts| ==> sep !in parts[i]
    ensures Split(Join(parts, [sep]), sep) == parts
    decreases |parts|
  {
    var s := Join(parts, [sep]);
    if |parts| == 1 {
      assert sep !in s;
    } else {
      var tail := Join(parts[1..], [sep]);
      assert s == parts[0] + [sep] + tail;
      assert s[|parts[0]|] == sep;
      assert s[..|parts[0]|] == parts[0];
      assert sep in s;
      var i := IndexOf(s, sep);
      assert i == |parts[0]|;
      assert s[i + 1..] == tail;
      SplitJoin(parts[1..], sep);
    }
  }

  /** `strip()` applied to every element. */
  function StripAll(parts: seq<string>): (r: seq<string>)
    ensures |r| == |parts|
    ensures forall i :: 0 <= i < |parts| ==> r[i] == Strip(parts[i])
  {
    seq(|parts|, i requires 0 <= i < |parts| => Strip(parts[i]))
  }

  /** Each comma-separated segment of the input, stripped, in input order. */
  function ParseKeywords(input: string): (ks: seq<string>)
    ensures |ks| == |Split(input, ',')|
    ensures forall i :: 0 <= i < |ks| ==> ks[i] == Strip(Split(input, ',')[i])
  {
    StripAll(Split(input, ','))
  }

  /** Stripping only removes characters, so it introduces none. */
  lemma StripKeepsOut(s: string, c: char)
    requires c !in s
    ensures c !in Strip(s)
  {
  }

  /** Every parsed keyword is stripped and free of commas. */
  lemma ParsedKeywordsClean(input: string)
    ensures forall i :: 0 <= i < |ParseKeywords(input)| ==>
      IsStripped(ParseKeywords(input)[i]) && ',' !in ParseKeywords(input)[i]
  {
    var parts := Split(input, ',');
    forall i | 0 <= i < |parts|
      ensures ',' !in ParseKeywords(input)[i]
    {
      StripKeepsOut(parts[i], ',');
    }
  }

  /** `add_keywords_from_input`: appends one stripped entry per
      comma-separated segment of the input, in input order, after the
      keywords already held. */
  function AddKeywordsFromInput(keywords: seq<string>, input: string): (r: seq<string>)
    ensures |r| == |keywords| + |Split(input, ',')|
    ensures r[..|keywords|] == keywords
    ensures forall i :: 0 <= i < |Split(input, ',')| ==>
      r[|keywords| + i] == Strip(Split(input, ',')[i])
    ensures forall i :: |keywords| <= i < |r| ==> IsStripped(r[i]) && ',' !in r[i]
  {
    ParsedKeywordsClean(input);
    keywords + ParseKeywords(input)
  }

  /** The display form of a keyword input: its stripped parts joined by ", ". */
  function FormatKeywords(input: string): string {
    Join(ParseKeywords(input), ", ")
  }

  /** Prefixes every piece but the first with one space. */
  function SpaceAfterFirst(parts: seq<string>): (r: seq<string>)
    ensures |r| == |parts|
    ensures |parts| > 0 ==> r[0] == parts[0]
    ensures forall i :: 1 <= i < |parts| ==> r[i] == " " + parts[i]
  {
    if |parts| == 0 then []
    else [parts[0]] + seq(|parts| - 1, i requires 0 <= i < |parts| - 1 => " " + parts[i + 1])
  }

  lemma {:induction false} JoinCommaSpace(parts: seq<string>)
    ensures Join(parts, ", ") == Join(SpaceAfterFirst(parts), [','])
    decreases |parts|
  {
    if |parts| >= 2 {
      var tail := SpaceAfterFirst(parts[1..]);
      var whole := SpaceAfterFirst(parts);
      JoinCommaSpace(parts[1..]);
      assert whole[1..] == [" " + tail[0]] + tail[1..];
      JoinPrefixFirst(" ", tail, [',']);
      assert Join(whole, [',']) == parts[0] + [','] + (" " + Join(tail, [',']));
      assert Join(parts, ", ") == parts[0] + ", " + Join(parts[1..], ", ");
    }
  }

  /** Prefixing the first piece prefixes the join. */
  lemma JoinPrefixFirst(p: string, xs: seq<string>, sep: string)
    requires |xs| >= 1
    ensures Join([p + xs[0]] + xs[1..], sep) == p + Join(xs, sep)
  {
    var ys := [p + xs[0]] + xs[1..];
    if |xs| > 1 {
      assert ys[1..] == xs[1..];
      assert Join(ys, sep) == (p + xs[0]) + sep + Join(xs[1..], sep);
    } else {
      assert ys == [p + xs[0]];
    }
  }

  lemma SpacedClean(ks: seq<string>)
    requires forall i :: 0 <= i < |ks| ==> ',' !in ks[i]
    ensures forall i :: 0 <= i < |ks| ==> ',' !in SpaceAfterFirst(ks)[i]
  {
    var spaced := SpaceAfterFirst(ks);
    forall i | 0 <= i < |ks|
      ensures ',' !in spaced[i]
    {
      if i > 0 {
        assert spaced[i] == [' '] + ks[i];
      }
    }
  }

  lemma SplitCommaSpaceJoin(ks: seq<string>)
    requires |ks| >= 1
    requires forall i :: 0 <= i < |ks| ==> ',' !in ks[i]
    ensures Split(Join(ks, ", "), ',') == SpaceAfterFirst(ks)
  {
    JoinCommaSpace(ks);
    SpacedClean(ks);
    SplitJoin(SpaceAfterFirst(ks), ',');
  }

  lemma StripSpacedAt(ks: seq<string>, i: nat)
    requires i < |ks| && IsStripped(ks[i])
    ensures Strip(SpaceAfterFirst(ks)[i]) == ks[i]
  {
    if i == 0 {
      StripOfStripped(ks[0]);
    } else {
      StripAfterSpace(ks[i]);
    }
  }

  /** Stripping undoes `SpaceAfterFirst` on stripped pieces. */
  lemma StripSpaced(ks: seq<string>)
    requires forall i :: 0 <= i < |ks| ==> IsStripped(ks[i])
    ensures StripAll(SpaceAfterFirst(ks)) == ks
  {
    var r := StripAll(SpaceAfterFirst(ks));
    forall i | 0 <= i < |ks|
      ensures r[i] == ks[i]
    {
      StripSpacedAt(ks, i);
    }
  }

  /** Joining stripped, comma-free pieces with ", " and parsing the result
      as keyword input gives the pieces back. */
  lemma ParseJoinedRoundTrip(ks: seq<string>)
    requires |ks| >= 1
    requires forall i :: 0 <= i < |ks| ==> IsStripped(ks[i]) && ',' !in ks[i]
    ensures ParseKeywords(Join(ks, ", ")) == ks
  {
    SplitCommaSpaceJoin(ks);
    StripSpaced(ks);
  }

  /** Re-submitting the displayed keyword string yields the same keywords:
      formatting with ", " and parsing again is the identity on parsed input. */
  lemma FormatKeywordsRoundTrip(input: string)
    ensures ParseKeywords(FormatKeywords(input)) == ParseKeywords(input)
  {
    ParsedKeywordsClean(input);
    ParseJoinedRoundTrip(ParseKeywords(input));
  }
}
