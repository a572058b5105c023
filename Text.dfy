/** The Rust standard-library string operations the deck-list parser relies on:
    `str::split_whitespace`, `[&str]::join`, `str::trim_matches` with a
    character predicate, and `str::parse` into an unsigned integer type. */
module Text {
  import opened Wrappers

  /** `char::is_whitespace`: the characters with the Unicode White_Space property. */
  predicate IsWhitespace(c: char) {
    ('\t' <= c <= '\r') || c == ' ' || c == '\U{85}' || c == '\U{A0}' || c == '\U{1680}'
    || ('\U{2000}' <= c <= '\U{200A}') || c == '\U{2028}' || c == '\U{2029}'
    || c == '\U{202F}' || c == '\U{205F}' || c == '\U{3000}'
  }

  /** One item of a split on `isSep`: non-empty and free of separators. */
  predicate IsWord(w: string, isSep: char -> bool) {
    |w| > 0 && forall i :: 0 <= i < |w| ==> !isSep(w[i])
  }

  /** `char::is_alphabetic`, restricted to ASCII letters. */
  predicate IsAlphabetic(c: char) {
    'A' <= c <= 'Z' || 'a' <= c <= 'z'
  }

  predicate IsNotAlphabetic(c: char) {
    !IsAlphabetic(c)
  }

  /** Length of the longest prefix of `s` whose characters `c` all have `p(c) == want`. */
  function LeadingRun(s: string, p: char -> bool, want: bool): (n: nat)
    ensures n <= |s|
    ensures forall i :: 0 <= i < n ==> p(s[i]) == want
    ensures n < |s| ==> p(s[n]) != want
  {
    if s == [] || p(s[0]) != want then 0 else 1 + LeadingRun(s[1..], p, want)
  }

  /** Length of the longest suffix of `s` whose characters `c` all have `p(c) == want`. */
  function TrailingRun(s: string, p: char -> bool, want: bool): (n: nat)
    ensures n <= |s|
    ensures forall i :: |s| - n <= i < |s| ==> p(s[i]) == want
    ensures n < |s| ==> p(s[|s| - 1 - n]) != want
  {
    if s == [] || p(s[|s| - 1]) != want then 0 else 1 + TrailingRun(s[..|s| - 1], p, want)
  }

  lemma LeadingRunOfPrefix(a: string, b: string, p: char -> bool, want: bool)
    requires forall i :: 0 <= i < |a| ==> p(a[i]) == want
    requires b == [] || p(b[0]) != want
    ensures LeadingRun(a + b, p, want) == |a|
  {
    var s := a + b;
    assert forall i :: 0 <= i < |a| ==> s[i] == a[i];
    assert |a| < |s| ==> s[|a|] == b[0];
  }

  lemma TrailingRunOfSuffix(a: string, b: string, p: char -> bool, want: bool)
    requires forall i :: 0 <= i < |b| ==> p(b[i]) == want
    requires a == [] || p(a[|a| - 1]) != want
    ensures TrailingRun(a + b, p, want) == |b|
  {
    var s := a + b;
    assert forall i :: |a| <= i < |s| ==> s[i] == b[i - |a|];
    assert |b| < |s| ==> s[|s| - 1 - |b|] == a[|a| - 1];
  }

  /** The maximal runs of characters that are not separators, in order. */
  function SplitOn(s: string, isSep: char -> bool): (words: seq<string>)
    ensures forall k :: 0 <= k < |words| ==> IsWord(words[k], isSep)
    decreases |s|
  {
    var t := s[LeadingRun(s, isSep, true)..];
    if t == [] then []
    else
      assert !isSep(t[0]);
      var n := LeadingRun(t, isSep, false);
      var w, rest := t[..n], SplitOn(t[n..], isSep);
      assert IsWord(w, isSep);
      assert forall k :: 0 <= k < |rest| ==> ([w] + rest)[k + 1] == rest[k];
      [w] + rest
  }

  /** `str::split_whitespace`. */
  function SplitWhitespace(s: string): (words: seq<string>)
    ensures forall k :: 0 <= k < |words| ==> IsWord(words[k], IsWhitespace)
  {
    SplitOn(s, IsWhitespace)
  }

  /** `[&str]::join`: the parts with `sep` between each two neighbours. */
  function Join(parts: seq<string>, sep: string): string {
    if |parts| == 0 then ""
    else if |parts| == 1 then parts[0]
    else parts[0] + sep + Join(parts[1..], sep)
  }

  /** The characters of `s` that are not separators, in order. */
  function NonSeparators(s: string, isSep: char -> bool): string {
    if s == [] then []
    else (if isSep(s[0]) then [] else [s[0]]) + NonSeparators(s[1..], isSep)
  }

  /** The concatenation of `words`. */
  function Concat(words: seq<string>): string {
    if words == [] then [] else words[0] + Concat(words[1..])
  }

  lemma {:induction false} NonSeparatorsAppend(a: string, b: string, isSep: char -> bool)
    ensures NonSeparators(a + b, isSep) == NonSeparators(a, isSep) + NonSeparators(b, isSep)
  {
    if a == [] {
      assert a + b == b;
    } else {
      var ab := a + b;
      assert ab[0] == a[0];
      assert ab[1..] == a[1..] + b;
      NonSeparatorsAppend(a[1..], b, isSep);
      var head := if isSep(a[0]) then [] else [a[0]];
      calc {
        NonSeparators(ab, isSep);
        head + NonSeparators(a[1..] + b, isSep);
        head + (NonSeparators(a[1..], isSep) + NonSeparators(b, isSep));
        (head + NonSeparators(a[1..], isSep)) + NonSeparators(b, isSep);
        NonSeparators(a, isSep) + NonSeparators(b, isSep);
      }
    }
  }

  lemma {:induction false} NonSeparatorsOfRun(s: string, isSep: char -> bool, sep: bool)
    requires forall i :: 0 <= i < |s| ==> isSep(s[i]) == sep
    ensures NonSeparators(s, isSep) == if sep then [] else s
  {
    if s != [] {
      NonSeparatorsOfRun(s[1..], isSep, sep);
      if !sep {
        assert [s[0]] + s[1..] == s;
      }
    }
  }

  /** Splitting loses exactly the separators: the words, concatenated, are the
      other characters of the input in their original order. */
  lemma {:induction false} SplitKeepsNonSeparators(s: string, isSep: char -> bool)
    ensures Concat(SplitOn(s, isSep)) == NonSeparators(s, isSep)
    decreases |s|
  {
    var lead := LeadingRun(s, isSep, true);
    var t := s[lead..];
    assert s == s[..lead] + t;
    NonSeparatorsAppend(s[..lead], t, isSep);
    NonSeparatorsOfRun(s[..lead], isSep, true);
    assert NonSeparators(s, isSep) == NonSeparators(t, isSep);
    if t != [] {
      assert !isSep(t[0]);
      var n := LeadingRun(t, isSep, false);
      var w, rest := t[..n], t[n..];
      assert t == w + rest;
      NonSeparatorsAppend(w, rest, isSep);
      NonSeparatorsOfRun(w, isSep, false);
      SplitKeepsNonSeparators(rest, isSep);
      var words := SplitOn(s, isSep);
      assert words == [w] + SplitOn(rest, isSep);
      calc {
        Concat(words);
        words[0] + Concat(words[1..]);
        { assert words[1..] == SplitOn(rest, isSep); }
        w + NonSeparators(rest, isSep);
        NonSeparators(t, isSep);
      }
    }
  }

  lemma SplitSkipsSeparator(c: char, j: string, isSep: char -> bool)
    requires isSep(c)
    requires j != [] && !isSep(j[0])
    ensures SplitOn([c] + j, isSep) == SplitOn(j, isSep)
  {
    LeadingRunOfPrefix([c], j, isSep, true);
    assert ([c] + j)[1..] == j;
    assert LeadingRun(j, isSep, true) == 0;
    assert j[0..] == j;
  }

  /** A word followed by nothing or by a separator is split off whole. */
  lemma SplitAfterWord(w: string, rest: string, isSep: char -> bool)
    requires IsWord(w, isSep)
    requires rest == [] || isSep(rest[0])
    ensures SplitOn(w + rest, isSep) == [w] + SplitOn(rest, isSep)
  {
    var s := w + rest;
    assert s[0] == w[0];
    assert LeadingRun(s, isSep, true) == 0;
    assert s[0..] == s;
    LeadingRunOfPrefix(w, rest, isSep, false);
    assert s[..|w|] == w;
    assert s[|w|..] == rest;
  }

  lemma SplitWordThenSeparator(w: string, c: char, j: string, isSep: char -> bool)
    requires IsWord(w, isSep) && isSep(c)
    requires j != [] && !isSep(j[0])
    ensures SplitOn(w + ([c] + j), isSep) == [w] + SplitOn(j, isSep)
  {
    SplitAfterWord(w, [c] + j, isSep);
    SplitSkipsSeparator(c, j, isSep);
  }

  /** Leading separators do not change the split. */
  lemma {:induction false} SplitSkipsLeading(g: string, s: string, isSep: char -> bool)
    requires forall i :: 0 <= i < |g| ==> isSep(g[i])
    ensures SplitOn(g + s, isSep) == SplitOn(s, isSep)
  {
    if g != [] {
      var t := g[1..] + s;
      SplitSkipsLeading(g[1..], s, isSep);
      assert g + s == [g[0]] + t;
      SplitSkipsOne(g[0], t, isSep);
    } else {
      assert g + s == s;
    }
  }

  lemma SplitSkipsOne(c: char, t: string, isSep: char -> bool)
    requires isSep(c)
    ensures SplitOn([c] + t, isSep) == SplitOn(t, isSep)
  {
    var s := [c] + t;
    assert s[1..] == t;
    var lead := LeadingRun(t, isSep, true);
    assert LeadingRun(s, isSep, true) == 1 + lead;
    assert s[1 + lead..] == t[lead..];
  }

  /** A word splits to itself. */
  lemma SplitWord(w: string, isSep: char -> bool)
    requires IsWord(w, isSep)
    ensures SplitOn(w, isSep) == [w]
  {
    SplitAfterWord(w, [], isSep);
    assert w + [] == w;
  }

  /** A string of separators splits to nothing. */
  lemma SplitSeparators(g: string, isSep: char -> bool)
    requires forall i :: 0 <= i < |g| ==> isSep(g[i])
    ensures SplitOn(g, isSep) == []
  {
    SplitSkipsLeading(g, [], isSep);
    assert g + [] == g;
  }

  /** A separator cuts the string in two that split independently. Together
      with SplitWord and SplitSeparators this determines SplitOn on every
      string: the words are the maximal runs of non-separators. */
  lemma SplitAtSeparator(a: string, c: char, b: string, isSep: char -> bool)
    requires isSep(c)
    ensures SplitOn(a + [c] + b, isSep) == SplitOn(a, isSep) + SplitOn(b, isSep)
  {
    assert a + [c] + b == a + ([c] + b);
    SplitSkipsOne(c, b, isSep);
    SplitBeforeSeparator(a, [c] + b, SplitOn(b, isSep), isSep);
  }

  /** SplitAtSeparator with the separator and what follows as one `tail`
      whose split is `y`. */
  lemma {:induction false} SplitBeforeSeparator(a: string, tail: string, y: seq<string>, isSep: char -> bool)
    requires tail != [] && isSep(tail[0])
    requires SplitOn(tail, isSep) == y
    ensures SplitOn(a + tail, isSep) == SplitOn(a, isSep) + y
    decreases |a|
  {
    if a == [] {
      assert a + tail == tail;
    } else if isSep(a[0]) {
      var a' := a[1..];
      assert a == [a[0]] + a';
      SplitBeforeSeparator(a', tail, y, isSep);
      SplitStepSeparator(a[0], a', tail, y, isSep);
    } else {
      var w, a' := LeadingWord(a, isSep);
      if a' == [] {
        assert a == w;
        SplitStepLastWord(w, tail, y, isSep);
      } else {
        SplitBeforeSeparator(a', tail, y, isSep);
        SplitStepWord(w, a', tail, y, isSep);
      }
    }
  }

  /** A string that starts with a non-separator is a word followed by nothing
      or by a separator. */
  lemma LeadingWord(a: string, isSep: char -> bool) returns (w: string, a': string)
    requires a != [] && !isSep(a[0])
    ensures IsWord(w, isSep) && a == w + a' && |a'| < |a|
    ensures a' == [] || isSep(a'[0])
  {
    var n := LeadingRun(a, isSep, false);
    w, a' := a[..n], a[n..];
    assert a == w + a';
  }

  lemma SplitStepSeparator(x: char, a': string, tail: string, y: seq<string>, isSep: char -> bool)
    requires isSep(x)
    requires SplitOn(a' + tail, isSep) == SplitOn(a', isSep) + y
    ensures SplitOn([x] + a' + tail, isSep) == SplitOn([x] + a', isSep) + y
  {
    assert [x] + a' + tail == [x] + (a' + tail);
    SplitSkipsOne(x, a' + tail, isSep);
    SplitSkipsOne(x, a', isSep);
  }

  lemma SplitStepWord(w: string, a': string, tail: string, y: seq<string>, isSep: char -> bool)
    requires IsWord(w, isSep)
    requires a' != [] && isSep(a'[0])
    requires SplitOn(a' + tail, isSep) == SplitOn(a', isSep) + y
    ensures SplitOn(w + a' + tail, isSep) == SplitOn(w + a', isSep) + y
  {
    var rest := a' + tail;
    assert w + a' + tail == w + rest;
    assert rest[0] == a'[0];
    SplitAfterWord(w, rest, isSep);
    SplitAfterWord(w, a', isSep);
    ConsAssoc(w, SplitOn(a', isSep), y);
  }

  lemma ConsAssoc(w: string, x: seq<string>, y: seq<string>)
    ensures [w] + (x + y) == ([w] + x) + y
  {
  }

  lemma SplitStepLastWord(w: string, tail: string, y: seq<string>, isSep: char -> bool)
    requires IsWord(w, isSep)
    requires tail != [] && isSep(tail[0])
    requires SplitOn(tail, isSep) == y
    ensures SplitOn(w + tail, isSep) == SplitOn(w, isSep) + y
  {
    SplitAfterWord(w, tail, isSep);
    SplitWord(w, isSep);
  }

  /** `gaps[0] + words[0] + gaps[1] + ... + words[n-1] + gaps[n]`. */
  function Interleave(gaps: seq<string>, words: seq<string>): string
    requires |gaps| == |words| + 1
  {
    if words == [] then gaps[0] else gaps[0] + words[0] + Interleave(gaps[1..], words[1..])
  }

  /** `gaps` can separate `n` words: each gap is made of separators, and the
      gaps between two words are not empty. The gaps before the first and
      after the last word may be empty. */
  predicate Separates(gaps: seq<string>, n: nat, isSep: char -> bool) {
    |gaps| == n + 1
    && (forall k, i :: 0 <= k < |gaps| && 0 <= i < |gaps[k]| ==> isSep(gaps[k][i]))
    && (forall k :: 0 < k < n ==> gaps[k] != [])
  }

  /** Words separated by any runs of separators, with any separators before
      and after, split back to the words. */
  lemma {:induction false} SplitInterleave(gaps: seq<string>, words: seq<string>, isSep: char -> bool)
    requires Separates(gaps, |words|, isSep)
    requires forall k :: 0 <= k < |words| ==> IsWord(words[k], isSep)
    ensures SplitOn(Interleave(gaps, words), isSep) == words
  {
    if words == [] {
      assert forall i :: 0 <= i < |gaps[0]| ==> isSep(gaps[0][i]);
      SplitSeparators(gaps[0], isSep);
    } else {
      SeparatesTail(gaps, words, isSep);
      SplitInterleave(gaps[1..], words[1..], isSep);
      SplitInterleaveStep(gaps, words, isSep);
    }
  }

  lemma SeparatesTail(gaps: seq<string>, words: seq<string>, isSep: char -> bool)
    requires Separates(gaps, |words|, isSep) && words != []
    requires forall k :: 0 <= k < |words| ==> IsWord(words[k], isSep)
    ensures Separates(gaps[1..], |words| - 1, isSep)
    ensures forall k :: 0 <= k < |words[1..]| ==> IsWord(words[1..][k], isSep)
  {
    assert forall k :: 0 <= k < |gaps| - 1 ==> gaps[1..][k] == gaps[k + 1];
    assert forall k :: 0 <= k < |words| - 1 ==> words[1..][k] == words[k + 1];
  }

  lemma SplitInterleaveStep(gaps: seq<string>, words: seq<string>, isSep: char -> bool)
    requires Separates(gaps, |words|, isSep) && words != [] && IsWord(words[0], isSep)
    requires Separates(gaps[1..], |words| - 1, isSep)
    requires SplitOn(Interleave(gaps[1..], words[1..]), isSep) == words[1..]
    ensures SplitOn(Interleave(gaps, words), isSep) == words
  {
    GapSeparators(gaps, |words|, 0, isSep);
    InterleaveHead(gaps[1..], words[1..], isSep);
    InterleaveCons(gaps, words);
    SplitGapWord(gaps[0], words[0], Interleave(gaps[1..], words[1..]), words[1..], isSep);
    HeadTail(words);
  }

  lemma HeadTail(words: seq<string>)
    requires words != []
    ensures [words[0]] + words[1..] == words
  {
  }

  lemma GapSeparators(gaps: seq<string>, n: nat, k: nat, isSep: char -> bool)
    requires Separates(gaps, n, isSep) && k < |gaps|
    ensures forall i :: 0 <= i < |gaps[k]| ==> isSep(gaps[k][i])
  {
  }

  lemma InterleaveCons(gaps: seq<string>, words: seq<string>)
    requires |gaps| == |words| + 1 && words != []
    ensures Interleave(gaps, words) == gaps[0] + (words[0] + Interleave(gaps[1..], words[1..]))
  {
  }

  lemma SplitGapWord(g: string, w: string, rest: string, ys: seq<string>, isSep: char -> bool)
    requires forall i :: 0 <= i < |g| ==> isSep(g[i])
    requires IsWord(w, isSep) && (rest == [] || isSep(rest[0]))
    requires SplitOn(rest, isSep) == ys
    ensures SplitOn(g + (w + rest), isSep) == [w] + ys
  {
    SplitSkipsLeading(g, w + rest, isSep);
    SplitAfterWord(w, rest, isSep);
  }

  /** An interleaving starts with a separator or is empty when its first gap
      is not empty or it holds no words. */
  lemma InterleaveHead(gaps: seq<string>, words: seq<string>, isSep: char -> bool)
    requires Separates(gaps, |words|, isSep)
    requires words != [] ==> gaps[0] != []
    ensures var s := Interleave(gaps, words); s == [] || isSep(s[0])
  {
    assert forall i :: 0 <= i < |gaps[0]| ==> isSep(gaps[0][i]);
    if words != [] {
      assert Interleave(gaps, words) == gaps[0] + (words[0] + Interleave(gaps[1..], words[1..]));
    }
  }

  /** A join starts with the first character of its first part. */
  lemma JoinHead(parts: seq<string>, sep: string)
    requires |parts| > 0 && |parts[0]| > 0
    ensures |Join(parts, sep)| > 0 && Join(parts, sep)[0] == parts[0][0]
  {
    if |parts| > 1 {
      assert Join(parts, sep) == parts[0] + (sep + Join(parts[1..], sep));
    }
  }

  /** Joining words with a one-character separator and splitting the result
      gives the words back. */
  lemma {:induction false} SplitJoin(words: seq<string>, c: char, isSep: char -> bool)
    requires isSep(c)
    requires forall k :: 0 <= k < |words| ==> IsWord(words[k], isSep)
    ensures SplitOn(Join(words, [c]), isSep) == words
  {
    if |words| == 1 {
      SplitAfterWord(words[0], [], isSep);
      assert words[0] + [] == words[0];
    } else if |words| > 1 {
      var tail := words[1..];
      var j := Join(tail, [c]);
      assert Join(words, [c]) == words[0] + ([c] + j);
      assert IsWord(tail[0], isSep);
      JoinHead(tail, [c]);
      SplitWordThenSeparator(words[0], c, j, isSep);
      SplitJoin(tail, c, isSep);
      assert words == [words[0]] + tail;
    }
  }

  /** `split_whitespace` undoes a join with single spaces. */
  lemma SplitWhitespaceJoin(words: seq<string>)
    requires forall k :: 0 <= k < |words| ==> IsWord(words[k], IsWhitespace)
    ensures SplitWhitespace(Join(words, " ")) == words
  {
    SplitJoin(words, ' ', IsWhitespace);
  }

  predicate IsDigit(c: char) {
    '0' <= c <= '9'
  }

  predicate AllDigits(s: string) {
    forall i :: 0 <= i < |s| ==> IsDigit(s[i])
  }

  /** The value of a string of ASCII decimal digits. */
  function DigitsValue(s: string): nat
    requires AllDigits(s)
  {
    if s == [] then 0 else 10 * DigitsValue(s[..|s| - 1]) + ((s[|s| - 1] as int) - ('0' as int))
  }

  /** `str::parse` into an unsigned integer type whose values are those below
      `limit` (2^32 for `u32`, 2^64 for `u64`): an optional `+`, then one or
      more ASCII digits whose value fits. Anything else is a parse error. */
  function ParseUnsigned(s: string, limit: nat): (r: Option<nat>)
    ensures r.Some? ==> r.value < limit
    ensures s == [] || s == "+" ==> r.None?
    ensures (exists i :: 0 <= i < |s| && !IsDigit(s[i]) && !(i == 0 && s[i] == '+')) ==> r.None?
  {
    var digits := if |s| > 0 && s[0] == '+' then s[1..] else s;
    if digits == [] || !AllDigits(digits) then None
    else if DigitsValue(digits) < limit then Some(DigitsValue(digits))
    else None
  }

  /** A leading zero does not change the value of a digit string. */
  lemma {:induction false} LeadingZero(d: string)
    requires AllDigits(d)
    ensures AllDigits("0" + d) && DigitsValue("0" + d) == DigitsValue(d)
  {
    var z := "0" + d;
    assert forall i :: 0 < i < |z| ==> z[i] == d[i - 1];
    if d != [] {
      var init := d[..|d| - 1];
      assert z[..|z| - 1] == "0" + init;
      assert z[|z| - 1] == d[|d| - 1];
      LeadingZero(init);
    }
  }

  /** A `+` sign in front of the digits is accepted and does not change the value. */
  lemma PlusSign(d: string, limit: nat)
    requires d != [] && AllDigits(d)
    ensures ParseUnsigned("+" + d, limit) == ParseUnsigned(d, limit)
  {
    assert ("+" + d)[1..] == d;
  }

  /** Leading zeros are accepted: `007` parses as 7. */
  lemma ParseLeadingZero(d: string, limit: nat)
    requires d != [] && AllDigits(d)
    ensures ParseUnsigned("0" + d, limit) == ParseUnsigned(d, limit)
  {
    LeadingZero(d);
  }

  function DigitChar(d: nat): (c: char)
    requires d < 10
    ensures IsDigit(c) && (c as int) - ('0' as int) == d
  {
    ('0' as int + d) as char
  }

  /** The decimal representation of `n`, without sign or leading zeros. */
  function Decimal(n: nat): (s: string)
    ensures |s| > 0 && AllDigits(s)
  {
    if n < 10 then [DigitChar(n)] else Decimal(n / 10) + [DigitChar(n % 10)]
  }

  lemma {:induction false} DecimalValue(n: nat)
    ensures DigitsValue(Decimal(n)) == n
  {
    if n >= 10 {
      var s := Decimal(n);
      assert s[..|s| - 1] == Decimal(n / 10);
      DecimalValue(n / 10);
    }
  }

  /** Printing a number in decimal and parsing it back gives the number when
      the type can represent it, and an overflow error otherwise. */
  lemma ParseDecimal(n: nat, limit: nat)
    ensures ParseUnsigned(Decimal(n), limit) == if n < limit then Some(n) else None
  {
    DecimalValue(n);
  }

  /** `trim_matches(p)`: drops every leading and every trailing character satisfying `p`. */
  function TrimMatches(s: string, p: char -> bool): (r: string)
    ensures |r| <= |s|
    ensures r == [] || (!p(r[0]) && !p(r[|r| - 1]))
  {
    var rest := s[LeadingRun(s, p, true)..];
    rest[..|rest| - TrailingRun(rest, p, true)]
  }

  /** Trimming `a + m + b`, where `a` and `b` consist of matching characters and
      `m` neither starts nor ends with one, gives exactly `m`: interior
      characters are kept whatever they are. */
  lemma TrimSurrounded(a: string, m: string, b: string, p: char -> bool)
    requires forall i :: 0 <= i < |a| ==> p(a[i])
    requires forall i :: 0 <= i < |b| ==> p(b[i])
    requires m == [] || (!p(m[0]) && !p(m[|m| - 1]))
    ensures TrimMatches(a + m + b, p) == m
  {
    var s := a + m + b;
    if m == [] {
      assert s == a + b;
    } else {
      assert s == a + (m + b);
      LeadingRunOfPrefix(a, m + b, p, true);
      assert s[|a|..] == m + b;
      TrailingRunOfSuffix(m, b, p, true);
      assert (m + b)[..|m|] == m;
    }
  }

  lemma TrimIdempotent(s: string, p: char -> bool)
    ensures TrimMatches(TrimMatches(s, p), p) == TrimMatches(s, p)
  {
    var r := TrimMatches(s, p);
    TrimSurrounded([], r, [], p);
    assert [] + r + [] == r;
  }
}
