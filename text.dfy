/** The JavaScript string primitives the CRM front-end relies on:
    `trim`, `split` on one character, `toLowerCase`, `includes`,
    deletion of every `"` and decimal formatting of a count. */
module Text {

  /** ECMAScript WhiteSpace and LineTerminator code points: the set that
      `String.prototype.trim` strips from both ends. */
  predicate IsWhitespace(c: char) {
    || c == '\t' || c == '\n' || c == '\U{000B}' || c == '\U{000C}' || c == '\r' || c == ' '
    || c == '\U{00A0}' || c == '\U{1680}' || ('\U{2000}' <= c <= '\U{200A}')
    || c == '\U{2028}' || c == '\U{2029}' || c == '\U{202F}' || c == '\U{205F}'
    || c == '\U{3000}' || c == '\U{FEFF}'
  }

  predicate AllWhitespace(s: string) {
    forall k :: 0 <= k < |s| ==> IsWhitespace(s[k])
  }

  /** The first position at or after `i` that does not hold whitespace
      (`|s|` when there is none): where `trimStart` cuts. */
  function SkipLeading(s: string, i: nat): (n: nat)
    requires i <= |s|
    ensures i <= n <= |s|
    ensures forall k :: i <= k < n ==> IsWhitespace(s[k])
    ensures n < |s| ==> !IsWhitespace(s[n])
    decreases |s| - i
  {
    if i < |s| && IsWhitespace(s[i]) then SkipLeading(s, i + 1) else i
  }

  /** The end of `s[lo..j]` once its trailing whitespace is dropped: where
      `trimEnd` cuts. */
  function SkipTrailing(s: string, lo: nat, j: nat): (m: nat)
    requires lo <= j <= |s|
    ensures lo <= m <= j
    ensures forall k :: m <= k < j ==> IsWhitespace(s[k])
    ensures lo < m ==> !IsWhitespace(s[m - 1])
  {
    if lo < j && IsWhitespace(s[j - 1]) then SkipTrailing(s, lo, j - 1) else j
  }

  /** `s.trim()`; it is empty exactly when `s` is blank (JavaScript treats
      the empty string as false, which is how a line is called blank). */
  function Trim(s: string): (r: string)
    ensures |r| <= |s|
    ensures r == [] <==> AllWhitespace(s)
    ensures r != [] ==> !IsWhitespace(r[0]) && !IsWhitespace(r[|r| - 1])
  {
    var i := SkipLeading(s, 0);
    s[i..SkipTrailing(s, i, |s|)]
  }

  /** Trimming is fully determined: whenever `s` is cut into a whitespace
      prefix, a core with no whitespace at either end, and a whitespace
      suffix, `Trim` returns that core. */
  lemma TrimIsCore(s: string, i: nat, j: nat)
    requires i <= j <= |s|
    requires forall k :: 0 <= k < i ==> IsWhitespace(s[k])
    requires forall k :: j <= k < |s| ==> IsWhitespace(s[k])
    requires i < j ==> !IsWhitespace(s[i]) && !IsWhitespace(s[j - 1])
    ensures Trim(s) == s[i..j]
  {
    if i < j {
      assert SkipLeading(s, 0) == i;
      assert SkipTrailing(s, i, |s|) == j;
    }
  }

  /** Whitespace before `s` extends a whitespace prefix of `s`. */
  lemma WhitespaceBefore(a: string, s: string, b: string, i: nat)
    requires AllWhitespace(a) && i <= |s|
    requires forall k :: 0 <= k < i ==> IsWhitespace(s[k])
    ensures forall k :: 0 <= k < |a| + i ==> IsWhitespace((a + s + b)[k])
  {
    var t := a + s + b;
    forall k | 0 <= k < |a| + i ensures IsWhitespace(t[k]) {
      if k < |a| { assert t[k] == a[k]; } else { assert t[k] == s[k - |a|]; }
    }
  }

  /** Whitespace after `s` extends a whitespace suffix of `s`. */
  lemma WhitespaceAfter(a: string, s: string, b: string, j: nat)
    requires AllWhitespace(b) && j <= |s|
    requires forall k :: j <= k < |s| ==> IsWhitespace(s[k])
    ensures forall k :: |a| + j <= k < |a + s + b| ==> IsWhitespace((a + s + b)[k])
  {
    var t := a + s + b;
    forall k | |a| + j <= k < |t| ensures IsWhitespace(t[k]) {
      if k < |a| + |s| { assert t[k] == s[k - |a|]; } else { assert t[k] == b[k - |a| - |s|]; }
    }
  }

  /** Padding shifts every position of `s` by `|a|`. */
  lemma PaddedSlice(a: string, s: string, b: string, i: nat, j: nat)
    requires i <= j <= |s|
    ensures (a + s + b)[|a| + i..|a| + j] == s[i..j]
    ensures i < j ==> (a + s + b)[|a| + i] == s[i] && (a + s + b)[|a| + j - 1] == s[j - 1]
  {
  }

  /** A core of `s` delimited by whitespace stays the trimmed value once
      whitespace is added around `s`. */
  lemma PaddedCore(a: string, s: string, b: string, i: nat, j: nat)
    requires AllWhitespace(a) && AllWhitespace(b) && i <= j <= |s|
    requires forall k :: 0 <= k < i ==> IsWhitespace(s[k])
    requires forall k :: j <= k < |s| ==> IsWhitespace(s[k])
    requires i < j ==> !IsWhitespace(s[i]) && !IsWhitespace(s[j - 1])
    ensures Trim(a + s + b) == s[i..j]
  {
    WhitespaceBefore(a, s, b, i);
    WhitespaceAfter(a, s, b, j);
    PaddedSlice(a, s, b, i, j);
    TrimIsCore(a + s + b, |a| + i, |a| + j);
  }

  /** Surrounding whitespace, a trailing carriage return of a CRLF line
      included, does not change the trimmed value. */
  lemma TrimIgnoresPadding(a: string, s: string, b: string)
    requires AllWhitespace(a) && AllWhitespace(b)
    ensures Trim(a + s + b) == Trim(s)
  {
    var i := SkipLeading(s, 0);
    PaddedCore(a, s, b, i, SkipTrailing(s, i, |s|));
  }

  /** `s.replace(/"/g, '')`: every double-quote character deleted. */
  function RemoveQuotes(s: string): (r: string)
    ensures |r| <= |s|
    ensures '"' !in r
  {
    if s == [] then []
    else (if s[0] == '"' then [] else [s[0]]) + RemoveQuotes(s[1..])
  }

  /** Text without a double quote passes unchanged. */
  lemma {:induction false} RemoveQuotesKeepsUnquoted(s: string)
    requires '"' !in s
    ensures RemoveQuotes(s) == s
  {
    if s != [] {
      assert '"' !in s[1..] by {
        assert forall c :: c in s[1..] ==> c in s;
      }
      RemoveQuotesKeepsUnquoted(s[1..]);
      assert [s[0]] + s[1..] == s;
    }
  }

  lemma {:induction false} RemoveQuotesAppend(a: string, b: string)
    ensures RemoveQuotes(a + b) == RemoveQuotes(a) + RemoveQuotes(b)
  {
    if a == [] {
      assert a + b == b;
    } else {
      var head := if a[0] == '"' then [] else [a[0]];
      assert (a + b)[0] == a[0] && (a + b)[1..] == a[1..] + b;
      assert RemoveQuotes(a + b) == head + RemoveQuotes(a[1..] + b);
      RemoveQuotesAppend(a[1..], b);
      assert RemoveQuotes(a) == head + RemoveQuotes(a[1..]);
      var x, y := RemoveQuotes(a[1..]), RemoveQuotes(b);
      assert head + (x + y) == (head + x) + y;
    }
  }

  /** ASCII case mapping, the part of `toLowerCase` the model keeps. */
  function LowerChar(c: char): char {
    if 'A' <= c <= 'Z' then (c as int + 32) as char else c
  }

  /** `s.toLowerCase()`, restricted to ASCII letters. */
  function Lower(s: string): (r: string)
    ensures |r| == |s|
    ensures forall k :: 0 <= k < |s| ==> r[k] == LowerChar(s[k])
  {
    if s == [] then [] else [LowerChar(s[0])] + Lower(s[1..])
  }

  lemma LowerIdempotent(s: string)
    ensures Lower(Lower(s)) == Lower(s)
  {
  }

  /** `s.split(sep)` on a single character: the text between consecutive
      separators, with an empty piece before a leading or after a trailing
      separator, and `[""]` for the empty string. */
  function Split(s: string, sep: char): (r: seq<string>)
    ensures |r| >= 1
    ensures forall k :: 0 <= k < |r| ==> sep !in r[k]
  {
    if s == [] then [[]]
    else if s[0] == sep then [[]] + Split(s[1..], sep)
    else
      var rest := Split(s[1..], sep);
      [[s[0]] + rest[0]] + rest[1..]
  }

  /** `pieces.join(sep)`, the inverse of `Split`. */
  function Join(pieces: seq<string>, sep: char): string
    requires |pieces| >= 1
  {
    if |pieces| == 1 then pieces[0] else pieces[0] + [sep] + Join(pieces[1..], sep)
  }

  /** Splitting loses nothing: joining the pieces back gives the text. */
  lemma {:induction false} JoinSplit(s: string, sep: char)
    ensures Join(Split(s, sep), sep) == s
  {
    if s == [] {
    } else if s[0] == sep {
      JoinSplit(s[1..], sep);
      assert [sep] + s[1..] == s;
    } else {
      var rest := Split(s[1..], sep);
      JoinSplit(s[1..], sep);
      if |rest| == 1 {
        assert [s[0]] + rest[0] == s;
      } else {
        assert [s[0]] + rest[0] + [sep] + Join(rest[1..], sep) == [s[0]] + Join(rest, sep);
        assert [s[0]] + s[1..] == s;
      }
    }
  }

  /** A piece without separators followed by one separator becomes the
      first piece on its own. */
  lemma {:induction false} SplitAfterPiece(a: string, b: string, sep: char)
    requires sep !in a
    ensures Split(a + [sep] + b, sep) == [a] + Split(b, sep)
  {
    if a == [] {
      assert a + [sep] + b == [sep] + b;
      assert ([sep] + b)[1..] == b;
    } else {
      assert (a + [sep] + b)[1..] == a[1..] + [sep] + b;
      SplitAfterPiece(a[1..], b, sep);
      assert [a[0]] + a[1..] == a;
    }
  }

  /** A text without the separator is one piece. */
  lemma {:induction false} SplitWithoutSeparator(s: string, sep: char)
    requires sep !in s
    ensures Split(s, sep) == [s]
  {
    if s != [] {
      SplitWithoutSeparator(s[1..], sep);
      assert [s[0]] + s[1..] == s;
    }
  }

  /** Every character of every piece comes from the text. */
  lemma {:induction false} SplitPiecesFromText(s: string, sep: char)
    ensures forall k, c :: 0 <= k < |Split(s, sep)| && c in Split(s, sep)[k] ==> c in s
  {
    if s != [] {
      SplitPiecesFromText(s[1..], sep);
      var rest := Split(s[1..], sep);
      assert forall c :: c in s[1..] ==> c in s;
      if s[0] != sep {
        assert forall c :: c in [s[0]] + rest[0] ==> c == s[0] || c in rest[0];
      }
    }
  }

  predicate StartsWith(s: string, prefix: string) {
    |prefix| <= |s| && s[..|prefix|] == prefix
  }

  /** `hay.includes(needle)`. */
  function Contains(hay: string, needle: string): bool
    decreases |hay|
  {
    StartsWith(hay, needle) || (|hay| > 0 && Contains(hay[1..], needle))
  }

  /** `needle` occurs in `hay` starting at position `i`. */
  predicate OccursAt(hay: string, needle: string, i: int) {
    0 <= i && i + |needle| <= |hay| && hay[i..i + |needle|] == needle
  }

  /** `Contains` agrees with the definition of a substring occurrence. */
  lemma {:induction false} ContainsIff(hay: string, needle: string)
    ensures Contains(hay, needle) <==> exists i :: OccursAt(hay, needle, i)
    decreases |hay|
  {
    assert OccursAt(hay, needle, 0) <==> StartsWith(hay, needle) by {
      assert |needle| <= |hay| ==> hay[0..0 + |needle|] == hay[..|needle|];
    }
    if StartsWith(hay, needle) {
    } else if |hay| > 0 {
      ContainsIff(hay[1..], needle);
      forall i | OccursAt(hay, needle, i) ensures OccursAt(hay[1..], needle, i - 1) {
        assert hay[1..][i - 1..i - 1 + |needle|] == hay[i..i + |needle|];
      }
      forall i | OccursAt(hay[1..], needle, i) ensures OccursAt(hay, needle, i + 1) {
        assert hay[1..][i..i + |needle|] == hay[i + 1..i + 1 + |needle|];
      }
    } else {
      assert forall i :: OccursAt(hay, needle, i) ==> i == 0;
    }
  }

  /** Every text contains itself. */
  lemma ContainsSelf(s: string)
    ensures Contains(s, s)
  {
    assert StartsWith(s, s);
  }

  function DigitChar(d: nat): char
    requires d < 10
  {
    "0123456789"[d]
  }

  function DigitValue(c: char): nat {
    if '0' <= c <= '9' then c as int - '0' as int else 0
  }

  /** `${n}` for a non-negative integer: its decimal digits. */
  function NatToString(n: nat): (r: string)
    ensures |r| >= 1
    ensures forall k :: 0 <= k < |r| ==> '0' <= r[k] <= '9'
    ensures r[0] == '0' ==> n == 0
  {
    if n < 10 then [DigitChar(n)] else NatToString(n / 10) + [DigitChar(n % 10)]
  }

  /** The number a string of decimal digits denotes. */
  function DigitsValue(s: string): nat {
    if s == [] then 0 else 10 * DigitsValue(s[..|s| - 1]) + DigitValue(s[|s| - 1])
  }

  lemma DigitRoundTrip(d: nat)
    requires d < 10
    ensures DigitValue(DigitChar(d)) == d
  {
  }

  /** Formatting a count loses nothing: reading the digits back gives it. */
  lemma {:induction false} NatToStringRoundTrip(n: nat)
    ensures DigitsValue(NatToString(n)) == n
  {
    if n < 10 {
      DigitRoundTrip(n);
    } else {
      var front, last := NatToString(n / 10), DigitChar(n % 10);
      var r := front + [last];
      assert r[..|r| - 1] == front && r[|r| - 1] == last;
      NatToStringRoundTrip(n / 10);
      DigitRoundTrip(n % 10);
    }
  }
}
