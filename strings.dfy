/** String operations of the JavaScript runtime that the core relies on:
    `indexOf`, `split`, `join`, `includes`, `trim`, the `\s+` collapse,
    ASCII case mapping, decimal digits and the default `sort()` order. */
module Strings {
  import opened Types

  // ---------------------------------------------------------------------
  // Digits and decimal numbers

  predicate IsDigit(c: char) { '0' <= c <= '9' }

  predicate AllDigits(s: string) { forall i :: 0 <= i < |s| ==> IsDigit(s[i]) }

  function DigitValue(c: char): (v: nat)
    requires IsDigit(c)
    ensures v < 10
  {
    (c as int) - ('0' as int)
  }

  function DigitChar(d: nat): (c: char)
    requires d < 10
    ensures IsDigit(c) && DigitValue(c) == d
  {
    (('0' as int) + d) as char
  }

  /** The number a string of decimal digits denotes (`parseInt(s, 10)`). */
  function DigitsValue(s: string): nat
    requires AllDigits(s)
  {
    if |s| == 0 then 0 else DigitsValue(s[..|s| - 1]) * 10 + DigitValue(s[|s| - 1])
  }

  /** Decimal form of a natural number without leading zeros, as a template
      literal `${n}` prints it. */
  function NatToString(n: nat): (s: string)
    ensures |s| > 0 && AllDigits(s)
  {
    if n < 10 then [DigitChar(n)] else NatToString(n / 10) + [DigitChar(n % 10)]
  }

  /** Printing a number and reading it back gives the number. */
  lemma {:induction false} NatToStringValue(n: nat)
    ensures DigitsValue(NatToString(n)) == n
  {
    if n >= 10 {
      NatToStringValue(n / 10);
      var s := NatToString(n);
      assert s[..|s| - 1] == NatToString(n / 10);
    }
  }

  /** Distinct numbers print as distinct strings. */
  lemma NatToStringInjective(a: nat, b: nat)
    ensures NatToString(a) == NatToString(b) ==> a == b
  {
    NatToStringValue(a);
    NatToStringValue(b);
  }

  // ---------------------------------------------------------------------
  // Searching and splitting

  /** `pat` occurs in `s` starting at position `j`. */
  predicate OccursAt(s: string, pat: string, j: nat)
  {
    j + |pat| <= |s| && s[j..j + |pat|] == pat
  }

  lemma OccursAtShift(s: string, pat: string, j: nat)
    requires |s| > 0
    ensures OccursAt(s, pat, j + 1) <==> OccursAt(s[1..], pat, j)
  {
    if j + 1 + |pat| <= |s| {
      assert s[j + 1..j + 1 + |pat|] == s[1..][j..j + |pat|];
    }
  }

  /** `s.indexOf(pat)`: the first position at which `pat` occurs. */
  function IndexOf(s: string, pat: string): (r: Option<nat>)
    ensures r.Some? ==> OccursAt(s, pat, r.value)
    ensures r.Some? ==> forall j: nat :: j < r.value ==> !OccursAt(s, pat, j)
    ensures r.None? ==> forall j: nat :: !OccursAt(s, pat, j)
    decreases |s|
  {
    if |s| < |pat| then None
    else if pat <= s then
      assert s[0..|pat|] == pat;
      Some(0)
    else
      assert !OccursAt(s, pat, 0);
      match IndexOf(s[1..], pat)
      case None =>
        assert forall j: nat :: !OccursAt(s, pat, j) by {
          forall j: nat ensures !OccursAt(s, pat, j) {
            if j > 0 { OccursAtShift(s, pat, j - 1); }
          }
        }
        None
      case Some(i) =>
        OccursAtShift(s, pat, i);
        assert forall j: nat :: j < i + 1 ==> !OccursAt(s, pat, j) by {
          forall j: nat | j < i + 1 ensures !OccursAt(s, pat, j) {
            if j > 0 { OccursAtShift(s, pat, j - 1); }
          }
        }
        Some(i + 1)
  }

  /** `s.includes(pat)`. */
  predicate Contains(s: string, pat: string)
  {
    IndexOf(s, pat).Some?
  }

  /** `includes` holds exactly when the pattern occurs somewhere. */
  lemma ContainsOccurs(s: string, pat: string)
    ensures Contains(s, pat) <==> exists j: nat :: OccursAt(s, pat, j)
  {
    if Contains(s, pat) {
      assert OccursAt(s, pat, IndexOf(s, pat).value);
    }
  }

  /** A pattern holding a character the text lacks does not occur in it. */
  lemma AbsentChar(s: string, pat: string, k: nat)
    requires k < |pat| && pat[k] !in s
    ensures !Contains(s, pat)
  {
    forall j: nat | j + |pat| <= |s| ensures !OccursAt(s, pat, j) {
      assert s[j..j + |pat|][k] == s[j + k];
    }
    ContainsOccurs(s, pat);
  }

  /** A pattern whose first character occurs once in the text, at a place
      where the pattern's character `k` does not follow, does not occur in
      it. */
  lemma SingleHead(a: string, c: char, b: string, pat: string, k: nat)
    requires c !in a && c !in b && |pat| > 0 && pat[0] == c
    requires 0 < k < |pat| && (k <= |b| ==> b[k - 1] != pat[k])
    ensures !Contains(a + [c] + b, pat)
  {
    var s := a + [c] + b;
    forall j: nat | j + |pat| <= |s| ensures !OccursAt(s, pat, j) {
      assert s[j..j + |pat|][0] == s[j] && s[j..j + |pat|][k] == s[j + k];
      if j < |a| {
        assert s[j] == a[j];
      } else if j > |a| {
        assert s[j] == b[j - |a| - 1];
      } else {
        assert s[j + k] == b[k - 1];
      }
    }
    ContainsOccurs(s, pat);
  }

  /** `parts.join(sep)`. */
  function Join(parts: seq<string>, sep: string): string
  {
    if |parts| == 0 then ""
    else if |parts| == 1 then parts[0]
    else parts[0] + sep + Join(parts[1..], sep)
  }

  /** The text before the first occurrence of a pattern does not contain
      it. */
  lemma BeforeFirstOccurrence(s: string, pat: string, i: nat)
    requires |pat| > 0 && IndexOf(s, pat) == Some(i)
    ensures !Contains(s[..i], pat)
  {
    var first := s[..i];
    if Contains(first, pat) {
      var j := IndexOf(first, pat).value;
      assert first[j..j + |pat|] == s[j..j + |pat|];
      assert OccursAt(s, pat, j);
    }
  }

  /** The first occurrence of a pattern is also the first one in the text
      that ends with it. */
  lemma FirstOccurrenceInPrefix(s: string, pat: string, i: nat)
    requires IndexOf(s, pat) == Some(i)
    ensures IndexOf(s[..i + |pat|], pat) == Some(i)
  {
    var p := s[..i + |pat|];
    OccursInPrefix(s, pat, i, i + |pat|);
    var j := IndexOf(p, pat).value;
    OccursInPrefix(s, pat, j, i + |pat|);
  }

  /** An occurrence that ends within a prefix is an occurrence in the
      prefix. */
  lemma OccursInPrefix(s: string, pat: string, j: nat, n: nat)
    requires j + |pat| <= n <= |s|
    ensures OccursAt(s[..n], pat, j) <==> OccursAt(s, pat, j)
  {
    assert s[..n][j..j + |pat|] == s[j..j + |pat|];
  }

  /** `s.split(sep)` for a non-empty separator: the pieces between the
      occurrences of `sep`, found from left to right. */
  function Split(s: string, sep: string): (parts: seq<string>)
    requires |sep| > 0
    ensures |parts| >= 1
    ensures Join(parts, sep) == s
    ensures forall k :: 0 <= k < |parts| ==> !Contains(parts[k], sep)
    ensures forall k :: 0 <= k < |parts| - 1 ==> IndexOf(parts[k] + sep, sep) == Some(|parts[k]|)
    decreases |s|
  {
    match IndexOf(s, sep)
    case None => [s]
    case Some(i) =>
      var rest := Split(s[i + |sep|..], sep);
      var first := s[..i];
      BeforeFirstOccurrence(s, sep, i);
      FirstOccurrenceInPrefix(s, sep, i);
      assert s[..i + |sep|] == first + sep;
      assert s == first + sep + s[i + |sep|..];
      ConsPieces(first, sep, rest);
      [first] + rest
  }

  /** A piece cut at the first separator, in front of pieces cut the same
      way, keeps the pieces separator-free and cut leftmost. */
  lemma ConsPieces(first: string, sep: string, rest: seq<string>)
    requires |rest| >= 1
    requires !Contains(first, sep) && IndexOf(first + sep, sep) == Some(|first|)
    requires forall k :: 0 <= k < |rest| ==> !Contains(rest[k], sep)
    requires forall k :: 0 <= k < |rest| - 1 ==> IndexOf(rest[k] + sep, sep) == Some(|rest[k]|)
    ensures var parts := [first] + rest;
            && Join(parts, sep) == first + sep + Join(rest, sep)
            && (forall k :: 0 <= k < |parts| ==> !Contains(parts[k], sep))
            && (forall k :: 0 <= k < |parts| - 1 ==> IndexOf(parts[k] + sep, sep) == Some(|parts[k]|))
  {
    var parts := [first] + rest;
    assert parts[1..] == rest;
    assert forall k :: 1 <= k < |parts| ==> parts[k] == rest[k - 1];
  }

  /** A string that contains the separator exactly once splits into two
      pieces, and only such a string does. */
  lemma SplitTwo(s: string, sep: string)
    requires |sep| > 0
    ensures |Split(s, sep)| == 2 <==>
            (IndexOf(s, sep).Some? &&
             IndexOf(s[IndexOf(s, sep).value + |sep|..], sep).None?)
  {
    SplitCount(s, sep);
    if IndexOf(s, sep).Some? {
      SplitCount(s[IndexOf(s, sep).value + |sep|..], sep);
    }
  }

  /** One piece more than the rest after the first separator. */
  lemma SplitCount(s: string, sep: string)
    requires |sep| > 0
    ensures IndexOf(s, sep).None? ==> |Split(s, sep)| == 1
    ensures IndexOf(s, sep).Some? ==>
              |Split(s, sep)| == 1 + |Split(s[IndexOf(s, sep).value + |sep|..], sep)|
  {
  }

  /** A string without the separator is one piece. */
  lemma SplitWithout(s: string, sep: string)
    requires |sep| > 0 && !Contains(s, sep)
    ensures Split(s, sep) == [s]
  {
  }

  /** Splitting on a one-character separator peels off the text before its
      first occurrence. */
  lemma SplitAfterPiece(a: string, c: char, rest: string)
    requires forall i :: 0 <= i < |a| ==> a[i] != c
    ensures Split(a + [c] + rest, [c]) == [a] + Split(rest, [c])
  {
    var s := a + [c] + rest;
    assert OccursAt(s, [c], |a|);
    forall j: nat | j < |a| ensures !OccursAt(s, [c], j) {
      assert s[j..j + 1] == [a[j]];
    }
    assert IndexOf(s, [c]) == Some(|a|);
    assert s[..|a|] == a;
    assert s[|a| + 1..] == rest;
  }

  // ---------------------------------------------------------------------
  // Whitespace and case

  /** `s.startsWith(p)`. */
  predicate StartsWith(s: string, p: string)
  {
    |p| <= |s| && s[..|p|] == p
  }

  /** The characters JavaScript's `\s` and `trim()` treat as white space. */
  predicate IsSpace(c: char)
  {
    c == ' ' || c == '\t' || c == '\n' || c == '\r' || c == '\U{000B}' || c == '\U{000C}' ||
    c == '\U{00A0}' || c == '\U{1680}' || ('\U{2000}' <= c <= '\U{200A}') ||
    c == '\U{2028}' || c == '\U{2029}' || c == '\U{202F}' || c == '\U{205F}' ||
    c == '\U{3000}' || c == '\U{FEFF}'
  }

  predicate AllSpace(s: string) { forall i :: 0 <= i < |s| ==> IsSpace(s[i]) }

  /** The number of white-space characters `s` starts with. */
  function LeadingSpaces(s: string): (n: nat)
    ensures n <= |s| && AllSpace(s[..n])
    ensures n < |s| ==> !IsSpace(s[n])
  {
    if |s| == 0 || !IsSpace(s[0]) then 0
    else
      var m := LeadingSpaces(s[1..]);
      assert s[..m + 1] == [s[0]] + s[1..][..m];
      m + 1
  }

  /** The number of white-space characters `s` ends with. */
  function TrailingSpaces(s: string): (n: nat)
    ensures n <= |s| && AllSpace(s[|s| - n..])
    ensures n < |s| ==> !IsSpace(s[|s| - n - 1])
  {
    if |s| == 0 || !IsSpace(s[|s| - 1]) then 0
    else
      var p := s[..|s| - 1];
      var m := TrailingSpaces(p);
      var tail := s[|s| - (m + 1)..];
      assert AllSpace(tail) by {
        forall i | 0 <= i < m + 1 ensures IsSpace(tail[i]) {
          if i < m { assert tail[i] == p[|p| - m..][i]; }
        }
      }
      m + 1
  }

  /** `s` without its leading white space. */
  function TrimStart(s: string): (r: string)
    ensures |r| <= |s|
  {
    s[LeadingSpaces(s)..]
  }

  /** `s.trim()`. */
  function Trim(s: string): (r: string)
    ensures |r| == 0 <==> AllSpace(s)
    ensures |r| > 0 ==> !IsSpace(r[0]) && !IsSpace(r[|r| - 1])
    ensures exists i, j :: 0 <= i <= j <= |s| && r == s[i..j] && AllSpace(s[..i]) && AllSpace(s[j..])
  {
    var n := LeadingSpaces(s);
    var t := s[n..];
    var m := TrailingSpaces(t);
    assert AllSpace(s) ==> n == |s|;
    assert n == |s| ==> s[..n] == s;
    assert n < |s| ==> m < |t| by {
      if n < |s| { assert t[0] == s[n]; }
    }
    assert t[|t| - m..] == s[n + |t| - m..];
    assert t[..|t| - m] == s[n..n + |t| - m];
    t[..|t| - m]
  }

  /** `s.replace(/\s+/g, ' ')`: every maximal run of white space becomes one
      space. */
  function CollapseSpaces(s: string): (r: string)
    ensures |r| <= |s|
    ensures |r| == 0 <==> |s| == 0
    decreases |s|
  {
    if |s| == 0 then ""
    else if IsSpace(s[0]) then " " + CollapseSpaces(TrimStart(s))
    else [s[0]] + CollapseSpaces(s[1..])
  }

  /** ASCII case mapping of `toLowerCase` / `toUpperCase`. */
  function LowerChar(c: char): char
  {
    if 'A' <= c <= 'Z' then ((c as int) + 32) as char else c
  }

  function UpperChar(c: char): char
  {
    if 'a' <= c <= 'z' then ((c as int) - 32) as char else c
  }

  function ToLower(s: string): (r: string)
    ensures |r| == |s| && forall i :: 0 <= i < |s| ==> r[i] == LowerChar(s[i])
  {
    if |s| == 0 then "" else [LowerChar(s[0])] + ToLower(s[1..])
  }

  function ToUpper(s: string): (r: string)
    ensures |r| == |s| && forall i :: 0 <= i < |s| ==> r[i] == UpperChar(s[i])
  {
    if |s| == 0 then "" else [UpperChar(s[0])] + ToUpper(s[1..])
  }

  // ---------------------------------------------------------------------
  // The default `Array.prototype.sort()` order on strings

  /** Lexicographic order on characters, as the default `sort()` compares
      strings. */
  predicate LexLe(a: string, b: string)
    decreases |a|
  {
    if |a| == 0 then true
    else if |b| == 0 then false
    else if a[0] != b[0] then a[0] < b[0]
    else LexLe(a[1..], b[1..])
  }

  predicate LexLt(a: string, b: string) { LexLe(a, b) && a != b }

  lemma {:induction false} LexLeTotal(a: string, b: string)
    ensures LexLe(a, b) || LexLe(b, a)
    decreases |a|
  {
    if |a| > 0 && |b| > 0 && a[0] == b[0] {
      LexLeTotal(a[1..], b[1..]);
    }
  }

  lemma {:induction false} LexLeAntisymmetric(a: string, b: string)
    requires LexLe(a, b) && LexLe(b, a)
    ensures a == b
    decreases |a|
  {
    if |a| > 0 && |b| > 0 {
      LexLeAntisymmetric(a[1..], b[1..]);
      assert a == [a[0]] + a[1..];
      assert b == [b[0]] + b[1..];
    }
  }

  lemma {:induction false} LexLeTransitive(a: string, b: string, c: string)
    requires LexLe(a, b) && LexLe(b, c)
    ensures LexLe(a, c)
    decreases |a|
  {
    if |a| > 0 && |b| > 0 && |c| > 0 && a[0] == b[0] && b[0] == c[0] {
      LexLeTransitive(a[1..], b[1..], c[1..]);
    }
  }

  lemma LexLtTransitive(a: string, b: string, c: string)
    requires LexLt(a, b) && LexLt(b, c)
    ensures LexLt(a, c)
  {
    LexLeTransitive(a, b, c);
    if a == c { LexLeAntisymmetric(a, b); }
  }

  /** Strictly ascending in the `sort()` order; in particular free of
      duplicates. */
  predicate StrictlySorted(s: seq<string>)
  {
    forall i, j :: 0 <= i < j < |s| ==> LexLt(s[i], s[j])
  }

  /** A key at or below the head of a strictly ascending sequence it is not
      in lies below every element. */
  lemma BelowAll(s: seq<string>, x: string)
    requires StrictlySorted(s) && x !in s && |s| > 0 && LexLe(x, s[0])
    ensures forall j :: 0 <= j < |s| ==> LexLt(x, s[j])
  {
    forall j | 0 <= j < |s| ensures LexLt(x, s[j]) {
      if j > 0 { LexLtTransitive(x, s[0], s[j]); }
    }
  }

  /** Everything in the tail of a strictly ascending sequence, and a key
      above its head, lies above the head. */
  lemma AboveHead(s: seq<string>, x: string, t: seq<string>)
    requires StrictlySorted(s) && |s| > 0 && !LexLe(x, s[0])
    requires multiset(t) == multiset(s[1..]) + multiset{x}
    ensures forall y :: y in t ==> LexLt(s[0], y)
  {
    LexLeTotal(x, s[0]);
    forall y | y in t ensures LexLt(s[0], y) {
      assert y in multiset(t);
      if y != x {
        assert y in multiset(s[1..]);
        var k :| 0 <= k < |s[1..]| && s[1..][k] == y;
        assert y == s[k + 1];
      }
    }
  }

  /** Inserts a key that is not yet present into a strictly ascending
      sequence. */
  function Insert(s: seq<string>, x: string): (r: seq<string>)
    requires StrictlySorted(s) && x !in s
    ensures StrictlySorted(r)
    ensures multiset(r) == multiset(s) + multiset{x}
  {
    if |s| == 0 then [x]
    else if LexLe(x, s[0]) then
      BelowAll(s, x);
      [x] + s
    else
      var t := Insert(s[1..], x);
      AboveHead(s, x, t);
      assert s == [s[0]] + s[1..];
      [s[0]] + t
  }

  /** The members of a set of keys in the default `sort()` order. */
  method SortKeys(keys: set<string>) returns (r: seq<string>)
    ensures StrictlySorted(r)
    ensures forall k :: k in r <==> k in keys
    ensures |r| == |keys|
  {
    var rest := keys;
    r := [];
    while rest != {}
      invariant StrictlySorted(r)
      invariant forall k :: k in r ==> k in keys && k !in rest
      invariant forall k :: k in keys ==> k in r || k in rest
      invariant rest <= keys
      invariant |r| + |rest| == |keys|
      decreases rest
    {
      var k :| k in rest;
      ghost var before := r;
      r := Insert(r, k);
      assert forall y :: y in r <==> y in before || y == k by {
        forall y ensures y in r <==> y in before || y == k {
          assert y in r <==> y in multiset(r);
          assert y in before <==> y in multiset(before);
        }
      }
      assert |r| == |before| + 1 by {
        assert |multiset(r)| == |multiset(before)| + 1;
      }
      rest := rest - {k};
    }
  }
}
