/** Text predicates used throughout the model: Python's `in` on strings
    (substring), `str.startswith`, `str.strip`, `str.lower`, the regular
    expression class `\d`, and SQLite's ASCII case folding for `LIKE`. */
module Strings {

  /** `s.startswith(p)` */
  predicate StartsWith(s: string, p: string) {
    |p| <= |s| && s[..|p|] == p
  }

  /** `p in s` for Python strings: `p` occurs somewhere in `s`. */
  predicate Contains(s: string, p: string)
    decreases |s|
  {
    StartsWith(s, p) || (|s| > 0 && Contains(s[1..], p))
  }

  /** `p` occurs in `s` at position `i`. */
  predicate OccursAt(s: string, p: string, i: int) {
    0 <= i && i + |p| <= |s| && s[i..i + |p|] == p
  }

  lemma {:induction false} OccursFromContains(s: string, p: string)
    requires Contains(s, p)
    ensures exists i :: OccursAt(s, p, i)
    decreases |s|
  {
    if StartsWith(s, p) {
      assert OccursAt(s, p, 0);
    } else {
      OccursFromContains(s[1..], p);
      var i :| OccursAt(s[1..], p, i);
      assert s[i + 1..i + 1 + |p|] == s[1..][i..i + |p|];
      assert OccursAt(s, p, i + 1);
    }
  }

  lemma {:induction false} OccursWitness(s: string, p: string, i: int)
    requires OccursAt(s, p, i)
    ensures Contains(s, p)
    decreases i
  {
    if i == 0 {
      assert StartsWith(s, p);
    } else {
      assert s[1..][i - 1..i - 1 + |p|] == s[i..i + |p|];
      OccursWitness(s[1..], p, i - 1);
    }
  }

  lemma ContainsIffOccurs(s: string, p: string)
    ensures Contains(s, p) <==> exists i :: OccursAt(s, p, i)
  {
    if Contains(s, p) {
      OccursFromContains(s, p);
    }
    forall i | OccursAt(s, p, i) ensures Contains(s, p) {
      OccursWitness(s, p, i);
    }
  }

  /** Every string contains itself. */
  lemma ContainsSelf(s: string)
    ensures Contains(s, s)
  {
    assert OccursAt(s, s, 0);
    OccursWitness(s, s, 0);
  }

  /** Occurrence survives adding text on either side. */
  lemma ContainsInMiddle(a: string, b: string, c: string, p: string)
    requires Contains(b, p)
    ensures Contains(a + b + c, p)
  {
    ContainsIffOccurs(b, p);
    var i :| OccursAt(b, p, i);
    var s := a + b + c;
    assert s[|a| + i..|a| + i + |p|] == b[i..i + |p|];
    OccursWitness(s, p, |a| + i);
  }

  lemma ContainsPrefixOf(s: string, p: string)
    requires StartsWith(s, p)
    ensures Contains(s, p)
  {
  }

  /** A needle without the separator that occurs in `a + sep + b` occurs in
      `a` or in `b`. */
  lemma {:induction false} ContainsAcrossSeparator(a: string, sep: char, b: string, p: string)
    requires |p| > 0
    requires forall k :: 0 <= k < |p| ==> p[k] != sep
    requires Contains(a + [sep] + b, p)
    ensures Contains(a, p) || Contains(b, p)
    decreases |a|
  {
    var s := a + [sep] + b;
    if StartsWith(s, p) {
      assert forall k :: 0 <= k < |p| ==> p[k] == s[k];
      assert forall k :: 0 <= k < |p| ==> s[k] != sep;
      assert s[|a|] == sep;
      assert |p| <= |a|;
      assert a[..|p|] == s[..|p|];
      assert StartsWith(a, p);
    } else if |a| == 0 {
      assert s[1..] == b;
    } else {
      assert s[1..] == a[1..] + [sep] + b;
      ContainsAcrossSeparator(a[1..], sep, b, p);
      if Contains(a[1..], p) {
        assert Contains(a, p);
      }
    }
  }

  /** The converse: occurrences in either side survive joining. */
  lemma ContainsJoined(a: string, sep: char, b: string, p: string)
    requires Contains(a, p) || Contains(b, p)
    ensures Contains(a + [sep] + b, p)
  {
    if Contains(a, p) {
      ContainsInMiddle([], a, [sep] + b, p);
      assert [] + a + ([sep] + b) == a + [sep] + b;
    } else {
      ContainsInMiddle(a + [sep], b, [], p);
      assert a + [sep] + b + [] == a + [sep] + b;
    }
  }

  // ---------------------------------------------------------------------
  // Case mapping

  predicate IsAsciiUpper(c: char) { 'A' <= c <= 'Z' }
  predicate IsAsciiLower(c: char) { 'a' <= c <= 'z' }
  predicate IsWideUpper(c: char) { 'Ａ' <= c <= 'Ｚ' }
  predicate IsWideLower(c: char) { 'ａ' <= c <= 'ｚ' }

  /** SQLite's built-in case folding (only the 26 ASCII letters). */
  function AsciiLowerChar(c: char): (r: char)
    ensures IsAsciiUpper(c) ==> IsAsciiLower(r)
    ensures !IsAsciiUpper(c) ==> r == c
  {
    if IsAsciiUpper(c) then (c as int + 32) as char else c
  }

  function AsciiLower(s: string): (r: string)
    ensures |r| == |s|
    ensures forall i :: 0 <= i < |s| ==> r[i] == AsciiLowerChar(s[i])
  {
    seq(|s|, i requires 0 <= i < |s| => AsciiLowerChar(s[i]))
  }

  /** Python's `str.lower` on Latin letters, ASCII and fullwidth. */
  function LowerChar(c: char): (r: char)
    ensures IsAsciiUpper(c) ==> IsAsciiLower(r)
    ensures IsWideUpper(c) ==> IsWideLower(r)
    ensures !IsAsciiUpper(c) && !IsWideUpper(c) ==> r == c
  {
    if IsAsciiUpper(c) then (c as int + 32) as char
    else if IsWideUpper(c) then (c as int + 32) as char
    else c
  }

  function Lower(s: string): (r: string)
    ensures |r| == |s|
    ensures forall i :: 0 <= i < |s| ==> r[i] == LowerChar(s[i])
  {
    seq(|s|, i requires 0 <= i < |s| => LowerChar(s[i]))
  }

  /** A character no case mapping produces or changes. */
  predicate Caseless(c: char) {
    !IsAsciiUpper(c) && !IsAsciiLower(c) && !IsWideUpper(c) && !IsWideLower(c)
  }

  predicate CaselessText(p: string) {
    forall k :: 0 <= k < |p| ==> Caseless(p[k])
  }

  /** Lower-casing the haystack does not change whether a caseless needle
      occurs in it. */
  lemma ContainsLowerCaseless(s: string, p: string)
    requires CaselessText(p)
    ensures Contains(Lower(s), p) <==> Contains(s, p)
  {
    ContainsIffOccurs(s, p);
    ContainsIffOccurs(Lower(s), p);
    var l := Lower(s);
    forall i | 0 <= i && i + |p| <= |s|
      ensures OccursAt(l, p, i) <==> OccursAt(s, p, i)
    {
      if OccursAt(l, p, i) {
        forall k | 0 <= k < |p| ensures s[i + k] == p[k] {
          assert l[i..i + |p|][k] == l[i + k];
        }
        assert s[i..i + |p|] == p;
      }
      if OccursAt(s, p, i) {
        forall k | 0 <= k < |p| ensures l[i + k] == p[k] {
          assert s[i..i + |p|][k] == s[i + k];
        }
        assert l[i..i + |p|] == p;
      }
    }
  }

  // ---------------------------------------------------------------------
  // Keyword lists

  /** `any(keyword in q for keyword in keywords)` */
  predicate AnyIn(q: string, keywords: seq<string>) {
    |keywords| > 0 && (Contains(q, keywords[0]) || AnyIn(q, keywords[1..]))
  }

  lemma {:induction false} AnyInIff(q: string, keywords: seq<string>)
    ensures AnyIn(q, keywords) <==> exists j :: 0 <= j < |keywords| && Contains(q, keywords[j])
    decreases |keywords|
  {
    if |keywords| > 0 {
      AnyInIff(q, keywords[1..]);
      if exists j :: 0 <= j < |keywords| && Contains(q, keywords[j]) {
        var j :| 0 <= j < |keywords| && Contains(q, keywords[j]);
        if j > 0 {
          assert keywords[1..][j - 1] == keywords[j];
        }
      }
    }
  }

  lemma AnyInTwo(q: string, a: string, b: string)
    ensures AnyIn(q, [a, b]) <==> Contains(q, a) || Contains(q, b)
  {
    assert [a, b][1..] == [b];
    assert [b][1..] == [];
    assert !AnyIn(q, []);
    assert AnyIn(q, [b]) <==> Contains(q, b);
  }

  // ---------------------------------------------------------------------
  // Whitespace and `str.strip`

  /** Python's `str.isspace` for a single character. */
  predicate IsSpace(c: char) {
    ('\t' <= c <= '\r') || ('\U{1c}' <= c <= '\U{1f}') || c == ' '
    || c == '\U{85}' || c == '\U{a0}' || c == '\U{1680}'
    || ('\U{2000}' <= c <= '\U{200a}') || c == '\U{2028}' || c == '\U{2029}'
    || c == '\U{202f}' || c == '\U{205f}' || c == '\U{3000}'
  }

  function StripLeft(s: string): (r: string)
    ensures |r| <= |s| && r == s[|s| - |r|..]
    ensures |r| > 0 ==> !IsSpace(r[0])
    ensures forall k :: 0 <= k < |s| - |r| ==> IsSpace(s[k])
  {
    if |s| > 0 && IsSpace(s[0]) then StripLeft(s[1..]) else s
  }

  function StripRight(s: string): (r: string)
    ensures |r| <= |s| && r == s[..|r|]
    ensures |r| > 0 ==> !IsSpace(r[|r| - 1])
    ensures forall k :: |r| <= k < |s| ==> IsSpace(s[k])
  {
    if |s| > 0 && IsSpace(s[|s| - 1]) then StripRight(s[..|s| - 1]) else s
  }

  /** `s.strip()`: the longest infix with no leading or trailing whitespace. */
  function Strip(s: string): (r: string)
    ensures |r| == 0 || (!IsSpace(r[0]) && !IsSpace(r[|r| - 1]))
    ensures exists i :: OccursAt(s, r, i)
  {
    var l := StripLeft(s);
    var r := StripRight(l);
    assert OccursAt(s, r, |s| - |l|);
    r
  }

  /** Text with a non-space character at either end; `strip` cannot cut
      into an occurrence of such a needle. */
  predicate Word(p: string) {
    |p| > 0 && !IsSpace(p[0]) && !IsSpace(p[|p| - 1])
  }

  /** Where `strip` cuts: `Strip(s)` sits at offset `a` with only
      whitespace around it. */
  lemma StripAt(s: string) returns (a: nat)
    ensures a + |Strip(s)| <= |s| && Strip(s) == s[a..a + |Strip(s)|]
    ensures forall k :: 0 <= k < a ==> IsSpace(s[k])
    ensures forall k :: a + |Strip(s)| <= k < |s| ==> IsSpace(s[k])
  {
    var l := StripLeft(s);
    a := |s| - |l|;
    var r := StripRight(l);
    assert Strip(s) == r;
    TrimmedBothEnds(s, l, r);
  }

  /** Cutting whitespace off the left and then off the right leaves an
      infix with only whitespace around it. */
  lemma TrimmedBothEnds(s: string, l: string, r: string)
    requires |l| <= |s| && l == s[|s| - |l|..]
    requires forall k :: 0 <= k < |s| - |l| ==> IsSpace(s[k])
    requires |r| <= |l| && r == l[..|r|]
    requires forall k :: |r| <= k < |l| ==> IsSpace(l[k])
    ensures r == s[|s| - |l|..|s| - |l| + |r|]
    ensures forall k :: |s| - |l| + |r| <= k < |s| ==> IsSpace(s[k])
  {
    var a := |s| - |l|;
    forall k | a + |r| <= k < |s| ensures IsSpace(s[k]) {
      assert s[k] == l[k - a];
    }
  }

  lemma OccursInStripped(s: string, p: string, a: nat, r: string, i: int)
    requires Word(p) && OccursAt(s, p, i)
    requires a + |r| <= |s| && r == s[a..a + |r|]
    requires forall k :: 0 <= k < a ==> IsSpace(s[k])
    requires forall k :: a + |r| <= k < |s| ==> IsSpace(s[k])
    ensures OccursAt(r, p, i - a)
  {
    assert s[i] == s[i..i + |p|][0] == p[0];
    assert s[i + |p| - 1] == s[i..i + |p|][|p| - 1] == p[|p| - 1];
    assert a <= i && i + |p| <= a + |r|;
    var rs, ss := r[i - a..i - a + |p|], s[i..i + |p|];
    forall k | 0 <= k < |p| ensures rs[k] == ss[k] {
      assert rs[k] == r[i - a + k] == s[a..a + |r|][i - a + k];
    }
    assert rs == ss;
  }

  /** Occurrences in a part of `s` are occurrences in `s`. */
  lemma ContainsInfix(s: string, a: nat, b: nat, p: string)
    requires a <= b <= |s| && Contains(s[a..b], p)
    ensures Contains(s, p)
  {
    ContainsInMiddle(s[..a], s[a..b], s[b..], p);
    assert s[..a] + s[a..b] + s[b..] == s;
  }

  lemma ContainsTrans(s: string, t: string, p: string)
    requires Contains(s, t) && Contains(t, p)
    ensures Contains(s, p)
  {
    OccursFromContains(s, t);
    var i :| OccursAt(s, t, i);
    assert s[i..i + |t|] == t;
    ContainsInfix(s, i, i + |t|, p);
  }

  /** A part of a found word is found too. */
  lemma ContainsPart(s: string, a: string, b: string, c: string)
    requires Contains(s, a + b + c)
    ensures Contains(s, b)
  {
    ContainsSelf(b);
    ContainsInMiddle(a, b, c, b);
    ContainsTrans(s, a + b + c, b);
  }

  lemma StripKeepsWord(s: string, p: string)
    requires Word(p) && Contains(s, p)
    ensures Contains(Strip(s), p)
  {
    var a := StripAt(s);
    var r := Strip(s);
    OccursFromContains(s, p);
    var i :| OccursAt(s, p, i);
    OccursInStripped(s, p, a, r, i);
    assert OccursAt(r, p, i - a);
    OccursWitness(r, p, i - a);
  }

  lemma StripAddsNothing(s: string, p: string)
    requires Contains(Strip(s), p)
    ensures Contains(s, p)
  {
    var a := StripAt(s);
    ContainsInfix(s, a, a + |Strip(s)|, p);
  }

  /** Stripping keeps every occurrence of a word and creates none. */
  lemma ContainsStrip(s: string, p: string)
    requires Word(p)
    ensures Contains(Strip(s), p) <==> Contains(s, p)
  {
    if Contains(s, p) {
      StripKeepsWord(s, p);
    }
    if Contains(Strip(s), p) {
      StripAddsNothing(s, p);
    }
  }

  /** A non-space character survives stripping. */
  lemma StripKeepsChar(s: string, i: nat)
    requires i < |s| && !IsSpace(s[i])
    ensures s[i] in Strip(s)
  {
    var a := StripAt(s);
    assert s[i] == Strip(s)[i - a];
  }

  /** Text that starts and ends with a non-space character is its own strip. */
  lemma StripNoop(s: string)
    requires |s| > 0 && !IsSpace(s[0]) && !IsSpace(s[|s| - 1])
    ensures Strip(s) == s
  {
  }

  // ---------------------------------------------------------------------
  // Digits

  /** A character the model counts as a decimal digit: the ASCII digits and
      their fullwidth forms (both match Python's `\d` and `str.isdigit`). */
  predicate IsDigit(c: char) {
    ('0' <= c <= '9') || ('０' <= c <= '９')
  }

  function DigitValue(c: char): (v: nat)
    requires IsDigit(c)
    ensures v < 10
  {
    if '0' <= c <= '9' then c as int - '0' as int else c as int - '０' as int
  }

  /** `s.isdigit()`: non-empty and made of digits only. */
  predicate AllDigits(s: string) {
    |s| > 0 && forall k :: 0 <= k < |s| ==> IsDigit(s[k])
  }
}
