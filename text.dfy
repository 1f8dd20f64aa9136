/**
 * The JavaScript string operations the core relies on: `trim`, `toLowerCase`,
 * `includes`, `startsWith`, `slice(0, n)`, `split(' ')[0]`, `split(',')` and
 * `split(/\s+/)`. Strings are sequences of characters.
 */
module Text {

  /** The LineTerminator characters of ECMAScript (what `.` in a regular expression does not match). */
  predicate IsLineTerminator(c: char) {
    c == '\n' || c == '\r' || c == '\U{2028}' || c == '\U{2029}'
  }

  /** ECMAScript WhiteSpace and LineTerminator: what `trim` strips and what `\s` matches. */
  predicate IsWhitespace(c: char) {
    || c == '\t' || c == '\U{000B}' || c == '\U{000C}' || c == ' ' || c == '\U{00A0}'
    || c == '\U{1680}' || ('\U{2000}' <= c <= '\U{200A}') || c == '\U{202F}'
    || c == '\U{205F}' || c == '\U{3000}' || c == '\U{FEFF}'
    || IsLineTerminator(c)
  }

  predicate NoWhitespace(s: string) {
    forall i :: 0 <= i < |s| ==> !IsWhitespace(s[i])
  }

  /** `s` with its leading whitespace removed (the left half of `trim`). */
  function TrimStart(s: string): (r: string)
    ensures |r| <= |s| && r == s[|s| - |r|..]
    ensures r == [] || !IsWhitespace(r[0])
    ensures forall i :: 0 <= i < |s| - |r| ==> IsWhitespace(s[i])
  {
    if |s| > 0 && IsWhitespace(s[0]) then TrimStart(s[1..]) else s
  }

  /** `s` with its trailing whitespace removed (the right half of `trim`). */
  function TrimEnd(s: string): (r: string)
    ensures |r| <= |s| && r == s[..|r|]
    ensures r == [] || !IsWhitespace(r[|r| - 1])
    ensures forall i :: |r| <= i < |s| ==> IsWhitespace(s[i])
  {
    if |s| > 0 && IsWhitespace(s[|s| - 1]) then TrimEnd(s[..|s| - 1]) else s
  }

  /** `String.prototype.trim`: the longest infix of `s` whose ends are not whitespace,
      all of whose surroundings are whitespace. */
  function Trim(s: string): (r: string)
    ensures |r| <= |s|
    ensures r == [] || (!IsWhitespace(r[0]) && !IsWhitespace(r[|r| - 1]))
    ensures exists a :: IsTrimAt(s, r, a)
  {
    var t := TrimStart(s);
    var r := TrimEnd(t);
    assert r == s[|s| - |t|..][..|r|];
    assert IsTrimAt(s, r, |s| - |t|);
    r
  }

  /** `r` sits at offset `a` of `s` with only whitespace before and after it. */
  ghost predicate IsTrimAt(s: string, r: string, a: int) {
    && 0 <= a <= |s| - |r| && r == s[a..a + |r|]
    && (forall i :: 0 <= i < a ==> IsWhitespace(s[i]))
    && (forall i :: a + |r| <= i < |s| ==> IsWhitespace(s[i]))
  }

  /** Lower-casing of one character; only the ASCII letters A-Z change. */
  function LowerChar(c: char): char {
    if 'A' <= c <= 'Z' then (c as int + 32) as char else c
  }

  /** `toLowerCase`, restricted to ASCII letters. */
  function ToLower(s: string): (r: string)
    ensures |r| == |s|
    ensures forall i :: 0 <= i < |s| ==> r[i] == LowerChar(s[i])
  {
    seq(|s|, i requires 0 <= i < |s| => LowerChar(s[i]))
  }

  /** `(s || '').trim().toLowerCase()`: the comparison form used by the city matchers. */
  function Normalize(s: string): string {
    ToLower(Trim(s))
  }

  /** A string with no whitespace at either end is its own trim. */
  lemma TrimPlain(s: string)
    requires s == [] || (!IsWhitespace(s[0]) && !IsWhitespace(s[|s| - 1]))
    ensures Trim(s) == s
  {
  }

  /** Normalising twice is normalising once: lower-casing keeps the ends of a trimmed
      string free of whitespace, and lower-casing again changes nothing. */
  lemma NormalizeIdempotent(s: string)
    ensures Normalize(Normalize(s)) == Normalize(s)
  {
    var t := Trim(s);
    var l := ToLower(t);
    if |l| > 0 {
      LowerKeepsNonWhitespace(t[0]);
      LowerKeepsNonWhitespace(t[|t| - 1]);
    }
    TrimPlain(l);
    ToLowerTwice(t);
  }

  lemma LowerKeepsNonWhitespace(c: char)
    requires !IsWhitespace(c)
    ensures !IsWhitespace(LowerChar(c))
  {
  }

  lemma ToLowerTwice(s: string)
    ensures ToLower(ToLower(s)) == ToLower(s)
  {
    var l := ToLower(s);
    forall i | 0 <= i < |l| ensures ToLower(l)[i] == l[i] {
      assert l[i] == LowerChar(s[i]);
    }
  }

  /** A word of lower-case ASCII letters is its own normal form. */
  lemma NormalizeLowerWord(s: string)
    requires forall i :: 0 <= i < |s| ==> 'a' <= s[i] <= 'z'
    ensures Normalize(s) == s
  {
    if |s| > 0 {
      assert !IsWhitespace(s[0]) && !IsWhitespace(s[|s| - 1]);
    }
    TrimPlain(s);
    forall i | 0 <= i < |s| ensures ToLower(s)[i] == s[i] {
      assert LowerChar(s[i]) == s[i];
    }
    assert ToLower(s) == s;
  }

  /** `s.startsWith(p)`. */
  predicate StartsWith(s: string, p: string) {
    |p| <= |s| && s[..|p|] == p
  }

  /** `s.includes(t)`: `t` occurs in `s` at some offset (the empty string occurs everywhere). */
  predicate Contains(s: string, t: string)
    decreases |s|
  {
    StartsWith(s, t) || (|s| > 0 && Contains(s[1..], t))
  }

  /** `t` occurs in `s` starting at offset `i`. */
  ghost predicate OccursAt(s: string, t: string, i: int) {
    0 <= i <= |s| - |t| && s[i..i + |t|] == t
  }

  /** A string longer than `s` does not occur in `s`. */
  lemma ContainsLonger(s: string, t: string)
    requires |t| > |s|
    ensures !Contains(s, t)
  {
    ContainsIff(s, t);
  }

  /** `Contains` is "occurs at some offset". */
  lemma ContainsIff(s: string, t: string)
    ensures Contains(s, t) <==> exists i :: OccursAt(s, t, i)
  {
    if Contains(s, t) {
      ContainsThenOccurs(s, t);
    }
    forall i | OccursAt(s, t, i) ensures Contains(s, t) {
      OccursThenContains(s, t, i);
    }
  }

  lemma {:induction false} ContainsThenOccurs(s: string, t: string)
    requires Contains(s, t)
    ensures exists i :: OccursAt(s, t, i)
    decreases |s|
  {
    if StartsWith(s, t) {
      assert OccursAt(s, t, 0);
    } else {
      ContainsThenOccurs(s[1..], t);
      var i :| OccursAt(s[1..], t, i);
      assert s[1..][i..i + |t|] == s[i + 1..i + 1 + |t|];
      assert OccursAt(s, t, i + 1);
    }
  }

  lemma {:induction false} OccursThenContains(s: string, t: string, i: int)
    requires OccursAt(s, t, i)
    ensures Contains(s, t)
    decreases i
  {
    if i == 0 {
      assert s[..|t|] == s[0..|t|];
    } else {
      assert s[1..][i - 1..i - 1 + |t|] == s[i..i + |t|];
      OccursThenContains(s[1..], t, i - 1);
    }
  }

  /** Lower-casing leaves whitespace as it is. */
  lemma LowerKeepsWhitespace(c: char)
    requires IsWhitespace(c)
    ensures LowerChar(c) == c
  {
  }

  /** A string whose ends are not whitespace occurs in the normal form of `s` exactly
      when it occurs in `s` lower-cased: trimming removes only whitespace around it. */
  lemma ContainsNormalized(s: string, t: string)
    requires |t| > 0 && !IsWhitespace(t[0]) && !IsWhitespace(t[|t| - 1])
    ensures Contains(Normalize(s), t) <==> Contains(ToLower(s), t)
  {
    var r := Trim(s);
    var a :| IsTrimAt(s, r, a);
    ContainsLoweredPart(s, r, a, t);
  }

  lemma ContainsLoweredPart(s: string, r: string, a: int, t: string)
    requires IsTrimAt(s, r, a)
    requires |t| > 0 && !IsWhitespace(t[0]) && !IsWhitespace(t[|t| - 1])
    ensures Contains(ToLower(r), t) <==> Contains(ToLower(s), t)
  {
    var ls := ToLower(s);
    ToLowerSlice(s, a, a + |r|);
    forall i | 0 <= i < |s| && (i < a || a + |r| <= i) ensures IsWhitespace(ls[i]) {
      LowerKeepsWhitespace(s[i]);
    }
    ContainsInTrimmedPart(ls, a, |r|, t);
  }

  lemma ToLowerSlice(s: string, a: nat, b: nat)
    requires a <= b <= |s|
    ensures ToLower(s[a..b]) == ToLower(s)[a..b]
  {
  }

  /** When only whitespace surrounds a part of `s`, a string whose ends are not
      whitespace occurs in the part exactly when it occurs in `s`. */
  lemma ContainsInTrimmedPart(s: string, a: nat, n: nat, t: string)
    requires a + n <= |s|
    requires forall i :: 0 <= i < |s| && (i < a || a + n <= i) ==> IsWhitespace(s[i])
    requires |t| > 0 && !IsWhitespace(t[0]) && !IsWhitespace(t[|t| - 1])
    ensures Contains(s[a..a + n], t) <==> Contains(s, t)
  {
    ContainsIff(s[a..a + n], t);
    ContainsIff(s, t);
    if Contains(s[a..a + n], t) {
      var i :| OccursAt(s[a..a + n], t, i);
      OccursInWhole(s, a, n, t, i);
    }
    if Contains(s, t) {
      var i :| OccursAt(s, t, i);
      assert s[i] == t[0] && s[i + |t| - 1] == t[|t| - 1];
      OccursInPart(s, a, n, t, i);
    }
  }

  /** An occurrence in a part of `s` is an occurrence in `s`. */
  lemma OccursInWhole(s: string, a: nat, n: nat, t: string, i: int)
    requires a + n <= |s| && OccursAt(s[a..a + n], t, i)
    ensures OccursAt(s, t, a + i)
  {
    var w := s[a..a + n][i..i + |t|];
    assert forall m :: 0 <= m < |w| ==> w[m] == s[a + i + m];
    assert w == s[a + i..a + i + |t|];
  }

  /** An occurrence in `s` that lies within a part of it is an occurrence in that part. */
  lemma OccursInPart(s: string, a: nat, n: nat, t: string, i: int)
    requires a + n <= |s| && OccursAt(s, t, i) && a <= i && i + |t| <= a + n
    ensures OccursAt(s[a..a + n], t, i - a)
  {
    var w := s[a..a + n][i - a..i - a + |t|];
    assert forall m :: 0 <= m < |w| ==> w[m] == s[i + m];
    assert w == s[i..i + |t|];
  }

  /** The empty string occurs in every string. */
  lemma ContainsEmpty(s: string)
    ensures Contains(s, "")
  {
    assert StartsWith(s, "");
  }

  /** `s.slice(0, n)`. */
  function Take(s: string, n: nat): (r: string)
    ensures |r| == if |s| <= n then |s| else n
    ensures StartsWith(s, r)
  {
    if |s| <= n then s else s[..n]
  }

  /** `s.split(' ')[0]`: everything before the first space, or all of `s`. */
  function FirstWord(s: string): (r: string)
    ensures StartsWith(s, r)
    ensures ' ' !in r
    ensures |r| < |s| ==> s[|r|] == ' '
  {
    if |s| == 0 || s[0] == ' ' then [] else [s[0]] + FirstWord(s[1..])
  }

  /** The pieces of `s.split(sep)` glued back together with `sep`. */
  function Join(pieces: seq<string>, sep: char): string
    decreases |pieces|
  {
    if |pieces| == 0 then ""
    else if |pieces| == 1 then pieces[0]
    else pieces[0] + [sep] + Join(pieces[1..], sep)
  }

  /** `s.split(sep)` for a one-character separator: never empty, no piece holds `sep`,
      and joining the pieces with `sep` gives `s` back. */
  function Split(s: string, sep: char): (r: seq<string>)
    ensures |r| >= 1
    ensures forall k :: 0 <= k < |r| ==> sep !in r[k]
    ensures Join(r, sep) == s
  {
    if |s| == 0 then [""]
    else
      var rest := Split(s[1..], sep);
      if s[0] == sep then [""] + rest
      else [[s[0]] + rest[0]] + rest[1..]
  }

  /** `split(/\s+/)`: the pieces between maximal runs of whitespace. */
  function SplitWhitespace(s: string): (r: seq<string>)
    ensures |r| >= 1
    ensures forall k :: 0 <= k < |r| ==> NoWhitespace(r[k])
    decreases |s|
  {
    if |s| == 0 then [""]
    else if IsWhitespace(s[0]) then [""] + SplitWhitespace(TrimStart(s))
    else
      var rest := SplitWhitespace(s[1..]);
      [[s[0]] + rest[0]] + rest[1..]
  }

  /** Each element of `pieces`, trimmed (`.map((p) => p.trim())`). */
  function TrimAll(pieces: seq<string>): (r: seq<string>)
    ensures |r| == |pieces|
    ensures forall k :: 0 <= k < |r| ==> r[k] == Trim(pieces[k])
  {
    seq(|pieces|, k requires 0 <= k < |pieces| => Trim(pieces[k]))
  }
}
