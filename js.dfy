/** The small part of JavaScript's standard library that the site's scripts rely on:
    optional values, truthiness, the String methods startsWith / endsWith / includes /
    indexOf / split / toLowerCase, and parseInt with radix 10. */
module Js {

  datatype Option<T> = None | Some(value: T)

  /** A number that parseInt can produce: NaN, or an integer. */
  datatype JsInt = NaN | Int(n: int)

  /** A string is truthy in JavaScript iff it is not empty. */
  predicate Truthy(s: string) { s != "" }

  /** A parsed number is truthy iff it is neither NaN nor 0. */
  predicate TruthyNum(v: JsInt) { v.Int? && v.n != 0 }

  // ---------------------------------------------------------------- string predicates

  /** String.prototype.startsWith */
  predicate StartsWith(s: string, p: string) { |p| <= |s| && s[..|p|] == p }

  /** String.prototype.endsWith */
  predicate EndsWith(s: string, p: string) { |p| <= |s| && s[|s| - |p|..] == p }

  /** p occurs in s at position i */
  predicate OccursAt(s: string, p: string, i: int) {
    0 <= i && i + |p| <= |s| && s[i..i + |p|] == p
  }

  /** String.prototype.includes */
  predicate Includes(s: string, p: string) {
    exists i | 0 <= i <= |s| - |p| :: OccursAt(s, p, i)
  }

  /** The first position at or after `from` where p occurs in s, or -1
      (String.prototype.indexOf(p, from) for 0 <= from <= |s|). */
  function IndexFrom(s: string, p: string, from: nat): (r: int)
    requires from <= |s|
    ensures r == -1 || (from <= r && OccursAt(s, p, r))
    ensures r == -1 ==> forall i :: from <= i <= |s| - |p| ==> !OccursAt(s, p, i)
    ensures r != -1 ==> forall i :: from <= i < r ==> !OccursAt(s, p, i)
    decreases |s| - from
  {
    if OccursAt(s, p, from) then from
    else if from + |p| >= |s| then -1
    else IndexFrom(s, p, from + 1)
  }

  /** String.prototype.indexOf */
  function IndexOf(s: string, p: string): (r: int)
    ensures r == -1 <==> !Includes(s, p)
    ensures r != -1 ==> OccursAt(s, p, r) && forall i :: 0 <= i < r ==> !OccursAt(s, p, i)
  {
    var r := IndexFrom(s, p, 0);
    assert r != -1 ==> OccursAt(s, p, r);
    r
  }

  /** The second piece of s.split(p) for a non-empty separator p that occurs in s:
      the text between the first occurrence and the next one (or the end). */
  function SecondPiece(s: string, p: string): (r: string)
    requires p != "" && Includes(s, p)
    ensures !Includes(r, p)
  {
    var i := IndexOf(s, p);
    var j := IndexFrom(s, p, i + |p|);
    var e := if j == -1 then |s| else j;
    var r := s[i + |p|..e];
    forall k | 0 <= k <= |r| - |p|
      ensures !OccursAt(r, p, k)
    {
      OccursInSlice(s, p, i + |p|, e, k);
    }
    r
  }

  /** An occurrence inside a slice of s is an occurrence in s, shifted by the slice's start. */
  lemma OccursInSlice(s: string, p: string, lo: nat, hi: nat, k: int)
    requires lo <= hi <= |s|
    ensures OccursAt(s[lo..hi], p, k) ==> OccursAt(s, p, lo + k)
  {
    if OccursAt(s[lo..hi], p, k) {
      forall m | 0 <= m < |p|
        ensures s[lo + k..lo + k + |p|][m] == p[m]
      {
        assert s[lo..hi][k..k + |p|][m] == p[m];
      }
    }
  }

  lemma IncludesSingle(s: string, c: char)
    ensures Includes(s, [c]) <==> c in s
  {
    if c in s {
      var i :| 0 <= i < |s| && s[i] == c;
      assert OccursAt(s, [c], i);
    }
    if Includes(s, [c]) {
      var i :| 0 <= i <= |s| - 1 && OccursAt(s, [c], i);
      assert s[i] == s[i..i + 1][0];
    }
  }

  lemma IncludesAppendRight(s: string, t: string, p: string)
    requires Includes(s, p)
    ensures Includes(s + t, p)
  {
    var i :| 0 <= i <= |s| - |p| && OccursAt(s, p, i);
    assert (s + t)[i..i + |p|] == s[i..i + |p|];
    assert OccursAt(s + t, p, i);
  }

  lemma IncludesAppendLeft(s: string, t: string, p: string)
    requires Includes(t, p)
    ensures Includes(s + t, p)
  {
    var i :| 0 <= i <= |t| - |p| && OccursAt(t, p, i);
    assert (s + t)[|s| + i..|s| + i + |p|] == t[i..i + |p|];
    assert OccursAt(s + t, p, |s| + i);
  }

  /** A string without p's first character does not include p. */
  lemma NotIncludesFirstChar(s: string, p: string)
    requires p != [] && p[0] !in s
    ensures !Includes(s, p)
  {
    forall i | 0 <= i <= |s| - |p|
      ensures !OccursAt(s, p, i)
    {
      assert s[i..i + |p|][0] == s[i];
    }
  }

  /** A string that lacks any one character of p does not include p. */
  lemma NotIncludesSomeChar(s: string, p: string, k: nat)
    requires k < |p| && p[k] !in s
    ensures !Includes(s, p)
  {
    forall i | 0 <= i <= |s| - |p|
      ensures !OccursAt(s, p, i)
    {
      assert s[i..i + |p|][k] == s[i + k];
    }
  }

  /** A string does not start with a prefix whose first character differs from its own. */
  lemma NotStartsWithFirstChar(s: string, p: string)
    requires |s| > 0 && |p| > 0 && s[0] != p[0]
    ensures !StartsWith(s, p)
  {
    if |p| <= |s| {
      assert s[..|p|][0] == s[0];
    }
  }

  lemma StartsWithIncludes(s: string, p: string)
    requires StartsWith(s, p)
    ensures Includes(s, p)
  {
    assert OccursAt(s, p, 0);
  }

  lemma EndsWithIncludes(s: string, p: string)
    requires EndsWith(s, p)
    ensures Includes(s, p)
  {
    assert OccursAt(s, p, |s| - |p|);
  }

  // ---------------------------------------------------------------- arrays

  /** Array.prototype.findIndex: the first index whose element satisfies p, or -1. */
  function FindIndex<T>(s: seq<T>, p: T -> bool): (r: int)
    ensures -1 <= r < |s|
    ensures r >= 0 ==> p(s[r]) && forall j :: 0 <= j < r ==> !p(s[j])
    ensures r == -1 <==> forall j :: 0 <= j < |s| ==> !p(s[j])
  {
    if s == [] then -1
    else if p(s[0]) then 0
    else
      var r := FindIndex(s[1..], p);
      assert forall j :: 1 <= j < |s| ==> s[j] == s[1..][j - 1];
      if r == -1 then -1 else r + 1
  }

  /** Array.prototype.find: the first element satisfying p, or None for `undefined`. */
  function Find<T>(s: seq<T>, p: T -> bool): (r: Option<T>)
    ensures r.Some? <==> exists j :: 0 <= j < |s| && p(s[j])
    ensures r.Some? ==>
      exists j :: 0 <= j < |s| && s[j] == r.value && p(s[j]) && forall k :: 0 <= k < j ==> !p(s[k])
  {
    var i := FindIndex(s, p);
    if i == -1 then None else Some(s[i])
  }

  // ---------------------------------------------------------------- case mapping

  function LowerChar(c: char): char {
    if 'A' <= c <= 'Z' then (c as int + 32) as char else c
  }

  /** String.prototype.toLowerCase, restricted to the ASCII letters. */
  function ToLower(s: string): (r: string)
    ensures |r| == |s|
    ensures forall i :: 0 <= i < |s| ==> r[i] == LowerChar(s[i])
  {
    seq(|s|, i requires 0 <= i < |s| => LowerChar(s[i]))
  }

  // ---------------------------------------------------------------- parseInt(s, 10)

  /** The characters JavaScript's parseInt skips at the start (WhiteSpace and LineTerminator). */
  predicate IsJsSpace(c: char) {
    c == ' ' || c == '\t' || c == '\n' || c == '\r' || c == '\U{000B}' || c == '\U{000C}'
    || c == '\U{00A0}' || c == '\U{1680}' || ('\U{2000}' <= c <= '\U{200A}')
    || c == '\U{2028}' || c == '\U{2029}' || c == '\U{202F}' || c == '\U{205F}'
    || c == '\U{3000}' || c == '\U{FEFF}'
  }

  predicate IsDigit(c: char) { '0' <= c <= '9' }

  function TrimStart(s: string): (r: string)
    ensures |r| <= |s| && r == s[|s| - |r|..]
    ensures r == [] || !IsJsSpace(r[0])
  {
    if |s| > 0 && IsJsSpace(s[0]) then TrimStart(s[1..]) else s
  }

  function TrimEnd(s: string): (r: string)
    ensures |r| <= |s| && r == s[..|r|]
    ensures r == [] || !IsJsSpace(r[|r| - 1])
  {
    if |s| > 0 && IsJsSpace(s[|s| - 1]) then TrimEnd(s[..|s| - 1]) else s
  }

  /** String.prototype.trim */
  function Trim(s: string): (r: string)
    ensures |r| <= |s|
    ensures r == [] || (!IsJsSpace(r[0]) && !IsJsSpace(r[|r| - 1]))
  {
    TrimEnd(TrimStart(s))
  }

  /** The longest prefix of s made of decimal digits. */
  function LeadingDigits(s: string): (r: string)
    ensures StartsWith(s, r)
    ensures forall i :: 0 <= i < |r| ==> IsDigit(r[i])
    ensures |r| == |s| || !IsDigit(s[|r|])
  {
    if |s| > 0 && IsDigit(s[0]) then [s[0]] + LeadingDigits(s[1..]) else ""
  }

  /** The value of a string of decimal digits. */
  function DigitsValue(d: string): nat
    requires forall i :: 0 <= i < |d| ==> IsDigit(d[i])
  {
    if d == "" then 0
    else
      assert IsDigit(d[|d| - 1]);
      DigitsValue(d[..|d| - 1]) * 10 + (d[|d| - 1] as int - '0' as int)
  }

  /** parseInt(s, 10): skip leading white space, read an optional sign and the longest run
      of decimal digits; NaN when there is no digit. */
  function ParseInt(s: string): JsInt {
    var t := TrimStart(s);
    var negative := |t| > 0 && t[0] == '-';
    var body := if |t| > 0 && (t[0] == '-' || t[0] == '+') then t[1..] else t;
    var d := LeadingDigits(body);
    if d == "" then NaN
    else Int(if negative then -(DigitsValue(d) as int) else DigitsValue(d))
  }

  /** The decimal rendering of a natural number, as String(n) gives it. */
  function DecimalString(n: nat): (r: string)
    ensures |r| > 0 && forall i :: 0 <= i < |r| ==> IsDigit(r[i])
  {
    if n < 10 then [('0' as int + n) as char]
    else DecimalString(n / 10) + [('0' as int + n % 10) as char]
  }

  lemma {:induction false} DigitsValueOfDecimal(n: nat)
    ensures DigitsValue(DecimalString(n)) == n
  {
    if n >= 10 {
      var d := DecimalString(n);
      assert d[..|d| - 1] == DecimalString(n / 10);
      DigitsValueOfDecimal(n / 10);
    }
  }

  lemma LeadingDigitsAll(d: string)
    requires forall i :: 0 <= i < |d| ==> IsDigit(d[i])
    ensures LeadingDigits(d) == d
  {
    if |d| > 0 {
      LeadingDigitsAll(d[1..]);
    }
  }

  /** parseInt inverts String for natural numbers. */
  lemma ParseIntOfDecimal(n: nat)
    ensures ParseInt(DecimalString(n)) == Int(n)
  {
    var s := DecimalString(n);
    assert IsDigit(s[0]);
    assert !IsJsSpace(s[0]);
    assert TrimStart(s) == s;
    assert s[0] != '-' && s[0] != '+';
    LeadingDigitsAll(s);
    DigitsValueOfDecimal(n);
  }

  lemma ParseIntNoDigit(s: string)
    requires forall i :: 0 <= i < |s| ==> !IsDigit(s[i])
    ensures ParseInt(s) == NaN
  {
    var t := TrimStart(s);
    var body := if |t| > 0 && (t[0] == '-' || t[0] == '+') then t[1..] else t;
    assert forall i :: 0 <= i < |body| ==> !IsDigit(body[i]);
  }
}
