/** The string operations the JavaScript source relies on: trim, toLowerCase,
    prefix/suffix tests, join and the order that `<` and Array.prototype.sort use.
    A Dafny `char` is one character (a Unicode scalar value); it agrees with JavaScript's
    UTF-16 code units inside the Basic Multilingual Plane. */
module Text {
  import opened Wrappers

  /** The characters String.prototype.trim removes: ECMAScript WhiteSpace and LineTerminator. */
  predicate IsSpace(c: char) {
    var k := c as int;
    k == 0x09 || k == 0x0A || k == 0x0B || k == 0x0C || k == 0x0D || k == 0x20 ||
    k == 0xA0 || k == 0x1680 || (0x2000 <= k <= 0x200A) || k == 0x2028 || k == 0x2029 ||
    k == 0x202F || k == 0x205F || k == 0x3000 || k == 0xFEFF
  }

  /** Leading white space removed. */
  function TrimStart(s: string): (r: string)
    ensures |r| <= |s| && r == s[|s| - |r|..]
    ensures forall i :: 0 <= i < |s| - |r| ==> IsSpace(s[i])
    ensures r != [] ==> !IsSpace(r[0])
  {
    if s != [] && IsSpace(s[0]) then TrimStart(s[1..]) else s
  }

  /** Trailing white space removed. */
  function TrimEnd(s: string): (r: string)
    ensures |r| <= |s| && r == s[..|r|]
    ensures forall i :: |r| <= i < |s| ==> IsSpace(s[i])
    ensures r != [] ==> !IsSpace(r[|r| - 1])
  {
    if s != [] && IsSpace(s[|s| - 1]) then TrimEnd(s[..|s| - 1]) else s
  }

  /** String.prototype.trim. */
  function Trim(s: string): string {
    TrimEnd(TrimStart(s))
  }

  /** Trim leaves no white space at either end of its result. */
  lemma TrimEnds(s: string)
    ensures Trim(s) != [] ==> !IsSpace(Trim(s)[0]) && !IsSpace(Trim(s)[|Trim(s)| - 1])
  {
    var a := TrimStart(s);
    var b := TrimEnd(a);
    if b != [] {
      assert b[0] == a[0];
    }
  }

  /** Trim cuts away exactly the white space at both ends: it returns the one infix
      s[i..j] that has only white space outside it and none at its own ends. */
  lemma TrimIsInfix(s: string) returns (i: nat, j: nat)
    ensures i <= j <= |s| && Trim(s) == s[i..j]
    ensures forall k :: 0 <= k < i ==> IsSpace(s[k])
    ensures forall k :: j <= k < |s| ==> IsSpace(s[k])
    ensures Trim(s) != [] ==> !IsSpace(Trim(s)[0]) && !IsSpace(Trim(s)[|Trim(s)| - 1])
  {
    var a := TrimStart(s);
    var b := TrimEnd(a);
    i := |s| - |a|;
    j := i + |b|;
    assert b == s[i..j] by {
      assert a == s[i..];
      assert b == a[..|b|];
    }
    forall k | j <= k < |s| ensures IsSpace(s[k]) {
      assert s[k] == a[k - i];
      assert IsSpace(a[k - i]);
    }
    TrimEnds(s);
  }

  /** A string with no white space at either end is left alone by Trim. */
  lemma TrimOfTrimmed(s: string)
    requires s != [] ==> !IsSpace(s[0]) && !IsSpace(s[|s| - 1])
    ensures Trim(s) == s
  {
  }

  /** String.prototype.toLowerCase on one character; only ASCII letters are mapped. */
  function Lower(c: char): (d: char)
    ensures 'A' <= c <= 'Z' ==> 'a' <= d <= 'z' && d as int - 'a' as int == c as int - 'A' as int
    ensures !('A' <= c <= 'Z') ==> d == c
    ensures IsSpace(d) <==> IsSpace(c)
    ensures !('A' <= d <= 'Z')
  {
    if 'A' <= c <= 'Z' then (c as int + 32) as char else c
  }

  function ToLower(s: string): (r: string)
    ensures |r| == |s|
    ensures forall i :: 0 <= i < |s| ==> r[i] == Lower(s[i])
  {
    seq(|s|, i requires 0 <= i < |s| => Lower(s[i]))
  }

  /** Lower-casing twice is lower-casing once. */
  lemma ToLowerIdempotent(s: string)
    ensures ToLower(ToLower(s)) == ToLower(s)
  {
  }

  /** normalize / normalizeType: a string trimmed and lower-cased; anything else the empty string. */
  function Normalize(v: Option<string>): string {
    if v.Some? then ToLower(Trim(v.value)) else ""
  }

  /** Normalizing an already normalized string changes nothing. */
  lemma NormalizeIdempotent(v: Option<string>)
    ensures Normalize(Some(Normalize(v))) == Normalize(v)
  {
    if v.Some? {
      var u := Trim(v.value);
      TrimEnds(v.value);
      var t := ToLower(u);
      assert t != [] ==> !IsSpace(t[0]) && !IsSpace(t[|t| - 1]);
      TrimOfTrimmed(t);
      ToLowerIdempotent(u);
    }
  }

  /** String.prototype.startsWith. */
  predicate StartsWith(s: string, prefix: string) {
    |prefix| <= |s| && s[..|prefix|] == prefix
  }

  /** String.prototype.endsWith. */
  predicate EndsWith(s: string, suffix: string) {
    |suffix| <= |s| && s[|s| - |suffix|..] == suffix
  }

  /** Array.prototype.join. */
  function Join(parts: seq<string>, sep: string): string
  {
    if |parts| == 0 then "" else if |parts| == 1 then parts[0] else parts[0] + sep + Join(parts[1..], sep)
  }

  /** JavaScript's `a < b` on strings: lexicographic order by character (by code unit in
      JavaScript, the same inside the Basic Multilingual Plane), a proper prefix first. */
  predicate LexLess(a: string, b: string) {
    if a == [] then b != []
    else if b == [] then false
    else if a[0] != b[0] then a[0] < b[0]
    else LexLess(a[1..], b[1..])
  }

  lemma {:induction false} LexLessIrreflexive(a: string)
    ensures !LexLess(a, a)
  {
    if a != [] {
      LexLessIrreflexive(a[1..]);
    }
  }

  lemma {:induction false} LexLessTransitive(a: string, b: string, c: string)
    requires LexLess(a, b) && LexLess(b, c)
    ensures LexLess(a, c)
  {
    if a != [] && b != [] && c != [] && a[0] == b[0] == c[0] {
      LexLessTransitive(a[1..], b[1..], c[1..]);
    }
  }

  lemma {:induction false} LexLessTotal(a: string, b: string)
    ensures a == b || LexLess(a, b) || LexLess(b, a)
  {
    if a != [] && b != [] && a[0] == b[0] {
      LexLessTotal(a[1..], b[1..]);
      if a[1..] == b[1..] {
        assert a == [a[0]] + a[1..] && b == [b[0]] + b[1..];
      }
    }
  }

  lemma LexLessAsymmetric(a: string, b: string)
    requires LexLess(a, b)
    ensures !LexLess(b, a)
  {
    if LexLess(b, a) {
      LexLessTransitive(a, b, a);
      LexLessIrreflexive(a);
    }
  }

  /** The first element of a non-empty list after a default sort. */
  function LexMin(s: seq<string>): (m: string)
    requires |s| > 0
    ensures m in s
    ensures forall x :: x in s ==> x == m || LexLess(m, x)
  {
    if |s| == 1 then s[0]
    else
      var rest := LexMin(s[1..]);
      var m := if LexLess(s[0], rest) then s[0] else rest;
      LexMinStep(s, rest, m);
      m
  }

  lemma LexMinStep(s: seq<string>, rest: string, m: string)
    requires |s| > 1 && rest in s[1..]
    requires forall x :: x in s[1..] ==> x == rest || LexLess(rest, x)
    requires m == if LexLess(s[0], rest) then s[0] else rest
    ensures m in s
    ensures forall x :: x in s ==> x == m || LexLess(m, x)
  {
    assert s == [s[0]] + s[1..];
    LexLessTotal(s[0], rest);
    forall x | x in s && x != m ensures LexLess(m, x) {
      if x in s[1..] && x != rest {
        if LexLess(s[0], rest) { LexLessTransitive(s[0], rest, x); }
      }
    }
  }

  /** The last element of a non-empty list after a default sort. */
  function LexMax(s: seq<string>): (m: string)
    requires |s| > 0
    ensures m in s
    ensures forall x :: x in s ==> x == m || LexLess(x, m)
  {
    if |s| == 1 then s[0]
    else
      var rest := LexMax(s[1..]);
      var m := if LexLess(rest, s[0]) then s[0] else rest;
      LexMaxStep(s, rest, m);
      m
  }

  lemma LexMaxStep(s: seq<string>, rest: string, m: string)
    requires |s| > 1 && rest in s[1..]
    requires forall x :: x in s[1..] ==> x == rest || LexLess(x, rest)
    requires m == if LexLess(rest, s[0]) then s[0] else rest
    ensures m in s
    ensures forall x :: x in s ==> x == m || LexLess(x, m)
  {
    assert s == [s[0]] + s[1..];
    LexLessTotal(s[0], rest);
    forall x | x in s && x != m ensures LexLess(x, m) {
      if x in s[1..] && x != rest {
        if LexLess(rest, s[0]) { LexLessTransitive(x, rest, s[0]); }
      }
    }
  }
}
