/** Insertion-ordered sets held as sequences, and the two ways the source removes duplicates:
    `Set.prototype.add` one element at a time, and `filter((v, i) => s.indexOf(v) === i)`. */
module Seqs {

  predicate NoDup<T(==)>(s: seq<T>) {
    forall i, j :: 0 <= i < j < |s| ==> s[i] != s[j]
  }

  /** Set.prototype.add on an insertion-ordered set: a new element goes to the end. */
  function Add<T(==,!new)>(s: seq<T>, x: T): (r: seq<T>)
    ensures NoDup(s) ==> NoDup(r)
    ensures forall y :: y in r <==> y in s || y == x
  {
    if x in s then s else s + [x]
  }

  /** The set built by adding every element of `s` in turn. */
  function Dedup<T(==,!new)>(s: seq<T>): (r: seq<T>)
    ensures NoDup(r)
    ensures forall x :: x in r <==> x in s
  {
    if s == [] then [] else Add(Dedup(s[..|s| - 1]), s[|s| - 1])
  }

  lemma DedupSnoc<T(!new)>(s: seq<T>, x: T)
    ensures Dedup(s + [x]) == Add(Dedup(s), x)
  {
    assert (s + [x])[..|s|] == s;
  }

  /** Array.prototype.indexOf: the first index holding `x`, or -1. */
  function IndexOf<T(==)>(s: seq<T>, x: T): (i: int)
    ensures -1 <= i < |s|
    ensures i == -1 <==> x !in s
    ensures 0 <= i ==> s[i] == x && forall k :: 0 <= k < i ==> s[k] != x
  {
    if s == [] then -1
    else if s[0] == x then 0
    else
      var k := IndexOf(s[1..], x);
      if k == -1 then -1 else k + 1
  }

  /** Appending never moves the first occurrence of an element already present. */
  lemma IndexOfSnoc<T(!new)>(s: seq<T>, x: T, y: T)
    ensures y in s ==> IndexOf(s + [x], y) == IndexOf(s, y)
    ensures y !in s && y == x ==> IndexOf(s + [x], y) == |s|
  {
    var a, b := IndexOf(s, y), IndexOf(s + [x], y);
    if y in s {
      assert (s + [x])[a] == y;
    }
  }

  /** The elements of `s[..n]` whose first index is their own index, in order. */
  function FirstOccurrences<T(==)>(s: seq<T>, n: nat): seq<T>
    requires n <= |s|
  {
    if n == 0 then []
    else FirstOccurrences(s, n - 1) + (if IndexOf(s, s[n - 1]) == n - 1 then [s[n - 1]] else [])
  }

  /** `s.filter((v, i) => s.indexOf(v) === i)`. */
  function KeepFirst<T(==)>(s: seq<T>): seq<T> {
    FirstOccurrences(s, |s|)
  }

  lemma {:induction false} FirstOccurrencesIsDedup<T(!new)>(s: seq<T>, n: nat)
    requires n <= |s|
    ensures FirstOccurrences(s, n) == Dedup(s[..n])
  {
    if n > 0 {
      FirstOccurrencesIsDedup(s, n - 1);
      assert s[..n] == s[..n - 1] + [s[n - 1]];
      DedupSnoc(s[..n - 1], s[n - 1]);
      FirstIndexIsNew(s, n);
    }
  }

  /** The element at `n - 1` is its own first occurrence exactly when it is new there. */
  lemma FirstIndexIsNew<T(!new)>(s: seq<T>, n: nat)
    requires 0 < n <= |s|
    ensures IndexOf(s, s[n - 1]) == n - 1 <==> s[n - 1] !in s[..n - 1]
  {
    var x := s[n - 1];
    var i := IndexOf(s, x);
    if x in s[..n - 1] {
      var k :| 0 <= k < n - 1 && s[..n - 1][k] == x;
      assert s[k] == x;
    }
  }

  /** The indexOf filter and the insertion-ordered set give the same list. */
  lemma KeepFirstIsDedup<T(!new)>(s: seq<T>)
    ensures KeepFirst(s) == Dedup(s)
  {
    FirstOccurrencesIsDedup(s, |s|);
    assert s[..|s|] == s;
  }

  /** Dedup lists its elements in the order of their first occurrence. */
  lemma {:induction false} DedupOrder<T(!new)>(s: seq<T>)
    ensures forall i, j :: 0 <= i < j < |Dedup(s)| ==> IndexOf(s, Dedup(s)[i]) < IndexOf(s, Dedup(s)[j])
  {
    if s != [] {
      var p, x := s[..|s| - 1], s[|s| - 1];
      assert s == p + [x];
      DedupOrder(p);
      var d := Dedup(p);
      forall i, j | 0 <= i < j < |Dedup(s)|
        ensures IndexOf(s, Dedup(s)[i]) < IndexOf(s, Dedup(s)[j])
      {
        IndexOfSnoc(p, x, Dedup(s)[i]);
        IndexOfSnoc(p, x, Dedup(s)[j]);
        if j < |d| {
          assert Dedup(s)[i] == d[i] && Dedup(s)[j] == d[j];
        } else {
          assert Dedup(s)[j] == x && x !in p;
          assert Dedup(s)[i] == d[i] && d[i] in p;
        }
      }
    }
  }

  /** In a concatenation, an element of the first part is found in it, and an element only
      in the second part is found after the whole first part. */
  lemma IndexOfAppend<T(!new)>(x: seq<T>, y: seq<T>, e: T)
    ensures e in x ==> IndexOf(x + y, e) == IndexOf(x, e)
    ensures e !in x && e in y ==> IndexOf(x + y, e) == |x| + IndexOf(y, e)
  {
    if x != [] {
      assert (x + y)[1..] == x[1..] + y;
      IndexOfAppend(x[1..], y, e);
    } else {
      assert x + y == y;
    }
  }

  /** The indexOf filter keeps the elements in the order of their first occurrence. */
  lemma KeepFirstOrder<T(!new)>(s: seq<T>, a: T, b: T)
    requires a in s && b in s && IndexOf(s, a) < IndexOf(s, b)
    ensures a in KeepFirst(s) && b in KeepFirst(s)
    ensures IndexOf(KeepFirst(s), a) < IndexOf(KeepFirst(s), b)
  {
    KeepFirstIsDedup(s);
    var d := Dedup(s);
    var i, j := IndexOf(d, a), IndexOf(d, b);
    assert a != b && d[i] == a && d[j] == b;
    if j < i {
      DedupOrderAt(s, j, i);
    }
    assert i < j;
  }

  lemma DedupOrderAt<T(!new)>(s: seq<T>, i: nat, j: nat)
    requires i < j < |Dedup(s)|
    ensures IndexOf(s, Dedup(s)[i]) < IndexOf(s, Dedup(s)[j])
  {
    DedupOrder(s);
  }

  /** The first element is always kept. */
  lemma {:induction false} FirstOccurrencesHead<T(!new)>(s: seq<T>, n: nat)
    requires 0 < n <= |s|
    ensures |FirstOccurrences(s, n)| > 0 && FirstOccurrences(s, n)[0] == s[0]
  {
    if n > 1 {
      FirstOccurrencesHead(s, n - 1);
    }
  }

}
