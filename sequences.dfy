/**
 * Order-keeping selections from a sequence: what JavaScript's `filter`
 * and `slice(0, n)` produce, and the "first occurrence wins" de-duplication
 * `xs.filter((x, i, self) => self.indexOf(x) === i)`.
 */
module Sequences {

  /** `a` is obtained from `b` by deleting elements, keeping the order of the rest. */
  ghost predicate SubsequenceOf<T>(a: seq<T>, b: seq<T>)
    decreases |a| + |b|
  {
    if a == [] then true
    else if b == [] then false
    else (a[0] == b[0] && SubsequenceOf(a[1..], b[1..])) || SubsequenceOf(a, b[1..])
  }

  lemma {:induction false} SubsequenceTransitive<T>(a: seq<T>, b: seq<T>, c: seq<T>)
    requires SubsequenceOf(a, b) && SubsequenceOf(b, c)
    ensures SubsequenceOf(a, c)
    decreases |a| + |b| + |c|
  {
    if a == [] {
    } else if a[0] == b[0] && SubsequenceOf(a[1..], b[1..]) {
      if b[0] == c[0] && SubsequenceOf(b[1..], c[1..]) {
        SubsequenceTransitive(a[1..], b[1..], c[1..]);
      } else {
        SubsequenceTransitive(a, b, c[1..]);
      }
    } else {
      if b[0] == c[0] && SubsequenceOf(b[1..], c[1..]) {
        SubsequenceTransitive(a, b[1..], c[1..]);
      } else {
        SubsequenceTransitive(a, b, c[1..]);
      }
    }
  }

  lemma {:induction false} PrefixIsSubsequence<T>(b: seq<T>, k: nat)
    requires k <= |b|
    ensures SubsequenceOf(b[..k], b)
    decreases k
  {
    if k > 0 {
      PrefixIsSubsequence(b[1..], k - 1);
      assert b[..k][1..] == b[1..][..k - 1];
    }
  }

  /** Every element of a subsequence comes from the sequence. */
  lemma {:induction false} SubsequenceElements<T>(a: seq<T>, b: seq<T>)
    requires SubsequenceOf(a, b)
    ensures forall x :: x in a ==> x in b
    decreases |a| + |b|
  {
    if a == [] {
    } else if a[0] == b[0] && SubsequenceOf(a[1..], b[1..]) {
      SubsequenceElements(a[1..], b[1..]);
      assert a == [a[0]] + a[1..];
      assert b == [b[0]] + b[1..];
    } else {
      SubsequenceElements(a, b[1..]);
      assert b == [b[0]] + b[1..];
    }
  }

  ghost predicate NoDuplicates<T>(s: seq<T>) {
    forall i, j :: 0 <= i < j < |s| ==> s[i] != s[j]
  }

  /** The position of the first occurrence of `x` in `s` (`s.indexOf(x)`). */
  function FirstIndex<T(==)>(s: seq<T>, x: T): (k: nat)
    requires x in s
    ensures k < |s| && s[k] == x && x !in s[..k]
  {
    if s[0] == x then 0
    else
      assert s == [s[0]] + s[1..];
      var k := FirstIndex(s[1..], x);
      assert s[..k + 1] == [s[0]] + s[1..][..k];
      k + 1
  }

  /**
   * `xs.filter((x, i, self) => self.indexOf(x) === i)`: keeps the element at
   * position `i` exactly when `i` is its first occurrence.
   */
  function Dedupe<T(==)>(s: seq<T>): seq<T> {
    KeepFirstFrom(s, 0)
  }

  /** The filter above, run over positions `from` to the end. */
  function KeepFirstFrom<T(==)>(s: seq<T>, from: nat): seq<T>
    requires from <= |s|
    decreases |s| - from
  {
    if from == |s| then []
    else (if FirstIndex(s, s[from]) == from then [s[from]] else []) + KeepFirstFrom(s, from + 1)
  }

  lemma {:induction false} KeepFirstFromElements<T>(s: seq<T>, from: nat)
    requires from <= |s|
    ensures forall x :: x in KeepFirstFrom(s, from) ==> x in s && FirstIndex(s, x) >= from
    ensures forall x :: x in s && FirstIndex(s, x) >= from ==> x in KeepFirstFrom(s, from)
    decreases |s| - from
  {
    if from < |s| {
      KeepFirstFromElements(s, from + 1);
      var rest := KeepFirstFrom(s, from + 1);
      var r := KeepFirstFrom(s, from);
      if FirstIndex(s, s[from]) == from {
        assert r == [s[from]] + rest;
        forall x | x in s && FirstIndex(s, x) >= from ensures x in r {
          if FirstIndex(s, x) == from {
            assert r[0] == x;
          } else {
            assert x in rest;
          }
        }
      } else {
        assert r == rest;
        forall x | x in s && FirstIndex(s, x) >= from ensures x in r {
          assert FirstIndex(s, x) != from;
        }
      }
    }
  }

  /** The elements of `r` come from `s`, in the order of their first occurrences in `s`. */
  ghost predicate InFirstOccurrenceOrder<T>(r: seq<T>, s: seq<T>) {
    forall j, k :: 0 <= j < k < |r| ==> r[j] in s && r[k] in s && FirstIndex(s, r[j]) < FirstIndex(s, r[k])
  }

  /** Putting in front an element that occurs before all others keeps first-occurrence order. */
  lemma ConsFirstOccurrenceOrder<T>(x: T, rest: seq<T>, s: seq<T>)
    requires x in s && InFirstOccurrenceOrder(rest, s)
    requires forall y :: y in rest ==> y in s && FirstIndex(s, x) < FirstIndex(s, y)
    ensures InFirstOccurrenceOrder([x] + rest, s)
  {
    var r := [x] + rest;
    forall j, k | 0 <= j < k < |r|
      ensures r[j] in s && r[k] in s && FirstIndex(s, r[j]) < FirstIndex(s, r[k])
    {
      assert r[k] == rest[k - 1] && rest[k - 1] in rest;
      if j > 0 {
        assert r[j] == rest[j - 1];
      }
    }
  }

  lemma {:induction false} KeepFirstFromOrder<T>(s: seq<T>, from: nat)
    requires from <= |s|
    ensures InFirstOccurrenceOrder(KeepFirstFrom(s, from), s)
    decreases |s| - from
  {
    if from < |s| {
      KeepFirstFromOrder(s, from + 1);
      var rest := KeepFirstFrom(s, from + 1);
      if FirstIndex(s, s[from]) == from {
        KeepFirstFromElements(s, from + 1);
        ConsFirstOccurrenceOrder(s[from], rest, s);
        assert KeepFirstFrom(s, from) == [s[from]] + rest;
      } else {
        assert KeepFirstFrom(s, from) == rest;
      }
    }
  }

  lemma {:induction false} KeepFirstFromSubsequence<T>(s: seq<T>, from: nat)
    requires from <= |s|
    ensures SubsequenceOf(KeepFirstFrom(s, from), s[from..])
    decreases |s| - from
  {
    if from < |s| {
      KeepFirstFromSubsequence(s, from + 1);
      var rest := KeepFirstFrom(s, from + 1);
      var r := KeepFirstFrom(s, from);
      assert s[from..][1..] == s[from + 1..];
      if FirstIndex(s, s[from]) == from {
        assert r == [s[from]] + rest;
        assert r[1..] == rest;
      } else {
        assert r == rest;
        assert rest == [] || SubsequenceOf(rest, s[from..][1..]);
      }
    }
  }

  /**
   * De-duplication keeps every element once, drops nothing else, keeps the
   * order of the input, and lists the elements in the order of their first
   * occurrences.
   */
  lemma DedupeSpec<T>(s: seq<T>)
    ensures var r := Dedupe(s);
      && NoDuplicates(r)
      && (forall x :: x in r <==> x in s)
      && SubsequenceOf(r, s)
      && InFirstOccurrenceOrder(r, s)
  {
    KeepFirstFromElements(s, 0);
    KeepFirstFromOrder(s, 0);
    KeepFirstFromSubsequence(s, 0);
    assert s[0..] == s;
    var r := Dedupe(s);
    assert r == KeepFirstFrom(s, 0);
    forall i, j | 0 <= i < j < |r| ensures r[i] != r[j] {
      assert FirstIndex(s, r[i]) < FirstIndex(s, r[j]);
    }
  }
}
