/** The behaviour of the Python built-ins the overlap engine relies on, restated over
    `seq<char>`: `str.lower()` (on ASCII letters), the ordering `<=` on `str`
    (lexicographic on code points, a proper prefix first) and `sorted(list(s))` applied
    to a set of strings. */
module Strings {

  /** An ASCII capital letter: the only characters `Lower` changes. */
  predicate IsUpper(c: char) {
    'A' <= c <= 'Z'
  }

  function LowerChar(c: char): (d: char) {
    if IsUpper(c) then (c as int + 32) as char else c
  }

  /** `s.lower()`, restricted to ASCII: every capital letter becomes its small letter. */
  function Lower(s: string): (r: string)
    ensures |r| == |s|
    ensures forall i :: 0 <= i < |r| ==> !IsUpper(r[i])
    ensures forall i :: 0 <= i < |s| && !IsUpper(s[i]) ==> r[i] == s[i]
    ensures forall i :: 0 <= i < |s| && IsUpper(s[i]) ==> r[i] as int == s[i] as int + 32
  {
    seq(|s|, i requires 0 <= i < |s| => LowerChar(s[i]))
  }

  /** Two characters are the same letter up to case (an independent definition,
      written without `LowerChar`). */
  predicate SameLetterIgnoringCase(c: char, d: char) {
    || c == d
    || (IsUpper(c) && d as int == c as int + 32)
    || (IsUpper(d) && c as int == d as int + 32)
  }

  predicate EqualIgnoringCase(a: string, b: string) {
    |a| == |b| && forall i :: 0 <= i < |a| ==> SameLetterIgnoringCase(a[i], b[i])
  }

  /** Lower-casing is idempotent: an item that was already lower-cased is left alone. */
  lemma LowerIdempotent(s: string)
    ensures Lower(Lower(s)) == Lower(s)
  {
  }

  /** Two strings lower-case to the same item exactly when they differ only in the case
      of their letters. */
  lemma LowerEqIff(a: string, b: string)
    ensures Lower(a) == Lower(b) <==> EqualIgnoringCase(a, b)
  {
    if Lower(a) == Lower(b) {
      forall i | 0 <= i < |a|
        ensures SameLetterIgnoringCase(a[i], b[i])
      {
        assert Lower(a)[i] == Lower(b)[i];
      }
    }
    if EqualIgnoringCase(a, b) {
      forall i | 0 <= i < |a|
        ensures Lower(a)[i] == Lower(b)[i]
      {
        assert SameLetterIgnoringCase(a[i], b[i]);
      }
    }
  }

  /** Python's `a <= b` on `str`. */
  predicate Le(a: string, b: string)
    decreases |a|
  {
    |a| == 0 || (|b| > 0 && (a[0] < b[0] || (a[0] == b[0] && Le(a[1..], b[1..]))))
  }

  /** Python's `a < b` on `str`. */
  predicate Lt(a: string, b: string) {
    Le(a, b) && a != b
  }

  lemma {:induction false} LeReflexive(a: string)
    ensures Le(a, a)
    decreases |a|
  {
    if |a| > 0 {
      LeReflexive(a[1..]);
    }
  }

  lemma {:induction false} LeAntisymmetric(a: string, b: string)
    requires Le(a, b) && Le(b, a)
    ensures a == b
    decreases |a|
  {
    if |a| > 0 {
      LeAntisymmetric(a[1..], b[1..]);
      assert a == [a[0]] + a[1..];
      assert b == [b[0]] + b[1..];
    }
  }

  lemma {:induction false} LeTransitive(a: string, b: string, c: string)
    requires Le(a, b) && Le(b, c)
    ensures Le(a, c)
    decreases |a|
  {
    if |a| > 0 && a[0] == b[0] && b[0] == c[0] {
      LeTransitive(a[1..], b[1..], c[1..]);
    }
  }

  lemma {:induction false} LeTotal(a: string, b: string)
    ensures Le(a, b) || Le(b, a)
    decreases |a|
  {
    if |a| > 0 && |b| > 0 && a[0] == b[0] {
      LeTotal(a[1..], b[1..]);
    }
  }

  /** The items of a list, as the set Python's `set(list)` builds. */
  function Elems(q: seq<string>): (r: set<string>) {
    set x | x in q
  }

  predicate IsLeast(m: string, s: set<string>) {
    m in s && forall y :: y in s ==> Le(m, y)
  }

  predicate StrictlyAscending(q: seq<string>) {
    forall i, j :: 0 <= i < j < |q| ==> Lt(q[i], q[j])
  }

  lemma {:induction false} LeastExists(s: set<string>)
    requires s != {}
    ensures exists m :: IsLeast(m, s)
    decreases |s|
  {
    var x :| x in s;
    LeReflexive(x);
    if s - {x} == {} {
      assert s == {x};
      assert IsLeast(x, s);
    } else {
      LeastExists(s - {x});
      var m :| IsLeast(m, s - {x});
      LeTotal(x, m);
      if Le(x, m) {
        forall y | y in s
          ensures Le(x, y)
        {
          if y != x {
            LeTransitive(x, m, y);
          }
        }
        assert IsLeast(x, s);
      } else {
        assert IsLeast(m, s);
      }
    }
  }

  lemma LeastUnique(s: set<string>)
    ensures forall m, n :: IsLeast(m, s) && IsLeast(n, s) ==> m == n
  {
    forall m, n | IsLeast(m, s) && IsLeast(n, s)
      ensures m == n
    {
      LeAntisymmetric(m, n);
    }
  }

  /** The smallest string of a non-empty set, the first item `sorted` returns. */
  function Least(s: set<string>): (m: string)
    requires s != {}
    ensures m in s
    ensures forall y :: y in s ==> Le(m, y)
  {
    LeastExists(s);
    LeastUnique(s);
    var m :| IsLeast(m, s);
    m
  }

  /** `sorted(list(s))`: the items of `s` in ascending order, each once. */
  function Sort(s: set<string>): (r: seq<string>)
    ensures Elems(r) == s
    ensures |r| == |s|
    ensures StrictlyAscending(r)
    decreases |s|
  {
    if s == {} then []
    else
      var m := Least(s);
      var rest := Sort(s - {m});
      assert Elems([m] + rest) == {m} + Elems(rest) by {
        assert forall x :: x in [m] + rest <==> x == m || x in rest;
      }
      [m] + rest
  }

  /** A strictly ascending list holds each of its items once. */
  lemma AscendingIsDuplicateFree(q: seq<string>)
    requires StrictlyAscending(q)
    ensures forall i, j :: 0 <= i < |q| && 0 <= j < |q| && i != j ==> q[i] != q[j]
  {
    forall i, j | 0 <= i < |q| && 0 <= j < |q| && i != j
      ensures q[i] != q[j]
    {
      if i < j {
        assert Lt(q[i], q[j]);
      } else {
        assert Lt(q[j], q[i]);
      }
    }
  }

  /** `Sort(s)` is the only strictly ascending list whose items are those of `s`, so
      `sorted` is determined by the set alone, whatever order `list(s)` produced. */
  lemma {:induction false} SortUnique(s: set<string>, q: seq<string>)
    requires StrictlyAscending(q) && Elems(q) == s
    ensures q == Sort(s)
    decreases |q|
  {
    if q == [] {
      assert s == {};
    } else {
      assert q[0] in s;
      forall y | y in s
        ensures Le(q[0], y)
      {
        var j :| 0 <= j < |q| && q[j] == y;
        if j == 0 {
          LeReflexive(y);
        } else {
          assert Lt(q[0], q[j]);
        }
      }
      var m := Least(s);
      LeAntisymmetric(m, q[0]);
      var rest := q[1..];
      assert StrictlyAscending(rest) by {
        forall i, j | 0 <= i < j < |rest|
          ensures Lt(rest[i], rest[j])
        {
          assert rest[i] == q[i + 1] && rest[j] == q[j + 1];
        }
      }
      assert q[0] !in rest by {
        forall j | 0 <= j < |rest|
          ensures rest[j] != q[0]
        {
          assert Lt(q[0], q[j + 1]);
        }
      }
      assert q == [q[0]] + rest;
      assert Elems(rest) == s - {m};
      SortUnique(s - {m}, rest);
    }
  }

  lemma SortSingleton(a: string)
    ensures Sort({a}) == [a]
  {
    SortUnique({a}, [a]);
  }

  lemma SortPair(a: string, b: string)
    requires Lt(a, b)
    ensures Sort({a, b}) == [a, b]
  {
    SortUnique({a, b}, [a, b]);
  }
}
