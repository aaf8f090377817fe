/** A stable insertion sort by a total preorder, the model of Java's
    `Stream.sorted(Comparator)` (a stable sort) used by the query services and of
    Cypher's ORDER BY. */
module Sorting {

  /** `le` is total and transitive: a comparator that never throws. */
  ghost predicate TotalPreorder<T(!new)>(le: (T, T) -> bool) {
    && (forall a, b :: le(a, b) || le(b, a))
    && (forall a, b, c :: le(a, b) && le(b, c) ==> le(a, c))
  }

  predicate SortedBy<T>(s: seq<T>, le: (T, T) -> bool) {
    forall i, j :: 0 <= i < j < |s| ==> le(s[i], s[j])
  }

  /** Inserts `x` in front of the first element it is not greater than. */
  function Insert<T(!new)>(x: T, s: seq<T>, le: (T, T) -> bool): (r: seq<T>)
    requires TotalPreorder(le)
    requires SortedBy(s, le)
    ensures multiset(r) == multiset(s) + multiset{x}
    ensures SortedBy(r, le)
  {
    if s == [] || le(x, s[0]) then
      assert forall j :: 0 <= j < |s| ==> le(x, s[j]) by {
        forall j | 0 <= j < |s| ensures le(x, s[j]) {
          if j > 0 { assert le(s[0], s[j]); }
        }
      }
      [x] + s
    else
      var rest := Insert(x, s[1..], le);
      HeadBeforeInserted(x, s, rest, le);
      assert s == [s[0]] + s[1..];
      [s[0]] + rest
  }

  /** When `x` goes after the head, the head comes before everything the rest
      of the insertion holds. */
  lemma HeadBeforeInserted<T(!new)>(x: T, s: seq<T>, rest: seq<T>, le: (T, T) -> bool)
    requires TotalPreorder(le) && SortedBy(s, le) && |s| > 0 && !le(x, s[0])
    requires multiset(rest) == multiset(s[1..]) + multiset{x}
    ensures forall j :: 0 <= j < |rest| ==> le(s[0], rest[j])
  {
    assert le(s[0], x);
    forall j | 0 <= j < |rest| ensures le(s[0], rest[j]) {
      assert rest[j] in multiset(rest);
      if rest[j] != x {
        assert rest[j] in multiset(s[1..]);
        var k :| 0 <= k < |s[1..]| && s[1..][k] == rest[j];
        assert s[k + 1] == rest[j];
      }
    }
  }

  /** Sorts `s` by `le`; of two equal elements the earlier stays first. */
  function SortBy<T(!new)>(s: seq<T>, le: (T, T) -> bool): (r: seq<T>)
    requires TotalPreorder(le)
    ensures multiset(r) == multiset(s)
    ensures SortedBy(r, le)
    ensures |r| == |s|
  {
    if s == [] then []
    else
      assert s == [s[0]] + s[1..];
      Insert(s[0], SortBy(s[1..], le), le)
  }

  /** Sorting a sequence that is already sorted leaves it as it is. */
  lemma {:induction false} SortBySortedIsIdentity<T(!new)>(s: seq<T>, le: (T, T) -> bool)
    requires TotalPreorder(le)
    requires SortedBy(s, le)
    ensures SortBy(s, le) == s
  {
    if s != [] {
      SortBySortedIsIdentity(s[1..], le);
      assert s == [s[0]] + s[1..];
    }
  }

  /** String.compareTo(a, b) <= 0: lexicographic order by character, a proper
      prefix first. */
  predicate StrLe(a: string, b: string) {
    |a| == 0 || (|b| > 0 && (a[0] < b[0] || (a[0] == b[0] && StrLe(a[1..], b[1..]))))
  }

  lemma {:induction false} StrLeTotal(a: string, b: string)
    ensures StrLe(a, b) || StrLe(b, a)
  {
    if |a| > 0 && |b| > 0 && a[0] == b[0] {
      StrLeTotal(a[1..], b[1..]);
    }
  }

  lemma {:induction false} StrLeTrans(a: string, b: string, c: string)
    requires StrLe(a, b) && StrLe(b, c)
    ensures StrLe(a, c)
  {
    if |a| > 0 && a[0] == b[0] && b[0] == c[0] {
      StrLeTrans(a[1..], b[1..], c[1..]);
    }
  }

  /** Two strings each at most the other are equal. */
  lemma {:induction false} StrLeAntisymmetric(a: string, b: string)
    requires StrLe(a, b) && StrLe(b, a)
    ensures a == b
  {
    if |a| > 0 {
      StrLeAntisymmetric(a[1..], b[1..]);
      assert a == [a[0]] + a[1..] && b == [b[0]] + b[1..];
    }
  }

  /** Comparator.comparing(DataAdapterConfig::getId). */

  /** A non-empty finite set of strings has a least element. */
  lemma {:induction false} LeastStringExists(s: set<string>, w: string)
    requires w in s
    ensures exists m :: m in s && forall y :: y in s ==> StrLe(m, y)
    decreases s
  {
    var rest := s - {w};
    StrLeTotal(w, w);
    if exists v :: v in rest {
      var v :| v in rest;
      LeastStringExists(rest, v);
      var m :| m in rest && forall y :: y in rest ==> StrLe(m, y);
      StrLeTotal(m, w);
      if StrLe(m, w) {
        forall y | y in s ensures StrLe(m, y) {
          if y != w { assert y in rest; }
        }
      } else {
        forall y | y in s ensures StrLe(w, y) {
          if y != w {
            assert y in rest;
            StrLeTrans(w, m, y);
          }
        }
      }
    } else {
      forall y | y in s ensures StrLe(w, y) {
        assert y == w || y in rest;
      }
    }
  }

  /** Two strings each at most the other are equal, for all strings. */
  lemma StrLeIsAntisymmetric()
    ensures forall a, b :: StrLe(a, b) && StrLe(b, a) ==> a == b
  {
    forall a, b | StrLe(a, b) && StrLe(b, a) ensures a == b {
      StrLeAntisymmetric(a, b);
    }
  }

  /** A set of strings in ascending order: rows the store returns in an
      unspecified order are listed by id. */
  function OrderedStrings(s: set<string>): (r: seq<string>)
    ensures forall x :: x in r <==> x in s
    ensures |r| == |s|
    ensures forall i, j :: 0 <= i < j < |r| ==> StrLe(r[i], r[j]) && r[i] != r[j]
    decreases s
  {
    if exists w :: w in s then
      var m := LeastString(s);
      var rest := OrderedStrings(s - {m});
      PrependLeastBy(m, rest, s, StrLe);
      [m] + rest
    else
      assert s == {};
      []
  }

  /** The least element of a non-empty set of strings. */
  function LeastString(s: set<string>): (m: string)
    requires exists w :: w in s
    ensures m in s && forall y :: y in s ==> StrLe(m, y)
  {
    var w :| w in s;
    LeastStringExists(s, w);
    StrLeIsAntisymmetric();
    var m :| m in s && forall y :: y in s ==> StrLe(m, y);
    m
  }

  /** The least element by `le` followed by the others in strict order lists
      the whole set in strict order. */
  lemma PrependLeastBy<T>(m: T, rest: seq<T>, s: set<T>, le: (T, T) -> bool)
    requires m in s && forall y :: y in s ==> le(m, y)
    requires forall x :: x in rest <==> x in s - {m}
    requires |rest| == |s - {m}|
    requires forall i, j :: 0 <= i < j < |rest| ==> le(rest[i], rest[j]) && rest[i] != rest[j]
    ensures forall x :: x in [m] + rest <==> x in s
    ensures |[m] + rest| == |s|
    ensures forall i, j :: 0 <= i < j < |[m] + rest| ==> le(([m] + rest)[i], ([m] + rest)[j]) && ([m] + rest)[i] != ([m] + rest)[j]
  {
    var listed := [m] + rest;
    forall i, j | 0 <= i < j < |listed| ensures le(listed[i], listed[j]) && listed[i] != listed[j] {
      var y := rest[j - 1];
      assert listed[j] == y;
      if i == 0 {
        assert y in rest;
        assert y in s && y != m;
      } else {
        assert listed[i] == rest[i - 1];
      }
    }
  }

  /** A non-empty finite set of numbers has a least element. */
  lemma {:induction false} LeastIntExists(s: set<int>, w: int)
    requires w in s
    ensures exists m :: m in s && forall y :: y in s ==> m <= y
    decreases s
  {
    if exists v :: v in s - {w} {
      var v :| v in s - {w};
      LeastIntExists(s - {w}, v);
      var m :| m in s - {w} && forall y :: y in s - {w} ==> m <= y;
      LeastWithOneMore(s, w, m);
    } else {
      LeastWithOneMore(s, w, w);
    }
  }

  /** The least of `s` without `w`, or `w`, is the least of `s`. */
  lemma LeastWithOneMore(s: set<int>, w: int, m: int)
    requires w in s && m in s
    requires forall y :: y in s - {w} ==> m <= y
    ensures exists least :: least in s && forall y :: y in s ==> least <= y
  {
    var least := if m <= w then m else w;
    forall y | y in s ensures least <= y {
      if y != w { assert y in s - {w}; }
    }
  }

  /** A set of numbers in ascending order: rows listed by primary key. */
  function OrderedInts(s: set<int>): (r: seq<int>)
    ensures forall x :: x in r <==> x in s
    ensures |r| == |s|
    ensures forall i, j :: 0 <= i < j < |r| ==> r[i] < r[j]
    decreases s
  {
    if exists w :: w in s then
      var m := LeastInt(s);
      var rest := OrderedInts(s - {m});
      PrependLeast(m, rest, s);
      [m] + rest
    else
      assert s == {};
      []
  }

  /** The least element of a non-empty set of numbers. */
  function LeastInt(s: set<int>): (m: int)
    requires exists w :: w in s
    ensures m in s && forall y :: y in s ==> m <= y
  {
    var w :| w in s;
    LeastIntExists(s, w);
    var m :| m in s && forall y :: y in s ==> m <= y;
    m
  }

  /** The least element followed by the others in order lists the whole set in order. */
  lemma PrependLeast(m: int, rest: seq<int>, s: set<int>)
    requires m in s && forall y :: y in s ==> m <= y
    requires forall x :: x in rest <==> x in s - {m}
    requires |rest| == |s - {m}|
    requires forall i, j :: 0 <= i < j < |rest| ==> rest[i] < rest[j]
    ensures forall x :: x in [m] + rest <==> x in s
    ensures |[m] + rest| == |s|
    ensures forall i, j :: 0 <= i < j < |[m] + rest| ==> ([m] + rest)[i] < ([m] + rest)[j]
  {
    var listed := [m] + rest;
    forall i, j | 0 <= i < j < |listed| ensures listed[i] < listed[j] {
      assert listed[j] == rest[j - 1] && rest[j - 1] in rest;
      if i > 0 { assert listed[i] == rest[i - 1]; }
    }
  }
}
