/** Ordering used by the backend: a stable descending sort by key (Python
    `list.sort(key=..., reverse=True)`, and SQL `ORDER BY ... DESC`) and the
    code-point lexicographic order Python uses to compare strings. */
module Ordering {

  /** `le` is total and transitive, so it can order any sequence. */
  ghost predicate TotalPreorder<T(!new)>(le: (T, T) -> bool) {
    && (forall a, b :: le(a, b) || le(b, a))
    && (forall a, b, c :: le(a, b) && le(b, c) ==> le(a, c))
  }

  /** Every element is at least as large as every later one. */
  predicate SortedDesc<T>(s: seq<T>, le: (T, T) -> bool) {
    forall i, j :: 0 <= i < j < |s| ==> le(s[j], s[i])
  }

  /** Every element of `s` is at most `top`. */
  predicate Below<T>(s: seq<T>, top: T, le: (T, T) -> bool) {
    forall k :: 0 <= k < |s| ==> le(s[k], top)
  }

  /** A sorted sequence under its bound stays sorted with the bound in front. */
  lemma ConsSorted<T>(top: T, s: seq<T>, le: (T, T) -> bool)
    requires SortedDesc(s, le) && Below(s, top, le)
    ensures SortedDesc([top] + s, le)
  {
    var r := [top] + s;
    forall i, j | 0 <= i < j < |r|
      ensures le(r[j], r[i])
    {
      if i > 0 {
        assert r[i] == s[i - 1] && r[j] == s[j - 1];
      } else {
        assert r[j] == s[j - 1];
      }
    }
  }

  /** Being below a bound depends only on the elements, not their order. */
  lemma BelowByElements<T>(t: seq<T>, s: seq<T>, top: T, le: (T, T) -> bool)
    requires multiset(t) <= multiset(s) && Below(s, top, le)
    ensures Below(t, top, le)
  {
    forall k | 0 <= k < |t|
      ensures le(t[k], top)
    {
      assert t[k] in multiset(t);
      assert t[k] in s;
    }
  }

  /** In a sorted sequence the head bounds every element. */
  lemma HeadBounds<T(!new)>(s: seq<T>, le: (T, T) -> bool)
    requires TotalPreorder(le) && SortedDesc(s, le) && s != []
    ensures Below(s, s[0], le)
  {
    assert le(s[0], s[0]);
  }

  /** The tail of a sorted sequence is sorted. */
  lemma TailSorted<T>(s: seq<T>, le: (T, T) -> bool)
    requires SortedDesc(s, le) && s != []
    ensures SortedDesc(s[1..], le)
  {
    forall i, j | 0 <= i < j < |s| - 1
      ensures le(s[1..][j], s[1..][i])
    {
      assert s[1..][i] == s[i + 1] && s[1..][j] == s[j + 1];
    }
  }

  /** Place `x` in front of the first element of `s` that is not above it. */
  function InsertDesc<T(!new)>(x: T, s: seq<T>, le: (T, T) -> bool): (r: seq<T>)
    requires TotalPreorder(le)
    requires SortedDesc(s, le)
    ensures SortedDesc(r, le)
    ensures multiset(r) == multiset(s) + multiset{x}
    ensures |r| == |s| + 1
  {
    if s == [] then [x]
    else if le(s[0], x) then
      InsertFront(x, s, le);
      [x] + s
    else
      var t := InsertDesc(x, s[1..], le);
      InsertBehind(x, s, t, le);
      [s[0]] + t
  }

  /** `x` goes in front when the head is not above it. */
  lemma InsertFront<T(!new)>(x: T, s: seq<T>, le: (T, T) -> bool)
    requires TotalPreorder(le) && SortedDesc(s, le) && s != [] && le(s[0], x)
    ensures SortedDesc([x] + s, le)
    ensures multiset([x] + s) == multiset(s) + multiset{x}
  {
    HeadBounds(s, le);
    assert Below(s, x, le);
    ConsSorted(x, s, le);
  }

  /** Otherwise the head stays in front of the rest with `x` inserted. */
  lemma InsertBehind<T(!new)>(x: T, s: seq<T>, t: seq<T>, le: (T, T) -> bool)
    requires TotalPreorder(le) && SortedDesc(s, le) && s != [] && !le(s[0], x)
    requires SortedDesc(t, le) && multiset(t) == multiset(s[1..]) + multiset{x}
    ensures SortedDesc([s[0]] + t, le)
    ensures multiset([s[0]] + t) == multiset(s) + multiset{x}
  {
    assert s == [s[0]] + s[1..];
    HeadBounds(s, le);
    assert Below(s[1..] + [x], s[0], le);
    assert multiset(t) == multiset(s[1..] + [x]);
    BelowByElements(t, s[1..] + [x], s[0], le);
    ConsSorted(s[0], t, le);
  }

  /** Insertion sort, descending under `le`; earlier elements stay ahead of
      later equal ones, as Python's stable `sort(reverse=True)` keeps them. */
  function SortDesc<T(!new)>(s: seq<T>, le: (T, T) -> bool): (r: seq<T>)
    requires TotalPreorder(le)
    ensures SortedDesc(r, le)
    ensures multiset(r) == multiset(s)
    ensures |r| == |s|
  {
    if s == [] then []
    else
      assert s == [s[0]] + s[1..];
      InsertDesc(s[0], SortDesc(s[1..], le), le)
  }

  /** Python's `<=` on strings: code-point lexicographic order, where a
      proper prefix comes first. */
  predicate LexLe(a: string, b: string) {
    a == [] || (b != [] && (a[0] < b[0] || (a[0] == b[0] && LexLe(a[1..], b[1..]))))
  }

  lemma {:induction false} LexLeTotal(a: string, b: string)
    ensures LexLe(a, b) || LexLe(b, a)
  {
    if a != [] && b != [] && a[0] == b[0] {
      LexLeTotal(a[1..], b[1..]);
    }
  }

  lemma {:induction false} LexLeTransitive(a: string, b: string, c: string)
    requires LexLe(a, b) && LexLe(b, c)
    ensures LexLe(a, c)
  {
    if a != [] && b != [] && c != [] && a[0] == b[0] && b[0] == c[0] {
      LexLeTransitive(a[1..], b[1..], c[1..]);
    }
  }

  lemma {:induction false} LexLeAntisymmetric(a: string, b: string)
    requires LexLe(a, b) && LexLe(b, a)
    ensures a == b
  {
    if a != [] && b != [] {
      LexLeAntisymmetric(a[1..], b[1..]);
      assert a == [a[0]] + a[1..] && b == [b[0]] + b[1..];
    }
  }

  /** Comparing values by a string key is a total preorder. */
  lemma KeyOrderIsTotal<T(!new)>(key: T -> string)
    ensures TotalPreorder((x: T, y: T) => LexLe(key(x), key(y)))
  {
    forall x: T, y: T
      ensures LexLe(key(x), key(y)) || LexLe(key(y), key(x))
    {
      LexLeTotal(key(x), key(y));
    }
    forall x: T, y: T, z: T | LexLe(key(x), key(y)) && LexLe(key(y), key(z))
      ensures LexLe(key(x), key(z))
    {
      LexLeTransitive(key(x), key(y), key(z));
    }
  }
}
