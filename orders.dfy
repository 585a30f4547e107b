/**
 * The orders the filter engine arranges its working list by: the
 * lexicographic order of String.compareTo (the name comparator), a sort
 * specified by what it delivers (a sorted permutation; it stands for
 * Collections.sort, whose algorithm is not modelled), and the reversal
 * the engine performs with a stack.
 */
module Orders {

  /** `a` compares at most equal to `b` under String.compareTo: `a` is a
      prefix of `b`, or `a` holds the smaller character at the first
      position where the two differ. */
  predicate LexLe(a: string, b: string)
  {
    |a| == 0 || (|b| > 0 && (a[0] < b[0] || (a[0] == b[0] && LexLe(a[1..], b[1..]))))
  }

  lemma {:induction false} LexLeTotal(a: string, b: string)
    ensures LexLe(a, b) || LexLe(b, a)
  {
    if |a| > 0 && |b| > 0 && a[0] == b[0] {
      LexLeTotal(a[1..], b[1..]);
    }
  }

  lemma {:induction false} LexLeTransitive(a: string, b: string, c: string)
    requires LexLe(a, b) && LexLe(b, c)
    ensures LexLe(a, c)
  {
    if |a| > 0 && a[0] == b[0] && b[0] == c[0] {
      LexLeTransitive(a[1..], b[1..], c[1..]);
    }
  }

  lemma {:induction false} LexLeAntisymmetric(a: string, b: string)
    requires LexLe(a, b) && LexLe(b, a)
    ensures a == b
  {
    if |a| > 0 && |b| > 0 {
      LexLeAntisymmetric(a[1..], b[1..]);
      assert a == [a[0]] + a[1..];
      assert b == [b[0]] + b[1..];
    }
  }

  /** String.compareTo: the difference of the first pair of characters that
      differ, or else the difference of the lengths. */
  function CompareTo(a: string, b: string): (r: int)
    ensures a <= b ==> r == |a| - |b|
    ensures b <= a ==> r == |a| - |b|
  {
    if |a| == 0 || |b| == 0 then |a| - |b|
    else if a[0] != b[0] then a[0] as int - b[0] as int
    else CompareTo(a[1..], b[1..])
  }

  /** The name comparator puts `a` no later than `b` exactly when `a` is
      lexicographically at most `b`, and reports equality exactly for equal
      strings. */
  lemma {:induction false} CompareToIsLexLe(a: string, b: string)
    ensures CompareTo(a, b) <= 0 <==> LexLe(a, b)
    ensures CompareTo(a, b) == 0 <==> a == b
    ensures CompareTo(b, a) == -CompareTo(a, b)
  {
    if |a| > 0 && |b| > 0 {
      CompareToIsLexLe(a[1..], b[1..]);
      assert a == [a[0]] + a[1..];
      assert b == [b[0]] + b[1..];
    }
  }

  /** `le` behaves like a comparator's "compare(a, b) <= 0": total and transitive. */
  ghost predicate TotalPreorder(le: (string, string) -> bool)
  {
    (forall a, b :: le(a, b) || le(b, a)) &&
    (forall a, b, c :: le(a, b) && le(b, c) ==> le(a, c))
  }

  ghost predicate SortedBy(s: seq<string>, le: (string, string) -> bool)
  {
    forall i, j :: 0 <= i < j < |s| ==> le(s[i], s[j])
  }

  lemma SortedTail(s: seq<string>, le: (string, string) -> bool)
    requires SortedBy(s, le) && s != []
    ensures SortedBy(s[1..], le)
  {
    forall i, j | 0 <= i < j < |s| - 1
      ensures le(s[1..][i], s[1..][j])
    {
      assert s[1..][i] == s[i + 1] && s[1..][j] == s[j + 1];
    }
  }

  lemma SortedCons(h: string, t: seq<string>, le: (string, string) -> bool)
    requires SortedBy(t, le) && forall k :: 0 <= k < |t| ==> le(h, t[k])
    ensures SortedBy([h] + t, le)
  {
    var r := [h] + t;
    forall i, j | 0 <= i < j < |r|
      ensures le(r[i], r[j])
    {
      assert r[j] == t[j - 1];
      if i > 0 {
        assert r[i] == t[i - 1];
      }
    }
  }

  /** Everything an insertion after the head of `s` produces stays at or
      above that head. */
  lemma InsertedAfterHead(x: string, s: seq<string>, t: seq<string>, le: (string, string) -> bool)
    requires TotalPreorder(le) && SortedBy(s, le) && s != [] && !le(x, s[0])
    requires multiset(t) == multiset(s[1..]) + multiset{x}
    ensures forall k :: 0 <= k < |t| ==> le(s[0], t[k])
  {
    forall k | 0 <= k < |t|
      ensures le(s[0], t[k])
    {
      assert t[k] in multiset(t);
      if t[k] != x {
        assert t[k] in multiset(s[1..]);
        var m :| 0 <= m < |s[1..]| && s[1..][m] == t[k];
        assert s[m + 1] == t[k];
      }
    }
  }

  /** Inserts `x` into the sorted `s`. */
  function Insert(x: string, s: seq<string>, le: (string, string) -> bool): (r: seq<string>)
    requires TotalPreorder(le) && SortedBy(s, le)
    ensures multiset(r) == multiset(s) + multiset{x}
    ensures SortedBy(r, le)
  {
    if s == [] || le(x, s[0]) then
      [x] + s
    else
      SortedTail(s, le);
      var t := Insert(x, s[1..], le);
      assert s == [s[0]] + s[1..];
      InsertedAfterHead(x, s, t, le);
      SortedCons(s[0], t, le);
      [s[0]] + t
  }

  /** A sorted permutation of `s` under `le`; ties come out in no promised order. */
  function SortBy(s: seq<string>, le: (string, string) -> bool): (r: seq<string>)
    requires TotalPreorder(le)
    ensures multiset(r) == multiset(s)
    ensures SortedBy(r, le)
  {
    if s == [] then []
    else
      assert s == [s[0]] + s[1..];
      Insert(s[0], SortBy(s[1..], le), le)
  }

  lemma NameOrderIsTotalPreorder()
    ensures TotalPreorder(LexLe)
  {
    forall a, b
      ensures LexLe(a, b) || LexLe(b, a)
    {
      LexLeTotal(a, b);
    }
    forall a, b, c | LexLe(a, b) && LexLe(b, c)
      ensures LexLe(a, c)
    {
      LexLeTransitive(a, b, c);
    }
  }

  /** Ascending under the name comparator. */
  ghost predicate NameSorted(s: seq<string>)
  {
    forall i, j :: 0 <= i < j < |s| ==> LexLe(s[i], s[j])
  }

  /** Collections.sort(list, new nameComparator()). */
  function SortByName(s: seq<string>): (r: seq<string>)
    ensures multiset(r) == multiset(s)
    ensures NameSorted(r)
  {
    NameOrderIsTotalPreorder();
    SortBy(s, LexLe)
  }

  /** The head of a name-sorted list compares at most equal to each of its elements. */
  lemma NameSortedHeadIsLeast(s: seq<string>, x: string)
    requires NameSorted(s) && x in s
    ensures LexLe(s[0], x)
  {
    var i :| 0 <= i < |s| && s[i] == x;
    if i == 0 {
      LexLeTotal(x, x);
    }
  }

  lemma NameSortedTail(s: seq<string>)
    requires NameSorted(s) && s != []
    ensures NameSorted(s[1..])
  {
    forall i, j | 0 <= i < j < |s| - 1
      ensures LexLe(s[1..][i], s[1..][j])
    {
      assert s[1..][i] == s[i + 1] && s[1..][j] == s[j + 1];
    }
  }

  lemma TailMultiset(s: seq<string>)
    requires s != []
    ensures multiset(s[1..]) == multiset(s) - multiset{s[0]}
  {
    assert s == [s[0]] + s[1..];
  }

  /** Two name-sorted lists with the same elements are equal: sorting by
      name leaves nothing of the order the elements arrived in. */
  lemma {:induction false} NameSortedUnique(s: seq<string>, t: seq<string>)
    requires NameSorted(s) && NameSorted(t)
    requires multiset(s) == multiset(t)
    ensures s == t
  {
    assert |s| == |multiset(s)| == |multiset(t)| == |t|;
    if s != [] {
      assert s[0] in multiset(t) && t[0] in multiset(s);
      NameSortedHeadIsLeast(t, s[0]);
      NameSortedHeadIsLeast(s, t[0]);
      LexLeAntisymmetric(s[0], t[0]);
      TailMultiset(s);
      TailMultiset(t);
      NameSortedTail(s);
      NameSortedTail(t);
      NameSortedUnique(s[1..], t[1..]);
      assert s == [s[0]] + s[1..] && t == [t[0]] + t[1..];
    }
  }

  /** The list read from its end: what pushing every element onto a stack
      and popping them all off yields. */
  function Reversed(s: seq<string>): (r: seq<string>)
    ensures |r| == |s|
    ensures forall k :: 0 <= k < |s| ==> r[k] == s[|s| - 1 - k]
    ensures multiset(r) == multiset(s)
  {
    if s == [] then []
    else
      assert s == [s[0]] + s[1..];
      Reversed(s[1..]) + [s[0]]
  }
}
