/**
 * Array.prototype.sort with a comparator that is a total preorder: the sorted, stable permutation.
 * `leq(x, y)` says that the comparator does not put y strictly before x.
 */
module StableSort {

  ghost predicate TotalPreorder<T(!new)>(leq: (T, T) -> bool) {
    && (forall x, y :: leq(x, y) || leq(y, x))
    && (forall x, y, z :: leq(x, y) && leq(y, z) ==> leq(x, z))
  }

  predicate Ordered<T>(s: seq<T>, leq: (T, T) -> bool) {
    forall i, j :: 0 <= i < j < |s| ==> leq(s[i], s[j])
  }

  /** x goes after everything it does not precede. */
  function Inserted<T>(s: seq<T>, x: T, leq: (T, T) -> bool): seq<T> {
    if s == [] then [x]
    else if leq(s[|s| - 1], x) then s + [x]
    else Inserted(s[..|s| - 1], x, leq) + [s[|s| - 1]]
  }

  function SortBy<T>(s: seq<T>, leq: (T, T) -> bool): seq<T> {
    if s == [] then [] else Inserted(SortBy(s[..|s| - 1], leq), s[|s| - 1], leq)
  }

  function Mapped<T, U>(s: seq<T>, f: T -> U): seq<U> {
    seq(|s|, i requires 0 <= i < |s| => f(s[i]))
  }

  /** The entries that tie with x, in order. */
  function Ties<T>(s: seq<T>, x: T, leq: (T, T) -> bool): seq<T> {
    if s == [] then []
    else
      var last := s[|s| - 1];
      Ties(s[..|s| - 1], x, leq) + (if leq(x, last) && leq(last, x) then [last] else [])
  }

  lemma {:induction false} InsertedMembers<T>(s: seq<T>, y: T, leq: (T, T) -> bool, x: T)
    ensures x in Inserted(s, y, leq) <==> x in s || x == y
  {
    if s != [] {
      InsertedMembers(s[..|s| - 1], y, leq, x);
    }
  }

  lemma {:induction false} SortByMembers<T>(s: seq<T>, leq: (T, T) -> bool, x: T)
    ensures x in SortBy(s, leq) <==> x in s
  {
    if s != [] {
      SortByMembers(s[..|s| - 1], leq, x);
      InsertedMembers(SortBy(s[..|s| - 1], leq), s[|s| - 1], leq, x);
    }
  }

  lemma {:induction false} InsertedOrdered<T(!new)>(s: seq<T>, x: T, leq: (T, T) -> bool)
    requires TotalPreorder(leq) && Ordered(s, leq)
    ensures Ordered(Inserted(s, x, leq), leq)
  {
    if s != [] {
      var shorter, last := s[..|s| - 1], s[|s| - 1];
      if leq(last, x) {
        assert forall i :: 0 <= i < |s| ==> leq(s[i], last);
      } else {
        InsertedOrdered(shorter, x, leq);
        var inner := Inserted(shorter, x, leq);
        forall i | 0 <= i < |inner|
          ensures leq(inner[i], last)
        {
          InsertedMembers(shorter, x, leq, inner[i]);
        }
      }
    }
  }

  lemma MultisetSnoc<T>(s: seq<T>)
    requires s != []
    ensures multiset(s) == multiset(s[..|s| - 1]) + multiset{s[|s| - 1]}
  {
    assert s == s[..|s| - 1] + [s[|s| - 1]];
  }

  lemma {:induction false} InsertedPermutes<T>(s: seq<T>, x: T, leq: (T, T) -> bool)
    ensures multiset(Inserted(s, x, leq)) == multiset(s) + multiset{x}
    ensures |Inserted(s, x, leq)| == |s| + 1
  {
    if s != [] {
      MultisetSnoc(s);
      if !leq(s[|s| - 1], x) {
        InsertedPermutes(s[..|s| - 1], x, leq);
      }
    }
  }

  /** The sorted arrangement: ordered, and a permutation. */
  lemma {:induction false} SortByIs<T(!new)>(s: seq<T>, leq: (T, T) -> bool)
    requires TotalPreorder(leq)
    ensures Ordered(SortBy(s, leq), leq)
    ensures multiset(SortBy(s, leq)) == multiset(s)
    ensures |SortBy(s, leq)| == |s|
  {
    if s != [] {
      var shorter, last := s[..|s| - 1], s[|s| - 1];
      MultisetSnoc(s);
      SortByIs(shorter, leq);
      InsertedOrdered(SortBy(shorter, leq), last, leq);
      InsertedPermutes(SortBy(shorter, leq), last, leq);
    }
  }

  lemma TiesAppend<T>(s: seq<T>, last: T, x: T, leq: (T, T) -> bool)
    ensures Ties(s + [last], x, leq) == Ties(s, x, leq) + (if leq(x, last) && leq(last, x) then [last] else [])
  {
    assert (s + [last])[..|s + [last]| - 1] == s;
  }

  lemma {:induction false} InsertedTies<T(!new)>(s: seq<T>, y: T, x: T, leq: (T, T) -> bool)
    requires TotalPreorder(leq)
    ensures Ties(Inserted(s, y, leq), x, leq) == Ties(s + [y], x, leq)
  {
    if s == [] {
      assert [y] == [] + [y];
    } else if !leq(s[|s| - 1], y) {
      var shorter, last := s[..|s| - 1], s[|s| - 1];
      assert s == shorter + [last];
      InsertedTies(shorter, y, x, leq);
      TiesAppend(Inserted(shorter, y, leq), last, x, leq);
      TiesAppend(shorter, y, x, leq);
      TiesAppend(shorter, last, x, leq);
      TiesAppend(s, y, x, leq);
    }
  }

  /** Entries that tie keep their order. */
  lemma {:induction false} SortByIsStable<T(!new)>(s: seq<T>, x: T, leq: (T, T) -> bool)
    requires TotalPreorder(leq)
    ensures Ties(SortBy(s, leq), x, leq) == Ties(s, x, leq)
  {
    if s != [] {
      var shorter, last := s[..|s| - 1], s[|s| - 1];
      assert s == shorter + [last];
      SortByIsStable(shorter, x, leq);
      InsertedTies(SortBy(shorter, leq), last, x, leq);
      TiesAppend(SortBy(shorter, leq), last, x, leq);
      TiesAppend(shorter, last, x, leq);
    }
  }

  /** Sorting what is already in order changes nothing. */
  lemma {:induction false} SortByKeepsOrdered<T>(s: seq<T>, leq: (T, T) -> bool)
    requires Ordered(s, leq)
    ensures SortBy(s, leq) == s
  {
    if s != [] {
      var shorter, last := s[..|s| - 1], s[|s| - 1];
      assert s == shorter + [last];
      SortByKeepsOrdered(shorter, leq);
      if shorter != [] {
        assert shorter[|shorter| - 1] == s[|s| - 2];
      }
    }
  }

  lemma OrderedPrefix<T>(s: seq<T>, leq: (T, T) -> bool)
    requires s != [] && Ordered(s, leq)
    ensures Ordered(s[..|s| - 1], leq) && forall x :: x in s[..|s| - 1] ==> x in s
  {
  }

  lemma SnocSame<T>(s: seq<T>, t: seq<T>)
    requires s != [] && t != [] && s[..|s| - 1] == t[..|t| - 1] && s[|s| - 1] == t[|t| - 1]
    ensures s == t
  {
    assert s == s[..|s| - 1] + [s[|s| - 1]] && t == t[..|t| - 1] + [t[|t| - 1]];
  }

  lemma SameSize<T>(s: seq<T>, t: seq<T>)
    requires multiset(s) == multiset(t)
    ensures |s| == |t|
  {
    assert |multiset(s)| == |s| && |multiset(t)| == |t|;
  }

  /** A comparator that separates different entries leaves only one ordered arrangement of them. */
  lemma {:induction false} OrderedIsUnique<T(!new)>(s: seq<T>, t: seq<T>, leq: (T, T) -> bool)
    requires TotalPreorder(leq) && Ordered(s, leq) && Ordered(t, leq) && multiset(s) == multiset(t)
    requires forall x, y :: x in s && y in s && leq(x, y) && leq(y, x) ==> x == y
    ensures s == t
  {
    hide Ordered, TotalPreorder;
    SameSize(s, t);
    if s != [] {
      LastsTie(s, t, leq);
      var a := s[|s| - 1];
      assert a == t[|t| - 1];
      MultisetSnoc(s);
      MultisetSnoc(t);
      MultisetCancel(multiset(s[..|s| - 1]), multiset(t[..|t| - 1]), a);
      OrderedPrefix(s, leq);
      OrderedPrefix(t, leq);
      OrderedIsUnique(s[..|s| - 1], t[..|t| - 1], leq);
      SnocSame(s, t);
    }
  }

  lemma MultisetCancel<T>(m: multiset<T>, n: multiset<T>, x: T)
    requires m + multiset{x} == n + multiset{x}
    ensures m == n
  {
    assert m == m + multiset{x} - multiset{x};
    assert n == n + multiset{x} - multiset{x};
  }

  lemma LastsTie<T(!new)>(s: seq<T>, t: seq<T>, leq: (T, T) -> bool)
    requires TotalPreorder(leq) && Ordered(s, leq) && Ordered(t, leq) && multiset(s) == multiset(t)
    requires s != [] && t != []
    ensures s[|s| - 1] in t && t[|t| - 1] in s
    ensures leq(s[|s| - 1], t[|t| - 1]) && leq(t[|t| - 1], s[|s| - 1])
  {
    var a, b := s[|s| - 1], t[|t| - 1];
    assert a in multiset(t) && b in multiset(s);
    var i :| 0 <= i < |t| && t[i] == a;
    var j :| 0 <= j < |s| && s[j] == b;
    assert leq(a, a) && leq(b, b);
  }

  lemma {:induction false} InsertedMapped<T, U>(
    s: seq<T>, x: T, f: T -> U, leq: (T, T) -> bool, leq': (U, U) -> bool)
    requires forall y :: y in s ==> leq(y, x) == leq'(f(y), f(x))
    ensures Inserted(Mapped(s, f), f(x), leq') == Mapped(Inserted(s, x, leq), f)
  {
    if s != [] {
      var shorter, last := s[..|s| - 1], s[|s| - 1];
      assert Mapped(s, f)[..|s| - 1] == Mapped(shorter, f);
      InsertedMapped(shorter, x, f, leq, leq');
    }
  }

  /** Sorting commutes with a map the comparator does not see. */
  lemma {:induction false} SortByMapped<T(!new), U>(s: seq<T>, f: T -> U, leq: (T, T) -> bool, leq': (U, U) -> bool)
    requires forall x, y :: leq(x, y) == leq'(f(x), f(y))
    ensures SortBy(Mapped(s, f), leq') == Mapped(SortBy(s, leq), f)
  {
    if s != [] {
      var shorter, last := s[..|s| - 1], s[|s| - 1];
      assert Mapped(s, f)[..|s| - 1] == Mapped(shorter, f);
      SortByMapped(shorter, f, leq, leq');
      InsertedMapped(SortBy(shorter, leq), last, f, leq, leq');
    }
  }

  lemma {:induction false} TiesConcat<T>(s: seq<T>, t: seq<T>, x: T, leq: (T, T) -> bool)
    ensures Ties(s + t, x, leq) == Ties(s, x, leq) + Ties(t, x, leq)
  {
    if t == [] {
      assert s + t == s;
    } else {
      var shorter, last := t[..|t| - 1], t[|t| - 1];
      assert s + t == (s + shorter) + [last] && t == shorter + [last];
      TiesConcat(s, shorter, x, leq);
      TiesAppend(s + shorter, last, x, leq);
      TiesAppend(shorter, last, x, leq);
    }
  }

  lemma MappedConcat<T, U>(s: seq<T>, t: seq<T>, f: T -> U)
    ensures Mapped(s + t, f) == Mapped(s, f) + Mapped(t, f)
  {
  }

  lemma Removed<T>(t: seq<T>, i: nat)
    requires i < |t|
    ensures multiset(t) == multiset(t[..i] + t[i + 1..]) + multiset{t[i]}
  {
    assert t == t[..i] + ([t[i]] + t[i + 1..]);
  }

  lemma MappedSnoc<T, U>(s: seq<T>, f: T -> U)
    requires s != []
    ensures multiset(Mapped(s, f)) == multiset(Mapped(s[..|s| - 1], f)) + multiset{f(s[|s| - 1])}
  {
    MultisetSnoc(Mapped(s, f));
    assert Mapped(s, f)[..|s| - 1] == Mapped(s[..|s| - 1], f);
  }

  /** The list without one of its entries, before and after a map. */
  lemma RemovedMapped<T, U>(t: seq<T>, a: T, f: T -> U) returns (rest: seq<T>)
    requires a in t
    ensures multiset(t) == multiset(rest) + multiset{a}
    ensures multiset(Mapped(t, f)) == multiset(Mapped(rest, f)) + multiset{f(a)}
  {
    var i :| 0 <= i < |t| && t[i] == a;
    rest := t[..i] + t[i + 1..];
    Removed(t, i);
    Removed(Mapped(t, f), i);
    assert Mapped(rest, f) == Mapped(t, f)[..i] + Mapped(t, f)[i + 1..];
  }

  lemma {:induction false} MappedPermutes<T, U>(s: seq<T>, t: seq<T>, f: T -> U)
    requires multiset(s) == multiset(t)
    ensures multiset(Mapped(s, f)) == multiset(Mapped(t, f))
  {
    hide Mapped;
    if s == [] {
      assert t == [] by { assert |multiset(t)| == |t|; }
    } else {
      var shorter, a := s[..|s| - 1], s[|s| - 1];
      MultisetSnoc(s);
      assert a in multiset(t);
      var rest := RemovedMapped(t, a, f);
      MultisetCancel(multiset(shorter), multiset(rest), a);
      MappedPermutes(shorter, rest, f);
      MappedSnoc(s, f);
    }
  }

  lemma PairTies<T>(x: T, y: T, z: T, leq: (T, T) -> bool)
    requires leq(z, x) && leq(x, z) && leq(z, y) && leq(y, z)
    ensures Ties([x, y], z, leq) == [x, y]
  {
    assert [x, y] == [x] + [y] && [x] == [] + [x];
    TiesAppend([x], y, z, leq);
    TiesAppend([], x, z, leq);
  }

  /** Two different entries that tie stay in the order they came in. */
  lemma TieShowsOrder<T(!new)>(x: T, y: T, rest: seq<T>, leq: (T, T) -> bool)
    requires TotalPreorder(leq) && x != y && leq(x, y) && leq(y, x)
    ensures SortBy([x, y] + rest, leq) != SortBy([y, x] + rest, leq)
  {
    SortByIsStable([x, y] + rest, x, leq);
    SortByIsStable([y, x] + rest, x, leq);
    TiesConcat([x, y], rest, x, leq);
    TiesConcat([y, x], rest, x, leq);
    PairTies(x, y, x, leq);
    PairTies(y, x, x, leq);
    var more := Ties(rest, x, leq);
    assert ([x, y] + more)[0] == x && ([y, x] + more)[0] == y;
  }

  lemma SwapPermutes<T>(s: seq<T>, i: nat, j: nat)
    requires i < |s| && j < |s|
    ensures multiset(s[i := s[j]][j := s[i]]) == multiset(s)
  {
  }

  lemma SwapKeepsOrdered<T(!new)>(s: seq<T>, i: nat, j: nat, leq: (T, T) -> bool)
    requires TotalPreorder(leq) && Ordered(s, leq)
    requires i < |s| && j < |s| && leq(s[i], s[j]) && leq(s[j], s[i])
    ensures Ordered(s[i := s[j]][j := s[i]], leq)
  {
    var t := s[i := s[j]][j := s[i]];
    assert forall k :: 0 <= k < |s| ==> leq(s[k], s[k]);
    assert forall k :: 0 <= k < |s| ==> leq(s[k], t[k]) && leq(t[k], s[k]);
  }

  // ---------------------------------------------------------------- lexicographic keys

  predicate LexLeq(a: seq<real>, b: seq<real>) {
    a == [] || (b != [] && (a[0] < b[0] || (a[0] == b[0] && LexLeq(a[1..], b[1..]))))
  }

  /** From position i on: the entries there decide, or those after them when they are equal. */
  lemma LexFrom(a: seq<real>, b: seq<real>, i: nat)
    requires i <= |a| == |b|
    ensures LexLeq(a[i..], b[i..]) <==> i == |a| || a[i] < b[i] || (a[i] == b[i] && LexLeq(a[i + 1..], b[i + 1..]))
  {
    if i < |a| {
      assert a[i..][1..] == a[i + 1..] && b[i..][1..] == b[i + 1..];
    }
  }

  lemma {:induction false} LexTotal(a: seq<real>, b: seq<real>)
    ensures LexLeq(a, b) || LexLeq(b, a)
  {
    if a != [] && b != [] { LexTotal(a[1..], b[1..]); }
  }

  lemma {:induction false} LexTransitive(a: seq<real>, b: seq<real>, c: seq<real>)
    requires LexLeq(a, b) && LexLeq(b, c)
    ensures LexLeq(a, c)
  {
    if a != [] && a[0] == b[0] && b[0] == c[0] { LexTransitive(a[1..], b[1..], c[1..]); }
  }

  // ---------------------------------------------------------------- counting

  function CountIf<T>(s: seq<T>, p: T -> bool): nat {
    if s == [] then 0 else CountIf(s[..|s| - 1], p) + (if p(s[|s| - 1]) then 1 else 0)
  }

  lemma CountAppend<T>(s: seq<T>, last: T, p: T -> bool)
    ensures CountIf(s + [last], p) == CountIf(s, p) + (if p(last) then 1 else 0)
  {
    assert (s + [last])[..|s + [last]| - 1] == s;
  }

  lemma {:induction false} InsertedCount<T>(s: seq<T>, x: T, leq: (T, T) -> bool, p: T -> bool)
    ensures CountIf(Inserted(s, x, leq), p) == CountIf(s, p) + (if p(x) then 1 else 0)
  {
    hide CountIf;
    CountAppend(s, x, p);
    if s == [] {
      assert [] + [x] == [x];
    } else if !leq(s[|s| - 1], x) {
      var shorter, last := s[..|s| - 1], s[|s| - 1];
      assert s == shorter + [last];
      InsertedCount(shorter, x, leq, p);
      CountAppend(Inserted(shorter, x, leq), last, p);
      CountAppend(shorter, last, p);
    }
  }

  lemma {:induction false} SortByCount<T>(s: seq<T>, leq: (T, T) -> bool, p: T -> bool)
    ensures CountIf(SortBy(s, leq), p) == CountIf(s, p)
  {
    hide Inserted;
    if s != [] {
      SortByCount(s[..|s| - 1], leq, p);
      InsertedCount(SortBy(s[..|s| - 1], leq), s[|s| - 1], leq, p);
    }
  }

  lemma {:induction false} PrefixCount<T>(s: seq<T>, n: nat, p: T -> bool)
    requires n <= |s|
    ensures CountIf(s[..n], p) <= CountIf(s, p)
  {
    if n < |s| {
      PrefixCount(s[..|s| - 1], n, p);
      assert s[..|s| - 1][..n] == s[..n];
    } else {
      assert s[..n] == s;
    }
  }
}
