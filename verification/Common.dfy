/** Values shared by the models: optional values and the ascending enumeration of a set of integers. */
module Common {

  datatype Option<+T> = None | Some(value: T)

  predicate Ascending(s: seq<int>) {
    forall i, j :: 0 <= i < j < |s| ==> s[i] < s[j]
  }

  function Elements<T>(s: seq<T>): set<T> {
    set x | x in s
  }

  /** A list and its last entry. */
  lemma Snoc<T>(s: seq<T>)
    requires s != []
    ensures s == s[..|s| - 1] + [s[|s| - 1]] && s[|s| - 1] in s
    ensures forall x :: x in s <==> x in s[..|s| - 1] || x == s[|s| - 1]
  {
    assert s == s[..|s| - 1] + [s[|s| - 1]];
  }

  lemma Prefixes<T>(s: seq<T>, n: nat)
    requires n < |s|
    ensures |s[..n + 1]| == n + 1 && s[..n + 1][..n] == s[..n] && s[..n + 1][n] == s[n]
  {
  }

  lemma Member<T>(s: set<T>) returns (x: T)
    requires s != {}
    ensures x in s
  {
    x :| x in s;
  }

  lemma {:induction false} LeastExists(s: set<int>)
    requires s != {}
    ensures exists m :: m in s && forall x :: x in s ==> m <= x
  {
    var x := Member(s);
    var rest := s - {x};
    if rest == {} {
      assert s == {x};
    } else {
      LeastExists(rest);
      var m :| m in rest && forall y :: y in rest ==> m <= y;
      var least := if m <= x then m else x;
      forall y | y in s
        ensures least <= y
      {
        assert y == x || y in rest;
      }
      assert least in s;
    }
  }

  function Least(s: set<int>): (m: int)
    requires s != {}
    ensures m in s && forall x :: x in s ==> m <= x
  {
    LeastExists(s);
    var m :| m in s && forall x :: x in s ==> m <= x;
    m
  }

  /** The rows of an ORDER BY on an integer key. */
  function Sorted(s: set<int>): seq<int> {
    if s == {} then []
    else
      var m := Least(s);
      [m] + Sorted(s - {m})
  }

  lemma ElementsCons<T>(x: T, s: seq<T>)
    ensures Elements([x] + s) == {x} + Elements(s)
  {
    assert ([x] + s)[1..] == s;
  }

  lemma AscendingCons(x: int, s: seq<int>)
    requires Ascending(s)
    requires forall y :: y in Elements(s) ==> x < y
    ensures Ascending([x] + s)
  {
    assert forall i :: 0 <= i < |s| ==> s[i] in Elements(s);
  }

  lemma WithoutLeast(s: set<int>)
    requires s != {}
    ensures {Least(s)} + (s - {Least(s)}) == s && |s - {Least(s)}| == |s| - 1
    ensures forall y :: y in s - {Least(s)} ==> Least(s) < y
  {
  }

  /** Every element once, ascending. */
  lemma {:induction false} SortedIs(s: set<int>)
    ensures Ascending(Sorted(s))
    ensures Elements(Sorted(s)) == s
    ensures |Sorted(s)| == |s|
  {
    if s != {} {
      hide Ascending, Elements, Least;
      var m := Least(s);
      var rest := s - {m};
      SortedIs(rest);
      WithoutLeast(s);
      ElementsCons(m, Sorted(rest));
      AscendingCons(m, Sorted(rest));
    } else {
      assert Sorted(s) == [];
    }
  }
}
