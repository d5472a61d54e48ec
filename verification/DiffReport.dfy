/**
 * The JSON difference engine (src/coingecko/diff-report.ts): a recursive comparison that normalizes
 * both sides again at every level, and the ranking of what it finds. A JSON number is a real number;
 * `entryRank` is any ranking of JSON values (the order localeCompare gives their serialized text).
 */
module DiffReport {
  import opened Common
  import opened Text
  import opened StableSort

  datatype Json =
    | Undefined
    | Null
    | Bool(flag: bool)
    | Num(number: real)
    | Str(text: string)
    | Arr(items: seq<Json>)
    | Obj(fields: map<string, Json>)

  function PowerOfTen(d: nat): real {
    if d == 0 then 1.0 else 10.0 * PowerOfTen(d - 1)
  }

  lemma {:induction false} PowerOfTenGrows(d: nat)
    ensures PowerOfTen(d) >= 1.0
  {
    if d > 0 { PowerOfTenGrows(d - 1); }
  }

  /** toFixed takes at most 100 digits: a zero or tinier positive tolerance makes it throw. */
  predicate UsableTolerance(tolerance: real) {
    tolerance < 0.0 || tolerance * PowerOfTen(100) >= 1.0
  }

  datatype Rules = Rules(
    ignoredPaths: seq<string>, orderingInsensitivePaths: seq<string>, freshnessPaths: seq<string>,
    sourcePaths: seq<string>, numericTolerances: map<string, real>, entryRank: Json -> real)

  // ---------------------------------------------------------------- rounding

  /** A step of 10^-d is no wider than the tolerance. */
  predicate Enough(tolerance: real, d: nat) { tolerance * PowerOfTen(d) >= 1.0 }

  /** Math.max(0, Math.ceil(-Math.log10(tolerance))); a negative tolerance gives NaN, which toFixed reads as 0. */
  function DigitsFrom(tolerance: real, d: nat): nat
    requires d <= 100
    decreases 100 - d
  {
    if tolerance < 0.0 || Enough(tolerance, d) || d == 100 then d else DigitsFrom(tolerance, d + 1)
  }

  function Digits(tolerance: real): nat { DigitsFrom(tolerance, 0) }

  const FIXED_LIMIT := 1_000_000_000_000_000_000_000.0

  /** The number of 1/p steps nearest to a magnitude, the larger one on a tie. */
  function Steps(m: real, p: real): int {
    (m * p + 0.5).Floor
  }

  function Nearest(m: real, p: real): real
    requires p >= 1.0
  {
    Steps(m, p) as real / p
  }

  /** Number(x.toFixed(d)): nearest multiple of 10^-d, ties away from zero; from 1e21 on the number itself. */
  function Rounded(x: real, d: nat): real {
    PowerOfTenGrows(d);
    if x >= FIXED_LIMIT || x <= -FIXED_LIMIT then x
    else if x >= 0.0 then Nearest(x, PowerOfTen(d))
    else -Nearest(-x, PowerOfTen(d))
  }

  lemma QuotientTimes(a: real, p: real)
    requires p >= 1.0
    ensures a / p * p == a
    ensures a >= 0.0 ==> a / p >= 0.0
  {
  }

  lemma StepsAreFixed(m: real, p: real)
    requires p >= 1.0
    ensures Steps(Nearest(m, p), p) == Steps(m, p)
  {
    QuotientTimes(Steps(m, p) as real, p);
  }

  lemma NearestIsFixed(m: real, p: real)
    requires m >= 0.0 && p >= 1.0
    ensures Nearest(m, p) >= 0.0 && Nearest(Nearest(m, p), p) == Nearest(m, p)
  {
    assert m * p >= 0.0;
    assert Steps(m, p) as real >= 0.0;
    QuotientTimes(Steps(m, p) as real, p);
    StepsAreFixed(m, p);
    hide Steps;
  }

  lemma NearestIsClose(m: real, p: real)
    requires p >= 1.0
    ensures -0.5 <= (Nearest(m, p) - m) * p <= 0.5
  {
    QuotientTimes(Steps(m, p) as real, p);
    Distribute(Nearest(m, p), m, p);
  }

  lemma Distribute(a: real, b: real, p: real)
    ensures (a - b) * p == a * p - b * p
  {
  }

  lemma RoundingIsIdempotent(x: real, d: nat)
    ensures Rounded(Rounded(x, d), d) == Rounded(x, d)
  {
    PowerOfTenGrows(d);
    hide PowerOfTen, Nearest;
    if 0.0 <= x < FIXED_LIMIT {
      NearestIsFixed(x, PowerOfTen(d));
    } else if -FIXED_LIMIT < x < 0.0 {
      var r := Nearest(-x, PowerOfTen(d));
      NearestIsFixed(-x, PowerOfTen(d));
      if r == 0.0 {
        assert -r == r;
      } else if r < FIXED_LIMIT {
        assert -(-r) == r;
      }
    }
  }

  lemma RoundingIsClose(x: real, d: nat)
    ensures -0.5 <= (Rounded(x, d) - x) * PowerOfTen(d) <= 0.5
  {
    PowerOfTenGrows(d);
    hide PowerOfTen, Nearest;
    var p := PowerOfTen(d);
    if 0.0 <= x < FIXED_LIMIT {
      NearestIsClose(x, p);
    } else if -FIXED_LIMIT < x < 0.0 {
      NearestIsClose(-x, p);
      Distribute(Nearest(-x, p), -x, p);
      Distribute(-Nearest(-x, p), x, p);
    }
  }

  lemma {:induction false} DigitsLeast(tolerance: real, d: nat)
    requires d <= 100 && tolerance >= 0.0 && (d > 0 ==> !Enough(tolerance, d - 1))
    ensures var n := DigitsFrom(tolerance, d);
            n <= 100 && (n < 100 ==> Enough(tolerance, n)) && (n > 0 ==> !Enough(tolerance, n - 1))
    decreases 100 - d
  {
    hide Enough;
    if !(Enough(tolerance, d) || d == 100) {
      DigitsLeast(tolerance, d + 1);
    }
  }

  lemma {:induction false} DigitsAreEnough(tolerance: real, d: nat)
    requires d <= 100 && tolerance * PowerOfTen(100) >= 1.0
    ensures tolerance * PowerOfTen(DigitsFrom(tolerance, d)) >= 1.0 || tolerance < 0.0
    decreases 100 - d
  {
    hide PowerOfTen;
    if !(tolerance < 0.0 || tolerance * PowerOfTen(d) >= 1.0 || d == 100) {
      DigitsAreEnough(tolerance, d + 1);
    }
  }

  lemma Scaled(a: real, b: real, p: real)
    requires a > b && p >= 1.0
    ensures a * p > b * p
  {
  }

  lemma BothClose(r: real, x: real, y: real, p: real, tolerance: real)
    requires p >= 1.0 && tolerance * p >= 1.0
    requires (r - x) * p <= 0.5 && -0.5 <= (r - y) * p
    ensures y - x <= tolerance
  {
    if y - x > tolerance {
      Scaled(y - x, tolerance, p);
      Distribute(y, x, p);
      Distribute(r, x, p);
      Distribute(r, y, p);
      assert false;
    }
  }

  lemma EqualAtDigits(x: real, y: real, tolerance: real, d: nat)
    requires tolerance * PowerOfTen(d) >= 1.0 && Rounded(x, d) == Rounded(y, d)
    ensures -tolerance <= x - y <= tolerance
  {
    hide PowerOfTen, Rounded;
    PowerOfTenGrows(d);
    RoundingIsClose(x, d);
    RoundingIsClose(y, d);
    BothClose(Rounded(x, d), x, y, PowerOfTen(d), tolerance);
    BothClose(Rounded(x, d), y, x, PowerOfTen(d), tolerance);
  }

  /** Two numbers that round alike under a tolerance differ by no more than the tolerance. */
  lemma EqualWithinTolerance(x: real, y: real, tolerance: real)
    requires tolerance > 0.0 && UsableTolerance(tolerance)
    requires Rounded(x, Digits(tolerance)) == Rounded(y, Digits(tolerance))
    ensures -tolerance <= x - y <= tolerance
  {
    hide PowerOfTen, Rounded, DigitsFrom;
    DigitsAreEnough(tolerance, 0);
    EqualAtDigits(x, y, tolerance, Digits(tolerance));
  }

  // ---------------------------------------------------------------- which numbers round alike

  /** The signed number of steps, for a number already scaled by p. */
  function SignedSteps(a: real): int {
    if a >= 0.0 then (a + 0.5).Floor else -((-a + 0.5).Floor)
  }

  lemma FloorAtLeast(y: real, k: int)
    ensures y.Floor >= k <==> y >= k as real
  {
  }

  /** The k-th boundary on either side of zero: rounding goes away from zero on it. */
  lemma StepsReach(a: real, k: int)
    requires k >= 1
    ensures SignedSteps(a) >= k <==> a >= k as real - 0.5
    ensures SignedSteps(a) <= -k <==> a <= 0.5 - k as real
  {
    if a >= 0.0 {
      FloorAtLeast(a + 0.5, k);
      FloorAtLeast(a + 0.5, 0);
    } else {
      FloorAtLeast(-a + 0.5, k);
      FloorAtLeast(-a + 0.5, 0);
    }
  }

  /** Scaled numbers a <= b with the k-th boundary above or below zero between them. */
  predicate BoundaryBetween(a: real, b: real, k: int) {
    k >= 1 && (a < k as real - 0.5 <= b || a <= 0.5 - k as real < b)
  }

  ghost predicate NoBoundary(a: real, b: real) {
    forall k :: !BoundaryBetween(a, b, k)
  }

  lemma SameStepsIff(a: real, b: real)
    requires a <= b
    ensures SignedSteps(a) == SignedSteps(b) <==> NoBoundary(a, b)
  {
    StepsOrdered(a, b);
    hide SignedSteps;
    var s, t := SignedSteps(a), SignedSteps(b);
    forall k | BoundaryBetween(a, b, k)
      ensures s < t
    {
      StepsReach(a, k);
      StepsReach(b, k);
    }
    if s < t {
      var k := if t >= 1 then t else -s;
      StepsReach(a, k);
      StepsReach(b, k);
      assert BoundaryBetween(a, b, k);
    }
  }

  lemma StepsOrdered(a: real, b: real)
    requires a <= b
    ensures SignedSteps(a) <= SignedSteps(b)
  {
    var s := SignedSteps(a);
    if s >= 1 { StepsReach(a, s); StepsReach(b, s); }
    if SignedSteps(b) <= -1 { StepsReach(b, -SignedSteps(b)); StepsReach(a, -SignedSteps(b)); }
  }

  predicate Fixed(x: real) { -FIXED_LIMIT < x < FIXED_LIMIT }

  /** A number in units of the last digit. */
  function Scale(x: real, d: nat): real { x * PowerOfTen(d) }

  lemma EnoughIs(tolerance: real, d: nat)
    ensures Enough(tolerance, d) <==> Scale(tolerance, d) >= 1.0
  {
    hide PowerOfTen;
  }

  /** The least number of digits whose step does not exceed the tolerance, a hundred at most; none for a negative one. */
  lemma DigitsIs(tolerance: real) returns (n: nat)
    ensures n == Digits(tolerance) <= 100
    ensures tolerance < 0.0 ==> n == 0
    ensures 0.0 <= tolerance && n < 100 ==> Scale(tolerance, n) >= 1.0
    ensures 0.0 <= tolerance && n > 0 ==> Scale(tolerance, n - 1) < 1.0
  {
    n := Digits(tolerance);
    if tolerance >= 0.0 {
      DigitsLeast(tolerance, 0);
      hide PowerOfTen, DigitsFrom, Enough, Scale;
      EnoughIs(tolerance, n);
      if n > 0 { EnoughIs(tolerance, n - 1); }
    }
  }

  lemma ScaleNegates(x: real, d: nat)
    ensures Scale(-x, d) == -Scale(x, d)
  {
  }

  lemma ScaleOrders(x: real, y: real, d: nat)
    requires x < y
    ensures Scale(x, d) < Scale(y, d)
  {
    PowerOfTenGrows(d);
    Scaled(y, x, PowerOfTen(d));
  }

  lemma ScaleSigns(x: real, d: nat)
    ensures x >= 0.0 <==> Scale(x, d) >= 0.0
  {
    assert Scale(0.0, d) == 0.0;
    if x < 0.0 { ScaleOrders(x, 0.0, d); }
    if x > 0.0 { ScaleOrders(0.0, x, d); }
  }

  lemma ScaleCompares(x: real, y: real, d: nat)
    ensures x < y <==> Scale(x, d) < Scale(y, d)
    ensures x == y <==> Scale(x, d) == Scale(y, d)
  {
    hide Scale;
    if x < y { ScaleOrders(x, y, d); }
    if y < x { ScaleOrders(y, x, d); }
  }

  lemma NearestInSteps(m: real, d: nat)
    ensures PowerOfTen(d) >= 1.0
    ensures Scale(Nearest(m, PowerOfTen(d)), d) == (Scale(m, d) + 0.5).Floor as real
  {
    PowerOfTenGrows(d);
    hide PowerOfTen;
    QuotientTimes(Steps(m, PowerOfTen(d)) as real, PowerOfTen(d));
  }

  lemma RoundedInSteps(x: real, d: nat)
    requires Fixed(x)
    ensures Scale(Rounded(x, d), d) == SignedSteps(Scale(x, d)) as real
  {
    hide Scale, Nearest, PowerOfTen;
    PowerOfTenGrows(d);
    ScaleSigns(x, d);
    if x >= 0.0 {
      NearestInSteps(x, d);
    } else {
      NearestInSteps(-x, d);
      ScaleNegates(x, d);
      ScaleNegates(Nearest(-x, PowerOfTen(d)), d);
    }
  }

  /** From 1e21 on the number itself; below, a whole number of last digits, no further than half of one, away from zero on a tie. */
  lemma RoundedIs(x: real, d: nat) returns (k: int)
    ensures x >= 1_000_000_000_000_000_000_000.0 || x <= -1_000_000_000_000_000_000_000.0 ==> Rounded(x, d) == x
    ensures -1_000_000_000_000_000_000_000.0 < x < 1_000_000_000_000_000_000_000.0 ==>
              var exact, rounded := Scale(x, d), Scale(Rounded(x, d), d);
              && rounded == k as real && -0.5 <= rounded - exact <= 0.5
              && (rounded - exact == 0.5 ==> exact >= 0.0) && (rounded - exact == -0.5 ==> exact < 0.0)
  {
    if Fixed(x) {
      hide Scale, Rounded;
      RoundedInSteps(x, d);
      k := SignedSteps(Scale(x, d));
    } else {
      hide PowerOfTen, Nearest, Scale;
      k := 0;
    }
  }

  lemma {:induction false} PowerOfTenIsWhole(d: nat) returns (n: int)
    ensures PowerOfTen(d) == n as real
  {
    if d == 0 {
      n := 1;
    } else {
      var m := PowerOfTenIsWhole(d - 1);
      n := 10 * m;
    }
  }

  lemma LimitIsWhole(d: nat) returns (k: int)
    ensures k >= 1 && Scale(FIXED_LIMIT, d) == k as real
  {
    var n := PowerOfTenIsWhole(d);
    PowerOfTenGrows(d);
    hide PowerOfTen;
    k := 1_000_000_000_000_000_000_000 * n;
    assert k as real == FIXED_LIMIT * n as real;
  }

  /** A number inside the range of toFixed rounds to the end of it exactly from half a step away. */
  lemma ReachesLimitIff(x: real, d: nat)
    requires Fixed(x)
    ensures Rounded(x, d) == FIXED_LIMIT <==> Scale(x, d) >= Scale(FIXED_LIMIT, d) - 0.5
    ensures Rounded(x, d) == -FIXED_LIMIT <==> Scale(x, d) <= 0.5 - Scale(FIXED_LIMIT, d)
  {
    hide Scale, Rounded, SignedSteps;
    RoundedInSteps(x, d);
    var k := LimitIsWhole(d);
    ScaleNegates(FIXED_LIMIT, d);
    ScaleCompares(Rounded(x, d), FIXED_LIMIT, d);
    ScaleCompares(Rounded(x, d), -FIXED_LIMIT, d);
    ScaleOrders(x, FIXED_LIMIT, d);
    ScaleOrders(-FIXED_LIMIT, x, d);
    StepsReach(Scale(x, d), k);
    StepsReach(Scale(x, d), k + 1);
  }

  /**
   * The numbers x <= y that d digits do not tell apart: inside the range of toFixed no boundary
   * lies between them; outside it they are equal, or one is the end of the range and the other
   * within half a step of it.
   */
  ghost predicate RoundAlike(x: real, y: real, d: nat) {
    if Fixed(x) && Fixed(y) then NoBoundary(Scale(x, d), Scale(y, d))
    else if Fixed(x) then y == FIXED_LIMIT && Scale(x, d) >= Scale(FIXED_LIMIT, d) - 0.5
    else if Fixed(y) then x == -FIXED_LIMIT && Scale(y, d) <= 0.5 - Scale(FIXED_LIMIT, d)
    else x == y
  }

  lemma OutsideIsItself(x: real, d: nat)
    requires !Fixed(x)
    ensures Rounded(x, d) == x
  {
    hide PowerOfTen;
  }

  lemma NearestStaysInRange(x: real, d: nat)
    requires Fixed(x)
    ensures -FIXED_LIMIT <= Rounded(x, d) <= FIXED_LIMIT
  {
    hide Scale, Rounded, SignedSteps;
    RoundedInSteps(x, d);
    var k := LimitIsWhole(d);
    ScaleNegates(FIXED_LIMIT, d);
    ScaleOrders(x, FIXED_LIMIT, d);
    ScaleOrders(-FIXED_LIMIT, x, d);
    StepsReach(Scale(x, d), k + 1);
    ScaleCompares(FIXED_LIMIT, Rounded(x, d), d);
    ScaleCompares(Rounded(x, d), -FIXED_LIMIT, d);
  }

  /** Rounding tells numbers apart exactly at its boundaries. */
  lemma RoundedAlikeIff(x: real, y: real, d: nat)
    requires x <= y
    ensures Rounded(x, d) == Rounded(y, d) <==> RoundAlike(x, y, d)
  {
    hide Scale, Rounded, SignedSteps, NoBoundary;
    if Fixed(x) && Fixed(y) {
      RoundedInSteps(x, d);
      RoundedInSteps(y, d);
      ScaleCompares(x, y, d);
      ScaleCompares(Rounded(x, d), Rounded(y, d), d);
      SameStepsIff(Scale(x, d), Scale(y, d));
    } else if Fixed(x) {
      OutsideIsItself(y, d);
      ReachesLimitIff(x, d);
      NearestStaysInRange(x, d);
    } else if Fixed(y) {
      OutsideIsItself(x, d);
      ReachesLimitIff(y, d);
      NearestStaysInRange(y, d);
    } else {
      OutsideIsItself(x, d);
      OutsideIsItself(y, d);
    }
  }

  /** An input on which the converse of EqualWithinTolerance fails: the boundary 0.5 lies between the two. */
  lemma CloseNumbersCanRoundApart()
    ensures Rounded(0.5, Digits(1.0)) != Rounded(0.49, Digits(1.0)) && 0.5 - 0.49 <= 1.0
  {
    assert PowerOfTen(0) == 1.0 && Digits(1.0) == 0;
    assert Nearest(0.5, 1.0) == 1.0 && Nearest(0.49, 1.0) == 0.0;
  }

  // ---------------------------------------------------------------- normalizing

  /** The sort of an order-insensitive array: undefined entries last, the others by rank. */
  predicate EntryLeq(rules: Rules, a: Json, b: Json) {
    b.Undefined? || (!a.Undefined? && rules.entryRank(a) <= rules.entryRank(b))
  }

  function Child(path: string, key: string): string { if path == "" then key else path + "." + key }

  function Normalize(v: Json, path: string, rules: Rules): Json {
    if path in rules.ignoredPaths then Undefined
    else
      match v
      case Arr(items) =>
        if path in rules.orderingInsensitivePaths then
          Arr(SortBy(NormalizeEach(items, path + "[]", rules), (a, b) => EntryLeq(rules, a, b)))
        else v
      case Obj(fields) => Obj(map k | k in fields :: Normalize(fields[k], Child(path, k), rules))
      case Num(x) =>
        if path in rules.numericTolerances then Num(Rounded(x, Digits(rules.numericTolerances[path]))) else v
      case _ => v
  }

  function NormalizeEach(items: seq<Json>, path: string, rules: Rules): (r: seq<Json>)
    ensures |r| == |items|
    ensures forall i :: 0 <= i < |items| ==> r[i] == Normalize(items[i], path, rules)
  {
    seq(|items|, i requires 0 <= i < |items| => Normalize(items[i], path, rules))
  }

  lemma EntryLeqIsPreorder(rules: Rules)
    ensures TotalPreorder((a, b) => EntryLeq(rules, a, b))
  {
  }

  /** Normalizing again at the same path changes nothing. */
  lemma {:induction false} NormalizeIsIdempotent(v: Json, path: string, rules: Rules)
    ensures Normalize(Normalize(v, path, rules), path, rules) == Normalize(v, path, rules)
    decreases v
  {
    if path !in rules.ignoredPaths {
      var n := Normalize(v, path, rules);
      match v
      case Arr(items) =>
        if path in rules.orderingInsensitivePaths {
          var each, leq := NormalizeEach(items, path + "[]", rules), (a, b) => EntryLeq(rules, a, b);
          forall i | 0 <= i < |n.items|
            ensures Normalize(n.items[i], path + "[]", rules) == n.items[i]
          {
            SortByMembers(each, leq, n.items[i]);
            var j :| 0 <= j < |each| && each[j] == n.items[i];
            NormalizeIsIdempotent(items[j], path + "[]", rules);
          }
          assert NormalizeEach(n.items, path + "[]", rules) == n.items;
          EntryLeqIsPreorder(rules);
          SortByIs(each, leq);
          SortByKeepsOrdered(n.items, leq);
        }
      case Obj(fields) =>
        forall k | k in fields
          ensures Normalize(n.fields[k], Child(path, k), rules) == n.fields[k]
        {
          NormalizeIsIdempotent(fields[k], Child(path, k), rules);
        }
        assert Normalize(n, path, rules).fields == n.fields;
      case Num(x) =>
        if path in rules.numericTolerances {
          RoundingIsIdempotent(x, Digits(rules.numericTolerances[path]));
        }
      case _ =>
    }
  }

  // ---------------------------------------------------------------- height

  ghost function Greatest(s: set<nat>): (m: nat)
    ensures s == {} || m in s
    ensures forall x :: x in s ==> x <= m
  {
    if s == {} then 0
    else
      var x :| x in s;
      var r := Greatest(s - {x});
      assert s == (s - {x}) + {x};
      if r > x then r else x
  }

  ghost function Height(v: Json): nat {
    match v
    case Arr(items) => 1 + Greatest(set i | 0 <= i < |items| :: Height(items[i]))
    case Obj(fields) => 1 + Greatest(set k | k in fields :: Height(fields[k]))
    case _ => 0
  }

  lemma ChildrenAreLower(v: Json)
    ensures v.Arr? ==> Height(v) > 0 && forall i :: 0 <= i < |v.items| ==> Height(v.items[i]) < Height(v)
    ensures v.Obj? ==> Height(v) > 0 && forall k :: k in v.fields ==> Height(v.fields[k]) < Height(v)
  {
    if v.Arr? {
      var s := set i | 0 <= i < |v.items| :: Height(v.items[i]);
      assert forall i :: 0 <= i < |v.items| ==> Height(v.items[i]) in s;
    }
    if v.Obj? {
      var s := set k | k in v.fields :: Height(v.fields[k]);
      assert forall k :: k in v.fields ==> Height(v.fields[k]) in s;
    }
  }

  lemma HeightBound(v: Json, h: nat)
    requires v.Arr? ==> h > 0 && forall i :: 0 <= i < |v.items| ==> Height(v.items[i]) < h
    requires v.Obj? ==> h > 0 && forall k :: k in v.fields ==> Height(v.fields[k]) < h
    ensures Height(v) <= h
  {
  }

  /** Normalizing never makes a tree higher, so comparing normalized children terminates. */
  lemma {:induction false} NormalizeNeverRaises(v: Json, path: string, rules: Rules)
    ensures Height(Normalize(v, path, rules)) <= Height(v)
    decreases v
  {
    ChildrenAreLower(v);
    var n := Normalize(v, path, rules);
    if path !in rules.ignoredPaths {
      match v
      case Arr(items) =>
        if path in rules.orderingInsensitivePaths {
          var each, leq := NormalizeEach(items, path + "[]", rules), (a, b) => EntryLeq(rules, a, b);
          forall i | 0 <= i < |n.items|
            ensures Height(n.items[i]) < Height(v)
          {
            SortByMembers(each, leq, n.items[i]);
            var j :| 0 <= j < |each| && each[j] == n.items[i];
            NormalizeNeverRaises(items[j], path + "[]", rules);
          }
          HeightBound(n, Height(v));
        }
      case Obj(fields) =>
        forall k | k in fields
          ensures Height(n.fields[k]) < Height(v)
        {
          NormalizeNeverRaises(fields[k], Child(path, k), rules);
        }
        HeightBound(n, Height(v));
      case _ =>
    }
  }

  // ---------------------------------------------------------------- comparing

  datatype GapClass = Shape | MissingField | Value | Ranking | Freshness | Source

  datatype Leaf = Leaf(path: string, gapClass: GapClass, reason: string, upstream: Json, replay: Json)

  predicate Scalar(v: Json) { !v.Arr? && !v.Obj? }

  predicate Mentions(path: string, parts: seq<string>) {
    exists c :: c in parts && Includes(path, c)
  }

  function ClassOf(path: string, upstream: Json, replay: Json, rules: Rules): GapClass {
    if upstream.Undefined? || replay.Undefined? then MissingField
    else if Mentions(path, rules.freshnessPaths) then Freshness
    else if Mentions(path, rules.sourcePaths) then Source
    else if upstream.Arr? || replay.Arr? then Ranking
    else if upstream.Obj? || replay.Obj? then Shape
    else Value
  }

  function ReasonFor(gapClass: GapClass): string {
    match gapClass
    case MissingField => "Field present on only one side."
    case Freshness => "Freshness-sensitive field differs."
    case Source => "Source/provider-linked field differs."
    case Ranking => "Array membership or ordering differs."
    case Shape => "Object shape differs."
    case Value => "Scalar value differs."
  }

  function Classify(path: string, upstream: Json, replay: Json, rules: Rules): Leaf {
    var gapClass := ClassOf(path, upstream, replay, rules);
    Leaf(path, gapClass, ReasonFor(gapClass), upstream, replay)
  }

  function Get(fields: map<string, Json>, key: string): Json {
    if key in fields then fields[key] else Undefined
  }

  function ArrayPath(path: string): string { if path == "" then "$array" else path }

  function Element(path: string, index: nat): string { path + "[" + Decimal(index) + "]" }

  /** The leaves the comparison pushes, in order. */
  ghost function Leaves(a: Json, b: Json, path: string, rules: Rules): seq<Leaf>
    decreases Height(a) + Height(b), 3, 0
  {
    NormalizeNeverRaises(a, path, rules);
    NormalizeNeverRaises(b, path, rules);
    Compared(Normalize(a, path, rules), Normalize(b, path, rules), path, rules)
  }

  /** The same, on sides already normalized at this path. */
  ghost function Compared(x: Json, y: Json, path: string, rules: Rules): seq<Leaf>
    decreases Height(x) + Height(y), 2, 1
  {
    if x.Undefined? && y.Undefined? then []
    else if Scalar(x) || Scalar(y) then if x != y then [Classify(path, x, y, rules)] else []
    else if x.Arr? && y.Arr? then
      if |x.items| != |y.items| then [Classify(ArrayPath(path), x, y, rules)]
      else ElementLeaves(x, y, |x.items|, ArrayPath(path), rules)
    else if x.Arr? || y.Arr? then [Classify(path, x, y, rules)]
    else AllFieldLeaves(x, y, path, rules)
  }

  ghost function ElementLeaves(x: Json, y: Json, n: nat, path: string, rules: Rules): seq<Leaf>
    requires x.Arr? && y.Arr? && n <= |x.items| && n <= |y.items|
    decreases Height(x) + Height(y), 1, n
  {
    if n == 0 then []
    else
      ChildrenAreLower(x);
      ChildrenAreLower(y);
      ElementLeaves(x, y, n - 1, path, rules)
      + Leaves(x.items[n - 1], y.items[n - 1], Element(path, n - 1), rules)
  }

  lemma FieldsAreLower(x: Json, y: Json, k: string)
    requires x.Obj? && y.Obj? && (k in x.fields || k in y.fields)
    ensures Height(Get(x.fields, k)) + Height(Get(y.fields, k)) < Height(x) + Height(y)
  {
    ChildrenAreLower(x);
    ChildrenAreLower(y);
    assert Height(Undefined) == 0;
  }

  ghost predicate KeysOf(keys: seq<string>, x: Json, y: Json)
    requires x.Obj? && y.Obj?
  {
    forall i :: 0 <= i < |keys| ==> keys[i] in x.fields || keys[i] in y.fields
  }

  ghost function FieldLeaves(x: Json, y: Json, keys: seq<string>, n: nat, path: string, rules: Rules): seq<Leaf>
    requires x.Obj? && y.Obj? && n <= |keys| && KeysOf(keys, x, y)
    decreases Height(x) + Height(y), 1, n
  {
    if n == 0 then []
    else
      var k := keys[n - 1];
      FieldsAreLower(x, y, k);
      FieldLeaves(x, y, keys, n - 1, path, rules) + Leaves(Get(x.fields, k), Get(y.fields, k), Child(path, k), rules)
  }

  function BothKeys(x: Json, y: Json): (keys: seq<string>)
    requires x.Obj? && y.Obj?
    ensures KeysOf(keys, x, y)
  {
    var keys := SortedKeys(x.fields.Keys + y.fields.Keys);
    assert forall i :: 0 <= i < |keys| ==> keys[i] in keys;
    keys
  }

  ghost function AllFieldLeaves(x: Json, y: Json, path: string, rules: Rules): seq<Leaf>
    requires x.Obj? && y.Obj?
    decreases Height(x) + Height(y), 2, 0
  {
    var keys := BothKeys(x, y);
    FieldLeaves(x, y, keys, |keys|, path, rules)
  }

  // ---------------------------------------------------------------- the canonical form

  /** Normalized all the way down, with the fields that normalize to nothing dropped. */
  ghost function Canon(v: Json, path: string, rules: Rules): (c: Json)
    decreases Height(v), 1
  {
    NormalizeNeverRaises(v, path, rules);
    var x := Normalize(v, path, rules);
    ChildrenAreLower(x);
    match x
    case Arr(items) =>
      Arr(seq(|items|, i requires 0 <= i < |items| => Canon(items[i], Element(ArrayPath(path), i), rules)))
    case Obj(fields) =>
      Obj(map k | k in fields && Canon(fields[k], Child(path, k), rules) != Undefined ::
            Canon(fields[k], Child(path, k), rules))
    case _ => x
  }

  lemma CanonOfUndefined(path: string, rules: Rules)
    ensures Canon(Undefined, path, rules) == Undefined
  {
  }

  ghost predicate SameItem(x: Json, y: Json, i: nat, path: string, rules: Rules)
    requires x.Arr? && y.Arr? && i < |x.items| && i < |y.items|
  {
    Canon(x.items[i], Element(path, i), rules) == Canon(y.items[i], Element(path, i), rules)
  }

  ghost predicate SameAt(x: Json, y: Json, k: string, path: string, rules: Rules)
    requires x.Obj? && y.Obj?
  {
    Canon(Get(x.fields, k), Child(path, k), rules) == Canon(Get(y.fields, k), Child(path, k), rules)
  }

  lemma CanonItems(v: Json, path: string, rules: Rules)
    requires Normalize(v, path, rules).Arr?
    ensures var x, c := Normalize(v, path, rules), Canon(v, path, rules);
            c.Arr? && |c.items| == |x.items|
            && forall i :: 0 <= i < |x.items| ==> c.items[i] == Canon(x.items[i], Element(ArrayPath(path), i), rules)
  {
  }

  lemma SameItems(a: Json, b: Json, path: string, rules: Rules)
    requires Normalize(a, path, rules).Arr? && Normalize(b, path, rules).Arr?
    ensures var x, y := Normalize(a, path, rules), Normalize(b, path, rules);
            Canon(a, path, rules) == Canon(b, path, rules) <==>
            |x.items| == |y.items| && forall i :: 0 <= i < |x.items| ==> SameItem(x, y, i, ArrayPath(path), rules)
  {
    CanonItems(a, path, rules);
    CanonItems(b, path, rules);
    hide Canon, Normalize, ArrayPath, Element;
    var x, y := Normalize(a, path, rules), Normalize(b, path, rules);
    var s, t := Canon(a, path, rules).items, Canon(b, path, rules).items;
    if |s| == |t| {
      forall i | 0 <= i < |s|
        ensures SameItem(x, y, i, ArrayPath(path), rules) <==> s[i] == t[i]
      {
      }
      assert s == t <==> forall i :: 0 <= i < |s| ==> s[i] == t[i];
    }
  }

  lemma CanonFields(v: Json, path: string, rules: Rules, k: string)
    requires Normalize(v, path, rules).Obj?
    ensures var x := Normalize(v, path, rules);
            && Canon(v, path, rules).Obj?
            && var fields := Canon(v, path, rules).fields;
               Get(fields, k) == Canon(Get(x.fields, k), Child(path, k), rules)
               && (k in fields ==> k in x.fields && fields[k] != Undefined)
  {
    CanonOfUndefined(Child(path, k), rules);
  }

  /** Maps that hold no Undefined are determined by what Get reads. */
  lemma SameReads(s: map<string, Json>, t: map<string, Json>)
    requires forall k :: k in s ==> s[k] != Undefined
    requires forall k :: k in t ==> t[k] != Undefined
    requires forall k :: Get(s, k) == Get(t, k)
    ensures s == t
  {
    assert forall k :: k in s ==> Get(s, k) == Get(t, k) && k in t;
    assert forall k :: k in t ==> Get(s, k) == Get(t, k) && k in s;
  }

  lemma SameFields(a: Json, b: Json, path: string, rules: Rules)
    requires Normalize(a, path, rules).Obj? && Normalize(b, path, rules).Obj?
    ensures var x, y := Normalize(a, path, rules), Normalize(b, path, rules);
            Canon(a, path, rules) == Canon(b, path, rules) <==>
            forall k :: k in x.fields.Keys + y.fields.Keys ==> SameAt(x, y, k, path, rules)
  {
    hide Normalize, Canon;
    var x, y := Normalize(a, path, rules), Normalize(b, path, rules);
    CanonFields(a, path, rules, "");
    CanonFields(b, path, rules, "");
    var s, t := Canon(a, path, rules).fields, Canon(b, path, rules).fields;
    forall k
      ensures Get(s, k) == Get(t, k) <==> SameAt(x, y, k, path, rules)
      ensures k !in x.fields.Keys + y.fields.Keys ==> SameAt(x, y, k, path, rules)
      ensures (k in s ==> s[k] != Undefined) && (k in t ==> t[k] != Undefined)
    {
      CanonFields(a, path, rules, k);
      CanonFields(b, path, rules, k);
    }
    if forall k :: k in x.fields.Keys + y.fields.Keys ==> SameAt(x, y, k, path, rules) {
      SameReads(s, t);
    } else {
      var k :| k in x.fields.Keys + y.fields.Keys && !SameAt(x, y, k, path, rules);
      assert Get(s, k) != Get(t, k);
    }
  }

  ghost predicate SameUpTo(x: Json, y: Json, n: nat, path: string, rules: Rules)
    requires x.Arr? && y.Arr? && n <= |x.items| && n <= |y.items|
  {
    n == 0 || (SameUpTo(x, y, n - 1, path, rules) && SameItem(x, y, n - 1, path, rules))
  }

  lemma {:induction false} SameUpToIff(x: Json, y: Json, n: nat, path: string, rules: Rules)
    requires x.Arr? && y.Arr? && n <= |x.items| && n <= |y.items|
    ensures SameUpTo(x, y, n, path, rules) <==> forall i :: 0 <= i < n ==> SameItem(x, y, i, path, rules)
  {
    hide SameItem;
    if n > 0 {
      SameUpToIff(x, y, n - 1, path, rules);
    }
  }

  lemma {:induction false} SilentElements(x: Json, y: Json, n: nat, path: string, rules: Rules)
    requires x.Arr? && y.Arr? && n <= |x.items| && n <= |y.items|
    ensures ElementLeaves(x, y, n, path, rules) == [] <==> SameUpTo(x, y, n, path, rules)
    decreases Height(x) + Height(y), 1, n
  {
    hide Height, Leaves, Canon, SameItem, Element;
    if n > 0 {
      var last := SilentItem(x, y, n - 1, path, rules);
      SilentElements(x, y, n - 1, path, rules);
      assert ElementLeaves(x, y, n, path, rules) == ElementLeaves(x, y, n - 1, path, rules) + last;
    }
  }

  lemma {:induction false} SilentItem(x: Json, y: Json, i: nat, path: string, rules: Rules) returns (leaves: seq<Leaf>)
    requires x.Arr? && y.Arr? && i < |x.items| && i < |y.items|
    ensures leaves == Leaves(x.items[i], y.items[i], Element(path, i), rules)
    ensures leaves == [] <==> SameItem(x, y, i, path, rules)
    decreases Height(x) + Height(y), 0, 0
  {
    ChildrenAreLower(x);
    ChildrenAreLower(y);
    hide Height, Leaves, Canon;
    leaves := Leaves(x.items[i], y.items[i], Element(path, i), rules);
    SilentIffSameCanon(x.items[i], y.items[i], Element(path, i), rules);
  }

  ghost predicate SameFieldsUpTo(x: Json, y: Json, keys: seq<string>, n: nat, path: string, rules: Rules)
    requires x.Obj? && y.Obj? && n <= |keys|
  {
    n == 0 || (SameFieldsUpTo(x, y, keys, n - 1, path, rules) && SameAt(x, y, keys[n - 1], path, rules))
  }

  lemma {:induction false} SameFieldsUpToIff(x: Json, y: Json, keys: seq<string>, n: nat, path: string, rules: Rules)
    requires x.Obj? && y.Obj? && n <= |keys|
    ensures SameFieldsUpTo(x, y, keys, n, path, rules) <==> forall i :: 0 <= i < n ==> SameAt(x, y, keys[i], path, rules)
  {
    hide SameAt;
    if n > 0 {
      SameFieldsUpToIff(x, y, keys, n - 1, path, rules);
    }
  }

  lemma {:induction false} SilentFields(x: Json, y: Json, keys: seq<string>, n: nat, path: string, rules: Rules)
    requires x.Obj? && y.Obj? && n <= |keys| && KeysOf(keys, x, y)
    ensures FieldLeaves(x, y, keys, n, path, rules) == [] <==> SameFieldsUpTo(x, y, keys, n, path, rules)
    decreases Height(x) + Height(y), 1, n
  {
    hide Height, Leaves, Canon, SameAt;
    if n > 0 {
      var last := SilentField(x, y, keys[n - 1], path, rules);
      SilentFields(x, y, keys, n - 1, path, rules);
      assert FieldLeaves(x, y, keys, n, path, rules) == FieldLeaves(x, y, keys, n - 1, path, rules) + last;
    }
  }

  lemma {:induction false} SilentField(x: Json, y: Json, k: string, path: string, rules: Rules) returns (leaves: seq<Leaf>)
    requires x.Obj? && y.Obj? && (k in x.fields || k in y.fields)
    ensures leaves == Leaves(Get(x.fields, k), Get(y.fields, k), Child(path, k), rules)
    ensures leaves == [] <==> SameAt(x, y, k, path, rules)
    decreases Height(x) + Height(y), 0, 0
  {
    FieldsAreLower(x, y, k);
    hide Height, Leaves, Canon;
    leaves := Leaves(Get(x.fields, k), Get(y.fields, k), Child(path, k), rules);
    SilentIffSameCanon(Get(x.fields, k), Get(y.fields, k), Child(path, k), rules);
  }

  lemma CanonKind(v: Json, path: string, rules: Rules)
    ensures var x, c := Normalize(v, path, rules), Canon(v, path, rules);
            (x.Arr? <==> c.Arr?) && (x.Obj? <==> c.Obj?) && (Scalar(x) ==> c == x)
  {
  }

  /** The comparison is silent exactly when both sides have the same canonical form: rounding, not a window. */
  lemma {:induction false} SilentIffSameCanon(a: Json, b: Json, path: string, rules: Rules)
    ensures Leaves(a, b, path, rules) == [] <==> Canon(a, path, rules) == Canon(b, path, rules)
    decreases Height(a) + Height(b), 3, 0
  {
    var x, y := Normalize(a, path, rules), Normalize(b, path, rules);
    NormalizeNeverRaises(a, path, rules);
    NormalizeNeverRaises(b, path, rules);
    CanonKind(a, path, rules);
    CanonKind(b, path, rules);
    hide Normalize, Height, Classify, ElementLeaves, FieldLeaves, Canon, SameItem, SameAt, SameUpTo, SameFieldsUpTo;
    if x.Arr? && y.Arr? {
      SameItems(a, b, path, rules);
      if |x.items| == |y.items| {
        SilentElements(x, y, |x.items|, ArrayPath(path), rules);
        SameUpToIff(x, y, |x.items|, ArrayPath(path), rules);
      }
    } else if x.Obj? && y.Obj? {
      SameFields(a, b, path, rules);
      var keys := BothKeys(x, y);
      SilentFields(x, y, keys, |keys|, path, rules);
      SameFieldsUpToIff(x, y, keys, |keys|, path, rules);
      assert forall k :: k in x.fields.Keys + y.fields.Keys <==> k in keys;
      assert Compared(x, y, path, rules) == AllFieldLeaves(x, y, path, rules);
      assert AllFieldLeaves(x, y, path, rules) == FieldLeaves(x, y, keys, |keys|, path, rules);
    }
  }

  /** Two numbers at a path with a tolerance compare silently exactly when no rounding boundary tells them apart. */
  lemma SilentNumbersIff(x: real, y: real, path: string, rules: Rules)
    requires x <= y && path in rules.numericTolerances && path !in rules.ignoredPaths
    ensures Leaves(Num(x), Num(y), path, rules) == [] <==> RoundAlike(x, y, Digits(rules.numericTolerances[path]))
    ensures Leaves(Num(y), Num(x), path, rules) == [] <==> RoundAlike(x, y, Digits(rules.numericTolerances[path]))
  {
    hide Rounded, Digits, RoundAlike;
    RoundedAlikeIff(x, y, Digits(rules.numericTolerances[path]));
  }

  /** "No differences" is an equivalence of JSON trees, for every ruleset. */
  lemma SilentIsEquivalence(a: Json, b: Json, c: Json, path: string, rules: Rules)
    ensures Leaves(a, a, path, rules) == []
    ensures Leaves(a, b, path, rules) == [] ==> Leaves(b, a, path, rules) == []
    ensures Leaves(a, b, path, rules) == [] && Leaves(b, c, path, rules) == [] ==> Leaves(a, c, path, rules) == []
  {
    SilentIffSameCanon(a, a, path, rules);
    SilentIffSameCanon(a, b, path, rules);
    SilentIffSameCanon(b, a, path, rules);
    SilentIffSameCanon(b, c, path, rules);
    SilentIffSameCanon(a, c, path, rules);
  }

  // ---------------------------------------------------------------- symmetry

  function Swapped(l: Leaf): Leaf { Leaf(l.path, l.gapClass, l.reason, l.replay, l.upstream) }

  lemma ClassifySwaps(path: string, x: Json, y: Json, rules: Rules)
    ensures Mapped([Classify(path, x, y, rules)], Swapped) == [Classify(path, y, x, rules)]
  {
    hide Mentions, ReasonFor;
    assert Swapped(Classify(path, x, y, rules)) == Classify(path, y, x, rules);
  }

  lemma BothKeysCommute(x: Json, y: Json)
    requires x.Obj? && y.Obj?
    ensures BothKeys(y, x) == BothKeys(x, y)
  {
    assert x.fields.Keys + y.fields.Keys == y.fields.Keys + x.fields.Keys;
  }

  /** Comparing the other way round reports the same paths, classes and reasons, with the values exchanged. */
  lemma {:induction false} LeavesSwap(a: Json, b: Json, path: string, rules: Rules)
    ensures Leaves(b, a, path, rules) == Mapped(Leaves(a, b, path, rules), Swapped)
    decreases Height(a) + Height(b), 3, 0
  {
    NormalizeNeverRaises(a, path, rules);
    NormalizeNeverRaises(b, path, rules);
    hide Height, Compared, Normalize;
    ComparedSwaps(Normalize(a, path, rules), Normalize(b, path, rules), path, rules);
  }

  lemma {:induction false} ComparedSwaps(x: Json, y: Json, path: string, rules: Rules)
    ensures Compared(y, x, path, rules) == Mapped(Compared(x, y, path, rules), Swapped)
    decreases Height(x) + Height(y), 2, 0
  {
    ClassifySwaps(path, x, y, rules);
    ClassifySwaps(ArrayPath(path), x, y, rules);
    assert Mapped([], Swapped) == [];
    hide Height, ElementLeaves, FieldLeaves, Classify, Swapped, BothKeys;
    if x.Arr? && y.Arr? {
      if |x.items| == |y.items| { ElementsSwap(x, y, |x.items|, ArrayPath(path), rules); }
    } else if x.Obj? && y.Obj? {
      BothKeysCommute(x, y);
      FieldsSwap(x, y, BothKeys(x, y), |BothKeys(x, y)|, path, rules);
      assert AllFieldLeaves(y, x, path, rules) == Mapped(AllFieldLeaves(x, y, path, rules), Swapped);
    }
  }

  lemma {:induction false} ElementsSwap(x: Json, y: Json, n: nat, path: string, rules: Rules)
    requires x.Arr? && y.Arr? && n <= |x.items| && n <= |y.items|
    ensures ElementLeaves(y, x, n, path, rules) == Mapped(ElementLeaves(x, y, n, path, rules), Swapped)
    decreases Height(x) + Height(y), 1, n
  {
    if n > 0 {
      ChildrenAreLower(x);
      ChildrenAreLower(y);
      hide Height, Leaves;
      ElementsSwap(x, y, n - 1, path, rules);
      LeavesSwap(x.items[n - 1], y.items[n - 1], Element(path, n - 1), rules);
      MappedConcat(ElementLeaves(x, y, n - 1, path, rules),
                   Leaves(x.items[n - 1], y.items[n - 1], Element(path, n - 1), rules), Swapped);
    }
  }

  lemma {:induction false} FieldsSwap(x: Json, y: Json, keys: seq<string>, n: nat, path: string, rules: Rules)
    requires x.Obj? && y.Obj? && n <= |keys| && KeysOf(keys, x, y)
    ensures FieldLeaves(y, x, keys, n, path, rules) == Mapped(FieldLeaves(x, y, keys, n, path, rules), Swapped)
    decreases Height(x) + Height(y), 1, n
  {
    if n > 0 {
      var k := keys[n - 1];
      FieldsAreLower(x, y, k);
      hide Height, Leaves, Get, Child, Swapped;
      FieldsSwap(x, y, keys, n - 1, path, rules);
      LeavesSwap(Get(x.fields, k), Get(y.fields, k), Child(path, k), rules);
      MappedConcat(FieldLeaves(x, y, keys, n - 1, path, rules),
                   Leaves(Get(x.fields, k), Get(y.fields, k), Child(path, k), rules), Swapped);
    }
  }

  // ---------------------------------------------------------------- what a leaf says

  /** The two values differ, and the class says how: what a reader of the report may conclude from it. */
  ghost predicate Genuine(l: Leaf, rules: Rules) {
    && l.upstream != l.replay
    && match l.gapClass {
      case MissingField => l.reason == "Field present on only one side." && l.upstream.Undefined? != l.replay.Undefined?
      case Freshness =>
        l.reason == "Freshness-sensitive field differs." && Present(l) && Mentions(l.path, rules.freshnessPaths)
      case Source =>
        && l.reason == "Source/provider-linked field differs."
        && Present(l) && Mentions(l.path, rules.sourcePaths) && !Mentions(l.path, rules.freshnessPaths)
      case Ranking =>
        && l.reason == "Array membership or ordering differs."
        && Present(l) && (l.upstream.Arr? || l.replay.Arr?) && Plain(l, rules)
      case Shape =>
        && l.reason == "Object shape differs."
        && Present(l) && (l.upstream.Obj? || l.replay.Obj?) && !l.upstream.Arr? && !l.replay.Arr? && Plain(l, rules)
      case Value =>
        && l.reason == "Scalar value differs."
        && Present(l) && Scalar(l.upstream) && Scalar(l.replay) && Plain(l, rules)
    }
  }

  predicate Present(l: Leaf) { !l.upstream.Undefined? && !l.replay.Undefined? }

  predicate Plain(l: Leaf, rules: Rules) {
    !Mentions(l.path, rules.freshnessPaths) && !Mentions(l.path, rules.sourcePaths)
  }

  lemma ClassifyIsGenuine(path: string, x: Json, y: Json, rules: Rules)
    requires x != y
    ensures Genuine(Classify(path, x, y, rules), rules)
  {
    hide Mentions;
  }

  /** A path mentions a part that it contains anywhere. */
  lemma MentionsIff(path: string, parts: seq<string>)
    ensures Mentions(path, parts) <==> exists before, part, after :: part in parts && path == before + part + after
  {
    if Mentions(path, parts) {
      var part :| part in parts && Includes(path, part);
      IncludesIff(path, part);
      var before, after :| path == before + part + after;
    }
    hide Includes;
    if before, part, after :| part in parts && path == before + part + after {
      IncludesIff(path, part);
    }
  }

  lemma {:induction false} LeavesAreGenuine(a: Json, b: Json, path: string, rules: Rules)
    ensures forall l :: l in Leaves(a, b, path, rules) ==> Genuine(l, rules)
    decreases Height(a) + Height(b), 3, 0
  {
    NormalizeNeverRaises(a, path, rules);
    NormalizeNeverRaises(b, path, rules);
    hide Height, Compared, Normalize, Genuine;
    ComparedIsGenuine(Normalize(a, path, rules), Normalize(b, path, rules), path, rules);
  }

  lemma {:induction false} ComparedIsGenuine(x: Json, y: Json, path: string, rules: Rules)
    ensures forall l :: l in Compared(x, y, path, rules) ==> Genuine(l, rules)
    decreases Height(x) + Height(y), 2, 0
  {
    if x != y {
      ClassifyIsGenuine(path, x, y, rules);
      ClassifyIsGenuine(ArrayPath(path), x, y, rules);
    }
    hide Height, ElementLeaves, FieldLeaves, Classify, Genuine;
    if x.Arr? && y.Arr? {
      if |x.items| == |y.items| { ElementsAreGenuine(x, y, |x.items|, ArrayPath(path), rules); }
    } else if x.Obj? && y.Obj? {
      FieldsAreGenuine(x, y, BothKeys(x, y), |BothKeys(x, y)|, path, rules);
    }
  }

  lemma {:induction false} ElementsAreGenuine(x: Json, y: Json, n: nat, path: string, rules: Rules)
    requires x.Arr? && y.Arr? && n <= |x.items| && n <= |y.items|
    ensures forall l :: l in ElementLeaves(x, y, n, path, rules) ==> Genuine(l, rules)
    decreases Height(x) + Height(y), 1, n
  {
    if n > 0 {
      ChildrenAreLower(x);
      ChildrenAreLower(y);
      hide Height, Leaves, Genuine;
      ElementsAreGenuine(x, y, n - 1, path, rules);
      LeavesAreGenuine(x.items[n - 1], y.items[n - 1], Element(path, n - 1), rules);
    }
  }

  lemma {:induction false} FieldsAreGenuine(x: Json, y: Json, keys: seq<string>, n: nat, path: string, rules: Rules)
    requires x.Obj? && y.Obj? && n <= |keys| && KeysOf(keys, x, y)
    ensures forall l :: l in FieldLeaves(x, y, keys, n, path, rules) ==> Genuine(l, rules)
    decreases Height(x) + Height(y), 1, n
  {
    if n > 0 {
      var k := keys[n - 1];
      FieldsAreLower(x, y, k);
      hide Height, Leaves, Genuine, Get, Child;
      FieldsAreGenuine(x, y, keys, n - 1, path, rules);
      LeavesAreGenuine(Get(x.fields, k), Get(y.fields, k), Child(path, k), rules);
    }
  }

  // ---------------------------------------------------------------- order-insensitive arrays

  /** Whatever the order of the entries, the normalized array is the same. */
  ghost predicate OrderBlind(items: seq<Json>, path: string, rules: Rules) {
    forall s, t :: multiset(s) == multiset(items) && multiset(t) == multiset(items) ==>
      Normalize(Arr(s), path, rules) == Normalize(Arr(t), path, rules)
  }

  /** The ranking ties no two entries that normalize differently. */
  ghost predicate RankSeparates(items: seq<Json>, path: string, rules: Rules) {
    forall u, v :: u in items && v in items ==>
      var x, y := Normalize(u, path + "[]", rules), Normalize(v, path + "[]", rules);
      EntryLeq(rules, x, y) && EntryLeq(rules, y, x) ==> x == y
  }

  lemma SeparatedEntries(
    items: seq<Json>, s: seq<Json>, a: Json, b: Json, path: string, rules: Rules)
    requires RankSeparates(items, path, rules) && multiset(s) == multiset(items)
    requires a in NormalizeEach(s, path + "[]", rules) && b in NormalizeEach(s, path + "[]", rules)
    requires EntryLeq(rules, a, b) && EntryLeq(rules, b, a)
    ensures a == b
  {
    hide Normalize, EntryLeq;
    var x := NormalizeEach(s, path + "[]", rules);
    var i :| 0 <= i < |s| && x[i] == a;
    var j :| 0 <= j < |s| && x[j] == b;
    assert s[i] in multiset(items) && s[j] in multiset(items);
  }

  lemma EachIsMapped(s: seq<Json>, path: string, rules: Rules)
    ensures NormalizeEach(s, path, rules) == Mapped(s, v => Normalize(v, path, rules))
  {
    hide Normalize;
  }

  lemma SeparatedIsBlind(items: seq<Json>, s: seq<Json>, t: seq<Json>, path: string, rules: Rules)
    requires RankSeparates(items, path, rules)
    requires multiset(s) == multiset(items) && multiset(t) == multiset(items)
    ensures Normalize(Arr(s), path, rules) == Normalize(Arr(t), path, rules) || path !in rules.orderingInsensitivePaths
  {
    var leq := (a, b) => EntryLeq(rules, a, b);
    var x, y := NormalizeEach(s, path + "[]", rules), NormalizeEach(t, path + "[]", rules);
    EachIsMapped(s, path + "[]", rules);
    EachIsMapped(t, path + "[]", rules);
    MappedPermutes(s, t, v => Normalize(v, path + "[]", rules));
    EntryLeqIsPreorder(rules);
    SortByIs(x, leq);
    SortByIs(y, leq);
    forall a, b | a in SortBy(x, leq) && b in SortBy(x, leq) && leq(a, b) && leq(b, a)
      ensures a == b
    {
      SortByMembers(x, leq, a);
      SortByMembers(x, leq, b);
      SeparatedEntries(items, s, a, b, path, rules);
    }
    OrderedIsUnique(SortBy(x, leq), SortBy(y, leq), leq);
  }

  lemma TiedPairShowsOrder(u: Json, v: Json, rest: seq<Json>, path: string, rules: Rules)
    requires path in rules.orderingInsensitivePaths && path !in rules.ignoredPaths
    requires Normalize(u, path + "[]", rules) != Normalize(v, path + "[]", rules)
    requires EntryLeq(rules, Normalize(u, path + "[]", rules), Normalize(v, path + "[]", rules))
    requires EntryLeq(rules, Normalize(v, path + "[]", rules), Normalize(u, path + "[]", rules))
    ensures Normalize(Arr([u, v] + rest), path, rules) != Normalize(Arr([v, u] + rest), path, rules)
  {
    var leq := (a, b) => EntryLeq(rules, a, b);
    var x, y := Normalize(u, path + "[]", rules), Normalize(v, path + "[]", rules);
    var more := NormalizeEach(rest, path + "[]", rules);
    EntryLeqIsPreorder(rules);
    EachOfPair(u, v, rest, path + "[]", rules);
    EachOfPair(v, u, rest, path + "[]", rules);
    hide EntryLeq, SortBy;
    TieShowsOrder(x, y, more, leq);
  }

  lemma EachOfPair(u: Json, v: Json, rest: seq<Json>, path: string, rules: Rules)
    ensures NormalizeEach([u, v] + rest, path, rules) ==
            [Normalize(u, path, rules), Normalize(v, path, rules)] + NormalizeEach(rest, path, rules)
  {
    hide Normalize;
  }

  /** An order-insensitive array normalizes independently of its order exactly when the ranking separates its entries. */
  lemma OrderBlindIff(items: seq<Json>, path: string, rules: Rules)
    requires path in rules.orderingInsensitivePaths && path !in rules.ignoredPaths
    ensures OrderBlind(items, path, rules) <==> RankSeparates(items, path, rules)
  {
    hide Normalize;
    if RankSeparates(items, path, rules) {
      forall s, t | multiset(s) == multiset(items) && multiset(t) == multiset(items)
        ensures Normalize(Arr(s), path, rules) == Normalize(Arr(t), path, rules)
      {
        SeparatedIsBlind(items, s, t, path, rules);
      }
    } else {
      var u, v := TiedPair(items, path, rules);
      var rest := WithoutPair(items, u, v);
      TiedPairShowsOrder(u, v, rest, path, rules);
    }
  }

  lemma TiedPair(items: seq<Json>, path: string, rules: Rules) returns (u: Json, v: Json)
    requires !RankSeparates(items, path, rules)
    ensures u in items && v in items && u != v
    ensures Normalize(u, path + "[]", rules) != Normalize(v, path + "[]", rules)
    ensures EntryLeq(rules, Normalize(u, path + "[]", rules), Normalize(v, path + "[]", rules))
    ensures EntryLeq(rules, Normalize(v, path + "[]", rules), Normalize(u, path + "[]", rules))
  {
    hide Normalize;
    u, v :| u in items && v in items &&
            var x, y := Normalize(u, path + "[]", rules), Normalize(v, path + "[]", rules);
            EntryLeq(rules, x, y) && EntryLeq(rules, y, x) && x != y;
  }

  lemma PairAndRest(u: Json, v: Json, rest: seq<Json>)
    ensures multiset([u, v] + rest) == multiset(rest) + multiset{v} + multiset{u}
    ensures multiset([v, u] + rest) == multiset(rest) + multiset{v} + multiset{u}
  {
  }

  lemma WithoutPair(items: seq<Json>, u: Json, v: Json) returns (rest: seq<Json>)
    requires u in items && v in items && u != v
    ensures multiset([u, v] + rest) == multiset(items) && multiset([v, u] + rest) == multiset(items)
  {
    var others := Without(items, u);
    rest := Without(others, v);
    PairAndRest(u, v, rest);
  }

  lemma Without(items: seq<Json>, u: Json) returns (rest: seq<Json>)
    requires u in items
    ensures multiset(items) == multiset(rest) + multiset{u}
    ensures forall v :: v in items && v != u ==> v in rest
  {
    var i :| 0 <= i < |items| && items[i] == u;
    Removed(items, i);
    rest := items[..i] + items[i + 1..];
    forall v | v in items && v != u
      ensures v in rest
    {
      assert v in multiset(items);
      assert v in multiset(rest);
    }
  }

  // ---------------------------------------------------------------- when a comparison shows the order

  /** The normalized entries in the order they are compared in. */
  function Arranged(items: seq<Json>, path: string, rules: Rules): seq<Json> {
    SortBy(NormalizeEach(items, path + "[]", rules), (a, b) => EntryLeq(rules, a, b))
  }

  predicate Tied(rules: Rules, a: Json, b: Json) { EntryLeq(rules, a, b) && EntryLeq(rules, b, a) }

  /** Whatever the order of the entries on either side, the comparison is silent. */
  ghost predicate CompareBlind(items: seq<Json>, path: string, rules: Rules) {
    forall s, t :: multiset(s) == multiset(items) && multiset(t) == multiset(items) ==>
      Leaves(Arr(s), Arr(t), path, rules) == []
  }

  /** Entries that tie look the same to the comparison at every position they can be sorted to. */
  ghost predicate TiesLookAlike(items: seq<Json>, path: string, rules: Rules) {
    var entries := Arranged(items, path, rules);
    forall i, j :: 0 <= i < |entries| && 0 <= j < |entries| && Tied(rules, entries[i], entries[j]) ==>
      Canon(entries[j], Element(ArrayPath(path), i), rules) == Canon(entries[i], Element(ArrayPath(path), i), rules)
  }

  /** What the sort looks at. */
  function SortKey(rules: Rules, v: Json): Option<real> {
    if v.Undefined? then None else Some(rules.entryRank(v))
  }

  predicate KeyLeq(a: Option<real>, b: Option<real>) { b.None? || (a.Some? && a.value <= b.value) }

  lemma KeysDecide(rules: Rules)
    ensures TotalPreorder(KeyLeq)
    ensures forall a, b :: EntryLeq(rules, a, b) == KeyLeq(SortKey(rules, a), SortKey(rules, b))
    ensures forall a, b :: Tied(rules, a, b) <==> SortKey(rules, a) == SortKey(rules, b)
    ensures forall x, y :: KeyLeq(x, y) && KeyLeq(y, x) ==> x == y
  {
  }

  /** Any two orders of the same entries are sorted to the same keys, position by position. */
  lemma ArrangedKeys(s: seq<Json>, t: seq<Json>, path: string, rules: Rules)
    requires multiset(s) == multiset(t)
    ensures var u, v := Arranged(s, path, rules), Arranged(t, path, rules);
            && |u| == |v| == |s| && multiset(u) == multiset(v)
            && forall i :: 0 <= i < |u| ==> Tied(rules, u[i], v[i])
  {
    var leq, key := (a, b) => EntryLeq(rules, a, b), (v: Json) => SortKey(rules, v);
    var x, y := NormalizeEach(s, path + "[]", rules), NormalizeEach(t, path + "[]", rules);
    EntryLeqIsPreorder(rules);
    KeysDecide(rules);
    EachIsMapped(s, path + "[]", rules);
    EachIsMapped(t, path + "[]", rules);
    MappedPermutes(s, t, v => Normalize(v, path + "[]", rules));
    hide EntryLeq, KeyLeq, SortKey, Tied, SortBy, Normalize;
    SortByIs(x, leq);
    SortByIs(y, leq);
    MappedPermutes(x, y, key);
    SortByMapped(x, key, leq, KeyLeq);
    SortByMapped(y, key, leq, KeyLeq);
    SortByIs(Mapped(x, key), KeyLeq);
    SortByIs(Mapped(y, key), KeyLeq);
    OrderedIsUnique(SortBy(Mapped(x, key), KeyLeq), SortBy(Mapped(y, key), KeyLeq), KeyLeq);
    var u, v := SortBy(x, leq), SortBy(y, leq);
    assert Mapped(u, key) == Mapped(v, key);
    forall i | 0 <= i < |u|
      ensures Tied(rules, u[i], v[i])
    {
      assert Mapped(u, key)[i] == SortKey(rules, u[i]) && Mapped(v, key)[i] == SortKey(rules, v[i]);
    }
  }

  lemma EntryTiesIn(entries: seq<Json>, u: seq<Json>, i: nat, rules: Rules) returns (j: nat)
    requires multiset(entries) == multiset(u) && i < |u|
    ensures j < |entries| && entries[j] == u[i]
  {
    assert u[i] in multiset(entries);
    j :| 0 <= j < |entries| && entries[j] == u[i];
  }

  /** Where ties look alike, any order of the entries has the canonical form of any other. */
  lemma AlikeAt(items: seq<Json>, s: seq<Json>, i: nat, path: string, rules: Rules)
    requires TiesLookAlike(items, path, rules) && multiset(s) == multiset(items) && i < |items|
    ensures |Arranged(items, path, rules)| == |Arranged(s, path, rules)| == |items|
    ensures Canon(Arranged(s, path, rules)[i], Element(ArrayPath(path), i), rules)
         == Canon(Arranged(items, path, rules)[i], Element(ArrayPath(path), i), rules)
  {
    ArrangedKeys(items, s, path, rules);
    hide Arranged, Canon, Tied;
    var j := EntryTiesIn(Arranged(items, path, rules), Arranged(s, path, rules), i, rules);
  }

  lemma AlikeIsBlind(items: seq<Json>, s: seq<Json>, t: seq<Json>, path: string, rules: Rules)
    requires path in rules.orderingInsensitivePaths && path !in rules.ignoredPaths
    requires TiesLookAlike(items, path, rules)
    requires multiset(s) == multiset(items) && multiset(t) == multiset(items)
    ensures Leaves(Arr(s), Arr(t), path, rules) == []
  {
    ArrangedKeys(s, t, path, rules);
    ArrangedKeys(items, s, path, rules);
    var x, y := Normalize(Arr(s), path, rules), Normalize(Arr(t), path, rules);
    assert x == Arr(Arranged(s, path, rules)) && y == Arr(Arranged(t, path, rules));
    hide Arranged, Canon, Tied, TiesLookAlike, Normalize;
    forall i | 0 <= i < |x.items|
      ensures SameItem(x, y, i, ArrayPath(path), rules)
    {
      AlikeAt(items, s, i, path, rules);
      AlikeAt(items, t, i, path, rules);
    }
    SameItems(Arr(s), Arr(t), path, rules);
    SilentIffSameCanon(Arr(s), Arr(t), path, rules);
  }

  /** The order of the items that their sorted entries are already in. */
  lemma SortedItems(items: seq<Json>, path: string, rules: Rules) returns (s: seq<Json>)
    ensures multiset(s) == multiset(items)
    ensures NormalizeEach(s, path + "[]", rules) == Arranged(items, path, rules)
  {
    var norm := (v: Json) => Normalize(v, path + "[]", rules);
    var leq := (a: Json, b: Json) => EntryLeq(rules, a, b);
    var leqItems := (a: Json, b: Json) => EntryLeq(rules, Normalize(a, path + "[]", rules), Normalize(b, path + "[]", rules));
    EntryLeqIsPreorder(rules);
    EachIsMapped(items, path + "[]", rules);
    s := SortBy(items, leqItems);
    EachIsMapped(s, path + "[]", rules);
    hide Normalize, EntryLeq, SortBy;
    assert TotalPreorder(leqItems) by {
      forall x, y, z
        ensures leqItems(x, y) || leqItems(y, x)
        ensures leqItems(x, y) && leqItems(y, z) ==> leqItems(x, z)
      {
        assert leq(norm(x), norm(y)) || leq(norm(y), norm(x));
        assert leq(norm(x), norm(y)) && leq(norm(y), norm(z)) ==> leq(norm(x), norm(z));
      }
    }
    SortByIs(items, leqItems);
    SortByMapped(items, norm, leqItems, leq);
  }

  /** Entries that tie can be sorted to each other's places. */
  lemma ArrangedOtherwise(items: seq<Json>, path: string, rules: Rules, i: nat, j: nat) returns (s: seq<Json>)
    requires var entries := Arranged(items, path, rules);
             i < |entries| && j < |entries| && Tied(rules, entries[i], entries[j])
    ensures var entries := Arranged(items, path, rules);
            multiset(s) == multiset(items) && |Arranged(s, path, rules)| == |entries| && Arranged(s, path, rules)[i] == entries[j]
  {
    var leq := (a: Json, b: Json) => EntryLeq(rules, a, b);
    var sorted := SortedItems(items, path, rules);
    var entries := Arranged(items, path, rules);
    s := sorted[i := sorted[j]][j := sorted[i]];
    var swapped := entries[i := entries[j]][j := entries[i]];
    assert NormalizeEach(s, path + "[]", rules) == swapped by { hide Normalize, Arranged; }
    SwapPermutes(sorted, i, j);
    EntryLeqIsPreorder(rules);
    SortByIs(NormalizeEach(items, path + "[]", rules), leq);
    hide Normalize, NormalizeEach, EntryLeq, SortBy;
    SwapKeepsOrdered(entries, i, j, leq);
    SortByKeepsOrdered(swapped, leq);
  }

  /**
   * The comparison of an order-insensitive array shows no order exactly when entries that tie look
   * the same to it wherever they are sorted to. That the ranking separates them is sufficient.
   */
  lemma CompareBlindIff(items: seq<Json>, path: string, rules: Rules)
    requires path in rules.orderingInsensitivePaths && path !in rules.ignoredPaths
    ensures CompareBlind(items, path, rules) <==> TiesLookAlike(items, path, rules)
    ensures RankSeparates(items, path, rules) ==> CompareBlind(items, path, rules)
  {
    if TiesLookAlike(items, path, rules) {
      forall s, t | multiset(s) == multiset(items) && multiset(t) == multiset(items)
        ensures Leaves(Arr(s), Arr(t), path, rules) == []
      {
        AlikeIsBlind(items, s, t, path, rules);
      }
    }
    if CompareBlind(items, path, rules) {
      BlindLooksAlike(items, path, rules);
    }
    if RankSeparates(items, path, rules) {
      OrderBlindIff(items, path, rules);
      BlindFormsCompareBlind(items, path, rules);
    }
  }

  lemma BlindLooksAlike(items: seq<Json>, path: string, rules: Rules)
    requires path in rules.orderingInsensitivePaths && path !in rules.ignoredPaths
    requires CompareBlind(items, path, rules)
    ensures TiesLookAlike(items, path, rules)
  {
    var entries := Arranged(items, path, rules);
    forall i, j | 0 <= i < |entries| && 0 <= j < |entries| && Tied(rules, entries[i], entries[j])
      ensures Canon(entries[j], Element(ArrayPath(path), i), rules) == Canon(entries[i], Element(ArrayPath(path), i), rules)
    {
      var s := ArrangedOtherwise(items, path, rules, i, j);
      var x, y := Normalize(Arr(s), path, rules), Normalize(Arr(items), path, rules);
      assert x == Arr(Arranged(s, path, rules)) && y == Arr(entries);
      hide Arranged, Canon, Tied, Normalize;
      assert Leaves(Arr(s), Arr(items), path, rules) == [];
      SilentIffSameCanon(Arr(s), Arr(items), path, rules);
      SameItems(Arr(s), Arr(items), path, rules);
      assert SameItem(x, y, i, ArrayPath(path), rules);
    }
  }

  lemma BlindFormsCompareBlind(items: seq<Json>, path: string, rules: Rules)
    requires OrderBlind(items, path, rules)
    ensures CompareBlind(items, path, rules)
  {
    hide Normalize;
    forall s, t | multiset(s) == multiset(items) && multiset(t) == multiset(items)
      ensures Leaves(Arr(s), Arr(t), path, rules) == []
    {
      SilentIffSameCanon(Arr(s), Arr(t), path, rules);
      SameFormSameCanon(Arr(s), Arr(t), path, rules);
    }
  }

  lemma SameFormSameCanon(a: Json, b: Json, path: string, rules: Rules)
    requires Normalize(a, path, rules) == Normalize(b, path, rules)
    ensures Canon(a, path, rules) == Canon(b, path, rules)
  {
  }

  /** Two different texts the ranking ties, as localeCompare ties canonically equivalent ones, show their order. */
  lemma TiedTextsShowOrder(a: string, b: string, path: string, rules: Rules)
    requires path in rules.orderingInsensitivePaths && path !in rules.ignoredPaths
    requires path + "[]" !in rules.ignoredPaths && Element(ArrayPath(path), 0) !in rules.ignoredPaths
    requires a != b && rules.entryRank(Str(a)) == rules.entryRank(Str(b))
    ensures Leaves(Arr([Str(a), Str(b)]), Arr([Str(b), Str(a)]), path, rules) != []
  {
    var s, t := [Str(a), Str(b)], [Str(b), Str(a)];
    var leq := (x: Json, y: Json) => EntryLeq(rules, x, y);
    assert NormalizeEach(s, path + "[]", rules) == s && NormalizeEach(t, path + "[]", rules) == t;
    SortByKeepsOrdered(s, leq);
    SortByKeepsOrdered(t, leq);
    var x, y := Normalize(Arr(s), path, rules), Normalize(Arr(t), path, rules);
    assert x == Arr(s) && y == Arr(t);
    SilentIffSameCanon(Arr(s), Arr(t), path, rules);
    SameItems(Arr(s), Arr(t), path, rules);
    assert !SameItem(x, y, 0, ArrayPath(path), rules);
  }

  /** An input on which a comparison shows the order: two texts of one rank. */
  lemma OrderCanShow()
    ensures var rules := Rules([], ["p"], [], [], map[], _ => 0.0);
            Leaves(Arr([Str("a"), Str("b")]), Arr([Str("b"), Str("a")]), "p", rules) != []
  {
    TiedTextsShowOrder("a", "b", "p", Rules([], ["p"], [], [], map[], _ => 0.0));
  }

  lemma UndefinedFieldIsDropped(path: string, rules: Rules)
    ensures Canon(Obj(map["a" := Undefined]), path, rules) == Canon(Obj(map[]), path, rules)
  {
    if path !in rules.ignoredPaths {
      var x, y := Normalize(Obj(map["a" := Undefined]), path, rules), Normalize(Obj(map[]), path, rules);
      SameFields(Obj(map["a" := Undefined]), Obj(map[]), path, rules);
      forall k | k in x.fields.Keys + y.fields.Keys
        ensures SameAt(x, y, k, path, rules)
      {
        assert Get(x.fields, k) == Undefined == Get(y.fields, k);
      }
    }
  }

  const WITH_FIELD := Obj(map["a" := Num(1.0)])
  const WITH_NOTHING := Obj(map["a" := Undefined])
  const WITHOUT_FIELD := Obj(map[])

  /** Two entries that differ only in an ignored field, ranked alike. */
  ghost predicate DifferWhereIgnored(path: string, rules: Rules) {
    && path in rules.orderingInsensitivePaths && path !in rules.ignoredPaths && path + "[]" !in rules.ignoredPaths
    && Child(path + "[]", "a") in rules.ignoredPaths
    && rules.entryRank(WITH_NOTHING) == rules.entryRank(WITHOUT_FIELD)
  }

  lemma IgnoredEntry(path: string, rules: Rules)
    requires DifferWhereIgnored(path, rules)
    ensures Normalize(WITH_FIELD, path + "[]", rules) == WITH_NOTHING
    ensures Normalize(WITHOUT_FIELD, path + "[]", rules) == WITHOUT_FIELD
  {
    hide SortBy, NormalizeEach, Rounded, Digits, Child;
    var fields := Normalize(WITH_FIELD, path + "[]", rules).fields;
    assert Normalize(Num(1.0), Child(path + "[]", "a"), rules) == Undefined;
    FieldNormalizes(WITH_FIELD.fields, "a", path + "[]", rules);
    assert fields.Keys == {"a"} && fields["a"] == Undefined;
    assert Normalize(WITHOUT_FIELD, path + "[]", rules).fields == map[];
  }

  lemma IgnoredFieldNormalizes(path: string, rules: Rules)
    requires DifferWhereIgnored(path, rules)
    ensures NormalizeEach([WITH_FIELD, WITHOUT_FIELD], path + "[]", rules) == [WITH_NOTHING, WITHOUT_FIELD]
    ensures Arranged([WITH_FIELD, WITHOUT_FIELD], path, rules) == [WITH_NOTHING, WITHOUT_FIELD]
  {
    IgnoredEntry(path, rules);
    hide Normalize, SortBy;
    assert NormalizeEach([WITH_FIELD, WITHOUT_FIELD], path + "[]", rules) == [WITH_NOTHING, WITHOUT_FIELD];
    hide NormalizeEach;
    SortByKeepsOrdered([WITH_NOTHING, WITHOUT_FIELD], (x: Json, y: Json) => EntryLeq(rules, x, y));
  }

  lemma IgnoredFieldLooksAlike(path: string, rules: Rules)
    requires DifferWhereIgnored(path, rules)
    ensures TiesLookAlike([WITH_FIELD, WITHOUT_FIELD], path, rules)
  {
    hide Normalize, SortBy, Canon, Arranged, Tied, Element, DifferWhereIgnored;
    IgnoredFieldNormalizes(path, rules);
    forall i: nat
      ensures Canon(WITH_NOTHING, Element(ArrayPath(path), i), rules) == Canon(WITHOUT_FIELD, Element(ArrayPath(path), i), rules)
    {
      UndefinedFieldIsDropped(Element(ArrayPath(path), i), rules);
    }
  }

  lemma IgnoredFieldTies(path: string, rules: Rules)
    requires DifferWhereIgnored(path, rules)
    ensures !RankSeparates([WITH_FIELD, WITHOUT_FIELD], path, rules)
  {
    hide SortBy, Arranged;
    var items := [WITH_FIELD, WITHOUT_FIELD];
    assert items[0] in items && items[1] in items;
    IgnoredEntry(path, rules);
    hide Normalize;
    assert EntryLeq(rules, WITH_NOTHING, WITHOUT_FIELD) && EntryLeq(rules, WITHOUT_FIELD, WITH_NOTHING);
  }

  /** Then the normalized array shows the order of the two, while no comparison does. */
  lemma IgnoredFieldHidesOrder(path: string, rules: Rules)
    requires DifferWhereIgnored(path, rules)
    ensures !OrderBlind([WITH_FIELD, WITHOUT_FIELD], path, rules) && CompareBlind([WITH_FIELD, WITHOUT_FIELD], path, rules)
  {
    hide OrderBlind, CompareBlind, RankSeparates, TiesLookAlike;
    IgnoredFieldTies(path, rules);
    IgnoredFieldLooksAlike(path, rules);
    OrderBlindIff([WITH_FIELD, WITHOUT_FIELD], path, rules);
    CompareBlindIff([WITH_FIELD, WITHOUT_FIELD], path, rules);
  }

  lemma OrderCanHide()
    ensures DifferWhereIgnored("p", Rules(["p[].a"], ["p"], [], [], map[], _ => 0.0))
  {
    assert "p" + "[]" != "p[].a" && "p" != "p[].a";
    assert Child("p" + "[]", "a") == "p[].a";
  }

  // ---------------------------------------------------------------- values at one path

  /** Two scalars that no rule touches: silent exactly when equal, else one leaf that carries both. */
  lemma ScalarsCompare(v: Json, w: Json, path: string, rules: Rules)
    requires Scalar(v) && Scalar(w) && path !in rules.ignoredPaths
    requires path in rules.numericTolerances ==> !v.Num? && !w.Num?
    ensures var leaves := Leaves(v, w, path, rules);
            if v == w then leaves == []
            else |leaves| == 1 && leaves[0].path == path && leaves[0].upstream == v && leaves[0].replay == w
                 && Genuine(leaves[0], rules)
  {
    if v != w { ClassifyIsGenuine(path, v, w, rules); }
    hide Genuine, Mentions;
  }

  /** A tolerance makes a number no other scalar. */
  lemma NumbersAreNotOthers(x: real, w: Json, path: string, rules: Rules)
    requires Scalar(w) && !w.Num? && path !in rules.ignoredPaths
    ensures |Leaves(Num(x), w, path, rules)| == 1 && |Leaves(w, Num(x), path, rules)| == 1
  {
    hide Rounded, Digits;
  }

  /** Values of different kinds: one leaf, at the path itself. */
  lemma KindsCompare(v: Json, w: Json, path: string, rules: Rules)
    requires path !in rules.ignoredPaths && (v.Arr? != w.Arr? || v.Obj? != w.Obj?)
    ensures |Leaves(v, w, path, rules)| == 1 && Leaves(v, w, path, rules)[0].path == path
  {
    hide Rounded, Digits, SortBy, Mentions;
  }

  /** Nothing at an ignored path adds a leaf. */
  lemma IgnoredIsSilent(v: Json, w: Json, path: string, rules: Rules)
    requires path in rules.ignoredPaths
    ensures Leaves(v, w, path, rules) == []
  {
  }

  /** An array whose order counts is compared entry by entry, one whose order does not as its sorted entries. */
  lemma ArraysCompare(s: seq<Json>, t: seq<Json>, path: string, rules: Rules)
    requires path !in rules.ignoredPaths && |s| == |t|
    ensures var sorted := path in rules.orderingInsensitivePaths;
            var u, v := if sorted then Arranged(s, path, rules) else s, if sorted then Arranged(t, path, rules) else t;
            |u| == |v| == |s|
            && Leaves(Arr(s), Arr(t), path, rules) == ElementLeaves(Arr(u), Arr(v), |s|, ArrayPath(path), rules)
  {
    hide SortBy, EntryLeq, Tied, Height, ElementLeaves, NormalizeEach;
    ArrangedKeys(s, s, path, rules);
    ArrangedKeys(t, t, path, rules);
  }

  /** Arrays of different lengths: one leaf, at the array. */
  lemma LengthsCompare(s: seq<Json>, t: seq<Json>, path: string, rules: Rules)
    requires path !in rules.ignoredPaths && |s| != |t|
    ensures |Leaves(Arr(s), Arr(t), path, rules)| == 1
    ensures Leaves(Arr(s), Arr(t), path, rules)[0].path == if path == "" then "$array" else path
  {
    hide SortBy, EntryLeq, Tied, Height, NormalizeEach, Mentions;
    ArrangedKeys(s, s, path, rules);
    ArrangedKeys(t, t, path, rules);
  }

  lemma LeavesOfNormalized(a: Json, b: Json, path: string, rules: Rules)
    ensures Leaves(Normalize(a, path, rules), Normalize(b, path, rules), path, rules) == Leaves(a, b, path, rules)
  {
    NormalizeIsIdempotent(a, path, rules);
    NormalizeIsIdempotent(b, path, rules);
    hide Normalize, Compared;
  }

  /** Under any rules two objects are compared field by field, as the fields stand: every key of either, in sorted order. */
  lemma ObjectsCompare(f: map<string, Json>, g: map<string, Json>, path: string, rules: Rules)
    requires path !in rules.ignoredPaths
    ensures var keys := BothKeys(Obj(f), Obj(g));
            Leaves(Obj(f), Obj(g), path, rules) == FieldLeaves(Obj(f), Obj(g), keys, |keys|, path, rules)
  {
    hide Height, FieldLeaves, BothKeys;
    var x, y := Normalize(Obj(f), path, rules), Normalize(Obj(g), path, rules);
    var keys := BothKeys(Obj(f), Obj(g));
    assert x.Obj? && y.Obj? && x.fields.Keys == f.Keys && y.fields.Keys == g.Keys;
    SameKeys(x, y, Obj(f), Obj(g));
    FieldsAsTheyStand(f, g, keys, |keys|, path, rules);
    hide Normalize;
    ObjectsCompared(x, y, path, rules);
    hide Compared;
  }

  lemma SameKeys(x: Json, y: Json, v: Json, w: Json)
    requires x.Obj? && y.Obj? && v.Obj? && w.Obj? && x.fields.Keys == v.fields.Keys && y.fields.Keys == w.fields.Keys
    ensures BothKeys(x, y) == BothKeys(v, w)
  {
    hide SortedKeys;
  }

  lemma ObjectsCompared(x: Json, y: Json, path: string, rules: Rules)
    requires x.Obj? && y.Obj?
    ensures var keys := BothKeys(x, y); Compared(x, y, path, rules) == FieldLeaves(x, y, keys, |keys|, path, rules)
  {
    hide FieldLeaves, Height, BothKeys;
  }

  lemma {:induction false} FieldsAsTheyStand(f: map<string, Json>, g: map<string, Json>, keys: seq<string>, n: nat,
                                             path: string, rules: Rules)
    requires path !in rules.ignoredPaths && n <= |keys| && KeysOf(keys, Obj(f), Obj(g))
    ensures var x, y := Normalize(Obj(f), path, rules), Normalize(Obj(g), path, rules);
            && x.Obj? && y.Obj? && KeysOf(keys, x, y)
            && FieldLeaves(x, y, keys, n, path, rules) == FieldLeaves(Obj(f), Obj(g), keys, n, path, rules)
    decreases n
  {
    var x, y := Normalize(Obj(f), path, rules), Normalize(Obj(g), path, rules);
    assert x.fields.Keys == f.Keys && y.fields.Keys == g.Keys;
    if n > 0 {
      var k := keys[n - 1];
      FieldsAsTheyStand(f, g, keys, n - 1, path, rules);
      FieldNormalizes(f, k, path, rules);
      FieldNormalizes(g, k, path, rules);
      hide Normalize, Leaves, Height;
      LeavesOfNormalized(Get(f, k), Get(g, k), Child(path, k), rules);
    }
  }

  lemma FieldNormalizes(f: map<string, Json>, k: string, path: string, rules: Rules)
    requires path !in rules.ignoredPaths
    ensures Normalize(Obj(f), path, rules).Obj?
    ensures Get(Normalize(Obj(f), path, rules).fields, k) == Normalize(Get(f, k), Child(path, k), rules)
  {
    hide Child;
  }

  /** The entries sorted: the same ones normalized, by ascending rank, the undefined ones last. */
  lemma ArrangedIs(items: seq<Json>, path: string, rules: Rules)
    ensures var entries := Arranged(items, path, rules);
            && multiset(entries) == multiset(NormalizeEach(items, path + "[]", rules))
            && forall i, j :: 0 <= i < j < |entries| ==>
                 if entries[i].Undefined? then entries[j].Undefined?
                 else entries[j].Undefined? || rules.entryRank(entries[i]) <= rules.entryRank(entries[j])
  {
    EntryLeqIsPreorder(rules);
    SortByIs(NormalizeEach(items, path + "[]", rules), (a, b) => EntryLeq(rules, a, b));
    hide SortBy, Normalize;
  }

  // ---------------------------------------------------------------- rules that touch nothing

  predicate PlainRules(rules: Rules) {
    rules.ignoredPaths == [] && rules.orderingInsensitivePaths == [] && rules.numericTolerances == map[]
  }

  /** A tree as JSON text spells it: no undefined anywhere. */
  ghost predicate Spelled(v: Json)
    decreases Height(v)
  {
    ChildrenAreLower(v);
    match v
    case Undefined => false
    case Arr(items) => forall i :: 0 <= i < |items| ==> Spelled(items[i])
    case Obj(fields) => forall k :: k in fields ==> Spelled(fields[k])
    case _ => true
  }

  lemma {:induction false} PlainNormalizes(v: Json, path: string, rules: Rules)
    requires PlainRules(rules)
    ensures Normalize(v, path, rules) == v
    decreases v
  {
    match v
    case Obj(fields) =>
      forall k | k in fields
        ensures Normalize(fields[k], Child(path, k), rules) == fields[k]
      {
        PlainNormalizes(fields[k], Child(path, k), rules);
      }
      assert Normalize(v, path, rules).fields == fields;
    case _ =>
  }

  lemma {:induction false} PlainCanon(v: Json, path: string, rules: Rules)
    requires PlainRules(rules) && Spelled(v)
    ensures Canon(v, path, rules) == v
    decreases Height(v)
  {
    PlainNormalizes(v, path, rules);
    ChildrenAreLower(v);
    hide Normalize, Height;
    match v
    case Arr(items) =>
      forall i | 0 <= i < |items|
        ensures Canon(items[i], Element(ArrayPath(path), i), rules) == items[i]
      {
        PlainCanon(items[i], Element(ArrayPath(path), i), rules);
      }
      assert Canon(v, path, rules).items == items;
    case Obj(fields) =>
      forall k | k in fields
        ensures Canon(fields[k], Child(path, k), rules) == fields[k] != Undefined
      {
        PlainCanon(fields[k], Child(path, k), rules);
      }
      assert Canon(v, path, rules).fields == fields;
    case _ =>
  }

  /** Under such rules two spelled trees compare silently exactly when they are equal. */
  lemma PlainSilentIffEqual(a: Json, b: Json, path: string, rules: Rules)
    requires PlainRules(rules) && Spelled(a) && Spelled(b)
    ensures Leaves(a, b, path, rules) == [] <==> a == b
  {
    PlainCanon(a, path, rules);
    PlainCanon(b, path, rules);
    SilentIffSameCanon(a, b, path, rules);
  }

  /** A step down a tree. */
  datatype Step = Field(key: string) | Index(index: nat)

  function Inside(v: Json, step: Step): Json {
    match step
    case Field(k) => if v.Obj? && k in v.fields then v.fields[k] else Undefined
    case Index(i) => if v.Arr? && i < |v.items| then v.items[i] else Undefined
  }

  function Follow(v: Json, steps: seq<Step>): Json
    decreases |steps|
  {
    if steps == [] then v else Follow(Inside(v, steps[0]), steps[1..])
  }

  /** Keys are joined by dots, indices stand in brackets; an array at the root is called $array. */
  function Place(path: string, steps: seq<Step>): string
    decreases |steps|
  {
    if steps == [] then path
    else
      match steps[0]
      case Field(k) => Place(if path == "" then k else path + "." + k, steps[1..])
      case Index(i) => Place((if path == "" then "$array" else path) + "[" + Decimal(i) + "]", steps[1..])
  }

  /** Both values go on that way, with as many entries if it is an index. */
  predicate Descends(x: Json, y: Json, step: Step) {
    match step
    case Field(k) => x.Obj? && y.Obj? && (k in x.fields || k in y.fields)
    case Index(i) => x.Arr? && y.Arr? && i < |x.items| == |y.items|
  }

  predicate Together(x: Json, y: Json, steps: seq<Step>)
    decreases |steps|
  {
    steps == [] || (Descends(x, y, steps[0]) && Together(Inside(x, steps[0]), Inside(y, steps[0]), steps[1..]))
  }

  /** The two values differ and cannot be compared part by part. */
  predicate Part(x: Json, y: Json) {
    x != y && !(x.Obj? && y.Obj?) && !(x.Arr? && y.Arr? && |x.items| == |y.items|)
  }

  /** The trees go together down these steps and part there. */
  predicate PartAt(a: Json, b: Json, steps: seq<Step>) {
    Together(a, b, steps) && Part(Follow(a, steps), Follow(b, steps))
  }

  /** The leaf tells where and how. */
  ghost predicate TellsPart(l: Leaf, a: Json, b: Json, path: string, steps: seq<Step>, rules: Rules) {
    var x, y, place := Follow(a, steps), Follow(b, steps), Place(path, steps);
    && l.upstream == x && l.replay == y && Genuine(l, rules)
    && l.path == if x.Arr? && y.Arr? && place == "" then "$array" else place
  }

  predicate HeadBefore(s: Step, t: Step) {
    match s
    case Field(k) => t.Field? && Below(k, t.key)
    case Index(i) => t.Index? && i < t.index
  }

  predicate Before(s: seq<Step>, t: seq<Step>) {
    s != [] && t != [] && (HeadBefore(s[0], t[0]) || (s[0] == t[0] && Before(s[1..], t[1..])))
  }

  /** One leaf for every place where the trees part, in the order of the trees, and no other leaf. */
  ghost predicate Trail(trail: seq<seq<Step>>, leaves: seq<Leaf>, a: Json, b: Json, path: string, rules: Rules) {
    && |trail| == |leaves|
    && (forall i :: 0 <= i < |trail| ==> PartAt(a, b, trail[i]) && TellsPart(leaves[i], a, b, path, trail[i], rules))
    && (forall i, j :: 0 <= i < j < |trail| ==> Before(trail[i], trail[j]))
    && (forall steps :: PartAt(a, b, steps) ==> steps in trail)
  }

  /** The same for the parts that begin with one of these steps. */
  ghost predicate TrailOf(
    trail: seq<seq<Step>>, leaves: seq<Leaf>, heads: seq<Step>, a: Json, b: Json, path: string, rules: Rules) {
    && |trail| == |leaves|
    && (forall i :: 0 <= i < |trail| ==>
          && trail[i] != [] && trail[i][0] in heads
          && PartAt(a, b, trail[i]) && TellsPart(leaves[i], a, b, path, trail[i], rules))
    && (forall i, j :: 0 <= i < j < |trail| ==> Before(trail[i], trail[j]))
    && (forall steps :: steps != [] && steps[0] in heads && PartAt(a, b, steps) ==> steps in trail)
  }

  function Deeper(step: Step, trail: seq<seq<Step>>): seq<seq<Step>> {
    seq(|trail|, i requires 0 <= i < |trail| => [step] + trail[i])
  }

  function Extended(path: string, step: Step): string { Place(path, [step]) }

  lemma StepsDeeper(x: Json, y: Json, step: Step, steps: seq<Step>, path: string)
    requires Descends(x, y, step)
    ensures var longer := [step] + steps;
            && PartAt(x, y, longer) == PartAt(Inside(x, step), Inside(y, step), steps)
            && Follow(x, longer) == Follow(Inside(x, step), steps) && Follow(y, longer) == Follow(Inside(y, step), steps)
            && Place(path, longer) == Place(Extended(path, step), steps)
  {
    var longer := [step] + steps;
    assert longer[0] == step && longer[1..] == steps;
    ExtendedIs(path, step);
    hide Inside, Descends, Part;
    assert Follow(x, longer) == Follow(Inside(x, step), steps) && Follow(y, longer) == Follow(Inside(y, step), steps);
    assert Together(x, y, longer) == Together(Inside(x, step), Inside(y, step), steps);
  }

  lemma ExtendedIs(path: string, step: Step)
    ensures Extended(path, step) ==
            match step
            case Field(k) => if path == "" then k else path + "." + k
            case Index(i) => (if path == "" then "$array" else path) + "[" + Decimal(i) + "]"
  {
    hide Decimal;
    var none: seq<Step> := [];
    assert [step][1..] == none;
    var longer := match step
      case Field(k) => if path == "" then k else path + "." + k
      case Index(i) => (if path == "" then "$array" else path) + "[" + Decimal(i) + "]";
    assert Place(longer, none) == longer;
  }

  lemma HeadTrail(x: Json, y: Json, step: Step, trail: seq<seq<Step>>, leaves: seq<Leaf>, path: string, rules: Rules)
    requires Descends(x, y, step)
    requires Trail(trail, leaves, Inside(x, step), Inside(y, step), Extended(path, step), rules)
    ensures TrailOf(Deeper(step, trail), leaves, [step], x, y, path, rules)
  {
    hide PartAt, TellsPart, Descends, Inside, Extended, Before;
    var deeper := Deeper(step, trail);
    forall i | 0 <= i < |trail|
      ensures PartAt(x, y, deeper[i]) && TellsPart(leaves[i], x, y, path, deeper[i], rules)
    {
      StepsDeeper(x, y, step, trail[i], path);
      PartDeeper(leaves[i], x, y, path, step, trail[i], rules);
    }
    forall i, j | 0 <= i < j < |trail|
      ensures Before(deeper[i], deeper[j])
    {
      BeforeDeeper(step, trail[i], trail[j]);
    }
    forall steps | steps != [] && steps[0] in [step] && PartAt(x, y, steps)
      ensures steps in deeper
    {
      FromHead(x, y, step, trail, steps, path);
    }
  }

  lemma PartDeeper(l: Leaf, x: Json, y: Json, path: string, step: Step, steps: seq<Step>, rules: Rules)
    requires Descends(x, y, step)
    ensures TellsPart(l, Inside(x, step), Inside(y, step), Extended(path, step), steps, rules) ==
            TellsPart(l, x, y, path, [step] + steps, rules)
  {
    StepsDeeper(x, y, step, steps, path);
    hide Follow, Place, Genuine, Descends, Inside, PartAt, Extended;
  }

  lemma BeforeDeeper(step: Step, s: seq<Step>, t: seq<Step>)
    requires Before(s, t)
    ensures Before([step] + s, [step] + t)
  {
    assert ([step] + s)[1..] == s && ([step] + t)[1..] == t;
  }

  lemma FromHead(x: Json, y: Json, step: Step, trail: seq<seq<Step>>, steps: seq<Step>, path: string)
    requires Descends(x, y, step) && steps != [] && steps[0] == step && PartAt(x, y, steps)
    requires forall rest :: PartAt(Inside(x, step), Inside(y, step), rest) ==> rest in trail
    ensures steps in Deeper(step, trail)
  {
    hide PartAt, Descends, Inside;
    assert steps == [step] + steps[1..];
    StepsDeeper(x, y, step, steps[1..], path);
    var i :| 0 <= i < |trail| && trail[i] == steps[1..];
    assert Deeper(step, trail)[i] == steps;
  }

  lemma TrailsJoin(s: seq<seq<Step>>, ls: seq<Leaf>, heads: seq<Step>, t: seq<seq<Step>>, lt: seq<Leaf>, step: Step,
                   x: Json, y: Json, path: string, rules: Rules)
    requires TrailOf(s, ls, heads, x, y, path, rules) && TrailOf(t, lt, [step], x, y, path, rules)
    requires forall h :: h in heads ==> HeadBefore(h, step)
    ensures TrailOf(s + t, ls + lt, heads + [step], x, y, path, rules)
  {
    hide PartAt, TellsPart, HeadBefore;
    forall i, j | 0 <= i < j < |s + t|
      ensures Before((s + t)[i], (s + t)[j])
    {
      if i < |s| <= j {
        assert s[i][0] in heads && t[j - |s|][0] in [step];
        assert HeadBefore(s[i][0], t[j - |s|][0]);
      }
    }
  }

  lemma TrailGrows(s: seq<seq<Step>>, ls: seq<Leaf>, heads: seq<Step>, deeper: seq<seq<Step>>, more: seq<Leaf>, step: Step,
                   x: Json, y: Json, path: string, rules: Rules) returns (trail: seq<seq<Step>>)
    requires TrailOf(s, ls, heads, x, y, path, rules) && Descends(x, y, step)
    requires Trail(deeper, more, Inside(x, step), Inside(y, step), Extended(path, step), rules)
    requires forall h :: h in heads ==> HeadBefore(h, step)
    ensures TrailOf(trail, ls + more, heads + [step], x, y, path, rules)
  {
    hide Trail, TrailOf, Descends, Inside, Extended, HeadBefore;
    HeadTrail(x, y, step, deeper, more, path, rules);
    TrailsJoin(s, ls, heads, Deeper(step, deeper), more, step, x, y, path, rules);
    trail := s + Deeper(step, deeper);
  }

  lemma NoHeads(x: Json, y: Json, path: string, rules: Rules)
    ensures TrailOf([], [], [], x, y, path, rules)
  {
  }

  function Indices(n: nat): seq<Step> { seq(n, i requires 0 <= i < n => Index(i)) }

  lemma IndicesNext(n: nat)
    ensures Indices(n + 1) == Indices(n) + [Index(n)]
    ensures forall h :: h in Indices(n) ==> HeadBefore(h, Index(n))
  {
  }

  lemma NoElements(x: Json, y: Json, path: string, rules: Rules)
    requires x.Arr? && y.Arr?
    ensures ElementLeaves(x, y, 0, path, rules) == [] && Indices(0) == []
  {
  }

  lemma NextElement(x: Json, y: Json, n: nat, path: string, rules: Rules)
    requires x.Arr? && y.Arr? && n < |x.items| && n < |y.items|
    ensures ElementLeaves(x, y, n + 1, path, rules) ==
            ElementLeaves(x, y, n, path, rules) + Leaves(x.items[n], y.items[n], Element(path, n), rules)
    ensures Height(x.items[n]) < Height(x) && Height(y.items[n]) < Height(y)
  {
    ChildrenAreLower(x);
    ChildrenAreLower(y);
    hide Height, Leaves, Element;
  }

  lemma {:induction false} ElementsTrail(x: Json, y: Json, n: nat, path: string, rules: Rules) returns (trail: seq<seq<Step>>)
    requires PlainRules(rules) && x.Arr? && y.Arr? && n <= |x.items| == |y.items|
    ensures TrailOf(trail, ElementLeaves(x, y, n, ArrayPath(path), rules), Indices(n), x, y, path, rules)
    decreases Height(x) + Height(y), 1, n
  {
    hide Height, Leaves, ElementLeaves, Trail, TrailOf, PlainRules, Extended, Element, ArrayPath, Indices;
    if n == 0 {
      trail := [];
      NoElements(x, y, ArrayPath(path), rules);
      NoHeads(x, y, path, rules);
    } else {
      var at := ArrayPath(path);
      NextElement(x, y, n - 1, at, rules);
      ElementIsExtended(path, n - 1);
      IndicesNext(n - 1);
      var shorter := ElementsTrail(x, y, n - 1, path, rules);
      var deeper := LeavesTrail(x.items[n - 1], y.items[n - 1], Element(at, n - 1), rules);
      trail := TrailGrows(shorter, ElementLeaves(x, y, n - 1, at, rules), Indices(n - 1), deeper,
                          Leaves(x.items[n - 1], y.items[n - 1], Element(at, n - 1), rules), Index(n - 1), x, y, path, rules);
    }
  }

  lemma ElementIsExtended(path: string, i: nat)
    ensures Element(ArrayPath(path), i) == Extended(path, Index(i))
  {
    ExtendedIs(path, Index(i));
    hide Extended;
  }

  lemma ChildIsExtended(path: string, k: string)
    ensures Child(path, k) == Extended(path, Field(k))
  {
    ExtendedIs(path, Field(k));
    hide Extended;
  }

  function KeySteps(keys: seq<string>, n: nat): seq<Step>
    requires n <= |keys|
  {
    seq(n, i requires 0 <= i < n => Field(keys[i]))
  }

  lemma KeyStepsNext(keys: seq<string>, n: nat)
    requires n < |keys| && forall i, j :: 0 <= i < j < |keys| ==> Below(keys[i], keys[j])
    ensures KeySteps(keys, n + 1) == KeySteps(keys, n) + [Field(keys[n])]
    ensures forall h :: h in KeySteps(keys, n) ==> HeadBefore(h, Field(keys[n]))
  {
  }

  lemma {:induction false} FieldsTrail(x: Json, y: Json, keys: seq<string>, n: nat, path: string, rules: Rules)
    returns (trail: seq<seq<Step>>)
    requires PlainRules(rules) && x.Obj? && y.Obj? && n <= |keys| && KeysOf(keys, x, y)
    requires forall i, j :: 0 <= i < j < |keys| ==> Below(keys[i], keys[j])
    ensures TrailOf(trail, FieldLeaves(x, y, keys, n, path, rules), KeySteps(keys, n), x, y, path, rules)
    decreases Height(x) + Height(y), 1, n
  {
    if n == 0 {
      trail := [];
      NoHeads(x, y, path, rules);
    } else {
      var k := keys[n - 1];
      FieldsAreLower(x, y, k);
      hide Height, Leaves, Trail, TrailOf, PlainRules, Extended, Child, KeySteps;
      ChildIsExtended(path, k);
      KeyStepsNext(keys, n - 1);
      var shorter := FieldsTrail(x, y, keys, n - 1, path, rules);
      var deeper := LeavesTrail(Get(x.fields, k), Get(y.fields, k), Child(path, k), rules);
      trail := TrailGrows(shorter, FieldLeaves(x, y, keys, n - 1, path, rules), KeySteps(keys, n - 1), deeper,
                          Leaves(Get(x.fields, k), Get(y.fields, k), Child(path, k), rules), Field(k), x, y, path, rules);
    }
  }

  lemma {:induction false} SortedKeysAscend(keys: set<string>)
    ensures forall i, j :: 0 <= i < j < |SortedKeys(keys)| ==> Below(SortedKeys(keys)[i], SortedKeys(keys)[j])
  {
    if keys != {} {
      var sorted := SortedKeys(keys);
      var rest := keys - {sorted[0]};
      SortedKeysAscend(rest);
      assert sorted == [sorted[0]] + SortedKeys(rest);
      assert forall j :: 0 < j < |sorted| ==> sorted[j] in SortedKeys(rest) && sorted[j] in rest;
      LeastKeyExists(keys);
    }
  }

  /** Nothing to compare part by part: the trees part at the root or not at all. */
  lemma RootTrail(x: Json, y: Json, path: string, rules: Rules)
    requires PlainRules(rules) && !(x.Obj? && y.Obj?) && !(x.Arr? && y.Arr? && |x.items| == |y.items|)
    ensures Trail(if x == y then [] else [[]], Compared(x, y, path, rules), x, y, path, rules)
  {
    hide Genuine, Mentions, ElementLeaves, AllFieldLeaves;
    if x != y {
      ClassifyIsGenuine(path, x, y, rules);
      ClassifyIsGenuine(ArrayPath(path), x, y, rules);
    }
  }

  /** No part at the root, and every other one begins with one of all the heads. */
  lemma WholeTrail(trail: seq<seq<Step>>, leaves: seq<Leaf>, heads: seq<Step>, x: Json, y: Json, path: string, rules: Rules)
    requires TrailOf(trail, leaves, heads, x, y, path, rules)
    requires !Part(x, y) && forall step :: Descends(x, y, step) ==> step in heads
    ensures Trail(trail, leaves, x, y, path, rules)
  {
    hide TellsPart, Part, Descends;
  }

  /**
   * Under rules that touch nothing, a comparison reports exactly the places where the trees part:
   * one leaf each, in the order of the trees, naming the place and carrying its two values.
   */
  lemma {:induction false} LeavesTrail(a: Json, b: Json, path: string, rules: Rules) returns (trail: seq<seq<Step>>)
    requires PlainRules(rules)
    ensures Trail(trail, Leaves(a, b, path, rules), a, b, path, rules)
    decreases Height(a) + Height(b), 2, 0
  {
    PlainNormalizes(a, path, rules);
    PlainNormalizes(b, path, rules);
    hide Normalize, Height, Trail, TrailOf, PlainRules, ElementLeaves, FieldLeaves, Classify;
    if a.Arr? && b.Arr? && |a.items| == |b.items| {
      trail := ElementsTrail(a, b, |a.items|, path, rules);
      AllIndices(a, b);
      WholeTrail(trail, ElementLeaves(a, b, |a.items|, ArrayPath(path), rules), Indices(|a.items|), a, b, path, rules);
    } else if a.Obj? && b.Obj? {
      var keys := BothKeys(a, b);
      SortedKeysAscend(a.fields.Keys + b.fields.Keys);
      trail := FieldsTrail(a, b, keys, |keys|, path, rules);
      AllKeys(a, b);
      FieldLeavesEnds(a, b, path, rules);
      WholeTrail(trail, FieldLeaves(a, b, keys, |keys|, path, rules), KeySteps(keys, |keys|), a, b, path, rules);
    } else {
      trail := if a == b then [] else [[]];
      RootTrail(a, b, path, rules);
    }
  }

  lemma AllIndices(x: Json, y: Json)
    requires x.Arr? && y.Arr? && |x.items| == |y.items|
    ensures forall step :: Descends(x, y, step) ==> step in Indices(|x.items|)
  {
    forall step | Descends(x, y, step)
      ensures step in Indices(|x.items|)
    {
      assert Indices(|x.items|)[step.index] == step;
    }
  }

  lemma AllKeys(x: Json, y: Json)
    requires x.Obj? && y.Obj?
    ensures var keys := BothKeys(x, y); forall step :: Descends(x, y, step) ==> step in KeySteps(keys, |keys|)
  {
    var keys := BothKeys(x, y);
    forall step | Descends(x, y, step)
      ensures step in KeySteps(keys, |keys|)
    {
      assert step.key in keys;
      var i :| 0 <= i < |keys| && keys[i] == step.key;
      assert KeySteps(keys, |keys|)[i] == step;
    }
  }

  // ---------------------------------------------------------------- collecting in place

  lemma Associates(a: seq<Leaf>, b: seq<Leaf>, c: seq<Leaf>)
    ensures a + b + c == a + (b + c)
  {
  }

  lemma FieldLeavesEnds(x: Json, y: Json, path: string, rules: Rules)
    requires x.Obj? && y.Obj?
    ensures var keys := BothKeys(x, y);
            && FieldLeaves(x, y, keys, 0, path, rules) == []
            && AllFieldLeaves(x, y, path, rules) == FieldLeaves(x, y, keys, |keys|, path, rules)
  {
    hide Leaves, Height, BothKeys;
  }

  lemma FieldLeavesNext(x: Json, y: Json, keys: seq<string>, n: nat, path: string, rules: Rules)
    requires x.Obj? && y.Obj? && n < |keys| && KeysOf(keys, x, y)
    ensures keys[n] in x.fields || keys[n] in y.fields
    ensures FieldLeaves(x, y, keys, n + 1, path, rules) ==
            FieldLeaves(x, y, keys, n, path, rules)
            + Leaves(Get(x.fields, keys[n]), Get(y.fields, keys[n]), Child(path, keys[n]), rules)
  {
    hide Leaves, Height;
  }

  class DiffLog {
    var leaves: seq<Leaf>

    constructor ()
      ensures leaves == []
    {
      leaves := [];
    }

    method CollectDiffLeaves(upstreamValue: Json, replayValue: Json, path: string, rules: Rules)
      modifies this
      ensures leaves == old(leaves) + Leaves(upstreamValue, replayValue, path, rules)
      decreases Height(upstreamValue) + Height(replayValue), 3, 0
    {
      NormalizeNeverRaises(upstreamValue, path, rules);
      NormalizeNeverRaises(replayValue, path, rules);
      hide Height, Classify, Normalize, ElementLeaves, AllFieldLeaves;
      var upstream, replay := Normalize(upstreamValue, path, rules), Normalize(replayValue, path, rules);
      if upstream.Undefined? && replay.Undefined? {
      } else if Scalar(upstream) || Scalar(replay) {
        if upstream != replay {
          leaves := leaves + [Classify(path, upstream, replay, rules)];
        }
      } else if upstream.Arr? || replay.Arr? {
        if !upstream.Arr? || !replay.Arr? {
          leaves := leaves + [Classify(path, upstream, replay, rules)];
        } else {
          CollectArrayDiffLeaves(upstream, replay, ArrayPath(path), rules);
        }
      } else {
        CollectFieldDiffLeaves(upstream, replay, path, rules);
      }
    }

    method CollectArrayDiffLeaves(upstream: Json, replay: Json, path: string, rules: Rules)
      requires upstream.Arr? && replay.Arr?
      modifies this
      ensures leaves == old(leaves) + (if |upstream.items| != |replay.items| then [Classify(path, upstream, replay, rules)]
                                       else ElementLeaves(upstream, replay, |upstream.items|, path, rules))
      decreases Height(upstream) + Height(replay), 2, 0
    {
      hide Height, Classify, Leaves;
      if |upstream.items| != |replay.items| {
        leaves := leaves + [Classify(path, upstream, replay, rules)];
        return;
      }
      ChildrenAreLower(upstream);
      ChildrenAreLower(replay);
      var index := 0;
      while index < |upstream.items|
        invariant 0 <= index <= |upstream.items|
        invariant leaves == old(leaves) + ElementLeaves(upstream, replay, index, path, rules)
      {
        CollectDiffLeaves(upstream.items[index], replay.items[index], Element(path, index), rules);
        index := index + 1;
      }
    }

    method CollectField(upstream: Json, replay: Json, key: string, path: string, rules: Rules)
      requires upstream.Obj? && replay.Obj? && (key in upstream.fields || key in replay.fields)
      modifies this
      ensures leaves == old(leaves) + Leaves(Get(upstream.fields, key), Get(replay.fields, key), Child(path, key), rules)
      decreases Height(upstream) + Height(replay), 1, 0
    {
      FieldsAreLower(upstream, replay, key);
      hide Height, Leaves;
      CollectDiffLeaves(Get(upstream.fields, key), Get(replay.fields, key), Child(path, key), rules);
    }

    method CollectFieldDiffLeaves(upstream: Json, replay: Json, path: string, rules: Rules)
      requires upstream.Obj? && replay.Obj?
      modifies this
      ensures leaves == old(leaves) + AllFieldLeaves(upstream, replay, path, rules)
      decreases Height(upstream) + Height(replay), 2, 0
    {
      hide Height, Leaves, FieldLeaves, AllFieldLeaves, BothKeys, KeysOf, Get, Child;
      var keys := BothKeys(upstream, replay);
      ghost var done := [];
      FieldLeavesEnds(upstream, replay, path, rules);
      assert leaves == old(leaves) + done;
      var next := 0;
      while next < |keys|
        invariant 0 <= next <= |keys|
        invariant done == FieldLeaves(upstream, replay, keys, next, path, rules)
        invariant leaves == old(leaves) + done
      {
        FieldLeavesNext(upstream, replay, keys, next, path, rules);
        ghost var key := keys[next];
        ghost var more := Leaves(Get(upstream.fields, key), Get(replay.fields, key), Child(path, key), rules);
        CollectField(upstream, replay, keys[next], path, rules);
        Associates(old(leaves), done, more);
        done := done + more;
        next := next + 1;
      }
    }
  }

  // ---------------------------------------------------------------- classifying a finding

  datatype Classification = Classification(gapClass: GapClass, reason: string, diffPaths: seq<string>)

  function Priority(gapClass: GapClass): nat {
    match gapClass
    case Shape => 0
    case MissingField => 1
    case Ranking => 2
    case Freshness => 3
    case Source => 4
    case Value => 5
  }

  /** The order of the leaves: class priority, then path, then reason, as localeCompare ranks text. */
  predicate LeafLeq(rank: string -> real, l: Leaf, m: Leaf) {
    || Priority(l.gapClass) < Priority(m.gapClass)
    || (l.gapClass == m.gapClass
        && (rank(l.path) < rank(m.path) || (rank(l.path) == rank(m.path) && rank(l.reason) <= rank(m.reason))))
  }

  function LeafOrder(rank: string -> real): (Leaf, Leaf) -> bool {
    (l, m) => LeafLeq(rank, l, m)
  }

  lemma LeafOrderIsPreorder(rank: string -> real)
    ensures TotalPreorder(LeafOrder(rank))
  {
  }

  function PathOf(l: Leaf): string { l.path }

  ghost function SortedLeaves(upstream: Json, body: Json, rules: Rules, rank: string -> real): seq<Leaf> {
    SortBy(Leaves(upstream, body, "", rules), LeafOrder(rank))
  }

  /** What a finding whose statuses match is classified as. */
  ghost function Classified(upstream: Json, body: Json, rules: Rules, rank: string -> real): Classification {
    var leaves := SortedLeaves(upstream, body, rules, rank);
    if leaves == [] then Classification(Value, "Normalized payload differs.", [])
    else Classification(leaves[0].gapClass, leaves[0].reason, Mapped(leaves, PathOf))
  }

  method ClassifyFinding(statusMatches: bool, upstreamStatus: nat, replayStatus: nat, upstream: Json, body: Json,
                         rules: Rules, rank: string -> real)
    returns (c: Classification)
    ensures statusMatches ==> c == Classified(upstream, body, rules, rank)
    ensures !statusMatches ==> c.gapClass == Shape && c.diffPaths == ["$status"]
    ensures !statusMatches ==> c.reason == "HTTP status differs (" + Decimal(upstreamStatus) + " vs " + Decimal(replayStatus) + ")."
  {
    if !statusMatches {
      var reason := "HTTP status differs (" + Decimal(upstreamStatus) + " vs " + Decimal(replayStatus) + ").";
      return Classification(Shape, reason, ["$status"]);
    }
    hide Leaves, SortBy, LeafOrder, Mapped;
    var log := new DiffLog();
    log.CollectDiffLeaves(upstream, body, "", rules);
    assert log.leaves == Leaves(upstream, body, "", rules);
    var leaves := SortBy(log.leaves, LeafOrder(rank));
    if leaves == [] {
      c := Classification(Value, "Normalized payload differs.", []);
    } else {
      c := Classification(leaves[0].gapClass, leaves[0].reason, Mapped(leaves, PathOf));
    }
  }

  /** The reported class is that of a leaf no other leaf precedes, and every leaf's path is listed. */
  lemma PrimaryIsMinimal(upstream: Json, body: Json, rules: Rules, rank: string -> real)
    requires Leaves(upstream, body, "", rules) != []
    ensures var c, leaves := Classified(upstream, body, rules, rank), Leaves(upstream, body, "", rules);
            && (exists p :: p in leaves && p.gapClass == c.gapClass && p.reason == c.reason
                            && forall l :: l in leaves ==> LeafLeq(rank, p, l))
            && multiset(c.diffPaths) == multiset(Mapped(leaves, PathOf))
  {
    var leq, leaves := LeafOrder(rank), Leaves(upstream, body, "", rules);
    LeafOrderIsPreorder(rank);
    hide Leaves;
    SortByIs(leaves, leq);
    var sorted := SortBy(leaves, leq);
    assert sorted[0] in multiset(leaves);
    forall l | l in leaves
      ensures LeafLeq(rank, sorted[0], l)
    {
      SortByMembers(leaves, leq, l);
      assert leq(l, l);
    }
    MappedPermutes(sorted, leaves, PathOf);
  }

  /** From the most to the least severe. */
  const CLASSES := [Shape, MissingField, Ranking, Freshness, Source, Value]

  /** The reported class is the most severe that any leaf has, and the reason that of its first path. */
  lemma PrimaryIsMostSevere(upstream: Json, body: Json, rules: Rules, rank: string -> real, i: nat, worst: Leaf)
    requires i < 6 && worst in Leaves(upstream, body, "", rules) && worst.gapClass == CLASSES[i]
    requires forall l, j :: l in Leaves(upstream, body, "", rules) && 0 <= j < i ==> l.gapClass != CLASSES[j]
    ensures var c, leaves := Classified(upstream, body, rules, rank), Leaves(upstream, body, "", rules);
            && c.gapClass == CLASSES[i]
            && exists p :: p in leaves && p.gapClass == CLASSES[i] && p.reason == c.reason
                           && forall l :: l in leaves && l.gapClass == CLASSES[i] ==> rank(p.path) <= rank(l.path)
  {
    PrimaryIsMinimal(upstream, body, rules, rank);
    hide Leaves, Classified;
    var c, leaves := Classified(upstream, body, rules, rank), Leaves(upstream, body, "", rules);
    var p :| p in leaves && p.gapClass == c.gapClass && p.reason == c.reason && forall l :: l in leaves ==> LeafLeq(rank, p, l);
    assert LeafLeq(rank, p, worst);
    var j := ClassAt(p.gapClass);
    SeverityIs(i, j);
  }

  lemma ClassAt(c: GapClass) returns (j: nat)
    ensures j < 6 && CLASSES[j] == c
  {
    j := match c case Shape => 0 case MissingField => 1 case Ranking => 2 case Freshness => 3 case Source => 4 case Value => 5;
  }

  lemma SeverityIs(i: nat, j: nat)
    requires i < 6 && j < 6
    ensures Priority(CLASSES[j]) < Priority(CLASSES[i]) <==> j < i
    ensures CLASSES[i] == CLASSES[j] <==> i == j
  {
  }

  /** Exchanging upstream and replay changes neither the class nor the reason nor the paths of a finding. */
  lemma ClassificationSwaps(upstream: Json, body: Json, rules: Rules, rank: string -> real)
    ensures Classified(body, upstream, rules, rank) == Classified(upstream, body, rules, rank)
  {
    var leaves := Leaves(upstream, body, "", rules);
    LeavesSwap(upstream, body, "", rules);
    hide Leaves;
    SortSwaps(leaves, rank);
    hide SortBy;
    PathsSwap(SortBy(leaves, LeafOrder(rank)));
  }

  lemma SortSwaps(leaves: seq<Leaf>, rank: string -> real)
    ensures SortBy(Mapped(leaves, Swapped), LeafOrder(rank)) == Mapped(SortBy(leaves, LeafOrder(rank)), Swapped)
  {
    SortByMapped(leaves, Swapped, LeafOrder(rank), LeafOrder(rank));
  }

  lemma PathsSwap(sorted: seq<Leaf>)
    ensures Mapped(Mapped(sorted, Swapped), PathOf) == Mapped(sorted, PathOf)
    ensures sorted != [] ==>
      var s := Mapped(sorted, Swapped)[0]; s.gapClass == sorted[0].gapClass && s.reason == sorted[0].reason
  {
    var swapped := Mapped(sorted, Swapped);
    forall i | 0 <= i < |sorted|
      ensures swapped[i] == Swapped(sorted[i]) && PathOf(swapped[i]) == PathOf(sorted[i])
    {
    }
    assert |Mapped(swapped, PathOf)| == |Mapped(sorted, PathOf)|;
    forall i | 0 <= i < |sorted|
      ensures Mapped(swapped, PathOf)[i] == Mapped(sorted, PathOf)[i]
    {
      assert Mapped(swapped, PathOf)[i] == PathOf(swapped[i]);
      assert Mapped(sorted, PathOf)[i] == PathOf(sorted[i]);
    }
  }
}
