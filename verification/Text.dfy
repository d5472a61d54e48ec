/** Strings as the models use them: code-unit order, sorted key sets, decimal numerals, substrings and joining. */
module Text {
  import opened Common

  /** The default comparison of strings, character by character. */
  predicate Below(a: string, b: string) {
    b != "" && (a == "" || a[0] < b[0] || (a[0] == b[0] && Below(a[1..], b[1..])))
  }

  lemma {:induction false} BelowIsStrict(a: string, b: string)
    ensures !(Below(a, b) && Below(b, a))
    ensures a == b || Below(a, b) || Below(b, a)
    ensures a == b ==> !Below(a, b)
  {
    if a != "" && b != "" && a[0] == b[0] {
      assert a == [a[0]] + a[1..] && b == [b[0]] + b[1..];
      BelowIsStrict(a[1..], b[1..]);
    }
  }

  lemma {:induction false} BelowIsTransitive(a: string, b: string, c: string)
    requires Below(a, b) && Below(b, c)
    ensures Below(a, c)
  {
    if a != "" && a[0] == b[0] && b[0] == c[0] {
      BelowIsTransitive(a[1..], b[1..], c[1..]);
    }
  }

  predicate LeastKey(keys: set<string>, m: string) {
    m in keys && forall k :: k in keys && k != m ==> Below(m, k)
  }

  lemma {:induction false} LeastKeyExists(keys: set<string>)
    requires keys != {}
    ensures exists m :: LeastKey(keys, m)
    ensures forall m, n :: LeastKey(keys, m) && LeastKey(keys, n) ==> m == n
  {
    var x := Member(keys);
    var rest := keys - {x};
    if rest == {} {
      assert keys == {x};
      assert LeastKey(keys, x);
    } else {
      LeastKeyExists(rest);
      var m :| LeastKey(rest, m);
      BelowIsStrict(m, x);
      if Below(m, x) {
        assert LeastKey(keys, m);
      } else {
        forall k | k in keys && k != x
          ensures Below(x, k)
        {
          if k != m { BelowIsTransitive(x, m, k); }
        }
        assert LeastKey(keys, x);
      }
    }
    forall m, n | LeastKey(keys, m) && LeastKey(keys, n)
      ensures m == n
    {
      BelowIsStrict(m, n);
    }
  }

  /** Every key once, in ascending order. */
  function SortedKeys(keys: set<string>): (r: seq<string>)
    ensures forall k :: k in r <==> k in keys
  {
    if keys == {} then []
    else
      LeastKeyExists(keys);
      var m :| LeastKey(keys, m);
      [m] + SortedKeys(keys - {m})
  }

  function Decimal(n: nat): string {
    if n < 10 then ["0123456789"[n]] else Decimal(n / 10) + ["0123456789"[n % 10]]
  }

  /** text.includes(part) */
  predicate Includes(text: string, part: string) {
    exists i :: 0 <= i <= |text| && part <= text[i..]
  }

  /** parts.join(separator) */
  function Joined(parts: seq<string>, separator: string): string {
    if parts == [] then ""
    else if |parts| == 1 then parts[0]
    else Joined(parts[..|parts| - 1], separator) + separator + parts[|parts| - 1]
  }

  /** Joining from the front: a first part, the separator, and the join of the rest. */
  lemma {:induction false} JoinedFront(first: string, rest: seq<string>, separator: string)
    ensures Joined([], separator) == ""
    ensures Joined([first] + rest, separator) == if rest == [] then first else first + separator + Joined(rest, separator)
  {
    if rest == [] {
      assert [first] + rest == [first];
    } else {
      var n := |rest| - 1;
      var parts := [first] + rest;
      assert parts[..n + 1] == [first] + rest[..n] && parts[n + 1] == rest[n];
      JoinedFront(first, rest[..n], separator);
      if n > 0 { assert Joined(rest, separator) == Joined(rest[..n], separator) + separator + rest[n]; }
    }
  }

  /** A text includes exactly the parts it has something before and something after, or nothing. */
  lemma IncludesIff(text: string, part: string)
    ensures Includes(text, part) <==> exists before, after :: text == before + part + after
  {
    if Includes(text, part) {
      var i :| 0 <= i <= |text| && part <= text[i..];
      assert text == text[..i] + part + text[i..][|part|..];
    }
    if before, after :| text == before + part + after {
      assert text[|before|..] == part + after;
    }
  }

  /** The number a row of decimal digits stands for. */
  ghost function Worth(digits: string): int {
    if digits == "" then 0 else 10 * Worth(digits[..|digits| - 1]) + (digits[|digits| - 1] as int - '0' as int)
  }

  lemma WorthNext(digits: string, d: nat)
    requires d < 10
    ensures Worth(digits + ["0123456789"[d]]) == 10 * Worth(digits) + d
  {
    var c := "0123456789"[d];
    assert (digits + [c])[..|digits|] == digits;
    assert c as int == '0' as int + d;
  }

  /** A numeral is made of decimal digits, has no leading zero but for zero itself, and is worth its number. */
  lemma {:induction false} DecimalIs(n: nat)
    ensures var digits := Decimal(n);
            && digits != "" && (forall c :: c in digits ==> '0' <= c <= '9')
            && (digits[0] == '0' <==> n == 0)
            && Worth(digits) == n
  {
    if n < 10 {
      WorthNext("", n);
      assert Decimal(n) == "" + ["0123456789"[n]];
    } else {
      var tens := n / 10;
      DecimalIs(tens);
      hide Worth;
      WorthNext(Decimal(tens), n % 10);
      assert Decimal(n)[0] == Decimal(tens)[0];
    }
  }
}
