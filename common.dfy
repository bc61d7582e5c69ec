/**
 * Shared vocabulary: optional values and results, PHP truthiness, `explode`,
 * decimal numerals, and the membership toggle used by every like/reaction table.
 */
module Common {

  datatype Option<+T> = None | Some(value: T)

  /** A service call either yields a value or fails with the exception it throws. */
  datatype Result<+T, +E> = Ok(value: T) | Err(error: E)

  /** PHP truthiness of a nullable integer (`if ($postId)`): null and 0 are falsy. */
  predicate IsSet(o: Option<int>)
  {
    o.Some? && o.value != 0
  }

  /** PHP truthiness of a nullable string (`if ($folder)`): null, "" and "0" are falsy. */
  predicate StringIsSet(o: Option<string>)
  {
    o.Some? && o.value != "" && o.value != "0"
  }

  /** `$a ?? $b` on nullable values. */
  function OrElse<T>(a: Option<T>, b: Option<T>): (r: Option<T>)
    ensures a.Some? ==> r == a
    ensures a.None? ==> r == b
  {
    if a.Some? then a else b
  }

  // ---------------------------------------------------------------------------
  // explode

  /** Number of occurrences of `c` in `s` (PHP `substr_count` for one character). */
  function Occurrences(s: string, c: char): nat
  {
    if s == [] then 0 else (if s[0] == c then 1 else 0) + Occurrences(s[1..], c)
  }

  lemma {:induction false} OccurrencesAppend(a: string, b: string, c: char)
    ensures Occurrences(a + b, c) == Occurrences(a, c) + Occurrences(b, c)
  {
    if a == [] {
      assert a + b == b;
    } else {
      var ab := a + b;
      assert ab[0] == a[0] && ab[1..] == a[1..] + b;
      OccurrencesAppend(a[1..], b, c);
      assert Occurrences(ab, c) == (if a[0] == c then 1 else 0) + Occurrences(a[1..] + b, c);
    }
  }

  lemma {:induction false} NoOccurrences(s: string, c: char)
    requires c !in s
    ensures Occurrences(s, c) == 0
  {
    if s != [] {
      assert c !in s[1..];
      NoOccurrences(s[1..], c);
    }
  }

  /**
   * PHP `explode($sep, $s)` for a one-character separator: the pieces between
   * separators, keeping empty pieces (so "a\n" gives ["a", ""]).
   */
  function Explode(s: string, sep: char): (parts: seq<string>)
    ensures |parts| == Occurrences(s, sep) + 1
    ensures forall i :: 0 <= i < |parts| ==> sep !in parts[i]
  {
    if s == [] then [""]
    else
      var rest := Explode(s[1..], sep);
      if s[0] == sep then [""] + rest
      else [[s[0]] + rest[0]] + rest[1..]
  }

  /** PHP `implode($sep, $parts)`: the inverse of `Explode`. */
  function Implode(parts: seq<string>, sep: char): string
    requires |parts| >= 1
  {
    if |parts| == 1 then parts[0] else parts[0] + [sep] + Implode(parts[1..], sep)
  }

  /** Exploding and joining back gives the original string. */
  lemma {:induction false} ImplodeExplode(s: string, sep: char)
    ensures Implode(Explode(s, sep), sep) == s
  {
    if s != [] {
      ImplodeExplode(s[1..], sep);
      var rest := Explode(s[1..], sep);
      if s[0] == sep {
        assert ([""] + rest)[1..] == rest;
      } else {
        var parts := [[s[0]] + rest[0]] + rest[1..];
        assert parts[1..] == rest[1..];
        if |rest| == 1 {
          assert s == [s[0]] + s[1..];
        } else {
          assert Implode(rest, sep) == rest[0] + [sep] + Implode(rest[1..], sep);
          assert s == [s[0]] + s[1..];
        }
      }
    }
  }

  /** Splitting text that contains no separator gives the text itself. */
  lemma {:induction false} ExplodeWithoutSeparator(s: string, sep: char)
    requires sep !in s
    ensures Explode(s, sep) == [s]
  {
    if s != [] {
      assert sep !in s[1..];
      ExplodeWithoutSeparator(s[1..], sep);
      assert s == [s[0]] + s[1..];
    }
  }

  /** The first piece of `prefix + [sep] + rest` is `prefix` when `prefix` holds no separator. */
  lemma {:induction false} ExplodeAfterPrefix(prefix: string, sep: char, rest: string)
    requires sep !in prefix
    ensures Explode(prefix + [sep] + rest, sep) == [prefix] + Explode(rest, sep)
  {
    if prefix == [] {
      assert [] + [sep] + rest == [sep] + rest;
      assert ([sep] + rest)[1..] == rest;
    } else {
      var s := prefix + [sep] + rest;
      assert s[0] == prefix[0];
      assert s[1..] == prefix[1..] + [sep] + rest;
      assert sep !in prefix[1..];
      ExplodeAfterPrefix(prefix[1..], sep, rest);
      assert [prefix[0]] + prefix[1..] == prefix;
    }
  }

  // ---------------------------------------------------------------------------
  // Decimal numerals

  predicate IsDigit(c: char)
  {
    '0' <= c <= '9'
  }

  predicate AllDigits(s: string)
  {
    forall i :: 0 <= i < |s| ==> IsDigit(s[i])
  }

  function DigitChar(d: nat): (c: char)
    requires d < 10
    ensures IsDigit(c) && (c as int) - ('0' as int) == d
  {
    (48 + d) as char
  }

  /** PHP's conversion of a non-negative integer to a string (`'-' . $count`, `(string) $id`). */
  function NatToString(n: nat): (s: string)
    ensures |s| >= 1 && AllDigits(s)
  {
    if n < 10 then [DigitChar(n)] else NatToString(n / 10) + [DigitChar(n % 10)]
  }

  /** `(string) $i` for any integer. */
  function IntToString(i: int): string
  {
    if i < 0 then "-" + NatToString(-i) else NatToString(i)
  }

  /** The value of a string of decimal digits (leading zeros allowed). */
  function DigitsValue(s: string): nat
    requires AllDigits(s)
  {
    if s == [] then 0 else 10 * DigitsValue(s[..|s| - 1]) + ((s[|s| - 1] as int) - ('0' as int))
  }

  /** Reading back a printed natural number gives the number. */
  lemma {:induction false} NatToStringRoundTrip(n: nat)
    ensures DigitsValue(NatToString(n)) == n
  {
    if n >= 10 {
      NatToStringRoundTrip(n / 10);
      var s := NatToString(n);
      assert s[..|s| - 1] == NatToString(n / 10);
    }
  }

  /** Only zero is printed with a leading `0`. */
  lemma {:induction false} NatToStringNoLeadingZero(n: nat)
    ensures n >= 1 ==> NatToString(n)[0] != '0'
  {
    if n >= 10 {
      NatToStringNoLeadingZero(n / 10);
      assert NatToString(n)[0] == NatToString(n / 10)[0];
    }
  }

  lemma NatToStringInjective(a: nat, b: nat)
    requires NatToString(a) == NatToString(b)
    ensures a == b
  {
    NatToStringRoundTrip(a);
    NatToStringRoundTrip(b);
  }

  lemma IntToStringInjective(a: int, b: int)
    requires IntToString(a) == IntToString(b)
    ensures a == b
  {
    var sa, sb := IntToString(a), IntToString(b);
    assert sa[0] == '-' <==> a < 0;
    assert sb[0] == '-' <==> b < 0;
    if a < 0 {
      assert sa[1..] == NatToString(-a) && sb[1..] == NatToString(-b);
      NatToStringInjective(-a, -b);
    } else {
      NatToStringInjective(a, b);
    }
  }

  function Pow10(k: nat): (p: nat)
    ensures p >= 1
  {
    if k == 0 then 1 else 10 * Pow10(k - 1)
  }

  /** A numeral of at most `k` digits denotes a number below 10^k. */
  lemma {:induction false} ShortNumeralIsSmall(n: nat, k: nat)
    requires |NatToString(n)| <= k
    ensures n < Pow10(k)
  {
    if n >= 10 {
      ShortNumeralIsSmall(n / 10, k - 1);
    }
  }

  /**
   * PHP `is_numeric` restricted to integer literals: optional sign, then digits.
   * Fractions, exponents and surrounding whitespace are outside this model.
   */
  predicate IsIntegerString(s: string)
  {
    (|s| >= 1 && AllDigits(s)) || (|s| >= 2 && (s[0] == '-' || s[0] == '+') && AllDigits(s[1..]))
  }

  /** PHP `(int) $s` on an integer literal. */
  function IntegerValue(s: string): int
    requires IsIntegerString(s)
  {
    if s[0] == '-' then -(DigitsValue(s[1..]) as int)
    else if s[0] == '+' then DigitsValue(s[1..])
    else DigitsValue(s)
  }

  /** A printed natural number is an integer literal that reads back as itself. */
  lemma NatToStringIsInteger(n: nat)
    ensures IsIntegerString(NatToString(n)) && IntegerValue(NatToString(n)) == n
  {
    NatToStringRoundTrip(n);
  }

  // ---------------------------------------------------------------------------
  // Membership toggles (delete-if-exists-else-insert)

  /** Flip whether `x` belongs to `s`; every other element keeps its membership. */
  function Toggle<T>(s: set<T>, x: T): (r: set<T>)
    ensures x in r <==> x !in s
    ensures r - {x} == s - {x}
  {
    if x in s then s - {x} else s + {x}
  }

  /** Toggling the same element twice restores the set. */
  lemma ToggleTwice<T>(s: set<T>, x: T)
    ensures Toggle(Toggle(s, x), x) == s
  {
    if x in s {
      assert (s - {x}) + {x} == s;
    } else {
      assert (s + {x}) - {x} == s;
    }
  }

  // ---------------------------------------------------------------------------
  // Flattening (a loop that appends one group after another)

  /** The groups `f(x)` of the elements `x` of `xs`, one after another. */
  function FlatMap<A, B>(xs: seq<A>, f: A -> seq<B>): seq<B>
  {
    if xs == [] then [] else FlatMap(xs[..|xs| - 1], f) + f(xs[|xs| - 1])
  }

  lemma FlatMapSnoc<A, B>(xs: seq<A>, x: A, f: A -> seq<B>)
    ensures FlatMap(xs + [x], f) == FlatMap(xs, f) + f(x)
  {
    assert (xs + [x])[..|xs|] == xs;
  }

  /** Something is in the flattening exactly when it is in the group of one of the elements. */
  lemma {:induction false} FlatMapMembers<A, B>(xs: seq<A>, f: A -> seq<B>, y: B)
    ensures y in FlatMap(xs, f) <==> exists x :: x in xs && y in f(x)
    decreases |xs|
  {
    if xs != [] {
      var init, last := xs[..|xs| - 1], xs[|xs| - 1];
      FlatMapMembers(init, f, y);
      assert xs == init + [last];
      if exists x :: x in xs && y in f(x) {
        var x :| x in xs && y in f(x);
        if x != last {
          assert x in init;
        }
      }
    }
  }

  // ---------------------------------------------------------------------------
  // Letter case (`toLowerCase` / `toUpperCase` on the ASCII letters)

  function LowerChar(c: char): (d: char)
    ensures 'A' <= c <= 'Z' ==> d as int == c as int + 32
    ensures !('A' <= c <= 'Z') ==> d == c
  {
    if 'A' <= c <= 'Z' then (c as int + 32) as char else c
  }

  function UpperChar(c: char): (d: char)
    ensures 'a' <= c <= 'z' ==> d as int == c as int - 32
    ensures !('a' <= c <= 'z') ==> d == c
  {
    if 'a' <= c <= 'z' then (c as int - 32) as char else c
  }

  function Lower(s: string): (r: string)
    ensures |r| == |s| && forall i :: 0 <= i < |s| ==> r[i] == LowerChar(s[i])
  {
    seq(|s|, i requires 0 <= i < |s| => LowerChar(s[i]))
  }

  function Upper(s: string): (r: string)
    ensures |r| == |s| && forall i :: 0 <= i < |s| ==> r[i] == UpperChar(s[i])
  {
    seq(|s|, i requires 0 <= i < |s| => UpperChar(s[i]))
  }

  /** Lower-casing forgets any earlier upper-casing: the two only swap the ASCII letters. */
  lemma LowerUpper(s: string)
    ensures Lower(Upper(s)) == Lower(s)
  {
    forall i | 0 <= i < |s| ensures LowerChar(UpperChar(s[i])) == LowerChar(s[i]) {
      var c := s[i];
      if 'a' <= c <= 'z' {
        assert UpperChar(c) as int == c as int - 32;
        assert 'A' <= UpperChar(c) <= 'Z';
      }
    }
  }
}
