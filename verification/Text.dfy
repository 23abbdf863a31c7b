/**
 Text helpers the visa service leans on: the order `Vec<String>::sort` uses, the sorted
 listing of a hash set, and the decimal forms of `u64` and `i32`.
 */
module Text {

  datatype Option<+T> = None | Some(value: T)

  /** Lexicographic order on code points, the order Rust gives `String`. */
  predicate AtMost(a: string, b: string)
    decreases |a|
  {
    || a == ""
    || (b != "" && (a[0] < b[0] || (a[0] == b[0] && AtMost(a[1..], b[1..]))))
  }

  lemma {:induction false} AtMostTotal(a: string, b: string)
    ensures AtMost(a, b) || AtMost(b, a)
    decreases |a|
  {
    if a != "" && b != "" && a[0] == b[0] {
      AtMostTotal(a[1..], b[1..]);
    }
  }

  lemma {:induction false} AtMostAntisymmetric(a: string, b: string)
    requires AtMost(a, b) && AtMost(b, a)
    ensures a == b
    decreases |a|
  {
    if a != "" {
      AtMostAntisymmetric(a[1..], b[1..]);
      assert a == [a[0]] + a[1..] && b == [b[0]] + b[1..];
    }
  }

  lemma {:induction false} AtMostTransitive(a: string, b: string, c: string)
    requires AtMost(a, b) && AtMost(b, c)
    ensures AtMost(a, c)
    decreases |a|
  {
    if a != "" && a[0] == b[0] && b[0] == c[0] {
      AtMostTransitive(a[1..], b[1..], c[1..]);
    }
  }

  ghost predicate IsLeast(m: string, s: set<string>) {
    m in s && forall x :: x in s ==> AtMost(m, x)
  }

  lemma {:induction false} LeastExists(s: set<string>)
    requires s != {}
    ensures exists m :: IsLeast(m, s)
    decreases |s|
  {
    var x :| x in s;
    AtMostTotal(x, x);
    if s == {x} {
      assert IsLeast(x, s);
    } else {
      var rest := s - {x};
      LeastExists(rest);
      var m :| IsLeast(m, rest);
      AtMostTotal(m, x);
      if AtMost(m, x) {
        assert IsLeast(m, s);
      } else {
        forall y | y in s ensures AtMost(x, y) {
          if y != x { AtMostTransitive(x, m, y); }
        }
        assert IsLeast(x, s);
      }
    }
  }

  ghost function Least(s: set<string>): (m: string)
    requires s != {}
    ensures IsLeast(m, s)
  {
    LeastExists(s);
    var m :| IsLeast(m, s);
    m
  }

  /** The elements of `s`, each once, in ascending order. */
  ghost function Sorted(s: set<string>): (r: seq<string>)
    ensures forall x :: x in r <==> x in s
    ensures |r| == |s|
    decreases |s|
  {
    if s == {} then [] else [Least(s)] + Sorted(s - {Least(s)})
  }

  /** The listing is ascending: together with its contents this fixes it uniquely. */
  lemma {:induction false} SortedAscends(s: set<string>, i: nat, j: nat)
    requires i <= j < |s|
    ensures AtMost(Sorted(s)[i], Sorted(s)[j])
    decreases |s|
  {
    var rest := s - {Least(s)};
    if i > 0 {
      SortedAscends(rest, i - 1, j - 1);
    } else {
      assert Sorted(s)[j] in s;
    }
  }

  /** Collect a hash set into a vector and sort it: the result does not depend on hash order. */
  method SortSet(s: set<string>) returns (r: seq<string>)
    ensures r == Sorted(s)
  {
    r := [];
    var todo := s;
    while todo != {}
      invariant r + Sorted(todo) == Sorted(s)
      decreases |todo|
    {
      var m := FindLeast(todo);
      ghost var rest := Sorted(todo - {m});
      assert Sorted(todo) == [m] + rest;
      assert (r + [m]) + rest == r + ([m] + rest);
      r, todo := r + [m], todo - {m};
    }
  }

  method FindLeast(s: set<string>) returns (m: string)
    requires s != {}
    ensures m == Least(s)
  {
    m :| m in s;
    var todo := s - {m};
    AtMostTotal(m, m);
    while todo != {}
      invariant todo <= s && m in s
      invariant forall y :: y in s - todo ==> AtMost(m, y)
      decreases |todo|
    {
      var x :| x in todo;
      AtMostTotal(m, x);
      if !AtMost(m, x) {
        forall y | y in s - todo ensures AtMost(x, y) { AtMostTransitive(x, m, y); }
        m := x;
        AtMostTotal(x, x);
      }
      todo := todo - {x};
    }
    AtMostAntisymmetric(m, Least(s));
  }

  // ---------------------------------------------------------------- numbers

  const U64_LIMIT := 0x1_0000_0000_0000_0000
  const I32_LIMIT := 0x8000_0000

  predicate IsDigit(c: char) { '0' <= c <= '9' }

  function Digit(d: nat): (c: char)
    requires d < 10
    ensures IsDigit(c) && c as int - '0' as int == d
  {
    '0' + d as char
  }

  /** `u64::to_string`. */
  function ToDecimal(n: nat): (s: string)
    ensures s != "" && IsDigit(s[0])
  {
    if n < 10 then [Digit(n)] else ToDecimal(n / 10) + [Digit(n % 10)]
  }

  function ParseDigits(s: string): Option<nat>
    decreases |s|
  {
    if s == "" || !IsDigit(s[|s| - 1]) then None
    else
      var d := s[|s| - 1] as int - '0' as int;
      if |s| == 1 then Some(d)
      else match ParseDigits(s[..|s| - 1])
        case Some(v) => Some(10 * v + d)
        case None => None
  }

  /** `str::parse::<u64>`: an optional `+`, at least one digit, no overflow. */
  function ParseU64(s: string): Option<nat> {
    match ParseDigits(if |s| > 1 && s[0] == '+' then s[1..] else s)
    case Some(v) => if v < U64_LIMIT then Some(v) else None
    case None => None
  }

  /** `str::parse::<i32>`. */
  function ParseI32(s: string): Option<int> {
    var signed := |s| > 1 && (s[0] == '+' || s[0] == '-');
    match ParseDigits(if signed then s[1..] else s)
    case None => None
    case Some(v) =>
      var size: int := v;
      var n := if signed && s[0] == '-' then -size else size;
      if -I32_LIMIT <= n < I32_LIMIT then Some(n) else None
  }

  lemma {:induction false} DigitsRoundTrip(n: nat)
    ensures ParseDigits(ToDecimal(n)) == Some(n)
  {
    var s := ToDecimal(n);
    if n >= 10 {
      DigitsRoundTrip(n / 10);
      assert s[..|s| - 1] == ToDecimal(n / 10);
    }
  }

  /** Printing a generation number and parsing it back is the identity on `u64`. */
  lemma {:induction false} U64RoundTrip(n: nat)
    requires n < U64_LIMIT
    ensures ParseU64(ToDecimal(n)) == Some(n)
  {
    DigitsRoundTrip(n);
  }
}
