/** Small shared vocabulary: optional values, results, splitting of strings, and sums over finite sets. */
module Common {

  /** Times count microseconds, the resolution of a Postgres timestamp. */
  const TICKS_PER_SECOND := 1_000_000

  datatype Option<+T> = None | Some(value: T)

  datatype Result<+T, +E> = Ok(value: T) | Err(error: E)

  function Min(a: int, b: int): int {
    if a <= b then a else b
  }

  function Max(a: int, b: int): int {
    if a <= b then b else a
  }

  /** Python's str.split with a separator of one character. */
  function Split(s: string, sep: char): seq<string> {
    if s == [] then [""]
    else
      var rest := Split(s[1..], sep);
      if s[0] == sep then [""] + rest else [[s[0]] + rest[0]] + rest[1..]
  }

  /** The parts with a separator between any two. */
  function Join(parts: seq<string>, sep: char): string
    requires parts != []
  {
    if |parts| == 1 then parts[0] else parts[0] + [sep] + Join(parts[1..], sep)
  }

  lemma {:induction false} SplitFirst(p: string, sep: char, rest: string)
    requires sep !in p
    ensures Split(p + [sep] + rest, sep) == [p] + Split(rest, sep)
  {
    var s := p + [sep] + rest;
    if p == "" {
      assert s[1..] == rest;
    } else {
      assert s[1..] == p[1..] + [sep] + rest;
      SplitFirst(p[1..], sep, rest);
      assert p == [p[0]] + p[1..];
    }
  }

  lemma {:induction false} SplitNothing(p: string, sep: char)
    requires sep !in p
    ensures Split(p, sep) == [p]
  {
    if p != "" {
      SplitNothing(p[1..], sep);
      assert p == [p[0]] + p[1..];
    }
  }

  /** Splitting finds exactly the parts that were joined. */
  lemma {:induction false} SplitJoined(parts: seq<string>, sep: char)
    requires parts != [] && forall i :: 0 <= i < |parts| ==> sep !in parts[i]
    ensures Split(Join(parts, sep), sep) == parts
  {
    if |parts| == 1 {
      SplitNothing(parts[0], sep);
    } else {
      SplitJoined(parts[1..], sep);
      SplitFirst(parts[0], sep, Join(parts[1..], sep));
      assert parts == [parts[0]] + parts[1..];
    }
  }

  lemma JoinThree(a: string, b: string, c: string, sep: char)
    ensures Join([a, b, c], sep) == a + [sep] + b + [sep] + c
  {
    assert [a, b, c][1..] == [b, c] && [b, c][1..] == [c];
    assert Join([b, c], sep) == b + [sep] + c;
  }

  ghost function Pick<K>(s: set<K>): K
    requires s != {}
  {
    var x :| x in s;
    x
  }

  /** Sum of f over the elements of s. */
  ghost function Sum<K>(s: set<K>, f: K -> int): int {
    if s == {} then 0
    else
      var x := Pick(s);
      f(x) + Sum(s - {x}, f)
  }

  /** The order in which elements are summed is irrelevant. */
  lemma {:induction false} SumRemove<K>(s: set<K>, f: K -> int, x: K)
    requires x in s
    ensures Sum(s, f) == f(x) + Sum(s - {x}, f)
  {
    var y := Pick(s);
    if y != x {
      SumRemove(s - {y}, f, x);
      SumRemove(s - {x}, f, y);
      assert s - {y} - {x} == s - {x} - {y};
    }
  }

  /** Two functions that differ by d(x) at every x differ by Sum(d) in total. */
  lemma {:induction false} SumDifference<K>(s: set<K>, f: K -> int, g: K -> int, d: K -> int)
    requires forall x :: x in s ==> f(x) == g(x) + d(x)
    ensures Sum(s, f) == Sum(s, g) + Sum(s, d)
  {
    if s != {} {
      SumDifference(s - {Pick(s)}, f, g, d);
    }
  }

  /** The indicator of a subset sums to its cardinality. */
  lemma {:induction false} SumIndicator<K>(s: set<K>, p: set<K>, d: K -> int)
    requires p <= s
    requires forall x :: x in s ==> d(x) == if x in p then 1 else 0
    ensures Sum(s, d) == |p|
  {
    if s != {} {
      var x := Pick(s);
      SumIndicator(s - {x}, p - {x}, d);
      assert x !in p ==> p - {x} == p;
    } else {
      assert p == {};
    }
  }

  lemma {:induction false} SumEqual<K>(s: set<K>, f: K -> int, g: K -> int)
    requires forall x :: x in s ==> f(x) == g(x)
    ensures Sum(s, f) == Sum(s, g)
  {
    if s != {} {
      SumEqual(s - {Pick(s)}, f, g);
    }
  }

  /** Changing f at one element changes the total by the change at that element. */
  lemma SumChangeOne<K>(s: set<K>, f: K -> int, g: K -> int, x: K)
    requires x in s
    requires forall y :: y in s && y != x ==> f(y) == g(y)
    ensures Sum(s, f) - f(x) == Sum(s, g) - g(x)
  {
    SumRemove(s, f, x);
    SumRemove(s, g, x);
    SumEqual(s - {x}, f, g);
  }

  lemma {:induction false} SumNonNegative<K>(s: set<K>, f: K -> int)
    requires forall x :: x in s ==> f(x) >= 0
    ensures Sum(s, f) >= 0
  {
    if s != {} {
      SumNonNegative(s - {Pick(s)}, f);
    }
  }
}
