/** Lexicographic order, as Python compares tuples of integers and strings, and sorting by it. */
module Ordering {

  predicate Less(a: seq<int>, b: seq<int>) {
    b != [] && (a == [] || a[0] < b[0] || (a[0] == b[0] && Less(a[1..], b[1..])))
  }

  lemma {:induction false} LessIsTotal(a: seq<int>, b: seq<int>)
    ensures Less(a, b) || Less(b, a) || a == b
    ensures !(Less(a, b) && Less(b, a)) && !Less(a, a)
  {
    if a != [] {
      LessIsTotal(a[1..], a[1..]);
      if b != [] {
        LessIsTotal(a[1..], b[1..]);
        assert a == [a[0]] + a[1..] && b == [b[0]] + b[1..];
      }
    }
  }

  lemma {:induction false} LessIsTransitive(a: seq<int>, b: seq<int>, c: seq<int>)
    requires Less(a, b) && Less(b, c)
    ensures Less(a, c)
  {
    if a != [] && a[0] == b[0] && b[0] == c[0] {
      LessIsTransitive(a[1..], b[1..], c[1..]);
    }
  }

  /** a comes first at position i: there it has ended, or has the smaller element, after the same beginning. */
  predicate FirstAt(a: seq<int>, b: seq<int>, i: nat) {
    i <= |a| && i < |b| && a[..i] == b[..i] && (i == |a| || a[i] < b[i])
  }

  /** The order is decided by the first difference. */
  lemma {:induction false} LessIsByFirstDifference(a: seq<int>, b: seq<int>)
    ensures Less(a, b) <==> exists i :: 0 <= i && FirstAt(a, b, i)
  {
    if a == [] || b == [] {
      assert b != [] ==> FirstAt(a, b, 0);
    } else if a[0] != b[0] {
      assert a[0] < b[0] ==> FirstAt(a, b, 0);
      forall i: nat | FirstAt(a, b, i) ensures a[0] < b[0] {
        assert i > 0 ==> a[..i][0] == b[..i][0];
      }
    } else {
      LessIsByFirstDifference(a[1..], b[1..]);
      forall i: nat | FirstAt(a[1..], b[1..], i) ensures FirstAt(a, b, i + 1) {
        assert a[..i + 1] == [a[0]] + a[1..][..i] && b[..i + 1] == [b[0]] + b[1..][..i];
      }
      forall i: nat | FirstAt(a, b, i) ensures i > 0 && FirstAt(a[1..], b[1..], i - 1) {
        if i > 0 {
          assert a[1..][..i - 1] == a[..i][1..] && b[1..][..i - 1] == b[..i][1..];
        }
      }
    }
  }

  function Codes(s: string): seq<int> {
    seq(|s|, i requires 0 <= i < |s| => s[i] as int)
  }

  predicate StringLess(a: string, b: string) {
    Less(Codes(a), Codes(b))
  }

  lemma CodesAreFaithful(a: string, b: string)
    requires Codes(a) == Codes(b)
    ensures a == b
  {
    forall i | 0 <= i < |a| ensures a[i] == b[i] {
      assert Codes(a)[i] == Codes(b)[i];
    }
  }

  lemma StringLessIsTotal(a: string, b: string)
    ensures StringLess(a, b) || StringLess(b, a) || a == b
    ensures !(StringLess(a, b) && StringLess(b, a)) && !StringLess(a, a)
  {
    LessIsTotal(Codes(a), Codes(b));
    if Codes(a) == Codes(b) {
      CodesAreFaithful(a, b);
    }
  }

  lemma StringLessIsTransitive(a: string, b: string, c: string)
    requires StringLess(a, b) && StringLess(b, c)
    ensures StringLess(a, c)
  {
    LessIsTransitive(Codes(a), Codes(b), Codes(c));
  }

  // ---- sorted() on a set of strings ----

  ghost predicate IsSorted(l: seq<string>) {
    forall i, j :: 0 <= i < j < |l| ==> StringLess(l[i], l[j])
  }

  /** l is s in increasing order, each element once. */
  ghost predicate Sorts(l: seq<string>, s: set<string>) {
    IsSorted(l) && (set x | x in l) == s
  }

  lemma SortsMembers(l: seq<string>, s: set<string>)
    requires Sorts(l, s)
    ensures forall x :: x in l <==> x in s
  {
    assert forall x :: x in l <==> x in (set y | y in l);
  }

  method Least(s: set<string>) returns (m: string)
    requires s != {}
    ensures m in s && forall x :: x in s && x != m ==> StringLess(m, x)
  {
    m :| m in s;
    var rest := s - {m};
    while rest != {}
      invariant m in s && m !in rest && rest <= s
      invariant forall x :: x in s - rest && x != m ==> StringLess(m, x)
      decreases rest
    {
      var x :| x in rest;
      StringLessIsTotal(x, m);
      if StringLess(x, m) {
        forall y | y in s - rest && y != x ensures StringLess(x, y) {
          if y != m {
            StringLessIsTransitive(x, m, y);
          }
        }
        m := x;
      }
      rest := rest - {x};
    }
  }

  method Sort(s: set<string>) returns (l: seq<string>)
    ensures Sorts(l, s) && |l| == |s|
  {
    l := [];
    var rest := s;
    while rest != {}
      invariant rest <= s && Sorts(l, s - rest) && |l| == |s| - |rest|
      invariant forall x, y :: x in l && y in rest ==> StringLess(x, y)
      decreases rest
    {
      var m := Least(rest);
      forall i | 0 <= i < |l| ensures StringLess(l[i], m) {
        assert l[i] in l;
      }
      assert (set x | x in l + [m]) == (set x | x in l) + {m};
      assert s - (rest - {m}) == s - rest + {m};
      forall x, y | x in l + [m] && y in rest - {m} ensures StringLess(x, y) {
        if x !in l {
          assert x == m;
        }
      }
      l, rest := l + [m], rest - {m};
    }
    assert s - rest == s;
  }

  lemma SortsEmpty(l: seq<string>, s: set<string>)
    requires Sorts(l, s)
    ensures l == [] <==> s == {}
  {
    if l != [] {
      assert l[0] in s;
    }
  }

  /** There is only one way to sort a set. */
  lemma {:induction false} SortIsUnique(a: seq<string>, b: seq<string>, s: set<string>)
    requires Sorts(a, s) && Sorts(b, s)
    ensures a == b
  {
    SortsEmpty(a, s);
    SortsEmpty(b, s);
    if a != [] {
      HeadsAgree(a, b, s);
      TailSorts(a, s);
      TailSorts(b, s);
      SortIsUnique(a[1..], b[1..], s - {a[0]});
      assert a == [a[0]] + a[1..] && b == [b[0]] + b[1..];
    }
  }

  lemma HeadsAgree(a: seq<string>, b: seq<string>, s: set<string>)
    requires Sorts(a, s) && Sorts(b, s) && a != [] && b != []
    ensures a[0] == b[0]
  {
    assert a[0] in s && b[0] in s;
    var i :| 0 <= i < |b| && b[i] == a[0];
    var j :| 0 <= j < |a| && a[j] == b[0];
    StringLessIsTotal(a[0], b[0]);
  }

  lemma TailSorts(a: seq<string>, s: set<string>)
    requires Sorts(a, s) && a != []
    ensures Sorts(a[1..], s - {a[0]})
  {
    forall x ensures x in a[1..] <==> x in s - {a[0]} {
      if x in a[1..] {
        var i :| 1 <= i < |a| && a[i] == x;
        StringLessIsTotal(a[0], x);
        assert x in s;
      } else if x in s && x != a[0] {
        assert x in a;
      }
    }
  }

  lemma {:induction false} SortsLength(l: seq<string>, s: set<string>)
    requires Sorts(l, s)
    ensures |l| == |s|
  {
    SortsEmpty(l, s);
    if l != [] {
      TailSorts(l, s);
      SortsLength(l[1..], s - {l[0]});
      assert l[0] in s;
    }
  }
}
