/** Python's code-point order on strings, and the sorted listing of a set of strings. */
module StringOrder {

  predicate Less(a: string, b: string) {
    if b == [] then false
    else if a == [] then true
    else a[0] < b[0] || (a[0] == b[0] && Less(a[1..], b[1..]))
  }

  /** `a` is a proper prefix of `b`, or has the smaller code point where they first differ. */
  predicate Precedes(a: string, b: string) {
    || (|a| < |b| && b[..|a|] == a)
    || exists k :: 0 <= k < |a| && k < |b| && a[..k] == b[..k] && a[k] as int < b[k] as int
  }

  lemma PrecedesTail(a: string, b: string)
    requires a != [] && b != [] && a[0] == b[0]
    ensures Precedes(a, b) <==> Precedes(a[1..], b[1..])
  {
    var x, y := a[1..], b[1..];
    assert a == [a[0]] + x && b == [b[0]] + y;
    if |a| < |b| && b[..|a|] == a {
      assert y[..|x|] == b[..|a|][1..] == x;
    } else if k :| 0 <= k < |a| && k < |b| && a[..k] == b[..k] && a[k] as int < b[k] as int {
      assert x[..k - 1] == a[..k][1..] == b[..k][1..] == y[..k - 1];
      assert x[k - 1] as int < y[k - 1] as int;
    }
    if |x| < |y| && y[..|x|] == x {
      assert b[..|a|] == [b[0]] + y[..|x|] == a;
    } else if k :| 0 <= k < |x| && k < |y| && x[..k] == y[..k] && x[k] as int < y[k] as int {
      assert a[..k + 1] == [a[0]] + x[..k] == [b[0]] + y[..k] == b[..k + 1];
      assert a[k + 1] as int < b[k + 1] as int;
    }
  }

  /** The order is Python's order of strings. */
  lemma {:induction false} LessExactly(a: string, b: string)
    ensures Less(a, b) <==> Precedes(a, b)
  {
    if a != [] && b != [] {
      if a[0] == b[0] {
        LessExactly(a[1..], b[1..]);
        PrecedesTail(a, b);
      } else {
        assert a[..0] == b[..0];
        if |a| < |b| { assert b[..|a|][0] == b[0]; }
        forall k | 0 < k < |a| && k < |b| ensures a[..k] != b[..k] {
          assert a[..k][0] == a[0] && b[..k][0] == b[0];
        }
      }
    }
  }

  lemma {:induction false} LessTransitive(a: string, b: string, c: string)
    requires Less(a, b) && Less(b, c)
    ensures Less(a, c)
  {
    if a != [] && a[0] == b[0] && b[0] == c[0] {
      LessTransitive(a[1..], b[1..], c[1..]);
    }
  }

  lemma {:induction false} LessTotal(a: string, b: string)
    ensures a == b || Less(a, b) || Less(b, a)
    ensures !Less(a, a)
    ensures !(Less(a, b) && Less(b, a))
  {
    if a != [] {
      LessTotal(a[1..], a[1..]);
      if b != [] && a[0] == b[0] {
        LessTotal(a[1..], b[1..]);
        if a[1..] == b[1..] {
          assert a == [a[0]] + a[1..] && b == [b[0]] + b[1..];
        }
      }
    }
  }

  /** Sorted and duplicate-free, as `value == sorted(value)` with `len(value) == len(set(value))`. */
  predicate Sorted(xs: seq<string>) {
    forall i, j :: 0 <= i < j < |xs| ==> Less(xs[i], xs[j])
  }

  predicate IsLeast(x: string, s: set<string>) {
    x in s && forall y :: y in s && y != x ==> Less(x, y)
  }

  lemma {:induction false} LeastExists(s: set<string>)
    requires s != {}
    ensures exists x :: IsLeast(x, s)
  {
    var x :| x in s;
    var rest := s - {x};
    if rest == {} {
      assert s == {x};
      assert IsLeast(x, s);
    } else {
      LeastExists(rest);
      var y :| IsLeast(y, rest);
      LessTotal(x, y);
      if Less(x, y) {
        forall z | z in s && z != x ensures Less(x, z) {
          if z != y { LessTransitive(x, y, z); }
        }
        assert IsLeast(x, s);
      } else {
        assert IsLeast(y, s);
      }
    }
  }

  lemma LeastUnique(s: set<string>)
    ensures forall x, y :: IsLeast(x, s) && IsLeast(y, s) ==> x == y
  {
    forall x, y | IsLeast(x, s) && IsLeast(y, s) ensures x == y {
      LessTotal(x, y);
    }
  }

  function Least(s: set<string>): (x: string)
    requires s != {}
    ensures IsLeast(x, s)
  {
    LeastExists(s);
    LeastUnique(s);
    var x :| IsLeast(x, s);
    x
  }

  /** Python's `sorted(s)` of a set of strings. */
  function SortedOf(s: set<string>): (r: seq<string>)
    ensures Sorted(r)
    ensures forall x :: x in r <==> x in s
    ensures |r| == |s|
    decreases |s|
  {
    if s == {} then []
    else
      var x := Least(s);
      var rest := SortedOf(s - {x});
      assert forall j :: 0 <= j < |rest| ==> rest[j] in rest;
      [x] + rest
  }

  /** A sorted duplicate-free listing is determined by its elements. */
  lemma {:induction false} SortedUnique(xs: seq<string>, ys: seq<string>)
    requires Sorted(xs) && Sorted(ys)
    requires forall x :: x in xs <==> x in ys
    ensures xs == ys
  {
    if xs == [] {
      assert forall k :: 0 <= k < |ys| ==> ys[k] in xs;
    } else {
      assert xs[0] in ys;
      var k :| 0 <= k < |ys| && ys[k] == xs[0];
      if k > 0 {
        assert ys[0] in xs;
        var j :| 0 <= j < |xs| && xs[j] == ys[0];
        LessTotal(xs[0], ys[0]);
      }
      assert ys[0] == xs[0];
      forall x ensures x in xs[1..] <==> x in ys[1..] {
        LessTotal(xs[0], xs[0]);
        if x in xs[1..] {
          assert x in xs && x != xs[0];
          assert x in ys;
        }
        if x in ys[1..] {
          assert x in ys && x != ys[0];
          assert x in xs;
        }
      }
      SortedUnique(xs[1..], ys[1..]);
    }
  }
}
