/**
 Python's stable `sort(key=..., reverse=True)`: descending by key, equal keys in their old order.

 A stable sort is determined by two facts: it is descending, and for every key it lists the
 elements of that key in their old order (`SortUnique`).
 */
module StableSort {

  /** Sort keys: a float and a timestamp, compared in that order. */
  datatype Key = Key(major: real, minor: int)

  predicate Geq(a: Key, b: Key) {
    a.major > b.major || (a.major == b.major && a.minor >= b.minor)
  }

  predicate Descending<T>(xs: seq<T>, key: T -> Key) {
    forall i, j :: 0 <= i < j < |xs| ==> Geq(key(xs[i]), key(xs[j]))
  }

  /** Places `x`, which stood before all of `ys`, ahead of the first element it is not smaller than. */
  function Insert<T>(x: T, ys: seq<T>, key: T -> Key): seq<T> {
    if ys == [] then [x]
    else if Geq(key(x), key(ys[0])) then [x] + ys
    else [ys[0]] + Insert(x, ys[1..], key)
  }

  function Sort<T>(xs: seq<T>, key: T -> Key): seq<T> {
    if xs == [] then [] else Insert(xs[0], Sort(xs[1..], key), key)
  }

  /** List comprehension with a condition. */
  function Select<T>(xs: seq<T>, keep: T -> bool): seq<T> {
    if xs == [] then [] else (if keep(xs[0]) then [xs[0]] else []) + Select(xs[1..], keep)
  }

  function HasKey<T>(key: T -> Key, k: Key): T -> bool {
    x => key(x) == k
  }

  function Both<T>(p: T -> bool, q: T -> bool): T -> bool {
    x => p(x) && q(x)
  }

  /** The elements with a given key, in order. */
  function Class<T>(xs: seq<T>, key: T -> Key, k: Key): seq<T> {
    Select(xs, HasKey(key, k))
  }

  lemma {:induction false} SelectMembers<T(!new)>(xs: seq<T>, keep: T -> bool)
    ensures forall x :: x in Select(xs, keep) <==> x in xs && keep(x)
    ensures |Select(xs, keep)| <= |xs|
  {
    if xs != [] {
      SelectMembers(xs[1..], keep);
    }
  }

  lemma {:induction false} SelectSnoc<T(!new)>(xs: seq<T>, x: T, keep: T -> bool)
    ensures Select(xs + [x], keep) == Select(xs, keep) + if keep(x) then [x] else []
  {
    if xs == [] {
      assert [x][1..] == [] && [] + [x] == [x];
    } else {
      SelectSnoc(xs[1..], x, keep);
      assert (xs + [x])[1..] == xs[1..] + [x];
    }
  }

  lemma {:induction false} SelectTwice<T(!new)>(xs: seq<T>, p: T -> bool, q: T -> bool)
    ensures Select(Select(xs, p), q) == Select(xs, Both(p, q))
  {
    if xs != [] {
      SelectTwice(xs[1..], p, q);
      if p(xs[0]) {
        assert Select(xs, p)[1..] == Select(xs[1..], p);
      } else {
        assert Select(xs, p) == Select(xs[1..], p);
      }
    }
  }

  lemma {:induction false} SelectCongruent<T(!new)>(xs: seq<T>, p: T -> bool, q: T -> bool)
    requires forall x :: x in xs ==> p(x) == q(x)
    ensures Select(xs, p) == Select(xs, q)
  {
    if xs != [] {
      SelectCongruent(xs[1..], p, q);
    }
  }

  lemma {:induction false} SelectAll<T(!new)>(xs: seq<T>, keep: T -> bool)
    requires forall x :: x in xs ==> keep(x)
    ensures Select(xs, keep) == xs
  {
    if xs != [] {
      SelectAll(xs[1..], keep);
    }
  }

  lemma {:induction false} SelectNone<T(!new)>(xs: seq<T>, keep: T -> bool)
    requires forall x :: x in xs ==> !keep(x)
    ensures Select(xs, keep) == []
  {
    if xs != [] {
      SelectNone(xs[1..], keep);
    }
  }

  lemma {:induction false} InsertMembers<T(!new)>(x: T, ys: seq<T>, key: T -> Key)
    ensures |Insert(x, ys, key)| == |ys| + 1
    ensures forall z :: z in Insert(x, ys, key) <==> z == x || z in ys
  {
    if ys != [] && !Geq(key(x), key(ys[0])) {
      InsertMembers(x, ys[1..], key);
    }
  }

  lemma {:induction false} InsertDescending<T(!new)>(x: T, ys: seq<T>, key: T -> Key)
    requires Descending(ys, key)
    ensures Descending(Insert(x, ys, key), key)
  {
    if ys != [] && !Geq(key(x), key(ys[0])) {
      var rest := Insert(x, ys[1..], key);
      InsertDescending(x, ys[1..], key);
      InsertMembers(x, ys[1..], key);
      forall j | 0 <= j < |rest| ensures Geq(key(ys[0]), key(rest[j])) {
        assert rest[j] in Insert(x, ys[1..], key);
        if rest[j] in ys[1..] {
          var i :| 0 <= i < |ys[1..]| && ys[1..][i] == rest[j];
          assert Geq(key(ys[0]), key(ys[i + 1]));
        } else {
          assert rest[j] == x;
        }
      }
    }
  }

  /** Sorting is descending and keeps exactly the elements. */
  lemma {:induction false} SortDescending<T(!new)>(xs: seq<T>, key: T -> Key)
    ensures Descending(Sort(xs, key), key)
    ensures |Sort(xs, key)| == |xs|
    ensures forall x :: x in Sort(xs, key) <==> x in xs
  {
    if xs != [] {
      SortDescending(xs[1..], key);
      InsertDescending(xs[0], Sort(xs[1..], key), key);
      InsertMembers(xs[0], Sort(xs[1..], key), key);
    }
  }

  lemma {:induction false} InsertClass<T(!new)>(x: T, ys: seq<T>, key: T -> Key, k: Key)
    requires Descending(ys, key)
    ensures Class(Insert(x, ys, key), key, k) == (if key(x) == k then [x] else []) + Class(ys, key, k)
  {
    if ys == [] {
      assert [x][1..] == [];
    } else if Geq(key(x), key(ys[0])) {
      assert ([x] + ys)[1..] == ys;
    } else {
      InsertClass(x, ys[1..], key, k);
      var rest := Insert(x, ys[1..], key);
      assert ([ys[0]] + rest)[1..] == rest;
      if key(x) == k {
        assert Class(ys[1..], key, k) == Class(ys, key, k);
      }
    }
  }

  /** Sorting is stable. */
  lemma {:induction false} SortStable<T(!new)>(xs: seq<T>, key: T -> Key, k: Key)
    ensures Class(Sort(xs, key), key, k) == Class(xs, key, k)
  {
    if xs != [] {
      SortStable(xs[1..], key, k);
      SortDescending(xs[1..], key);
      InsertClass(xs[0], Sort(xs[1..], key), key, k);
    }
  }

  /** Descending and stable determine the result. */
  lemma {:induction false} SortUnique<T(!new)>(xs: seq<T>, ys: seq<T>, key: T -> Key)
    requires Descending(xs, key) && Descending(ys, key)
    requires forall k :: Class(xs, key, k) == Class(ys, key, k)
    ensures xs == ys
  {
    if xs == [] {
      if ys != [] {
        ClassOfHead(ys, key);
        assert false;
      }
    } else {
      HeadsEqual(xs, ys, key);
      assert xs == [xs[0]] + xs[1..] && ys == [ys[0]] + ys[1..];
      forall k ensures Class(xs[1..], key, k) == Class(ys[1..], key, k) {
        assert Class(xs, key, k) == Class(ys, key, k);
        var head := if key(xs[0]) == k then [xs[0]] else [];
        assert Class(xs, key, k) == head + Class(xs[1..], key, k);
        assert Class(ys, key, k) == head + Class(ys[1..], key, k);
        assert Class(xs, key, k)[|head|..] == Class(xs[1..], key, k);
        assert Class(ys, key, k)[|head|..] == Class(ys[1..], key, k);
      }
      SortUnique(xs[1..], ys[1..], key);
    }
  }

  lemma ClassOfHead<T(!new)>(xs: seq<T>, key: T -> Key)
    requires xs != []
    ensures Class(xs, key, key(xs[0])) != [] && Class(xs, key, key(xs[0]))[0] == xs[0]
  {
  }

  lemma HeadsEqual<T(!new)>(xs: seq<T>, ys: seq<T>, key: T -> Key)
    requires Descending(xs, key) && Descending(ys, key) && xs != []
    requires forall k :: Class(xs, key, k) == Class(ys, key, k)
    ensures ys != [] && ys[0] == xs[0]
  {
    var k := key(xs[0]);
    ClassOfHead(xs, key);
    assert xs[0] in Class(ys, key, k);
    SelectMembers(ys, HasKey(key, k));
    assert xs[0] in ys;
    var l := key(ys[0]);
    ClassOfHead(ys, key);
    assert ys[0] in Class(xs, key, l);
    SelectMembers(xs, HasKey(key, l));
    assert ys[0] in xs;
    assert Geq(k, l) && Geq(l, k);
  }

  /** A sort by a finer key forgets an earlier stable sort by a coarser one, even through a filter. */
  lemma ResortForgets<T(!new)>(xs: seq<T>, coarse: T -> Key, fine: T -> Key, keep: T -> bool)
    requires forall x, y :: fine(x) == fine(y) ==> coarse(x) == coarse(y)
    ensures Sort(Select(Sort(xs, coarse), keep), fine) == Sort(Select(xs, keep), fine)
  {
    var sorted, plain := Select(Sort(xs, coarse), keep), Select(xs, keep);
    forall k ensures Class(Sort(sorted, fine), fine, k) == Class(Sort(plain, fine), fine, k) {
      ClassThroughSort(xs, coarse, fine, keep, k);
      SortStable(sorted, fine, k);
      SortStable(plain, fine, k);
    }
    SortDescending(sorted, fine);
    SortDescending(plain, fine);
    SortUnique(Sort(sorted, fine), Sort(plain, fine), fine);
  }

  lemma ClassThroughSort<T(!new)>(xs: seq<T>, coarse: T -> Key, fine: T -> Key, keep: T -> bool, k: Key)
    requires forall x, y :: fine(x) == fine(y) ==> coarse(x) == coarse(y)
    ensures Class(Select(Sort(xs, coarse), keep), fine, k) == Class(Select(xs, keep), fine, k)
  {
    var ys := Sort(xs, coarse);
    var want := Both(keep, HasKey(fine, k));
    SelectTwice(ys, keep, HasKey(fine, k));
    SelectTwice(xs, keep, HasKey(fine, k));
    if w :| w in xs && fine(w) == k {
      var c := coarse(w);
      SortStable(xs, coarse, c);
      SelectWithin(ys, HasKey(coarse, c), want);
      SelectWithin(xs, HasKey(coarse, c), want);
    } else {
      SortDescending(xs, coarse);
      SelectMembers(xs, want);
      SelectMembers(ys, want);
      assert forall x :: x !in Select(xs, want);
      assert forall x :: x !in Select(ys, want);
      NonEmptyHasMember(Select(xs, want));
      NonEmptyHasMember(Select(ys, want));
    }
  }

  lemma NonEmptyHasMember<T(!new)>(xs: seq<T>)
    ensures xs != [] ==> exists x :: x in xs
  {
    if xs != [] {
      assert xs[0] in xs;
    }
  }

  lemma SelectWithin<T(!new)>(xs: seq<T>, outer: T -> bool, inner: T -> bool)
    requires forall x :: inner(x) ==> outer(x)
    ensures Select(xs, inner) == Select(Select(xs, outer), inner)
  {
    SelectTwice(xs, outer, inner);
    SelectCongruent(xs, Both(outer, inner), inner);
  }
}
