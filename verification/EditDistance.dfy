/** The one-edit check (`_edit_distance_at_most_one`, agent_core/conversation/profile_memory.py). */
module EditDistance {

  function Min(a: nat, b: nat): nat {
    if a < b then a else b
  }

  /** The Levenshtein distance by its standard recursion: deletion, insertion, substitution. */
  function Levenshtein(a: string, b: string): nat
    decreases |a| + |b|
  {
    if a == [] then |b|
    else if b == [] then |a|
    else if a[0] == b[0] then Levenshtein(a[1..], b[1..])
    else 1 + Min(Levenshtein(a[1..], b), Min(Levenshtein(a, b[1..]), Levenshtein(a[1..], b[1..])))
  }

  lemma {:induction false} ZeroExactlyWhenEqual(a: string, b: string)
    ensures Levenshtein(a, b) == 0 <==> a == b
    decreases |a|
  {
    if a != [] && b != [] && a[0] == b[0] {
      ZeroExactlyWhenEqual(a[1..], b[1..]);
      assert a == [a[0]] + a[1..] && b == [b[0]] + b[1..];
    }
  }

  lemma {:induction false} Symmetric(a: string, b: string)
    ensures Levenshtein(a, b) == Levenshtein(b, a)
    decreases |a| + |b|
  {
    if a != [] && b != [] {
      Symmetric(a[1..], b[1..]);
      Symmetric(a[1..], b);
      Symmetric(a, b[1..]);
    }
  }

  lemma {:induction false} AtLeastLengthDifference(a: string, b: string)
    ensures Levenshtein(a, b) >= |a| - |b| && Levenshtein(a, b) >= |b| - |a|
    decreases |a| + |b|
  {
    if a != [] && b != [] {
      AtLeastLengthDifference(a[1..], b[1..]);
      AtLeastLengthDifference(a[1..], b);
      AtLeastLengthDifference(a, b[1..]);
    }
  }

  /** Where the heads differ, one edit must repair everything. */
  lemma HeadsDiffer(a: string, b: string)
    requires a != [] && b != [] && a[0] != b[0]
    ensures Levenshtein(a, b) <= 1 <==> a[1..] == b || a == b[1..] || a[1..] == b[1..]
  {
    ZeroExactlyWhenEqual(a[1..], b);
    ZeroExactlyWhenEqual(a, b[1..]);
    ZeroExactlyWhenEqual(a[1..], b[1..]);
  }

  function Mismatches(a: string, b: string): nat
    requires |a| == |b|
  {
    if a == [] then 0 else (if a[0] != b[0] then 1 else 0) + Mismatches(a[1..], b[1..])
  }

  lemma {:induction false} NoMismatch(a: string, b: string)
    requires |a| == |b|
    ensures Mismatches(a, b) == 0 <==> a == b
  {
    if a != [] {
      NoMismatch(a[1..], b[1..]);
      assert a == [a[0]] + a[1..] && b == [b[0]] + b[1..];
    }
  }

  lemma {:induction false} EqualLengths(a: string, b: string)
    requires |a| == |b|
    ensures Levenshtein(a, b) <= 1 <==> Mismatches(a, b) <= 1
  {
    if a != [] {
      if a[0] == b[0] {
        EqualLengths(a[1..], b[1..]);
      } else {
        HeadsDiffer(a, b);
        NoMismatch(a[1..], b[1..]);
      }
    }
  }

  lemma {:induction false} MismatchesSnoc(a: string, b: string, i: nat)
    requires |a| == |b| && i < |a|
    ensures Mismatches(a[..i + 1], b[..i + 1]) == Mismatches(a[..i], b[..i]) + if a[i] != b[i] then 1 else 0
  {
    if i > 0 {
      MismatchesSnoc(a[1..], b[1..], i - 1);
      assert a[..i + 1][1..] == a[1..][..i] && b[..i + 1][1..] == b[1..][..i];
      assert a[..i][1..] == a[1..][..i - 1] && b[..i][1..] == b[1..][..i - 1];
    }
  }

  method CountMismatches(a: string, b: string) returns (n: nat)
    requires |a| == |b|
    ensures n == Mismatches(a, b)
  {
    n := 0;
    for i := 0 to |a|
      invariant n == Mismatches(a[..i], b[..i])
    {
      MismatchesSnoc(a, b, i);
      if a[i] != b[i] {
        n := n + 1;
      }
    }
    assert a[..|a|] == a && b[..|b|] == b;
  }

  method AtMostOne(first: string, second: string) returns (r: bool)
    ensures r <==> Levenshtein(first, second) <= 1
  {
    var a, b := first, second;
    ZeroExactlyWhenEqual(a, b);
    AtLeastLengthDifference(a, b);
    if a == b {
      return true;
    }
    if |a| > |b| + 1 || |b| > |a| + 1 {
      return false;
    }
    if |a| == |b| {
      EqualLengths(a, b);
      var n := CountMismatches(a, b);
      return n <= 1;
    }
    if |a| > |b| {
      Symmetric(a, b);
      a, b := b, a;
    }
    var i, j, edits := 0, 0, 0;
    while i < |a| && j < |b|
      invariant 0 <= i <= |a| && j == i + edits <= |b| && 0 <= edits <= 1
      invariant edits == 0 ==> (Levenshtein(first, second) <= 1 <==> Levenshtein(a[i..], b[i..]) <= 1)
      invariant edits == 1 ==> (Levenshtein(first, second) <= 1 <==> a[i..] == b[j..])
      decreases |b| - j
    {
      assert a[i..][1..] == a[i + 1..] && b[j..][1..] == b[j + 1..];
      if a[i] == b[j] {
        assert a[i..] == [a[i]] + a[i + 1..] && b[j..] == [b[j]] + b[j + 1..];
        i := i + 1;
        j := j + 1;
        continue;
      }
      if edits == 0 {
        HeadsDiffer(a[i..], b[j..]);
      }
      edits := edits + 1;
      if edits > 1 {
        assert a[i..][0] != b[j..][0];
        return false;
      }
      j := j + 1;
    }
    r := true;
  }
}
