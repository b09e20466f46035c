/** Python string operations: `strip`, `split()`, `split(sep)` and `join`. */
module Text {

  /** `str.isspace` on one character. */
  predicate IsSpace(c: char) {
    var n := c as int;
    || 0x09 <= n <= 0x0D || 0x1C <= n <= 0x20 || n == 0x85 || n == 0xA0 || n == 0x1680
    || 0x2000 <= n <= 0x200A || n == 0x2028 || n == 0x2029 || n == 0x202F || n == 0x205F || n == 0x3000
  }

  predicate NoSpace(s: string) {
    forall i :: 0 <= i < |s| ==> !IsSpace(s[i])
  }

  function StripLeft(s: string): string {
    if s != [] && IsSpace(s[0]) then StripLeft(s[1..]) else s
  }

  function StripRight(s: string): string {
    if s != [] && IsSpace(s[|s| - 1]) then StripRight(s[..|s| - 1]) else s
  }

  /** `s.strip()`. */
  function Strip(s: string): string {
    StripRight(StripLeft(s))
  }

  /** Neither the first nor the last character is whitespace. */
  predicate Stripped(s: string) {
    s != [] ==> !IsSpace(s[0]) && !IsSpace(s[|s| - 1])
  }

  lemma {:induction false} StripLeftSuffix(s: string) returns (k: nat)
    ensures k <= |s| && StripLeft(s) == s[k..] && (k < |s| ==> !IsSpace(s[k]))
    ensures forall i :: 0 <= i < k ==> IsSpace(s[i])
  {
    if s != [] && IsSpace(s[0]) {
      var j := StripLeftSuffix(s[1..]);
      k := j + 1;
      forall i | 0 <= i < k ensures IsSpace(s[i]) {
        if i > 0 { assert s[i] == s[1..][i - 1]; }
      }
      assert s[1..][j..] == s[k..];
    } else {
      k := 0;
    }
  }

  lemma {:induction false} StripRightPrefix(s: string) returns (k: nat)
    ensures k <= |s| && StripRight(s) == s[..k] && (k > 0 ==> !IsSpace(s[k - 1]))
    ensures forall i :: k <= i < |s| ==> IsSpace(s[i])
  {
    if s != [] && IsSpace(s[|s| - 1]) {
      k := StripRightPrefix(s[..|s| - 1]);
      assert s[..|s| - 1][..k] == s[..k];
    } else {
      k := |s|;
    }
  }

  /** Where `strip` cuts: only whitespace is dropped, and what remains has none at its ends. */
  lemma StripSlice(s: string) returns (i: nat, j: nat)
    ensures i <= j <= |s| && Strip(s) == s[i..j] && Stripped(s[i..j])
    ensures forall k :: 0 <= k < i || j <= k < |s| ==> IsSpace(s[k])
  {
    i := StripLeftSuffix(s);
    var k := StripRightPrefix(s[i..]);
    j := i + k;
    assert s[i..][..k] == s[i..j];
    forall l | j <= l < |s| ensures IsSpace(s[l]) {
      assert s[l] == s[i..][l - i];
    }
    if i < j {
      assert s[i..j][0] == s[i] && s[i..j][j - i - 1] == s[i..][k - 1];
    }
  }

  lemma StripIdempotent(s: string)
    ensures Stripped(Strip(s)) && Strip(Strip(s)) == Strip(s)
  {
    var i, j := StripSlice(s);
    StrippedFixed(Strip(s));
  }

  lemma StrippedFixed(s: string)
    ensures Stripped(s) <==> Strip(s) == s
  {
    var i, j := StripSlice(s);
  }

  // --- split() and join ---

  /** The length of the longest prefix without whitespace. */
  function WordEnd(s: string): (k: nat)
    ensures k <= |s| && NoSpace(s[..k]) && (k < |s| ==> IsSpace(s[k]))
  {
    if s == [] || IsSpace(s[0]) then 0
    else
      var k := WordEnd(s[1..]) + 1;
      assert s[..k] == [s[0]] + s[1..][..k - 1];
      k
  }

  predicate IsWord(s: string) {
    s != [] && NoSpace(s)
  }

  /** `s.split()`: the maximal runs of non-whitespace. */
  function Words(s: string): (ws: seq<string>)
    ensures forall w :: w in ws ==> IsWord(w)
    decreases |s|
  {
    if s == [] then []
    else if IsSpace(s[0]) then Words(s[1..])
    else [s[..WordEnd(s)]] + Words(s[WordEnd(s)..])
  }

  /** `sep.join(parts)`. */
  function Join(parts: seq<string>, sep: string): string {
    if parts == [] then "" else if |parts| == 1 then parts[0] else parts[0] + sep + Join(parts[1..], sep)
  }

  lemma {:induction false} WordEndAt(w: string, rest: string)
    requires NoSpace(w) && (rest == [] || IsSpace(rest[0]))
    ensures WordEnd(w + rest) == |w|
  {
    if w == [] {
      assert w + rest == rest;
    } else {
      assert (w + rest)[1..] == w[1..] + rest;
      WordEndAt(w[1..], rest);
    }
  }

  lemma WordsStep(w: string, rest: string)
    requires IsWord(w) && (rest == [] || IsSpace(rest[0]))
    ensures Words(w + rest) == [w] + Words(rest)
  {
    WordEndAt(w, rest);
    assert (w + rest)[..|w|] == w && (w + rest)[|w|..] == rest;
  }

  /** Splitting undoes joining words with a space. */
  lemma {:induction false} WordsOfJoin(ws: seq<string>)
    requires forall w :: w in ws ==> IsWord(w)
    ensures Words(Join(ws, " ")) == ws
  {
    if |ws| == 1 {
      WordsStep(ws[0], []);
      assert ws[0] + [] == ws[0];
    } else if ws != [] {
      var rest := " " + Join(ws[1..], " ");
      WordsOfJoin(ws[1..]);
      assert rest[1..] == Join(ws[1..], " ");
      WordsStep(ws[0], rest);
      assert ws[0] + rest == Join(ws, " ");
    }
  }

  lemma {:induction false} NoWords(s: string)
    ensures Words(s) == [] <==> Strip(s) == ""
  {
    var i, j := StripSlice(s);
    if s != [] {
      if IsSpace(s[0]) {
        NoWords(s[1..]);
        assert StripLeft(s) == StripLeft(s[1..]);
      } else {
        assert i == 0;
      }
    }
  }

  // --- split(sep) on one character ---

  /** `s.split(c)`: the pieces between the separators, empty ones included. */
  function SplitOn(s: string, c: char): (ps: seq<string>)
    ensures ps != [] && forall p :: p in ps ==> c !in p
  {
    if s == [] then [""]
    else
      var rest := SplitOn(s[1..], c);
      if s[0] == c then [""] + rest else [[s[0]] + rest[0]] + rest[1..]
  }

  lemma {:induction false} SplitStep(p: string, rest: string, c: char)
    requires c !in p
    ensures SplitOn(p + [c] + rest, c) == [p] + SplitOn(rest, c)
  {
    if p == [] {
      assert p + [c] + rest == [c] + rest;
      assert ([c] + rest)[1..] == rest;
    } else {
      SplitStep(p[1..], rest, c);
      assert (p + [c] + rest)[1..] == p[1..] + [c] + rest;
      assert [p[0]] + p[1..] == p;
    }
  }

  lemma {:induction false} SplitPlain(p: string, c: char)
    requires c !in p
    ensures SplitOn(p, c) == [p]
  {
    if p != [] {
      SplitPlain(p[1..], c);
      assert [p[0]] + p[1..] == p;
    }
  }

  /** Splitting undoes joining pieces without the separator. */
  lemma {:induction false} SplitOfJoin(ps: seq<string>, c: char)
    requires ps != [] && forall p :: p in ps ==> c !in p
    ensures SplitOn(Join(ps, [c]), c) == ps
  {
    if |ps| == 1 {
      SplitPlain(ps[0], c);
    } else {
      SplitOfJoin(ps[1..], c);
      SplitStep(ps[0], Join(ps[1..], [c]), c);
    }
  }

  /** Joining undoes splitting. */
  lemma {:induction false} JoinOfSplit(s: string, c: char)
    ensures Join(SplitOn(s, c), [c]) == s
  {
    if s != [] {
      JoinOfSplit(s[1..], c);
      var rest := SplitOn(s[1..], c);
      if s[0] == c {
        assert ([""] + rest)[1..] == rest;
        assert "" + [c] + s[1..] == s;
      } else {
        var ps := [[s[0]] + rest[0]] + rest[1..];
        assert ps[1..] == rest[1..];
        if |rest| > 1 {
          assert [s[0]] + (rest[0] + [c] + Join(rest[1..], [c])) == ([s[0]] + rest[0]) + [c] + Join(rest[1..], [c]);
        }
        assert [s[0]] + s[1..] == s;
      }
    }
  }
}
