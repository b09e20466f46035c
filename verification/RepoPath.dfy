/**
 Repository-relative paths (agent_core/build_harness/validation.py): the canonical form of a
 changed-file path, or the reason it is refused.
 */
module RepoPath {
  import opened Wrappers
  import opened Text
  import opened StableSort
  import opened Grammar

  datatype PathError = Empty | ControlCharacter | Unc | Drive | Absolute | Nothing | Traversal

  predicate IsControl(c: char) {
    c as int < 32 || c as int == 127
  }

  predicate HasControl(s: string) {
    exists i :: 0 <= i < |s| && IsControl(s[i])
  }

  predicate DriveLike(s: string) {
    |s| >= 2 && (IsUpper(s[0]) || IsLower(s[0])) && s[1] == ':'
  }

  function Slash(c: char): char {
    if c == '\\' then '/' else c
  }

  /** `s.replace("\\", "/")`. */
  function Slashed(s: string): (t: string)
    ensures |t| == |s| && forall i :: 0 <= i < |s| ==> t[i] == Slash(s[i])
  {
    seq(|s|, i requires 0 <= i < |s| => Slash(s[i]))
  }

  function Kept(): string -> bool {
    (seg: string) => seg != "" && seg != "."
  }

  /** The path's segments, without empty ones and ".". */
  function Segments(s: string): seq<string> {
    Select(SplitOn(Slashed(s), '/'), Kept())
  }

  /** The canonical form: the segments joined with "/", unless the path is refused. */
  function Normal(path: string): Result<string, PathError> {
    var raw := Strip(path);
    if raw == "" then Err(Empty)
    else if HasControl(raw) then Err(ControlCharacter)
    else if |raw| >= 2 && raw[0] == '\\' && raw[1] == '\\' then Err(Unc)
    else if DriveLike(raw) then Err(Drive)
    else if Slash(raw[0]) == '/' then Err(Absolute)
    else if Segments(raw) == [] then Err(Nothing)
    else if ".." in Segments(raw) then Err(Traversal)
    else Ok(Join(Segments(raw), "/"))
  }

  /** `normalize_repo_path`, with its loop over leading "./". */
  method NormalizeRepoPath(path: string) returns (r: Result<string, PathError>)
    ensures r == Normal(path)
  {
    var raw := Strip(path);
    if raw == "" {
      return Err(Empty);
    }
    if HasControl(raw) {
      return Err(ControlCharacter);
    }
    if |raw| >= 2 && raw[0] == '\\' && raw[1] == '\\' {
      return Err(Unc);
    }
    if DriveLike(raw) {
      return Err(Drive);
    }
    var normalized := Slashed(raw);
    if normalized[0] == '/' {
      return Err(Absolute);
    }
    while |normalized| >= 2 && normalized[..2] == "./"
      invariant Select(SplitOn(normalized, '/'), Kept()) == Segments(raw)
    {
      DotSlash(normalized);
      normalized := normalized[2..];
    }
    var segments := Select(SplitOn(normalized, '/'), Kept());
    if segments == [] {
      return Err(Nothing);
    }
    if ".." in segments {
      return Err(Traversal);
    }
    r := Ok(Join(segments, "/"));
  }

  lemma DotSlash(s: string)
    requires |s| >= 2 && s[..2] == "./"
    ensures Select(SplitOn(s, '/'), Kept()) == Select(SplitOn(s[2..], '/'), Kept())
  {
    assert s == "." + "/" + s[2..];
    SplitStep(".", s[2..], '/');
    assert (["."] + SplitOn(s[2..], '/'))[1..] == SplitOn(s[2..], '/');
  }

  // --- The canonical form ---

  /** A segment of a canonical path. */
  predicate CleanSegment(seg: string) {
    seg != "" && seg != "." && seg != ".." && '/' !in seg && '\\' !in seg && !HasControl(seg)
  }

  predicate Canonical(s: string) {
    forall seg :: seg in SplitOn(s, '/') ==> CleanSegment(seg)
  }

  lemma {:induction false} PiecesWithin(s: string, c: char, p: string, x: char)
    requires p in SplitOn(s, c) && x in p
    ensures x in s
  {
    var rest := SplitOn(s[1..], c);
    if p in rest {
      PiecesWithin(s[1..], c, p, x);
    } else {
      assert p == [s[0]] + rest[0];
      if x != s[0] {
        PiecesWithin(s[1..], c, rest[0], x);
      }
    }
  }

  lemma SegmentsClean(raw: string)
    requires !HasControl(raw) && ".." !in Segments(raw)
    ensures forall seg :: seg in Segments(raw) ==> CleanSegment(seg)
  {
    var s := Slashed(raw);
    SelectMembers(SplitOn(s, '/'), Kept());
    forall seg | seg in Segments(raw) ensures CleanSegment(seg) {
      forall x | x in seg ensures x != '\\' && !IsControl(x) {
        PiecesWithin(s, '/', seg, x);
        var i :| 0 <= i < |s| && s[i] == x;
      }
    }
  }

  /** Whatever is accepted comes out canonical: its own segments are the kept ones, all of them clean. */
  lemma NormalIsCanonical(path: string)
    requires Normal(path).Ok?
    ensures var n := Normal(path).value;
      Canonical(n) && SplitOn(n, '/') == Segments(Strip(path))
  {
    var segs := Segments(Strip(path));
    SegmentsClean(Strip(path));
    SplitOfJoin(segs, '/');
  }

  /** Two accepted paths have the same canonical form exactly when they have the same segments. */
  lemma SameNormal(p: string, q: string)
    requires Normal(p).Ok? && Normal(q).Ok?
    ensures Normal(p) == Normal(q) <==> Segments(Strip(p)) == Segments(Strip(q))
  {
    NormalIsCanonical(p);
    NormalIsCanonical(q);
  }

  // --- Normalising twice ---

  lemma {:induction false} JoinHas(ps: seq<string>, c: char, x: char)
    requires x in Join(ps, [c]) && x != c
    ensures exists p :: p in ps && x in p
  {
    if |ps| == 1 {
      assert ps[0] in ps;
    } else if ps != [] {
      if x in ps[0] {
        assert ps[0] in ps;
      } else {
        JoinHas(ps[1..], c, x);
      }
    }
  }

  lemma CanonicalCharacters(n: string)
    requires Canonical(n)
    ensures n != "" && n[0] != '/' && Slashed(n) == n && !HasControl(n)
  {
    var ps := SplitOn(n, '/');
    JoinOfSplit(n, '/');
    forall i | 0 <= i < |n| && n[i] != '/' ensures n[i] != '\\' && !IsControl(n[i]) {
      JoinHas(ps, '/', n[i]);
      var p :| p in ps && n[i] in p;
      var j :| 0 <= j < |p| && p[j] == n[i];
    }
    assert ps[0] in ps && CleanSegment(ps[0]);
  }

  lemma CanonicalSegments(n: string)
    requires Canonical(n)
    ensures Segments(n) == SplitOn(n, '/') && ".." !in Segments(n)
  {
    CanonicalCharacters(n);
    SelectAll(SplitOn(n, '/'), Kept());
  }

  lemma {:induction false} SelectJoinShorter(ps: seq<string>, keep: string -> bool)
    ensures |Join(Select(ps, keep), "/")| <= |Join(ps, "/")|
    ensures Select(ps, keep) != [] ==> ps != []
  {
    if ps != [] {
      var rest := Select(ps[1..], keep);
      SelectJoinShorter(ps[1..], keep);
      if keep(ps[0]) {
        assert Select(ps, keep) == [ps[0]] + rest && ([ps[0]] + rest)[1..] == rest;
      } else {
        assert Select(ps, keep) == rest;
      }
    }
  }

  /** A stripped canonical form that is not drive-like is accepted as it stands. */
  lemma CanonicalFixed(n: string)
    requires Canonical(n) && Stripped(n)
    ensures Normal(n) == if DriveLike(n) then Err(Drive) else Ok(n)
  {
    CanonicalCharacters(n);
    CanonicalSegments(n);
    JoinOfSplit(n, '/');
    StrippedFixed(n);
  }

  /** Normalising never makes a text longer than its stripped form. */
  lemma NormalNotLonger(s: string)
    requires Normal(s).Ok?
    ensures |Normal(s).value| <= |Strip(s)|
  {
    var raw := Strip(s);
    SelectJoinShorter(SplitOn(Slashed(raw), '/'), Kept());
    JoinOfSplit(Slashed(raw), '/');
  }

  lemma StripShorter(s: string)
    requires !Stripped(s)
    ensures |Strip(s)| < |s|
  {
    var i, j := StripSlice(s);
  }

  predicate StartsPlainly(s: string) {
    s != "" && !IsSpace(s[0]) && !DriveLike(s)
  }

  predicate EndsPlainly(s: string) {
    s != "" && !IsSpace(s[|s| - 1])
  }

  /** The first segment starts with no whitespace and does not look like a drive, the last ends with no whitespace. */
  predicate Settled(segs: seq<string>) {
    segs != [] && StartsPlainly(segs[0]) && EndsPlainly(segs[|segs| - 1])
  }

  lemma JoinStart(ps: seq<string>)
    requires ps != [] && CleanSegment(ps[0])
    ensures StartsPlainly(Join(ps, "/")) <==> StartsPlainly(ps[0])
  {
    var s, first := Join(ps, "/"), ps[0];
    if |ps| > 1 {
      assert s == first + ("/" + Join(ps[1..], "/"));
      assert s[0] == first[0] && s[1] == if |first| > 1 then first[1] else '/';
    }
  }

  lemma {:induction false} JoinEnd(ps: seq<string>)
    requires ps != [] && ps[|ps| - 1] != ""
    ensures EndsPlainly(Join(ps, "/")) <==> EndsPlainly(ps[|ps| - 1])
    ensures Join(ps, "/") != ""
  {
    if |ps| > 1 {
      JoinEnd(ps[1..]);
      var s, rest := Join(ps, "/"), Join(ps[1..], "/");
      assert s == ps[0] + "/" + rest && s[|s| - 1] == rest[|rest| - 1];
    }
  }

  lemma SettledJoin(segs: seq<string>)
    requires segs != [] && forall seg :: seg in segs ==> CleanSegment(seg)
    ensures var n := Join(segs, "/");
      Settled(segs) <==> Stripped(n) && !DriveLike(n)
  {
    assert segs[0] in segs && segs[|segs| - 1] in segs;
    JoinStart(segs);
    JoinEnd(segs);
  }

  /** Normalising twice is normalising once exactly when the kept segments of the path are settled, that is, when the
      canonical form has no outer whitespace and does not look like a drive. */
  lemma NormalTwice(path: string)
    requires Normal(path).Ok?
    ensures var n := Normal(path).value;
      var segs := Segments(Strip(path));
      && (Normal(n) == Ok(n) <==> Settled(segs))
      && (Normal(n) == Ok(n) <==> Stripped(n) && !DriveLike(n))
  {
    var n := Normal(path).value;
    NormalIsCanonical(path);
    SegmentsClean(Strip(path));
    SettledJoin(Segments(Strip(path)));
    if Stripped(n) {
      CanonicalFixed(n);
    } else {
      StripShorter(n);
      if Normal(n).Ok? {
        NormalNotLonger(n);
      }
    }
  }

  lemma DotSlashSegments(seg: string)
    requires CleanSegment(seg)
    ensures Segments("./" + seg) == [seg] && !HasControl("./" + seg)
  {
    var path := "./" + seg;
    forall i | 0 <= i < |path| ensures Slash(path[i]) == path[i] && !IsControl(path[i]) {
      assert i >= 2 ==> path[i] == seg[i - 2] && seg[i - 2] in seg;
    }
    assert Slashed(path) == path;
    assert path[..2] == "./" && path[2..] == seg;
    DotSlash(path);
    SplitPlain(seg, '/');
    SelectAll([seg], Kept());
  }

  /** A drive-like name behind "./" is accepted, its canonical form is refused. */
  lemma HiddenDrive(seg: string)
    requires CleanSegment(seg) && Stripped(seg) && DriveLike(seg)
    ensures Normal("./" + seg) == Ok(seg) && Normal(seg) == Err(Drive)
  {
    var path := "./" + seg;
    assert path[0] == '.' && path[1] == '/' && path[|path| - 1] == seg[|seg| - 1];
    StrippedFixed(path);
    StrippedFixed(seg);
    DotSlashSegments(seg);
  }

  /** For example "./a:b". */
  lemma HiddenDriveExample()
    ensures Normal("./a:b") == Ok("a:b") && Normal("a:b") == Err(Drive)
  {
    assert CleanSegment("a:b") && Stripped("a:b") && DriveLike("a:b");
    HiddenDrive("a:b");
    assert "./" + "a:b" == "./a:b";
  }

  // --- Which paths are accepted ---

  predicate IsSlash(c: char) {
    c == '/' || c == '\\'
  }

  /** A drive letter and a colon. */
  predicate NamesDrive(s: string) {
    |s| >= 2 && s[1] == ':' && ('a' <= s[0] <= 'z' || 'A' <= s[0] <= 'Z')
  }

  /** Exactly the paths that are not blank, hold no control character, start with no slash, backslash or drive, keep a
      segment and keep no "..". */
  lemma AcceptedExactly(path: string)
    ensures var raw := Strip(path);
      Normal(path).Ok? <==>
        && raw != "" && (forall i :: 0 <= i < |raw| ==> 32 <= raw[i] as int != 127)
        && !IsSlash(raw[0]) && !NamesDrive(raw) && Segments(raw) != [] && ".." !in SplitOn(Slashed(raw), '/')
  {
    var raw := Strip(path);
    SelectMembers(SplitOn(Slashed(raw), '/'), Kept());
    if HasControl(raw) {
      var i :| 0 <= i < |raw| && IsControl(raw[i]);
    }
  }

  /** Which paths are refused for which reason, in the order of the checks. */
  lemma RefusedExactly(path: string)
    ensures var raw, r := Strip(path), Normal(path);
      var control := exists i :: 0 <= i < |raw| && (raw[i] as int < 32 || raw[i] as int == 127);
      && (r == Err(Empty) <==> raw == "")
      && (r == Err(ControlCharacter) <==> control)
      && (r == Err(Unc) <==> !control && "\\\\" <= raw)
      && (r == Err(Drive) <==> !control && NamesDrive(raw))
      && (r == Err(Absolute) <==> !control && raw != "" && IsSlash(raw[0]) && !("\\\\" <= raw))
  {
    var raw := Strip(path);
    if HasControl(raw) {
      var i :| 0 <= i < |raw| && IsControl(raw[i]);
    }
  }
}
