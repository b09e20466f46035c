/**
 Arithmetic sides of a numeric comparison (agent_core/conversation/simple_comparison.py): the
 tokenizer against a layout grammar, and the two-pass fold against the precedence grammar.
 Digits are ASCII and numbers are exact.
 */
module Comparison {
  import opened Wrappers
  import opened Text
  import opened Grammar

  // --- Scanning ---

  /** The length of the leading run of digits. */
  function DigitRun(s: string): (k: nat)
    ensures k <= |s|
  {
    if s != [] && IsDecimal(s[0]) then 1 + DigitRun(s[1..]) else 0
  }

  /** The length of the match of `\d+(?:\.\d+)?` at the start; 0 is no match. */
  function NumberLength(s: string): (k: nat)
    ensures k <= |s|
  {
    var k := DigitRun(s);
    if k == 0 then 0
    else if k < |s| && s[k] == '.' && DigitRun(s[k + 1..]) > 0 then k + 1 + DigitRun(s[k + 1..])
    else k
  }

  predicate IsOperator(c: char) {
    c == '+' || c == '-' || c == '*' || c == '/'
  }

  function Prefixed(tokens: seq<string>, rest: Option<seq<string>>): Option<seq<string>> {
    match rest case None => None case Some(ts) => Some(tokens + ts)
  }

  lemma StripLeftShorter(s: string)
    ensures |StripLeft(s)| <= |s|
  {
    var _ := StripLeftSuffix(s);
  }

  /** The tokens of the rest of a side, a number being expected next or not. */
  function Scan(s: string, expectNumber: bool): Option<seq<string>>
    decreases |s|
  {
    if s == [] then (if expectNumber then None else Some([]))
    else if IsSpace(s[0]) then Scan(s[1..], expectNumber)
    else if expectNumber then
      var body := if s[0] == '-' then StripLeft(s[1..]) else s;
      var k := NumberLength(body);
      StripLeftShorter(s[1..]);
      if k == 0 then None
      else Prefixed([(if s[0] == '-' then "-" else "") + body[..k]], Scan(body[k..], false))
    else if IsOperator(s[0]) then Prefixed([[s[0]]], Scan(s[1..], true))
    else None
  }

  lemma PrefixedTwice(a: seq<string>, b: seq<string>, rest: Option<seq<string>>)
    ensures Prefixed(a, Prefixed(b, rest)) == Prefixed(a + b, rest)
  {
    if rest.Some? {
      assert a + (b + rest.value) == a + b + rest.value;
    }
  }

  method MatchNumber(expr: string, start: nat) returns (end: nat)
    requires start <= |expr|
    ensures end == start + NumberLength(expr[start..])
  {
    end := ScanDigits(expr, start);
    assert expr[start..][end - start..] == expr[end..];
    if end > start && end < |expr| && expr[end] == '.' {
      assert expr[start..][end - start + 1..] == expr[end + 1..];
      var more := ScanDigits(expr, end + 1);
      if more > end + 1 {
        end := more;
      }
    }
  }

  method ScanDigits(expr: string, start: nat) returns (end: nat)
    requires start <= |expr|
    ensures start <= end <= |expr| && end == start + DigitRun(expr[start..])
  {
    end := start;
    while end < |expr| && IsDecimal(expr[end])
      invariant start <= end <= |expr|
      invariant start + DigitRun(expr[start..]) == end + DigitRun(expr[end..])
    {
      assert expr[end..][1..] == expr[end + 1..];
      end := end + 1;
    }
  }

  method SkipSpaces(expr: string, start: nat) returns (end: nat)
    requires start <= |expr|
    ensures start <= end <= |expr| && expr[end..] == StripLeft(expr[start..])
  {
    end := start;
    while end < |expr| && IsSpace(expr[end])
      invariant start <= end <= |expr| && StripLeft(expr[end..]) == StripLeft(expr[start..])
    {
      assert expr[end..][1..] == expr[end + 1..];
      end := end + 1;
    }
  }

  /** The branch for an expected number: a minus sign, spaces, digits. */
  method ReadNumber(expr: string, i: nat) returns (token: Option<string>, end: nat)
    requires i < |expr| && !IsSpace(expr[i])
    ensures token.Some? ==> i < end <= |expr|
    ensures Scan(expr[i..], true) ==
      if token.Some? then Prefixed([token.value], Scan(expr[end..], false)) else None
  {
    var start := i;
    assert expr[i..][0] == expr[i] && expr[i..][1..] == expr[i + 1..];
    if expr[i] == '-' {
      start := SkipSpaces(expr, i + 1);
    }
    end := MatchNumber(expr, start);
    if end == start {
      return None, end;
    }
    assert expr[start..][..end - start] == expr[start..end] && expr[start..][end - start..] == expr[end..];
    token := Some((if expr[i] == '-' then "-" else "") + expr[start..end]);
  }

  /** `_tokenize`. */
  method Tokenize(expr: string) returns (r: Option<seq<string>>)
    ensures r == Scan(expr, true)
  {
    var tokens: seq<string>, i, expectNumber := [], 0, true;
    NothingPrefixed(Scan(expr, true));
    assert expr[0..] == expr;
    while i < |expr|
      invariant 0 <= i <= |expr|
      invariant Scan(expr, true) == Prefixed(tokens, Scan(expr[i..], expectNumber))
    {
      assert expr[i..][0] == expr[i] && expr[i..][1..] == expr[i + 1..];
      if IsSpace(expr[i]) {
        i := i + 1;
        continue;
      }
      if expectNumber {
        var token, end := ReadNumber(expr, i);
        if token.None? {
          return None;
        }
        PrefixedTwice(tokens, [token.value], Scan(expr[end..], false));
        tokens := tokens + [token.value];
        i, expectNumber := end, false;
      } else if IsOperator(expr[i]) {
        PrefixedTwice(tokens, [[expr[i]]], Scan(expr[i + 1..], true));
        tokens := tokens + [[expr[i]]];
        i, expectNumber := i + 1, true;
      } else {
        return None;
      }
    }
    r := if expectNumber then None else Some(tokens);
    assert tokens + [] == tokens;
  }

  lemma NothingPrefixed(rest: Option<seq<string>>)
    ensures Prefixed([], rest) == rest
  {
    if rest.Some? {
      assert [] + rest.value == rest.value;
    }
  }

  // --- Layouts: a side with its spacing ---

  /** A number literal; `gap` is the space between the sign and the digits. */
  datatype Number = Number(negative: bool, gap: string, digits: string, fraction: Option<string>)

  datatype Layout =
    | Last(lead: string, number: Number, trail: string)
    | More(lead: string, number: Number, mid: string, op: char, rest: Layout)

  predicate Spaces(s: string) {
    forall i :: 0 <= i < |s| ==> IsSpace(s[i])
  }

  predicate Digits(s: string) {
    s != [] && forall i :: 0 <= i < |s| ==> IsDecimal(s[i])
  }

  predicate ValidNumber(n: Number) {
    Spaces(n.gap) && (!n.negative ==> n.gap == "") && Digits(n.digits) && (n.fraction.Some? ==> Digits(n.fraction.value))
  }

  predicate ValidLayout(l: Layout) {
    match l
    case Last(lead, number, trail) => Spaces(lead) && ValidNumber(number) && Spaces(trail)
    case More(lead, number, mid, op, rest) =>
      Spaces(lead) && ValidNumber(number) && Spaces(mid) && IsOperator(op) && ValidLayout(rest)
  }

  function Unsigned(n: Number): string {
    n.digits + match n.fraction case None => "" case Some(f) => "." + f
  }

  function NumberText(n: Number): string {
    (if n.negative then "-" + n.gap else "") + Unsigned(n)
  }

  function NumberToken(n: Number): string {
    (if n.negative then "-" else "") + Unsigned(n)
  }

  function LayoutText(l: Layout): string {
    match l
    case Last(lead, number, trail) => lead + (NumberText(number) + trail)
    case More(lead, number, mid, op, rest) => lead + (NumberText(number) + (mid + ([op] + LayoutText(rest))))
  }

  function LayoutTokens(l: Layout): seq<string> {
    match l
    case Last(lead, number, trail) => [NumberToken(number)]
    case More(lead, number, mid, op, rest) => [NumberToken(number)] + ([[op]] + LayoutTokens(rest))
  }

  // --- Every layout scans to its tokens ---

  lemma {:induction false} ScanSpaces(ws: string, s: string, expectNumber: bool)
    requires Spaces(ws)
    ensures Scan(ws + s, expectNumber) == Scan(s, expectNumber)
  {
    if ws == [] {
      assert ws + s == s;
    } else {
      assert (ws + s)[1..] == ws[1..] + s;
      ScanSpaces(ws[1..], s, expectNumber);
    }
  }

  lemma {:induction false} StripLeftSpaces(ws: string, s: string)
    requires Spaces(ws) && (s == [] || !IsSpace(s[0]))
    ensures StripLeft(ws + s) == s
  {
    if ws == [] {
      assert ws + s == s;
    } else {
      assert (ws + s)[1..] == ws[1..] + s;
      StripLeftSpaces(ws[1..], s);
    }
  }

  lemma {:induction false} DigitRunAt(ds: string, rest: string)
    requires forall i :: 0 <= i < |ds| ==> IsDecimal(ds[i])
    requires rest == [] || !IsDecimal(rest[0])
    ensures DigitRun(ds + rest) == |ds|
  {
    if ds == [] {
      assert ds + rest == rest;
    } else {
      assert (ds + rest)[1..] == ds[1..] + rest;
      DigitRunAt(ds[1..], rest);
    }
  }

  /** What may follow a number. */
  predicate Ends(rest: string) {
    rest == [] || (!IsDecimal(rest[0]) && rest[0] != '.')
  }

  lemma NumberLengthAt(n: Number, rest: string)
    requires ValidNumber(n) && Ends(rest)
    ensures NumberLength(Unsigned(n) + rest) == |Unsigned(n)|
  {
    match n.fraction
    case None =>
      assert Unsigned(n) + rest == n.digits + rest;
      DigitRunAt(n.digits, rest);
    case Some(f) =>
      var tail := "." + f + rest;
      assert Unsigned(n) + rest == n.digits + tail;
      DigitRunAt(n.digits, tail);
      assert (n.digits + tail)[|n.digits| + 1..] == f + rest;
      DigitRunAt(f, rest);
  }

  lemma UnsignedStart(n: Number, rest: string)
    requires ValidNumber(n)
    ensures var body := Unsigned(n) + rest;
      && body != [] && IsDecimal(body[0]) && body[..|Unsigned(n)|] == Unsigned(n) && body[|Unsigned(n)|..] == rest
  {
  }

  lemma ScanPositive(n: Number, rest: string)
    requires ValidNumber(n) && Ends(rest) && !n.negative
    ensures Scan(NumberText(n) + rest, true) == Prefixed([NumberToken(n)], Scan(rest, false))
  {
    UnsignedStart(n, rest);
    NumberLengthAt(n, rest);
    assert NumberText(n) + rest == Unsigned(n) + rest && NumberToken(n) == Unsigned(n) == "" + Unsigned(n);
  }

  lemma ScanNegative(n: Number, rest: string)
    requires ValidNumber(n) && Ends(rest) && n.negative
    ensures Scan(NumberText(n) + rest, true) == Prefixed([NumberToken(n)], Scan(rest, false))
  {
    var s, body := NumberText(n) + rest, Unsigned(n) + rest;
    UnsignedStart(n, rest);
    NumberLengthAt(n, rest);
    assert s[0] == '-' && s[1..] == n.gap + body;
    StripLeftSpaces(n.gap, body);
    ScanMinus(s);
  }

  lemma ScanNumber(n: Number, rest: string)
    requires ValidNumber(n) && Ends(rest)
    ensures Scan(NumberText(n) + rest, true) == Prefixed([NumberToken(n)], Scan(rest, false))
  {
    if n.negative {
      ScanNegative(n, rest);
    } else {
      ScanPositive(n, rest);
    }
  }

  lemma ScanMiddle(mid: string, op: char, rest: string)
    requires Spaces(mid) && IsOperator(op)
    ensures Scan(mid + ([op] + rest), false) == Prefixed([[op]], Scan(rest, true)) && Ends(mid + ([op] + rest))
  {
    ScanSpaces(mid, [op] + rest, false);
    assert ([op] + rest)[1..] == rest;
  }

  /** The tokenizer accepts every layout and recovers its tokens, whatever the spacing. */
  lemma {:induction false} LayoutScans(l: Layout)
    requires ValidLayout(l)
    ensures Scan(LayoutText(l), true) == Some(LayoutTokens(l))
  {
    match l
    case Last(lead, number, trail) =>
      ScanSpaces(lead, NumberText(number) + trail, true);
      ScanNumber(number, trail);
      ScanSpaces(trail, [], false);
      assert trail + [] == trail && [NumberToken(number)] + [] == [NumberToken(number)];
    case More(lead, number, mid, op, rest) =>
      var tail := mid + ([op] + LayoutText(rest));
      ScanSpaces(lead, NumberText(number) + tail, true);
      ScanMiddle(mid, op, LayoutText(rest));
      ScanNumber(number, tail);
      LayoutScans(rest);
  }

  // --- Every accepted text is a layout ---

  lemma {:induction false} DigitRunDigits(s: string)
    ensures forall i :: 0 <= i < DigitRun(s) ==> IsDecimal(s[i])
    ensures DigitRun(s) < |s| ==> !IsDecimal(s[DigitRun(s)])
  {
    if s != [] && IsDecimal(s[0]) {
      DigitRunDigits(s[1..]);
      forall i | 0 <= i < DigitRun(s) ensures IsDecimal(s[i]) {
        if i > 0 { assert s[i] == s[1..][i - 1]; }
      }
    }
  }

  /** The literal at the start of a text. */
  lemma LiteralAt(s: string) returns (n: Number)
    requires NumberLength(s) > 0
    ensures ValidNumber(n) && !n.negative && s == Unsigned(n) + s[NumberLength(s)..]
    ensures Unsigned(n) == s[..NumberLength(s)]
  {
    assert s == s[..NumberLength(s)] + s[NumberLength(s)..];
    var k := DigitRun(s);
    DigitRunDigits(s);
    if k < |s| && s[k] == '.' && DigitRun(s[k + 1..]) > 0 {
      var m := DigitRun(s[k + 1..]);
      DigitRunDigits(s[k + 1..]);
      n := Number(false, "", s[..k], Some(s[k + 1..][..m]));
      assert s[..k] + ("." + s[k + 1..][..m]) == s[..k + 1 + m];
    } else {
      n := Number(false, "", s[..k], None);
      assert s[..k] + "" == s[..k];
    }
  }

  /** Leading spaces do not matter. */
  lemma SplitSpaces(s: string, expectNumber: bool) returns (lead: string, rest: string)
    ensures Spaces(lead) && s == lead + rest && (rest != [] ==> !IsSpace(rest[0]))
    ensures Scan(s, expectNumber) == Scan(rest, expectNumber)
  {
    var k := StripLeftSuffix(s);
    lead, rest := s[..k], s[k..];
    assert s == lead + rest;
    ScanSpaces(lead, rest, expectNumber);
  }

  lemma ScanOperator(s: string)
    requires s != [] && !IsSpace(s[0]) && Scan(s, false).Some?
    ensures IsOperator(s[0]) && Scan(s, false) == Prefixed([[s[0]]], Scan(s[1..], true))
  {
  }

  /** After a number: only spaces, or spaces and an operator before the next number. */
  lemma AfterNumber(s: string) returns (mid: string, op: Option<char>, rest: string)
    requires Scan(s, false).Some?
    ensures Spaces(mid)
    ensures op.None? ==> s == mid && Scan(s, false) == Some([])
    ensures op.Some? ==> IsOperator(op.value) && s == mid + ([op.value] + rest) && |rest| < |s|
    ensures op.Some? ==> Scan(s, false) == Prefixed([[op.value]], Scan(rest, true))
  {
    var t;
    mid, t := SplitSpaces(s, false);
    if t == [] {
      op, rest := None, [];
    } else {
      ScanOperator(t);
      op, rest := Some(t[0]), t[1..];
      assert t == [t[0]] + rest;
    }
  }

  lemma ScanMinus(s: string)
    requires s != [] && s[0] == '-'
    ensures var body := StripLeft(s[1..]);
      var k := NumberLength(body);
      Scan(s, true) == if k == 0 then None else Prefixed(["-" + body[..k]], Scan(body[k..], false))
  {
  }

  lemma NegativeSpelling(s: string, gap: string, body: string, number: string, rest: string)
    requires s != [] && s[0] == '-' && s[1..] == gap + body && body == number + rest
    ensures s == "-" + gap + number + rest
  {
  }

  lemma NegativeText(s: string) returns (n: Number)
    requires s != [] && s[0] == '-' && NumberLength(StripLeft(s[1..])) > 0
    ensures var body := StripLeft(s[1..]);
      var k := NumberLength(body);
      ValidNumber(n) && s == NumberText(n) + body[k..] && NumberToken(n) == "-" + body[..k] && |body| < |s|
  {
    var k := StripLeftSuffix(s[1..]);
    var body, gap := StripLeft(s[1..]), s[1..][..k];
    var literal := LiteralAt(body);
    n := literal.(negative := true, gap := gap);
    assert Unsigned(n) == Unsigned(literal);
    NegativeSpelling(s, gap, body, Unsigned(n), body[NumberLength(body)..]);
  }

  lemma NegativeAt(s: string) returns (n: Number, rest: string)
    requires s != [] && s[0] == '-' && Scan(s, true).Some?
    ensures ValidNumber(n) && s == NumberText(n) + rest && |rest| < |s|
    ensures Scan(s, true) == Prefixed([NumberToken(n)], Scan(rest, false))
  {
    ScanMinus(s);
    var body := StripLeft(s[1..]);
    n := NegativeText(s);
    rest := body[NumberLength(body)..];
  }

  lemma PositiveAt(s: string) returns (n: Number, rest: string)
    requires s != [] && s[0] != '-' && !IsSpace(s[0]) && Scan(s, true).Some?
    ensures ValidNumber(n) && s == NumberText(n) + rest && |rest| < |s|
    ensures Scan(s, true) == Prefixed([NumberToken(n)], Scan(rest, false))
  {
    n := LiteralAt(s);
    rest := s[NumberLength(s)..];
    assert NumberText(n) == Unsigned(n) && NumberToken(n) == Unsigned(n) == "" + s[..NumberLength(s)];
  }

  /** Before a number: spaces, then the literal. */
  lemma NumberAt(s: string) returns (lead: string, n: Number, rest: string)
    requires Scan(s, true).Some?
    ensures Spaces(lead) && ValidNumber(n) && s == lead + (NumberText(n) + rest) && |rest| < |s|
    ensures Scan(s, true) == Prefixed([NumberToken(n)], Scan(rest, false))
  {
    var t;
    lead, t := SplitSpaces(s, true);
    if t[0] == '-' {
      n, rest := NegativeAt(t);
    } else {
      n, rest := PositiveAt(t);
    }
  }

  /** Whatever the tokenizer accepts is a layout with these tokens. */
  lemma {:induction false} ScannedIsLayout(s: string) returns (l: Layout)
    requires Scan(s, true).Some?
    ensures ValidLayout(l) && LayoutText(l) == s && Some(LayoutTokens(l)) == Scan(s, true)
    decreases |s|
  {
    var lead, n, rest := NumberAt(s);
    var mid, op, after := AfterNumber(rest);
    if op.None? {
      l := Last(lead, n, mid);
      assert [NumberToken(n)] + [] == [NumberToken(n)];
    } else {
      var l' := ScannedIsLayout(after);
      l := More(lead, n, mid, op.value, l');
    }
  }

  // --- The precedence grammar ---

  datatype Op = Plus | Minus | Times | Over

  /** Derivations of the grammar: a side is a sum of terms, a term a product of literals, both to the left. */
  datatype Term = Literal(value: real) | Multiplied(left: Term, factor: real) | Divided(left: Term, divisor: real)

  datatype Side = Single(term: Term) | Added(left: Side, term: Term) | Subtracted(left: Side, term: Term)

  type Operations = seq<(Op, real)>

  function TermHead(t: Term): real {
    match t
    case Literal(v) => v
    case Multiplied(l, _) => TermHead(l)
    case Divided(l, _) => TermHead(l)
  }

  function TermTail(t: Term): Operations {
    match t
    case Literal(_) => []
    case Multiplied(l, n) => TermTail(l) + [(Times, n)]
    case Divided(l, n) => TermTail(l) + [(Over, n)]
  }

  /** The first literal of the side's text. */
  function Head(s: Side): real {
    match s
    case Single(t) => TermHead(t)
    case Added(l, _) => Head(l)
    case Subtracted(l, _) => Head(l)
  }

  /** The operators and literals after it, in order. */
  function Tail(s: Side): Operations {
    match s
    case Single(t) => TermTail(t)
    case Added(l, t) => Tail(l) + [(Plus, TermHead(t))] + TermTail(t)
    case Subtracted(l, t) => Tail(l) + [(Minus, TermHead(t))] + TermTail(t)
  }

  function Product(a: real, b: real): real {
    a * b
  }

  function Quotient(a: real, b: real): real
    requires b != 0.0
  {
    a / b
  }

  function TermValue(t: Term): Option<real> {
    match t
    case Literal(v) => Some(v)
    case Multiplied(l, n) => (match TermValue(l) case None => None case Some(v) => Some(Product(v, n)))
    case Divided(l, n) => (match TermValue(l) case None => None case Some(v) => if n == 0.0 then None else Some(Quotient(v, n)))
  }

  /** What the side means; undefined as soon as a divisor is zero. */
  function SideValue(s: Side): Option<real> {
    match s
    case Single(t) => TermValue(t)
    case Added(l, t) =>
      (match (SideValue(l), TermValue(t)) case (Some(v), Some(w)) => Some(v + w) case _ => None)
    case Subtracted(l, t) =>
      (match (SideValue(l), TermValue(t)) case (Some(v), Some(w)) => Some(v - w) case _ => None)
  }

  function ExtendTerm(t: Term, op: Op, n: real): Term {
    if op == Times then Multiplied(t, n) else Divided(t, n)
  }

  /** The derivation of a side followed by one more operator and literal. */
  function Extend(s: Side, op: Op, n: real): Side {
    match op
    case Plus => Added(s, Literal(n))
    case Minus => Subtracted(s, Literal(n))
    case _ =>
      match s
      case Single(t) => Single(ExtendTerm(t, op, n))
      case Added(l, t) => Added(l, ExtendTerm(t, op, n))
      case Subtracted(l, t) => Subtracted(l, ExtendTerm(t, op, n))
  }

  function Derive(head: real, tail: Operations): Side
    decreases |tail|
  {
    if tail == [] then Single(Literal(head))
    else
      var last := tail[|tail| - 1];
      Extend(Derive(head, tail[..|tail| - 1]), last.0, last.1)
  }

  lemma ExtendText(s: Side, op: Op, n: real)
    ensures Head(Extend(s, op, n)) == Head(s) && Tail(Extend(s, op, n)) == Tail(s) + [(op, n)]
  {
  }

  /** The derivation spells the text ... */
  lemma {:induction false} DeriveText(head: real, tail: Operations)
    ensures Head(Derive(head, tail)) == head && Tail(Derive(head, tail)) == tail
    decreases |tail|
  {
    if tail != [] {
      var before, last := tail[..|tail| - 1], tail[|tail| - 1];
      DeriveText(head, before);
      ExtendText(Derive(head, before), last.0, last.1);
      assert before + [last] == tail;
    }
  }

  lemma DeriveMore(head: real, tail: Operations, op: Op, n: real)
    ensures Derive(head, tail + [(op, n)]) == Extend(Derive(head, tail), op, n)
  {
    assert (tail + [(op, n)])[..|tail|] == tail;
  }

  /** Every side but a bare literal extends a shorter one. */
  lemma Shorter(s: Side) returns (shorter: Side, op: Op, n: real)
    requires s != Single(Literal(Head(s)))
    ensures Extend(shorter, op, n) == s
  {
    match s
    case Single(t) =>
      if t.Multiplied? { shorter, op, n := Single(t.left), Times, t.factor; }
      else { shorter, op, n := Single(t.left), Over, t.divisor; }
    case Added(l, t) =>
      if t.Literal? { shorter, op, n := l, Plus, t.value; }
      else if t.Multiplied? { shorter, op, n := Added(l, t.left), Times, t.factor; }
      else { shorter, op, n := Added(l, t.left), Over, t.divisor; }
    case Subtracted(l, t) =>
      if t.Literal? { shorter, op, n := l, Minus, t.value; }
      else if t.Multiplied? { shorter, op, n := Subtracted(l, t.left), Times, t.factor; }
      else { shorter, op, n := Subtracted(l, t.left), Over, t.divisor; }
  }

  /** ... and is the only one: the grammar is unambiguous. */
  lemma {:induction false} DeriveUnique(s: Side)
    ensures Derive(Head(s), Tail(s)) == s
    decreases |Tail(s)|
  {
    if s != Single(Literal(Head(s))) {
      var shorter, op, n := Shorter(s);
      ExtendText(shorter, op, n);
      DeriveUnique(shorter);
      DeriveMore(Head(shorter), Tail(shorter), op, n);
    }
  }

  // --- The two-pass fold ---

  function Sum(terms: seq<real>): real {
    if terms == [] then 0.0 else Sum(terms[..|terms| - 1]) + terms[|terms| - 1]
  }

  /** The value of the last term with its sign. */
  function LastTerm(s: Side): Option<real> {
    match s
    case Single(t) => TermValue(t)
    case Added(_, t) => TermValue(t)
    case Subtracted(_, t) => (match TermValue(t) case None => None case Some(v) => Some(-v))
  }

  /** A factor or divisor of the last term. */
  function Scaled(x: real, op: Op, n: real): real
    requires op == Over ==> n != 0.0
  {
    if op == Times then Product(x, n) else if op == Over then Quotient(x, n) else x
  }

  /** Scaling changes only the last term, sign included. */
  lemma ExtendScaled(s: Side, op: Op, n: real, v: real, last: real)
    requires SideValue(s) == Some(v) && LastTerm(s) == Some(last)
    requires op == Times || (op == Over && n != 0.0)
    ensures SideValue(Extend(s, op, n)) == Some(v - last + Scaled(last, op, n))
    ensures LastTerm(Extend(s, op, n)) == Some(Scaled(last, op, n))
  {
    var w := TermValue(s.term).value;
    var scaled := Scaled(w, op, n);
    ExtendTermValue(s.term, op, n, w);
    match s
    case Single(t) =>
      assert SideValue(Extend(s, op, n)) == Some(scaled) && v == last == w;
    case Added(l, t) =>
      assert SideValue(Extend(s, op, n)) == Some(SideValue(l).value + scaled) && last == w && v - last == SideValue(l).value;
    case Subtracted(l, t) =>
      ScaledSign(w, op, n);
      assert SideValue(Extend(s, op, n)) == Some(SideValue(l).value - scaled) && last == -w && v - last == SideValue(l).value;
  }

  lemma ExtendTermValue(t: Term, op: Op, n: real, w: real)
    requires TermValue(t) == Some(w) && (op == Times || (op == Over && n != 0.0))
    ensures TermValue(ExtendTerm(t, op, n)) == Some(Scaled(w, op, n))
  {
  }

  lemma ScaledSign(w: real, op: Op, n: real)
    requires op == Over ==> n != 0.0
    ensures Scaled(-w, op, n) == -Scaled(w, op, n)
  {
    SignMoves(w, n);
  }

  /** One more factor changes only the last term; one more summand starts a new one. */
  lemma ExtendValue(s: Side, op: Op, n: real, v: real, last: real)
    requires SideValue(s) == Some(v) && LastTerm(s) == Some(last)
    ensures var e := Extend(s, op, n);
      match op
      case Plus => SideValue(e) == Some(v + n) && LastTerm(e) == Some(n)
      case Minus => SideValue(e) == Some(v - n) && LastTerm(e) == Some(-n)
      case Times => SideValue(e) == Some(v - last + Product(last, n)) && LastTerm(e) == Some(Product(last, n))
      case Over =>
        if n == 0.0 then SideValue(e) == None
        else SideValue(e) == Some(v - last + Quotient(last, n)) && LastTerm(e) == Some(Quotient(last, n))
  {
    if op == Times || (op == Over && n != 0.0) {
      ExtendScaled(s, op, n, v, last);
    }
  }

  lemma SignMoves(w: real, n: real)
    ensures Product(-w, n) == -Product(w, n)
    ensures n != 0.0 ==> Quotient(-w, n) == -Quotient(w, n)
  {
    if n != 0.0 {
      var q := w / n;
      assert q * n == w;
      assert (-q) * n == -(q * n);
      assert ((-q) * n) / n == -q;
    }
  }

  lemma ExtendUndefined(s: Side, op: Op, n: real)
    requires SideValue(s) == None
    ensures SideValue(Extend(s, op, n)) == None
  {
  }

  predicate DividesByZero(tail: Operations) {
    exists i :: 0 <= i < |tail| && tail[i] == (Over, 0.0)
  }

  /** A side is undefined exactly when one of its divisors is zero. */
  lemma {:induction false} UndefinedExactly(head: real, tail: Operations)
    ensures SideValue(Derive(head, tail)) == None <==> DividesByZero(tail)
    ensures LastTerm(Derive(head, tail)) == None ==> SideValue(Derive(head, tail)) == None
    decreases |tail|
  {
    if tail != [] {
      var before, last := tail[..|tail| - 1], tail[|tail| - 1];
      UndefinedExactly(head, before);
      var s := Derive(head, before);
      if SideValue(s) == None {
        ExtendUndefined(s, last.0, last.1);
        var i :| 0 <= i < |before| && before[i] == (Over, 0.0);
        assert tail[i] == (Over, 0.0);
      } else {
        ExtendValue(s, last.0, last.1, SideValue(s).value, LastTerm(s).value);
        assert !DividesByZero(before);
        assert forall i :: 0 <= i < |before| ==> tail[i] == before[i];
      }
    }
  }

  // --- Evaluating a text ---

  function Whole(ds: string): real {
    if ds == [] then 0.0 else Whole(ds[..|ds| - 1]) * 10.0 + (ds[|ds| - 1] as int - '0' as int) as real
  }

  function Fraction(ds: string): real {
    if ds == [] then 0.0 else ((ds[0] as int - '0' as int) as real + Fraction(ds[1..])) / 10.0
  }

  function Magnitude(body: string): real {
    var k := DigitRun(body);
    Whole(body[..k]) + (if k < |body| then Fraction(body[k + 1..]) else 0.0)
  }

  /** `Decimal(token)` of a number token, exactly. */
  function DecimalOf(token: string): real {
    if token != [] && token[0] == '-' then -Magnitude(token[1..]) else Magnitude(token)
  }

  function OpOf(token: string): Op {
    if token == "*" then Times else if token == "/" then Over else if token == "+" then Plus else Minus
  }

  function OperationsOf(tokens: seq<string>): Operations {
    if |tokens| < 2 then []
    else [(OpOf(tokens[0]), DecimalOf(tokens[1]))] + OperationsOf(tokens[2..])
  }

  /** The meaning of alternating tokens: the value of their derivation in the precedence grammar. */
  function Meaning(tokens: seq<string>): Option<real>
    requires tokens != []
  {
    SideValue(Derive(DecimalOf(tokens[0]), OperationsOf(tokens[1..])))
  }

  lemma {:induction false} LayoutTokensOdd(l: Layout)
    ensures |LayoutTokens(l)| % 2 == 1
  {
    if l.More? {
      LayoutTokensOdd(l.rest);
    }
  }

  lemma ScanOdd(expr: string)
    requires Scan(expr, true).Some?
    ensures |Scan(expr, true).value| % 2 == 1
  {
    var l := ScannedIsLayout(expr);
    LayoutTokensOdd(l);
  }

  lemma SumChanged(terms: seq<real>, x: real)
    requires terms != []
    ensures Sum(terms[..|terms| - 1] + [x]) == Sum(terms) - terms[|terms| - 1] + x
  {
    assert (terms[..|terms| - 1] + [x])[..|terms| - 1] == terms[..|terms| - 1];
  }

  lemma SumGrown(terms: seq<real>, x: real)
    ensures Sum(terms + [x]) == Sum(terms) + x
  {
    assert (terms + [x])[..|terms|] == terms;
  }

  /** The running terms stand for this side. */
  ghost predicate Stands(terms: seq<real>, s: Side) {
    terms != [] && SideValue(s) == Some(Sum(terms)) && LastTerm(s) == Some(terms[|terms| - 1])
  }

  /** One step of the first pass; None is the division by zero. */
  method Fold(terms: seq<real>, op: Op, n: real, ghost s: Side) returns (r: Option<seq<real>>)
    requires Stands(terms, s)
    ensures r.None? <==> op == Over && n == 0.0
    ensures r.Some? ==> Stands(r.value, Extend(s, op, n))
  {
    var k := |terms| - 1;
    ExtendValue(s, op, n, Sum(terms), terms[k]);
    match op
    case Times =>
      SumChanged(terms, Product(terms[k], n));
      r := Some(terms[..k] + [Product(terms[k], n)]);
    case Over =>
      if n == 0.0 {
        return None;
      }
      SumChanged(terms, Quotient(terms[k], n));
      r := Some(terms[..k] + [Quotient(terms[k], n)]);
    case Plus =>
      SumGrown(terms, n);
      r := Some(terms + [n]);
    case Minus =>
      SumGrown(terms, -n);
      r := Some(terms + [-n]);
  }

  lemma StartStands(head: real)
    ensures Derive(head, []) == Single(Literal(head)) && Stands([head], Single(Literal(head)))
  {
    SumGrown([], head);
    assert [] + [head] == [head];
  }

  lemma DeriveStep(head: real, ops: Operations, j: nat)
    requires j < |ops|
    ensures Derive(head, ops[..j + 1]) == Extend(Derive(head, ops[..j]), ops[j].0, ops[j].1)
  {
    assert ops[..j + 1] == ops[..j] + [(ops[j].0, ops[j].1)];
    DeriveMore(head, ops[..j], ops[j].0, ops[j].1);
  }

  /** The two passes over the literals and operators of a side. */
  method EvalOperations(head: real, ops: Operations) returns (r: Option<real>)
    ensures r == SideValue(Derive(head, ops))
  {
    StartStands(head);
    UndefinedExactly(head, ops);
    assert ops[..0] == [];
    var terms := [head];
    for j := 0 to |ops|
      invariant Stands(terms, Derive(head, ops[..j]))
    {
      DeriveStep(head, ops, j);
      var folded := Fold(terms, ops[j].0, ops[j].1, Derive(head, ops[..j]));
      if folded.None? {
        return None;
      }
      terms := folded.value;
    }
    assert ops[..|ops|] == ops;
    r := Some(Sum(terms));
  }

  /** `_eval_side`: undefined for a text that is no side, else what the side means. */
  method EvalSide(expr: string) returns (r: Option<real>)
    ensures Scan(expr, true).None? ==> r.None?
    ensures Scan(expr, true).Some? ==> Scan(expr, true).value != [] && r == Meaning(Scan(expr, true).value)
  {
    var tokens := Tokenize(expr);
    if tokens.None? {
      return None;
    }
    ScanOdd(expr);
    r := EvalOperations(DecimalOf(tokens.value[0]), OperationsOf(tokens.value[1..]));
  }

  // --- The value of a layout ---

  /** The number that decimal digits denote. */
  function NaturalOf(ds: string): int {
    if ds == [] then 0 else 10 * NaturalOf(ds[..|ds| - 1]) + (ds[|ds| - 1] as int - 48)
  }

  function PowerOfTen(n: nat): (p: real)
    ensures p > 0.0
  {
    if n == 0 then 1.0 else 10.0 * PowerOfTen(n - 1)
  }

  lemma {:induction false} WholeIsNatural(ds: string)
    ensures Whole(ds) == NaturalOf(ds) as real
  {
    if ds != [] {
      WholeIsNatural(ds[..|ds| - 1]);
    }
  }

  lemma {:induction false} NaturalHead(ds: string)
    requires ds != []
    ensures NaturalOf(ds) as real ==
      Product((ds[0] as int - 48) as real, PowerOfTen(|ds| - 1)) + NaturalOf(ds[1..]) as real
  {
    if |ds| == 1 {
      assert ds[..0] == [] && ds[1..] == [];
    } else {
      var init := ds[..|ds| - 1];
      NaturalHead(init);
      assert init[1..] == ds[1..][..|ds| - 2];
      assert NaturalOf(ds[1..]) == 10 * NaturalOf(init[1..]) + (ds[|ds| - 1] as int - 48);
      TenTimes((ds[0] as int - 48) as real, PowerOfTen(|ds| - 2));
    }
  }

  lemma TenTimes(d: real, p: real)
    ensures Product(d, 10.0 * p) == 10.0 * Product(d, p)
  {
  }

  lemma FractionStep(d: real, f: real, p: real, shifted: real, power: real)
    requires shifted == (d + f) / 10.0 && power == 10.0 * p
    ensures Product(shifted, power) == Product(d, p) + Product(f, p)
  {
    assert shifted * 10.0 == d + f;
    assert shifted * power == (shifted * 10.0) * p;
  }

  lemma {:induction false} FractionIsNatural(ds: string)
    ensures Product(Fraction(ds), PowerOfTen(|ds|)) == NaturalOf(ds) as real
  {
    if ds != [] {
      FractionIsNatural(ds[1..]);
      NaturalHead(ds);
      FractionStep((ds[0] as int - 48) as real, Fraction(ds[1..]), PowerOfTen(|ds| - 1), Fraction(ds), PowerOfTen(|ds|));
    }
  }

  lemma DivideBack(a: real, p: real, n: real)
    requires p > 0.0 && Product(a, p) == n
    ensures a == Quotient(n, p)
  {
  }

  /** The number a literal denotes: its digits, and those after the point over a power of ten. */
  function NumberValue(n: Number): real {
    var magnitude := NaturalOf(n.digits) as real + match n.fraction
      case None => 0.0
      case Some(f) => Quotient(NaturalOf(f) as real, PowerOfTen(|f|));
    if n.negative then -magnitude else magnitude
  }

  lemma MagnitudeOf(n: Number)
    requires ValidNumber(n)
    ensures Magnitude(Unsigned(n)) == NumberValue(n.(negative := false))
  {
    WholeIsNatural(n.digits);
    match n.fraction
    case None =>
      assert Unsigned(n) == n.digits + "" && n.digits + "" == n.digits;
      DigitRunAt(n.digits, "");
    case Some(f) =>
      DigitRunAt(n.digits, "." + f);
      assert Unsigned(n)[..|n.digits|] == n.digits && Unsigned(n)[|n.digits| + 1..] == f;
      FractionIsNatural(f);
      DivideBack(Fraction(f), PowerOfTen(|f|), NaturalOf(f) as real);
  }

  lemma SignedDecimal(token: string, body: string)
    requires body != [] && body[0] != '-'
    ensures token == "-" + body ==> DecimalOf(token) == -Magnitude(body)
    ensures token == body ==> DecimalOf(token) == Magnitude(body)
  {
    assert ("-" + body)[1..] == body;
  }

  /** Reading a literal's token gives the number it denotes. */
  lemma DecimalExactly(n: Number)
    requires ValidNumber(n)
    ensures DecimalOf(NumberToken(n)) == NumberValue(n)
  {
    MagnitudeOf(n);
    SignedValue(n);
    assert !n.negative ==> NumberToken(n) == Unsigned(n);
    UnsignedStart(n, "");
    SignedDecimal(NumberToken(n), Unsigned(n));
  }

  lemma SignedValue(n: Number)
    ensures NumberValue(n) == if n.negative then -NumberValue(n.(negative := false)) else NumberValue(n.(negative := false))
  {
  }

  // --- What a text means, read off its layout ---

  function Symbol(op: Op): char {
    match op
    case Plus => '+'
    case Minus => '-'
    case Times => '*'
    case Over => '/'
  }

  /** The layout shows these operators, each before the literal it is paired with. */
  predicate Shows(l: Layout, ops: Operations) {
    match l
    case Last(_, _, _) => ops == []
    case More(_, _, _, op, rest) =>
      ops != [] && op == Symbol(ops[0].0) && ops[0].1 == NumberValue(rest.number) && Shows(rest, ops[1..])
  }

  lemma SymbolRead(op: Op)
    ensures OpOf([Symbol(op)]) == op
  {
  }

  lemma LayoutStart(l: Layout)
    requires ValidLayout(l)
    ensures LayoutTokens(l) != [] && DecimalOf(LayoutTokens(l)[0]) == NumberValue(l.number)
  {
    DecimalExactly(l.number);
  }

  lemma OperationsMore(token: string, rest: seq<string>)
    requires rest != []
    ensures OperationsOf([token] + rest) == [(OpOf(token), DecimalOf(rest[0]))] + OperationsOf(rest[1..])
  {
    assert ([token] + rest)[2..] == rest[1..];
  }

  lemma {:induction false} OperationsShown(l: Layout, ops: Operations)
    requires ValidLayout(l) && Shows(l, ops)
    ensures LayoutTokens(l) != [] && OperationsOf(LayoutTokens(l)[1..]) == ops
  {
    if l.More? {
      OperationsShown(l.rest, ops[1..]);
      LayoutStart(l.rest);
      SymbolRead(ops[0].0);
      OperationsMore([l.op], LayoutTokens(l.rest));
      assert LayoutTokens(l)[1..] == [[l.op]] + LayoutTokens(l.rest);
      assert ops == [ops[0]] + ops[1..];
    }
  }

  /** A side laid out in any spacing means what its derivation means. */
  lemma LayoutMeans(l: Layout, s: Side)
    requires ValidLayout(l) && Head(s) == NumberValue(l.number) && Shows(l, Tail(s))
    ensures Scan(LayoutText(l), true) == Some(LayoutTokens(l)) && LayoutTokens(l) != []
    ensures Meaning(LayoutTokens(l)) == SideValue(s)
  {
    LayoutScans(l);
    LayoutStart(l);
    OperationsShown(l, Tail(s));
    DeriveUnique(s);
  }

  lemma {:induction false} SomeOperations(l: Layout) returns (ops: Operations)
    requires ValidLayout(l)
    ensures Shows(l, ops)
  {
    match l
    case Last(_, _, _) => ops := [];
    case More(_, _, _, op, rest) =>
      var more := SomeOperations(rest);
      var first := if op == '+' then Plus else if op == '-' then Minus else if op == '*' then Times else Over;
      ops := [(first, NumberValue(rest.number))] + more;
  }

  /** Every accepted text is the layout of some derivation, and means what that derivation means. */
  lemma AcceptedMeans(expr: string) returns (l: Layout, s: Side)
    requires Scan(expr, true).Some?
    ensures ValidLayout(l) && LayoutText(l) == expr && Head(s) == NumberValue(l.number) && Shows(l, Tail(s))
    ensures Scan(expr, true).value != [] && Meaning(Scan(expr, true).value) == SideValue(s)
  {
    l := ScannedIsLayout(expr);
    var ops := SomeOperations(l);
    s := Derive(NumberValue(l.number), ops);
    DeriveText(NumberValue(l.number), ops);
    LayoutMeans(l, s);
  }
}
