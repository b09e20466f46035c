/**
 The JSON text of a canonical tree: `Dump` prints it the way `json.dumps` does with sorted keys,
 compact separators and ensure_ascii off (RFC 8259 sections 4 to 7), and `Parse` undoes `Dump`.
 */
module JsonText {
  import opened Wrappers
  import opened StringOrder

  /** A canonical tree: an object is a map, so key order is not part of it. */
  datatype Json =
    | JNull
    | JBool(flag: bool)
    | JInt(number: int)
    | JStr(text: string)
    | JList(items: seq<Json>)
    | JObject(members: map<string, Json>)

  // --- Printing (json.dumps with sort_keys, compact separators and ensure_ascii off) ---

  function Digit(d: int): char
    requires 0 <= d < 16
  {
    if d < 10 then ('0' as int + d) as char else ('a' as int + d - 10) as char
  }

  function NatText(n: nat): string {
    if n < 10 then [Digit(n)] else NatText(n / 10) + [Digit(n % 10)]
  }

  function IntText(n: int): string {
    if n < 0 then "-" + NatText(-n) else NatText(n)
  }

  /** One character inside a JSON string (RFC 8259 section 7). */
  function EscapeChar(c: char): string {
    if c == '\"' then "\\\""
    else if c == '\\' then "\\\\"
    else if c == '\n' then "\\n"
    else if c == '\r' then "\\r"
    else if c == '\t' then "\\t"
    else if c as int == 12 then "\\f"
    else if c as int == 8 then "\\b"
    else if c as int < 32 then "\\u00" + [Digit(c as int / 16), Digit(c as int % 16)]
    else [c]
  }

  function Escape(s: string): string {
    if s == [] then [] else EscapeChar(s[0]) + Escape(s[1..])
  }

  function Quote(s: string): string {
    "\"" + Escape(s) + "\""
  }

  function Dump(j: Json): string
    decreases j, 1
  {
    match j
    case JNull => "null"
    case JBool(b) => if b then "true" else "false"
    case JInt(n) => IntText(n)
    case JStr(s) => Quote(s)
    case JList(items) => "[" + DumpItems(items) + "]"
    case JObject(members) => "{" + DumpMembers(j, SortedOf(members.Keys)) + "}"
  }

  function DumpItems(items: seq<Json>): string
    decreases items, 0
  {
    if items == [] then ""
    else Dump(items[0]) + (if |items| == 1 then "" else "," + DumpItems(items[1..]))
  }

  function DumpMembers(j: Json, keys: seq<string>): string
    requires j.JObject? && forall k :: k in keys ==> k in j.members
    decreases j, 0, |keys|
  {
    if keys == [] then ""
    else Quote(keys[0]) + ":" + Dump(j.members[keys[0]])
         + (if |keys| == 1 then "" else "," + DumpMembers(j, keys[1..]))
  }

  // --- Parsing the canonical form ---

  predicate IsDigit(c: char) {
    '0' <= c <= '9'
  }

  predicate StartsWithDigit(s: string) {
    s != [] && IsDigit(s[0])
  }

  function DigitRun(s: string): (n: nat)
    ensures n <= |s|
    ensures forall i :: 0 <= i < n ==> IsDigit(s[i])
    ensures n < |s| ==> !IsDigit(s[n])
  {
    if StartsWithDigit(s) then 1 + DigitRun(s[1..]) else 0
  }

  function NatValue(digits: string): nat
    requires forall c :: c in digits ==> IsDigit(c)
  {
    if digits == [] then 0
    else
      var last := digits[|digits| - 1];
      assert IsDigit(last);
      var units: int := last as int - '0' as int;
      NatValue(digits[..|digits| - 1]) * 10 + units
  }

  function HexValue(c: char): Option<int> {
    if IsDigit(c) then Some(c as int - '0' as int)
    else if 'a' <= c <= 'f' then Some(c as int - 'a' as int + 10)
    else None
  }

  /** The character an escape sequence (after its backslash) denotes, and the text after it. */
  function ParseEscape(s: string): (r: Option<(char, string)>)
    ensures r.Some? ==> |r.value.1| < |s|
  {
    if s == [] then None
    else if s[0] == '\"' || s[0] == '\\' then Some((s[0], s[1..]))
    else if s[0] == 'n' then Some(('\n', s[1..]))
    else if s[0] == 'r' then Some(('\r', s[1..]))
    else if s[0] == 't' then Some(('\t', s[1..]))
    else if s[0] == 'f' then Some((12 as char, s[1..]))
    else if s[0] == 'b' then Some((8 as char, s[1..]))
    else if |s| >= 5 && s[..3] == "u00" && HexValue(s[3]).Some? && HexValue(s[4]).Some? then
      Some(((HexValue(s[3]).value * 16 + HexValue(s[4]).value) as char, s[5..]))
    else None
  }

  /** The characters up to the closing quote, and the text after it. */
  function ParseChars(s: string): (r: Option<(string, string)>)
    ensures r.Some? ==> |r.value.1| < |s|
    decreases |s|
  {
    if s == [] then None
    else if s[0] == '\"' then Some(([], s[1..]))
    else if s[0] == '\\' then
      match ParseEscape(s[1..])
      case None => None
      case Some((c, after)) => Prepend(c, ParseChars(after))
    else Prepend(s[0], ParseChars(s[1..]))
  }

  function Prepend(c: char, r: Option<(string, string)>): Option<(string, string)> {
    match r
    case None => None
    case Some((text, rest)) => Some(([c] + text, rest))
  }

  function ParseLiteral(s: string): (r: Option<(Json, string)>)
    ensures r.Some? ==> |r.value.1| < |s|
  {
    if "null" <= s then Some((JNull, s[4..]))
    else if "true" <= s then Some((JBool(true), s[4..]))
    else if "false" <= s then Some((JBool(false), s[5..]))
    else None
  }

  function ParseNat(s: string): (r: Option<(nat, string)>)
    ensures r.Some? ==> |r.value.1| < |s|
  {
    var run := DigitRun(s);
    if run > 0 then Some((NatValue(s[..run]), s[run..])) else None
  }

  /** An integer or a literal name. */
  function ParseScalar(s: string): (r: Option<(Json, string)>)
    ensures r.Some? ==> |r.value.1| < |s|
  {
    var negative := s != [] && s[0] == '-';
    match ParseNat(if negative then s[1..] else s)
    case Some((n, rest)) => Some((JInt(if negative then 0 - n else n), rest))
    case None => ParseLiteral(s)
  }

  function ParseValue(s: string): (r: Option<(Json, string)>)
    ensures r.Some? ==> |r.value.1| < |s|
    decreases |s|, 2
  {
    if s == [] then None
    else if s[0] == '\"' then
      match ParseChars(s[1..])
      case None => None
      case Some((text, rest)) => Some((JStr(text), rest))
    else if s[0] == '[' then
      if s[1..] != [] && s[1] == ']' then Some((JList([]), s[2..]))
      else
        match ParseItems(s[1..])
        case None => None
        case Some((items, rest)) => Some((JList(items), rest))
    else if s[0] == '{' then
      if s[1..] != [] && s[1] == '}' then Some((JObject(map[]), s[2..]))
      else
        match ParseMembers(s[1..])
        case None => None
        case Some((members, rest)) => Some((JObject(members), rest))
    else ParseScalar(s)
  }

  /** Items after `[`, up to and with the closing bracket. */
  function ParseItems(s: string): (r: Option<(seq<Json>, string)>)
    ensures r.Some? ==> |r.value.1| < |s|
    decreases |s|, 3
  {
    match ParseValue(s)
    case None => None
    case Some((item, rest)) =>
      if rest != [] && rest[0] == ']' then Some(([item], rest[1..]))
      else if rest != [] && rest[0] == ',' then
        match ParseItems(rest[1..])
        case None => None
        case Some((items, after)) => Some(([item] + items, after))
      else None
  }

  /** Members after `{`, up to and with the closing brace. */
  function ParseMembers(s: string): (r: Option<(map<string, Json>, string)>)
    ensures r.Some? ==> |r.value.1| < |s|
    decreases |s|, 3
  {
    if s == [] || s[0] != '\"' then None
    else
      match ParseChars(s[1..])
      case None => None
      case Some((key, colon)) =>
        if colon == [] || colon[0] != ':' then None
        else
          match ParseValue(colon[1..])
          case None => None
          case Some((item, rest)) =>
            if rest != [] && rest[0] == '}' then Some((map[key := item], rest[1..]))
            else if rest != [] && rest[0] == ',' then
              match ParseMembers(rest[1..])
              case None => None
              case Some((members, after)) => Some((members[key := item], after))
            else None
  }

  function Parse(s: string): Option<Json> {
    match ParseValue(s)
    case None => None
    case Some((j, rest)) => if rest == [] then Some(j) else None
  }

  // --- The parser undoes the printer ---

  lemma {:induction false} NatTextDigits(n: nat)
    ensures NatText(n) != []
    ensures forall c :: c in NatText(n) ==> IsDigit(c)
    ensures NatValue(NatText(n)) == n
  {
    if n >= 10 {
      NatTextDigits(n / 10);
      var text := NatText(n);
      assert text[..|text| - 1] == NatText(n / 10);
    } else {
      var text := NatText(n);
      assert text[..|text| - 1] == [];
      assert NatValue(text[..|text| - 1]) == 0;
    }
  }

  lemma {:induction false} DigitRunOf(digits: string, rest: string)
    requires forall c :: c in digits ==> IsDigit(c)
    requires !StartsWithDigit(rest)
    ensures DigitRun(digits + rest) == |digits|
  {
    if digits == [] {
      assert digits + rest == rest;
    } else {
      assert (digits + rest)[1..] == digits[1..] + rest;
      DigitRunOf(digits[1..], rest);
    }
  }

  lemma NatRoundTrip(n: nat, rest: string)
    requires !StartsWithDigit(rest)
    ensures ParseNat(NatText(n) + rest) == Some((n, rest)) && IsDigit((NatText(n) + rest)[0])
  {
    var digits := NatText(n);
    NatTextDigits(n);
    DigitRunOf(digits, rest);
    assert digits[0] in digits;
    assert (digits + rest)[..|digits|] == digits;
    assert (digits + rest)[|digits|..] == rest;
  }

  lemma IntRoundTrip(n: int, rest: string)
    requires !StartsWithDigit(rest)
    ensures ParseScalar(IntText(n) + rest) == Some((JInt(n), rest))
  {
    if n < 0 {
      NatRoundTrip(-n, rest);
      assert ("-" + NatText(-n) + rest)[1..] == NatText(-n) + rest;
    } else {
      NatRoundTrip(n, rest);
    }
  }

  lemma LiteralRoundTrip(j: Json, rest: string)
    requires j.JNull? || j.JBool?
    ensures ParseScalar(Dump(j) + rest) == Some((j, rest))
  {
    var s := Dump(j) + rest;
    assert s[|Dump(j)|..] == rest && Dump(j) <= s;
    assert s[0] == Dump(j)[0];
    assert DigitRun(s) == 0;
  }

  lemma CharRoundTrip(c: char, rest: string, tail: Option<(string, string)>)
    requires ParseChars(rest) == tail
    ensures ParseChars(EscapeChar(c) + rest) == Prepend(c, tail)
  {
    var s := EscapeChar(c) + rest;
    if EscapeChar(c) == [c] {
      assert s[1..] == rest;
    } else if |EscapeChar(c)| == 2 {
      assert s[1..] == [EscapeChar(c)[1]] + rest;
      assert s[1..][1..] == rest;
    } else {
      var high, low := Digit(c as int / 16), Digit(c as int % 16);
      assert s[1..] == "u00" + [high, low] + rest;
      assert s[1..][..3] == "u00";
      assert s[1..][5..] == rest;
      assert HexValue(high) == Some(c as int / 16);
      assert HexValue(low) == Some(c as int % 16);
    }
  }

  lemma {:induction false} StringRoundTrip(text: string, rest: string)
    ensures ParseChars(Escape(text) + "\"" + rest) == Some((text, rest))
  {
    if text == [] {
      assert Escape(text) + "\"" + rest == "\"" + rest;
    } else {
      var after := Escape(text[1..]) + "\"" + rest;
      StringRoundTrip(text[1..], rest);
      CharRoundTrip(text[0], after, Some((text[1..], rest)));
      assert Escape(text) + "\"" + rest == EscapeChar(text[0]) + after;
      assert [text[0]] + text[1..] == text;
    }
  }

  lemma {:induction false} ValueRoundTrip(j: Json, rest: string)
    requires !StartsWithDigit(rest)
    ensures ParseValue(Dump(j) + rest) == Some((j, rest))
    decreases j, 1
  {
    match j
    case JStr(text) =>
      StringRoundTrip(text, rest);
      StringValue(Escape(text), text, rest);
    case JList(items) =>
      if items != [] {
        ItemsRoundTrip(items, rest);
        ItemsStart(items);
      }
      ListValue(DumpItems(items), items, rest);
    case JObject(members) =>
      var keys := SortedOf(members.Keys);
      if keys != [] {
        MembersRoundTrip(j, keys, rest);
      }
      MembersStart(j, keys);
      assert Picked(j, keys) == members;
      ObjectValue(DumpMembers(j, keys), members, rest);
    case JInt(n) =>
      IntRoundTrip(n, rest);
      DumpStart(j);
      ScalarValue(Dump(j), rest);
    case _ =>
      LiteralRoundTrip(j, rest);
      DumpStart(j);
      ScalarValue(Dump(j), rest);
  }

  lemma StringValue(name: string, text: string, rest: string)
    requires ParseChars(name + "\"" + rest) == Some((text, rest))
    ensures ParseValue("\"" + name + "\"" + rest) == Some((JStr(text), rest))
  {
    assert ("\"" + name + "\"" + rest)[1..] == name + "\"" + rest;
  }

  lemma ScalarValue(text: string, rest: string)
    requires text != [] && text[0] !in {'\"', '[', '{'}
    ensures ParseValue(text + rest) == ParseScalar(text + rest)
  {
    assert (text + rest)[0] == text[0];
  }

  /** The first character of a printed value: never a closing bracket, and a scalar's is its own. */
  lemma DumpStart(j: Json)
    ensures Dump(j) != [] && Dump(j)[0] != ']'
    ensures j.JNull? || j.JBool? || j.JInt? ==> Dump(j)[0] !in {'\"', '[', '{'}
  {
    if j.JInt? {
      var digits := NatText(if j.number < 0 then -j.number else j.number);
      NatTextDigits(if j.number < 0 then -j.number else j.number);
      assert digits[0] in digits;
    }
  }

  lemma ItemsStart(items: seq<Json>)
    requires items != []
    ensures DumpItems(items) != [] && DumpItems(items)[0] != ']'
  {
    DumpStart(items[0]);
  }

  lemma ListValue(body: string, items: seq<Json>, rest: string)
    requires body == [] ==> items == []
    requires body != [] ==> body[0] != ']' && ParseItems(body + "]" + rest) == Some((items, rest))
    ensures ParseValue("[" + body + "]" + rest) == Some((JList(items), rest))
  {
    var s := "[" + body + "]" + rest;
    assert s[1..] == body + "]" + rest;
    if body == [] {
      assert s[2..] == rest;
    } else {
      assert s[1] == body[0];
    }
  }

  lemma ObjectValue(body: string, members: map<string, Json>, rest: string)
    requires body == [] ==> members == map[]
    requires body != [] ==> body[0] == '\"' && ParseMembers(body + ("}" + rest)) == Some((members, rest))
    ensures ParseValue("{" + body + "}" + rest) == Some((JObject(members), rest))
  {
    var s := "{" + body + "}" + rest;
    assert s[1..] == body + ("}" + rest);
    if body == [] {
      assert s[2..] == rest;
    } else {
      assert s[1] == body[0];
    }
  }

  lemma MembersStart(j: Json, keys: seq<string>)
    requires j.JObject? && forall k :: k in keys ==> k in j.members
    ensures if keys == [] then DumpMembers(j, keys) == [] else DumpMembers(j, keys) != [] && DumpMembers(j, keys)[0] == '\"'
  {
  }

  lemma {:induction false} ItemsRoundTrip(items: seq<Json>, rest: string)
    requires items != []
    ensures ParseItems(DumpItems(items) + "]" + rest) == Some((items, rest))
    decreases items, 0
  {
    var s, first := DumpItems(items) + "]" + rest, Dump(items[0]);
    if |items| == 1 {
      assert s == first + ("]" + rest) by { assert DumpItems(items) == first + ""; }
      ValueRoundTrip(items[0], "]" + rest);
      ItemsLast(s, items[0], rest);
      assert items == [items[0]];
    } else {
      var more := DumpItems(items[1..]) + "]" + rest;
      assert s == first + ("," + more) by { assert DumpItems(items) == first + ("," + DumpItems(items[1..])); }
      ValueRoundTrip(items[0], "," + more);
      ItemsRoundTrip(items[1..], rest);
      ItemsMore(s, items[0], more, items[1..], rest);
      assert items == [items[0]] + items[1..];
    }
  }

  lemma ItemsLast(s: string, item: Json, rest: string)
    requires ParseValue(s) == Some((item, "]" + rest))
    ensures ParseItems(s) == Some(([item], rest))
  {
    assert ("]" + rest)[1..] == rest;
  }

  lemma ItemsMore(s: string, item: Json, more: string, items: seq<Json>, rest: string)
    requires ParseValue(s) == Some((item, "," + more)) && ParseItems(more) == Some((items, rest))
    ensures ParseItems(s) == Some(([item] + items, rest))
  {
    assert ("," + more)[1..] == more;
  }

  lemma {:induction false} MembersRoundTrip(j: Json, keys: seq<string>, rest: string)
    requires j.JObject? && keys != [] && forall k :: k in keys ==> k in j.members
    ensures ParseMembers(DumpMembers(j, keys) + ("}" + rest)) == Some((Picked(j, keys), rest))
    decreases j, 0, |keys|
  {
    var item := j.members[keys[0]];
    MembersText(j, keys, "}" + rest);
    PickedStep(j, keys);
    if |keys| == 1 {
      ValueRoundTrip(item, "}" + rest);
      MembersHead(keys[0], item, "}" + rest);
      assert ("}" + rest)[1..] == rest;
    } else {
      var more := DumpMembers(j, keys[1..]) + ("}" + rest);
      ValueRoundTrip(item, "," + more);
      MembersRoundTrip(j, keys[1..], rest);
      MembersHead(keys[0], item, "," + more);
      assert ("," + more)[1..] == more;
    }
  }

  ghost function Picked(j: Json, keys: seq<string>): map<string, Json>
    requires j.JObject? && forall k :: k in keys ==> k in j.members
  {
    map k | k in keys :: j.members[k]
  }

  lemma PickedStep(j: Json, keys: seq<string>)
    requires j.JObject? && keys != [] && forall k :: k in keys ==> k in j.members
    ensures Picked(j, keys) == Picked(j, keys[1..])[keys[0] := j.members[keys[0]]]
    ensures |keys| == 1 ==> Picked(j, keys) == map[keys[0] := j.members[keys[0]]]
  {
  }

  /** How the printed members start with the first one. */
  lemma MembersText(j: Json, keys: seq<string>, rest: string)
    requires j.JObject? && keys != [] && forall k :: k in keys ==> k in j.members
    ensures DumpMembers(j, keys) + rest ==
      Head(Escape(keys[0]), Dump(j.members[keys[0]]))
      + if |keys| == 1 then rest else "," + (DumpMembers(j, keys[1..]) + rest)
  {
    var head := Quote(keys[0]) + ":" + Dump(j.members[keys[0]]);
    var tail := if |keys| == 1 then "" else "," + DumpMembers(j, keys[1..]);
    assert DumpMembers(j, keys) == head + tail;
  }

  /** Reading one printed member, whose value is followed by `after`. */
  lemma MembersHead(key: string, item: Json, after: string)
    requires after != [] && ParseValue(Dump(item) + after) == Some((item, after))
    ensures var s := Head(Escape(key), Dump(item)) + after;
      && (after[0] == '}' ==> ParseMembers(s) == Some((map[key := item], after[1..])))
      && (after[0] == ',' && ParseMembers(after[1..]).Some? ==>
          ParseMembers(s) == Some((ParseMembers(after[1..]).value.0[key := item], ParseMembers(after[1..]).value.1)))
  {
    var name, first := Escape(key), Dump(item);
    StringRoundTrip(key, ":" + first + after);
    HeadSplit(name, first, after);
    MembersStep(Head(name, first) + after, key, ":" + first + after, item, after);
  }

  /** The text of one member up to what follows its value. */
  function Head(name: string, value: string): string {
    "\"" + name + "\"" + ":" + value
  }

  lemma HeadSplit(name: string, value: string, after: string)
    ensures var s := Head(name, value) + after;
      && s != [] && s[0] == '\"' && s[1..] == name + "\"" + (":" + value + after)
    ensures (":" + value + after)[1..] == value + after
  {
  }

  /** What `ParseMembers` does after the key and the value of one member were read. */
  lemma MembersStep(s: string, key: string, colon: string, item: Json, after: string)
    requires s != [] && s[0] == '\"' && ParseChars(s[1..]) == Some((key, colon))
    requires colon != [] && colon[0] == ':' && ParseValue(colon[1..]) == Some((item, after)) && after != []
    ensures after[0] == '}' ==> ParseMembers(s) == Some((map[key := item], after[1..]))
    ensures after[0] == ',' && ParseMembers(after[1..]).Some? ==>
      ParseMembers(s) == Some((ParseMembers(after[1..]).value.0[key := item], ParseMembers(after[1..]).value.1))
  {
  }

  /** Reading back a printed tree gives the tree. */
  lemma DumpRoundTrip(j: Json)
    ensures Parse(Dump(j)) == Some(j)
  {
    ValueRoundTrip(j, []);
    assert Dump(j) + [] == Dump(j);
  }
}
