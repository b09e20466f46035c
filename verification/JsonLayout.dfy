/**
 What the printed JSON looks like: the escape of each character, decimal numbers without leading
 zeros, compact separators, and the members of an object in the order of their keys.
 */
module JsonLayout {
  import opened StringOrder
  import opened JsonText
  import Text

  // --- Characters and numbers ---

  /** The two-character escapes of section 7 of RFC 8259, without the optional one for "/". */
  const SHORT_ESCAPES: seq<(int, char)> := [(8, 'b'), (9, 't'), (10, 'n'), (12, 'f'), (13, 'r'), (34, '\"'), (92, '\\')]

  predicate HasShortEscape(c: char) {
    exists i :: 0 <= i < |SHORT_ESCAPES| && SHORT_ESCAPES[i].0 == c as int
  }

  lemma ShortEscapes()
    ensures forall i :: 0 <= i < |SHORT_ESCAPES| ==> EscapeChar(SHORT_ESCAPES[i].0 as char) == ['\\', SHORT_ESCAPES[i].1]
  {
  }

  predicate IsHex(c: char, value: int) {
    if value < 10 then c as int == 48 + value else c as int == 97 + value - 10
  }

  /** Every other control character becomes its four hex digits, every other character stays as it is. */
  lemma EscapeExactly(c: char)
    requires !HasShortEscape(c)
    ensures c as int >= 32 ==> EscapeChar(c) == [c]
    ensures c as int < 32 ==>
      var e := EscapeChar(c);
      |e| == 6 && e[..4] == "\\u00" && IsHex(e[4], c as int / 16) && IsHex(e[5], c as int % 16)
  {
    assert SHORT_ESCAPES[0].0 == 8 && SHORT_ESCAPES[1].0 == 9 && SHORT_ESCAPES[2].0 == 10 && SHORT_ESCAPES[3].0 == 12
        && SHORT_ESCAPES[4].0 == 13 && SHORT_ESCAPES[5].0 == 34 && SHORT_ESCAPES[6].0 == 92;
  }

  /** A number has no leading zero, and only its sign before the digits. */
  lemma {:induction false} NoLeadingZero(n: nat)
    ensures |NatText(n)| >= 1 && (NatText(n)[0] == '0' ==> n == 0 && NatText(n) == "0")
  {
    if n >= 10 {
      NoLeadingZero(n / 10);
    }
  }

  lemma NumbersExactly(n: int)
    ensures Dump(JInt(n)) == if n < 0 then "-" + NatText(-n) else NatText(n)
  {
  }

  // --- Objects ---

  /** The text of one member. */
  function MemberText(j: Json, k: string): string
    requires j.JObject? && k in j.members
  {
    "\"" + Escape(k) + "\":" + Dump(j.members[k])
  }

  function MemberTexts(j: Json, keys: seq<string>): (ts: seq<string>)
    requires j.JObject? && forall k :: k in keys ==> k in j.members
    ensures |ts| == |keys| && forall i :: 0 <= i < |keys| ==> ts[i] == MemberText(j, keys[i])
  {
    seq(|keys|, i requires 0 <= i < |keys| => MemberText(j, keys[i]))
  }

  lemma {:induction false} MembersJoined(j: Json, keys: seq<string>)
    requires j.JObject? && forall k :: k in keys ==> k in j.members
    ensures DumpMembers(j, keys) == Text.Join(MemberTexts(j, keys), ",")
  {
    if keys != [] {
      MembersJoined(j, keys[1..]);
      var ts := MemberTexts(j, keys);
      assert ts[1..] == MemberTexts(j, keys[1..]);
      assert Quote(keys[0]) + ":" == "\"" + Escape(keys[0]) + "\":";
    }
  }

  /** In code-point order, each key of the object once. */
  ghost predicate KeysInOrder(j: Json, keys: seq<string>) {
    && j.JObject? && (forall k :: k in keys <==> k in j.members)
    && forall i, l :: 0 <= i < l < |keys| ==> Precedes(keys[i], keys[l])
  }

  /** An object is printed as its members in code-point order of their keys, joined by commas. */
  lemma ObjectLayout(j: Json) returns (keys: seq<string>)
    requires j.JObject?
    ensures KeysInOrder(j, keys) && Dump(j) == "{" + Text.Join(MemberTexts(j, keys), ",") + "}"
  {
    keys := SortedOf(j.members.Keys);
    MembersJoined(j, keys);
    forall i, l | 0 <= i < l < |keys| ensures Precedes(keys[i], keys[l]) {
      LessExactly(keys[i], keys[l]);
    }
  }

  lemma OrderedKeysSorted(j: Json, keys: seq<string>)
    requires KeysInOrder(j, keys)
    ensures Sorted(keys)
  {
    forall i, l | 0 <= i < l < |keys| ensures Less(keys[i], keys[l]) {
      LessExactly(keys[i], keys[l]);
    }
  }

  /** And there is only one such order. */
  lemma LayoutUnique(j: Json, keys: seq<string>)
    requires KeysInOrder(j, keys)
    ensures Dump(j) == "{" + Text.Join(MemberTexts(j, keys), ",") + "}"
  {
    var sorted := ObjectLayout(j);
    OrderedKeysSorted(j, keys);
    OrderedKeysSorted(j, sorted);
    SortedUnique(keys, sorted);
  }

  lemma {:induction false} JoinAround(ts: seq<string>, i: nat, l: nat) returns (before: string, between: string, after: string)
    requires i < l < |ts|
    ensures Text.Join(ts, ",") == before + ts[i] + between + ts[l] + after
  {
    if i > 0 {
      before, between, after := JoinAround(ts[1..], i - 1, l - 1);
      before := ts[0] + "," + before;
    } else {
      var x, y := JoinAt(ts[1..], l - 1);
      before, between, after := "", "," + x, y;
      assert ts[0] + "," + (x + ts[l] + y) == "" + ts[0] + ("," + x) + ts[l] + y;
    }
  }

  lemma {:induction false} JoinAt(ts: seq<string>, i: nat) returns (before: string, after: string)
    requires i < |ts|
    ensures Text.Join(ts, ",") == before + ts[i] + after
  {
    if i > 0 {
      before, after := JoinAt(ts[1..], i - 1);
      before := ts[0] + "," + before;
    } else {
      before, after := "", Text.Join(ts, ",")[|ts[0]|..];
      assert Text.Join(ts, ",")[..|ts[0]|] == ts[0];
    }
  }

  lemma PositionsFollow(j: Json, keys: seq<string>, x: nat, y: nat)
    requires KeysInOrder(j, keys) && x < |keys| && y < |keys| && Precedes(keys[x], keys[y])
    ensures x < y
  {
    LessExactly(keys[x], keys[y]);
    LessTotal(keys[x], keys[y]);
    if y < x {
      LessExactly(keys[y], keys[x]);
    }
  }

  /** The member of a key that precedes another is printed first. */
  lemma MemberFirst(j: Json, k: string, l: string) returns (before: string, between: string, after: string)
    requires j.JObject? && k in j.members && l in j.members && Precedes(k, l)
    ensures Dump(j) == before + MemberText(j, k) + between + MemberText(j, l) + after
  {
    var keys := ObjectLayout(j);
    var x :| 0 <= x < |keys| && keys[x] == k;
    var y :| 0 <= y < |keys| && keys[y] == l;
    PositionsFollow(j, keys, x, y);
    var head, mid, tail := JoinAround(MemberTexts(j, keys), x, y);
    before, between, after := "{" + head, mid, tail + "}";
    Enclosed(head, MemberText(j, k), mid, MemberText(j, l), tail);
  }

  lemma Enclosed(head: string, a: string, mid: string, b: string, tail: string)
    ensures "{" + (head + a + mid + b + tail) + "}" == ("{" + head) + a + mid + b + (tail + "}")
  {
  }

  // --- Lists and constants ---

  function ItemTexts(items: seq<Json>): (ts: seq<string>)
    ensures |ts| == |items| && forall i :: 0 <= i < |items| ==> ts[i] == Dump(items[i])
  {
    seq(|items|, i requires 0 <= i < |items| => Dump(items[i]))
  }

  lemma {:induction false} ItemsJoined(items: seq<Json>)
    ensures DumpItems(items) == Text.Join(ItemTexts(items), ",")
  {
    if items != [] {
      ItemsJoined(items[1..]);
      assert ItemTexts(items)[1..] == ItemTexts(items[1..]);
    }
  }

  /** A list is printed as its items in order, joined by commas. */
  lemma ListLayout(items: seq<Json>)
    ensures Dump(JList(items)) == "[" + Text.Join(ItemTexts(items), ",") + "]"
  {
    ItemsJoined(items);
  }

  lemma JoinTwo(s: string, t: string)
    ensures Text.Join([s, t], ",") == s + "," + t
  {
    assert [s, t][1..] == [t];
  }

  lemma TwoKeys(j: Json, k: string, l: string)
    requires j.JObject? && (forall x :: x in j.members <==> x == k || x == l) && Precedes(k, l)
    ensures KeysInOrder(j, [k, l])
  {
  }

  /** An object of two members, however its mapping was written. */
  lemma TwoMembers(j: Json, k: string, l: string)
    requires j.JObject? && (forall x :: x in j.members <==> x == k || x == l) && Precedes(k, l)
    ensures Dump(j) == "{" + (MemberText(j, k) + "," + MemberText(j, l)) + "}"
  {
    TwoKeys(j, k, l);
    LayoutUnique(j, [k, l]);
    JoinTwo(MemberText(j, k), MemberText(j, l));
    assert MemberTexts(j, [k, l]) == [MemberText(j, k), MemberText(j, l)];
  }

  lemma PlainMember(j: Json, k: string, text: string)
    requires j.JObject? && k in j.members && Escape(k) == k && Dump(j.members[k]) == text
    ensures MemberText(j, k) == "\"" + k + "\":" + text
  {
  }

  lemma PlainLetter(c: char)
    requires 'a' <= c <= 'z'
    ensures Escape([c]) == [c]
  {
    assert [c][1..] == [];
  }

  lemma Constants()
    ensures Dump(JNull) == "null" && Dump(JBool(true)) == "true" && Dump(JBool(false)) == "false"
  {
  }

  lemma LettersInOrder()
    ensures Precedes("a", "b") && Escape("a") == "a" && Escape("b") == "b"
  {
    assert "a"[..0] == "b"[..0] && "a"[0] as int < "b"[0] as int;
    PlainLetter('a');
    PlainLetter('b');
  }

  /** The object of the members "b": null and "a": true. */
  lemma LayoutExample(j: Json)
    requires j.JObject? && (forall x :: x in j.members <==> x == "a" || x == "b")
    requires j.members["a"] == JBool(true) && j.members["b"] == JNull
    ensures Dump(j) == "{" + (("\"" + "a" + "\":" + "true") + "," + ("\"" + "b" + "\":" + "null")) + "}"
  {
    LettersInOrder();
    TwoMembers(j, "a", "b");
    Constants();
    PlainMember(j, "a", "true");
    PlainMember(j, "b", "null");
  }
}
