/**
 Canonical JSON of agent_core/build_harness/canonical.py, for float-free values.

 `Canonical` is the tree `_canonicalize` must produce, stated without a loop; `Canonicalize` is
 the recursion whose loop fills a result dictionary. Unicode NFC is the parameter `nfc`.
 */
module CanonicalJson {
  import opened Wrappers
  import opened JsonText
  import opened StringOrder
  import Utf8

  /** A Python value given to the canonicaliser. A list and a tuple are the same `List`;
      `Unsupported` stands for every value of another type. */
  datatype Value =
    | Null
    | Bool(flag: bool)
    | Int(number: int)
    | Str(text: string)
    | EnumMember(text: string)
    | List(items: seq<Value>)
    | Dict(entries: seq<Entry>)
    | Unsupported

  datatype Entry = Entry(key: string, value: Value) | NonStringKey(value: Value)

  type Normalizer = string -> string

  /** Every key is a string and no two keys have the same NFC form. */
  predicate KeysDistinct(nfc: Normalizer, entries: seq<Entry>) {
    && (forall i :: 0 <= i < |entries| ==> entries[i].Entry?)
    && (forall i, j :: 0 <= i < j < |entries| ==> nfc(entries[i].key) != nfc(entries[j].key))
  }

  function Canonical(nfc: Normalizer, v: Value): Option<Json>
    decreases v, 1
  {
    match v
    case Null => Some(JNull)
    case Bool(b) => Some(JBool(b))
    case Int(n) => Some(JInt(n))
    case Str(s) => Some(JStr(nfc(s)))
    case EnumMember(s) => Some(JStr(nfc(s)))
    case List(items) =>
      if AllCanonical(nfc, items) then Some(JList(CanonicalItems(nfc, items))) else None
    case Dict(entries) =>
      if EntriesCanonical(nfc, entries) then Some(JObject(CanonicalMembers(nfc, entries))) else None
    case Unsupported => None
  }

  predicate AllCanonical(nfc: Normalizer, items: seq<Value>)
    decreases items, 0
  {
    forall i :: 0 <= i < |items| ==> Canonical(nfc, items[i]).Some?
  }

  function CanonicalItems(nfc: Normalizer, items: seq<Value>): (js: seq<Json>)
    requires AllCanonical(nfc, items)
    ensures |js| == |items|
    decreases items, 1
  {
    seq(|items|, i requires 0 <= i < |items| => Canonical(nfc, items[i]).value)
  }

  predicate EntriesCanonical(nfc: Normalizer, entries: seq<Entry>)
    decreases entries, 0
  {
    KeysDistinct(nfc, entries) && forall i :: 0 <= i < |entries| ==> Canonical(nfc, entries[i].value).Some?
  }

  function CanonicalMembers(nfc: Normalizer, entries: seq<Entry>): map<string, Json>
    requires EntriesCanonical(nfc, entries)
    decreases entries, 1
  {
    map i | 0 <= i < |entries| :: nfc(entries[i].key) := Canonical(nfc, entries[i].value).value
  }

  /** The recursive canonicaliser. */
  method Canonicalize(nfc: Normalizer, v: Value) returns (r: Option<Json>)
    ensures r == Canonical(nfc, v)
    decreases v, 1
  {
    match v
    case Null => r := Some(JNull);
    case Bool(b) => r := Some(JBool(b));
    case Int(n) => r := Some(JInt(n));
    case Str(s) => r := Some(JStr(nfc(s)));
    case EnumMember(s) => r := Some(JStr(nfc(s)));
    case Unsupported => r := None;
    case List(items) =>
      var js := CanonicalizeItems(nfc, items);
      r := if js.None? then None else Some(JList(js.value));
    case Dict(entries) =>
      var result := CanonicalizeEntries(nfc, entries);
      r := if result.None? then None else Some(JObject(result.value));
  }

  method CanonicalizeItems(nfc: Normalizer, items: seq<Value>) returns (r: Option<seq<Json>>)
    ensures r == if AllCanonical(nfc, items) then Some(CanonicalItems(nfc, items)) else None
    decreases items, 0
  {
    var js: seq<Json> := [];
    for i := 0 to |items|
      invariant |js| == i
      invariant forall k :: 0 <= k < i ==> Canonical(nfc, items[k]) == Some(js[k])
    {
      var item := Canonicalize(nfc, items[i]);
      if item.None? {
        return None;
      }
      js := js + [item.value];
    }
    assert AllCanonical(nfc, items) && CanonicalItems(nfc, items) == js;
    r := Some(js);
  }

  /** `result` holds exactly the first `n` entries, each under its normalised key. */
  ghost predicate Filled(nfc: Normalizer, entries: seq<Entry>, n: nat, result: map<string, Json>)
    requires n <= |entries|
  {
    && KeysDistinct(nfc, entries[..n])
    && (forall k :: 0 <= k < n ==> nfc(entries[k].key) in result)
    && (forall k :: 0 <= k < n ==> Canonical(nfc, entries[k].value) == Some(result[nfc(entries[k].key)]))
    && (forall name :: name in result ==> exists k :: 0 <= k < n && nfc(entries[k].key) == name)
  }

  lemma FilledStep(nfc: Normalizer, entries: seq<Entry>, n: nat, result: map<string, Json>, item: Json)
    requires n < |entries| && Filled(nfc, entries, n, result)
    requires entries[n].Entry? && nfc(entries[n].key) !in result
    requires Canonical(nfc, entries[n].value) == Some(item)
    ensures Filled(nfc, entries, n + 1, result[nfc(entries[n].key) := item])
  {
    var grown := result[nfc(entries[n].key) := item];
    forall name | name in grown ensures exists k :: 0 <= k < n + 1 && nfc(entries[k].key) == name {
      if name in result {
        var k :| 0 <= k < n && nfc(entries[k].key) == name;
      } else {
        assert nfc(entries[n].key) == name;
      }
    }
  }

  lemma FilledAll(nfc: Normalizer, entries: seq<Entry>, result: map<string, Json>)
    requires Filled(nfc, entries, |entries|, result)
    ensures EntriesCanonical(nfc, entries) && CanonicalMembers(nfc, entries) == result
  {
    assert entries[..|entries|] == entries;
  }

  /** The loop that fills `result`, checking each normalised key before it is assigned. */
  method CanonicalizeEntries(nfc: Normalizer, entries: seq<Entry>) returns (r: Option<map<string, Json>>)
    ensures r == if EntriesCanonical(nfc, entries) then Some(CanonicalMembers(nfc, entries)) else None
    decreases entries, 0
  {
    var result: map<string, Json> := map[];
    for i := 0 to |entries|
      invariant Filled(nfc, entries, i, result)
    {
      if entries[i].NonStringKey? {
        return None;
      }
      var key := nfc(entries[i].key);
      if key in result {
        return None;
      }
      var item := Canonicalize(nfc, entries[i].value);
      if item.None? {
        return None;
      }
      FilledStep(nfc, entries, i, result, item.value);
      result := result[key := item.value];
    }
    FilledAll(nfc, entries, result);
    r := Some(result);
  }

  // --- The encoding ---

  /** `canonical_json_bytes`: nothing when the value is refused. */
  function Encode(nfc: Normalizer, v: Value): Option<seq<Utf8.Byte>> {
    match Canonical(nfc, v)
    case None => None
    case Some(j) => Some(Utf8.Encode(Dump(j)))
  }

  lemma ObjectAccepted(nfc: Normalizer, entries: seq<Entry>)
    requires EntriesCanonical(nfc, entries)
    ensures Canonical(nfc, Dict(entries)) == Some(JObject(CanonicalMembers(nfc, entries)))
    ensures Encode(nfc, Dict(entries)).Some?
  {
  }

  function Decode(bytes: seq<Utf8.Byte>): Option<Json> {
    match Utf8.Decode(bytes)
    case None => None
    case Some(text) => Parse(text)
  }

  /** The bytes determine the canonical tree. */
  lemma EncodeRoundTrip(nfc: Normalizer, v: Value)
    requires Encode(nfc, v).Some?
    ensures Decode(Encode(nfc, v).value) == Canonical(nfc, v)
  {
    var j := Canonical(nfc, v).value;
    Utf8.RoundTrip(Dump(j));
    DumpRoundTrip(j);
  }

  /** Two accepted values have the same bytes exactly when they have the same canonical tree. */
  lemma EncodeInjective(nfc: Normalizer, v: Value, w: Value)
    requires Encode(nfc, v).Some? && Encode(nfc, w).Some?
    ensures Encode(nfc, v) == Encode(nfc, w) <==> Canonical(nfc, v) == Canonical(nfc, w)
  {
    EncodeRoundTrip(nfc, v);
    EncodeRoundTrip(nfc, w);
  }

  // --- Key order does not matter ---

  /** Equal up to the insertion order of dictionaries, at every depth. */
  ghost predicate Reordered(v: Value, w: Value)
    decreases v, 2
  {
    match v
    case List(items) =>
      w.List? && |items| == |w.items| && forall i :: 0 <= i < |items| ==> Reordered(items[i], w.items[i])
    case Dict(entries) =>
      && w.Dict?
      && (forall e {:trigger HasSame(v, e, w.entries)} :: e in entries ==> HasSame(v, e, w.entries))
      && (forall f {:trigger IsSame(v, f)} :: f in w.entries ==> IsSame(v, f))
    case _ => v == w
  }

  ghost predicate HasSame(v: Value, e: Entry, others: seq<Entry>)
    requires v.Dict? && e in v.entries
    decreases v, 1
  {
    exists f :: f in others && SameEntry(v, e, f)
  }

  ghost predicate IsSame(v: Value, f: Entry)
    requires v.Dict?
    decreases v, 1
  {
    exists e :: e in v.entries && SameEntry(v, e, f)
  }

  ghost predicate SameEntry(v: Value, e: Entry, f: Entry)
    requires v.Dict? && e in v.entries
    decreases v, 0
  {
    e.Entry? && f.Entry? && e.key == f.key && Reordered(e.value, f.value)
  }

  ghost predicate RawKeysDistinct(entries: seq<Entry>) {
    forall i, j :: 0 <= i < j < |entries| && entries[i].Entry? && entries[j].Entry? ==>
      entries[i].key != entries[j].key
  }

  /** A Python dictionary holds each key once. */
  ghost predicate PythonDicts(v: Value) {
    match v
    case List(items) => forall i :: 0 <= i < |items| ==> PythonDicts(items[i])
    case Dict(entries) =>
      RawKeysDistinct(entries) && forall i :: 0 <= i < |entries| ==> PythonDicts(entries[i].value)
    case _ => true
  }

  ghost predicate Counterpart(nfc: Normalizer, e: Entry, f: Entry) {
    e.Entry? && f.Entry? && e.key == f.key && Canonical(nfc, e.value) == Canonical(nfc, f.value)
  }

  ghost predicate HasCounterpart(nfc: Normalizer, e: Entry, others: seq<Entry>) {
    exists f :: f in others && Counterpart(nfc, e, f)
  }

  ghost predicate Covers(nfc: Normalizer, es: seq<Entry>, fs: seq<Entry>) {
    forall e {:trigger HasCounterpart(nfc, e, fs)} :: e in es ==> HasCounterpart(nfc, e, fs)
  }

  lemma CoveredAccepted(nfc: Normalizer, es: seq<Entry>, fs: seq<Entry>)
    requires Covers(nfc, es, fs) && RawKeysDistinct(es) && EntriesCanonical(nfc, fs)
    ensures EntriesCanonical(nfc, es)
  {
    forall i | 0 <= i < |es| ensures es[i].Entry? && Canonical(nfc, es[i].value).Some? {
      assert HasCounterpart(nfc, es[i], fs);
    }
    forall i, k | 0 <= i < k < |es| ensures nfc(es[i].key) != nfc(es[k].key) {
      assert HasCounterpart(nfc, es[i], fs) && HasCounterpart(nfc, es[k], fs);
      var f :| f in fs && Counterpart(nfc, es[i], f);
      var g :| g in fs && Counterpart(nfc, es[k], g);
      assert f != g;
    }
  }

  lemma MemberAt(nfc: Normalizer, entries: seq<Entry>, e: Entry)
    requires EntriesCanonical(nfc, entries) && e in entries
    ensures e.Entry? && nfc(e.key) in CanonicalMembers(nfc, entries)
    ensures Canonical(nfc, e.value) == Some(CanonicalMembers(nfc, entries)[nfc(e.key)])
  {
  }

  lemma MemberFrom(nfc: Normalizer, entries: seq<Entry>, key: string) returns (e: Entry)
    requires EntriesCanonical(nfc, entries) && key in CanonicalMembers(nfc, entries)
    ensures e in entries && e.Entry? && nfc(e.key) == key
  {
    var i :| 0 <= i < |entries| && nfc(entries[i].key) == key;
    e := entries[i];
  }

  lemma CoveredMember(nfc: Normalizer, es: seq<Entry>, fs: seq<Entry>, key: string)
    requires Covers(nfc, es, fs) && EntriesCanonical(nfc, es) && EntriesCanonical(nfc, fs)
    requires key in CanonicalMembers(nfc, es)
    ensures key in CanonicalMembers(nfc, fs) && CanonicalMembers(nfc, fs)[key] == CanonicalMembers(nfc, es)[key]
  {
    var e := MemberFrom(nfc, es, key);
    assert HasCounterpart(nfc, e, fs);
    var f :| f in fs && Counterpart(nfc, e, f);
    MemberAt(nfc, es, e);
    MemberAt(nfc, fs, f);
  }

  lemma CoveredMembers(nfc: Normalizer, es: seq<Entry>, fs: seq<Entry>)
    requires Covers(nfc, es, fs) && Covers(nfc, fs, es)
    requires EntriesCanonical(nfc, es) && EntriesCanonical(nfc, fs)
    ensures CanonicalMembers(nfc, es) == CanonicalMembers(nfc, fs)
  {
    var m, n := CanonicalMembers(nfc, es), CanonicalMembers(nfc, fs);
    forall key | key in m ensures key in n && n[key] == m[key] { CoveredMember(nfc, es, fs, key); }
    forall key | key in n ensures key in m { CoveredMember(nfc, fs, es, key); }
    assert m == n;
  }

  lemma DictOrder(nfc: Normalizer, es: seq<Entry>, fs: seq<Entry>)
    requires Covers(nfc, es, fs) && Covers(nfc, fs, es) && RawKeysDistinct(es) && RawKeysDistinct(fs)
    ensures Canonical(nfc, Dict(es)) == Canonical(nfc, Dict(fs))
  {
    if EntriesCanonical(nfc, es) {
      CoveredAccepted(nfc, fs, es);
      CoveredMembers(nfc, es, fs);
    } else if EntriesCanonical(nfc, fs) {
      CoveredAccepted(nfc, es, fs);
    }
  }

  lemma ReorderedCovers(nfc: Normalizer, v: Value, w: Value)
    requires v.Dict? && Reordered(v, w)
    requires forall e, f :: e in v.entries && f in w.entries && SameEntry(v, e, f) ==> Counterpart(nfc, e, f)
    ensures Covers(nfc, v.entries, w.entries) && Covers(nfc, w.entries, v.entries)
  {
    forall e | e in v.entries ensures HasCounterpart(nfc, e, w.entries) {
      assert HasSame(v, e, w.entries);
    }
    forall f | f in w.entries ensures HasCounterpart(nfc, f, v.entries) {
      assert IsSame(v, f);
      var e :| e in v.entries && SameEntry(v, e, f);
      assert Counterpart(nfc, f, e);
    }
  }

  /** Insertion order never changes the tree, hence never the bytes. */
  lemma {:induction false} KeyOrderIrrelevant(nfc: Normalizer, v: Value, w: Value)
    requires Reordered(v, w) && PythonDicts(v) && PythonDicts(w)
    ensures Canonical(nfc, v) == Canonical(nfc, w)
    decreases v
  {
    match v
    case List(items) =>
      forall i | 0 <= i < |items| { KeyOrderIrrelevant(nfc, items[i], w.items[i]); }
      ListCongruence(nfc, items, w.items);
    case Dict(es) =>
      forall e, f | e in es && f in w.entries && SameEntry(v, e, f) ensures Counterpart(nfc, e, f) {
        assert PythonDicts(e.value) && PythonDicts(f.value);
        KeyOrderIrrelevant(nfc, e.value, f.value);
      }
      ReorderedCovers(nfc, v, w);
      DictOrder(nfc, es, w.entries);
    case _ =>
  }

  lemma ListCongruence(nfc: Normalizer, items: seq<Value>, others: seq<Value>)
    requires |items| == |others|
    requires forall i :: 0 <= i < |items| ==> Canonical(nfc, items[i]) == Canonical(nfc, others[i])
    ensures Canonical(nfc, List(items)) == Canonical(nfc, List(others))
  {
    if AllCanonical(nfc, items) {
      assert CanonicalItems(nfc, items) == CanonicalItems(nfc, others);
    }
  }

  // --- Refusal reaches the whole value ---

  ghost predicate Within(v: Value, part: Value)
    decreases v
  {
    || v == part
    || (v.List? && exists i :: 0 <= i < |v.items| && Within(v.items[i], part))
    || (v.Dict? && exists i :: 0 <= i < |v.entries| && Within(v.entries[i].value, part))
  }

  /** A refused part, such as a dictionary whose keys collide under NFC, refuses every value around it. */
  lemma {:induction false} RefusalPropagates(nfc: Normalizer, v: Value, part: Value)
    requires Within(v, part) && Canonical(nfc, part).None?
    ensures Encode(nfc, v).None?
    decreases v
  {
    if v != part {
      match v
      case List(items) =>
        var i :| 0 <= i < |items| && Within(items[i], part);
        RefusalPropagates(nfc, items[i], part);
        assert !AllCanonical(nfc, items);
      case Dict(entries) =>
        var i :| 0 <= i < |entries| && Within(entries[i].value, part);
        RefusalPropagates(nfc, entries[i].value, part);
        assert !EntriesCanonical(nfc, entries);
      case _ =>
    }
  }

  /** Keys that collide under NFC are refused, wherever the dictionary stands. */
  lemma CollidingKeysRefused(nfc: Normalizer, v: Value, entries: seq<Entry>, i: int, j: int)
    requires Within(v, Dict(entries)) && 0 <= i < j < |entries|
    requires entries[i].Entry? && entries[j].Entry? && nfc(entries[i].key) == nfc(entries[j].key)
    ensures Encode(nfc, v).None?
  {
    assert !KeysDistinct(nfc, entries);
    RefusalPropagates(nfc, v, Dict(entries));
  }

  // --- Canonical values are fixed points ---

  ghost predicate Idempotent(nfc: Normalizer) {
    forall s :: nfc(nfc(s)) == nfc(s)
  }

  /** Every string of the tree, keys included, is in normal form. */
  ghost predicate Normal(nfc: Normalizer, j: Json) {
    match j
    case JStr(s) => nfc(s) == s
    case JList(items) => forall i :: 0 <= i < |items| ==> Normal(nfc, items[i])
    case JObject(members) => forall k :: k in members ==> nfc(k) == k && Normal(nfc, members[k])
    case _ => true
  }

  /** The Python value a tree reads back as (`json.loads` of its text). */
  function ToValue(j: Json): Value
    decreases j, 1
  {
    match j
    case JNull => Null
    case JBool(b) => Bool(b)
    case JInt(n) => Int(n)
    case JStr(s) => Str(s)
    case JList(items) => List(seq(|items|, i requires 0 <= i < |items| => ToValue(items[i])))
    case JObject(members) => Dict(ToEntries(j, SortedOf(members.Keys)))
  }

  function ToEntries(j: Json, keys: seq<string>): (es: seq<Entry>)
    requires j.JObject? && forall k :: k in keys ==> k in j.members
    ensures |es| == |keys|
    ensures forall i :: 0 <= i < |keys| ==> es[i] == Entry(keys[i], ToValue(j.members[keys[i]]))
    decreases j, 0
  {
    seq(|keys|, i requires 0 <= i < |keys| => Entry(keys[i], ToValue(j.members[keys[i]])))
  }

  lemma {:induction false} CanonicalIsNormal(nfc: Normalizer, v: Value)
    requires Idempotent(nfc) && Canonical(nfc, v).Some?
    ensures Normal(nfc, Canonical(nfc, v).value)
    decreases v
  {
    match v
    case List(items) =>
      forall i | 0 <= i < |items| { CanonicalIsNormal(nfc, items[i]); }
    case Dict(entries) =>
      forall i | 0 <= i < |entries| { CanonicalIsNormal(nfc, entries[i].value); }
    case _ =>
  }

  lemma {:induction false} NormalIsFixed(nfc: Normalizer, j: Json)
    requires Normal(nfc, j)
    ensures Canonical(nfc, ToValue(j)) == Some(j)
    decreases j
  {
    match j
    case JList(items) =>
      forall i | 0 <= i < |items| { NormalIsFixed(nfc, items[i]); }
      var values := ToValue(j).items;
      assert AllCanonical(nfc, values) && CanonicalItems(nfc, values) == items;
    case JObject(members) =>
      forall k | k in members { NormalIsFixed(nfc, members[k]); }
      NormalObjectFixed(nfc, j);
    case _ =>
  }

  lemma NormalObjectFixed(nfc: Normalizer, j: Json)
    requires j.JObject?
    requires forall k :: k in j.members ==> nfc(k) == k && Canonical(nfc, ToValue(j.members[k])) == Some(j.members[k])
    ensures Canonical(nfc, ToValue(j)) == Some(j)
  {
    var keys := SortedOf(j.members.Keys);
    var entries := ToEntries(j, keys);
    assert forall i :: 0 <= i < |keys| ==> keys[i] in j.members;
    ListedMembers(nfc, entries, keys, j.members);
  }

  /** Entries that list the members of a map under sorted normal keys rebuild the map. */
  lemma ListedMembers(nfc: Normalizer, entries: seq<Entry>, keys: seq<string>, members: map<string, Json>)
    requires |entries| == |keys| && Sorted(keys) && forall k :: k in keys <==> k in members
    requires forall i :: 0 <= i < |keys| ==> entries[i].Entry? && entries[i].key == keys[i] && nfc(keys[i]) == keys[i]
    requires forall i :: 0 <= i < |keys| ==> Canonical(nfc, entries[i].value) == Some(members[keys[i]])
    ensures Canonical(nfc, Dict(entries)) == Some(JObject(members))
  {
    forall i, k | 0 <= i < k < |entries| ensures nfc(entries[i].key) != nfc(entries[k].key) {
      assert Less(keys[i], keys[k]);
      LessTotal(keys[i], keys[k]);
    }
    forall name | name in members ensures exists k :: 0 <= k < |entries| && nfc(entries[k].key) == name {
      assert name in keys;
      var k :| 0 <= k < |keys| && keys[k] == name;
      assert nfc(entries[k].key) == name;
    }
    assert entries[..|entries|] == entries;
    FilledAll(nfc, entries, members);
  }

  /** Reading canonical bytes back and encoding again gives the same bytes. */
  lemma ReencodeStable(nfc: Normalizer, v: Value)
    requires Idempotent(nfc) && Encode(nfc, v).Some?
    ensures Decode(Encode(nfc, v).value).Some?
    ensures Encode(nfc, ToValue(Decode(Encode(nfc, v).value).value)) == Encode(nfc, v)
  {
    EncodeRoundTrip(nfc, v);
    CanonicalIsNormal(nfc, v);
    NormalIsFixed(nfc, Canonical(nfc, v).value);
  }
}
