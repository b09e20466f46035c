/** Context packing under a token budget (`retrieve_context_pack`, agent_core/memory/local_client.py). */
module ContextPack {
  import opened Wrappers
  import opened Text
  import opened MemoryModel
  import opened SearchMeaning
  import IM = InMemoryStore

  datatype Item = Item(record: MemoryRecord, tokens: nat)

  datatype Pack = Pack(items: seq<Item>, tokensUsed: nat, budget: int, truncated: bool)

  /** `ApproxTokenCounter.count`: words, but at least one. */
  function Tokens(text: string): (n: nat)
    ensures n >= 1
  {
    if |Words(text)| > 1 then |Words(text)| else 1
  }

  /** As many tokens as words, but one for a text without words. */
  lemma TokensOfWords(ws: seq<string>)
    requires forall w :: w in ws ==> IsWord(w)
    ensures Tokens(Join(ws, " ")) == if ws == [] then 1 else |ws|
  {
    WordsOfJoin(ws);
  }

  function Total(records: seq<MemoryRecord>): nat {
    if records == [] then 0 else Tokens(records[0].content) + Total(records[1..])
  }

  lemma {:induction false} TotalSnoc(records: seq<MemoryRecord>, r: MemoryRecord)
    ensures Total(records + [r]) == Total(records) + Tokens(r.content)
  {
    if records == [] {
      assert [] + [r] == [r] && [r][1..] == [];
    } else {
      TotalSnoc(records[1..], r);
      assert (records + [r])[1..] == records[1..] + [r];
    }
  }

  lemma {:induction false} TotalMonotone(records: seq<MemoryRecord>, i: nat, j: nat)
    requires i <= j <= |records|
    ensures Total(records[..j]) >= Total(records[..i]) + (j - i)
    decreases j - i
  {
    if i < j {
      TotalMonotone(records, i, j - 1);
      TotalSnoc(records[..j - 1], records[j - 1]);
      assert records[..j] == records[..j - 1] + [records[j - 1]];
    }
  }

  /** The first `k` records are the longest prefix within the budget; no prefix but the empty one fits a negative budget. */
  predicate LongestFit(records: seq<MemoryRecord>, budget: int, k: nat) {
    && k <= |records| && (k > 0 ==> Total(records[..k]) <= budget)
    && forall m :: k < m <= |records| ==> Total(records[..m]) > budget
  }

  function ItemsOf(records: seq<MemoryRecord>): seq<Item> {
    seq(|records|, i requires 0 <= i < |records| => Item(records[i], Tokens(records[i].content)))
  }

  /** The pack made of the first `k` records. */
  predicate PackOf(records: seq<MemoryRecord>, budget: int, k: nat, pack: Pack) {
    && LongestFit(records, budget, k) && pack.items == ItemsOf(records[..k])
    && pack.tokensUsed == Total(records[..k]) && pack.budget == budget
    && (pack.truncated <==> k < |records|)
  }

  /** The packing loop: stop at the first record that would exceed the budget. */
  method PackRecords(records: seq<MemoryRecord>, budget: int) returns (pack: Pack)
    ensures PackOf(records, budget, |pack.items|, pack)
  {
    var items, tokensUsed, truncated := [], 0, false;
    for i := 0 to |records|
      invariant !truncated && items == ItemsOf(records[..i]) && tokensUsed == Total(records[..i])
      invariant i > 0 ==> tokensUsed <= budget
    {
      var itemTokens := Tokens(records[i].content);
      TotalSnoc(records[..i], records[i]);
      assert records[..i + 1] == records[..i] + [records[i]];
      if tokensUsed + itemTokens > budget {
        forall m | i < m <= |records| ensures Total(records[..m]) > budget { TotalMonotone(records, i + 1, m); }
        truncated := true;
        break;
      }
      items := items + [Item(records[i], itemTokens)];
      tokensUsed := tokensUsed + itemTokens;
    }
    pack := Pack(items, tokensUsed, budget, truncated);
  }

  /** The pack holds the best-ranked live records of this user and session, up to `maxItems` and the budget. */
  ghost predicate PacksBest(
      d: Dict, userId: Option<string>, sessionId: Option<string>, budget: int, maxItems: int, matches: TextMatch, pack: Pack)
  {
    exists ranked ::
      Answers(d, Query("", userId, sessionId, [], [], false, maxItems), matches, ranked)
      && PackOf(ranked, budget, |pack.items|, pack)
  }

  method RetrieveContextPack(
      store: IM.Store, userId: Option<string>, sessionId: Option<string>, budget: int, maxItems: int, matches: TextMatch)
    returns (pack: Pack)
    requires store.Valid()
    ensures PackOf(Found(store.records, Query("", userId, sessionId, [], [], false, maxItems), matches), budget, |pack.items|, pack)
    ensures PacksBest(store.records, userId, sessionId, budget, maxItems, matches, pack)
  {
    var records := store.Search(Query("", userId, sessionId, [], [], false, maxItems), matches);
    pack := PackRecords(records, budget);
  }

  /** The budget bounds tokens and items, and the prefix is determined by it. */
  lemma PackBounds(records: seq<MemoryRecord>, budget: int, k: nat, pack: Pack)
    requires PackOf(records, budget, k, pack)
    ensures budget >= 0 ==> pack.tokensUsed <= budget && |pack.items| <= budget
    ensures budget <= 0 ==> pack.items == []
    ensures pack.truncated <==> Total(records) > budget && records != []
  {
    TotalMonotone(records, 0, k);
    assert records[..|records|] == records;
    if records != [] { TotalMonotone(records, 1, |records|); }
  }

  /** A larger budget never packs fewer records, and the pack for a smaller one is a prefix of it. */
  lemma PackMonotone(records: seq<MemoryRecord>, small: int, large: int, k: nat, l: nat, p: Pack, q: Pack)
    requires small <= large && PackOf(records, small, k, p) && PackOf(records, large, l, q)
    ensures p.items <= q.items
    ensures small == large ==> p == q
  {
    assert records[..k] == records[..l][..k];
  }
}
