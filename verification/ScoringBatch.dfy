/** Scoring a batch of items: which error comes first, and which result stands where. */
module ScoringBatch {
  import opened Wrappers
  import opened Basics
  import opened Text
  import opened Scoring

  /** recency and multiplier are the components that the clock and the source's type determine. */
  datatype Content = Content(title: string, body: string, recency: real, multiplier: real)

  /** An item without content has a stored payload that does not parse. */
  datatype Item = Item(id: string, client: string, content: Option<Content>)

  datatype Config = Config(weights: Weights, threshold: real)

  datatype ScoreResult = ScoreResult(itemId: string, client: string, score: real, keyword: real, recency: real,
                                     source: real, status: Status, matchedKeywords: seq<string>)

  datatype Reason = PayloadInvalid | BodyMissing

  datatype Failure =
    | NotFound(ids: seq<string>)
    | Disabled(client: string, ids: seq<string>)
    | InvalidItems(items: seq<(string, Reason)>)

  // ----- lists of ids and items

  /** Trimmed ids; blank ones are dropped. */
  function Sanitized(ids: seq<string>): seq<string> {
    if ids == [] then []
    else Sanitized(ids[..|ids| - 1]) + if Trim(ids[|ids| - 1]) != "" then [Trim(ids[|ids| - 1])] else []
  }

  /** Each id once, at its first occurrence. */
  function Unique(ids: seq<string>): (r: seq<string>)
    ensures forall i, j | 0 <= i < j < |r| :: r[i] != r[j]
    ensures forall id :: id in r <==> id in ids
  {
    if ids == [] then []
    else
      var rest := Unique(ids[..|ids| - 1]);
      assert ids == ids[..|ids| - 1] + [ids[|ids| - 1]];
      if ids[|ids| - 1] in rest then rest else rest + [ids[|ids| - 1]]
  }

  function Missing(ids: seq<string>, found: set<string>): seq<string> {
    if ids == [] then []
    else Missing(ids[..|ids| - 1], found) + if ids[|ids| - 1] in found then [] else [ids[|ids| - 1]]
  }

  function FoundIds(items: seq<Item>): set<string> {
    set item | item in items :: item.id
  }

  ghost predicate DistinctItems(items: seq<Item>) {
    forall i, j | 0 <= i < j < |items| :: items[i].id != items[j].id
  }

  /** What a query for ids returns: each item at most once, in any order. */
  ghost predicate IsFetchOf(items: seq<Item>, ids: seq<string>) {
    DistinctItems(items) && forall item | item in items :: item.id in ids
  }

  /** The item with the id. */
  ghost predicate Holds(items: seq<Item>, id: string, item: Item) {
    item in items && item.id == id
  }

  function IdsOf(order: seq<Item>, client: string): seq<string> {
    if order == [] then []
    else
      IdsOf(order[..|order| - 1], client)
      + if order[|order| - 1].client == client then [order[|order| - 1].id] else []
  }

  function Defect(item: Item): Option<Reason> {
    match item.content
    case None => Some(PayloadInvalid)
    case Some(content) => if Trim(content.body) == "" then Some(BodyMissing) else None
  }

  function Defects(items: seq<Item>): (defects: seq<(string, Reason)>)
    ensures defects == [] <==> forall item | item in items :: Defect(item).None?
  {
    if items == [] then []
    else
      var last := items[|items| - 1];
      assert items == items[..|items| - 1] + [last];
      Defects(items[..|items| - 1]) + if Defect(last).Some? then [(last.id, Defect(last).value)] else []
  }

  // ----- what the lists hold

  /** The ids that are not blank, trimmed and in order. */
  lemma {:induction false} SanitizedStand(ids: seq<string>)
    ensures Stand(ids, (id: string) => !Blank(id), (id: string, kept: string) => kept == Trim(id), Sanitized(ids))
    decreases ids
  {
    if ids == [] {
      StandNone((id: string) => !Blank(id), (id: string, kept: string) => kept == Trim(id));
    } else {
      hide Trim, Blank, Stand;
      var rest, last := ids[..|ids| - 1], ids[|ids| - 1];
      SanitizedStand(rest);
      BlankIffTrimmedAway(last);
      StandSnoc(rest, (id: string) => !Blank(id), (id: string, kept: string) => kept == Trim(id), Sanitized(rest),
                last, Trim(last));
      assert rest + [last] == ids;
    }
  }

  lemma MissingAdded(ids: seq<string>, found: set<string>, missing: seq<string>, last: string)
    requires Stand(ids, (id: string) => id !in found, (id: string, m: string) => m == id, missing)
    ensures Stand(ids + [last], (id: string) => id !in found, (id: string, m: string) => m == id,
                  missing + if last in found then [] else [last])
  {
    hide Stand;
    StandSnoc(ids, (id: string) => id !in found, (id: string, m: string) => m == id, missing, last, last);
  }

  /** The ids that are not found, in order. */
  lemma {:induction false} MissingStand(ids: seq<string>, found: set<string>)
    ensures Stand(ids, (id: string) => id !in found, (id: string, m: string) => m == id, Missing(ids, found))
    decreases ids
  {
    hide Stand;
    if ids == [] {
      StandNone((id: string) => id !in found, (id: string, m: string) => m == id);
    } else {
      var n := |ids| - 1;
      assert ids[..n] + [ids[n]] == ids;
      MissingStand(ids[..n], found);
      MissingAdded(ids[..n], found, Missing(ids[..n], found), ids[n]);
    }
  }

  /** An item cannot be scored without content, and without a body that is not blank. */
  ghost predicate Unusable(item: Item) {
    item.content.None? || Blank(item.content.value.body)
  }

  ghost predicate Reports(item: Item, defect: (string, Reason)) {
    defect.0 == item.id && defect.1 == if item.content.None? then PayloadInvalid else BodyMissing
  }

  lemma DefectIs(item: Item)
    ensures Defect(item).Some? <==> Unusable(item)
    ensures Defect(item).Some? ==> Reports(item, (item.id, Defect(item).value))
  {
    if item.content.Some? {
      BlankIffTrimmedAway(item.content.value.body);
    }
  }

  lemma DefectAdded(items: seq<Item>, defects: seq<(string, Reason)>, last: Item)
    requires Stand(items, Unusable, Reports, defects)
    ensures Stand(items + [last], Unusable, Reports,
                  defects + if Defect(last).Some? then [(last.id, Defect(last).value)] else [])
  {
    DefectIs(last);
    hide Defect, Unusable, Reports, Stand;
    if Defect(last).Some? {
      StandSnoc(items, Unusable, Reports, defects, last, (last.id, Defect(last).value));
    } else {
      StandSnoc(items, Unusable, Reports, defects, last, (last.id, BodyMissing));
    }
  }

  /** The items that cannot be scored, each with its reason, in order. */
  lemma {:induction false} DefectsStand(items: seq<Item>)
    ensures Stand(items, Unusable, Reports, Defects(items))
    decreases items
  {
    hide Stand, Unusable, Reports, Defect;
    if items == [] {
      StandNone(Unusable, Reports);
    } else {
      var n := |items| - 1;
      DefectsSnoc(items, n);
      assert items[..n + 1] == items && items[..n] + [items[n]] == items;
      hide Defects;
      DefectsStand(items[..n]);
      DefectAdded(items[..n], Defects(items[..n]), items[n]);
    }
  }

  /** The ids of a client's items, in order. */
  lemma {:induction false} IdsOfStand(order: seq<Item>, client: string)
    ensures Stand(order, (item: Item) => item.client == client, (item: Item, id: string) => id == item.id,
                  IdsOf(order, client))
    decreases order
  {
    if order == [] {
      StandNone((item: Item) => item.client == client, (item: Item, id: string) => id == item.id);
    } else {
      hide Stand;
      var rest, last := order[..|order| - 1], order[|order| - 1];
      IdsOfStand(rest, client);
      StandSnoc(rest, (item: Item) => item.client == client, (item: Item, id: string) => id == item.id,
                IdsOf(rest, client), last, last.id);
      assert rest + [last] == order;
    }
  }

  /** Position k holds the id for the first time. */
  ghost predicate FirstTime(ids: seq<string>, id: string, k: int) {
    0 <= k < |ids| && ids[k] == id && id !in ids[..k]
  }

  /** Each id once, in the order of their first occurrences. */
  lemma {:induction false} UniqueInOrder(ids: seq<string>, i: nat, j: nat, k: nat, l: nat)
    requires i < j < |Unique(ids)| && FirstTime(ids, Unique(ids)[i], k) && FirstTime(ids, Unique(ids)[j], l)
    ensures k < l
    decreases ids
  {
    var n := |ids| - 1;
    var rest := ids[..n];
    if j < |Unique(rest)| {
      assert Unique(ids)[j] in rest && Unique(ids)[i] in rest;
      FirstTimeInPrefix(ids, n, Unique(ids)[i], k);
      FirstTimeInPrefix(ids, n, Unique(ids)[j], l);
      UniqueInOrder(rest, i, j, k, l);
    } else {
      assert Unique(ids)[j] == ids[n] && ids[n] !in rest && Unique(ids)[i] in rest;
      FirstTimeInPrefix(ids, n, Unique(ids)[i], k);
    }
  }

  lemma IsInPrefix(ids: seq<string>, k: int, m: int)
    requires 0 <= m < k <= |ids|
    ensures ids[m] in ids[..k]
  {
    assert ids[..k][m] == ids[m];
  }

  lemma FirstTimeInPrefix(ids: seq<string>, n: nat, id: string, k: nat)
    requires n <= |ids| && id in ids[..n] && FirstTime(ids, id, k)
    ensures FirstTime(ids[..n], id, k)
  {
    var m :| 0 <= m < n && ids[..n][m] == id;
    if m < k { IsInPrefix(ids, k, m); }
    assert ids[..n][..k] == ids[..k];
  }

  // ----- one result

  function ResultOf(item: Item, keywords: seq<string>, config: Config): ScoreResult
    requires item.content.Some?
  {
    var c := item.content.value;
    var keyword := KeywordScore(c.title, c.body, keywords);
    var source := Clamp01(c.multiplier);
    var total := Total(keyword, c.recency, source, config.weights);
    ScoreResult(item.id, item.client, RoundTo(total), RoundTo(keyword), RoundTo(c.recency), RoundTo(source),
                StatusFor(total, config.threshold), Matched(Lower(c.title + " " + c.body), keywords))
  }

  method ToScoreResult(item: Item, keywords: seq<string>, config: Config) returns (r: ScoreResult)
    requires item.content.Some?
    ensures r == ResultOf(item, keywords, config)
    ensures var c := item.content.value;
            var keyword := KeywordScore(c.title, c.body, keywords);
            var source := if c.multiplier < 0.0 then 0.0 else if c.multiplier > 1.0 then 1.0 else c.multiplier;
            var total := Total(keyword, c.recency, source, config.weights);
            && r.itemId == item.id && r.client == item.client && r.score == RoundTo(total)
            && r.keyword == RoundTo(keyword) && r.recency == RoundTo(c.recency) && r.source == RoundTo(source)
            && (r.status == Scored <==> total >= config.threshold)
            && r.matchedKeywords == Matched(Lower(c.title + " " + c.body), keywords)
  {
    StatusIs(Total(KeywordScore(item.content.value.title, item.content.value.body, keywords),
                   item.content.value.recency, Clamp01(item.content.value.multiplier), config.weights),
             config.threshold);
    hide Total, RoundTo, StatusFor, KeywordScore, Matched;
    var c := item.content.value;
    var keyword, matchedKeywords := ComputeKeywordScore(c.title, c.body, keywords);
    var source := Clamp01(c.multiplier);
    var total := Total(keyword, c.recency, source, config.weights);
    r := ScoreResult(item.id, item.client, RoundTo(total), RoundTo(keyword), RoundTo(c.recency), RoundTo(source),
                     StatusFor(total, config.threshold), matchedKeywords);
  }

  // ----- the length check

  lemma {:induction false} DistinctSize(ids: seq<string>)
    requires forall i, j | 0 <= i < j < |ids| :: ids[i] != ids[j]
    ensures |set id | id in ids| == |ids|
    decreases ids
  {
    if ids == [] {
    } else {
      var last, rest := ids[|ids| - 1], ids[..|ids| - 1];
      DistinctSize(rest);
      assert ids == rest + [last];
      assert (set id | id in ids) == (set id | id in rest) + {last};
      assert last !in rest;
    }
  }

  lemma FetchedSize(items: seq<Item>)
    requires DistinctItems(items)
    ensures |FoundIds(items)| == |items|
  {
    var ids := seq(|items|, i requires 0 <= i < |items| => items[i].id);
    DistinctSize(ids);
    forall id ensures id in FoundIds(items) <==> id in ids {
      if id in FoundIds(items) {
        var item :| item in items && item.id == id;
        var i :| 0 <= i < |items| && items[i] == item;
        assert ids[i] == id;
      }
    }
    assert FoundIds(items) == set id | id in ids;
  }

  /** Comparing lengths is enough to know whether every id was found. */
  lemma LengthCheck(items: seq<Item>, ids: seq<string>)
    requires IsFetchOf(items, ids) && forall i, j | 0 <= i < j < |ids| :: ids[i] != ids[j]
    ensures |items| == |ids| <==> forall id | id in ids :: id in FoundIds(items)
  {
    var wanted := set id | id in ids;
    DistinctSize(ids);
    FetchedSize(items);
    var found := FoundIds(items);
    assert found <= wanted;
    if |items| == |ids| {
      SubsetSize(wanted - found, wanted);
      assert wanted == found + (wanted - found);
    } else {
      assert found != wanted;
      var id :| id in wanted && id !in found;
    }
  }

  // ----- the batch

  /** A missing item, a disabled client, an unusable item: reported in this order, and otherwise no failure. */
  ghost predicate Explains(failure: Failure, ids: seq<string>, items: seq<Item>, enabled: set<string>) {
    match failure
    case NotFound(missing) =>
      missing == Missing(Unique(ids), FoundIds(items)) && exists id | id in ids :: id !in FoundIds(items)
    case Disabled(client, blocked) =>
      && AllFound(ids, items) && client !in enabled
      && exists order: seq<Item>, i: nat ::
           && IsOrder(order, ids, items) && i < |order| && order[i].client == client
           && (forall j | 0 <= j < i :: order[j].client in enabled)
           && blocked == IdsOf(order, client)
    case InvalidItems(defects) =>
      && AllFound(ids, items) && (forall item | item in items :: item.client in enabled)
      && defects == Defects(items) && defects != []
  }

  ghost predicate AllFound(ids: seq<string>, items: seq<Item>) {
    forall id | id in ids :: id in FoundIds(items)
  }

  /** The items position by position with the ids, repeats included. */
  ghost predicate IsOrder(order: seq<Item>, ids: seq<string>, items: seq<Item>) {
    |order| == |ids| && forall i | 0 <= i < |ids| :: Holds(items, ids[i], order[i])
  }

  ghost predicate AreFirst(order: seq<Item>, clients: seq<string>, first: seq<nat>) {
    |first| == |clients| && forall k | 0 <= k < |clients| :: IsFirst(order, clients, k, first[k])
  }

  lemma AreFirstSnoc(order: seq<Item>, clients: seq<string>, first: seq<nat>, i: nat)
    requires AreFirst(order, clients, first) && i < |order|
    requires forall j | 0 <= j < i :: order[j].client in clients
    ensures AreFirst(order, clients + [order[i].client], first + [i])
  {
    var more := clients + [order[i].client];
    forall k | 0 <= k < |more| ensures IsFirst(order, more, k, (first + [i])[k]) {
      if k < |clients| {
        assert IsFirst(order, clients, k, first[k]) && more[..k] == clients[..k];
      } else {
        assert more[..k] == clients;
      }
    }
  }

  lemma IdsOfSnoc(order: seq<Item>, i: nat, client: string)
    requires i < |order|
    ensures IdsOf(order[..i + 1], client)
            == IdsOf(order[..i], client) + if order[i].client == client then [order[i].id] else []
  {
    assert order[..i + 1][..i] == order[..i];
  }

  ghost predicate AreBuckets(buckets: map<string, seq<string>>, order: seq<Item>) {
    forall c :: IdsOf(order, c) == if c in buckets then buckets[c] else []
  }

  lemma BucketsSnoc(buckets: map<string, seq<string>>, order: seq<Item>, i: nat)
    requires i < |order| && AreBuckets(buckets, order[..i])
    ensures var c := order[i].client;
            AreBuckets(buckets[c := (if c in buckets then buckets[c] else []) + [order[i].id]], order[..i + 1])
  {
    forall c
      ensures IdsOf(order[..i + 1], c) == IdsOf(order[..i], c) + if order[i].client == c then [order[i].id] else []
    {
      IdsOfSnoc(order, i, c);
    }
  }

  /** The clients in the order of their first items, and the ids of each. */
  method GroupByClient(order: seq<Item>)
    returns (clients: seq<string>, buckets: map<string, seq<string>>, ghost first: seq<nat>)
    ensures AreFirst(order, clients, first) && AreBuckets(buckets, order)
    ensures forall c :: c in clients <==> c in buckets
    ensures forall item | item in order :: item.client in clients
  {
    hide AreFirst, AreBuckets, IdsOf;
    clients, buckets, first := [], map[], [];
    var i := 0;
    NoGroups(order);
    while i < |order|
      invariant 0 <= i <= |order|
      invariant AreFirst(order, clients, first) && AreBuckets(buckets, order[..i])
      invariant forall c :: c in clients <==> c in buckets
      invariant forall j | 0 <= j < i :: order[j].client in clients
    {
      var item := order[i];
      BucketsSnoc(buckets, order, i);
      if item.client in buckets {
        buckets := buckets[item.client := buckets[item.client] + [item.id]];
      } else {
        AreFirstSnoc(order, clients, first, i);
        clients, first := clients + [item.client], first + [i];
        assert [] + [item.id] == [item.id];
        buckets := buckets[item.client := [item.id]];
      }
      i := i + 1;
    }
    assert order[..i] == order;
  }

  lemma NoGroups(order: seq<Item>)
    ensures AreFirst(order, [], []) && AreBuckets(map[], order[..0])
  {
  }

  /** Item i is the first of client k, and the clients of the items before it come earlier. */
  ghost predicate IsFirst(order: seq<Item>, clients: seq<string>, k: nat, i: nat) {
    k < |clients| && i < |order| && order[i].client == clients[k]
        && forall j | 0 <= j < i :: order[j].client in clients[..k]
  }

  method Sanitize(itemIds: seq<string>) returns (ids: seq<string>)
    ensures ids == Sanitized(itemIds)
  {
    hide Trim;
    ids := [];
    var i := 0;
    while i < |itemIds|
      invariant 0 <= i <= |itemIds| && ids == Sanitized(itemIds[..i])
    {
      assert itemIds[..i + 1][..i] == itemIds[..i];
      var id := Trim(itemIds[i]);
      if id != "" {
        ids := ids + [id];
      }
      i := i + 1;
    }
    assert itemIds[..i] == itemIds;
  }

  method ById(items: seq<Item>) returns (byId: map<string, Item>)
    ensures byId.Keys == FoundIds(items)
    ensures forall id | id in byId :: Holds(items, id, byId[id])
  {
    byId := map[];
    var i := 0;
    while i < |items|
      invariant 0 <= i <= |items| && byId.Keys == FoundIds(items[..i])
      invariant forall id | id in byId :: Holds(items, id, byId[id])
    {
      assert items[..i + 1] == items[..i] + [items[i]];
      byId := byId[items[i].id := items[i]];
      i := i + 1;
    }
    assert items[..i] == items;
  }

  function KeywordsOf(keywordsOf: map<string, seq<string>>, client: string): seq<string> {
    if client in keywordsOf then keywordsOf[client] else []
  }

  /** The item's result is there, if the item is usable. */
  ghost predicate Filed(results: map<string, ScoreResult>, item: Item, keywordsOf: map<string, seq<string>>,
                        config: Config) {
    Defect(item).None? ==>
      item.id in results && results[item.id] == ResultOf(item, KeywordsOf(keywordsOf, item.client), config)
  }

  lemma DefectsSnoc(items: seq<Item>, i: nat)
    requires i < |items|
    ensures Defects(items[..i + 1])
            == Defects(items[..i]) + if Defect(items[i]).Some? then [(items[i].id, Defect(items[i]).value)] else []
  {
    hide Defect;
    assert items[..i + 1][..i] == items[..i];
  }

  /** The results of the usable items, by id. */
  method ResultsById(items: seq<Item>, keywordsOf: map<string, seq<string>>, config: Config)
    returns (defects: seq<(string, Reason)>, results: map<string, ScoreResult>)
    requires DistinctItems(items)
    ensures defects == Defects(items)
    ensures forall item | item in items :: Filed(results, item, keywordsOf, config)
  {
    hide ResultOf, Defects, Defect, KeywordsOf;
    defects, results := [], map[];
    var i := 0;
    assert items[..0] == [];
    while i < |items|
      invariant 0 <= i <= |items| && defects == Defects(items[..i])
      invariant forall j | 0 <= j < i :: Filed(results, items[j], keywordsOf, config)
    {
      DefectsSnoc(items, i);
      var item := items[i];
      var defect := Defect(item);
      if defect.Some? {
        defects := defects + [(item.id, defect.value)];
      } else {
        assert item.content.Some? by { UsableHasContent(item); }
        var result := ToScoreResult(item, KeywordsOf(keywordsOf, item.client), config);
        ghost var before := results;
        results := results[item.id := result];
        forall j | 0 <= j < i ensures Filed(results, items[j], keywordsOf, config) {
          assert Filed(before, items[j], keywordsOf, config) && items[j].id != item.id;
        }
      }
      i := i + 1;
    }
    assert items[..i] == items;
  }

  lemma UsableHasContent(item: Item)
    requires Defect(item).None?
    ensures item.content.Some?
  {
  }

  /** Result i is the result of the item with id i, which is usable and belongs to an enabled client. */
  ghost predicate IsResultOf(result: ScoreResult, id: string, items: seq<Item>, enabled: set<string>,
                             keywordsOf: map<string, seq<string>>, config: Config) {
    exists item :: Holds(items, id, item) && Defect(item).None? && item.client in enabled
                   && result == ResultOf(item, KeywordsOf(keywordsOf, item.client), config)
  }

  /**
    Every result stands at the position of its id, repeated ids repeat their result, and the ids are
    either all scored or a failure explains why not.
   */
  method ScoreItems(itemIds: seq<string>, items: seq<Item>, enabled: set<string>,
                    keywordsOf: map<string, seq<string>>, config: Config)
    returns (r: Result<seq<ScoreResult>, Failure>)
    requires IsFetchOf(items, Unique(Sanitized(itemIds)))
    ensures var ids := Sanitized(itemIds);
            match r
            case Err(failure) => ids != [] && Explains(failure, ids, items, enabled)
            case Ok(results) =>
              |results| == |ids|
              && forall i | 0 <= i < |ids| :: IsResultOf(results[i], ids[i], items, enabled, keywordsOf, config)
  {
    hide Sanitized, Missing, IsResultOf, IsOrder, Defects;
    var ids := Sanitize(itemIds);
    if |ids| == 0 {
      return Ok([]);
    }
    var unique := Unique(ids);
    LengthCheck(items, unique);
    if |items| != |unique| {
      return Err(NotFound(Missing(unique, FoundIds(items))));
    }
    hide Unique;
    var order := InOrder(ids, items);
    var blocked, blockedIds := FirstDisabled(order, enabled);
    if blocked.Some? {
      return Err(Disabled(blocked.value, blockedIds));
    }
    forall item | item in items ensures item.client in enabled {
      FetchedIsOrdered(item, items, ids, order);
    }
    var defects, resultsById := ResultsById(items, keywordsOf, config);
    if |defects| > 0 {
      return Err(InvalidItems(defects));
    }
    var results := Arranged(ids, items, order, enabled, resultsById, keywordsOf, config);
    r := Ok(results);
  }

  method InOrder(ids: seq<string>, items: seq<Item>) returns (order: seq<Item>)
    requires AllFound(ids, items)
    ensures IsOrder(order, ids, items)
  {
    var byId := ById(items);
    order := seq(|ids|, i requires 0 <= i < |ids| => byId[ids[i]]);
    forall i | 0 <= i < |ids| ensures Holds(items, ids[i], order[i]) {
      assert ids[i] in FoundIds(items);
    }
  }

  method FirstDisabled(order: seq<Item>, enabled: set<string>) returns (client: Option<string>, ids: seq<string>)
    ensures client.None? ==> forall item | item in order :: item.client in enabled
    ensures client.Some? ==>
              && client.value !in enabled && ids == IdsOf(order, client.value)
              && exists i: nat ::
                   i < |order| && order[i].client == client.value && forall j | 0 <= j < i :: order[j].client in enabled
  {
    hide IdsOf;
    var clients, buckets, first := GroupByClient(order);
    var k := 0;
    while k < |clients|
      invariant 0 <= k <= |clients|
      invariant forall c | c in clients[..k] :: c in enabled
    {
      if clients[k] !in enabled {
        assert IsFirst(order, clients, k, first[k]);
        return Some(clients[k]), buckets[clients[k]];
      }
      k := k + 1;
    }
    assert clients[..k] == clients;
    return None, [];
  }

  method Arranged(ids: seq<string>, items: seq<Item>, order: seq<Item>, enabled: set<string>,
                  resultsById: map<string, ScoreResult>, keywordsOf: map<string, seq<string>>, config: Config)
    returns (results: seq<ScoreResult>)
    requires IsOrder(order, ids, items)
    requires forall item | item in items ::
               item.client in enabled && Defect(item).None? && Filed(resultsById, item, keywordsOf, config)
    ensures |results| == |ids|
    ensures forall i | 0 <= i < |ids| :: IsResultOf(results[i], ids[i], items, enabled, keywordsOf, config)
  {
    hide Defect, ResultOf, KeywordsOf;
    forall i | 0 <= i < |ids| ensures ids[i] in resultsById {
      assert Holds(items, ids[i], order[i]);
      assert Filed(resultsById, order[i], keywordsOf, config);
    }
    results := seq(|ids|, i requires 0 <= i < |ids| => resultsById[ids[i]]);
    forall i | 0 <= i < |ids| ensures IsResultOf(results[i], ids[i], items, enabled, keywordsOf, config) {
      assert Holds(items, ids[i], order[i]);
      assert Filed(resultsById, order[i], keywordsOf, config);
    }
  }

  lemma FetchedIsOrdered(item: Item, items: seq<Item>, ids: seq<string>, order: seq<Item>)
    requires item in items && IsOrder(order, ids, items) && item.id in ids
    requires DistinctItems(items)
    ensures item in order
  {
  }

}
