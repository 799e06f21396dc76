/** The table of discovery keywords and the operations on it. */
module KeywordTables {
  import opened Wrappers
  import opened Text
  import opened Keywords

  datatype Row = Row(client: string, keyword: string, alias: string)

  type Rows = map<string, Row>

  datatype Failure = Invalid(refusal: Refusal) | LimitExceeded | Duplicate | NotFound

  const LIMIT := 20

  function OfClient(rows: Rows, client: string): set<string> {
    set id | id in rows && rows[id].client == client
  }

  /** Some row of the client, other than the excepted one, holds the alias. */
  predicate Taken(rows: Rows, client: string, alias: string, except: Option<string>) {
    exists id | id in rows :: rows[id].client == client && rows[id].alias == alias && Some(id) != except
  }

  // ----- the law of the table

  /** The alias is the duplicate key of the keyword. */
  predicate Fits(row: Row) {
    row.alias == DuplicateKey(row.keyword)
  }

  ghost predicate AliasesDiffer(rows: Rows) {
    forall i, j | i in rows && j in rows && i != j && rows[i].client == rows[j].client :: rows[i].alias != rows[j].alias
  }

  ghost predicate WithinLimit(rows: Rows) {
    forall client :: |OfClient(rows, client)| <= LIMIT
  }

  ghost predicate Lawful(rows: Rows) {
    (forall id | id in rows :: Fits(rows[id])) && AliasesDiffer(rows) && WithinLimit(rows)
  }

  lemma AliasIsTokens(row: Row)
    requires Fits(row)
    ensures row.alias == Join(Tokens(row.keyword), " ") && Tokens(row.alias) == Tokens(row.keyword)
  {
    hide Tokens, Join, DuplicateKey, IsSqueezed, IsTrimmed;
    KeyIsJoin(row.keyword);
  }

  /** A lawful table holds no two keywords of a client with the same words, and at most twenty of each client. */
  lemma LawfulMeans(rows: Rows)
    ensures Lawful(rows) ==>
              && (forall i, j | i in rows && j in rows && i != j && rows[i].client == rows[j].client ::
                    Tokens(rows[i].keyword) != Tokens(rows[j].keyword))
              && (forall client :: |OfClient(rows, client)| <= 20)
  {
    hide Tokens, Join, Fits, OfClient;
    if Lawful(rows) {
      forall i, j | i in rows && j in rows && i != j && rows[i].client == rows[j].client
        ensures Tokens(rows[i].keyword) != Tokens(rows[j].keyword)
      {
        AliasIsTokens(rows[i]);
        AliasIsTokens(rows[j]);
      }
    }
  }

  lemma SetKeepsAliases(rows: Rows, id: string, row: Row)
    requires AliasesDiffer(rows) && !Taken(rows, row.client, row.alias, Some(id))
    ensures AliasesDiffer(rows[id := row])
  {
  }

  lemma OfClientInsert(rows: Rows, id: string, row: Row, client: string)
    requires id !in rows
    ensures OfClient(rows[id := row], client) == OfClient(rows, client) + if client == row.client then {id} else {}
    ensures id !in OfClient(rows, client)
  {
  }

  lemma InsertKeepsLimit(rows: Rows, id: string, row: Row)
    requires WithinLimit(rows) && id !in rows && |OfClient(rows, row.client)| < LIMIT
    ensures WithinLimit(rows[id := row])
  {
    hide OfClient;
    var after := rows[id := row];
    forall c ensures |OfClient(after, c)| <= LIMIT {
      OfClientInsert(rows, id, row, c);
    }
  }

  lemma ReplaceKeepsLimit(rows: Rows, id: string, row: Row)
    requires WithinLimit(rows) && id in rows && row.client == rows[id].client
    ensures WithinLimit(rows[id := row])
  {
    var after := rows[id := row];
    forall c ensures |OfClient(after, c)| <= LIMIT {
      assert OfClient(after, c) == OfClient(rows, c);
    }
  }

  lemma InsertIsLawful(rows: Rows, id: string, row: Row)
    requires Lawful(rows) && id !in rows && Fits(row)
    requires |OfClient(rows, row.client)| < LIMIT && !Taken(rows, row.client, row.alias, None)
    ensures Lawful(rows[id := row])
  {
    hide Fits, AliasesDiffer, WithinLimit, OfClient;
    SetKeepsAliases(rows, id, row);
    InsertKeepsLimit(rows, id, row);
  }

  lemma ReplaceIsLawful(rows: Rows, id: string, row: Row)
    requires id in rows && row.client == rows[id].client
    ensures Lawful(rows) && Fits(row) && !Taken(rows, row.client, row.alias, Some(id)) ==> Lawful(rows[id := row])
  {
    hide Fits, AliasesDiffer, WithinLimit, Taken;
    if Lawful(rows) && Fits(row) && !Taken(rows, row.client, row.alias, Some(id)) {
      SetKeepsAliases(rows, id, row);
      ReplaceKeepsLimit(rows, id, row);
    }
  }

  lemma RemoveIsLawful(rows: Rows, id: string)
    requires Lawful(rows)
    ensures Lawful(rows - {id})
  {
    hide Fits;
    var after := rows - {id};
    forall c ensures |OfClient(after, c)| <= LIMIT {
      assert OfClient(after, c) == OfClient(rows, c) - {id};
    }
  }

  function RowFor(client: string, raw: string): (row: Row)
    requires Normalize(raw).Ok?
    ensures row.client == client && Fits(row)
  {
    NormalizeOk(raw);
    Row(client, Normalize(raw).value.canonical, Normalize(raw).value.duplicateKey)
  }

  // ----- requests

  /** fresh ids come from a generator of unique ids. */
  datatype Request =
    | Create(client: string, raw: string, freshId: string)
    | Update(client: string, id: string, raw: string)
    | Delete(client: string, id: string)

  predicate Admissible(rows: Rows, q: Request) {
    q.Create? ==> q.freshId !in rows
  }

  predicate Owned(rows: Rows, client: string, id: string) {
    id in rows && rows[id].client == client
  }

  function Outcome(rows: Rows, q: Request): Option<Failure> {
    match q
    case Create(client, raw, _) =>
      var n := Normalize(raw);
      if n.Err? then Some(Invalid(n.error))
      else if |OfClient(rows, client)| >= LIMIT then Some(LimitExceeded)
      else if Taken(rows, client, n.value.duplicateKey, None) then Some(Duplicate)
      else None
    case Update(client, id, raw) =>
      var n := Normalize(raw);
      if n.Err? then Some(Invalid(n.error))
      else if !Owned(rows, client, id) then Some(NotFound)
      else if Taken(rows, client, n.value.duplicateKey, Some(id)) then Some(Duplicate)
      else None
    case Delete(client, id) => if Owned(rows, client, id) then None else Some(NotFound)
  }

  function After(rows: Rows, q: Request): Rows {
    if Outcome(rows, q).Some? then rows
    else
      match q
      case Create(client, raw, id) => rows[id := RowFor(client, raw)]
      case Update(client, id, raw) => rows[id := RowFor(client, raw)]
      case Delete(_, id) => rows - {id}
  }

  lemma AfterIsLawful(rows: Rows, q: Request)
    requires Lawful(rows) && Admissible(rows, q)
    ensures Lawful(After(rows, q))
  {
    hide Normalize, Lawful, OfClient, Taken, Fits;
    if Outcome(rows, q).None? {
      match q
      case Create(client, raw, id) => InsertIsLawful(rows, id, RowFor(client, raw));
      case Update(client, id, raw) => ReplaceIsLawful(rows, id, RowFor(client, raw));
      case Delete(_, id) => RemoveIsLawful(rows, id);
    }
  }

  ghost predicate AdmissibleRun(rows: Rows, requests: seq<Request>)
    decreases requests
  {
    requests == [] || (Admissible(rows, requests[0]) && AdmissibleRun(After(rows, requests[0]), requests[1..]))
  }

  function AfterAll(rows: Rows, requests: seq<Request>): Rows
    decreases requests
  {
    if requests == [] then rows else AfterAll(After(rows, requests[0]), requests[1..])
  }

  /** Every table that requests can lead to is lawful. */
  lemma {:induction false} EveryTableIsLawful(rows: Rows, requests: seq<Request>)
    requires Lawful(rows) && AdmissibleRun(rows, requests)
    ensures Lawful(AfterAll(rows, requests))
    decreases requests
  {
    if requests == [] {
    } else {
      hide Lawful, After, Admissible;
      AfterIsLawful(rows, requests[0]);
      EveryTableIsLawful(After(rows, requests[0]), requests[1..]);
    }
  }

  /** Some row of the client, other than the excepted one, has these words. */
  ghost predicate WordsTaken(rows: Rows, client: string, words: seq<string>, except: Option<string>) {
    exists id | id in rows :: rows[id].client == client && Some(id) != except && Tokens(rows[id].keyword) == words
  }

  lemma TakenIffWordsTaken(rows: Rows, client: string, raw: string, except: Option<string>)
    requires Lawful(rows) && Normalize(raw).Ok?
    ensures Taken(rows, client, Normalize(raw).value.duplicateKey, except)
            <==> WordsTaken(rows, client, LowerAll(Tokens(raw)), except)
  {
    hide Normalize, Tokens, LowerAll, Join, Fits, OfClient, WithinLimit, AliasesDiffer;
    var key := Normalize(raw).value.duplicateKey;
    KeyOfRaw(raw);
    forall id | id in rows
      ensures rows[id].alias == key <==> Tokens(rows[id].keyword) == LowerAll(Tokens(raw))
    {
      AliasIsTokens(rows[id]);
    }
  }

  /**
    A new keyword is refused when it cannot be normalized, then when the client has twenty, and then
    as a duplicate exactly when the client already has one with the same words up to case, whatever
    white space and hyphens either was typed with.
   */
  lemma CreateRefusedIff(rows: Rows, client: string, raw: string, freshId: string)
    requires Lawful(rows)
    ensures var outcome, n := Outcome(rows, Create(client, raw, freshId)), Normalize(raw);
            var full := |set id | id in rows && rows[id].client == client| >= 20;
            && (n.Err? <==> outcome.Some? && outcome.value.Invalid?) && (n.Err? ==> outcome.value.refusal == n.error)
            && (outcome == Some(LimitExceeded) <==> n.Ok? && full)
            && (outcome == Some(Duplicate) <==>
                  n.Ok? && !full && WordsTaken(rows, client, LowerAll(Tokens(raw)), None))
            && outcome != Some(NotFound)
  {
    hide Normalize, WordsTaken, Taken, Lawful, LowerAll, Tokens;
    if Normalize(raw).Ok? { TakenIffWordsTaken(rows, client, raw, None); }
  }

  /**
    A change is refused when it cannot be normalized, then when the client has no such row, and then as
    a duplicate exactly when another row of the client has the same words up to case; the row itself may
    keep its words.
   */
  lemma UpdateRefusedIff(rows: Rows, client: string, id: string, raw: string)
    requires Lawful(rows)
    ensures var outcome, n := Outcome(rows, Update(client, id, raw)), Normalize(raw);
            var owned, words := id in rows && rows[id].client == client, LowerAll(Tokens(raw));
            && (n.Err? <==> outcome.Some? && outcome.value.Invalid?) && (n.Err? ==> outcome.value.refusal == n.error)
            && (outcome == Some(NotFound) <==> n.Ok? && !owned)
            && (outcome == Some(Duplicate) <==> n.Ok? && owned && WordsTaken(rows, client, words, Some(id)))
            && (n.Ok? && owned && Tokens(rows[id].keyword) == words ==> outcome == None)
  {
    LawfulMeans(rows);
    hide Normalize, Taken, Lawful, LowerAll, Tokens;
    if Normalize(raw).Ok? { TakenIffWordsTaken(rows, client, raw, Some(id)); }
  }

  /** The row holds the keyword in lower case, and with its words. */
  ghost predicate Stores(row: Row, client: string, raw: string) {
    && row.client == client && Normalize(raw).Ok? && row.keyword == Lower(Normalize(raw).value.cleaned)
    && Tokens(row.keyword) == LowerAll(Tokens(raw)) && Fits(row)
  }

  lemma RowForStores(client: string, raw: string)
    requires Normalize(raw).Ok?
    ensures Stores(RowFor(client, raw), client, raw)
  {
    hide Tokens, LowerAll, Fits;
    CanonicalTokens(raw);
  }

  /** What a request that is accepted leaves in the table: its own row, and every other row as it was. */
  lemma AcceptedIsStored(rows: Rows, q: Request)
    requires Outcome(rows, q).None?
    ensures var after := After(rows, q);
            match q
            case Create(client, raw, id) => id in after && after - {id} == rows - {id} && Stores(after[id], client, raw)
            case Update(client, id, raw) => id in after && after - {id} == rows - {id} && Stores(after[id], client, raw)
            case Delete(_, id) => after == rows - {id}
  {
    hide Normalize, Stores, Taken, OfClient;
    if !q.Delete? {
      RowForStores(q.client, q.raw);
      OneRowPut(rows, if q.Create? then q.freshId else q.id, RowFor(q.client, q.raw));
      hide RowFor;
    }
  }

  lemma OneRowPut(rows: Rows, id: string, row: Row)
    ensures var after := rows[id := row]; id in after && after[id] == row && after - {id} == rows - {id}
  {
  }

  lemma KeyOfRaw(raw: string)
    requires Normalize(raw).Ok?
    ensures Normalize(raw).value.duplicateKey == Join(LowerAll(Tokens(raw)), " ")
    ensures Tokens(Normalize(raw).value.duplicateKey) == LowerAll(Tokens(raw))
  {
    hide *;
    NormalizeOk(raw);
    CanonicalTokens(raw);
    KeyIsJoin(Normalize(raw).value.canonical);
  }

  // ----- the repository

  class KeywordRepository {
    var rows: Rows

    constructor ()
      ensures rows == map[] && Lawful(rows)
    {
      rows := map[];
      new;
      assert forall c :: OfClient(rows, c) == {};
    }

    method CreateKeyword(client: string, raw: string, freshId: string) returns (failure: Option<Failure>)
      requires Lawful(rows) && freshId !in rows
      modifies this
      ensures failure == Outcome(old(rows), Create(client, raw, freshId))
      ensures rows == After(old(rows), Create(client, raw, freshId)) && Lawful(rows)
    {
      hide Normalize, Lawful;
      AfterIsLawful(rows, Create(client, raw, freshId));
      var normalized := Normalize(raw);
      if normalized.Err? {
        return Some(Invalid(normalized.error));
      }
      if |OfClient(rows, client)| >= LIMIT {
        return Some(LimitExceeded);
      }
      if Taken(rows, client, normalized.value.duplicateKey, None) {
        return Some(Duplicate);
      }
      rows := rows[freshId := Row(client, normalized.value.canonical, normalized.value.duplicateKey)];
      return None;
    }

    /** A keyword that is already stored as entered is left alone. */
    method UpdateKeyword(client: string, id: string, raw: string) returns (failure: Option<Failure>)
      requires Lawful(rows)
      modifies this
      ensures failure == Outcome(old(rows), Update(client, id, raw))
      ensures rows == After(old(rows), Update(client, id, raw)) && Lawful(rows)
    {
      hide Normalize, Taken, Fits, AliasesDiffer, WithinLimit;
      AfterIsLawful(rows, Update(client, id, raw));
      var normalized := Normalize(raw);
      if normalized.Err? {
        return Some(Invalid(normalized.error));
      }
      if !Owned(rows, client, id) {
        return Some(NotFound);
      }
      if Taken(rows, client, normalized.value.duplicateKey, Some(id)) {
        return Some(Duplicate);
      }
      if rows[id].keyword == normalized.value.canonical {
        SameKeywordSameRow(rows[id], raw);
        SameRowPut(rows, id);
        return None;
      }
      rows := rows[id := Row(client, normalized.value.canonical, normalized.value.duplicateKey)];
      return None;
    }

    method DeleteKeyword(client: string, id: string) returns (deleted: Option<string>)
      requires Lawful(rows)
      modifies this
      ensures rows == After(old(rows), Delete(client, id)) && Lawful(rows)
      ensures deleted == if id in old(rows) && old(rows)[id].client == client then Some(id) else None
      ensures rows == if deleted.Some? then old(rows) - {id} else old(rows)
    {
      hide Lawful;
      AfterIsLawful(rows, Delete(client, id));
      if !Owned(rows, client, id) {
        return None;
      }
      rows := rows - {id};
      return Some(id);
    }
  }

  lemma SameRowPut(rows: Rows, id: string)
    requires id in rows
    ensures rows[id := rows[id]] == rows
  {
  }

  /** The stored keyword determines the alias. */
  lemma SameKeywordSameRow(row: Row, raw: string)
    requires Fits(row) && Normalize(raw).Ok? && row.keyword == Normalize(raw).value.canonical
    ensures row == Row(row.client, Normalize(raw).value.canonical, Normalize(raw).value.duplicateKey)
  {
    NormalizeOk(raw);
    hide Normalize, DuplicateKey, Trim, Squeeze;
  }
}
