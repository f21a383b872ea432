/** The audit export: pages read with a keyset cursor, each from the table as it is at that moment. */
module AuditExport {
  import opened Text

  /** (timestamp, id): the columns the export is ordered by. */
  datatype Key = Key(timestamp: int, id: string)

  datatype Row = Row(key: Key, identity: string, columns: map<string, string>, domain: string, httpMethod: string,
                     status: Option<string>)

  // ---------------------------------------------------------------- filters

  /** Query parameters; an absent or empty one does not filter. `since` and `until` are parsed timestamps. */
  datatype Params = Params(simple: map<string, string>, domain: string, httpMethod: string, status: string,
                           since: Option<int>, until: Option<int>)

  /** One `filter` or `exclude` clause. A query set is the conjunction of its clauses. */
  datatype Clause =
    | NotUser
    | ColumnIs(name: string, value: string)
    | DomainHas(part: string)
    | MethodIs(httpMethod: string)
    | StatusIs(status: string)
    | From(since: int)
    | To(until: int)

  type Query = seq<Clause>

  const SIMPLE := ["project_id", "agent_id", "agent_token_id", "identity_level", "credential_ref", "environment",
                   "resolution_path", "source"]

  /** A NULL column is absent and equals nothing. */
  function Column(row: Row, name: string): Option<string> {
    if name == "identity_level" then Some(row.identity)
    else if name in row.columns then Some(row.columns[name]) else None
  }

  predicate Holds(c: Clause, row: Row) {
    match c
    case NotUser => row.identity != "user"
    case ColumnIs(name, value) => Column(row, name) == Some(value)
    // `icontains`, on ASCII text
    case DomainHas(part) => Contains(Lower(row.domain), Lower(part))
    case MethodIs(m) => row.httpMethod == m
    case StatusIs(s) => row.status == Some(s)
    case From(t) => t <= row.key.timestamp
    case To(t) => row.key.timestamp <= t
  }

  predicate Selects(query: Query, row: Row) {
    forall i :: 0 <= i < |query| ==> Holds(query[i], row)
  }

  predicate Wanted(params: Params, name: string, row: Row) {
    name in params.simple && params.simple[name] != "" ==> Column(row, name) == Some(params.simple[name])
  }

  /** What the caller asked for, parameter by parameter. */
  predicate Asked(params: Params, row: Row) {
    && (forall i :: 0 <= i < |SIMPLE| ==> Wanted(params, SIMPLE[i], row))
    && (params.domain != "" ==> Contains(Lower(row.domain), Lower(params.domain)))
    && (params.httpMethod != "" ==> row.httpMethod == Upper(params.httpMethod))
    && (params.status != "" ==> row.status == Some(params.status))
    && (params.since.Some? ==> params.since.value <= row.key.timestamp)
    && (params.until.Some? ==> row.key.timestamp <= params.until.value)
  }

  lemma SelectsMore(query: Query, c: Clause)
    ensures forall row :: Selects(query + [c], row) <==> Selects(query, row) && Holds(c, row)
  {
    var more := query + [c];
    forall row ensures Selects(more, row) <==> Selects(query, row) && Holds(c, row) {
      if Selects(more, row) {
        assert Holds(more[|query|], row);
        forall i | 0 <= i < |query| ensures Holds(query[i], row) {
          assert Holds(more[i], row);
        }
      }
    }
  }

  method AddIf(query: Query, asked: bool, c: Clause) returns (more: Query)
    ensures forall row :: Selects(more, row) <==> Selects(query, row) && (asked ==> Holds(c, row))
  {
    SelectsMore(query, c);
    more := if asked then query + [c] else query;
  }

  /** The narrowed query set holds the rows of the given one that meet every parameter. */
  method ApplyFilters(query: Query, params: Params) returns (more: Query)
    ensures forall row :: Selects(more, row) <==> Selects(query, row) && Asked(params, row)
  {
    more := query;
    for i := 0 to |SIMPLE|
      invariant forall row :: Selects(more, row) <==>
                  Selects(query, row) && forall j :: 0 <= j < i ==> Wanted(params, SIMPLE[j], row)
    {
      var value := if SIMPLE[i] in params.simple then params.simple[SIMPLE[i]] else "";
      more := AddIf(more, value != "", ColumnIs(SIMPLE[i], value));
    }
    more := AddIf(more, params.domain != "", DomainHas(params.domain));
    more := AddIf(more, params.httpMethod != "", MethodIs(Upper(params.httpMethod)));
    more := AddIf(more, params.status != "", StatusIs(params.status));
    more := AddIf(more, params.since.Some?, From(if params.since.Some? then params.since.value else 0));
    more := AddIf(more, params.until.Some?, To(if params.until.Some? then params.until.value else 0));
  }

  /** The row holds this value in the column of this name; an absent column holds none. */
  predicate ColumnHolds(row: Row, name: string, value: string) {
    if name == "identity_level" then row.identity == value else name in row.columns && row.columns[name] == value
  }

  /** The parameters by their names: eight exact columns, a part of the domain in whatever case, the method in capitals,
      the status, and both ends of the time span included; empty and absent ones ask for nothing. */
  lemma AskedExactly(params: Params, row: Row)
    ensures Asked(params, row) <==>
            && (forall name :: name in params.simple && params.simple[name] != "" &&
                  name in ["project_id", "agent_id", "agent_token_id", "identity_level", "credential_ref",
                           "environment", "resolution_path", "source"]
                  ==> ColumnHolds(row, name, params.simple[name]))
            && (params.domain != "" ==> exists i: nat :: OccursAt(Lower(row.domain), Lower(params.domain), i))
            && (params.httpMethod != "" ==> row.httpMethod == Upper(params.httpMethod))
            && (params.status != "" ==> row.status == Some(params.status))
            && (params.since.Some? ==> row.key.timestamp >= params.since.value)
            && (params.until.Some? ==> row.key.timestamp <= params.until.value)
  {
    ContainsExactly(Lower(row.domain), Lower(params.domain));
    if Asked(params, row) {
      forall name | name in SIMPLE ensures Wanted(params, name, row) {
        var i :| 0 <= i < |SIMPLE| && SIMPLE[i] == name;
      }
    }
  }

  // ---------------------------------------------------------------- descending order

  /** `order_by("-timestamp", "-id")`. */
  predicate Newer(a: Key, b: Key) {
    a.timestamp > b.timestamp || (a.timestamp == b.timestamp && Less(b.id, a.id))
  }

  lemma NewerTotal(a: Key, b: Key)
    ensures Newer(a, b) || a == b || Newer(b, a)
  {
    LessTotal(a.id, b.id);
  }

  lemma NewerTransitive(a: Key, b: Key, c: Key)
    requires Newer(a, b) && Newer(b, c)
    ensures Newer(a, c)
  {
    if a.timestamp == b.timestamp == c.timestamp {
      LessTransitive(c.id, b.id, a.id);
    }
  }

  lemma NewerIrreflexive(a: Key)
    ensures !Newer(a, a)
  {
    LessIrreflexive(a.id);
  }

  ghost predicate Descending(rows: seq<Row>) {
    forall i, j :: 0 <= i < j < |rows| ==> Newer(rows[i].key, rows[j].key)
  }

  /** The primary key: no two rows of a table share an id. */
  ghost predicate DistinctIds(rows: seq<Row>) {
    forall i, j :: 0 <= i < j < |rows| ==> rows[i].key.id != rows[j].key.id
  }

  function InsertRow(row: Row, rows: seq<Row>): (r: seq<Row>)
    ensures forall x :: x in r <==> x == row || x in rows
  {
    if rows == [] || Newer(row.key, rows[0].key) then [row] + rows
    else [rows[0]] + InsertRow(row, rows[1..])
  }

  function Sort(rows: seq<Row>): (r: seq<Row>)
    ensures forall x :: x in r <==> x in rows
  {
    if rows == [] then [] else InsertRow(rows[0], Sort(rows[1..]))
  }

  lemma {:induction false} InsertDescending(row: Row, rows: seq<Row>)
    requires Descending(rows) && forall x :: x in rows ==> x.key != row.key
    ensures Descending(InsertRow(row, rows))
  {
    if rows == [] {
    } else if Newer(row.key, rows[0].key) {
      forall j | 0 <= j < |rows| ensures Newer(row.key, rows[j].key) {
        if j > 0 { NewerTransitive(row.key, rows[0].key, rows[j].key); }
      }
    } else {
      NewerTotal(row.key, rows[0].key);
      InsertDescending(row, rows[1..]);
      var rest := InsertRow(row, rows[1..]);
      forall j | 0 <= j < |rest| ensures Newer(rows[0].key, rest[j].key) {
        assert rest[j] in rest;
      }
    }
  }

  lemma {:induction false} SortDescending(rows: seq<Row>)
    requires DistinctIds(rows)
    ensures Descending(Sort(rows))
  {
    if rows != [] {
      SortDescending(rows[1..]);
      InsertDescending(rows[0], Sort(rows[1..]));
    }
  }

  /** The rows of a table that a query selects behind the cursor. */
  function Rest(table: seq<Row>, query: Query, cursor: Option<Key>): (r: seq<Row>)
    ensures forall row :: row in r <==> row in table && Selects(query, row) && Behind(cursor, row.key)
  {
    if table == [] then []
    else
      var others := Rest(table[1..], query, cursor);
      if Selects(query, table[0]) && Behind(cursor, table[0].key) then [table[0]] + others else others
  }

  lemma {:induction false} RestDistinct(table: seq<Row>, query: Query, cursor: Option<Key>)
    requires DistinctIds(table)
    ensures DistinctIds(Rest(table, query, cursor))
  {
    if table != [] {
      RestDistinct(table[1..], query, cursor);
      forall row | row in Rest(table[1..], query, cursor) ensures row.key.id != table[0].key.id {
        var i :| 0 <= i < |table[1..]| && table[1..][i] == row;
        assert table[i + 1] == row;
      }
    }
  }

  // ---------------------------------------------------------------- one page

  /** Behind the cursor: `timestamp < ts or (timestamp = ts and id < cid)`. */
  predicate Behind(cursor: Option<Key>, key: Key) {
    cursor.Some? ==> Newer(cursor.value, key)
  }

  function Take(rows: seq<Row>, n: nat): seq<Row> {
    if |rows| <= n then rows else rows[..n]
  }

  function Page(table: seq<Row>, query: Query, cursor: Option<Key>, size: nat): seq<Row> {
    Take(Sort(Rest(table, query, cursor)), size)
  }

  /** What one query yields: matching rows behind the cursor, newest first. */
  lemma PageSound(table: seq<Row>, query: Query, cursor: Option<Key>, size: nat)
    requires DistinctIds(table)
    ensures var page := Page(table, query, cursor, size);
            && Descending(page) && |page| <= size
            && (forall i :: 0 <= i < |page| ==>
                  page[i] in table && Selects(query, page[i]) && Behind(cursor, page[i].key))
  {
    RestDistinct(table, query, cursor);
    SortDescending(Rest(table, query, cursor));
    var sorted := Sort(Rest(table, query, cursor));
    forall i | 0 <= i < |sorted|
      ensures sorted[i] in table && Selects(query, sorted[i]) && Behind(cursor, sorted[i].key)
    {
      assert sorted[i] in sorted;
    }
  }

  ghost predicate Emitted(out: seq<Row>, key: Key) {
    exists i :: 0 <= i < |out| && out[i].key == key
  }

  /** The table holds a matching row with this key. */
  ghost predicate Shows(table: seq<Row>, query: Query, key: Key) {
    exists row :: row in table && Selects(query, row) && row.key == key
  }

  /** A matching row behind the cursor is on the page or older than a full one. */
  lemma PageComplete(table: seq<Row>, query: Query, cursor: Option<Key>, size: nat, key: Key)
    requires DistinctIds(table) && size > 0 && Shows(table, query, key) && Behind(cursor, key)
    ensures var page := Page(table, query, cursor, size);
            Emitted(page, key) || (|page| == size && Newer(page[size - 1].key, key))
  {
    RestDistinct(table, query, cursor);
    SortDescending(Rest(table, query, cursor));
    var row :| row in table && Selects(query, row) && row.key == key;
    var sorted, page := Sort(Rest(table, query, cursor)), Page(table, query, cursor, size);
    assert row in sorted;
    var i :| 0 <= i < |sorted| && sorted[i] == row;
    if i < size {
      assert page[i].key == key;
    }
  }

  // ---------------------------------------------------------------- the whole export

  /** A matching row with this key is there in every table read from query `q` on. */
  ghost predicate Stays(tables: nat -> seq<Row>, q: nat, queries: nat, query: Query, key: Key) {
    forall p: nat :: q <= p < queries ==> Shows(tables(p), query, key)
  }

  ghost predicate OlderThanAll(out: seq<Row>, key: Key) {
    forall i :: 0 <= i < |out| ==> Newer(out[i].key, key)
  }

  /** How many rows are out before query `q`: every page but the last is full. */
  function Mark(q: nat, size: nat): nat { q * size }

  /** The rows out before query `q`. */
  function Before(out: seq<Row>, q: nat, size: nat): seq<Row> {
    Take(out, Mark(q, size))
  }

  /** The row at position `i` was there when the query that yielded its page was made. */
  ghost predicate ReadAt(tables: nat -> seq<Row>, queries: nat, size: nat, i: nat, row: Row) {
    exists q: nat :: q < queries && Mark(q, size) <= i < Mark(q, size) + size && row in tables(q)
  }

  ghost predicate Sourced(tables: nat -> seq<Row>, queries: nat, query: Query, size: nat, out: seq<Row>) {
    forall i :: 0 <= i < |out| ==> Selects(query, out[i]) && ReadAt(tables, queries, size, i, out[i])
  }

  /** What an export that read `tables(0)`, ..., `tables(queries - 1)` owes its caller: newest first without repetition,
      nothing but rows that matched when their page was read, and at most `cap`. A row that was there from some query on
      and then older than all that was out is missing only if the cap was reached before its turn. */
  ghost predicate Export(tables: nat -> seq<Row>, queries: nat, query: Query, size: nat, cap: nat, out: seq<Row>) {
    && Descending(out) && |out| <= cap && (queries == 0 ==> |out| == cap)
    && Sourced(tables, queries, query, size, out)
    && (forall q: nat, key :: q < queries && Stays(tables, q, queries, query, key)
                              && OlderThanAll(Before(out, q, size), key)
          ==> Emitted(out, key) || (|out| == cap && OlderThanAll(out, key)))
  }

  function Cursor(out: seq<Row>): Option<Key> {
    if out == [] then None else Some(out[|out| - 1].key)
  }

  /** The loop's promise between pages. */
  ghost predicate Progress(tables: nat -> seq<Row>, queries: nat, query: Query, size: nat, out: seq<Row>) {
    && Descending(out) && |out| == Mark(queries, size)
    && Sourced(tables, queries, query, size, out)
    && (forall q: nat, key :: q <= queries && Stays(tables, q, queries, query, key)
                              && OlderThanAll(Before(out, q, size), key)
          ==> Emitted(out, key) || OlderThanAll(out, key))
  }

  lemma MarksGrow(p: nat, q: nat, size: nat)
    requires p <= q
    ensures Mark(p, size) <= Mark(q, size) && Mark(q + 1, size) == Mark(q, size) + size
  {
  }

  lemma BehindIsOlder(out: seq<Row>, key: Key)
    requires Descending(out)
    ensures Behind(Cursor(out), key) <==> OlderThanAll(out, key)
  {
    if Behind(Cursor(out), key) {
      forall i | 0 <= i < |out| ensures Newer(out[i].key, key) {
        if i < |out| - 1 { NewerTransitive(out[i].key, out[|out| - 1].key, key); }
      }
    }
  }

  /** Appending rows of a page read behind the cursor keeps the order and the sources. */
  lemma AppendSound(tables: nat -> seq<Row>, q: nat, query: Query, out: seq<Row>, page: seq<Row>, size: nat, n: nat)
    requires Progress(tables, q, query, size, out) && DistinctIds(tables(q))
    requires page == Page(tables(q), query, Cursor(out), size) && n <= |page|
    ensures Descending(out + page[..n]) && Sourced(tables, q + 1, query, size, out + page[..n])
  {
    PageSound(tables(q), query, Cursor(out), size);
    forall i | 0 <= i < n ensures OlderThanAll(out, page[i].key) {
      BehindIsOlder(out, page[i].key);
    }
    var more := out + page[..n];
    forall i | 0 <= i < |more| ensures ReadAt(tables, q + 1, size, i, more[i]) {
      if i < |out| {
        assert ReadAt(tables, q, size, i, out[i]);
      } else {
        assert more[i] == page[i - |out|];
        assert Mark(q, size) <= i < Mark(q, size) + size;
      }
    }
  }

  lemma BeforeStays(out: seq<Row>, more: seq<Row>, q: nat, queries: nat, size: nat)
    requires q <= queries && |out| == Mark(queries, size)
    ensures Before(out + more, q, size) == Before(out, q, size)
  {
    MarksGrow(q, queries, size);
  }

  /** A matching row behind the cursor, against the part of the page that is written. */
  lemma PagePartComplete(table: seq<Row>, query: Query, cursor: Option<Key>, size: nat, n: nat, key: Key)
    requires DistinctIds(table) && size > 0 && Shows(table, query, key) && Behind(cursor, key)
    requires n <= |Page(table, query, cursor, size)|
    ensures var page := Page(table, query, cursor, size);
            Emitted(page[..n], key) || (OlderThanAll(page[..n], key) && (n < |page| || |page| == size))
  {
    PageSound(table, query, cursor, size);
    PageComplete(table, query, cursor, size, key);
    PageSplit(Page(table, query, cursor, size), n, key);
  }

  /** A row that stays is among the rows written so far, or older than all of them, and in the latter case the page was
      full or not written to its end. */
  lemma AppendComplete(tables: nat -> seq<Row>, q: nat, query: Query, out: seq<Row>, page: seq<Row>, size: nat, n: nat,
                       first: nat, key: Key)
    requires Progress(tables, q, query, size, out) && DistinctIds(tables(q)) && size > 0
    requires page == Page(tables(q), query, Cursor(out), size) && n <= |page|
    requires first <= q && Stays(tables, first, q + 1, query, key)
    requires OlderThanAll(Before(out + page[..n], first, size), key)
    ensures Emitted(out + page[..n], key)
            || (OlderThanAll(out + page[..n], key) && (n < |page| || |page| == size))
  {
    BeforeStays(out, page[..n], first, q, size);
    assert Stays(tables, first, q, query, key);
    EmittedEither(out, page[..n], key);
    if !Emitted(out, key) {
      BehindIsOlder(out, key);
      PagePartComplete(tables(q), query, Cursor(out), size, n, key);
    }
  }

  lemma EmittedEither(a: seq<Row>, b: seq<Row>, key: Key)
    ensures Emitted(a, key) || Emitted(b, key) ==> Emitted(a + b, key)
    ensures OlderThanAll(a, key) && OlderThanAll(b, key) ==> OlderThanAll(a + b, key)
  {
    if i :| 0 <= i < |a| && a[i].key == key {
      assert (a + b)[i].key == key;
    } else if i :| 0 <= i < |b| && b[i].key == key {
      assert (a + b)[|a| + i].key == key;
    }
  }

  lemma PageSplit(page: seq<Row>, n: nat, key: Key)
    requires Descending(page) && n <= |page|
    requires Emitted(page, key) || (page != [] && Newer(page[|page| - 1].key, key))
    ensures Emitted(page[..n], key) || (OlderThanAll(page[..n], key) && (n < |page| || !Emitted(page, key)))
  {
    if i :| 0 <= i < |page| && page[i].key == key {
      assert i < n ==> page[..n][i].key == key;
    } else {
      BehindIsOlder(page, key);
    }
  }

  /** One page written up to row `n`: the export is complete when the page was short or the cap is reached, and
      otherwise can go on. */
  lemma PageWritten(tables: nat -> seq<Row>, q: nat, query: Query, cap: nat, out: seq<Row>, page: seq<Row>, size: nat,
                    n: nat)
    requires Progress(tables, q, query, size, out) && DistinctIds(tables(q)) && size > 0
    requires page == Page(tables(q), query, Cursor(out), size) && n <= |page| && |out| + n <= cap
    requires n == |page| || |out| + n == cap
    ensures var more := out + page[..n];
            if |page| < size || |more| == cap then Export(tables, q + 1, query, size, cap, more)
            else Progress(tables, q + 1, query, size, more)
  {
    var more := out + page[..n];
    AppendSound(tables, q, query, out, page, size, n);
    PageSound(tables(q), query, Cursor(out), size);
    MarksGrow(q, q, size);
    forall first: nat, key | first <= q && Stays(tables, first, q + 1, query, key)
                             && OlderThanAll(Before(more, first, size), key)
      ensures Emitted(more, key) || (OlderThanAll(more, key) && (n < |page| || |page| == size))
    {
      AppendComplete(tables, q, query, out, page, size, n, first, key);
    }
  }

  /** No row behind the cursor: the export is complete. */
  lemma NothingLeft(tables: nat -> seq<Row>, q: nat, query: Query, size: nat, cap: nat, out: seq<Row>)
    requires Progress(tables, q, query, size, out) && DistinctIds(tables(q)) && size > 0 && |out| <= cap
    requires Page(tables(q), query, Cursor(out), size) == []
    ensures Export(tables, q + 1, query, size, cap, out)
  {
    PageWritten(tables, q, query, cap, out, [], size, 0);
    assert out + [] == out;
  }

  lemma CompleteAtCap(tables: nat -> seq<Row>, queries: nat, query: Query, size: nat, cap: nat, out: seq<Row>)
    requires Progress(tables, queries, query, size, out) && |out| == cap
    ensures Export(tables, queries, query, size, cap, out)
  {
  }

  /** The inner loop: the page's rows, as far as the cap allows. */
  method WritePage(out: seq<Row>, page: seq<Row>, maxRows: nat) returns (more: seq<Row>, i: nat)
    requires |out| < maxRows
    ensures i <= |page| && more == out + page[..i] && |more| <= maxRows
    ensures i == |page| || |more| == maxRows
  {
    more, i := out, 0;
    while i < |page| && |more| < maxRows
      invariant i <= |page| && more == out + page[..i] && |more| <= maxRows
    {
      more := more + [page[i]];
      i := i + 1;
    }
  }

  lemma NothingRead(tables: nat -> seq<Row>, query: Query, size: nat)
    ensures Progress(tables, 0, query, size, [])
  {
  }

  /** One turn of the outer loop: a query, its rows, and whether to stop there. */
  method NextPage(tables: nat -> seq<Row>, q: nat, query: Query, pageSize: nat, maxRows: nat, out: seq<Row>,
                  cursor: Option<Key>)
    returns (more: seq<Row>, next: Option<Key>, done: bool)
    requires pageSize >= 1 && DistinctIds(tables(q))
    requires Progress(tables, q, query, pageSize, out) && cursor == Cursor(out) && |out| < maxRows
    ensures done ==> Export(tables, q + 1, query, pageSize, maxRows, more)
    ensures !done ==> Progress(tables, q + 1, query, pageSize, more) && next == Cursor(more)
    ensures !done ==> |out| < |more| < maxRows
  {
    var page := Page(tables(q), query, cursor, pageSize);
    if page == [] {
      NothingLeft(tables, q, query, pageSize, maxRows, out);
      return out, cursor, true;
    }
    var i;
    more, i := WritePage(out, page, maxRows);
    PageWritten(tables, q, query, maxRows, out, page, pageSize, i);
    done := |page| < pageSize || |more| >= maxRows;
    next := Some(page[|page| - 1].key);
  }

  method GenerateJsonl(tables: nat -> seq<Row>, query: Query, pageSize: nat, maxRows: nat)
    returns (out: seq<Row>, queries: nat)
    requires pageSize >= 1 && forall q: nat :: DistinctIds(tables(q))
    ensures Export(tables, queries, query, pageSize, maxRows, out)
  {
    out, queries := [], 0;
    var cursor: Option<Key> := None;
    NothingRead(tables, query, pageSize);
    while |out| < maxRows
      invariant |out| <= maxRows && cursor == Cursor(out)
      invariant Progress(tables, queries, query, pageSize, out)
      decreases maxRows - |out|
    {
      var done;
      out, cursor, done := NextPage(tables, queries, query, pageSize, maxRows, out, cursor);
      queries := queries + 1;
      if done { return; }
    }
    CompleteAtCap(tables, queries, query, pageSize, maxRows, out);
  }

  // ---------------------------------------------------------------- what follows from the contract alone

  /** Rows come newest first, and rows of one time by descending id. */
  lemma NewestFirst(tables: nat -> seq<Row>, queries: nat, query: Query, size: nat, cap: nat, out: seq<Row>, i: nat,
                    j: nat)
    requires Export(tables, queries, query, size, cap, out) && i < j < |out|
    ensures out[i].key.timestamp >= out[j].key.timestamp
    ensures out[i].key.timestamp == out[j].key.timestamp ==>
              exists k: nat :: FirstDifference(out[j].key.id, out[i].key.id, k)
  {
    LessExactly(out[j].key.id, out[i].key.id);
  }

  /** While a row keeps its timestamp no id is written twice, whatever else changes between pages. */
  lemma NoIdTwice(tables: nat -> seq<Row>, queries: nat, query: Query, size: nat, cap: nat, out: seq<Row>, i: nat,
                  j: nat)
    requires Export(tables, queries, query, size, cap, out) && i < j < |out|
    requires forall p: nat, q: nat, r, s :: r in tables(p) && s in tables(q) && r.key.id == s.key.id ==>
               r.key.timestamp == s.key.timestamp
    ensures out[i].key.id != out[j].key.id
  {
    assert ReadAt(tables, queries, size, i, out[i]) && ReadAt(tables, queries, size, j, out[j]);
    var p: nat :| p < queries && out[i] in tables(p);
    var q: nat :| q < queries && out[j] in tables(q);
    NewerIrreflexive(out[i].key);
  }

  /** On a table that does not change the export is sort and take: the first `cap` matching rows, newest first, for
      every page size. */
  lemma {:induction false} FixedTableExport(tables: nat -> seq<Row>, queries: nat, query: Query, size: nat,
                                            cap: nat, out: seq<Row>)
    requires Export(tables, queries, query, size, cap, out) && DistinctIds(tables(0))
    requires forall q: nat :: q < queries ==> tables(q) == tables(0)
    ensures out == Take(Sort(Rest(tables(0), query, None)), cap)
  {
    var table := tables(0);
    var sorted := Sort(Rest(table, query, None));
    RestDistinct(table, query, None);
    SortDescending(Rest(table, query, None));
    forall row | row in out ensures row in sorted {
      var i :| 0 <= i < |out| && out[i] == row;
      var q: nat :| q < queries && out[i] in tables(q);
    }
    if out != [] { SomethingRead(tables, queries, query, size, out); }
    if queries == 0 { return; }
    forall row | row in sorted ensures row in out || (|out| == cap && OlderThanAll(out, row.key)) {
      assert Shows(table, query, row.key);
      assert Stays(tables, 0, queries, query, row.key);
      assert Before(out, 0, size) == [];
      if j :| 0 <= j < |out| && out[j].key == row.key {
        assert out[j] in out;
        SameKeySameRow(sorted, out[j], row);
      }
    }
    DescendingPrefix(sorted, out, cap);
  }

  lemma SomethingRead(tables: nat -> seq<Row>, queries: nat, query: Query, size: nat, out: seq<Row>)
    requires Sourced(tables, queries, query, size, out) && out != []
    ensures queries > 0
  {
    assert ReadAt(tables, queries, size, 0, out[0]);
  }

  lemma SameKeySameRow(sorted: seq<Row>, a: Row, b: Row)
    requires Descending(sorted) && a in sorted && b in sorted && a.key == b.key
    ensures a == b
  {
    var i :| 0 <= i < |sorted| && sorted[i] == a;
    var j :| 0 <= j < |sorted| && sorted[j] == b;
    NewerIrreflexive(a.key);
  }

  lemma NewerAsymmetric(a: Key, b: Key)
    requires Newer(a, b)
    ensures !Newer(b, a)
  {
    if Newer(b, a) {
      NewerTransitive(a, b, a);
      NewerIrreflexive(a);
    }
  }

  lemma HeadNewest(rows: seq<Row>, row: Row)
    requires Descending(rows) && row in rows
    ensures row == rows[0] || (Newer(rows[0].key, row.key) && row in rows[1..])
  {
  }

  lemma HeadNotInTail(rows: seq<Row>)
    requires Descending(rows) && rows != []
    ensures rows[0] !in rows[1..]
  {
    NewerIrreflexive(rows[0].key);
  }

  lemma FirstsAgree(sorted: seq<Row>, out: seq<Row>)
    requires sorted != [] && out != [] && Descending(sorted) && Descending(out)
    requires out[0] in sorted && (sorted[0] in out || OlderThanAll(out, sorted[0].key))
    ensures out[0] == sorted[0]
  {
    HeadNewest(sorted, out[0]);
    if sorted[0] in out {
      HeadNewest(out, sorted[0]);
    }
    if Newer(sorted[0].key, out[0].key) {
      NewerAsymmetric(sorted[0].key, out[0].key);
    }
  }

  /** `out` leaves out of `sorted` only what is older than all of it, and that only when it has `cap` rows. */
  ghost predicate LeavesOlder(sorted: seq<Row>, out: seq<Row>, cap: int) {
    && |out| <= cap
    && (forall row :: row in out ==> row in sorted)
    && (forall row :: row in sorted ==> row in out || (|out| == cap && OlderThanAll(out, row.key)))
  }

  lemma DropFirsts(sorted: seq<Row>, out: seq<Row>, cap: int)
    requires sorted != [] && out != [] && sorted[0] == out[0] && Descending(sorted) && Descending(out)
    requires LeavesOlder(sorted, out, cap)
    ensures LeavesOlder(sorted[1..], out[1..], cap - 1)
  {
    HeadNotInTail(sorted);
    HeadNotInTail(out);
    forall row | row in out[1..] ensures row in sorted[1..] {
      HeadNewest(sorted, row);
    }
    forall row | row in sorted[1..]
      ensures row in out[1..] || (|out| == cap && OlderThanAll(out[1..], row.key))
    {
      if row in out {
        HeadNewest(out, row);
      } else {
        TailOlder(out, row.key);
      }
    }
  }

  lemma SameStart(sorted: seq<Row>, out: seq<Row>, cap: int)
    requires Descending(sorted) && Descending(out) && LeavesOlder(sorted, out, cap)
    ensures sorted == [] ==> out == []
    ensures out == [] && sorted != [] ==> cap == 0
    ensures out != [] && sorted != [] ==> out[0] == sorted[0]
  {
    SomeRow(out);
    if sorted != [] {
      assert sorted[0] in sorted;
      if out != [] {
        assert out[0] in out;
        FirstsAgree(sorted, out);
      }
    }
  }

  lemma TakeCons(first: Row, rest: seq<Row>, cap: nat)
    requires cap > 0
    ensures Take([first] + rest, cap) == [first] + Take(rest, cap - 1)
  {
  }

  /** A descending part of a descending list that leaves out only what is older is a prefix of it. */
  lemma {:induction false} DescendingPrefix(sorted: seq<Row>, out: seq<Row>, cap: nat)
    requires Descending(sorted) && Descending(out) && LeavesOlder(sorted, out, cap)
    ensures out == Take(sorted, cap)
    decreases |sorted|
  {
    SameStart(sorted, out, cap);
    if sorted != [] && out != [] {
      var s, o := sorted[1..], out[1..];
      DropFirsts(sorted, out, cap);
      DescendingPrefix(s, o, cap - 1);
      TakeOnward(sorted, out, cap);
    }
  }

  lemma TakeOnward(sorted: seq<Row>, out: seq<Row>, cap: nat)
    requires sorted != [] && out != [] && out[0] == sorted[0] && cap > 0 && out[1..] == Take(sorted[1..], cap - 1)
    ensures out == Take(sorted, cap)
  {
    Uncons(sorted);
    Uncons(out);
    TakeCons(sorted[0], sorted[1..], cap);
  }

  lemma Uncons(rows: seq<Row>)
    requires rows != []
    ensures rows == [rows[0]] + rows[1..]
  {
  }

  lemma SomeRow(rows: seq<Row>)
    ensures rows == [] || exists row :: row in rows
  {
    if rows != [] {
      assert rows[0] in rows;
    }
  }

  lemma TailOlder(out: seq<Row>, key: Key)
    requires out != [] && OlderThanAll(out, key)
    ensures OlderThanAll(out[1..], key)
  {
  }
}
