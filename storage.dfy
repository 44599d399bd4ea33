/**
  The message store (storage.py): the `messages` table as a sequence of rows
  in rowid order plus the AUTOINCREMENT counter, the query that
  `get_messages` builds and SQLite's meaning of it, and the class whose
  methods mutate the table. Timestamps are integers; every call runs alone
  (the lock of the source serialises them).
*/
module Storage {
  import opened Wrappers
  import opened Utf8
  import Text

  /** Seconds in a day, the unit of `timedelta(days=...)`. */
  const Day: int := 86400

  /** One row of the `messages` table. */
  datatype Row = Row(id: nat, timestamp: int, clientIp: string, clientPort: int,
                     data: seq<Byte>, dataText: Option<string>, dataSize: nat)

  /** The table's rows in rowid order, and the largest id ever issued
      (SQLite's `sqlite_sequence` entry for the table). */
  datatype Table = Table(rows: seq<Row>, lastId: nat)

  /** One dictionary of the list `get_messages` returns. */
  datatype Record = Record(id: nat, timestamp: int, clientIp: string, clientPort: int,
                           data: string, dataSize: nat)

  /** What `store_message` writes into every row. */
  predicate WellFormedRow(r: Row) {
    r.dataSize == |r.data| && r.dataText == Decode(r.data)
  }

  predicate IdsIncreasing(rows: seq<Row>) {
    forall i, j :: 0 <= i < j < |rows| ==> rows[i].id < rows[j].id
  }

  /** The invariant every store operation keeps. */
  predicate ValidTable(t: Table) {
    && (forall r :: r in t.rows ==> WellFormedRow(r) && 0 < r.id <= t.lastId)
    && IdsIncreasing(t.rows)
  }

  function Min(a: int, b: int): int {
    if a <= b then a else b
  }

  // ---------------------------------------------------------------------
  // The table operations

  /** The INSERT of `store_message`: AUTOINCREMENT takes the id one past the
      largest ever issued, the size is the byte length, and the text is the
      strict UTF-8 decoding, absent when decoding fails. */
  function Insert(t: Table, clientIp: string, clientPort: int, data: seq<Byte>, now: int): (r: Table)
    requires ValidTable(t)
    ensures ValidTable(r)
    ensures |r.rows| == |t.rows| + 1 && r.rows[..|t.rows|] == t.rows
    ensures r.lastId == t.lastId + 1
    ensures var row := r.rows[|t.rows|];
      && row.id == r.lastId
      && (forall x :: x in t.rows ==> x.id < row.id)
      && row.timestamp == now && row.clientIp == clientIp && row.clientPort == clientPort
      && row.data == data && row.dataSize == |data|
      && (row.dataText.Some? <==> exists s :: Encode(s) == data)
      && (row.dataText.Some? ==> Encode(row.dataText.value) == data)
  {
    ValidIffEncoding(data);
    assert Decode(data).Some? ==> Encode(Decode(data).value) == data by {
      if Decode(data).Some? {
        EncodeDecode(data);
      }
    }
    Table(t.rows + [Row(t.lastId + 1, now, clientIp, clientPort, data, Decode(data), |data|)], t.lastId + 1)
  }

  /** `DELETE FROM messages`: the rows go, the counter stays. */
  function ClearAll(t: Table): (r: Table)
    requires ValidTable(t)
    ensures ValidTable(r) && r.rows == [] && r.lastId == t.lastId
  {
    Table([], t.lastId)
  }

  /** The rows that `timestamp < cutoff` does not select, in their order. */
  function KeepSince(rows: seq<Row>, cutoff: int): (r: seq<Row>)
    ensures forall x :: x in r <==> x in rows && x.timestamp >= cutoff
    ensures |r| <= |rows|
    decreases |rows|
  {
    if rows == [] then []
    else
      var rest := KeepSince(rows[1..], cutoff);
      if rows[0].timestamp >= cutoff then [rows[0]] + rest else rest
  }

  /** The kept rows stay in id order. */
  lemma {:induction false} KeepSinceIncreasing(rows: seq<Row>, cutoff: int)
    requires IdsIncreasing(rows)
    ensures IdsIncreasing(KeepSince(rows, cutoff))
    decreases |rows|
  {
    if rows != [] {
      var rest := KeepSince(rows[1..], cutoff);
      KeepSinceIncreasing(rows[1..], cutoff);
      if rows[0].timestamp >= cutoff {
        TailAbove(rows);
        PrependIncreasing(rows[0], rest);
      }
    }
  }

  lemma TailAbove(rows: seq<Row>)
    requires IdsIncreasing(rows) && rows != []
    ensures forall y :: y in rows[1..] ==> rows[0].id < y.id
  {
    forall y | y in rows[1..] ensures rows[0].id < y.id {
      var k :| 0 <= k < |rows| - 1 && rows[1..][k] == y;
      assert rows[k + 1] == y;
    }
  }

  lemma PrependIncreasing(x: Row, s: seq<Row>)
    requires IdsIncreasing(s) && forall y :: y in s ==> x.id < y.id
    ensures IdsIncreasing([x] + s)
  {
    var r := [x] + s;
    forall i, j | 0 <= i < j < |r| ensures r[i].id < r[j].id {
      assert r[j] == s[j - 1];
      if i > 0 {
        assert r[i] == s[i - 1];
      }
    }
  }

  /** `SELECT COUNT(*) FROM messages WHERE timestamp < cutoff`. */
  function CountOlder(rows: seq<Row>, cutoff: int): (n: nat)
    ensures n <= |rows|
    ensures n == 0 <==> forall k :: 0 <= k < |rows| ==> rows[k].timestamp >= cutoff
    decreases |rows|
  {
    if rows == [] then 0
    else (if rows[0].timestamp < cutoff then 1 else 0) + CountOlder(rows[1..], cutoff)
  }

  /** The count taken before the DELETE is exactly the number of rows it removes. */
  lemma {:induction false} CountOlderIsRemoved(rows: seq<Row>, cutoff: int)
    ensures CountOlder(rows, cutoff) == |rows| - |KeepSince(rows, cutoff)|
    decreases |rows|
  {
    if rows != [] {
      CountOlderIsRemoved(rows[1..], cutoff);
    }
  }

  /** `DELETE FROM messages WHERE timestamp < cutoff`. */
  function Purge(t: Table, cutoff: int): (r: Table)
    requires ValidTable(t)
    ensures ValidTable(r) && r.lastId == t.lastId && |r.rows| <= |t.rows|
    ensures forall x :: x in r.rows <==> x in t.rows && x.timestamp >= cutoff
  {
    KeepSinceIncreasing(t.rows, cutoff);
    Table(KeepSince(t.rows, cutoff), t.lastId)
  }

  /** With every row older than the cutoff (as with `days=0` once time has
      moved on), the purge removes them all and counts them all. */
  lemma PurgeAllEarlier(rows: seq<Row>, cutoff: int)
    requires forall x :: x in rows ==> x.timestamp < cutoff
    ensures KeepSince(rows, cutoff) == []
    ensures CountOlder(rows, cutoff) == |rows|
  {
    CountOlderIsRemoved(rows, cutoff);
  }

  // ---------------------------------------------------------------------
  // Ids are never reused

  /** The store operations that change the table. */
  datatype Op =
    | Store(clientIp: string, clientPort: int, data: seq<Byte>, now: int)
    | Clear
    | DeleteOld(days: int, now: int)

  function Apply(t: Table, op: Op): (r: Table)
    requires ValidTable(t)
    ensures ValidTable(r) && r.lastId >= t.lastId
  {
    match op
    case Store(ip, port, data, now) => Insert(t, ip, port, data, now)
    case Clear => ClearAll(t)
    case DeleteOld(days, now) => Purge(t, now - days * Day)
  }

  /** Runs `ops` in order; gives the final table and the ids the stores returned. */
  function Replay(t: Table, ops: seq<Op>): (Table, seq<nat>)
    requires ValidTable(t)
    decreases |ops|
  {
    if ops == [] then (t, [])
    else
      var next := Apply(t, ops[0]);
      var (final, ids) := Replay(next, ops[1..]);
      if ops[0].Store? then (final, [next.lastId] + ids) else (final, ids)
  }

  /** Every id a store returns is larger than any id issued before it, also
      across clears and purges: ids are never reused. */
  lemma {:induction false} IdsNeverReused(t: Table, ops: seq<Op>)
    requires ValidTable(t)
    ensures var (final, ids) := Replay(t, ops);
      && ValidTable(final) && final.lastId >= t.lastId
      && (forall i, j :: 0 <= i < j < |ids| ==> ids[i] < ids[j])
      && (forall i :: 0 <= i < |ids| ==> t.lastId < ids[i] <= final.lastId)
    decreases |ops|
  {
    if ops != [] {
      var next := Apply(t, ops[0]);
      IdsNeverReused(next, ops[1..]);
    }
  }

  // ---------------------------------------------------------------------
  // The query of get_messages

  datatype Condition = IpEquals(ip: string) | PortEquals(port: int)

  /** The WHERE conditions and the LIMIT and OFFSET clauses of the query
      text; a clause is present exactly when it is Some. */
  datatype Query = Query(conditions: seq<Condition>, limit: Option<int>, offset: Option<int>)

  /** SQLite rejects OFFSET that is not preceded by LIMIT
      (`sqlite3.OperationalError`). */
  datatype QueryError = OffsetWithoutLimit

  /** Python truthiness of an optional argument: None, 0 and "" are false. */
  predicate TruthyInt(x: Option<int>) {
    x.Some? && x.value != 0
  }

  predicate TruthyString(x: Option<string>) {
    x.Some? && x.value != ""
  }

  predicate Holds(c: Condition, r: Row) {
    match c
    case IpEquals(ip) => r.clientIp == ip
    case PortEquals(port) => r.clientPort == port
  }

  predicate Satisfies(r: Row, conditions: seq<Condition>) {
    forall i :: 0 <= i < |conditions| ==> Holds(conditions[i], r)
  }

  /** The filter a caller asks for: an empty or missing ip and a zero or
      missing port do not filter. */
  predicate MatchesFilter(r: Row, clientIp: Option<string>, clientPort: Option<int>) {
    && (TruthyString(clientIp) ==> r.clientIp == clientIp.value)
    && (TruthyInt(clientPort) ==> r.clientPort == clientPort.value)
  }

  lemma SatisfiesConcat(r: Row, a: seq<Condition>, b: seq<Condition>)
    ensures Satisfies(r, a + b) <==> Satisfies(r, a) && Satisfies(r, b)
  {
    if Satisfies(r, a) && Satisfies(r, b) {
      forall i | 0 <= i < |a + b| ensures Holds((a + b)[i], r) {
        if i >= |a| {
          assert (a + b)[i] == b[i - |a|];
        }
      }
    }
    if Satisfies(r, a + b) {
      forall i | 0 <= i < |a| ensures Holds(a[i], r) {
        assert (a + b)[i] == a[i];
      }
      forall i | 0 <= i < |b| ensures Holds(b[i], r) {
        assert (a + b)[|a| + i] == b[i];
      }
    }
  }

  /** The query text `get_messages` builds. */
  function BuildQuery(limit: Option<int>, offset: Option<int>,
                      clientIp: Option<string>, clientPort: Option<int>): (q: Query)
    ensures forall r :: Satisfies(r, q.conditions) <==> MatchesFilter(r, clientIp, clientPort)
    ensures q.limit.Some? <==> TruthyInt(limit)
    ensures q.offset.Some? <==> TruthyInt(offset)
    ensures q.limit.Some? ==> q.limit == limit
    ensures q.offset.Some? ==> q.offset == offset
  {
    var byIp := if TruthyString(clientIp) then [IpEquals(clientIp.value)] else [];
    var byPort := if TruthyInt(clientPort) then [PortEquals(clientPort.value)] else [];
    var conditions := byIp + byPort;
    assert forall r :: Satisfies(r, conditions) <==> MatchesFilter(r, clientIp, clientPort) by {
      forall r ensures Satisfies(r, conditions) <==> MatchesFilter(r, clientIp, clientPort) {
        SatisfiesConcat(r, byIp, byPort);
        assert byIp != [] ==> (Satisfies(r, byIp) <==> Holds(byIp[0], r));
        assert byPort != [] ==> (Satisfies(r, byPort) <==> Holds(byPort[0], r));
      }
    }
    Query(conditions,
          if TruthyInt(limit) then limit else None,
          if TruthyInt(offset) then offset else None)
  }

  /** The rows satisfying the WHERE conditions, in table order. */
  function Where(rows: seq<Row>, conditions: seq<Condition>): (r: seq<Row>)
    ensures forall x :: x in r <==> x in rows && Satisfies(x, conditions)
    ensures multiset(r) <= multiset(rows)
    decreases |rows|
  {
    if rows == [] then []
    else
      var rest := Where(rows[1..], conditions);
      assert rows == [rows[0]] + rows[1..];
      if Satisfies(rows[0], conditions) then [rows[0]] + rest else rest
  }

  predicate SortedDesc(s: seq<Row>) {
    forall i, j :: 0 <= i < j < |s| ==> s[i].timestamp >= s[j].timestamp
  }

  /** Places `x` after every row at least as recent. */
  function InsertDesc(x: Row, s: seq<Row>): (r: seq<Row>)
    requires SortedDesc(s)
    ensures SortedDesc(r)
    ensures multiset(r) == multiset(s) + multiset{x}
    decreases |s|
  {
    if s == [] || s[0].timestamp < x.timestamp then
      assert forall j :: 0 <= j < |s| ==> s[j].timestamp <= s[0].timestamp;
      PrependSorted(x, s);
      [x] + s
    else
      var rest := InsertDesc(x, s[1..]);
      assert s == [s[0]] + s[1..];
      forall k | 0 <= k < |rest| ensures s[0].timestamp >= rest[k].timestamp {
        var y := rest[k];
        assert y in multiset(rest);
        if y != x {
          assert y in multiset(s[1..]);
          var j :| 0 <= j < |s[1..]| && s[1..][j] == y;
          assert s[j + 1] == y;
        }
      }
      PrependSorted(s[0], rest);
      [s[0]] + rest
  }

  /** A row at least as recent as every row of a sorted list can head it. */
  lemma PrependSorted(x: Row, s: seq<Row>)
    requires SortedDesc(s)
    requires forall k :: 0 <= k < |s| ==> x.timestamp >= s[k].timestamp
    ensures SortedDesc([x] + s)
  {
    var r := [x] + s;
    forall i, j | 0 <= i < j < |r| ensures r[i].timestamp >= r[j].timestamp {
      if i > 0 {
        assert r[i] == s[i - 1] && r[j] == s[j - 1];
      } else {
        assert r[j] == s[j - 1];
      }
    }
  }

  /** `ORDER BY timestamp DESC`. SQLite leaves the order of equal
      timestamps open; this one puts later rows first. */
  function SortDesc(s: seq<Row>): (r: seq<Row>)
    ensures SortedDesc(r)
    ensures multiset(r) == multiset(s)
    decreases |s|
  {
    if s == [] then []
    else
      assert s == [s[0]] + s[1..];
      InsertDesc(s[0], SortDesc(s[1..]))
  }

  /** Rows skipped by an OFFSET clause: a negative offset skips none. */
  function Skip(offset: Option<int>): nat {
    if offset.Some? && offset.value > 0 then offset.value else 0
  }

  /** LIMIT and OFFSET as SQLite applies them after ordering: a negative
      limit does not bound the result. */
  function Window(s: seq<Row>, limit: Option<int>, offset: Option<int>): seq<Row> {
    var rest := s[Min(Skip(offset), |s|)..];
    if limit.Some? && limit.value >= 0 then rest[..Min(limit.value, |rest|)] else rest
  }

  /** The window is the slice that starts after the skipped rows. */
  lemma WindowSlice(s: seq<Row>, limit: Option<int>, offset: Option<int>)
    ensures var from := Min(Skip(offset), |s|);
      var upto := if limit.Some? && limit.value >= 0 then from + Min(limit.value, |s| - from) else |s|;
      Window(s, limit, offset) == s[from..upto]
  {
  }

  /** SQLite's answer to a query over the table's rows. */
  function Execute(q: Query, rows: seq<Row>): (r: Result<seq<Row>, QueryError>)
    ensures r.Failure? <==> q.offset.Some? && q.limit.None?
    ensures r.Success? && q.limit.Some? && q.limit.value >= 0 ==> |r.value| <= q.limit.value
  {
    if q.offset.Some? && q.limit.None? then Failure(OffsetWithoutLimit)
    else Success(Window(SortDesc(Where(rows, q.conditions)), q.limit, q.offset))
  }

  /** A window of a sorted list is a sorted part of it. */
  lemma WindowPart(s: seq<Row>, limit: Option<int>, offset: Option<int>)
    ensures var w := Window(s, limit, offset);
      && (forall x :: x in w ==> x in s)
      && multiset(w) <= multiset(s)
      && (SortedDesc(s) ==> SortedDesc(w))
  {
    WindowSlice(s, limit, offset);
    var from := Min(Skip(offset), |s|);
    var upto := if limit.Some? && limit.value >= 0 then from + Min(limit.value, |s| - from) else |s|;
    SlicePart(s, from, upto);
  }

  lemma SlicePart(s: seq<Row>, from: nat, upto: nat)
    requires from <= upto <= |s|
    ensures forall x :: x in s[from..upto] ==> x in s
    ensures multiset(s[from..upto]) <= multiset(s)
    ensures SortedDesc(s) ==> SortedDesc(s[from..upto])
  {
    assert s == s[..from] + s[from..upto] + s[upto..];
  }

  /** The rows `get_messages(limit, offset, client_ip, client_port)` reads.
      It fails exactly when an offset is given without a limit. */
  function Select(rows: seq<Row>, limit: Option<int>, offset: Option<int>,
                  clientIp: Option<string>, clientPort: Option<int>): (r: Result<seq<Row>, QueryError>)
    ensures r.Failure? <==> TruthyInt(offset) && !TruthyInt(limit)
  {
    Execute(BuildQuery(limit, offset, clientIp, clientPort), rows)
  }

  /** The filtered rows in query order, before any window. */
  function Ordered(rows: seq<Row>, clientIp: Option<string>, clientPort: Option<int>): seq<Row> {
    SortDesc(Where(rows, BuildQuery(None, None, clientIp, clientPort).conditions))
  }

  /** What the rows of a successful `get_messages` are: rows of the table,
      matching the filter, newest first, no row twice, at most a positive
      limit of them, and, with no window, every matching row. */
  lemma SelectProperties(rows: seq<Row>, limit: Option<int>, offset: Option<int>,
                         clientIp: Option<string>, clientPort: Option<int>)
    requires Select(rows, limit, offset, clientIp, clientPort).Success?
    ensures var sel := Select(rows, limit, offset, clientIp, clientPort).value;
      && SortedDesc(sel)
      && (forall x :: x in sel ==> x in rows && MatchesFilter(x, clientIp, clientPort))
      && multiset(sel) <= multiset(rows)
      && (TruthyInt(limit) && limit.value > 0 ==> |sel| <= limit.value)
      && (!TruthyInt(limit) ==> forall x :: x in rows && MatchesFilter(x, clientIp, clientPort) ==> x in sel)
  {
    var q := BuildQuery(limit, offset, clientIp, clientPort);
    var matching := Where(rows, q.conditions);
    var ordered := SortDesc(matching);
    WindowPart(ordered, q.limit, q.offset);
    forall x ensures x in ordered <==> x in matching {
      assert x in ordered <==> x in multiset(ordered);
    }
  }

  /** The offset/limit window cuts the full ordered result: skip the offset,
      then keep at most `limit` rows. */
  lemma SelectWindow(rows: seq<Row>, limit: Option<int>, offset: Option<int>,
                     clientIp: Option<string>, clientPort: Option<int>)
    requires Select(rows, limit, offset, clientIp, clientPort).Success?
    ensures var all := Select(rows, None, None, clientIp, clientPort).value;
      var page := Select(rows, limit, offset, clientIp, clientPort).value;
      var from := Min(if TruthyInt(offset) then Skip(offset) else 0, |all|);
      && page == all[from..from + |page|]
      && |page| == (if TruthyInt(limit) && limit.value > 0 then Min(limit.value, |all| - from) else |all| - from)
  {
    var q := BuildQuery(limit, offset, clientIp, clientPort);
    var ordered := Ordered(rows, clientIp, clientPort);
    SelectIsWindow(rows, limit, offset, clientIp, clientPort);
    OrderedIsEverything(rows, clientIp, clientPort);
    WindowSlice(ordered, q.limit, q.offset);
  }

  /** A successful query is a window of the ordered, filtered rows. */
  lemma SelectIsWindow(rows: seq<Row>, limit: Option<int>, offset: Option<int>,
                       clientIp: Option<string>, clientPort: Option<int>)
    requires Select(rows, limit, offset, clientIp, clientPort).Success?
    ensures var q := BuildQuery(limit, offset, clientIp, clientPort);
      Select(rows, limit, offset, clientIp, clientPort).value
        == Window(Ordered(rows, clientIp, clientPort), q.limit, q.offset)
  {
  }

  /** With no window the query returns the ordered, filtered rows. */
  lemma OrderedIsEverything(rows: seq<Row>, clientIp: Option<string>, clientPort: Option<int>)
    ensures Select(rows, None, None, clientIp, clientPort).value == Ordered(rows, clientIp, clientPort)
  {
    SelectIsWindow(rows, None, None, clientIp, clientPort);
    WindowSlice(Ordered(rows, clientIp, clientPort), None, None);
  }

  lemma WindowPages(s: seq<Row>, offset: nat, first: nat, second: nat)
    requires first > 0 && second > 0
    ensures Window(s, Some(first), Some(offset)) + Window(s, Some(second), Some(offset + first))
         == Window(s, Some(first + second), Some(offset))
  {
    WindowSlice(s, Some(first), Some(offset));
    WindowSlice(s, Some(second), Some(offset + first));
    WindowSlice(s, Some(first + second), Some(offset));
    var a, b, c := Min(offset, |s|), Min(offset + first, |s|), Min(offset + first + second, |s|);
    assert s[a..b] + s[b..c] == s[a..c];
  }

  lemma PageIsWindow(rows: seq<Row>, limit: nat, offset: nat,
                     clientIp: Option<string>, clientPort: Option<int>)
    requires limit > 0
    ensures Select(rows, Some(limit), Some(offset), clientIp, clientPort).value
         == Window(Ordered(rows, clientIp, clientPort), Some(limit), Some(offset))
  {
  }

  /** Consecutive pages concatenate to one larger page. */
  lemma Pagination(rows: seq<Row>, offset: nat, first: nat, second: nat,
                   clientIp: Option<string>, clientPort: Option<int>)
    requires first > 0 && second > 0
    ensures Select(rows, Some(first), Some(offset), clientIp, clientPort).value
          + Select(rows, Some(second), Some(offset + first), clientIp, clientPort).value
         == Select(rows, Some(first + second), Some(offset), clientIp, clientPort).value
  {
    PageIsWindow(rows, first, offset, clientIp, clientPort);
    PageIsWindow(rows, second, offset + first, clientIp, clientPort);
    PageIsWindow(rows, first + second, offset, clientIp, clientPort);
    WindowPages(Ordered(rows, clientIp, clientPort), offset, first, second);
  }

  // ---------------------------------------------------------------------
  // The per-row formatting of get_messages

  /** The `data` entry of a returned row: the stored text when it is
      non-empty, else the lowercase hex of the bytes. */
  function DataField(row: Row): (r: string)
    ensures TruthyString(row.dataText) ==> r == row.dataText.value
    ensures !TruthyString(row.dataText) ==> |r| == 2 * |row.data|
  {
    if TruthyString(row.dataText) then row.dataText.value else Text.Hex(row.data)
  }

  /** Either rendering gives the payload back: the text re-encodes to it,
      the hex reads back to it. */
  lemma DataFieldDeterminesPayload(row: Row)
    requires WellFormedRow(row)
    ensures TruthyString(row.dataText) ==> Encode(DataField(row)) == row.data
    ensures !TruthyString(row.dataText) ==> Text.Unhex(DataField(row)) == Some(row.data)
  {
    if TruthyString(row.dataText) {
      EncodeDecode(row.data);
    } else {
      Text.UnhexHex(row.data);
    }
  }

  function RecordOf(row: Row): Record {
    Record(row.id, row.timestamp, row.clientIp, row.clientPort, DataField(row), row.dataSize)
  }

  /** The loop of `get_messages` that turns each fetched row into a record. */
  method FormatRows(selected: seq<Row>) returns (messages: seq<Record>)
    ensures |messages| == |selected|
    ensures forall k :: 0 <= k < |selected| ==> messages[k] == RecordOf(selected[k])
  {
    messages := [];
    for i := 0 to |selected|
      invariant |messages| == i
      invariant forall k :: 0 <= k < i ==> messages[k] == RecordOf(selected[k])
    {
      var row := selected[i];
      var dataRepr := if TruthyString(row.dataText) then row.dataText.value else Text.Hex(row.data);
      messages := messages + [Record(row.id, row.timestamp, row.clientIp, row.clientPort, dataRepr, row.dataSize)];
    }
  }

  // ---------------------------------------------------------------------
  // The store object

  class MessageStorage {
    var rows: seq<Row>
    var lastId: nat

    function Contents(): Table
      reads this
    {
      Table(rows, lastId)
    }

    predicate Valid()
      reads this
    {
      ValidTable(Contents())
    }

    /** Opens the database file whose table is `stored`: `CREATE TABLE IF
        NOT EXISTS` keeps the rows and the AUTOINCREMENT counter of an
        existing file, and a new file has `Table([], 0)`. */
    constructor (stored: Table)
      requires ValidTable(stored)
      ensures Valid() && Contents() == stored
    {
      rows := stored.rows;
      lastId := stored.lastId;
    }

    /** `store_message`: appends one row and returns its id. */
    method StoreMessage(clientIp: string, clientPort: int, data: seq<Byte>, now: int) returns (id: nat)
      requires Valid()
      modifies this
      ensures Valid()
      ensures Contents() == Insert(old(Contents()), clientIp, clientPort, data, now)
      ensures id == lastId && id > 0 && id > old(lastId)
      ensures |rows| == |old(rows)| + 1
    {
      var timestamp := now;
      var dataSize := |data|;
      var dataText := Decode(data);
      rows := rows + [Row(lastId + 1, timestamp, clientIp, clientPort, data, dataText, dataSize)];
      lastId := lastId + 1;
      id := lastId;
    }

    /** `get_messages`: runs the query, then formats every row it returns. */
    method GetMessages(limit: Option<int>, offset: Option<int>,
                       clientIp: Option<string>, clientPort: Option<int>)
      returns (r: Result<seq<Record>, QueryError>)
      ensures var sel := Select(rows, limit, offset, clientIp, clientPort);
        && (r.Failure? <==> sel.Failure?)
        && (r.Success? ==> |r.value| == |sel.value|
                           && forall k :: 0 <= k < |sel.value| ==> r.value[k] == RecordOf(sel.value[k]))
    {
      var query := BuildQuery(limit, offset, clientIp, clientPort);
      var found := Execute(query, rows);
      if found.Failure? {
        return Failure(found.error);
      }
      var messages := FormatRows(found.value);
      return Success(messages);
    }

    /** `get_message_count`. */
    method GetMessageCount() returns (n: nat)
      ensures n == |rows|
    {
      n := |rows|;
    }

    /** `clear_messages`: removes every row; the id counter stays. */
    method ClearMessages()
      requires Valid()
      modifies this
      ensures Valid() && Contents() == ClearAll(old(Contents()))
      ensures rows == [] && lastId == old(lastId)
    {
      rows := [];
    }

    /** `delete_old_messages(days)`: counts, then deletes, the rows older than
      `now - days`; the count is the number of rows removed. */
    method DeleteOldMessages(days: int, now: int) returns (count: nat)
      requires Valid()
      modifies this
      ensures Valid()
      ensures Contents() == Purge(old(Contents()), now - days * Day)
      ensures count == |old(rows)| - |rows|
    {
      var cutoff := now - days * Day;
      count := CountOlder(rows, cutoff);
      CountOlderIsRemoved(rows, cutoff);
      rows := Purge(Contents(), cutoff).rows;
    }
  }
}
