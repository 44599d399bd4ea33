/**
  The read-only fetch helpers (udpfetch.py) over the same `messages` table
  as the store: the same filter and order, a limit but no offset, and their
  own text rendering, which replaces undecodable bytes by U+FFFD where the
  store falls back to hex.
*/
module UdpFetch {
  import opened Wrappers
  import opened Utf8
  import Text
  import opened Storage

  /** One `Message` object. */
  datatype Message = Message(id: nat, timestamp: int, ip: string, port: int,
                             message: string, data: seq<Byte>, dataSize: nat)

  /** The `message` attribute: the stored text when it is non-empty, else the
      bytes decoded with the replacement decoder. That decoder is total, so
      the hex fallback behind it is never taken. For every stored row the
      result is the replacement decoding of the payload. */
  function MessageText(row: Row): (r: string)
    ensures TruthyString(row.dataText) ==> r == row.dataText.value
    ensures WellFormedRow(row) ==> r == DecodeReplace(row.data)
  {
    if TruthyString(row.dataText) then
      StoredTextIsReplaceDecoding(row);
      row.dataText.value
    else
      DecodeReplace(row.data)
  }

  /** A stored text is what the replacement decoder reads from the payload. */
  lemma StoredTextIsReplaceDecoding(row: Row)
    ensures WellFormedRow(row) && row.dataText.Some? ==> row.dataText.value == DecodeReplace(row.data)
  {
    if WellFormedRow(row) && row.dataText.Some? {
      ReplaceAgreesOnValid(row.data);
    }
  }

  function MessageOf(row: Row): Message {
    Message(row.id, row.timestamp, row.clientIp, row.clientPort, MessageText(row), row.data, row.dataSize)
  }

  /** The rows `get_messages(limit, client_ip, client_port)` reads: the store's
      query with no OFFSET clause, which never fails. */
  function Fetch(rows: seq<Row>, limit: Option<int>, clientIp: Option<string>, clientPort: Option<int>): (r: seq<Row>)
    ensures Select(rows, limit, None, clientIp, clientPort) == Success(r)
    ensures SortedDesc(r) && multiset(r) <= multiset(rows)
  {
    SelectProperties(rows, limit, None, clientIp, clientPort);
    Select(rows, limit, None, clientIp, clientPort).value
  }

  /** `get_messages`: runs the query, then builds one message per row. */
  method GetMessages(rows: seq<Row>, limit: Option<int>, clientIp: Option<string>, clientPort: Option<int>)
    returns (messages: seq<Message>)
    ensures var fetched := Fetch(rows, limit, clientIp, clientPort);
      |messages| == |fetched| && forall k :: 0 <= k < |fetched| ==> messages[k] == MessageOf(fetched[k])
    ensures forall i, j :: 0 <= i < j < |messages| ==> messages[i].timestamp >= messages[j].timestamp
    ensures forall k :: 0 <= k < |messages| ==>
      && (TruthyString(clientIp) ==> messages[k].ip == clientIp.value)
      && (TruthyInt(clientPort) ==> messages[k].port == clientPort.value)
    ensures TruthyInt(limit) && limit.value > 0 ==> |messages| <= limit.value
    ensures rows == [] ==> messages == []
  {
    var query := BuildQuery(limit, None, clientIp, clientPort);
    var found := Execute(query, rows);
    var selected := found.value;
    assert selected == Fetch(rows, limit, clientIp, clientPort);
    messages := ToMessages(selected);
    FetchProperties(rows, limit, clientIp, clientPort);
    MessagesInherit(selected, messages, clientIp, clientPort);
  }

  /** The loop of `get_messages` that builds one message per fetched row. */
  method ToMessages(selected: seq<Row>) returns (messages: seq<Message>)
    ensures |messages| == |selected|
    ensures forall k :: 0 <= k < |selected| ==> messages[k] == MessageOf(selected[k])
  {
    messages := [];
    for i := 0 to |selected|
      invariant |messages| == i
      invariant forall k :: 0 <= k < i ==> messages[k] == MessageOf(selected[k])
    {
      var row := selected[i];
      var messageText := if TruthyString(row.dataText) then row.dataText.value else DecodeReplace(row.data);
      messages := messages + [Message(row.id, row.timestamp, row.clientIp, row.clientPort,
                                      messageText, row.data, row.dataSize)];
    }
  }

  /** Messages built one per row keep the rows' order and filter. */
  lemma MessagesInherit(fetched: seq<Row>, messages: seq<Message>, clientIp: Option<string>, clientPort: Option<int>)
    requires |messages| == |fetched| && forall k :: 0 <= k < |fetched| ==> messages[k] == MessageOf(fetched[k])
    requires SortedDesc(fetched)
    requires forall k :: 0 <= k < |fetched| ==> MatchesFilter(fetched[k], clientIp, clientPort)
    ensures forall i, j :: 0 <= i < j < |messages| ==> messages[i].timestamp >= messages[j].timestamp
    ensures forall k :: 0 <= k < |messages| ==>
      && (TruthyString(clientIp) ==> messages[k].ip == clientIp.value)
      && (TruthyInt(clientPort) ==> messages[k].port == clientPort.value)
  {
  }

  /** What the fetched rows are, by position: newest first, matching the
      filter, at most a positive limit of them, none from an empty table. */
  lemma FetchProperties(rows: seq<Row>, limit: Option<int>, clientIp: Option<string>, clientPort: Option<int>)
    ensures var fetched := Fetch(rows, limit, clientIp, clientPort);
      && SortedDesc(fetched)
      && (forall k :: 0 <= k < |fetched| ==> MatchesFilter(fetched[k], clientIp, clientPort))
      && (TruthyInt(limit) && limit.value > 0 ==> |fetched| <= limit.value)
      && (rows == [] ==> fetched == [])
  {
    var fetched := Fetch(rows, limit, clientIp, clientPort);
    SelectProperties(rows, limit, None, clientIp, clientPort);
    assert forall k :: 0 <= k < |fetched| ==> fetched[k] in fetched;
    if rows == [] {
      assert multiset(fetched) == multiset{};
    }
  }

  /** The unfiltered, unlimited fetch returns every row. */
  lemma FetchAllIsEveryRow(rows: seq<Row>)
    ensures multiset(Fetch(rows, None, None, None)) == multiset(rows)
    ensures |Fetch(rows, None, None, None)| == |rows|
  {
    var q := BuildQuery(None, None, None, None);
    assert q.conditions == [];
    WhereNothing(rows);
    assert Fetch(rows, None, None, None) == Window(SortDesc(rows), None, None);
    WindowSlice(SortDesc(rows), None, None);
    var fetched := SortDesc(rows);
    assert multiset(fetched) == multiset(rows);
    assert |multiset(fetched)| == |fetched| && |multiset(rows)| == |rows|;
  }

  lemma {:induction false} WhereNothing(rows: seq<Row>)
    ensures Where(rows, []) == rows
    decreases |rows|
  {
    if rows != [] {
      WhereNothing(rows[1..]);
      assert Satisfies(rows[0], []);
    }
  }

  /** `get_message_count`: the number of rows, which is the number of
      messages the unfiltered fetch returns; zero exactly on an empty table. */
  method GetMessageCount(rows: seq<Row>) returns (n: nat)
    ensures n == |Fetch(rows, None, None, None)|
    ensures n == 0 <==> rows == []
  {
    FetchAllIsEveryRow(rows);
    n := |rows|;
  }

  /** `get_latest_message`: none exactly on an empty table, else the first
      message of `get_messages(limit=1)`, a row no other row is newer than. */
  method GetLatestMessage(rows: seq<Row>) returns (m: Option<Message>)
    ensures m.None? <==> rows == []
    ensures m.Some? ==> exists row :: row in rows && m.value == MessageOf(row)
    ensures m.Some? ==> forall x :: x in rows ==> x.timestamp <= m.value.timestamp
  {
    var messages := GetMessages(rows, Some(1), None, None);
    if messages == [] {
      LatestExists(rows);
      m := None;
    } else {
      LatestExists(rows);
      m := Some(messages[0]);
    }
  }

  /** The one-row page is empty exactly on an empty table, and its row is a
      newest row of the table. */
  lemma LatestExists(rows: seq<Row>)
    ensures var page := Fetch(rows, Some(1), None, None);
      && (page == [] <==> rows == [])
      && (page != [] ==> page[0] in rows && forall x :: x in rows ==> x.timestamp <= page[0].timestamp)
  {
    var all := Fetch(rows, None, None, None);
    var page := Fetch(rows, Some(1), None, None);
    FetchAllIsEveryRow(rows);
    SelectWindow(rows, Some(1), None, None, None);
    assert page == all[..|page|] && |page| == Min(1, |all|);
    if page != [] {
      SelectProperties(rows, None, None, None, None);
      HeadIsNewest(all, rows);
    }
  }

  lemma HeadIsNewest(sorted: seq<Row>, rows: seq<Row>)
    requires SortedDesc(sorted) && multiset(sorted) == multiset(rows) && sorted != []
    ensures sorted[0] in rows
    ensures forall x :: x in rows ==> x.timestamp <= sorted[0].timestamp
  {
    assert sorted[0] in multiset(sorted);
    forall x | x in rows ensures x.timestamp <= sorted[0].timestamp {
      assert x in multiset(sorted);
      var j :| 0 <= j < |sorted| && sorted[j] == x;
      if j > 0 {
        assert sorted[0].timestamp >= sorted[j].timestamp;
      }
    }
  }

  // ---------------------------------------------------------------------
  // Message.__repr__

  /** `Message(id=<id>, ip=<ip>, port=<port>, message=` */
  function ReprHead(m: Message): string {
    "Message(id=" + Text.Decimal(m.id) + ", ip=" + m.ip + ", port=" + Text.Decimal(m.port) + ", message="
  }

  /** `__repr__`: the head, at most the first 50 characters of the message,
      and always `...)`, whether or not anything was cut. */
  function Repr(m: Message): (r: string)
    ensures |r| == |ReprHead(m)| + Min(50, |m.message|) + 4
    ensures r[..|ReprHead(m)|] == ReprHead(m)
    ensures r[|ReprHead(m)|..|r| - 4] == m.message[..Min(50, |m.message|)]
    ensures r[|r| - 4..] == "...)"
  {
    var shown := if |m.message| > 50 then m.message[..50] else m.message;
    ReprHead(m) + shown + "...)"
  }

  /** The id and the ip can be read back from the representation: the digits
      after `Message(id=` parse to the id, and the ip follows `, ip=`. */
  lemma ReprShowsIdAndIp(m: Message)
    ensures var r := Repr(m);
      var digits := Text.Decimal(m.id);
      && r[..11] == "Message(id="
      && Text.ParseInt(r[11..11 + |digits|]) == Some(m.id as int)
      && r[11 + |digits|..16 + |digits|] == ", ip="
      && r[16 + |digits|..16 + |digits| + |m.ip|] == m.ip
  {
    var digits := Text.Decimal(m.id);
    var rest := ", port=" + Text.Decimal(m.port) + ", message=" + Repr(m)[|ReprHead(m)|..];
    assert Repr(m) == ReprHead(m) + Repr(m)[|ReprHead(m)|..];
    assert Repr(m) == "Message(id=" + digits + ", ip=" + m.ip + rest;
    FourPieces("Message(id=", digits, ", ip=", m.ip, rest);
    Text.ParseDecimal(m.id);
  }

  /** Where the first four pieces of a concatenation sit. */
  lemma FourPieces(a: string, b: string, c: string, d: string, e: string)
    ensures var t := a + b + c + d + e;
      && t[..|a|] == a
      && t[|a|..|a| + |b|] == b
      && t[|a| + |b|..|a| + |b| + |c|] == c
      && t[|a| + |b| + |c|..|a| + |b| + |c| + |d|] == d
  {
  }

  // ---------------------------------------------------------------------
  // The two renderings of one row

  /** The store's `data` field and the fetch's `message` agree exactly when
      the payload is valid UTF-8: otherwise the fetch shows U+FFFD, which never
      appears in hex. */
  lemma TextAgreesIffDecodable(row: Row)
    requires WellFormedRow(row)
    ensures DataField(row) == MessageText(row) <==> Decode(row.data).Some?
  {
    if Decode(row.data).Some? {
      if !TruthyString(row.dataText) {
        EncodeDecode(row.data);
        assert row.data == [];
      }
    } else {
      ReplaceMarksInvalid(row.data);
      Text.HexDigitsOnly(row.data);
    }
  }
}
