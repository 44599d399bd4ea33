/**
  The UDP listener (udp_listener.py): the `running` flag that `start` and
  `stop` flip, and the receive loop of `_run`, which stores each datagram,
  echoes it back with the prefix `ECHO:` and logs a preview. Socket
  operations, the store's failures and a concurrent `stop` are inputs: one
  event per pass of the loop.
*/
module Listener {
  import opened Wrappers
  import opened Utf8
  import Text
  import opened Storage

  /** The `recvfrom` buffer size: longer datagrams are cut to it. */
  const BufferSize: nat := 4096

  /** `b"ECHO:"`. */
  const EchoPrefix: seq<Byte> := [0x45, 0x43, 0x48, 0x4F, 0x3A]

  /** Longest preview of a payload in the log. */
  const PreviewLength: nat := 50

  datatype Address = Address(ip: string, port: int)

  /** How the echo `sendto` ends: delivered, failed with a socket error while
      running, or failed because `stop` closed the socket just before. */
  datatype SendResult = Delivered | SendFails | ClosedByStop

  /** What one pass of the receive loop meets. */
  datatype Event =
    | Datagram(from: Address, payload: seq<Byte>, now: int, storeFails: bool, send: SendResult)
      // a datagram arrives; `store_message` may raise, `sendto` may fail
    | RecvFails
      // `recvfrom` raises a socket error while the listener runs
    | StopCall
      // `stop` runs: `running` becomes false and the socket is closed

  datatype Reply = Reply(to: Address, payload: seq<Byte>)

  /** The lines `_run` prints. */
  datatype LogLine =
    | Received(id: nat, from: Address, preview: string)
    | Echoed(id: nat)
    | ProcessingError
    | SocketError
    | ListenerError

  /** How a run of the loop ends: still blocked in `recvfrom` when the events
      run out, stopped by `stop`, broken by a socket error, or never started
      because the socket could not be bound. */
  datatype Ending = StillReceiving | StoppedQuietly | SocketFault | BindFault

  datatype Outcome = Outcome(table: Table, replies: seq<Reply>, log: seq<LogLine>, ending: Ending)

  /** `recvfrom(4096)` keeps at most the first 4096 bytes of a datagram, as
      POSIX sockets truncate an oversized datagram. */
  function ReceivedBytes(payload: seq<Byte>): (r: seq<Byte>)
    ensures |r| == Min(BufferSize, |payload|) && r == payload[..|r|]
    ensures |payload| <= BufferSize ==> r == payload
  {
    payload[..Min(BufferSize, |payload|)]
  }

  /** `b"ECHO:" + data`. */
  function EchoResponse(data: seq<Byte>): (r: seq<Byte>)
    ensures |r| == |data| + 5
    ensures r[..5] == EchoPrefix && r[5..] == data
  {
    EchoPrefix + data
  }

  /** The prefix is the UTF-8 encoding of the text `ECHO:`. */
  lemma EchoPrefixIsText()
    ensures Encode("ECHO:") == EchoPrefix
  {
    assert "ECHO:" == ['E'] + "CHO:";
    assert "CHO:" == ['C'] + "HO:";
    assert "HO:" == ['H'] + "O:";
    assert "O:" == ['O'] + ":";
    assert ":" == [':'] + "";
  }

  /** An empty datagram is echoed as the five prefix bytes alone. */
  lemma EmptyEcho()
    ensures EchoResponse([]) == EchoPrefix && |EchoResponse([])| == 5
  {
  }

  /** The preview of a payload: its first 50 characters, and `...` when the
      payload has more than 50 bytes; `<binary: n bytes>` when it is not
      UTF-8. */
  function Preview(data: seq<Byte>): (r: string)
    ensures Decode(data).None? ==> r == "<binary: " + Text.Decimal(|data|) + " bytes>"
  {
    match Decode(data)
    case None => "<binary: " + Text.Decimal(|data|) + " bytes>"
    case Some(text) =>
      var head := if |text| > PreviewLength then text[..PreviewLength] else text;
      if |data| > PreviewLength then head + "..." else head
  }

  /** For text, the preview starts with at most 50 characters of it and ends
      in `...` exactly when the payload is longer than 50 bytes. */
  lemma PreviewOfText(data: seq<Byte>)
    requires Decode(data).Some?
    ensures var text := Decode(data).value;
      var shown := Min(PreviewLength, |text|);
      var r := Preview(data);
      && r[..shown] == text[..shown]
      && (|data| > PreviewLength ==> r == text[..shown] + "...")
      && (|data| <= PreviewLength ==> r == text)
  {
    var text := Decode(data).value;
    EncodeDecode(data);
    if |data| <= PreviewLength {
      EncodeNoShorter(text);
    }
  }

  /** No string encodes to fewer bytes than it has characters. */
  lemma {:induction false} EncodeNoShorter(s: string)
    ensures |Encode(s)| >= |s|
  {
    if s != [] {
      EncodeNoShorter(s[1..]);
    }
  }

  /** The dots count bytes, the cut counts characters: a text of at most 50
      characters whose encoding is longer than 50 bytes is shown whole,
      followed by `...`. */
  lemma DotsWithoutCut(text: string)
    requires |text| <= PreviewLength < |Encode(text)|
    ensures Preview(Encode(text)) == text + "..."
  {
    DecodeEncode(text);
  }

  /** Twenty-six copies of `é` are 52 bytes: such a text meets the lemma above. */
  lemma DotsWithoutCutHappens()
    ensures var text := seq(26, _ => 'é');
      |text| <= PreviewLength < |Encode(text)|
  {
    TwoByteLength(26);
  }

  lemma {:induction false} TwoByteLength(n: nat)
    ensures |Encode(seq(n, _ => 'é'))| == 2 * n
  {
    if n > 0 {
      var s := seq(n, _ => 'é');
      assert s[1..] == seq(n - 1, _ => 'é');
      TwoByteLength(n - 1);
    }
  }

  // ---------------------------------------------------------------------
  // The receive loop as a function of its events

  /** What the loop does with `events`, `running` being true when it starts. */
  function Serve(t: Table, events: seq<Event>): (o: Outcome)
    requires ValidTable(t)
    ensures ValidTable(o.table) && o.table.lastId >= t.lastId
    ensures |o.replies| <= |events| && o.ending != BindFault
    decreases |events|
  {
    if events == [] then Outcome(t, [], [], StillReceiving)
    else match events[0]
      case StopCall => Outcome(t, [], [], StoppedQuietly)
      case RecvFails => Outcome(t, [], [SocketError], SocketFault)
      case Datagram(from, payload, now, storeFails, send) =>
        var data := ReceivedBytes(payload);
        if storeFails then
          Extend([], [ProcessingError], Serve(t, events[1..]))
        else
          var next := Insert(t, from.ip, from.port, data, now);
          match send
          case SendFails => Outcome(next, [], [SocketError], SocketFault)
          case ClosedByStop => Outcome(next, [], [], StoppedQuietly)
          case Delivered =>
            Extend([Reply(from, EchoResponse(data))],
                   [Received(next.lastId, from, Preview(data)), Echoed(next.lastId)],
                   Serve(next, events[1..]))
  }

  /** Output produced before a further outcome. */
  function Extend(replies: seq<Reply>, log: seq<LogLine>, o: Outcome): Outcome {
    Outcome(o.table, replies + o.replies, log + o.log, o.ending)
  }

  lemma ExtendTwice(r1: seq<Reply>, l1: seq<LogLine>, r2: seq<Reply>, l2: seq<LogLine>, o: Outcome)
    ensures Extend(r1, l1, Extend(r2, l2, o)) == Extend(r1 + r2, l1 + l2, o)
  {
    assert r1 + (r2 + o.replies) == (r1 + r2) + o.replies;
    assert l1 + (l2 + o.log) == (l1 + l2) + o.log;
  }

  /** The four ways the loop handles an arriving datagram. */
  lemma ServeDatagram(t: Table, events: seq<Event>)
    requires ValidTable(t) && events != [] && events[0].Datagram?
    ensures var e := events[0];
      var data := ReceivedBytes(e.payload);
      var next := Insert(t, e.from.ip, e.from.port, data, e.now);
      && (e.storeFails ==> Serve(t, events) == Extend([], [ProcessingError], Serve(t, events[1..])))
      && (!e.storeFails && e.send.SendFails? ==> Serve(t, events) == Outcome(next, [], [SocketError], SocketFault))
      && (!e.storeFails && e.send.ClosedByStop? ==> Serve(t, events) == Outcome(next, [], [], StoppedQuietly))
      && (!e.storeFails && e.send.Delivered? ==>
            Serve(t, events) == Extend([Reply(e.from, EchoResponse(data))],
                                       [Received(next.lastId, e.from, Preview(data)), Echoed(next.lastId)],
                                       Serve(next, events[1..])))
  {
  }

  /** What `_run` does: the socket set-up, then the loop while running. */
  function RunOutcome(running: bool, bindOk: bool, t: Table, events: seq<Event>): (o: Outcome)
    requires ValidTable(t)
    ensures ValidTable(o.table)
    ensures o.ending == BindFault <==> !bindOk
    ensures !bindOk ==> o.log == [ListenerError]
    ensures !(bindOk && running) ==> o.table == t && o.replies == []
  {
    if !bindOk then Outcome(t, [], [ListenerError], BindFault)
    else if !running then Outcome(t, [], [], StoppedQuietly)
    else Serve(t, events)
  }

  /** A datagram the loop stores: sender, payload as received, time. */
  datatype Stored = Stored(from: Address, data: seq<Byte>, now: int)

  /** The datagrams stored before the loop ends, independently of the
      outputs: every arrival whose store succeeds, up to the first stop or
      socket error. */
  function Accepted(events: seq<Event>): seq<Stored>
    decreases |events|
  {
    if events == [] then []
    else match events[0]
      case StopCall => []
      case RecvFails => []
      case Datagram(from, payload, now, storeFails, send) =>
        if storeFails then Accepted(events[1..])
        else if send.Delivered? then [Stored(from, ReceivedBytes(payload), now)] + Accepted(events[1..])
        else [Stored(from, ReceivedBytes(payload), now)]
  }

  predicate StoredAs(row: Row, s: Stored) {
    row.clientIp == s.from.ip && row.clientPort == s.from.port && row.data == s.data && row.timestamp == s.now
  }

  /** No stored payload is longer than the receive buffer. */
  lemma {:induction false} AcceptedFitBuffer(events: seq<Event>)
    ensures forall k :: 0 <= k < |Accepted(events)| ==> |Accepted(events)[k].data| <= BufferSize
    decreases |events|
  {
    if events != [] && events[0].Datagram? {
      AcceptedFitBuffer(events[1..]);
    }
  }

  /** The table grows by exactly one row per accepted datagram, in arrival
      order, carrying the sender's address and the received bytes; the rows
      already there stay. */
  lemma {:induction false} ServeStores(t: Table, events: seq<Event>)
    requires ValidTable(t)
    ensures var o := Serve(t, events);
      var acc := Accepted(events);
      && |o.table.rows| == |t.rows| + |acc|
      && o.table.rows[..|t.rows|] == t.rows
      && forall k :: 0 <= k < |acc| ==> StoredAs(o.table.rows[|t.rows| + k], acc[k])
    decreases |events|
  {
    if events != [] && events[0].Datagram? {
      var e := events[0];
      var data := ReceivedBytes(e.payload);
      if e.storeFails {
        ServeStores(t, events[1..]);
      } else {
        var next := Insert(t, e.from.ip, e.from.port, data, e.now);
        if e.send.Delivered? {
          ServeStores(next, events[1..]);
          GrowsBy(t, next, Serve(next, events[1..]).table, Stored(e.from, data, e.now), Accepted(events[1..]));
        }
      }
    }
  }

  /** One stored row, then the rows of the rest. */
  lemma GrowsBy(t: Table, next: Table, final: Table, s: Stored, rest: seq<Stored>)
    requires |next.rows| == |t.rows| + 1 && next.rows[..|t.rows|] == t.rows
    requires StoredAs(next.rows[|t.rows|], s)
    requires |final.rows| == |next.rows| + |rest| && final.rows[..|next.rows|] == next.rows
    requires forall k :: 0 <= k < |rest| ==> StoredAs(final.rows[|next.rows| + k], rest[k])
    ensures |final.rows| == |t.rows| + |[s] + rest|
    ensures final.rows[..|t.rows|] == t.rows
    ensures forall k :: 0 <= k < |[s] + rest| ==> StoredAs(final.rows[|t.rows| + k], ([s] + rest)[k])
  {
    assert final.rows[..|t.rows|] == final.rows[..|next.rows|][..|t.rows|];
    assert final.rows[|t.rows|] == next.rows[|t.rows|];
    forall k | 0 < k < |[s] + rest| ensures StoredAs(final.rows[|t.rows| + k], ([s] + rest)[k]) {
      assert ([s] + rest)[k] == rest[k - 1];
    }
  }

  /** Every echo goes to the sender of a stored datagram and is its payload
      behind the prefix, in order; only the last stored datagram can lack
      its echo (when the send fails or the socket is closed under it). */
  lemma {:induction false} ServeEchoes(t: Table, events: seq<Event>)
    requires ValidTable(t)
    ensures var o := Serve(t, events);
      var acc := Accepted(events);
      && |o.replies| <= |acc| <= |o.replies| + 1
      && forall k :: 0 <= k < |o.replies| ==> o.replies[k] == Reply(acc[k].from, EchoResponse(acc[k].data))
    decreases |events|
  {
    if events != [] && events[0].Datagram? {
      var e := events[0];
      var data := ReceivedBytes(e.payload);
      ServeDatagram(t, events);
      if e.storeFails {
        ServeEchoes(t, events[1..]);
        assert [] + Serve(t, events[1..]).replies == Serve(t, events[1..]).replies;
      } else if e.send.Delivered? {
        var next := Insert(t, e.from.ip, e.from.port, data, e.now);
        ServeEchoes(next, events[1..]);
        EchoesPrepend(Reply(e.from, EchoResponse(data)), Stored(e.from, data, e.now),
                      Serve(next, events[1..]).replies, Accepted(events[1..]));
      }
    }
  }

  lemma EchoesPrepend(head: Reply, s: Stored, replies: seq<Reply>, acc: seq<Stored>)
    requires head == Reply(s.from, EchoResponse(s.data))
    requires |replies| <= |acc| <= |replies| + 1
    requires forall k :: 0 <= k < |replies| ==> replies[k] == Reply(acc[k].from, EchoResponse(acc[k].data))
    ensures var r, a := [head] + replies, [s] + acc;
      && |r| <= |a| <= |r| + 1
      && forall k :: 0 <= k < |r| ==> r[k] == Reply(a[k].from, EchoResponse(a[k].data))
  {
    var r, a := [head] + replies, [s] + acc;
    forall k | 0 < k < |r| ensures r[k] == Reply(a[k].from, EchoResponse(a[k].data)) {
      assert r[k] == replies[k - 1] && a[k] == acc[k - 1];
    }
  }

  /** A socket error is logged exactly when the loop ends on one; the
      set-up error never comes from the loop. */
  lemma {:induction false} ServeReportsSocketErrors(t: Table, events: seq<Event>)
    requires ValidTable(t)
    ensures var o := Serve(t, events);
      && (SocketError in o.log <==> o.ending == SocketFault)
      && ListenerError !in o.log
      && o.ending != BindFault
    decreases |events|
  {
    if events != [] && events[0].Datagram? {
      var e := events[0];
      var data := ReceivedBytes(e.payload);
      if e.storeFails {
        ServeReportsSocketErrors(t, events[1..]);
      } else if e.send.Delivered? {
        var next := Insert(t, e.from.ip, e.from.port, data, e.now);
        ServeReportsSocketErrors(next, events[1..]);
      }
    }
  }

  /** A failing store logs the error and the loop goes on with the next
      datagram, the table unchanged and nothing echoed. */
  lemma StoreFailureContinues(t: Table, e: Event, rest: seq<Event>)
    requires ValidTable(t) && e.Datagram? && e.storeFails
    ensures Serve(t, [e] + rest) == Extend([], [ProcessingError], Serve(t, rest))
  {
    assert ([e] + rest)[1..] == rest;
  }

  // ---------------------------------------------------------------------
  // The listener object

  class UdpListener {
    const storage: MessageStorage
    var running: bool
    var sockOpen: bool
    /** Worker threads started so far. */
    var threads: nat

    constructor (storage: MessageStorage)
      ensures this.storage == storage && !running && !sockOpen && threads == 0
    {
      this.storage := storage;
      running := false;
      sockOpen := false;
      threads := 0;
    }

    /** `start`: a second start while running starts nothing. */
    method Start()
      modifies this
      ensures running && sockOpen == old(sockOpen)
      ensures threads == if old(running) then old(threads) else old(threads) + 1
    {
      if running {
        return;
      }
      running := true;
      threads := threads + 1;
    }

    /** `stop`: clears the flag and closes the socket, whatever the state. */
    method Stop()
      modifies this
      ensures !running && !sockOpen && threads == old(threads)
    {
      running := false;
      if sockOpen {
        sockOpen := false;
      }
    }

    /** `_run`: sets up the socket, then serves events while running; the
      socket is closed at the end whatever happened. `running` is cleared
      only by a stop, so after a set-up error or a socket error it stays as
      it was. */
    method Run(bindOk: bool, events: seq<Event>) returns (replies: seq<Reply>, log: seq<LogLine>, ending: Ending)
      requires storage.Valid()
      modifies this, storage
      ensures storage.Valid() && !sockOpen && threads == old(threads)
      ensures var o := RunOutcome(old(running), bindOk, old(storage.Contents()), events);
        storage.Contents() == o.table && replies == o.replies && log == o.log && ending == o.ending
      ensures running == (old(running) && !ending.StoppedQuietly?)
    {
      ghost var t0 := storage.Contents();
      sockOpen := true;
      replies, log := [], [];
      if !bindOk {
        log := [ListenerError];
        ending := BindFault;
        sockOpen := false;
        return;
      }
      ending := StoppedQuietly;
      var i := 0;
      while running
        invariant 0 <= i <= |events|
        invariant storage.Valid() && threads == old(threads)
        invariant running ==> old(running)
        invariant running ==> Serve(t0, events) == Extend(replies, log, Serve(storage.Contents(), events[i..]))
        invariant !running ==> RunOutcome(old(running), bindOk, t0, events)
                                 == Outcome(storage.Contents(), replies, log, StoppedQuietly)
        decreases |events| - i, running
      {
        if i == |events| {
          ending := StillReceiving;
          break;
        }
        ghost var here := storage.Contents();
        assert events[i..][0] == events[i] && events[i..][1..] == events[i + 1..];
        match events[i]
        case StopCall =>
          Stop();
        case RecvFails =>
          log := log + [SocketError];
          ending := SocketFault;
          break;
        case Datagram(from, payload, now, storeFails, send) =>
          var data := ReceivedBytes(payload);
          ServeDatagram(here, events[i..]);
          if storeFails {
            ExtendTwice(replies, log, [], [ProcessingError], Serve(storage.Contents(), events[i + 1..]));
            assert replies + [] == replies;
            log := log + [ProcessingError];
          } else {
            var id := storage.StoreMessage(from.ip, from.port, data, now);
            match send
            case SendFails =>
              log := log + [SocketError];
              ending := SocketFault;
              break;
            case ClosedByStop =>
              Stop();
              break;
            case Delivered =>
              var reply := Reply(from, EchoResponse(data));
              var preview := Preview(data);
              var lines := [Received(id, from, preview), Echoed(id)];
              ExtendTwice(replies, log, [reply], lines, Serve(storage.Contents(), events[i + 1..]));
              replies := replies + [reply];
              log := log + lines;
          }
        i := i + 1;
      }
      sockOpen := false;
    }
  }
}
