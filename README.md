# udpmonitor in Dafny

A model of the core of udpmonitor. udpmonitor is a UDP echo service: it stores every datagram it receives in a SQLite table `messages`, echoes each back with the prefix `ECHO:`, and purges old rows every night. The model covers four pieces:

- **The message store.** `MessageStorage`, the table together with its AUTOINCREMENT counter. It has insert, the filtered, newest-first, limit/offset query, count, clear and age-based purge. It also renders each row's `data` as text, or as lowercase hex when the payload is not UTF-8.
- **The read-only fetch helpers** (`udpfetch`). They run the same filter and order with a limit but no offset. They render text with the replacement decoder, and provide `get_latest_message` and `Message.__repr__`.
- **The UDP listener.** Its `running` flag is set by `start` and cleared by `stop`. Its receive loop truncates to the 4096-byte buffer, stores, echoes, logs a preview, and handles store and socket failures.
- **The application object's cleanup worker.** It computes the next-midnight deadline, sleeps, checks `running`, purges with the retention period, and waits one hour after an error. The object also has `start` and `stop`.

Modules follow the source files:

| module | source |
|---|---|
| `Storage` | `src/udpmonitor/storage.py` |
| `UdpFetch` | `src/udpmonitor/udpfetch.py` |
| `Listener` | `src/udpmonitor/udp_listener.py` |
| `Monitor` | `main.py` |

There are three support modules:

- `Wrappers`: `Option` and `Result`.
- `Utf8`: strict and replacement UTF-8 decoding following section 4 of RFC 3629 (the syntax of UTF-8 byte sequences), and the encoder they are proved against.
- `Text`: `bytes.hex()`, `str(int)`, and readers that parse both back.

State and its representation:

- The table is a `Table(rows, lastId)`. `rows` holds the rows in rowid order. `lastId` is the largest id ever issued, which is SQLite's `sqlite_sequence` entry.
- `MessageStorage`, `UDPListener` and `UDPMonitor` are classes whose fields the methods update.
- Timestamps are integer seconds.
- Clocks, socket operations, failures of the store, and concurrent calls to `stop` are inputs. `Listener.Event` carries them for each pass of the receive loop, and `Monitor.Wake` for each pass of the cleanup worker.
- Each loop method is proved against a function of its inputs: `Listener.Serve` and `Listener.RunOutcome` for the receive loop, `Monitor.Sweep` and `Monitor.WorkerOutcome` for the cleanup worker, with `Monitor.Pass` for one pass of that loop. The properties are then lemmas about those functions.

Behaviour the model takes from the code:

- **A failed echo `sendto` ends the receive loop.** It is a `socket.error`, caught by the handler that `break`s. It does not abandon just that datagram. The row is stored anyway.
- **A bind failure only prints a message and ends the listener's thread.** `running` stays true, and nothing is reported to the caller.
- **Datagrams longer than 4096 bytes are cut by `recvfrom(4096)`, as on POSIX systems.** Both the stored row and the echo carry only the first 4096 bytes.
- **`get_messages` with an offset but no limit is a query error.** The query text then has OFFSET without LIMIT, which SQLite rejects. A negative LIMIT does not bound the result, and a negative OFFSET skips nothing.
- **The store and the fetch helpers render a non-UTF-8 payload differently.** The store's `data` falls back to hex. The fetch helpers' `message` uses the replacement decoder, which never raises, so their hex fallback is never taken. The two renderings agree exactly on valid UTF-8 (`UdpFetch.TextAgreesIffDecodable`).
- **The preview's `...` counts bytes, while its cut counts characters.** A text of 26 `é` characters is shown whole, followed by `...`.
- **`__repr__` always ends in `...)`**, whether or not the message was cut.
- **The cleanup worker's `else` branch (today's midnight still ahead) cannot be taken.** The deadline is always the next midnight, and the sleep is always positive.
- **`time.sleep` is not interrupted by `stop`.** The worker sees a stop only when it checks `running`: after the midnight sleep, or at the head of its loop.

## Model

| member | source | states |
|---|---|---|
| Utf8.Scan | src/udpmonitor/storage.py:71 | One decoding step consumes between 1 and all of the remaining bytes. A character it reads re-encodes to exactly the bytes consumed. An invalid prefix consumed as one bad sequence is at most 3 bytes. |
| Utf8.Decode | src/udpmonitor/storage.py:70-73 | Strict decoding either fails or yields a string of at most as many characters as the payload has bytes, and of at least a quarter as many. |
| Utf8.DecodeReplace | src/udpmonitor/udpfetch.py:88 | Replacement decoding never fails. The text has at most as many characters as the payload has bytes, and at least a quarter as many. |
| Utf8.DecodeEncode | src/udpmonitor/storage.py:71 | Strict decoding of the UTF-8 encoding of any string gives that string back. |
| Utf8.EncodeDecode | src/udpmonitor/storage.py:71 | Whenever strict decoding succeeds, re-encoding the text reproduces the payload byte for byte. |
| Utf8.ValidIffEncoding | src/udpmonitor/storage.py:70-73 | `decode('utf-8')` succeeds exactly when the bytes are the encoding of some string. |
| Utf8.ReplaceAgreesOnValid | src/udpmonitor/udpfetch.py:88 | On valid UTF-8, `decode('utf-8', errors='replace')` gives the same text as strict decoding. |
| Utf8.ReplaceMarksInvalid | src/udpmonitor/udpfetch.py:88 | On invalid UTF-8, the replacement decoding contains U+FFFD. |
| Text.Hex | src/udpmonitor/storage.py:149 | `bytes.hex()` has two characters per byte. |
| Text.HexDigitsOnly | src/udpmonitor/storage.py:149 | Every character of the hex rendering is a lowercase hex digit. |
| Text.UnhexHex | src/udpmonitor/storage.py:149 | The hex rendering reads back to the same bytes. |
| Text.ParseDecimal | src/udpmonitor/udpfetch.py:22 | `str(n)` of any integer reads back to `n`. |
| Storage.Insert | src/udpmonitor/storage.py:66-87 | The INSERT appends one row and keeps the earlier rows. The new id is the counter plus one, so it exceeds every id in the table. The row has the given time, sender and payload, and its size is the byte length. Its text is present exactly when the payload is the UTF-8 encoding of a string, and then encodes back to the payload. The table invariant is kept: rows well formed, ids increasing and at most the counter. |
| Storage.MessageStorage.constructor | src/udpmonitor/storage.py:16-52 | Opening the database file keeps the table stored in it, rows and id counter alike, because `CREATE TABLE IF NOT EXISTS` leaves an existing table alone. A new file has no rows and a counter of 0. |
| Storage.MessageStorage.StoreMessage | src/udpmonitor/storage.py:54-87 | The new state is `Insert` of the old. The returned id is positive, is the new counter, and exceeds the old counter. The row count rises by one. |
| Storage.IdsNeverReused | src/udpmonitor/storage.py:34 | Over any sequence of stores, clears and purges, the ids that stores return strictly increase. Each is larger than every id issued before the sequence, so AUTOINCREMENT never reuses an id. |
| Storage.ClearAll | src/udpmonitor/storage.py:179 | `DELETE FROM messages` leaves no rows and keeps the counter. |
| Storage.MessageStorage.ClearMessages | src/udpmonitor/storage.py:174-181 | After `clear_messages` the table is empty, so the count is 0. The id counter is unchanged. |
| Storage.MessageStorage.GetMessageCount | src/udpmonitor/storage.py:164-172 | The count is the number of rows. |
| Storage.KeepSince | src/udpmonitor/storage.py:203 | A row survives the DELETE exactly when its timestamp is not below the cutoff. The result is never longer than the input. |
| Storage.KeepSinceIncreasing | src/udpmonitor/storage.py:203 | The surviving rows keep increasing id order. |
| Storage.CountOlder | src/udpmonitor/storage.py:200 | `SELECT COUNT(*) ... WHERE timestamp < ?` is at most the number of rows. It is 0 exactly when no row is older than the cutoff. |
| Storage.CountOlderIsRemoved | src/udpmonitor/storage.py:199-203 | The count taken before the DELETE equals the number of rows the DELETE removes. |
| Storage.Purge | src/udpmonitor/storage.py:203 | The purge keeps exactly the rows with timestamp ≥ cutoff, keeps the counter and the invariant, and never grows the table. |
| Storage.PurgeAllEarlier | src/udpmonitor/storage.py:193-207 | When every row is older than the cutoff (as with `days=0`), the purge removes them all and counts them all. |
| Storage.MessageStorage.DeleteOldMessages | src/udpmonitor/storage.py:183-207 | The new state is the purge at `now - days` days. The returned count is the number of rows removed. |
| Storage.BuildQuery | src/udpmonitor/storage.py:108-131 | A row satisfies the WHERE conditions exactly when it matches a non-empty ip and a non-zero port, so empty or zero filters do not filter. The LIMIT clause is present exactly when the limit is truthy, and the OFFSET clause exactly when the offset is truthy. Each clause carries the value passed. |
| Storage.Where | src/udpmonitor/storage.py:120-121 | The filtered rows are exactly the table's rows satisfying every condition, each at most as often as in the table. |
| Storage.SortDesc | src/udpmonitor/storage.py:123 | `ORDER BY timestamp DESC` gives non-increasing timestamps and a permutation of its input. |
| Storage.WindowSlice | src/udpmonitor/storage.py:125-131 | An unfolding lemma for `Storage.Window`, SQLite's LIMIT and OFFSET. The window is the slice of the ordered rows that starts after the first `offset` rows, none skipped when the offset is negative. It holds at most `limit` rows, with no bound for a negative limit. What this means for a query is stated by `Storage.SelectWindow` and `Storage.Pagination`. |
| Storage.Execute | src/udpmonitor/storage.py:133-139 | Executing the query fails exactly when it has an OFFSET clause but no LIMIT clause. A successful query with a non-negative LIMIT returns at most that many rows. |
| Storage.Select | src/udpmonitor/storage.py:108-139 | The query fails exactly when a truthy offset comes without a truthy limit. |
| Storage.SelectProperties | src/udpmonitor/storage.py:112-131 | A successful query returns newest first. Every row is a table row matching the filter, with no row more often than in the table. A positive limit bounds the count. With no limit, every matching row is returned. |
| Storage.SelectWindow | src/udpmonitor/storage.py:123-131 | A page is the slice of the full ordered, filtered result that starts after `offset` rows and holds `min(limit, rest)` rows, or the whole rest when there is no limit. |
| Storage.Pagination | src/udpmonitor/storage.py:125-131 | The page of `first` rows at `offset`, followed by the page of `second` rows at `offset + first`, equals the page of `first + second` rows at `offset`. |
| Storage.DataField | src/udpmonitor/storage.py:143-151 | The `data` entry is the stored text when that is non-empty. Otherwise it is a rendering of two characters per payload byte. |
| Storage.DataFieldDeterminesPayload | src/udpmonitor/storage.py:143-151 | Either rendering gives the payload back: the text re-encodes to the payload, and the hex reads back to it. |
| Storage.FormatRows | src/udpmonitor/storage.py:141-160 | The loop yields one record per fetched row, in order. Each record has that row's id, timestamp, address, size and `data` entry. |
| Storage.MessageStorage.GetMessages | src/udpmonitor/storage.py:89-162 | On success, the result is the formatted records of the query's rows. It is an error exactly when the query is one. |
| UdpFetch.MessageText | src/udpmonitor/udpfetch.py:84-90 | `message` is the stored text when that is non-empty. For every stored row it is the replacement decoding of the payload, so the hex fallback is never reached. |
| UdpFetch.Fetch | src/udpmonitor/udpfetch.py:53-79 | The fetch is the query of the store with no offset, which always succeeds. Its rows come newest first, none more often than in the table. |
| UdpFetch.StoredTextIsReplaceDecoding | src/udpmonitor/udpfetch.py:84-85 | For a stored row, the stored text is what the replacement decoder reads from the payload. |
| UdpFetch.GetMessages | src/udpmonitor/udpfetch.py:25-102 | Messages correspond one to one, in order, to the store's query with this limit and no offset. Timestamps do not increase. Each message matches the non-empty ip and non-zero port filters. A positive limit bounds the count. An empty table gives `[]`. |
| UdpFetch.ToMessages | src/udpmonitor/udpfetch.py:81-100 | The loop yields one message per row, in order. Each carries the row's id, timestamp, address, raw bytes, size and text. |
| UdpFetch.FetchProperties | src/udpmonitor/udpfetch.py:53-79 | The rows fetched are newest first and match the filter. A positive limit bounds their count. An empty table gives none. |
| UdpFetch.FetchAllIsEveryRow | src/udpmonitor/udpfetch.py:53-79 | With no filter and no limit, the fetch returns every row of the table exactly once. |
| UdpFetch.GetMessageCount | src/udpmonitor/udpfetch.py:105-120 | The count equals the number of messages of the unfiltered fetch. It is zero exactly on an empty table. |
| UdpFetch.GetLatestMessage | src/udpmonitor/udpfetch.py:123-134 | The result is None exactly on an empty table. Otherwise it is the message of a table row that no row is newer than. |
| UdpFetch.LatestExists | src/udpmonitor/udpfetch.py:133-134 | The one-row page is empty exactly on an empty table. Its row is a table row with the largest timestamp. |
| UdpFetch.Repr | src/udpmonitor/udpfetch.py:21-22 | `__repr__` is the head with id, ip and port, then the first `min(50, len)` characters of the message, then `...)` in every case. |
| UdpFetch.ReprShowsIdAndIp | src/udpmonitor/udpfetch.py:22 | The representation starts with `Message(id=`. The digits that follow read back to the id, and they are followed by `, ip=` and the ip. |
| UdpFetch.TextAgreesIffDecodable | src/udpmonitor/udpfetch.py:84-90 | For a stored row, the store's `data` entry equals the fetch's `message` exactly when the payload is valid UTF-8. |
| Listener.ReceivedBytes | src/udpmonitor/udp_listener.py:67 | `recvfrom(4096)` keeps exactly the first `min(4096, n)` bytes of an `n`-byte datagram, so a shorter datagram is kept whole. |
| Listener.EchoResponse | src/udpmonitor/udp_listener.py:78-79 | The echo is the five prefix bytes followed by the data, so it is `len(data) + 5` bytes long. |
| Listener.EchoPrefixIsText | src/udpmonitor/udp_listener.py:78 | The prefix bytes are the UTF-8 encoding of `ECHO:`. |
| Listener.EmptyEcho | src/udpmonitor/udp_listener.py:78-82 | An empty datagram is echoed as exactly the five bytes `ECHO:`. |
| Listener.Preview | src/udpmonitor/udp_listener.py:85-90 | The preview of a payload that is not UTF-8 is `<binary: n bytes>`, with n the byte length. |
| Listener.PreviewOfText | src/udpmonitor/udp_listener.py:85-88 | For text, the preview is its first `min(50, len)` characters, followed by `...` exactly when the payload has more than 50 bytes. |
| Listener.DotsWithoutCut | src/udpmonitor/udp_listener.py:86-88 | A text of at most 50 characters but more than 50 bytes is shown whole and followed by `...`. |
| Listener.DotsWithoutCutHappens | src/udpmonitor/udp_listener.py:86-88 | Such texts exist: 26 copies of `é` are 26 characters and 52 bytes. |
| Listener.ServeDatagram | src/udpmonitor/udp_listener.py:67-100 | An unfolding lemma for `Listener.Serve` on an arriving datagram, which has four outcomes. If the store raises, an error line is logged, there is no echo, and the loop goes on. If the store succeeds and the send fails, the loop ends on a socket error. If the socket was closed by `stop`, the loop ends quietly. Otherwise there is an echo to the sender and two log lines with the new id and the preview, and the loop goes on. What the loop does overall is stated by `Listener.ServeStores` and `Listener.ServeEchoes`. |
| Listener.Serve | src/udpmonitor/udp_listener.py:64-100 | The receive loop sends at most one echo per event and never ends on the set-up error. The id counter never goes down. |
| Listener.RunOutcome | src/udpmonitor/udp_listener.py:55-106 | `_run` ends on the set-up error exactly when the bind fails, and then logs only that error. When the bind fails or `running` is already false, nothing is stored and nothing is echoed. |
| Listener.AcceptedFitBuffer | src/udpmonitor/udp_listener.py:67 | No stored payload is longer than 4096 bytes. |
| Listener.ServeStores | src/udpmonitor/udp_listener.py:67-75 | The table grows by exactly one row per datagram stored, in arrival order, and the rows already there stay. Each new row carries the sender's ip and port, the received bytes and the time. |
| Listener.ServeEchoes | src/udpmonitor/udp_listener.py:71-82 | The k-th echo is `ECHO:` plus the k-th stored payload, sent to its sender, so every echo follows its store. Only the last stored datagram can lack its echo. |
| Listener.ServeReportsSocketErrors | src/udpmonitor/udp_listener.py:95-98 | A socket error is logged exactly when the loop ends on one, which a stop never causes. The set-up error never comes from the loop. |
| Listener.StoreFailureContinues | src/udpmonitor/udp_listener.py:99-100 | A failing store logs the error, echoes nothing, leaves the table unchanged, and the loop continues with the next event. |
| Listener.UdpListener.constructor | src/udpmonitor/udp_listener.py:29-34 | A new listener keeps the given store, is not running, and has no socket and no thread. |
| Listener.UdpListener.Start | src/udpmonitor/udp_listener.py:36-44 | After `start` the listener is running. A thread is started only when it was not running already. |
| Listener.UdpListener.Stop | src/udpmonitor/udp_listener.py:46-53 | `stop` always clears `running` and leaves the socket closed. |
| Listener.UdpListener.Run | src/udpmonitor/udp_listener.py:55-106 | The replies, log lines, ending and new table are those of `RunOutcome`: a set-up error when the bind fails, nothing when not running, else `Serve` of the events. The socket is closed at the end. `running` is cleared only by a stop. |
| Monitor.TodayMidnight | main.py:61 | Today's midnight is a midnight, is never after now, and is less than a day before it. |
| Monitor.NextMidnight | main.py:65 | Tomorrow's midnight is a midnight strictly after now and at most a day later. It comes no later than any midnight after now. |
| Monitor.Deadline | main.py:59-67 | The deadline is always the next midnight: the `else` branch is never taken. |
| Monitor.SleepSeconds | main.py:69-73 | The sleep lasts more than 0 and at most 86400 seconds, so it always happens, and it ends on a midnight. |
| Monitor.Pass | main.py:57-88 | One pass never grows the table and keeps the id counter. The count it reports is the number of rows it removed. Every sleep lies in (0, 86400] seconds. A pass sleeps at least once and logs at most one line. A stop during the sleep or a failing purge leaves the table as it was. |
| Monitor.Sweep | main.py:56-88 | The worker loop keeps the table invariant and the id counter, and never grows the table. |
| Monitor.SweepLogsPerWake | main.py:56-88 | The worker logs at most one line per wake-up, and never more lines than sleeps. |
| Monitor.SweepSleepsBounded | main.py:69-88 | Every sleep the worker takes lies in (0, 86400] seconds. |
| Monitor.SweepKeeps | main.py:78-79 | The rows left are exactly the original rows no older than every purge's cutoff. Each cutoff is that wake-up's UTC time less `retention_days` days. |
| Monitor.SweepReportsRemovals | main.py:79-83 | The deleted counts the worker reports add up to the number of rows it removed. |
| Monitor.StopDuringSleepPurgesNothing | main.py:75-76 | After a stop during the sleep, the worker ends with no purge and no line. |
| Monitor.FailureRetriesAfterAnHour | main.py:85-88 | A failing pass logs the error, waits 3600 seconds, and goes on with the next wake-up, unless stopped meanwhile. |
| Monitor.PurgeThenContinue | main.py:78-83 | A successful pass reports its count, or reports that nothing was deleted, then goes on with the purged table. |
| Monitor.UdpMonitor.constructor | main.py:41-52 | A new monitor has a store opened on the given table and a listener on that store with no socket and no thread. It has the given retention period and is not running. |
| Monitor.UdpMonitor.Start | main.py:90-102 | After `start` the listener is running and `running` is set. One more cleanup worker is started. The listener keeps its socket state, and it gains a thread only when it was not running already. |
| Monitor.UdpMonitor.Stop | main.py:131-139 | `stop` never changes the listener's thread count. When running, it clears `running` and stops the listener. Otherwise it leaves the listener as it was, so a second `stop` is a no-op. |
| Monitor.UdpMonitor.RunCleanup | main.py:79-83 | The store becomes the purge at the wake-up time less the retention period. The line reports the number removed when positive, and otherwise that nothing was deleted. |
| Monitor.UdpMonitor.CleanupPass | main.py:57-88 | One pass of the loop does what `Monitor.Pass` states. It sleeps to the next midnight. A stop during the sleep ends the pass with no purge. Otherwise the pass purges, or it logs the error and waits an hour. `running` ends up cleared exactly when a stop ran during the pass. In that case the listener is stopped, with its socket closed. Otherwise the listener is left as it was. Its thread count never changes. |
| Monitor.UdpMonitor.CleanupWorker | main.py:54-88 | The sleeps, log lines and new table are those of `Sweep` of the wake-ups when the worker starts running, and nothing otherwise. `running` is still set at the end exactly when it was set at the start and no wake-up carried a stop (`NoStop`), and then the listener is as it was. If the worker stopped, the listener is stopped with its socket closed. If the worker never ran, the listener is as it was. The listener's thread count never changes. |
| Monitor.NoStopEverywhere | main.py:56-80 | The worker keeps running through a list of wake-ups exactly when none of them, at any position, stops it during the sleep or after the check. |

## Left out

- **SQLite itself.** Connections, SQL strings and parameters are not modelled. The query is modelled by its meaning: `BuildQuery` and `Execute`.
- **Timestamps.** ISO-8601 strings become integer seconds. The ordering edge case of `isoformat()` dropping zero microseconds is not modelled.
- **Sub-second precision of `datetime.now()` is not modelled.** The bounds on the sleep are the same with it.
- **Order among equal timestamps.** SQLite leaves it open. The model assumes one fixed tie order, later rows first as `SortDesc` picks it, and every query uses that same order. `SelectWindow`, `Pagination`, `Storage.MessageStorage.GetMessages` and `UdpFetch.GetMessages` hold under that assumption. SQLite does not promise the same order across LIMIT/OFFSET queries (a top-N sort and an index scan may break ties differently), so rows tied at a page boundary can be repeated or skipped there.
- **`threading.Lock`, the listener and cleanup threads, and `join(timeout=2)`.** Each store call is atomic and runs alone. A concurrent `stop` appears as an input at the points where the loops can observe it.
- **Sockets.** Creating, binding, `SO_REUSEADDR`, the blocking `recvfrom` and `sendto` become events and replies. A bind failure is a flag.
- **Windows receive semantics are not modelled.** The model follows POSIX, where `recvfrom(4096)` truncates an oversized datagram. On Windows it raises WSAEMSGSIZE, a `socket.error` that would end the loop.
- **`time.sleep`, `datetime.now()` and `datetime.utcnow()`.** Their values are inputs. The sleeps taken are an output list.
- **Fractional `retention_days`.** The retention period is a whole number of days.
- **The `OverflowError` of `datetime` near year 9999 is not modelled.** Integer time has no upper end.
- **Daylight-saving changes are not modelled.** Local time is a count of seconds in which midnights are multiples of 86400, as the naive `datetime` arithmetic of the source computes them.
- **`print` output.** The log is a list of line values. Not modelled: the retention period repeated in the cleanup lines, the banner lines of `start` and `stop`, and the `UDP Listener listening on …` line that `_run` prints after the bind.
- **The AUTOINCREMENT ceiling is not modelled.** SQLite's ids stop at 2^63−1, after which an insert fails with SQLITE_FULL. The model's ids are unbounded naturals.
- **The replacement decoder.** `errors='replace'` is modelled concretely by the maximal-subpart rule of CPython, not as an opaque function. The lemmas use only its agreement with strict decoding on valid input and its U+FFFD on invalid input.
- **Rest of the repository.** `src/udpmonitor/rest_api.py`, `run_production.py`, `src/udpmonitor/__init__.py`, and the argparse, signal, logging set-up and uvicorn parts of `main.py`, including the server run and the KeyboardInterrupt path of `start`, are not part of this model.
- **Configuration and handles.** The `db_path` parameters are not modelled: a database file is given by the table it holds. Neither are the `host` and `port` of the listener, nor its `storage or MessageStorage()` default. The fetch helpers take the table's rows as a value.
- Listener.UdpListener.Stop: the join with the listener thread is not modelled, and neither is the join's two-second timeout.
- Monitor.UdpMonitor.Start: ends before the API server runs. It counts cleanup workers started and does not model the threads themselves.
