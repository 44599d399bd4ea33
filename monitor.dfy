/**
  The application object (main.py): the `running` flag it shares with its
  nightly cleanup worker, the next-midnight deadline the worker sleeps
  until, and the worker loop that purges old messages and retries an hour
  after an error. Local time is a count of seconds from a local midnight;
  what the worker meets on each wake-up is an input.
*/
module Monitor {
  import opened Storage
  import Listener

  /** Seconds the worker waits after an error before it tries again. */
  const RetryDelay: int := 3600

  predicate IsMidnight(t: int) {
    t % Day == 0
  }

  /** `now.replace(hour=0, minute=0, second=0, microsecond=0)`. */
  function TodayMidnight(now: int): (m: int)
    ensures IsMidnight(m) && m <= now < m + Day
  {
    now - now % Day
  }

  /** `(now + timedelta(days=1)).replace(hour=0, minute=0, second=0, microsecond=0)`:
      the first midnight strictly after `now`. */
  function NextMidnight(now: int): (m: int)
    ensures IsMidnight(m) && now < m <= now + Day
    ensures forall k: int :: now < k * Day ==> m <= k * Day
  {
    var m := TodayMidnight(now + Day);
    assert m == (m / Day) * Day;
    m
  }

  /** The deadline of one wake-up: today's midnight if it is still ahead,
      else tomorrow's. Today's midnight is never ahead, so it is always
      tomorrow's. */
  function Deadline(now: int): (d: int)
    ensures d == NextMidnight(now)
  {
    var today := TodayMidnight(now);
    if today <= now then NextMidnight(now) else today
  }

  /** `(next_midnight - now).total_seconds()`: always positive, so the
      sleep always happens, and never more than a day. */
  function SleepSeconds(now: int): (s: int)
    ensures 0 < s <= Day
    ensures IsMidnight(now + s)
  {
    Deadline(now) - now
  }

  /** What the worker meets on one pass: the local time it reads, whether
      `stop` ran while it slept, the UTC time the purge reads, whether the
      purge raised, and whether `stop` ran after the worker's check of
      `running` (during the purge or the hour's wait), which the next check
      at the head of the loop sees. */
  datatype Wake = Wake(localNow: int, stopDuringSleep: bool, utcNow: int, purgeFails: bool, stopAfterCheck: bool)

  /** The lines the worker prints. */
  datatype CleanupLine = Deleted(count: nat) | NothingToDelete | CleanupError

  /** The table after the worker, the sleeps it took, the lines it printed. */
  datatype Swept = Swept(table: Table, sleeps: seq<int>, log: seq<CleanupLine>)

  function Then(sleeps: seq<int>, log: seq<CleanupLine>, o: Swept): Swept {
    Swept(o.table, sleeps + o.sleeps, log + o.log)
  }

  /** One pass of the worker loop, `running` being true when it starts: the
      sleep until the next midnight, then, unless stopped during it, the
      purge with the retention period and its line, or the error line and
      an hour's wait. */
  function Pass(t: Table, retentionDays: int, w: Wake): (p: Swept)
    requires ValidTable(t)
    ensures ValidTable(p.table) && Shrunk(t, p.table)
    ensures Reported(p.log) == |t.rows| - |p.table.rows|
    ensures WithinADay(p.sleeps) && |p.log| <= 1 <= |p.sleeps|
    ensures w.stopDuringSleep || w.purgeFails ==> p.table == t
  {
    var pause := SleepSeconds(w.localNow);
    if w.stopDuringSleep then Swept(t, [pause], [])
    else if w.purgeFails then Swept(t, [pause, RetryDelay], [CleanupError])
    else
      var next := Purge(t, w.utcNow - retentionDays * Day);
      var removed := |t.rows| - |next.rows|;
      var line := if removed > 0 then Deleted(removed) else NothingToDelete;
      assert [line][1..] == [];
      Swept(next, [pause], [line])
  }

  /** `u` has the counter of `t` and no more rows. */
  predicate Shrunk(t: Table, u: Table) {
    u.lastId == t.lastId && |u.rows| <= |t.rows|
  }

  /** The wake-ups the worker goes on to after `w`: none once a stop ran
      during the pass. */
  function After(w: Wake, rest: seq<Wake>): (r: seq<Wake>)
    ensures r == [] || r == rest
  {
    if w.stopDuringSleep || w.stopAfterCheck then [] else rest
  }

  /** What the worker loop does with `wakes`, `running` being true when it
      starts. */
  function Sweep(t: Table, retentionDays: int, wakes: seq<Wake>): (o: Swept)
    requires ValidTable(t)
    ensures ValidTable(o.table) && Shrunk(t, o.table)
    decreases |wakes|
  {
    if wakes == [] then Swept(t, [], [])
    else
      var p := Pass(t, retentionDays, wakes[0]);
      Then(p.sleeps, p.log, Sweep(p.table, retentionDays, After(wakes[0], wakes[1..])))
  }

  function WorkerOutcome(running: bool, t: Table, retentionDays: int, wakes: seq<Wake>): Swept
    requires ValidTable(t)
  {
    if running then Sweep(t, retentionDays, wakes) else Swept(t, [], [])
  }

  lemma SweepUnfold(t: Table, retentionDays: int, w: Wake, rest: seq<Wake>)
    requires ValidTable(t)
    ensures var p := Pass(t, retentionDays, w);
      Sweep(t, retentionDays, [w] + rest) == Then(p.sleeps, p.log, Sweep(p.table, retentionDays, After(w, rest)))
  {
    assert ([w] + rest)[0] == w && ([w] + rest)[1..] == rest;
  }

  /** The cutoffs of the purges the worker runs, independently of its
      outputs: one per wake-up that is not stopped during its sleep and does
      not fail, up to the first stop. */
  function Cutoffs(retentionDays: int, wakes: seq<Wake>): seq<int>
    decreases |wakes|
  {
    if wakes == [] || wakes[0].stopDuringSleep then []
    else
      var later := Cutoffs(retentionDays, After(wakes[0], wakes[1..]));
      if wakes[0].purgeFails then later
      else [wakes[0].utcNow - retentionDays * Day] + later
  }

  /** No wake-up carries a stop, so `running` stays set through all of them. */
  predicate NoStop(wakes: seq<Wake>)
    decreases |wakes|
  {
    wakes == [] || (!wakes[0].stopDuringSleep && !wakes[0].stopAfterCheck && NoStop(wakes[1..]))
  }

  /** `NoStop` holds exactly when no wake-up, wherever it is, carries a stop. */
  lemma {:induction false} NoStopEverywhere(wakes: seq<Wake>)
    ensures NoStop(wakes) <==> forall k :: 0 <= k < |wakes| ==> !wakes[k].stopDuringSleep && !wakes[k].stopAfterCheck
    decreases |wakes|
  {
    if wakes != [] {
      NoStopEverywhere(wakes[1..]);
      assert forall k :: 0 < k < |wakes| ==> wakes[k] == wakes[1..][k - 1];
    }
  }

  /** One wake-up at a time: the stop-free suffix from `i` is wake-up `i` then the suffix after it. */
  lemma NoStopFrom(wakes: seq<Wake>, i: nat)
    requires i <= |wakes|
    ensures i == |wakes| ==> NoStop(wakes[i..])
    ensures i < |wakes| ==>
              NoStop(wakes[i..]) == (!wakes[i].stopDuringSleep && !wakes[i].stopAfterCheck && NoStop(wakes[i + 1..]))
  {
    if i < |wakes| {
      assert wakes[i..][0] == wakes[i] && wakes[i..][1..] == wakes[i + 1..];
    } else {
      assert wakes[i..] == [];
    }
  }

  /** Rows removed according to the log. */
  function Reported(log: seq<CleanupLine>): nat {
    if log == [] then 0
    else (if log[0].Deleted? then log[0].count else 0) + Reported(log[1..])
  }

  lemma {:induction false} ReportedConcat(a: seq<CleanupLine>, b: seq<CleanupLine>)
    ensures Reported(a + b) == Reported(a) + Reported(b)
    decreases |a|
  {
    if a != [] {
      assert (a + b)[0] == a[0] && (a + b)[1..] == a[1..] + b;
      ReportedConcat(a[1..], b);
    } else {
      assert a + b == b;
    }
  }

  /** The worker logs at most one line per wake-up, and never more lines
      than it takes sleeps. */
  lemma {:induction false} SweepLogsPerWake(t: Table, retentionDays: int, wakes: seq<Wake>)
    requires ValidTable(t)
    ensures var o := Sweep(t, retentionDays, wakes);
      |o.log| <= |wakes| && |o.log| <= |o.sleeps|
    decreases |wakes|
  {
    if wakes != [] {
      var p := Pass(t, retentionDays, wakes[0]);
      SweepLogsPerWake(p.table, retentionDays, After(wakes[0], wakes[1..]));
    }
  }

  /** Sleeps that are all positive and at most a day. */
  predicate WithinADay(sleeps: seq<int>) {
    forall k :: 0 <= k < |sleeps| ==> 0 < sleeps[k] <= Day
  }

  lemma WithinADayConcat(a: seq<int>, b: seq<int>)
    requires WithinADay(a) && WithinADay(b)
    ensures WithinADay(a + b)
  {
    forall k | 0 <= k < |a + b| ensures 0 < (a + b)[k] <= Day {
      if k >= |a| {
        assert (a + b)[k] == b[k - |a|];
      }
    }
  }

  /** Every sleep of the worker is positive and at most a day. */
  lemma {:induction false} SweepSleepsBounded(t: Table, retentionDays: int, wakes: seq<Wake>)
    requires ValidTable(t)
    ensures WithinADay(Sweep(t, retentionDays, wakes).sleeps)
    decreases |wakes|
  {
    if wakes != [] {
      var p := Pass(t, retentionDays, wakes[0]);
      var later := After(wakes[0], wakes[1..]);
      SweepSleepsBounded(p.table, retentionDays, later);
      assert WithinADay(p.sleeps);
      WithinADayConcat(p.sleeps, Sweep(p.table, retentionDays, later).sleeps);
    }
  }

  /** A timestamp no older than any of the cutoffs. */
  predicate RecentEnough(timestamp: int, cutoffs: seq<int>) {
    forall k :: 0 <= k < |cutoffs| ==> timestamp >= cutoffs[k]
  }

  lemma RecentEnoughCons(timestamp: int, cutoff: int, rest: seq<int>)
    ensures RecentEnough(timestamp, [cutoff] + rest) <==> timestamp >= cutoff && RecentEnough(timestamp, rest)
  {
    var cutoffs := [cutoff] + rest;
    if timestamp >= cutoff && RecentEnough(timestamp, rest) {
      forall k | 0 < k < |cutoffs| ensures timestamp >= cutoffs[k] {
        assert cutoffs[k] == rest[k - 1];
      }
    }
    if RecentEnough(timestamp, cutoffs) {
      assert cutoffs[0] == cutoff;
      forall k | 0 <= k < |rest| ensures timestamp >= rest[k] {
        assert cutoffs[k + 1] == rest[k];
      }
    }
  }

  /** The rows left are exactly those at least as recent as every cutoff the
      worker purged with, each cutoff being the UTC time of its wake-up
      less the retention period. */
  lemma {:induction false} SweepKeeps(t: Table, retentionDays: int, wakes: seq<Wake>)
    requires ValidTable(t)
    ensures KeptExactly(Sweep(t, retentionDays, wakes).table.rows, t, Cutoffs(retentionDays, wakes))
    decreases |wakes|
  {
    if wakes == [] {
      NoCutoffKeepsAll(t);
    } else {
      var w := wakes[0];
      var p := Pass(t, retentionDays, w);
      var later := After(w, wakes[1..]);
      var final := Sweep(p.table, retentionDays, later).table.rows;
      SweepKeeps(p.table, retentionDays, later);
      assert Sweep(t, retentionDays, wakes).table.rows == final;
      if w.stopDuringSleep {
        assert Cutoffs(retentionDays, wakes) == [] && later == [];
        NoCutoffKeepsAll(t);
      } else if w.purgeFails {
        assert Cutoffs(retentionDays, wakes) == Cutoffs(retentionDays, later);
      } else {
        var cutoff := w.utcNow - retentionDays * Day;
        assert Cutoffs(retentionDays, wakes) == [cutoff] + Cutoffs(retentionDays, later);
        PurgeThenKeep(t, cutoff, Cutoffs(retentionDays, later), final);
      }
    }
  }

  /** `final` holds exactly the rows of `t` at least as recent as every
      cutoff. */
  ghost predicate KeptExactly(final: seq<Row>, t: Table, cutoffs: seq<int>) {
    forall x :: x in final <==> x in t.rows && RecentEnough(x.timestamp, cutoffs)
  }

  lemma NoCutoffKeepsAll(t: Table)
    ensures KeptExactly(t.rows, t, [])
  {
  }

  /** A row survives a purge and then later cutoffs exactly when it is no
      older than all of them. */
  lemma PurgeThenKeep(t: Table, cutoff: int, later: seq<int>, final: seq<Row>)
    requires ValidTable(t)
    requires KeptExactly(final, Purge(t, cutoff), later)
    ensures KeptExactly(final, t, [cutoff] + later)
  {
    forall x: Row {
      RecentEnoughCons(x.timestamp, cutoff, later);
    }
  }

  /** The counts reported add up to the rows the worker removed. */
  lemma {:induction false} SweepReportsRemovals(t: Table, retentionDays: int, wakes: seq<Wake>)
    requires ValidTable(t)
    ensures var o := Sweep(t, retentionDays, wakes);
      |o.table.rows| <= |t.rows| && Reported(o.log) == |t.rows| - |o.table.rows|
    decreases |wakes|
  {
    if wakes != [] {
      var p := Pass(t, retentionDays, wakes[0]);
      var later := After(wakes[0], wakes[1..]);
      SweepReportsRemovals(p.table, retentionDays, later);
      ReportedConcat(p.log, Sweep(p.table, retentionDays, later).log);
    }
  }

  /** A stop during the sleep ends the worker before any purge. */
  lemma StopDuringSleepPurgesNothing(t: Table, retentionDays: int, w: Wake, rest: seq<Wake>)
    requires ValidTable(t) && w.stopDuringSleep
    ensures Sweep(t, retentionDays, [w] + rest) == Swept(t, [SleepSeconds(w.localNow)], [])
  {
    SweepUnfold(t, retentionDays, w, rest);
    assert [SleepSeconds(w.localNow)] + [] == [SleepSeconds(w.localNow)];
  }

  /** A failing purge is reported, the worker waits an hour and goes on with
      the next wake-up unless stopped meanwhile, the table unchanged. */
  lemma FailureRetriesAfterAnHour(t: Table, retentionDays: int, w: Wake, rest: seq<Wake>)
    requires ValidTable(t) && !w.stopDuringSleep && w.purgeFails
    ensures Sweep(t, retentionDays, [w] + rest)
         == Then([SleepSeconds(w.localNow), RetryDelay], [CleanupError],
                 Sweep(t, retentionDays, if w.stopAfterCheck then [] else rest))
  {
    SweepUnfold(t, retentionDays, w, rest);
  }

  /** A successful purge is reported with its count, or as nothing to
      delete, and the worker goes on with the purged table unless stopped
      meanwhile. */
  lemma PurgeThenContinue(t: Table, retentionDays: int, w: Wake, rest: seq<Wake>)
    requires ValidTable(t) && !w.stopDuringSleep && !w.purgeFails
    ensures var next := Purge(t, w.utcNow - retentionDays * Day);
      var removed := |t.rows| - |next.rows|;
      Sweep(t, retentionDays, [w] + rest)
        == Then([SleepSeconds(w.localNow)], [if removed > 0 then Deleted(removed) else NothingToDelete],
                Sweep(next, retentionDays, if w.stopAfterCheck then [] else rest))
  {
    SweepUnfold(t, retentionDays, w, rest);
  }

  /** One pass carries the worker's trace forward: what is left to do
      after it is the sweep of the remaining wake-ups from the new table,
      and nothing at all once a stop ran. */
  lemma PassExtendsTrace(whole: Swept, sleeps: seq<int>, log: seq<CleanupLine>, here: Table, retentionDays: int,
                         w: Wake, rest: seq<Wake>, pauses: seq<int>, lines: seq<CleanupLine>, now: Table)
    requires ValidTable(here) && ValidTable(now)
    requires whole == Then(sleeps, log, Sweep(here, retentionDays, [w] + rest))
    requires Pass(here, retentionDays, w) == Swept(now, pauses, lines)
    ensures whole == Then(sleeps + pauses, log + lines, Sweep(now, retentionDays, After(w, rest)))
    ensures After(w, rest) == [] ==> whole == Swept(now, sleeps + pauses, log + lines)
    ensures !(w.stopDuringSleep || w.stopAfterCheck) ==>
              whole == Then(sleeps + pauses, log + lines, Sweep(now, retentionDays, rest))
  {
    SweepUnfold(here, retentionDays, w, rest);
    ThenTwice(sleeps, log, pauses, lines, Sweep(now, retentionDays, After(w, rest)));
    if After(w, rest) == [] {
      assert (sleeps + pauses) + [] == sleeps + pauses && (log + lines) + [] == log + lines;
    }
  }

  lemma ThenTwice(s1: seq<int>, l1: seq<CleanupLine>, s2: seq<int>, l2: seq<CleanupLine>, o: Swept)
    ensures Then(s1, l1, Then(s2, l2, o)) == Then(s1 + s2, l1 + l2, o)
  {
    assert s1 + (s2 + o.sleeps) == (s1 + s2) + o.sleeps;
    assert l1 + (l2 + o.log) == (l1 + l2) + o.log;
  }

  /** One turn of the worker loop, on values: the pass on wake-up `i` either leaves the rest of
      the sweep still to run, or ends it with the trace gathered so far. */
  lemma WorkerStep(whole: Swept, retentionDays: int, wakes: seq<Wake>, i: nat, going: bool,
                   sleeps: seq<int>, log: seq<CleanupLine>, here: Table,
                   pauses: seq<int>, lines: seq<CleanupLine>, now: Table)
    requires ValidTable(here) && ValidTable(now) && i < |wakes|
    requires going == NoStop(wakes[i..])
    requires whole == Then(sleeps, log, Sweep(here, retentionDays, wakes[i..]))
    requires Pass(here, retentionDays, wakes[i]) == Swept(now, pauses, lines)
    ensures var on := !(wakes[i].stopDuringSleep || wakes[i].stopAfterCheck);
      && going == (on && NoStop(wakes[i + 1..]))
      && (on ==> whole == Then(sleeps + pauses, log + lines, Sweep(now, retentionDays, wakes[i + 1..])))
      && (!on ==> whole == Swept(now, sleeps + pauses, log + lines))
  {
    assert wakes[i..] == [wakes[i]] + wakes[i + 1..];
    NoStopFrom(wakes, i);
    PassExtendsTrace(whole, sleeps, log, here, retentionDays, wakes[i], wakes[i + 1..], pauses, lines, now);
  }

  // ---------------------------------------------------------------------
  // The application object

  class UdpMonitor {
    const storage: MessageStorage
    const listener: Listener.UdpListener
    const retentionDays: int
    var running: bool
    /** Cleanup threads started so far. */
    var cleanupThreads: nat

    /** A monitor over the database file whose table is `stored`. */
    constructor (retentionDays: int, stored: Table)
      requires ValidTable(stored)
      ensures fresh(storage) && fresh(listener) && listener.storage == storage
      ensures storage.Valid() && storage.Contents() == stored
      ensures !listener.running && !listener.sockOpen && listener.threads == 0
      ensures this.retentionDays == retentionDays && !running && cleanupThreads == 0
    {
      var store := new MessageStorage(stored);
      storage := store;
      listener := new Listener.UdpListener(store);
      this.retentionDays := retentionDays;
      running := false;
      cleanupThreads := 0;
    }

    /** `start` up to the API server: starts the listener, sets `running`,
        then starts one more cleanup worker. */
    method Start()
      modifies this, listener
      ensures running && listener.running
      ensures cleanupThreads == old(cleanupThreads) + 1
      ensures listener.sockOpen == old(listener.sockOpen)
      ensures listener.threads == if old(listener.running) then old(listener.threads) else old(listener.threads) + 1
    {
      listener.Start();
      running := true;
      cleanupThreads := cleanupThreads + 1;
    }

    /** `stop`: nothing when not running, else clears `running` and stops the
        listener; so a second stop does nothing. */
    method Stop()
      modifies this, listener
      ensures !running && cleanupThreads == old(cleanupThreads)
      ensures listener.threads == old(listener.threads)
      ensures old(running) ==> !listener.running && !listener.sockOpen
      ensures !old(running) ==> listener.running == old(listener.running)
                                && listener.sockOpen == old(listener.sockOpen)
    {
      if !running {
        return;
      }
      running := false;
      listener.Stop();
    }

    /** One pass of `_cleanup_worker`'s loop, `running` being true: it does
        what `Pass` says, calling `stop` where the wake-up has one, so that
        `running` ends up cleared exactly when a stop ran. */
    method CleanupPass(w: Wake) returns (pauses: seq<int>, lines: seq<CleanupLine>)
      requires storage.Valid() && running
      modifies this, storage, listener
      ensures storage.Valid() && cleanupThreads == old(cleanupThreads)
      ensures running == !(w.stopDuringSleep || w.stopAfterCheck)
      ensures listener.threads == old(listener.threads)
      ensures running ==> listener.running == old(listener.running) && listener.sockOpen == old(listener.sockOpen)
      ensures !running ==> !listener.running && !listener.sockOpen
      ensures Swept(storage.Contents(), pauses, lines) == Pass(old(storage.Contents()), retentionDays, w)
    {
      pauses, lines := [], [];
      var now := w.localNow;
      var todayMidnight := TodayMidnight(now);
      var nextMidnight;
      if todayMidnight <= now {
        nextMidnight := NextMidnight(now);
      } else {
        nextMidnight := todayMidnight;
      }
      var sleepSeconds := nextMidnight - now;
      assert sleepSeconds == SleepSeconds(now);
      if sleepSeconds > 0 {
        pauses := pauses + [sleepSeconds];
      }
      if w.stopDuringSleep {
        Stop();
      }
      if !running {
        return;
      }
      if w.purgeFails {
        lines := lines + [CleanupError];
        pauses := pauses + [RetryDelay];
      } else {
        lines := RunCleanup(w.utcNow);
      }
      if w.stopAfterCheck {
        Stop();
      }
    }

    /** The purge of one pass and the line it prints: the rows older than
        the retention period at `utcNow` go, and the line reports how many. */
    method RunCleanup(utcNow: int) returns (lines: seq<CleanupLine>)
      requires storage.Valid()
      modifies storage
      ensures storage.Valid()
      ensures var next := Purge(old(storage.Contents()), utcNow - retentionDays * Day);
        var removed := |old(storage.Contents()).rows| - |next.rows|;
        storage.Contents() == next && lines == [if removed > 0 then Deleted(removed) else NothingToDelete]
    {
      var deletedCount := storage.DeleteOldMessages(retentionDays, utcNow);
      if deletedCount > 0 {
        lines := [Deleted(deletedCount)];
      } else {
        lines := [NothingToDelete];
      }
    }

    /** `_cleanup_worker`: passes while `running` holds. */
    method CleanupWorker(wakes: seq<Wake>) returns (sleeps: seq<int>, log: seq<CleanupLine>)
      requires storage.Valid()
      modifies this, storage, listener
      ensures storage.Valid() && cleanupThreads == old(cleanupThreads)
      ensures listener.threads == old(listener.threads)
      ensures running == (old(running) && NoStop(wakes))
      ensures running || !old(running) ==>
                listener.running == old(listener.running) && listener.sockOpen == old(listener.sockOpen)
      ensures old(running) && !running ==> !listener.running && !listener.sockOpen
      ensures var o := WorkerOutcome(old(running), old(storage.Contents()), retentionDays, wakes);
        storage.Contents() == o.table && sleeps == o.sleeps && log == o.log
    {
      sleeps, log := [], [];
      if !running {
        // the loop below would not run once
        return;
      }
      ghost var t0 := storage.Contents();
      ghost var threads0, listening0, open0 := listener.threads, listener.running, listener.sockOpen;
      ghost var going := NoStop(wakes);
      var i := 0;
      while running
        invariant 0 <= i <= |wakes|
        invariant storage.Valid() && cleanupThreads == old(cleanupThreads)
        invariant going == (running && NoStop(wakes[i..]))
        invariant listener.threads == threads0
        invariant running ==> listener.running == listening0 && listener.sockOpen == open0
        invariant !running ==> !listener.running && !listener.sockOpen
        invariant running ==> Sweep(t0, retentionDays, wakes)
                                == Then(sleeps, log, Sweep(storage.Contents(), retentionDays, wakes[i..]))
        invariant !running ==> Sweep(t0, retentionDays, wakes) == Swept(storage.Contents(), sleeps, log)
        decreases |wakes| - i, running
      {
        if i == |wakes| {
          // still asleep when the wake-ups run out
          assert sleeps + [] == sleeps && log + [] == log;
          NoStopFrom(wakes, i);
          break;
        }
        ghost var here := storage.Contents();
        var pauses, lines := CleanupPass(wakes[i]);
        WorkerStep(Sweep(t0, retentionDays, wakes), retentionDays, wakes, i, going,
                   sleeps, log, here, pauses, lines, storage.Contents());
        sleeps, log := sleeps + pauses, log + lines;
        i := i + 1;
      }
    }
  }
}
