/**
 * app.py: the `App` object. Its fields are those of `AppState.Mem`; the cache and
 * the two log tails are objects it owns. Each method is proved against the
 * function of module `AppState` that states its effect.
 */
module App {
  import opened Wrappers
  import opened Text
  import opened Records
  import opened Sorting
  import opened AppState
  import CacheDb
  import History
  import Parsers
  import Tailer
  import Asn

  class App {
    const cfg: Config
    const cache: CacheDb.CacheDB
    const tAuth: Tailer.TailFile
    const tF2b: Tailer.TailFile

    var events: seq<Event>
    var ipEvents: map<string, seq<Event>>
    var realtime: map<string, Counters>
    var order: seq<string>
    var pending: int
    var lastCommit: int
    var lastPoll: int
    var pollKnown: set<string>
    var lastAsn: int
    var asnCursor: Option<string>

    function Memory(): Mem
      reads this
    {
      Mem(events, ipEvents, realtime, order, pending, lastCommit, lastPoll, pollKnown, lastAsn, asnCursor)
    }

    ghost predicate Valid()
      reads this, tAuth, tF2b
    {
      tAuth != tF2b && tAuth.Valid() && tF2b.Valid() && tAuth.startAtEnd && tF2b.startAtEnd && Ordered(Memory())
    }

    /** The fields `__init__` sets before its start-up work; `stored` is what the cache file already holds. */
    constructor (cfg: Config, stored: CacheDb.Tables, clock: int)
      ensures Valid() && this.cfg == cfg && fresh(cache) && fresh(tAuth) && fresh(tF2b)
      ensures Memory() == Mem([], map[], map[], [], 0, clock, 0, {}, 0, None)
      ensures cache.Contents() == stored && cache.durable == stored
      ensures tAuth.State() == Tailer.TailState(None, None, 0, false) == tF2b.State()
    {
      var c := new CacheDb.CacheDB(stored);
      this.cfg := cfg;
      cache := c;
      tAuth := new Tailer.TailFile(true);
      tF2b := new Tailer.TailFile(true);
      events, ipEvents, realtime, order := [], map[], map[], [];
      pending, lastCommit, lastPoll, pollKnown := 0, clock, 0, {};
      lastAsn, asnCursor := 0, None;
    }

    /** `log_sys`. */
    method LogSys(ts: int, kind: Kind, ip: string, msg: string)
      requires Valid()
      modifies this
      ensures Valid() && Memory() == Logged(old(Memory()), ts, kind, ip, msg)
    {
      events := Push(events, Event(ts, Sys, kind, ip, "", msg), MaxEvents);
    }

    /** `_push_event`. */
    method PushEvent(ev: Event)
      requires Valid()
      modifies this
      ensures Valid() && Memory() == Pushed(old(Memory()), ev)
    {
      events := Push(events, ev, MaxEvents);
      var mine := if ev.ip in ipEvents then ipEvents[ev.ip] else [];
      ipEvents := ipEvents[ev.ip := Push(mine, ev, MaxIpEvents)];
    }

    /** `_handle_event`; `raised` is what the cache write raised. */
    method HandleEvent(e: Incoming, ts: int) returns (ghost raised: Option<string>)
      requires Valid()
      modifies this, cache
      ensures Valid() && cache.durable == old(cache.durable)
      ensures CacheDb.Outcome(cache.Contents(), raised) == CacheDb.IpEvent(old(cache.Contents()), e.ip, ts, e.kind, e.jail, cfg.showOk, cfg.subnetPrefix)
      ensures Memory() == Recorded(old(Memory()), e, ts, raised)
    {
      Count(e.kind, e.ip);
      raised := Store(e.ip, e.kind, e.jail, ts);
      PushEvent(Event(ts, e.src, e.kind, e.ip, e.jail, ""));
    }

    /** The cache write of `_handle_event` and what follows it. */
    method Store(ip: string, kind: Kind, jail: string, ts: int) returns (ghost raised: Option<string>)
      requires Valid()
      modifies this, cache
      ensures Valid() && cache.durable == old(cache.durable)
      ensures CacheDb.Outcome(cache.Contents(), raised) == CacheDb.IpEvent(old(cache.Contents()), ip, ts, kind, jail, cfg.showOk, cfg.subnetPrefix)
      ensures Memory() == Stored(old(Memory()), ip, ts, raised)
    {
      var r := cache.UpsertIpEvent(ip, ts, kind, jail, cfg.showOk, cfg.subnetPrefix);
      raised := r;
      if r.None? {
        MarkSqlDirty();
      } else {
        LogSys(ts, Err, ip, "sqlite upsert failed: " + r.value);
      }
    }

    /** `_mark_sql_dirty`. */
    method MarkSqlDirty()
      requires Valid()
      modifies this
      ensures Valid() && Memory() == old(Memory()).(pending := old(pending) + 1)
    {
      pending := pending + 1;
    }

    /** `realtime.setdefault(ip, zeros)`. */
    method SetDefault(ip: string)
      requires Valid()
      modifies this
      ensures Valid() && Memory() == Seen(old(Memory()), ip)
    {
      ghost var want := Seen(Memory(), ip);
      SeenOrdered(Memory(), ip);
      if ip !in realtime {
        realtime := realtime[ip := Zero];
        order := order + [ip];
      }
      assert realtime == want.realtime && order == want.order;
    }

    /** The counters part of `_handle_event`: `setdefault`, then the increment. */
    method Count(kind: Kind, ip: string)
      requires Valid()
      modifies this
      ensures Valid() && Memory() == Counted(old(Memory()), kind, ip)
    {
      SetDefault(ip);
      BumpedOrdered(Memory(), ip, kind);
      realtime := Bumped(realtime, ip, kind);
    }

    /** `_handle_event` for each of `es`, in order. */
    method HandleAll(es: seq<Incoming>, ts: int)
      requires Valid()
      modifies this, cache
      ensures Valid() && cache.durable == old(cache.durable)
      ensures (Memory(), cache.Contents()) == HandledAll(old(Memory()), old(cache.Contents()), cfg, es, ts)
    {
      var i := 0;
      while i < |es|
        invariant 0 <= i <= |es| && Valid() && cache.durable == old(cache.durable)
        invariant (Memory(), cache.Contents()) == HandledAll(old(Memory()), old(cache.Contents()), cfg, es[..i], ts)
      {
        HandledAllNext(old(Memory()), old(cache.Contents()), cfg, es, i, ts);
        ghost var _ := HandleEvent(es[i], ts);
        i := i + 1;
      }
      assert es[..i] == es;
    }

    /** The auth-log half of `process_log_tails`, on the lines the tail gave. */
    method HandleAuthLines(lines: seq<string>, ts: int)
      requires Valid()
      modifies this, cache
      ensures Valid() && cache.durable == old(cache.durable)
      ensures (Memory(), cache.Contents()) == HandledAll(old(Memory()), old(cache.Contents()), cfg, AuthIncoming(lines, cfg.showOk), ts)
    {
      var i := 0;
      while i < |lines|
        invariant 0 <= i <= |lines| && Valid() && cache.durable == old(cache.durable)
        invariant (Memory(), cache.Contents()) == HandledAll(old(Memory()), old(cache.Contents()), cfg, AuthIncoming(lines[..i], cfg.showOk), ts)
      {
        HandledAuthNext(old(Memory()), old(cache.Contents()), cfg, lines, i, ts);
        HandleAuthLine(lines[i], ts);
        i := i + 1;
      }
      assert lines[..i] == lines;
    }

    /** One auth-log line of `process_log_tails`. */
    method HandleAuthLine(line: string, ts: int)
      requires Valid()
      modifies this, cache
      ensures Valid() && cache.durable == old(cache.durable)
      ensures (Memory(), cache.Contents()) == HandledAll(old(Memory()), old(cache.Contents()), cfg, AuthEvent(line, cfg.showOk), ts)
    {
      match Parsers.ParseSshLine(line) {
        case None =>
        case Some((ip, kind)) =>
          if kind != Ok || cfg.showOk {
            HandledOne(Memory(), cache.Contents(), cfg, Incoming(Auth, kind, ip, ""), ts);
            ghost var _ := HandleEvent(Incoming(Auth, kind, ip, ""), ts);
          }
      }
    }

    /** The fail2ban-log half of `process_log_tails`, on the lines the tail gave. */
    method HandleF2bLines(lines: seq<string>, ts: int)
      requires Valid()
      modifies this, cache
      ensures Valid() && cache.durable == old(cache.durable)
      ensures (Memory(), cache.Contents()) == HandledAll(old(Memory()), old(cache.Contents()), cfg, F2bIncoming(lines), ts)
    {
      var i := 0;
      while i < |lines|
        invariant 0 <= i <= |lines| && Valid() && cache.durable == old(cache.durable)
        invariant (Memory(), cache.Contents()) == HandledAll(old(Memory()), old(cache.Contents()), cfg, F2bIncoming(lines[..i]), ts)
      {
        HandledF2bNext(old(Memory()), old(cache.Contents()), cfg, lines, i, ts);
        HandleF2bLine(lines[i], ts);
        i := i + 1;
      }
      assert lines[..i] == lines;
    }

    /** One fail2ban-log line of `process_log_tails`. */
    method HandleF2bLine(line: string, ts: int)
      requires Valid()
      modifies this, cache
      ensures Valid() && cache.durable == old(cache.durable)
      ensures (Memory(), cache.Contents()) == HandledAll(old(Memory()), old(cache.Contents()), cfg, F2bEvent(line), ts)
    {
      match Parsers.ParseF2bLine(line) {
        case None =>
        case Some((ip, kind, jail)) =>
          HandledOne(Memory(), cache.Contents(), cfg, Incoming(F2b, kind, ip, jail), ts);
          ghost var _ := HandleEvent(Incoming(F2b, kind, ip, jail), ts);
      }
    }

    /**
     * `process_log_tails`: read what both logs gained (`authDisk` and
     * `f2bDisk` are the files as they are now, `authFail`/`f2bFail` where a
     * read raises) and handle the parsed lines, auth first. An exception from
     * opening a log passes out as `raised`: an auth-log failure stops before
     * anything is handled, a fail2ban-log failure after the auth lines are.
     */
    method ProcessLogTails(authDisk: Tailer.Disk, f2bDisk: Tailer.Disk, authFail: Option<nat>, f2bFail: Option<nat>, ts: int)
      returns (raised: Option<string>)
      requires Valid()
      modifies this, cache, tAuth, tF2b
      ensures Valid() && cache.durable == old(cache.durable)
      ensures var a := Tailer.ReadStep(old(tAuth.State()), authDisk, true, Tailer.DefaultMaxLines, authFail);
              a.raised.Some? ==>
                && raised == a.raised && tAuth.State() == old(tAuth.State()) && tF2b.State() == old(tF2b.State())
                && Memory() == old(Memory()) && cache.Contents() == old(cache.Contents())
      ensures var a := Tailer.ReadStep(old(tAuth.State()), authDisk, true, Tailer.DefaultMaxLines, authFail);
              var f := Tailer.ReadStep(old(tF2b.State()), f2bDisk, true, Tailer.DefaultMaxLines, f2bFail);
              var afterAuth := HandledAll(old(Memory()), old(cache.Contents()), cfg, AuthIncoming(a.lines, cfg.showOk), ts);
              a.raised.None? ==>
                && raised == f.raised && tAuth.State() == a.state && tF2b.State() == f.state
                && (Memory(), cache.Contents()) == HandledAll(afterAuth.0, afterAuth.1, cfg, F2bIncoming(f.lines), ts)
    {
      var authLines;
      authLines, raised := tAuth.ReadAvailableLines(authDisk, Tailer.DefaultMaxLines, authFail);
      if raised.Some? {
        return;
      }
      HandleAuthLines(authLines, ts);
      var f2bLines;
      f2bLines, raised := tF2b.ReadAvailableLines(f2bDisk, Tailer.DefaultMaxLines, f2bFail);
      HandleF2bLines(f2bLines, ts);
    }

    /** `bootstrap_realtime_from_cache(n)`: zero counters for the `n` cached addresses seen last, most recent first. */
    method BootstrapRealtimeFromCache(n: int, ts: int) returns (seeds: seq<string>)
      requires Valid()
      modifies this
      ensures Valid()
      ensures n <= 0 ==> seeds == []
      ensures n > 0 ==> |seeds| == if n < |cache.ips| then n else |cache.ips|
      ensures forall i :: 0 <= i < |seeds| ==> seeds[i] in cache.ips
      ensures forall i, j :: 0 <= i < j < |seeds| ==> seeds[i] != seeds[j] && cache.ips[seeds[i]].lastSeen >= cache.ips[seeds[j]].lastSeen
      ensures forall ip, i :: ip in cache.ips && ip !in seeds && 0 <= i < |seeds| ==> cache.ips[ip].lastSeen <= cache.ips[seeds[i]].lastSeen
      ensures Memory() == Logged(Seeded(old(Memory()), seeds), ts, Info, "", "bootstrap realtime from cache: " + NatToStr(|seeds|) + " IPs")
    {
      seeds := cache.ListRealtimeSeedIps(n);
      var i := 0;
      while i < |seeds|
        invariant 0 <= i <= |seeds| && Valid()
        invariant Memory() == Seeded(old(Memory()), seeds[..i])
      {
        assert seeds[..i + 1][..i] == seeds[..i];
        SetDefault(seeds[i]);
        i := i + 1;
      }
      assert seeds[..i] == seeds;
      LogSys(ts, Info, "", "bootstrap realtime from cache: " + NatToStr(|seeds|) + " IPs");
    }

    /** The address list of `fail2ban-client status`: every word after the marker on each line holding it. */
    static method BannedList(lines: seq<string>) returns (banned: set<string>)
      ensures banned == Banned(lines)
    {
      banned := {};
      var i := 0;
      while i < |lines|
        invariant 0 <= i <= |lines| && banned == Banned(lines[..i])
      {
        assert lines[..i + 1][..i] == lines[..i];
        banned := banned + BannedOn(lines[i]);
        i := i + 1;
      }
      assert lines[..i] == lines;
    }

    /** `poll_fail2ban_bans` at `clock`, with `proc` what the subprocess gave. */
    method PollFail2banBans(clock: int, ts: int, proc: Proc)
      requires Valid()
      modifies this, cache
      ensures Valid() && cache.durable == old(cache.durable)
      ensures (Memory(), cache.Contents()) == Polled(old(Memory()), old(cache.Contents()), cfg, clock, ts, proc)
    {
      if !cfg.pollBans || cfg.jail == [] {
        return;
      }
      if clock - lastPoll < cfg.pollIntervalMs {
        return;
      }
      SetLastPoll(clock);
      match proc {
        case Failed(why) =>
          LogSys(ts, Err, "", "poll fail2ban-client failed: " + why);
        case Done(code, out) =>
          if code != 0 {
            return;
          }
          var banned := BannedList(SplitLines(out));
          Diff(banned, ts);
      }
    }

    method SetLastPoll(clock: int)
      requires Valid()
      modifies this
      ensures Valid() && Memory() == old(Memory()).(lastPoll := clock)
    {
      lastPoll := clock;
    }

    /** The diff step of `poll_fail2ban_bans` against the addresses seen at the last poll. */
    method Diff(banned: set<string>, ts: int)
      requires Valid()
      modifies this, cache
      ensures Valid() && cache.durable == old(cache.durable)
      ensures (Memory(), cache.Contents()) == Diffed(old(Memory()), old(cache.Contents()), cfg, banned, ts)
    {
      var added := banned - pollKnown;
      var removed := pollKnown - banned;
      if added == {} && removed == {} {
        return;
      }
      HandleAll(PollIncoming(added, removed, cfg.jail), ts);
      SetPollKnown(banned);
    }

    method SetPollKnown(banned: set<string>)
      requires Valid()
      modifies this
      ensures Valid() && Memory() == old(Memory()).(pollKnown := banned)
    {
      pollKnown := banned;
    }

    /** `refresh_asn` at `clock` with the cache scan it evidently means; `transport` answers for `nc`. */
    method RefreshAsn(clock: int, ts: int, transport: string -> Asn.Reply) returns (asked: int, written: int)
      requires Valid()
      modifies this, cache
      ensures Valid() && cache.durable == old(cache.durable)
      ensures Refresh(Memory(), cache.Contents(), asked, written) == Refreshed(old(Memory()), old(cache.Contents()), cfg.asnEnable, cfg.asnRefreshIntervalMs,
                                                                              cfg.asnCacheTtl, cfg.asnBatch, clock, ts, transport)
    {
      ghost var m0 := Memory();
      if !cfg.asnEnable || clock - lastAsn < cfg.asnRefreshIntervalMs {
        RefreshedGated(m0, cache.Contents(), cfg.asnEnable, cfg.asnRefreshIntervalMs, cfg.asnCacheTtl, cfg.asnBatch, clock, ts, transport);
        return 0, 0;
      }
      ghost var t0 := cache.Contents();
      SetLastAsn(clock);
      ghost var stamped := Memory();
      asked, written := ScanAndLookUp(cfg.asnBatch, cfg.asnCacheTtl, transport, ts);
      RefreshedPastGates(m0, t0, cfg.asnEnable, cfg.asnRefreshIntervalMs, cfg.asnCacheTtl, cfg.asnBatch,
                         clock, ts, transport, stamped, Refresh(Memory(), cache.Contents(), asked, written));
    }

    /** `refresh_asn` past its gates: the cache scan from the cursor, wrapping once, then the lookup. */
    method ScanAndLookUp(batch: int, ttl: int, transport: string -> Asn.Reply, ts: int) returns (asked: int, written: int)
      requires Valid()
      modifies this, cache
      ensures Valid() && cache.durable == old(cache.durable)
      ensures Refresh(Memory(), cache.Contents(), asked, written) == Scanned(old(Memory()), old(cache.Contents()), batch, ttl, transport, ts)
    {
      ghost var m0 := Memory();
      ghost var t0 := cache.Contents();
      var need := NeedingRefresh(cache.ips, asnCursor, batch, ts - ttl);
      if need == [] && asnCursor.Some? {
        SetCursor(None);
        need := NeedingRefresh(cache.ips, asnCursor, batch, ts - ttl);
      }
      ScannedBatch(m0, t0, batch, ttl, transport, ts, asnCursor, need);
      asked, written := LookUp(need, transport, ts);
    }

    /** `refresh_asn` from the point where the batch is known. */
    method LookUp(need: seq<string>, transport: string -> Asn.Reply, ts: int) returns (asked: int, written: int)
      requires Valid()
      modifies this, cache
      ensures Valid() && cache.durable == old(cache.durable)
      ensures Refresh(Memory(), cache.Contents(), asked, written) == LookedUp(old(Memory()), old(cache.Contents()), need, transport, ts)
    {
      if need == [] {
        return 0, 0;
      }
      ghost var m0 := Memory();
      ghost var t0 := cache.Contents();
      SetCursor(Some(need[|need| - 1]));
      ghost var m1 := Memory();
      var found, _ := Asn.CymruBulkLookup(need, transport, ts);
      LookedUpFound(m0, t0, need, transport, ts, m1, found);
      if found == map[] {
        return |need|, 0;
      }
      asked, written := ApplyAsn(found);
    }

    /** `upsert_asn_info` followed by `_mark_sql_dirty`. */
    method ApplyAsn(found: map<string, AsnInfo>) returns (asked: int, written: int)
      requires Valid()
      modifies this, cache
      ensures Valid() && cache.durable == old(cache.durable)
      ensures Memory() == old(Memory()).(pending := old(pending) + 1)
      ensures cache.Contents() == CacheDb.AsnApplied(old(cache.Contents()), found)
      ensures asked == written == |found|
    {
      asked, written := cache.UpsertAsnInfo(found);
      MarkSqlDirty();
    }

    method SetLastAsn(clock: int)
      requires Valid()
      modifies this
      ensures Valid() && Memory() == old(Memory()).(lastAsn := clock)
    {
      lastAsn := clock;
    }

    method SetCursor(c: Option<string>)
      requires Valid()
      modifies this
      ensures Valid() && Memory() == old(Memory()).(asnCursor := c)
    {
      asnCursor := c;
    }

    /** `refresh_asn` as written: the cache has no scan method, so every call past the gates logs an error and reports nothing. */
    method RefreshAsnAsWritten(clock: int, ts: int) returns (asked: int, written: int)
      requires Valid()
      modifies this
      ensures Valid() && asked == 0 && written == 0
      ensures Memory() == RefreshedAsWritten(old(Memory()), cfg, clock, ts)
    {
      if !cfg.asnEnable || clock - lastAsn < cfg.asnRefreshIntervalMs {
        return 0, 0;
      }
      lastAsn := clock;
      LogSys(ts, Err, "", "asn cache scan failed: " + NoScanMethod);
      return 0, 0;
    }

    /** `_maybe_commit` at `clock`; `failure` is the error a failed commit raises. */
    method MaybeCommit(clock: int, ts: int, failure: Option<string>)
      requires Valid()
      modifies this, cache
      ensures Valid()
      ensures (Memory(), cache.Contents(), cache.durable) == Committed(old(Memory()), old(cache.Contents()), old(cache.durable), clock, ts, failure)
    {
      if pending <= 0 {
        return;
      }
      if clock - lastCommit >= CommitIntervalMs {
        match failure {
          case None =>
            cache.Commit();
          case Some(e) =>
            LogSys(ts, Err, "", "sqlite commit failed: " + e);
            cache.Rollback();
        }
        pending := 0;
        lastCommit := clock;
      }
    }

    /** The loop of `import_fail2ban_history`: one upsert per address, a commit after every 2000th, stopping at the first that raises. */
    method ImportLoop(keys: seq<string>, agg: map<string, History.Agg>, ts: int) returns (r: Run)
      requires forall k :: k in keys ==> k in agg
      modifies cache
      ensures r.cur == cache.Contents() && r.durable == cache.durable
      ensures r == ImportAll(Run(old(cache.Contents()), old(cache.durable), 0, None), keys, agg, cfg.subnetPrefix, ts)
    {
      var imported := 0;
      var i := 0;
      while i < |keys|
        invariant 0 <= i <= |keys|
        invariant ImportAll(Run(old(cache.Contents()), old(cache.durable), 0, None), keys, agg, cfg.subnetPrefix, ts)
               == ImportAll(Run(cache.Contents(), cache.durable, imported, None), keys[i..], agg, cfg.subnetPrefix, ts)
      {
        assert keys[i..] == [keys[i]] + keys[i + 1..];
        var raised;
        raised, imported := ImportOne(keys[i], agg[keys[i]], imported, ts);
        if raised.Some? {
          return Run(cache.Contents(), cache.durable, imported, raised);
        }
        i := i + 1;
      }
      return Run(cache.Contents(), cache.durable, imported, None);
    }

    /** One pass of the import loop: the upsert, the count, and the commit after every 2000th. */
    method ImportOne(ip: string, a: History.Agg, imported: nat, ts: int) returns (raised: Option<string>, count: nat)
      modifies cache
      ensures Run(cache.Contents(), cache.durable, count, raised)
           == ImportStep(Run(old(cache.Contents()), old(cache.durable), imported, None), ip, a, cfg.subnetPrefix, ts)
    {
      count := imported;
      raised := cache.UpsertImportedBips(ip, a.banCountTotal, a.lastBanTs, a.lastBanJail, cfg.subnetPrefix, ts);
      if raised.Some? {
        return;
      }
      count := imported + 1;
      if count % ImportBatch == 0 {
        cache.Commit();
      }
    }

    /** `import_fail2ban_history`, skipped when the database's fingerprint matches the last import. */
    method ImportFail2banHistory(fingerprint: Result<(int, int)>, db: History.FailDb, ts: int)
      requires Valid()
      modifies this, cache
      ensures Valid()
      ensures (Memory(), cache.Contents(), cache.durable)
           == Imported(old(Memory()), old(cache.Contents()), old(cache.durable), cfg, fingerprint, db, ts)
    {
      if fingerprint.Failure? {
        LogSys(ts, Err, "", "fail2ban sqlite stat failed: " + fingerprint.error);
        return;
      }
      var (mtime, size) := fingerprint.value;
      var prevMtime := cache.GetState("source_mtime");
      var prevSize := cache.GetState("source_size");
      if prevMtime == Some(IntToStr(mtime)) && prevSize == Some(IntToStr(size)) {
        return;
      }
      var agg := History.ImportBipsAggregates(db);
      if agg.Failure? {
        LogSys(ts, Err, "", "import bips aggregates failed: " + agg.error);
        return;
      }
      SortedSetSpec(agg.value.Keys);
      var r := ImportLoop(SortedSet(agg.value.Keys), agg.value, ts);
      if r.raised.Some? {
        cache.Rollback();
        LogSys(ts, Err, "", "import failed (rolled back): " + r.raised.value);
        return;
      }
      FinishImport(mtime, size, r.imported, ts);
      LogSys(ts, Info, "", "imported fail2ban history: " + NatToStr(r.imported) + " IPs");
    }

    /** The recount, the five bookkeeping keys and the commit after a complete import. */
    method FinishImport(mtime: int, size: int, imported: nat, ts: int)
      modifies cache
      ensures cache.Contents() == Finished(old(cache.Contents()), cfg.f2bSqlite, mtime, size, imported, ts)
      ensures cache.durable == cache.Contents()
    {
      cache.RefreshSubnetUniqueCounts();
      cache.SetState("imported_at_ts", IntToStr(ts));
      cache.SetState("source_sqlite_path", cfg.f2bSqlite);
      cache.SetState("source_mtime", IntToStr(mtime));
      cache.SetState("source_size", IntToStr(size));
      cache.SetState("last_import_rows", IntToStr(imported));
      cache.Commit();
    }
  }
}
