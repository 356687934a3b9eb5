/**
 * What the monitor promises about its cache beyond single events: the
 * batched commit, the import of fail2ban's history and the seeding of the
 * realtime table from the cache at startup.
 */
module PersistProps {
  import opened Wrappers
  import opened Text
  import opened Records
  import opened Sorting
  import opened AppState
  import CacheDb
  import History

  // ---------------------------------------------------------------- _maybe_commit

  /** With no work pending, or before the interval has passed, `_maybe_commit` changes nothing. */
  lemma CommittedGated(m: Mem, t: CacheDb.Tables, durable: CacheDb.Tables, clock: int, ts: int, failure: Option<string>)
    requires m.pending <= 0 || clock - m.lastCommit < CommitIntervalMs
    ensures Committed(m, t, durable, clock, ts, failure) == (m, t, durable)
  {
  }

  /** A successful commit makes the working tables durable, clears the pending count and stamps the clock. */
  lemma CommittedSaved(m: Mem, t: CacheDb.Tables, durable: CacheDb.Tables, clock: int, ts: int)
    requires m.pending > 0 && clock - m.lastCommit >= CommitIntervalMs
    ensures var r := Committed(m, t, durable, clock, ts, None);
            && r.1 == t && r.2 == t
            && r.0.pending == 0 && r.0.lastCommit == clock
            && r.0 == m.(pending := r.0.pending, lastCommit := r.0.lastCommit)
  {
  }

  /**
   * A failed commit logs the error and rolls the tables back to the last
   * commit; it too clears the pending count and stamps the clock, so the
   * lost writes are not retried.
   */
  lemma CommittedRolledBack(m: Mem, t: CacheDb.Tables, durable: CacheDb.Tables, clock: int, ts: int, e: string)
    requires m.pending > 0 && clock - m.lastCommit >= CommitIntervalMs
    ensures var r := Committed(m, t, durable, clock, ts, Some(e));
            && r.1 == durable && r.2 == durable
            && r.0.pending == 0 && r.0.lastCommit == clock
            && |r.0.events| > 0 && r.0.events[|r.0.events| - 1] == Event(ts, Sys, Err, "", "", "sqlite commit failed: " + e)
            && r.0 == m.(pending := r.0.pending, lastCommit := r.0.lastCommit, events := r.0.events)
  {
    PushSpec(m.events, Event(ts, Sys, Err, "", "", "sqlite commit failed: " + e), MaxEvents);
  }

  /** Once a commit has happened, nothing is left uncommitted, and the next `_maybe_commit`, whenever it runs, changes nothing. */
  lemma CommittedSettles(m: Mem, t: CacheDb.Tables, durable: CacheDb.Tables, clock: int, ts: int, failure: Option<string>,
                         clock2: int, ts2: int, failure2: Option<string>)
    requires m.pending > 0 && clock - m.lastCommit >= CommitIntervalMs
    ensures var r := Committed(m, t, durable, clock, ts, failure);
            r.1 == r.2 && Committed(r.0, r.1, r.2, clock2, ts2, failure2) == r
  {
    match failure {
      case None => CommittedSaved(m, t, durable, clock, ts);
      case Some(e) => CommittedRolledBack(m, t, durable, clock, ts, e);
    }
  }

  // ---------------------------------------------------------------- the import loop

  /** One upsert: after an exception nothing more happens; otherwise the count grows by one exactly when the upsert does not raise. */
  lemma ImportStepSpec(r: Run, ip: string, a: History.Agg, prefix: int, now: int)
    ensures var s := ImportStep(r, ip, a, prefix, now);
            && (r.raised.Some? ==> s == r)
            && (r.raised.None? && s.raised.None? ==> s.imported == r.imported + 1)
            && (s.raised.Some? ==> s.imported == r.imported && s.durable == r.durable)
            && (s.raised.None? && s.imported % ImportBatch != 0 ==> s.durable == r.durable)
            && (s.raised.None? && s.imported % ImportBatch == 0 ==> s.durable == s.cur)
  {
  }

  /**
   * The loop imports every address unless an upsert raises, and stops at
   * the first that does: the count is then the number of addresses before it.
   */
  lemma {:induction false} ImportAllCount(r: Run, keys: seq<string>, agg: map<string, History.Agg>, prefix: int, now: int)
    requires forall k :: k in keys ==> k in agg
    decreases |keys|
    ensures var r' := ImportAll(r, keys, agg, prefix, now);
            && (r.raised.Some? ==> r' == r)
            && r.imported <= r'.imported <= r.imported + |keys|
            && (r'.raised.None? <==> r.raised.None? && r'.imported == r.imported + |keys|)
  {
    if keys != [] && r.raised.None? {
      var s := ImportStep(r, keys[0], agg[keys[0]], prefix, now);
      ImportStepSpec(r, keys[0], agg[keys[0]], prefix, now);
      ImportAllCount(s, keys[1..], agg, prefix, now);
    }
  }

  /**
   * Commits happen only at multiples of 2000: while the count stays in the
   * same block of 2000 the committed tables do not change, and a run that
   * ends on a multiple has committed everything.
   */
  lemma {:induction false} ImportAllDurable(r: Run, keys: seq<string>, agg: map<string, History.Agg>, prefix: int, now: int)
    requires forall k :: k in keys ==> k in agg
    requires r.raised.None? && r.imported % ImportBatch == 0 ==> r.durable == r.cur
    decreases |keys|
    ensures var r' := ImportAll(r, keys, agg, prefix, now);
            && (r'.imported / ImportBatch == r.imported / ImportBatch ==> r'.durable == r.durable)
            && (r'.raised.None? && r'.imported % ImportBatch == 0 ==> r'.durable == r'.cur)
  {
    if keys != [] && r.raised.None? {
      var s := ImportStep(r, keys[0], agg[keys[0]], prefix, now);
      ImportStepSpec(r, keys[0], agg[keys[0]], prefix, now);
      ImportAllCount(s, keys[1..], agg, prefix, now);
      ImportAllDurable(s, keys[1..], agg, prefix, now);
    }
  }

  // ---------------------------------------------------------------- import_fail2ban_history

  /**
   * When the database cannot be read, or was already imported at this
   * fingerprint, the tables stay as they were; only a failure logs, and it
   * logs an `ERR`.
   */
  lemma ImportedEarly(m: Mem, t: CacheDb.Tables, durable: CacheDb.Tables, cfg: Config,
                      fingerprint: Result<(int, int)>, db: History.FailDb, ts: int)
    requires || fingerprint.Failure?
             || Fingerprinted(t.state, fingerprint.value.0, fingerprint.value.1)
             || History.ImportAggregates(db).Failure?
    ensures var r := Imported(m, t, durable, cfg, fingerprint, db, ts);
            && r.1 == t && r.2 == durable
            && r.0 == m.(events := r.0.events)
            && (fingerprint.Success? && Fingerprinted(t.state, fingerprint.value.0, fingerprint.value.1) ==> r.0 == m)
            && (fingerprint.Failure? || !Fingerprinted(t.state, fingerprint.value.0, fingerprint.value.1) ==>
                  |r.0.events| > 0 && r.0.events[|r.0.events| - 1].kind == Err)
  {
    var r := Imported(m, t, durable, cfg, fingerprint, db, ts);
    if fingerprint.Failure? {
      PushSpec(m.events, Event(ts, Sys, Err, "", "", "fail2ban sqlite stat failed: " + fingerprint.error), MaxEvents);
    } else if !Fingerprinted(t.state, fingerprint.value.0, fingerprint.value.1) {
      var agg := History.ImportAggregates(db);
      PushSpec(m.events, Event(ts, Sys, Err, "", "", "import bips aggregates failed: " + agg.error), MaxEvents);
    }
  }

  /** The bookkeeping of a complete import records the fingerprint it was made at. */
  lemma FinishedFingerprinted(t: CacheDb.Tables, path: string, mtime: int, size: int, imported: nat, ts: int)
    ensures Fingerprinted(Finished(t, path, mtime, size, imported, ts).state, mtime, size)
    ensures Finished(t, path, mtime, size, imported, ts).ips == t.ips
  {
    var f := Finished(t, path, mtime, size, imported, ts);
    assert "source_size" != "source_mtime" && "last_import_rows" != "source_mtime" && "last_import_rows" != "source_size";
    assert f.state["source_mtime"] == IntToStr(mtime);
  }

  /**
   * Once the aggregates are read, the import ends with nothing left
   * uncommitted: the working tables are the durable ones, either after the
   * complete import or rolled back to the last batch commit.
   */
  lemma ImportedSettles(m: Mem, t: CacheDb.Tables, durable: CacheDb.Tables, cfg: Config,
                        mtime: int, size: int, agg: map<string, History.Agg>, ts: int)
    ensures var r := ImportedFrom(m, t, durable, cfg, mtime, size, agg, ts);
            r.1 == r.2 && r.0 == m.(events := r.0.events)
  {
  }

  /**
   * Once the aggregates are read, the import logs either an `INFO`, after
   * completing, or the `ERR` of the upsert that raised.
   */
  lemma ImportedLogs(m: Mem, t: CacheDb.Tables, durable: CacheDb.Tables, cfg: Config,
                     mtime: int, size: int, agg: map<string, History.Agg>, ts: int)
    ensures var r := ImportedFrom(m, t, durable, cfg, mtime, size, agg, ts);
            && |r.0.events| > 0
            && (r.0.events[|r.0.events| - 1].kind == Info || r.0.events[|r.0.events| - 1].kind == Err)
  {
    SortedSetSpec(agg.Keys);
    var run := ImportAll(Run(t, durable, 0, None), SortedSet(agg.Keys), agg, cfg.subnetPrefix, ts);
    ImportedFromRun(m, t, durable, cfg, mtime, size, agg, ts, run);
    if run.raised.Some? {
      LoggedLast(m, ts, Err, "import failed (rolled back): " + run.raised.value);
    } else {
      LoggedLast(m, ts, Info, "imported fail2ban history: " + NatToStr(run.imported) + " IPs");
    }
  }

  /** An import that logs its `INFO` has recorded the fingerprint it was made at. */
  lemma ImportedRecords(m: Mem, t: CacheDb.Tables, durable: CacheDb.Tables, cfg: Config,
                        mtime: int, size: int, agg: map<string, History.Agg>, ts: int)
    ensures var r := ImportedFrom(m, t, durable, cfg, mtime, size, agg, ts);
            |r.0.events| > 0 && r.0.events[|r.0.events| - 1].kind == Info ==> Fingerprinted(r.1.state, mtime, size)
  {
    SortedSetSpec(agg.Keys);
    var run := ImportAll(Run(t, durable, 0, None), SortedSet(agg.Keys), agg, cfg.subnetPrefix, ts);
    ImportedFromRun(m, t, durable, cfg, mtime, size, agg, ts, run);
    if run.raised.Some? {
      LoggedLast(m, ts, Err, "import failed (rolled back): " + run.raised.value);
    } else {
      FinishedFingerprinted(run.cur, cfg.f2bSqlite, mtime, size, run.imported, ts);
    }
  }

  /** The import once its loop has ended in `run`. */
  lemma ImportedFromRun(m: Mem, t: CacheDb.Tables, durable: CacheDb.Tables, cfg: Config,
                        mtime: int, size: int, agg: map<string, History.Agg>, ts: int, run: Run)
    requires forall k :: k in SortedSet(agg.Keys) ==> k in agg
    requires run == ImportAll(Run(t, durable, 0, None), SortedSet(agg.Keys), agg, cfg.subnetPrefix, ts)
    ensures var r := ImportedFrom(m, t, durable, cfg, mtime, size, agg, ts);
            && (run.raised.Some? ==> r == (Logged(m, ts, Err, "", "import failed (rolled back): " + run.raised.value), run.durable, run.durable))
            && (run.raised.None? ==>
                  r.0 == Logged(m, ts, Info, "", "imported fail2ban history: " + NatToStr(run.imported) + " IPs")
                  && r.1 == Finished(run.cur, cfg.f2bSqlite, mtime, size, run.imported, ts) && r.2 == r.1)
  {
  }

  /** `log_sys` appends its event to the global deque and changes nothing else. */
  lemma LoggedLast(m: Mem, ts: int, kind: Kind, msg: string)
    ensures var l := Logged(m, ts, kind, "", msg);
            && |l.events| > 0 && l.events[|l.events| - 1] == Event(ts, Sys, kind, "", "", msg)
            && l == m.(events := l.events)
  {
    PushSpec(m.events, Event(ts, Sys, kind, "", "", msg), MaxEvents);
  }

  /** Unless it failed, importing the same file again, at any later time, changes nothing. */
  lemma ImportedTwice(m: Mem, t: CacheDb.Tables, durable: CacheDb.Tables, cfg: Config,
                      mtime: int, size: int, db: History.FailDb, db2: History.FailDb, ts: int, ts2: int)
    ensures var r := Imported(m, t, durable, cfg, Success((mtime, size)), db, ts);
            || (|r.0.events| > 0 && r.0.events[|r.0.events| - 1].kind == Err)
            || Imported(r.0, r.1, r.2, cfg, Success((mtime, size)), db2, ts2) == r
  {
    var r := Imported(m, t, durable, cfg, Success((mtime, size)), db, ts);
    ImportedRecorded(m, t, durable, cfg, mtime, size, db, ts);
    if Fingerprinted(r.1.state, mtime, size) {
      ImportedEarly(r.0, r.1, r.2, cfg, Success((mtime, size)), db2, ts2);
    }
  }

  /** After an import that did not fail, the stored fingerprint is the one it was made at. */
  lemma ImportedRecorded(m: Mem, t: CacheDb.Tables, durable: CacheDb.Tables, cfg: Config,
                         mtime: int, size: int, db: History.FailDb, ts: int)
    ensures var r := Imported(m, t, durable, cfg, Success((mtime, size)), db, ts);
            || (|r.0.events| > 0 && r.0.events[|r.0.events| - 1].kind == Err)
            || Fingerprinted(r.1.state, mtime, size)
  {
    if !Fingerprinted(t.state, mtime, size) {
      match History.ImportAggregates(db) {
        case Success(agg) =>
          ImportedRecords(m, t, durable, cfg, mtime, size, agg, ts);
          ImportedLogs(m, t, durable, cfg, mtime, size, agg, ts);
        case Failure(_) =>
          ImportedEarly(m, t, durable, cfg, Success((mtime, size)), db, ts);
      }
    }
  }

  // ---------------------------------------------------------------- bootstrap_realtime_from_cache

  /**
   * Seeding keeps `order` listing the counted addresses once each, and
   * counts exactly the addresses counted before and the given ones.
   */
  lemma {:induction false} SeededOrdered(m: Mem, ips: seq<string>)
    requires Ordered(m)
    ensures var s := Seeded(m, ips);
            && Ordered(s)
            && (forall a :: a in s.realtime <==> a in m.realtime || a in ips)
  {
    if ips != [] {
      var front := ips[..|ips| - 1];
      SeededOrdered(m, front);
      SeenOrdered(Seeded(m, front), ips[|ips| - 1]);
      assert forall a :: a in ips <==> a in front || a == ips[|ips| - 1];
    }
  }

  /**
   * Seeding gives new addresses zero counters and places them after the
   * addresses already there; existing counters and every other field stay
   * as they were.
   */
  lemma {:induction false} SeededKeeps(m: Mem, ips: seq<string>)
    ensures var s := Seeded(m, ips);
            && (forall a :: a in m.realtime ==> a in s.realtime && s.realtime[a] == m.realtime[a])
            && (forall a :: a in s.realtime && a !in m.realtime ==> s.realtime[a] == Zero)
            && |s.order| >= |m.order| && s.order[..|m.order|] == m.order
            && s == m.(realtime := s.realtime, order := s.order)
  {
    if ips != [] {
      var front := ips[..|ips| - 1];
      SeededKeeps(m, front);
      var p := Seeded(m, front);
      if ips[|ips| - 1] !in p.realtime {
        assert (p.order + [ips[|ips| - 1]])[..|m.order|] == p.order[..|m.order|];
      }
    }
  }
}
