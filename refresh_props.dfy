/**
 * What `refresh_asn` promises: the scan for stale addresses after the
 * cursor, the cursor's progress, and what a lookup writes back.
 */
module RefreshProps {
  import opened Wrappers
  import opened Text
  import opened Records
  import opened Sorting
  import opened AppState
  import CacheDb
  import Asn

  // ---------------------------------------------------------------- the scan

  /** `LIMIT n` keeps a prefix of at most `n` elements, all of them when `n` is negative or large enough. */
  lemma TakeSpec<T>(xs: seq<T>, n: int)
    ensures var r := Take(xs, n);
            && |r| <= |xs| && r == xs[..|r|]
            && (n >= 0 ==> |r| <= n)
            && (n < 0 || n >= |xs| ==> r == xs)
            && (0 <= n < |xs| ==> |r| == n)
  {
  }

  /**
   * The scan returns at most `batch` addresses, each with a row that is
   * stale and sorting after the cursor, in strictly ascending order.
   */
  lemma NeedingRefreshSound(ips: map<string, CacheDb.IpRow>, cursor: Option<string>, batch: int, minFetched: int)
    ensures var r := NeedingRefresh(ips, cursor, batch, minFetched);
            && (batch >= 0 ==> |r| <= batch)
            && (forall x :: x in r ==> x in ips && Stale(ips[x], minFetched) && (cursor.None? || StrLess(cursor.value, x)))
            && (forall j, k :: 0 <= j < k < |r| ==> StrLess(r[j], r[k]))
  {
    var s := StaleAfter(ips, cursor, minFetched);
    var all := SortedSet(s);
    SortedSetSpec(s);
    TakeSpec(all, batch);
    var r := NeedingRefresh(ips, cursor, batch, minFetched);
    forall x | x in r ensures x in s {
      var k :| 0 <= k < |r| && r[k] == x;
      assert all[k] == x;
    }
  }

  /**
   * The scan misses no stale address after the cursor unless the batch is
   * full, and then every address it missed sorts after all it returned.
   */
  lemma NeedingRefreshComplete(ips: map<string, CacheDb.IpRow>, cursor: Option<string>, batch: int, minFetched: int, x: string)
    requires x in ips && Stale(ips[x], minFetched) && (cursor.None? || StrLess(cursor.value, x))
    ensures var r := NeedingRefresh(ips, cursor, batch, minFetched);
            x in r || (|r| == batch && forall y :: y in r ==> StrLess(y, x))
  {
    var s := StaleAfter(ips, cursor, minFetched);
    var all := SortedSet(s);
    SortedSetSpec(s);
    TakeSpec(all, batch);
    var r := NeedingRefresh(ips, cursor, batch, minFetched);
    assert x in s;
    var i :| 0 <= i < |all| && all[i] == x;
    if x !in r {
      assert forall k :: 0 <= k < |r| ==> r[k] == all[k];
      assert |r| <= i;
      forall y | y in r ensures StrLess(y, x) {
        var k :| 0 <= k < |r| && r[k] == y;
        assert all[k] == y;
      }
    }
  }

  /** With nothing past the cursor, the scan starts over from the smallest address. */
  lemma ScanWraps(ips: map<string, CacheDb.IpRow>, cursor: Option<string>, batch: int, minFetched: int)
    ensures var (c, need) := Scan(ips, cursor, batch, minFetched);
            && (c == cursor || c.None?)
            && need == NeedingRefresh(ips, c, batch, minFetched)
            && (need == [] ==> NeedingRefresh(ips, None, batch, minFetched) == [])
  {
  }

  /** A scan finds something whenever some row is stale and the batch is not zero. */
  lemma ScanFinds(ips: map<string, CacheDb.IpRow>, cursor: Option<string>, batch: int, minFetched: int, x: string)
    requires batch != 0 && x in ips && Stale(ips[x], minFetched)
    ensures Scan(ips, cursor, batch, minFetched).1 != []
  {
    var first := NeedingRefresh(ips, cursor, batch, minFetched);
    NeedingRefreshNonEmpty(ips, None, batch, minFetched, x);
    if cursor.None? {
      assert first == NeedingRefresh(ips, None, batch, minFetched);
    }
  }

  lemma NeedingRefreshNonEmpty(ips: map<string, CacheDb.IpRow>, cursor: Option<string>, batch: int, minFetched: int, x: string)
    requires batch != 0 && x in ips && Stale(ips[x], minFetched) && (cursor.None? || StrLess(cursor.value, x))
    ensures NeedingRefresh(ips, cursor, batch, minFetched) != []
  {
    NeedingRefreshComplete(ips, cursor, batch, minFetched, x);
  }

  // ---------------------------------------------------------------- the lookup

  /**
   * After a non-empty batch the cursor sits on its last address and the
   * count asked is the batch size, or the number of answers when some came
   * back; every answered address with a row then has fresh provider
   * columns, and nothing else in `ip_cache` changes.
   */
  lemma LookedUpSpec(m: Mem, t: CacheDb.Tables, need: seq<string>, transport: string -> Asn.Reply, ts: int)
    requires need != []
    ensures var r := LookedUp(m, t, need, transport, ts);
            var found := Asn.Lookup(need, transport, ts);
            && r.m.asnCursor == Some(need[|need| - 1])
            && (found == map[] ==> r.t == t && r.asked == |need| && r.written == 0)
            && (found != map[] ==> r.asked == |found| && r.written == |found| && r.m.pending == m.pending + 1)
            && r.t.ips.Keys == t.ips.Keys
            && (forall ip :: ip in t.ips && ip in found ==> r.t.ips[ip].providerFetched == Some(ts))
            && (forall ip :: ip in t.ips && ip !in found ==> r.t.ips[ip] == t.ips[ip])
  {
    var found := Asn.Lookup(need, transport, ts);
    Asn.LookupFetched(need, transport, ts);
    CacheDb.AsnAppliedSpec(t, found);
  }

  /** Once looked up, an answered address is no longer stale for any threshold up to the time of the lookup. */
  lemma LookedUpFresh(m: Mem, t: CacheDb.Tables, need: seq<string>, transport: string -> Asn.Reply, ts: int, ip: string, minFetched: int)
    requires need != [] && ip in t.ips && ip in Asn.Lookup(need, transport, ts) && minFetched <= ts
    ensures !Stale(LookedUp(m, t, need, transport, ts).t.ips[ip], minFetched)
  {
    LookedUpSpec(m, t, need, transport, ts);
  }

  /** After a non-empty batch the cursor sits on the batch's last address. */
  lemma LookedUpCursor(m: Mem, t: CacheDb.Tables, need: seq<string>, transport: string -> Asn.Reply, ts: int)
    requires need != []
    ensures LookedUp(m, t, need, transport, ts).m.asnCursor == Some(need[|need| - 1])
    ensures LookedUp(m, t, need, transport, ts).asked > 0
  {
  }

  /**
   * A scan for rows older than `ttl` seconds at `ts` keeps its cursor only
   * when it finds something past it, and the whole batch then lies past
   * it; it drops the cursor to start over only when nothing stale lies
   * past it.
   */
  lemma ScanAdvances(ips: map<string, CacheDb.IpRow>, cursor: Option<string>, batch: int, ts: int, ttl: int)
    ensures var (c, need) := Scan(ips, cursor, batch, ts - ttl);
            && (c == cursor || c.None?)
            && (c.Some? ==> need != [] && StrLess(c.value, need[|need| - 1]))
            && (c.None? && cursor.Some? ==> NeedingRefresh(ips, cursor, batch, ts - ttl) == [])
  {
    var (c, need) := Scan(ips, cursor, batch, ts - ttl);
    if c.Some? {
      NeedingRefreshSound(ips, c, batch, ts - ttl);
      assert need[|need| - 1] in need;
    }
  }

  /**
   * The cursor moves strictly forward through the addresses, unless no
   * stale address lies past it; the scan then starts over from the smallest.
   */
  lemma ScannedAdvances(m: Mem, t: CacheDb.Tables, batch: int, ttl: int, transport: string -> Asn.Reply, ts: int)
    requires m.asnCursor.Some?
    ensures var r := Scanned(m, t, batch, ttl, transport, ts);
            || (r.m.asnCursor.Some? && StrLess(m.asnCursor.value, r.m.asnCursor.value))
            || NeedingRefresh(t.ips, m.asnCursor, batch, ts - ttl) == []
  {
    var scan := Scan(t.ips, m.asnCursor, batch, ts - ttl);
    var cursor, need := scan.0, scan.1;
    ScannedBatch(m, t, batch, ttl, transport, ts, cursor, need);
    ScanAdvances(t.ips, m.asnCursor, batch, ts, ttl);
    if cursor.Some? {
      LookedUpPast(m.(asnCursor := cursor), t, need, transport, ts, cursor.value);
    }
  }

  /** A looked-up batch whose last address sorts after `c` leaves the cursor after `c`. */
  lemma LookedUpPast(m: Mem, t: CacheDb.Tables, need: seq<string>, transport: string -> Asn.Reply, ts: int, c: string)
    requires need != [] && StrLess(c, need[|need| - 1])
    ensures var r := LookedUp(m, t, need, transport, ts); r.m.asnCursor.Some? && StrLess(c, r.m.asnCursor.value)
  {
    LookedUpCursor(m, t, need, transport, ts);
  }

  // ---------------------------------------------------------------- the gates

  /** Past the gates with a stale row and a non-zero batch, the intended refresh asks about at least one address. */
  lemma RefreshedAsks(m: Mem, t: CacheDb.Tables, enable: bool, intervalMs: int, ttl: int, batch: int,
                      clock: int, ts: int, transport: string -> Asn.Reply, x: string)
    requires enable && clock - m.lastAsn >= intervalMs
    requires batch != 0 && x in t.ips && Stale(t.ips[x], ts - ttl)
    ensures Refreshed(m, t, enable, intervalMs, ttl, batch, clock, ts, transport).asked > 0
  {
    var stamped := m.(lastAsn := clock);
    var scan := Scan(t.ips, stamped.asnCursor, batch, ts - ttl);
    ScanFinds(t.ips, stamped.asnCursor, batch, ts - ttl, x);
    var r := Scanned(stamped, t, batch, ttl, transport, ts);
    ScannedBatch(stamped, t, batch, ttl, transport, ts, scan.0, scan.1);
    LookedUpCursor(stamped.(asnCursor := scan.0), t, scan.1, transport, ts);
    RefreshedPastGates(m, t, enable, intervalMs, ttl, batch, clock, ts, transport, stamped, r);
  }

  /**
   * As written, a refresh past the gates never asks about anything: it
   * stamps the clock and logs the `AttributeError` of the missing scan,
   * whatever the cache holds.
   */
  lemma RefreshedAsWrittenNeverAsks(m: Mem, cfg: Config, clock: int, ts: int)
    requires cfg.asnEnable && clock - m.lastAsn >= cfg.asnRefreshIntervalMs
    ensures var r := RefreshedAsWritten(m, cfg, clock, ts);
            && r.lastAsn == clock && r.asnCursor == m.asnCursor && r.pending == m.pending
            && r.events != [] && r.events[|r.events| - 1].kind == Err
            && r.events[|r.events| - 1].msg == "asn cache scan failed: " + NoScanMethod
  {
    var m1 := m.(lastAsn := clock);
    PushSpec(m1.events, Event(ts, Sys, Err, "", "", "asn cache scan failed: " + NoScanMethod), MaxEvents);
  }
}
