/**
 * What the in-memory side of `App` promises, stated over the functions the
 * methods of `App.App` are proved against.
 */
module AppProps {
  import opened Wrappers
  import opened Text
  import opened Records
  import opened Sorting
  import opened AppState
  import CacheDb
  import Parsers
  import Asn
  import History

  // ---------------------------------------------------------------- one event

  /** The addresses of a run of events. */
  function Ips(es: seq<Incoming>): set<string> {
    if es == [] then {} else Ips(es[..|es| - 1]) + {es[|es| - 1].ip}
  }

  /** `_handle_event` counts the address once under the event's kind and touches no other counter. */
  lemma RecordedCounts(m: Mem, e: Incoming, ts: int, raised: Option<string>)
    requires Ordered(m)
    ensures var r := Recorded(m, e, ts, raised);
            && Ordered(r) && r.realtime.Keys == m.realtime.Keys + {e.ip}
            && Increments(if e.ip in m.realtime then m.realtime[e.ip] else Zero, r.realtime[e.ip], e.kind)
            && (forall a :: a in m.realtime && a != e.ip ==> r.realtime[a] == m.realtime[a])
  {
    CountedOrdered(m, e.kind, e.ip);
    CountedCounters(m, e.kind, e.ip);
    var c := Counted(m, e.kind, e.ip);
    var s := Stored(c, e.ip, ts, raised);
    assert s.realtime == c.realtime && s.order == c.order;
    var r := Recorded(m, e, ts, raised);
    assert r.realtime == s.realtime && r.order == s.order;
  }

  /** `_push_event`: the event becomes the newest in the global deque and in its address's deque, both within their caps. */
  lemma PushedSpec(m: Mem, ev: Event)
    ensures var r := Pushed(m, ev);
            && r.events != [] && r.events[|r.events| - 1] == ev
            && (|m.events| <= MaxEvents ==> |r.events| <= MaxEvents)
            && ev.ip in r.ipEvents && r.ipEvents[ev.ip] != [] && r.ipEvents[ev.ip][|r.ipEvents[ev.ip]| - 1] == ev
            && |r.ipEvents[ev.ip]| <= MaxIpEvents
            && r.ipEvents.Keys == m.ipEvents.Keys + {ev.ip}
            && (forall a :: a in m.ipEvents && a != ev.ip ==> r.ipEvents[a] == m.ipEvents[a])
  {
    var r := Pushed(m, ev);
    var mine := if ev.ip in m.ipEvents then m.ipEvents[ev.ip] else [];
    var q := Push(mine, ev, MaxIpEvents);
    assert r.events == Push(m.events, ev, MaxEvents) && r.ipEvents == m.ipEvents[ev.ip := q];
    assert r.events != [] && r.events[|r.events| - 1] == ev && (|m.events| <= MaxEvents ==> |r.events| <= MaxEvents) by {
      PushSpec(m.events, ev, MaxEvents);
    }
    assert q != [] && q[|q| - 1] == ev && |q| <= MaxIpEvents by {
      PushSpec(mine, ev, MaxIpEvents);
    }
  }

  /**
   * `_handle_event` makes the event the newest in the global deque and in
   * the address's own, both within their caps, and leaves the other
   * addresses' deques alone.
   */
  lemma RecordedEvents(m: Mem, e: Incoming, ts: int, raised: Option<string>)
    ensures var r := Recorded(m, e, ts, raised);
            var ev := Event(ts, e.src, e.kind, e.ip, e.jail, "");
            && r.events != [] && r.events[|r.events| - 1] == ev
            && (|m.events| <= MaxEvents ==> |r.events| <= MaxEvents)
            && e.ip in r.ipEvents && r.ipEvents[e.ip] != [] && r.ipEvents[e.ip][|r.ipEvents[e.ip]| - 1] == ev
            && |r.ipEvents[e.ip]| <= MaxIpEvents
            && r.ipEvents.Keys == m.ipEvents.Keys + {e.ip}
            && (forall a :: a in m.ipEvents && a != e.ip ==> r.ipEvents[a] == m.ipEvents[a])
  {
    var c := Counted(m, e.kind, e.ip);
    CountedKeeps(m, e.kind, e.ip);
    var s := Stored(c, e.ip, ts, raised);
    assert s.ipEvents == m.ipEvents;
    if raised.Some? {
      PushSpec(m.events, Event(ts, Sys, Err, e.ip, "", "sqlite upsert failed: " + raised.value), MaxEvents);
    }
    assert |m.events| <= MaxEvents ==> |s.events| <= MaxEvents;
    PushedSpec(s, Event(ts, e.src, e.kind, e.ip, e.jail, ""));
  }

  /** `_handle_event` marks the cache dirty exactly when the write did not raise, and leaves the timers alone. */
  lemma RecordedPending(m: Mem, e: Incoming, ts: int, raised: Option<string>)
    ensures var r := Recorded(m, e, ts, raised);
            && r.pending == (if raised.None? then m.pending + 1 else m.pending)
            && (r.lastCommit, r.lastPoll, r.pollKnown, r.lastAsn, r.asnCursor)
               == (m.lastCommit, m.lastPoll, m.pollKnown, m.lastAsn, m.asnCursor)
  {
  }

  /** One more event: the run up to it, then `_handle_event` on it with what its cache write raised. */
  lemma HandledAllLast(m: Mem, t: CacheDb.Tables, cfg: Config, es: seq<Incoming>, ts: int)
    requires es != []
    ensures var p := HandledAll(m, t, cfg, es[..|es| - 1], ts);
            var e := es[|es| - 1];
            var o := CacheDb.IpEvent(p.1, e.ip, ts, e.kind, e.jail, cfg.showOk, cfg.subnetPrefix);
            HandledAll(m, t, cfg, es, ts).0 == Recorded(p.0, e, ts, o.raised)
  {
  }

  /** A run of events keeps `order` listing `realtime`'s keys, and adds exactly the events' addresses. */
  lemma {:induction false} HandledAllOrdered(m: Mem, t: CacheDb.Tables, cfg: Config, es: seq<Incoming>, ts: int)
    requires Ordered(m)
    ensures var r := HandledAll(m, t, cfg, es, ts).0;
            Ordered(r) && r.realtime.Keys == m.realtime.Keys + Ips(es)
    decreases |es|
  {
    if es != [] {
      var init := es[..|es| - 1];
      var e := es[|es| - 1];
      HandledAllOrdered(m, t, cfg, init, ts);
      var p := HandledAll(m, t, cfg, init, ts);
      var o := CacheDb.IpEvent(p.1, e.ip, ts, e.kind, e.jail, cfg.showOk, cfg.subnetPrefix);
      HandledAllLast(m, t, cfg, es, ts);
      RecordedCounts(p.0, e, ts, o.raised);
    }
  }

  /** A run of events keeps the global deque within its cap, never lowers `pending`, and leaves the timers alone. */
  lemma {:induction false} HandledAllTimers(m: Mem, t: CacheDb.Tables, cfg: Config, es: seq<Incoming>, ts: int)
    ensures var r := HandledAll(m, t, cfg, es, ts).0;
            && (|m.events| <= MaxEvents ==> |r.events| <= MaxEvents)
            && r.pending >= m.pending
            && (r.lastCommit, r.lastPoll, r.pollKnown, r.lastAsn, r.asnCursor)
               == (m.lastCommit, m.lastPoll, m.pollKnown, m.lastAsn, m.asnCursor)
    decreases |es|
  {
    if es != [] {
      var init := es[..|es| - 1];
      var e := es[|es| - 1];
      HandledAllTimers(m, t, cfg, init, ts);
      var p := HandledAll(m, t, cfg, init, ts);
      var o := CacheDb.IpEvent(p.1, e.ip, ts, e.kind, e.jail, cfg.showOk, cfg.subnetPrefix);
      HandledAllLast(m, t, cfg, es, ts);
      RecordedEvents(p.0, e, ts, o.raised);
      RecordedPending(p.0, e, ts, o.raised);
    }
  }

  /** An address is among those of a run exactly when some event of the run names it. */
  lemma {:induction false} IpsSpec(es: seq<Incoming>)
    ensures forall x :: x in Ips(es) <==> exists i :: 0 <= i < |es| && es[i].ip == x
    decreases |es|
  {
    if es != [] {
      var init := es[..|es| - 1];
      IpsSpec(init);
      forall x | x in Ips(es) ensures exists i :: 0 <= i < |es| && es[i].ip == x {
        if x == es[|es| - 1].ip {
          assert es[|es| - 1].ip == x;
        } else {
          assert x in Ips(init);
          var i :| 0 <= i < |init| && init[i].ip == x;
          assert es[i] == init[i];
        }
      }
      forall x | exists i :: 0 <= i < |es| && es[i].ip == x ensures x in Ips(es) {
        var i :| 0 <= i < |es| && es[i].ip == x;
        if i < |init| { assert init[i] == es[i]; }
      }
    }
  }

  // ---------------------------------------------------------------- log tails

  /** Gathering from consecutive chunks of lines is gathering from each chunk in turn. */
  lemma {:induction false} GatheredAppend(a: seq<string>, b: seq<string>, ev: string -> seq<Incoming>)
    ensures Gathered(a + b, ev) == Gathered(a, ev) + Gathered(b, ev)
    decreases |b|
  {
    if b == [] {
      assert a + b == a;
    } else {
      GatheredAppend(a, b[..|b| - 1], ev);
      assert (a + b)[..|a + b| - 1] == a + b[..|b| - 1];
      assert (a + b)[|a + b| - 1] == b[|b| - 1];
    }
  }

  /** An event is gathered exactly when some line gives it; at most one per line when no line gives two. */
  lemma {:induction false} GatheredSpec(lines: seq<string>, ev: string -> seq<Incoming>)
    ensures forall x :: x in Gathered(lines, ev) <==> exists i :: 0 <= i < |lines| && x in ev(lines[i])
    ensures (forall i :: 0 <= i < |lines| ==> |ev(lines[i])| <= 1) ==> |Gathered(lines, ev)| <= |lines|
    decreases |lines|
  {
    if lines != [] {
      var init := lines[..|lines| - 1];
      GatheredSpec(init, ev);
      forall x | x in Gathered(lines, ev) ensures exists i :: 0 <= i < |lines| && x in ev(lines[i]) {
        if x in Gathered(init, ev) {
          var i :| 0 <= i < |init| && x in ev(init[i]);
          assert lines[i] == init[i];
        } else {
          assert x in ev(lines[|lines| - 1]);
        }
      }
      forall x | exists i :: 0 <= i < |lines| && x in ev(lines[i]) ensures x in Gathered(lines, ev) {
        var i :| 0 <= i < |lines| && x in ev(lines[i]);
        if i < |init| {
          assert init[i] == lines[i];
        }
      }
      if forall i :: 0 <= i < |lines| ==> |ev(lines[i])| <= 1 {
        forall i | 0 <= i < |init| ensures |ev(init[i])| <= 1 {
          assert init[i] == lines[i];
        }
      }
    }
  }

  /** One auth-log line gives `_handle_event` its parse, unless that is an `OK` not shown, and nothing else. */
  lemma AuthEventSpec(line: string, showOk: bool)
    ensures |AuthEvent(line, showOk)| <= 1
    ensures forall x :: x in AuthEvent(line, showOk) <==>
              x.src == Auth && x.jail == "" && (x.kind != Ok || showOk) && Parsers.ParseSshLine(line) == Some((x.ip, x.kind))
  {
  }

  /** One fail2ban-log line gives `_handle_event` its parse with its jail, and nothing else. */
  lemma F2bEventSpec(line: string)
    ensures |F2bEvent(line)| <= 1
    ensures forall x :: x in F2bEvent(line) <==> x.src == F2b && Parsers.ParseF2bLine(line) == Some((x.ip, x.kind, x.jail))
  {
  }

  /**
   * `process_log_tails` passes on an auth-log event exactly when some line
   * gives it, at most one per line, and chunk by chunk in order.
   */
  lemma AuthIncomingSpec(lines: seq<string>, showOk: bool, more: seq<string>)
    ensures |AuthIncoming(lines, showOk)| <= |lines|
    ensures forall x :: x in AuthIncoming(lines, showOk) <==> exists i :: 0 <= i < |lines| && x in AuthEvent(lines[i], showOk)
    ensures AuthIncoming(lines + more, showOk) == AuthIncoming(lines, showOk) + AuthIncoming(more, showOk)
  {
    var ev := line => AuthEvent(line, showOk);
    forall i | 0 <= i < |lines| ensures |ev(lines[i])| <= 1 {
      AuthEventSpec(lines[i], showOk);
    }
    GatheredSpec(lines, ev);
    GatheredAppend(lines, more, ev);
  }

  /**
   * `process_log_tails` passes on a fail2ban-log event exactly when some
   * line gives it, at most one per line, and chunk by chunk in order.
   */
  lemma F2bIncomingSpec(lines: seq<string>, more: seq<string>)
    ensures |F2bIncoming(lines)| <= |lines|
    ensures forall x :: x in F2bIncoming(lines) <==> exists i :: 0 <= i < |lines| && x in F2bEvent(lines[i])
    ensures F2bIncoming(lines + more) == F2bIncoming(lines) + F2bIncoming(more)
  {
    forall i | 0 <= i < |lines| ensures |F2bEvent(lines[i])| <= 1 {
      F2bEventSpec(lines[i]);
    }
    GatheredSpec(lines, F2bEvent);
    GatheredAppend(lines, more, F2bEvent);
  }

  // ---------------------------------------------------------------- ban polling

  /** `hay.find(needle, i)`: the match it reports is the first one at or after `i`, and it reports none only when there is none. */
  lemma {:induction false} FindFromSpec(hay: string, needle: string, i: nat)
    ensures var r := FindFrom(hay, needle, i);
            && (r.Some? ==> forall j :: i <= j < r.value ==> !OccursAt(hay, needle, j))
            && (r.None? ==> forall j :: i <= j ==> !OccursAt(hay, needle, j))
    decreases |hay| - i
  {
    if i + |needle| <= |hay| && !OccursAt(hay, needle, i) {
      FindFromSpec(hay, needle, i + 1);
    }
  }

  /** A line without the marker lists nothing. */
  lemma BannedOnUnmarked(line: string)
    requires forall j :: !OccursAt(line, BannedMarker, j)
    ensures BannedOn(line) == {}
  {
  }

  /** Every address a line lists is a non-empty word without white space. */
  lemma BannedOnWords(line: string)
    ensures forall w :: w in BannedOn(line) ==> w != [] && NoSpace(w)
  {
    var r := FindFrom(line, BannedMarker, 0);
    if r.Some? {
      var words := SplitWs(line[r.value + |BannedMarker|..]);
      assert forall w :: w in BannedOn(line) ==> w in words;
    }
  }

  /** A string is in the union exactly when some element's set holds it. */
  lemma {:induction false} UnionOverSpec<T>(xs: seq<T>, f: T -> set<string>)
    ensures forall x :: x in UnionOver(xs, f) <==> exists i :: 0 <= i < |xs| && x in f(xs[i])
    decreases |xs|
  {
    if xs != [] {
      var init := xs[..|xs| - 1];
      UnionOverSpec(init, f);
      forall x | x in UnionOver(xs, f) ensures exists i :: 0 <= i < |xs| && x in f(xs[i]) {
        if x in UnionOver(init, f) {
          var i :| 0 <= i < |init| && x in f(init[i]);
          assert xs[i] == init[i];
        } else {
          assert x in f(xs[|xs| - 1]);
        }
      }
      forall x | exists i :: 0 <= i < |xs| && x in f(xs[i]) ensures x in UnionOver(xs, f) {
        var i :| 0 <= i < |xs| && x in f(xs[i]);
        if i < |init| {
          assert init[i] == xs[i];
        }
      }
    }
  }

  /** An address is banned exactly when some line of the output lists it. */
  lemma BannedSpec(lines: seq<string>)
    ensures forall x :: x in Banned(lines) <==> exists i :: 0 <= i < |lines| && x in BannedOn(lines[i])
  {
    UnionOverSpec(lines, BannedOn);
  }

  /**
   * The events of a poll: one `BAN` per new address, then one `UNBAN` per
   * lifted address, all from the poller and for the polled jail.
   */
  lemma PollIncomingSpec(added: set<string>, removed: set<string>, jail: string)
    ensures var r := PollIncoming(added, removed, jail);
            && |r| == |added| + |removed|
            && (forall k :: 0 <= k < |r| ==> r[k].src == Poll && r[k].jail == jail)
            && (forall k :: 0 <= k < |added| ==> r[k].kind == Ban && r[k].ip in added)
            && (forall k :: |added| <= k < |r| ==> r[k].kind == Unban && r[k].ip in removed)
  {
    SortedSetSpec(added);
    SortedSetSpec(removed);
    var a := SortedSet(added);
    var r := PollIncoming(added, removed, jail);
    forall k | 0 <= k < |added| ensures r[k].ip in added {
      assert r[k].ip == a[k];
    }
  }

  /** Every new address gets its `BAN`, every lifted one its `UNBAN`. */
  lemma PollIncomingCovers(added: set<string>, removed: set<string>, jail: string)
    ensures var r := PollIncoming(added, removed, jail);
            && (forall x :: x in added ==> exists k :: 0 <= k < |added| && r[k].ip == x)
            && (forall x :: x in removed ==> exists k :: |added| <= k < |r| && r[k].ip == x)
  {
    SortedSetSpec(added);
    SortedSetSpec(removed);
    var a := SortedSet(added);
    var b := SortedSet(removed);
    var r := PollIncoming(added, removed, jail);
    forall x | x in added ensures exists k :: 0 <= k < |added| && r[k].ip == x {
      var k :| 0 <= k < |a| && a[k] == x;
      assert r[k].ip == x;
    }
    forall x | x in removed ensures exists k :: |added| <= k < |r| && r[k].ip == x {
      var k :| 0 <= k < |b| && b[k] == x;
      assert r[|added| + k].ip == x;
    }
  }

  /** Within each group the addresses come in strictly ascending order, as `sorted` gives them. */
  lemma PollIncomingOrder(added: set<string>, removed: set<string>, jail: string)
    ensures var r := PollIncoming(added, removed, jail);
            && (forall j, k :: 0 <= j < k < |added| ==> StrLess(r[j].ip, r[k].ip))
            && (forall j, k :: |added| <= j < k < |r| ==> StrLess(r[j].ip, r[k].ip))
  {
    SortedSetSpec(added);
    SortedSetSpec(removed);
    var a := SortedSet(added);
    var b := SortedSet(removed);
    var r := PollIncoming(added, removed, jail);
    forall j, k | |added| <= j < k < |r| ensures StrLess(r[j].ip, r[k].ip) {
      assert r[j].ip == b[j - |added|] && r[k].ip == b[k - |added|];
    }
  }

  /** The addresses a poll's events name are the new ones and the lifted ones. */
  lemma PollIncomingIps(added: set<string>, removed: set<string>, jail: string)
    ensures Ips(PollIncoming(added, removed, jail)) == added + removed
  {
    var r := PollIncoming(added, removed, jail);
    PollIncomingSpec(added, removed, jail);
    PollIncomingCovers(added, removed, jail);
    IpsSpec(r);
    forall x | x in Ips(r) ensures x in added + removed {
      var k :| 0 <= k < |r| && r[k].ip == x;
    }
  }

  /** After the diff, the addresses known from the last poll are the ones just seen banned. */
  lemma DiffedKnown(m: Mem, t: CacheDb.Tables, cfg: Config, banned: set<string>, ts: int)
    ensures Diffed(m, t, cfg, banned, ts).0.pollKnown == banned
  {
    if banned - m.pollKnown == {} && m.pollKnown - banned == {} {
      assert m.pollKnown == banned;
    }
  }

  /** A banned list equal to the known addresses is no change: nothing is handled. */
  lemma DiffedSame(m: Mem, t: CacheDb.Tables, cfg: Config, banned: set<string>, ts: int)
    requires m.pollKnown == banned
    ensures Diffed(m, t, cfg, banned, ts) == (m, t)
  {
    assert banned - m.pollKnown == {} && m.pollKnown - banned == {};
  }

  /** The same banned list twice in a row: the second diff finds nothing and changes nothing. */
  lemma DiffedTwice(m: Mem, t: CacheDb.Tables, cfg: Config, banned: set<string>, ts: int, ts2: int)
    ensures var r := Diffed(m, t, cfg, banned, ts);
            Diffed(r.0, r.1, cfg, banned, ts2) == r
  {
    var r := Diffed(m, t, cfg, banned, ts);
    DiffedKnown(m, t, cfg, banned, ts);
    DiffedSame(r.0, r.1, cfg, banned, ts2);
  }

  /**
   * The diff keeps `order` listing `realtime`'s keys, and the addresses
   * that gain a row are exactly the new and the lifted ones.
   */
  lemma DiffedRealtime(m: Mem, t: CacheDb.Tables, cfg: Config, banned: set<string>, ts: int)
    requires Ordered(m)
    ensures var r := Diffed(m, t, cfg, banned, ts).0;
            Ordered(r) && r.realtime.Keys == m.realtime.Keys + (banned - m.pollKnown) + (m.pollKnown - banned)
  {
    var added := banned - m.pollKnown;
    var removed := m.pollKnown - banned;
    if added != {} || removed != {} {
      var es := PollIncoming(added, removed, cfg.jail);
      HandledAllOrdered(m, t, cfg, es, ts);
      PollIncomingIps(added, removed, cfg.jail);
    }
  }

  /** `poll_fail2ban_bans` does nothing while polling is off, no jail is set, or the interval has not passed. */
  lemma PolledGated(m: Mem, t: CacheDb.Tables, cfg: Config, clock: int, ts: int, proc: Proc)
    requires !cfg.pollBans || cfg.jail == [] || clock - m.lastPoll < cfg.pollIntervalMs
    ensures Polled(m, t, cfg, clock, ts, proc) == (m, t)
  {
  }

  /**
   * Past the gates the poll is stamped whatever happens; a failed run logs
   * an `ERR` and a non-zero exit changes nothing else, while a clean run
   * leaves the known addresses equal to those the output lists.
   */
  lemma PolledSpec(m: Mem, t: CacheDb.Tables, cfg: Config, clock: int, ts: int, proc: Proc)
    requires cfg.pollBans && cfg.jail != [] && clock - m.lastPoll >= cfg.pollIntervalMs
    ensures var r := Polled(m, t, cfg, clock, ts, proc);
            && r.0.lastPoll == clock
            && (proc.Failed? ==>
                  r.1 == t && r.0.realtime == m.realtime && r.0.pollKnown == m.pollKnown
                  && r.0.events != [] && r.0.events[|r.0.events| - 1].kind == Err)
            && (proc.Done? && proc.code != 0 ==> r == (m.(lastPoll := clock), t))
            && (proc.Done? && proc.code == 0 ==> r.0.pollKnown == Banned(SplitLines(proc.stdout)))
  {
    var m1 := m.(lastPoll := clock);
    match proc
    case Failed(why) =>
      PushSpec(m1.events, Event(ts, Sys, Err, "", "", "poll fail2ban-client failed: " + why), MaxEvents);
    case Done(code, out) =>
      if code == 0 {
        var banned := Banned(SplitLines(out));
        DiffedKnown(m1, t, cfg, banned, ts);
        DiffedStamp(m1, t, cfg, banned, ts);
      }
  }

  /** The diff leaves the poll stamp alone. */
  lemma DiffedStamp(m: Mem, t: CacheDb.Tables, cfg: Config, banned: set<string>, ts: int)
    ensures Diffed(m, t, cfg, banned, ts).0.lastPoll == m.lastPoll
  {
    var added := banned - m.pollKnown;
    var removed := m.pollKnown - banned;
    if added != {} || removed != {} {
      HandledAllTimers(m, t, cfg, PollIncoming(added, removed, cfg.jail), ts);
    }
  }

  /** Two clean polls with the same output: the second only moves the stamp. */
  lemma PolledTwice(m: Mem, t: CacheDb.Tables, cfg: Config, clock: int, clock2: int, ts: int, ts2: int, out: string)
    requires cfg.pollBans && cfg.jail != [] && clock - m.lastPoll >= cfg.pollIntervalMs
    requires clock2 - clock >= cfg.pollIntervalMs
    ensures var r := Polled(m, t, cfg, clock, ts, Done(0, out));
            Polled(r.0, r.1, cfg, clock2, ts2, Done(0, out)) == (r.0.(lastPoll := clock2), r.1)
  {
    var r := Polled(m, t, cfg, clock, ts, Done(0, out));
    var banned := Banned(SplitLines(out));
    PolledSpec(m, t, cfg, clock, ts, Done(0, out));
    DiffedSame(r.0.(lastPoll := clock2), r.1, cfg, banned, ts2);
    assert r.0.(lastPoll := clock2).pollKnown == banned;
  }
}

