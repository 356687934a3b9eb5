/**
 * app.py: the in-memory side of `App`. The realtime counters, the bounded
 * event deques and the timers for polling, ASN refresh and batched commits
 * live in the class; the cache and the two log tails are objects it owns.
 *
 * The clock is an input: `clock` is `time.time()` in milliseconds, used by
 * the interval gates, and `ts` is `now_ts()` in seconds, stamped on events.
 * The subprocesses (`fail2ban-client`, `nc`) are inputs too, as their replies.
 */
module AppState {
  import opened Wrappers
  import opened Text
  import opened Records
  import opened Sorting
  import CacheDb
  import History
  import Parsers
  import Tailer
  import Asn

  const MaxEvents: nat := 2000
  const MaxIpEvents: nat := 50
  const CommitIntervalMs := 800
  const ImportBatch := 2000
  const BannedMarker := "Banned IP list:"

  /** The options of `AppConfig` the core reads; intervals in milliseconds. */
  datatype Config = Config(
    showOk: bool, jail: string, pollBans: bool, pollIntervalMs: int, subnetPrefix: int,
    asnEnable: bool, asnRefreshIntervalMs: int, asnCacheTtl: int, asnBatch: int, f2bSqlite: string)

  /** The `{"FAIL", "OK", "BAN", "UNBAN"}` counters of one address. */
  datatype Counters = Counters(fail: int, ok: int, ban: int, unban: int) {
    function Total(): int { fail + ok + ban + unban }
  }

  const Zero := Counters(0, 0, 0, 0)

  /** An event as `_handle_event` receives it. */
  datatype Incoming = Incoming(src: Source, kind: Kind, ip: string, jail: string)

  /**
   * The fields of `App` other than its objects. `order` lists the keys of
   * `realtime` in insertion order, the order Python's dictionary keeps.
   */
  datatype Mem = Mem(
    events: seq<Event>, ipEvents: map<string, seq<Event>>,
    realtime: map<string, Counters>, order: seq<string>,
    pending: int, lastCommit: int, lastPoll: int, pollKnown: set<string>,
    lastAsn: int, asnCursor: Option<string>)

  /** `order` lists each key of `realtime` exactly once. */
  ghost predicate Ordered(m: Mem) {
    multiset(m.order) == multiset(m.realtime.Keys)
  }

  // ---------------------------------------------------------------- one event

  /** `deque(maxlen=cap).append(x)`: when full, the oldest element drops out. */
  function Push<T>(q: seq<T>, x: T, cap: nat): seq<T> {
    var all := q + [x];
    if |all| <= cap then all else all[|all| - cap..]
  }

  /** A push keeps at most `cap` elements: the new one last, after the newest of the old ones. */
  lemma PushSpec<T>(q: seq<T>, x: T, cap: nat)
    ensures var r := Push(q, x, cap);
            |r| == (if |q| < cap then |q| + 1 else cap)
            && (cap > 0 ==> r[|r| - 1] == x && r[..|r| - 1] == q[|q| + 1 - |r|..])
            && (|q| < cap ==> r == q + [x])
  {
    var r := Push(q, x, cap);
    if cap > 0 && |q| >= cap {
      assert r[..|r| - 1] == q[|q| + 1 - |r|..];
    }
  }

  /** `after` is `before` with the counter of `kind` one higher, when `kind` has a counter, and every other counter the same. */
  predicate Increments(before: Counters, after: Counters, kind: Kind) {
    && after.fail == before.fail + (if kind == Fail then 1 else 0)
    && after.ok == before.ok + (if kind == Ok then 1 else 0)
    && after.ban == before.ban + (if kind == Ban then 1 else 0)
    && after.unban == before.unban + (if kind == Unban then 1 else 0)
  }

  /** `rt[kind] += 1` on the counters of `ip`, for a counted kind; `INFO` and `ERR` have no counter. */
  function Bumped(rt: map<string, Counters>, ip: string, kind: Kind): (r: map<string, Counters>)
    requires ip in rt
    ensures r.Keys == rt.Keys
    ensures Increments(rt[ip], r[ip], kind)
    ensures forall a :: a in rt && a != ip ==> r[a] == rt[a]
  {
    var c := rt[ip];
    rt[ip := match kind
      case Fail => c.(fail := c.fail + 1)
      case Ok => c.(ok := c.ok + 1)
      case Ban => c.(ban := c.ban + 1)
      case Unban => c.(unban := c.unban + 1)
      case _ => c]
  }

  /** One more event adds one to the total exactly when its kind is counted. */
  lemma IncrementsTotal(before: Counters, after: Counters, kind: Kind)
    requires Increments(before, after, kind)
    ensures after.Total() == before.Total() + (if kind.IsActivity() then 1 else 0)
  {
  }

  /** `realtime.setdefault(ip, zeros)`. */
  function Seen(m: Mem, ip: string): Mem {
    if ip in m.realtime then m else m.(realtime := m.realtime[ip := Zero], order := m.order + [ip])
  }

  /** `setdefault` then the increment of `_handle_event`. */
  function Counted(m: Mem, kind: Kind, ip: string): Mem {
    var s := Seen(m, ip);
    s.(realtime := Bumped(s.realtime, ip, kind))
  }

  /** `log_sys`: only the global deque gets the event. */
  function Logged(m: Mem, ts: int, kind: Kind, ip: string, msg: string): Mem {
    m.(events := Push(m.events, Event(ts, Sys, kind, ip, "", msg), MaxEvents))
  }

  /** `_push_event`. */
  function Pushed(m: Mem, ev: Event): Mem {
    var mine := if ev.ip in m.ipEvents then m.ipEvents[ev.ip] else [];
    m.(events := Push(m.events, ev, MaxEvents), ipEvents := m.ipEvents[ev.ip := Push(mine, ev, MaxIpEvents)])
  }

  /** The bookkeeping after the cache write of `_handle_event`: mark the cache dirty, or log what the write raised. */
  function Stored(m: Mem, ip: string, ts: int, raised: Option<string>): Mem {
    if raised.None? then m.(pending := m.pending + 1)
    else Logged(m, ts, Err, ip, "sqlite upsert failed: " + raised.value)
  }

  /**
   * `_handle_event` at `ts` once the cache write is done: count the event,
   * mark the cache dirty or log what the write raised, then record the event.
   */
  function Recorded(m: Mem, e: Incoming, ts: int, raised: Option<string>): Mem {
    Pushed(Stored(Counted(m, e.kind, e.ip), e.ip, ts, raised), Event(ts, e.src, e.kind, e.ip, e.jail, ""))
  }

  /** `_handle_event` at `ts`: the fields and the tables after it. */
  function Handled(m: Mem, t: CacheDb.Tables, cfg: Config, e: Incoming, ts: int): (Mem, CacheDb.Tables) {
    var o := CacheDb.IpEvent(t, e.ip, ts, e.kind, e.jail, cfg.showOk, cfg.subnetPrefix);
    (Recorded(m, e, ts, o.raised), o.tables)
  }

  /** `step` applied to each of `xs` in turn, from `s`. */
  function Fold<S, E>(s: S, xs: seq<E>, step: (S, E) -> S): S {
    if xs == [] then s else step(Fold(s, xs[..|xs| - 1], step), xs[|xs| - 1])
  }

  /** Folding over two runs one after the other is folding over their concatenation. */
  lemma {:induction false} FoldAppend<S, E>(s: S, xs: seq<E>, ys: seq<E>, step: (S, E) -> S)
    ensures Fold(s, xs + ys, step) == Fold(Fold(s, xs, step), ys, step)
    decreases |ys|
  {
    if ys == [] {
      assert xs + ys == xs;
    } else {
      FoldAppend(s, xs, ys[..|ys| - 1], step);
      assert (xs + ys)[..|xs + ys| - 1] == xs + ys[..|ys| - 1];
    }
  }

  lemma FoldOne<S, E>(s: S, x: E, step: (S, E) -> S)
    ensures Fold(s, [x], step) == step(s, x)
  {
    assert [x][..0] == [];
  }

  /** A run of `_handle_event` calls, in order. */
  function HandledAll(m: Mem, t: CacheDb.Tables, cfg: Config, es: seq<Incoming>, ts: int): (Mem, CacheDb.Tables) {
    Fold((m, t), es, (st: (Mem, CacheDb.Tables), e: Incoming) => Handled(st.0, st.1, cfg, e, ts))
  }

  // ---------------------------------------------------------------- log tails

  /** What one auth-log line gives `_handle_event`: its parse, unless it is an `OK` that is not shown. */
  function AuthEvent(line: string, showOk: bool): seq<Incoming> {
    match Parsers.ParseSshLine(line)
    case None => []
    case Some((ip, kind)) => if kind == Ok && !showOk then [] else [Incoming(Auth, kind, ip, "")]
  }

  /** What one fail2ban-log line gives `_handle_event`: its parse, with its jail. */
  function F2bEvent(line: string): seq<Incoming> {
    match Parsers.ParseF2bLine(line)
    case None => []
    case Some((ip, kind, jail)) => [Incoming(F2b, kind, ip, jail)]
  }

  /** What `lines` give, line by line in order, when each line gives `ev(line)`. */
  function Gathered(lines: seq<string>, ev: string -> seq<Incoming>): seq<Incoming> {
    if lines == [] then [] else Gathered(lines[..|lines| - 1], ev) + ev(lines[|lines| - 1])
  }

  /** The auth-log lines that reach `_handle_event`, in order. */
  function AuthIncoming(lines: seq<string>, showOk: bool): seq<Incoming> {
    Gathered(lines, line => AuthEvent(line, showOk))
  }

  /** The fail2ban-log lines that reach `_handle_event`, in order. */
  function F2bIncoming(lines: seq<string>): seq<Incoming> {
    Gathered(lines, F2bEvent)
  }

  lemma HandledOne(m: Mem, t: CacheDb.Tables, cfg: Config, e: Incoming, ts: int)
    ensures HandledAll(m, t, cfg, [e], ts) == Handled(m, t, cfg, e, ts)
  {
    FoldOne((m, t), e, (st: (Mem, CacheDb.Tables), e: Incoming) => Handled(st.0, st.1, cfg, e, ts));
  }

  /** Handling two runs of events one after the other is handling their concatenation. */
  lemma HandledAllAppend(m: Mem, t: CacheDb.Tables, cfg: Config, xs: seq<Incoming>, ys: seq<Incoming>, ts: int)
    ensures var r := HandledAll(m, t, cfg, xs, ts);
            HandledAll(m, t, cfg, xs + ys, ts) == HandledAll(r.0, r.1, cfg, ys, ts)
  {
    FoldAppend((m, t), xs, ys, (st: (Mem, CacheDb.Tables), e: Incoming) => Handled(st.0, st.1, cfg, e, ts));
  }

  /** One more event: handle the ones before it, then it. */
  lemma HandledAllNext(m: Mem, t: CacheDb.Tables, cfg: Config, es: seq<Incoming>, i: int, ts: int)
    requires 0 <= i < |es|
    ensures var r := HandledAll(m, t, cfg, es[..i], ts);
            HandledAll(m, t, cfg, es[..i + 1], ts) == Handled(r.0, r.1, cfg, es[i], ts)
  {
    assert es[..i + 1][..i] == es[..i];
  }

  /** One more auth-log line: handle what the lines before it gave, then what it gives. */
  lemma HandledAuthNext(m: Mem, t: CacheDb.Tables, cfg: Config, lines: seq<string>, i: int, ts: int)
    requires 0 <= i < |lines|
    ensures var r := HandledAll(m, t, cfg, AuthIncoming(lines[..i], cfg.showOk), ts);
            HandledAll(m, t, cfg, AuthIncoming(lines[..i + 1], cfg.showOk), ts) == HandledAll(r.0, r.1, cfg, AuthEvent(lines[i], cfg.showOk), ts)
  {
    assert lines[..i + 1][..i] == lines[..i];
    assert AuthIncoming(lines[..i + 1], cfg.showOk) == AuthIncoming(lines[..i], cfg.showOk) + AuthEvent(lines[i], cfg.showOk);
    HandledAllAppend(m, t, cfg, AuthIncoming(lines[..i], cfg.showOk), AuthEvent(lines[i], cfg.showOk), ts);
  }

  /** One more fail2ban-log line: handle what the lines before it gave, then what it gives. */
  lemma HandledF2bNext(m: Mem, t: CacheDb.Tables, cfg: Config, lines: seq<string>, i: int, ts: int)
    requires 0 <= i < |lines|
    ensures var r := HandledAll(m, t, cfg, F2bIncoming(lines[..i]), ts);
            HandledAll(m, t, cfg, F2bIncoming(lines[..i + 1]), ts) == HandledAll(r.0, r.1, cfg, F2bEvent(lines[i]), ts)
  {
    assert lines[..i + 1][..i] == lines[..i];
    assert F2bIncoming(lines[..i + 1]) == F2bIncoming(lines[..i]) + F2bEvent(lines[i]);
    HandledAllAppend(m, t, cfg, F2bIncoming(lines[..i]), F2bEvent(lines[i]), ts);
  }

  // ---------------------------------------------------------------- ban polling

  /** The first index where `needle` occurs in `hay` at or after `i`. */
  function FindFrom(hay: string, needle: string, i: nat): (r: Option<nat>)
    ensures r.Some? ==> i <= r.value && OccursAt(hay, needle, r.value)
    decreases |hay| - i
  {
    if i + |needle| > |hay| then None
    else if OccursAt(hay, needle, i) then Some(i)
    else FindFrom(hay, needle, i + 1)
  }

  /** The addresses one line of `fail2ban-client status` lists: the words after the marker. */
  function BannedOn(line: string): set<string> {
    match FindFrom(line, BannedMarker, 0)
    case None => {}
    case Some(i) =>
      var words := SplitWs(line[i + |BannedMarker|..]);
      set w | w in words
  }

  /** Every address listed on a line holding the marker. */
  function Banned(lines: seq<string>): set<string> {
    UnionOver(lines, BannedOn)
  }

  /** The union of `f(x)` over `xs`, gathered front to back. */
  function UnionOver<T>(xs: seq<T>, f: T -> set<string>): set<string> {
    if xs == [] then {} else UnionOver(xs[..|xs| - 1], f) + f(xs[|xs| - 1])
  }

  /** The events of one poll: `BAN` for the new addresses, then `UNBAN` for the gone ones, each group in sorted order. */
  function PollIncoming(added: set<string>, removed: set<string>, jail: string): (r: seq<Incoming>)
    ensures |r| == |added| + |removed|
  {
    var a := SortedSet(added);
    var r := SortedSet(removed);
    seq(|a|, i requires 0 <= i < |a| => Incoming(Poll, Ban, a[i], jail))
    + seq(|r|, i requires 0 <= i < |r| => Incoming(Poll, Unban, r[i], jail))
  }

  // ---------------------------------------------------------------- ASN refresh

  /** An `ip_cache` row whose provider columns are missing or older than `minFetched`. */
  predicate Stale(r: CacheDb.IpRow, minFetched: int) {
    r.providerFetched.None? || r.providerFetched.value < minFetched
  }

  /** SQL `LIMIT n` on a sequence: a negative limit keeps everything. */
  function Take<T>(xs: seq<T>, n: int): seq<T> {
    if n < 0 || n >= |xs| then xs else xs[..n]
  }

  /**
   * The scan `refresh_asn` asks the cache for: up to `batch` stale addresses
   * after `cursor`, in ascending order.
   */
  function NeedingRefresh(ips: map<string, CacheDb.IpRow>, cursor: Option<string>, batch: int, minFetched: int): seq<string> {
    Take(SortedSet(StaleAfter(ips, cursor, minFetched)), batch)
  }

  /** The stale addresses that sort after `cursor`. */
  function StaleAfter(ips: map<string, CacheDb.IpRow>, cursor: Option<string>, minFetched: int): set<string> {
    set ip | ip in ips && Stale(ips[ip], minFetched) && (cursor.None? || StrLess(cursor.value, ip))
  }

  // ---------------------------------------------------------------- history import

  /** The stored fingerprint equals `(mtime, size)`. */
  predicate Fingerprinted(state: map<string, string>, mtime: int, size: int) {
    CacheDb.Get(state, "source_mtime") == Some(IntToStr(mtime)) && CacheDb.Get(state, "source_size") == Some(IntToStr(size))
  }

  /** Where the import loop stands: the tables, the committed tables, the count so far, and the exception that stopped it. */
  datatype Run = Run(cur: CacheDb.Tables, durable: CacheDb.Tables, imported: nat, raised: Option<string>)

  /** One `upsert_imported_bips`, then a commit after every 2000th. */
  function ImportStep(r: Run, ip: string, a: History.Agg, prefix: int, now: int): Run {
    if r.raised.Some? then r
    else
      var o := CacheDb.ImportBan(r.cur, ip, now, a.banCountTotal, a.lastBanTs, a.lastBanJail, prefix);
      if o.raised.Some? then r.(cur := o.tables, raised := o.raised)
      else
        var n := r.imported + 1;
        Run(o.tables, if n % ImportBatch == 0 then o.tables else r.durable, n, None)
  }

  /** The loop over `agg.items()` in `keys` order, from `r`. */
  function ImportAll(r: Run, keys: seq<string>, agg: map<string, History.Agg>, prefix: int, now: int): Run
    requires forall k :: k in keys ==> k in agg
    decreases |keys|
  {
    if keys == [] || r.raised.Some? then r
    else ImportAll(ImportStep(r, keys[0], agg[keys[0]], prefix, now), keys[1..], agg, prefix, now)
  }

  /** The bookkeeping after a complete import. */
  function Finished(t: CacheDb.Tables, path: string, mtime: int, size: int, imported: nat, ts: int): CacheDb.Tables {
    var r := CacheDb.Recounted(t);
    r.(state := r.state["imported_at_ts" := IntToStr(ts)]["source_sqlite_path" := path]
                       ["source_mtime" := IntToStr(mtime)]["source_size" := IntToStr(size)]
                       ["last_import_rows" := IntToStr(imported)])
  }

  // ---------------------------------------------------------------- queries

  function Filter<T>(xs: seq<T>, p: T -> bool): seq<T> {
    if xs == [] then []
    else if p(xs[0]) then [xs[0]] + Filter(xs[1..], p)
    else Filter(xs[1..], p)
  }

  /** `list(realtime.items())`. */
  function Items(order: seq<string>, rt: map<string, Counters>): seq<(string, Counters)> {
    seq(|order|, i requires 0 <= i < |order| => (order[i], if order[i] in rt then rt[order[i]] else Zero))
  }

  /** The sort key of the realtime tab: `(BAN, FAIL, total)`. */
  predicate KeyFirst(a: (string, Counters), b: (string, Counters)) {
    var (x, y) := (a.1, b.1);
    x.ban > y.ban
    || (x.ban == y.ban && (x.fail > y.fail || (x.fail == y.fail && x.Total() >= y.Total())))
  }

  /** The search test: the lower-cased search occurs in the lower-cased address. */
  function Matching(search: string): ((string, Counters)) -> bool {
    (item: (string, Counters)) => Contains(Lower(item.0), Lower(search))
  }

  predicate Live(item: (string, Counters)) {
    item.1.Total() > 0
  }

  /**
   * `get_realtime_rows(search)`: rows with some activity whose address
   * contains the search (both lower-cased), sorted by `(BAN, FAIL, total)`
   * descending; `reverse=True` keeps tied rows in insertion order.
   */
  function RealtimeRows(order: seq<string>, rt: map<string, Counters>, search: string): seq<(string, Counters)> {
    var live := Filter(Items(order, rt), Live);
    var hits := if search == [] then live else Filter(live, Matching(search));
    SortBy(hits, KeyFirst)
  }

  /** Python's `xs[k:]`, negative `k` counting from the end. */
  function SliceFrom<T>(xs: seq<T>, k: int): seq<T> {
    if k < 0 then (if -k >= |xs| then xs else xs[|xs| + k..])
    else if k >= |xs| then []
    else xs[k..]
  }

  /** One line of the events panel; `fmt` is `fmt_epoch_utc`. */
  function EventLine(fmt: int -> string, ev: Event): string {
    if ev.kind == Info || ev.kind == Err then fmt(ev.ts) + " " + KindName(ev.kind) + " " + ev.msg
    else
      fmt(ev.ts) + " " + SourceName(ev.src) + " " + KindName(ev.kind) + " " + ev.ip
      + (if ev.jail != "" then " jail=" + ev.jail else "")
  }

  /** `get_events_lines(max_lines)`: the lines of `events[-max_lines:]`. */
  function EventsLines(events: seq<Event>, maxLines: int, fmt: int -> string): seq<string> {
    var shown := SliceFrom(events, -maxLines);
    seq(|shown|, i requires 0 <= i < |shown| => EventLine(fmt, shown[i]))
  }

  // ---------------------------------------------------------------- periodic work

  /** What `subprocess.run` of `fail2ban-client status <jail>` gave: an exception, or an exit code and its output. */
  datatype Proc = Failed(why: string) | Done(code: int, stdout: string)

  /** `poll_fail2ban_bans` at `clock`: the gates, then the diff against the addresses known from the last poll. */
  function Polled(m: Mem, t: CacheDb.Tables, cfg: Config, clock: int, ts: int, proc: Proc): (Mem, CacheDb.Tables) {
    if !cfg.pollBans || cfg.jail == [] || clock - m.lastPoll < cfg.pollIntervalMs then (m, t)
    else
      var m1 := m.(lastPoll := clock);
      match proc
      case Failed(why) => (Logged(m1, ts, Err, "", "poll fail2ban-client failed: " + why), t)
      case Done(code, out) =>
        if code != 0 then (m1, t) else Diffed(m1, t, cfg, Banned(SplitLines(out)), ts)
  }

  /** The diff step of `poll_fail2ban_bans`: handle the new bans and the lifted ones, then remember `banned`. */
  function Diffed(m: Mem, t: CacheDb.Tables, cfg: Config, banned: set<string>, ts: int): (Mem, CacheDb.Tables) {
    var added := banned - m.pollKnown;
    var removed := m.pollKnown - banned;
    if added == {} && removed == {} then (m, t)
    else
      var r := HandledAll(m, t, cfg, PollIncoming(added, removed, cfg.jail), ts);
      (r.0.(pollKnown := banned), r.1)
  }

  /** The outcome of `refresh_asn`: the new fields and tables and the returned `(asked, written)`. */
  datatype Refresh = Refresh(m: Mem, t: CacheDb.Tables, asked: int, written: int)

  /** The scan of `refresh_asn`: from the cursor, or once more from the start when nothing lies past the cursor. */
  function Scan(ips: map<string, CacheDb.IpRow>, cursor: Option<string>, batch: int, minFetched: int): (Option<string>, seq<string>) {
    var first := NeedingRefresh(ips, cursor, batch, minFetched);
    if first == [] && cursor.Some? then (None, NeedingRefresh(ips, None, batch, minFetched)) else (cursor, first)
  }

  /** The rest of `refresh_asn` once the batch `need` is known: move the cursor, look the batch up, store what came back. */
  function LookedUp(m: Mem, t: CacheDb.Tables, need: seq<string>, transport: string -> Asn.Reply, ts: int): Refresh {
    if need == [] then Refresh(m, t, 0, 0)
    else
      var m1 := m.(asnCursor := Some(need[|need| - 1]));
      var found := Asn.Lookup(need, transport, ts);
      if found == map[] then Refresh(m1, t, |need|, 0)
      else Refresh(m1.(pending := m1.pending + 1), CacheDb.AsnApplied(t, found), |found|, |found|)
  }

  /** The scan from `m`'s cursor for rows fetched before `ts - ttl`, followed by the lookup of its batch. */
  function Scanned(m: Mem, t: CacheDb.Tables, batch: int, ttl: int, transport: string -> Asn.Reply, ts: int): Refresh {
    var scan := Scan(t.ips, m.asnCursor, batch, ts - ttl);
    LookedUp(m.(asnCursor := scan.0), t, scan.1, transport, ts)
  }

  /**
   * `refresh_asn` at `clock` as evidently intended: past the gates, scan
   * for stale addresses after the cursor, look them up, store the answers.
   * The four settings are `asn_enable`, `asn_refresh_interval`,
   * `asn_cache_ttl` and `asn_batch` of the configuration.
   */
  function Refreshed(m: Mem, t: CacheDb.Tables, enable: bool, intervalMs: int, ttl: int, batch: int,
                     clock: int, ts: int, transport: string -> Asn.Reply): Refresh {
    if !enable || clock - m.lastAsn < intervalMs then Refresh(m, t, 0, 0)
    else Scanned(m.(lastAsn := clock), t, batch, ttl, transport, ts)
  }

  /** Before the gates open, `refresh_asn` changes nothing and reports `(0, 0)`. */
  lemma RefreshedGated(m: Mem, t: CacheDb.Tables, enable: bool, intervalMs: int, ttl: int, batch: int,
                       clock: int, ts: int, transport: string -> Asn.Reply)
    requires !enable || clock - m.lastAsn < intervalMs
    ensures Refreshed(m, t, enable, intervalMs, ttl, batch, clock, ts, transport) == Refresh(m, t, 0, 0)
  {
  }

  /** Past the gates, `refresh_asn` stamps the clock and then scans: `r` is the outcome of that scan. */
  lemma RefreshedPastGates(m: Mem, t: CacheDb.Tables, enable: bool, intervalMs: int, ttl: int, batch: int,
                           clock: int, ts: int, transport: string -> Asn.Reply, stamped: Mem, r: Refresh)
    requires enable && clock - m.lastAsn >= intervalMs
    requires stamped == m.(lastAsn := clock) && r == Scanned(stamped, t, batch, ttl, transport, ts)
    ensures r == Refreshed(m, t, enable, intervalMs, ttl, batch, clock, ts, transport)
  {
  }

  /** The scan's batch is looked up with the cursor the scan leaves. */
  lemma ScannedBatch(m: Mem, t: CacheDb.Tables, batch: int, ttl: int, transport: string -> Asn.Reply, ts: int, cursor: Option<string>, need: seq<string>)
    requires (cursor, need) == Scan(t.ips, m.asnCursor, batch, ts - ttl)
    ensures Scanned(m, t, batch, ttl, transport, ts) == LookedUp(m.(asnCursor := cursor), t, need, transport, ts)
  {
  }

  lemma LookedUpFound(m: Mem, t: CacheDb.Tables, need: seq<string>, transport: string -> Asn.Reply, ts: int, m1: Mem, found: map<string, AsnInfo>)
    requires need != [] && m1 == m.(asnCursor := Some(need[|need| - 1]))
    requires found == Asn.Lookup(need, transport, ts)
    ensures found == map[] ==> LookedUp(m, t, need, transport, ts) == Refresh(m1, t, |need|, 0)
    ensures found != map[] ==> LookedUp(m, t, need, transport, ts) == Refresh(m1.(pending := m1.pending + 1), CacheDb.AsnApplied(t, found), |found|, |found|)
  {
  }

  /** The text of the `AttributeError` the missing cache method raises. */
  const NoScanMethod := "'CacheDB' object has no attribute 'list_ips_needing_asn_refresh'"

  /** `refresh_asn` as written: past the gates, the scan always raises. */
  function RefreshedAsWritten(m: Mem, cfg: Config, clock: int, ts: int): Mem {
    if !cfg.asnEnable || clock - m.lastAsn < cfg.asnRefreshIntervalMs then m
    else Logged(m.(lastAsn := clock), ts, Err, "", "asn cache scan failed: " + NoScanMethod)
  }

  /**
   * `_maybe_commit` at `clock`: the fields, the working tables and the
   * durable tables after it; `failure` is the text of a failed commit.
   */
  function Committed(m: Mem, t: CacheDb.Tables, durable: CacheDb.Tables, clock: int, ts: int, failure: Option<string>)
    : (Mem, CacheDb.Tables, CacheDb.Tables)
  {
    if m.pending <= 0 || clock - m.lastCommit < CommitIntervalMs then (m, t, durable)
    else
      var m1 := m.(pending := 0, lastCommit := clock);
      match failure
      case None => (m1, t, t)
      case Some(e) => (Logged(m1, ts, Err, "", "sqlite commit failed: " + e), durable, durable)
  }

  /**
   * `import_fail2ban_history`: `fingerprint` is what `source_fingerprint`
   * gave, `db` the fail2ban database. The fields, the working tables and the
   * durable tables after it.
   */
  function Imported(m: Mem, t: CacheDb.Tables, durable: CacheDb.Tables, cfg: Config,
                    fingerprint: Result<(int, int)>, db: History.FailDb, ts: int)
    : (Mem, CacheDb.Tables, CacheDb.Tables)
  {
    match fingerprint
    case Failure(e) => (Logged(m, ts, Err, "", "fail2ban sqlite stat failed: " + e), t, durable)
    case Success((mtime, size)) =>
      if Fingerprinted(t.state, mtime, size) then (m, t, durable)
      else
        match History.ImportAggregates(db)
        case Failure(e) => (Logged(m, ts, Err, "", "import bips aggregates failed: " + e), t, durable)
        case Success(agg) => ImportedFrom(m, t, durable, cfg, mtime, size, agg, ts)
  }

  /** The rest of `import_fail2ban_history` once the aggregates `agg` are read: the loop, then the bookkeeping or the rollback. */
  function ImportedFrom(m: Mem, t: CacheDb.Tables, durable: CacheDb.Tables, cfg: Config,
                        mtime: int, size: int, agg: map<string, History.Agg>, ts: int)
    : (Mem, CacheDb.Tables, CacheDb.Tables)
  {
    SortedSetSpec(agg.Keys);
    var r := ImportAll(Run(t, durable, 0, None), SortedSet(agg.Keys), agg, cfg.subnetPrefix, ts);
    match r.raised
    case Some(e) => (Logged(m, ts, Err, "", "import failed (rolled back): " + e), r.durable, r.durable)
    case None =>
      var f := Finished(r.cur, cfg.f2bSqlite, mtime, size, r.imported, ts);
      (Logged(m, ts, Info, "", "imported fail2ban history: " + NatToStr(r.imported) + " IPs"), f, f)
  }

  /** `setdefault` for each address `bootstrap_realtime_from_cache` got. */
  function Seeded(m: Mem, ips: seq<string>): Mem {
    if ips == [] then m else Seen(Seeded(m, ips[..|ips| - 1]), ips[|ips| - 1])
  }

  // ---------------------------------------------------------------- the realtime table

  /** A first sighting appends the address to `order`; a known one changes nothing. */
  lemma SeenOrdered(m: Mem, ip: string)
    requires Ordered(m)
    ensures var s := Seen(m, ip);
            Ordered(s) && s.realtime.Keys == m.realtime.Keys + {ip}
            && (forall a :: a in m.realtime ==> s.realtime[a] == m.realtime[a])
            && (ip !in m.realtime ==> s.realtime[ip] == Zero)
  {
    if ip !in m.realtime {
      var s := Seen(m, ip);
      assert s.realtime.Keys == m.realtime.Keys + {ip};
      assert multiset(s.realtime.Keys) == multiset(m.realtime.Keys) + multiset{ip};
    }
  }

  /** Bumping a counter that is already there keeps `order` listing the keys. */
  lemma BumpedOrdered(m: Mem, ip: string, kind: Kind)
    requires Ordered(m) && ip in m.realtime
    ensures Ordered(m.(realtime := Bumped(m.realtime, ip, kind)))
  {
  }

  /** `_handle_event` keeps `order` listing `realtime`'s keys once each, adding the event's address. */
  lemma CountedOrdered(m: Mem, kind: Kind, ip: string)
    requires Ordered(m)
    ensures Ordered(Counted(m, kind, ip)) && Counted(m, kind, ip).realtime.Keys == m.realtime.Keys + {ip}
  {
    SeenOrdered(m, ip);
    BumpedOrdered(Seen(m, ip), ip, kind);
  }

  /** `_handle_event` bumps the event's counter, starting from zeros for a new address, and no other. */
  lemma CountedCounters(m: Mem, kind: Kind, ip: string)
    ensures var c := Counted(m, kind, ip);
            && ip in c.realtime
            && Increments(if ip in m.realtime then m.realtime[ip] else Zero, c.realtime[ip], kind)
            && (forall a :: a in m.realtime && a != ip ==> a in c.realtime && c.realtime[a] == m.realtime[a])
  {
  }

  /** The counters part of `_handle_event` touches only `realtime` and `order`. */
  lemma CountedKeeps(m: Mem, kind: Kind, ip: string)
    ensures var c := Counted(m, kind, ip);
            c == m.(realtime := c.realtime, order := c.order)
  {
  }
}
