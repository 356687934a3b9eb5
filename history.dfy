/**
 * fail2ban_sqlite.py: reading fail2ban's own database. A table is its set of
 * column names and its rows in storage order; the value of a column the table
 * lacks is never consulted. Where an `ORDER BY` leaves ties to SQLite, the
 * model sorts stably, so tied rows keep storage order.
 */
module History {
  import opened Wrappers
  import opened Sorting

  /** A row of `bips` or `bans`; every column but `ip` may be NULL. */
  datatype BanRow = BanRow(ip: string, jail: Option<string>, timeOfBan: Option<int>, banTime: Option<int>, banCount: Option<int>)

  datatype Table = Table(columns: set<string>, rows: seq<BanRow>)

  /** The two tables fail2ban may have, `None` when absent. */
  datatype FailDb = FailDb(bips: Option<Table>, bans: Option<Table>)

  /** A row of `fetch_ip_history_bips`: `jail, timeofban, bantime, bancount`. */
  datatype Hit = Hit(jail: Option<string>, timeOfBan: Option<int>, banTime: Option<int>, banCount: Option<int>)

  /** The per-address dictionary of `import_bips_aggregates`. */
  datatype Agg = Agg(banCountTotal: int, lastBanTs: Option<int>, lastBanJail: string, lastBanBantime: int)

  const NoTable := "No bips/bans table found in fail2ban sqlite"
  const NoBantime := "no such column: bantime"

  predicate HasRequired(t: Table) {
    "ip" in t.columns && "jail" in t.columns && "timeofban" in t.columns
  }

  // ---------------------------------------------------------------- SQL building blocks

  /** `a` may come before `b` under `ORDER BY ... DESC`, where NULL sorts below every number. */
  predicate NullsLast(a: Option<int>, b: Option<int>) {
    b.None? || (a.Some? && a.value >= b.value)
  }

  predicate ByTime(a: BanRow, b: BanRow) {
    NullsLast(a.timeOfBan, b.timeOfBan)
  }

  predicate HitByTime(a: Hit, b: Hit) {
    NullsLast(a.timeOfBan, b.timeOfBan)
  }

  /** `ORDER BY bancount DESC, timeofban DESC`. */
  predicate ByCountThenTime(a: BanRow, b: BanRow) {
    (a.banCount != b.banCount && NullsLast(a.banCount, b.banCount))
    || (a.banCount == b.banCount && NullsLast(a.timeOfBan, b.timeOfBan))
  }

  /** `WHERE ip=?`, in storage order. */
  function OfIp(rows: seq<BanRow>, ip: string): seq<BanRow> {
    if rows == [] then []
    else if rows[0].ip == ip then [rows[0]] + OfIp(rows[1..], ip)
    else OfIp(rows[1..], ip)
  }

  /** The addresses `GROUP BY ip` forms groups for. */
  function Ips(rows: seq<BanRow>): set<string> {
    set r | r in rows :: r.ip
  }

  function Times(rs: seq<BanRow>): seq<Option<int>> {
    seq(|rs|, i requires 0 <= i < |rs| => rs[i].timeOfBan)
  }

  function Bantimes(rs: seq<BanRow>): seq<Option<int>> {
    seq(|rs|, i requires 0 <= i < |rs| => rs[i].banTime)
  }

  function Counts(rs: seq<BanRow>): seq<Option<int>> {
    seq(|rs|, i requires 0 <= i < |rs| => rs[i].banCount)
  }

  /** SQL `MAX`: NULLs are skipped, and a group of NULLs gives NULL. */
  function MaxOf(xs: seq<Option<int>>): Option<int> {
    if xs == [] then None
    else
      var m := MaxOf(xs[1..]);
      if xs[0].None? then m
      else if m.None? || xs[0].value >= m.value then xs[0]
      else m
  }

  /** SQL `SUM` followed by `or 0`: NULLs are skipped, and a group of NULLs gives 0. */
  function SumOf(xs: seq<Option<int>>): int {
    if xs == [] then 0 else xs[0].GetOr(0) + SumOf(xs[1..])
  }

  /** `ORDER BY timeofban DESC LIMIT 1`. */
  function Latest(rs: seq<BanRow>): Option<BanRow> {
    if rs == [] then None else Some(SortBy(rs, ByTime)[0])
  }

  /** SQLite's `LIMIT`: a negative limit, like none at all, keeps every row. */
  function Limit<T>(xs: seq<T>, limit: Option<int>): seq<T> {
    if limit.None? || limit.value < 0 || limit.value >= |xs| then xs else xs[..limit.value]
  }

  // ---------------------------------------------------------------- import_bips_aggregates

  /** One address's aggregate: the group query's total and latest time, and the latest row's jail and ban time. */
  function AggOf(rows: seq<BanRow>, ip: string, summed: bool): Agg {
    var rs := OfIp(rows, ip);
    var top := Latest(rs);
    Agg(if summed then SumOf(Counts(rs)) else |rs|,
        MaxOf(Times(rs)),
        if top.Some? && top.value.jail.Some? then top.value.jail.value else "",
        if top.Some? && top.value.banTime.Some? then top.value.banTime.value else 0)
  }

  function Aggregates(t: Table, summed: bool): map<string, Agg> {
    map ip | ip in Ips(t.rows) :: AggOf(t.rows, ip, summed)
  }

  /**
   * `import_bips_aggregates`: `bips` when it exists (summing its `bancount`
   * when it has one), `bans` otherwise. The per-address query names
   * `bantime`, so a table without that column fails as soon as it has a row.
   */
  function ImportAggregates(db: FailDb): Result<map<string, Agg>> {
    if db.bips.Some? then
      var t := db.bips.value;
      if !HasRequired(t) then Failure("bips table missing required columns")
      else if t.rows != [] && "bantime" !in t.columns then Failure(NoBantime)
      else Success(Aggregates(t, "bancount" in t.columns))
    else if db.bans.Some? then
      var t := db.bans.value;
      if !HasRequired(t) then Failure("bans table missing required columns")
      else if t.rows != [] && "bantime" !in t.columns then Failure(NoBantime)
      else Success(Aggregates(t, false))
    else Failure(NoTable)
  }

  method ImportBipsAggregates(db: FailDb) returns (r: Result<map<string, Agg>>)
    ensures r == ImportAggregates(db)
  {
    if db.bips.Some? {
      var t := db.bips.value;
      if !HasRequired(t) {
        return Failure("bips table missing required columns");
      }
      r := Collect(t, "bancount" in t.columns);
    } else if db.bans.Some? {
      var t := db.bans.value;
      if !HasRequired(t) {
        return Failure("bans table missing required columns");
      }
      r := Collect(t, false);
    } else {
      r := Failure(NoTable);
    }
  }

  /** The `for` loop over the grouped rows, one dictionary entry and one `SELECT jail, bantime` per address. */
  method Collect(t: Table, summed: bool) returns (r: Result<map<string, Agg>>)
    ensures r == if t.rows != [] && "bantime" !in t.columns then Failure(NoBantime) else Success(Aggregates(t, summed))
  {
    var out: map<string, Agg> := map[];
    var todo := Ips(t.rows);
    if t.rows != [] {
      assert t.rows[0].ip in todo;
    }
    while todo != {}
      invariant todo <= Ips(t.rows) && out.Keys == Ips(t.rows) - todo
      invariant forall ip :: ip in out ==> out[ip] == AggOf(t.rows, ip, summed)
      invariant "bantime" !in t.columns ==> out == map[]
      decreases |todo|
    {
      var ip :| ip in todo;
      if "bantime" !in t.columns {
        return Failure(NoBantime);
      }
      out := out[ip := AggOf(t.rows, ip, summed)];
      todo := todo - {ip};
    }
    assert out == Aggregates(t, summed);
    r := Success(out);
  }

  // ---------------------------------------------------------------- fetch_ip_history_bips

  /** The table `fetch_ip_history_bips` reads and whether it has its own `bancount`: the first of `bips`, `bans` that has the required columns. */
  function HistoryTable(db: FailDb): Option<(Table, bool)> {
    if db.bips.Some? && HasRequired(db.bips.value) then Some((db.bips.value, "bancount" in db.bips.value.columns))
    else if db.bans.Some? && HasRequired(db.bans.value) then Some((db.bans.value, false))
    else None
  }

  /** The selected columns of one row; `1 AS bancount` when the table has no such column. */
  function AsHit(r: BanRow, counted: bool): Hit {
    Hit(r.jail, r.timeOfBan, r.banTime, if counted then r.banCount else Some(1))
  }

  function Hits(rs: seq<BanRow>, counted: bool): seq<Hit> {
    seq(|rs|, i requires 0 <= i < |rs| => AsHit(rs[i], counted))
  }

  /** `fetch_ip_history_bips(ip, limit)`: no table to read gives no rows rather than an error. */
  function IpHistory(db: FailDb, ip: string, limit: Option<int>): Result<seq<Hit>> {
    match HistoryTable(db)
    case None => Success([])
    case Some((t, counted)) =>
      if "bantime" !in t.columns then Failure(NoBantime)
      else Success(Limit(SortBy(Hits(OfIp(t.rows, ip), counted), HitByTime), limit))
  }

  // ---------------------------------------------------------------- fetch_top_bips

  /** The addresses of `rows` in order of first appearance. */
  function Distinct(rows: seq<BanRow>): seq<string> {
    if rows == [] then []
    else
      var d := Distinct(rows[..|rows| - 1]);
      if rows[|rows| - 1].ip in d then d else d + [rows[|rows| - 1].ip]
  }

  /**
   * One `GROUP BY ip` row: `MAX(timeofban)`, `COUNT(*)`, the jail of the latest
   * ban, and either `MAX(bantime)` (`bips`) or the latest ban's `bantime` (`bans`).
   */
  function GroupRow(rows: seq<BanRow>, ip: string, maxBantime: bool): BanRow {
    var rs := OfIp(rows, ip);
    var top := Latest(rs);
    BanRow(ip,
           if top.Some? then top.value.jail else None,
           MaxOf(Times(rs)),
           if maxBantime then MaxOf(Bantimes(rs)) else if top.Some? then top.value.banTime else None,
           Some(|rs|))
  }

  function Grouped(rows: seq<BanRow>, maxBantime: bool): seq<BanRow> {
    var d := Distinct(rows);
    seq(|d|, i requires 0 <= i < |d| => GroupRow(rows, d[i], maxBantime))
  }

  /** `fetch_top_bips(limit)`: every query names `bantime`, so a table without it fails. */
  function TopBips(db: FailDb, limit: int): Result<seq<BanRow>> {
    if db.bips.Some? then
      var t := db.bips.value;
      if !HasRequired(t) then Failure("bips table exists but missing required columns")
      else if "bantime" !in t.columns then Failure(NoBantime)
      else if "bancount" in t.columns then Success(Limit(SortBy(t.rows, ByCountThenTime), Some(limit)))
      else Success(Limit(SortBy(Grouped(t.rows, true), ByCountThenTime), Some(limit)))
    else if db.bans.Some? then
      var t := db.bans.value;
      if !HasRequired(t) then Failure("bans table exists but missing required columns")
      else if "bantime" !in t.columns then Failure(NoBantime)
      else Success(Limit(SortBy(Grouped(t.rows, false), ByCountThenTime), Some(limit)))
    else Failure(NoTable)
  }

  // ---------------------------------------------------------------- properties

  /** `WHERE ip=?` keeps exactly the rows of that address. */
  lemma {:induction false} OfIpMembers(rows: seq<BanRow>, ip: string)
    ensures forall x :: x in OfIp(rows, ip) <==> x in rows && x.ip == ip
  {
    if rows != [] {
      OfIpMembers(rows[1..], ip);
      assert rows == [rows[0]] + rows[1..];
    }
  }

  /** `MAX` is NULL only for an all-NULL group; otherwise it is one of the values and no value exceeds it. */
  lemma {:induction false} MaxOfSpec(xs: seq<Option<int>>)
    ensures MaxOf(xs).None? <==> forall i :: 0 <= i < |xs| ==> xs[i].None?
    ensures MaxOf(xs).Some? ==> exists i :: 0 <= i < |xs| && xs[i] == MaxOf(xs)
    ensures forall i :: 0 <= i < |xs| ==> NullsLast(MaxOf(xs), xs[i])
  {
    if xs != [] {
      MaxOfSpec(xs[1..]);
      var m := MaxOf(xs[1..]);
      forall i | 1 <= i < |xs| ensures xs[i] == xs[1..][i - 1] {}
      if MaxOf(xs).Some? && MaxOf(xs) != xs[0] {
        var j :| 0 <= j < |xs[1..]| && xs[1..][j] == m;
        assert xs[j + 1] == MaxOf(xs);
      }
    }
  }

  lemma ByTimePreorder()
    ensures TotalPreorder(ByTime)
  {
  }

  lemma HitByTimePreorder()
    ensures TotalPreorder(HitByTime)
  {
  }

  lemma ByCountThenTimePreorder()
    ensures TotalPreorder(ByCountThenTime)
  {
  }

  /** The first element of a sorted sequence may precede every element of the input. */
  lemma SortedHead<T(!new)>(xs: seq<T>, le: (T, T) -> bool)
    requires TotalPreorder(le) && xs != []
    ensures SortBy(xs, le)[0] in xs
    ensures forall x :: x in xs && x != SortBy(xs, le)[0] ==> le(SortBy(xs, le)[0], x)
  {
    var s := SortBy(xs, le);
    SortBySorted(xs, le);
    assert s[0] in multiset(s);
    forall x | x in xs && x != s[0] ensures le(s[0], x) {
      assert x in multiset(s);
      var k :| 0 <= k < |s| && s[k] == x;
    }
  }

  /** `ORDER BY timeofban DESC LIMIT 1` picks a row of the group whose time is the group's `MAX(timeofban)`. */
  lemma LatestSpec(rs: seq<BanRow>)
    requires rs != []
    ensures Latest(rs).Some? && Latest(rs).value in rs
    ensures Latest(rs).value.timeOfBan == MaxOf(Times(rs))
  {
    ByTimePreorder();
    SortedHead(rs, ByTime);
    var top := Latest(rs).value;
    var ts := Times(rs);
    MaxOfSpec(ts);
    var m := MaxOf(ts);
    var i :| 0 <= i < |rs| && rs[i] == top;
    assert ts[i] == top.timeOfBan;
    assert NullsLast(m, top.timeOfBan);
    if m.Some? {
      var j :| 0 <= j < |ts| && ts[j] == m;
      assert rs[j] in rs && rs[j].timeOfBan == m;
      assert NullsLast(top.timeOfBan, m);
    }
  }

  /**
   * One entry per address of the chosen table. Its total is `SUM(bancount)`
   * or the number of the address's rows, its `last_ban_ts` is the latest
   * `timeofban` (NULL only when every one is NULL), and its jail and ban time
   * are those of a row of that address carrying that latest time.
   */
  lemma AggSpec(rows: seq<BanRow>, ip: string, summed: bool)
    requires ip in Ips(rows)
    ensures var a := AggOf(rows, ip, summed);
      && a.banCountTotal == (if summed then SumOf(Counts(OfIp(rows, ip))) else |OfIp(rows, ip)|)
      && (!summed ==> a.banCountTotal >= 1)
      && (a.lastBanTs.None? <==> forall x :: x in rows && x.ip == ip ==> x.timeOfBan.None?)
      && (forall x :: x in rows && x.ip == ip ==> NullsLast(a.lastBanTs, x.timeOfBan))
      && exists w :: w in rows && w.ip == ip && w.timeOfBan == a.lastBanTs
           && a.lastBanJail == w.jail.GetOr("") && a.lastBanBantime == w.banTime.GetOr(0)
  {
    var rs := OfIp(rows, ip);
    OfIpMembers(rows, ip);
    var w :| w in rows && w.ip == ip;
    assert w in rs;
    LatestSpec(rs);
    MaxOfSpec(Times(rs));
    forall x | x in rows && x.ip == ip ensures NullsLast(MaxOf(Times(rs)), x.timeOfBan) {
      assert x in rs;
      var k :| 0 <= k < |rs| && rs[k] == x;
      assert Times(rs)[k] == x.timeOfBan;
    }
    assert Latest(rs).value in rows;
  }

  /**
   * The import fails exactly when neither table exists, when the chosen one
   * (`bips` first) lacks a required column, or when it has rows but no
   * `bantime`; otherwise it has exactly one entry per address in that table.
   */
  lemma ImportSpec(db: FailDb)
    ensures var t := if db.bips.Some? then db.bips else db.bans;
      && (ImportAggregates(db).Failure? <==>
            t.None? || !HasRequired(t.value) || (t.value.rows != [] && "bantime" !in t.value.columns))
      && (ImportAggregates(db).Success? ==>
            ImportAggregates(db).value.Keys == set r | r in t.value.rows :: r.ip)
  {
  }

  /** `ORDER BY` then `LIMIT`: sorted, at most `limit` long, no element more often than in the input. */
  lemma LimitedSort<T(!new)>(xs: seq<T>, le: (T, T) -> bool, limit: Option<int>)
    requires TotalPreorder(le)
    ensures var r := Limit(SortBy(xs, le), limit);
      && (limit.Some? && 0 <= limit.value ==> |r| <= limit.value)
      && (limit.None? || limit.value < 0 || limit.value >= |xs| ==> |r| == |xs|)
      && SortedBy(r, le)
      && multiset(r) <= multiset(xs)
  {
    var s := SortBy(xs, le);
    SortBySorted(xs, le);
    var r := Limit(s, limit);
    assert s == r + s[|r|..];
    assert multiset(s) == multiset(r) + multiset(s[|r|..]);
  }

  /** Every selected history row is the projection of a row of the address. */
  lemma HitsOf(rows: seq<BanRow>, ip: string, counted: bool)
    ensures forall h :: h in Hits(OfIp(rows, ip), counted) ==> exists x :: x in rows && x.ip == ip && h == AsHit(x, counted)
  {
    var all := OfIp(rows, ip);
    OfIpMembers(rows, ip);
    forall h | h in Hits(all, counted) ensures exists x :: x in rows && x.ip == ip && h == AsHit(x, counted) {
      var k :| 0 <= k < |all| && Hits(all, counted)[k] == h;
      assert all[k] in all;
    }
  }

  /**
   * `fetch_ip_history_bips`: only the address's rows, latest first, at most
   * `limit` of them when one is given, `bancount` 1 when the table lacks that
   * column, and no rows at all when no table has the required columns.
   */
  lemma IpHistorySpec(db: FailDb, ip: string, limit: Option<int>)
    ensures HistoryTable(db).None? ==> IpHistory(db, ip, limit) == Success([])
    ensures IpHistory(db, ip, limit).Success? && HistoryTable(db).Some? ==>
      HistoryRows(HistoryTable(db).value.0, HistoryTable(db).value.1, ip, limit, IpHistory(db, ip, limit).value)
  {
    if HistoryTable(db).Some? {
      var (t, counted) := HistoryTable(db).value;
      if "bantime" in t.columns {
        HistoryRowsHold(t, counted, ip, limit);
      }
    }
  }

  /** What a history answer `r` for `ip` promises about the table `t` it was read from. */
  predicate HistoryRows(t: Table, counted: bool, ip: string, limit: Option<int>, r: seq<Hit>) {
    HistoryShape(|OfIp(t.rows, ip)|, limit, r) && HistoryOrigin(t, counted, ip, r)
  }

  /** At most `limit` rows, all of them when no limit cuts, latest first. */
  predicate HistoryShape(n: nat, limit: Option<int>, r: seq<Hit>) {
    && (limit.Some? && 0 <= limit.value ==> |r| <= limit.value)
    && (limit.None? || limit.value < 0 || limit.value >= n ==> |r| == n)
    && (forall i, j :: 0 <= i < j < |r| ==> NullsLast(r[i].timeOfBan, r[j].timeOfBan))
  }

  /** Every row comes from a row of `ip`, with `bancount` 1 when the table has none. */
  predicate HistoryOrigin(t: Table, counted: bool, ip: string, r: seq<Hit>) {
    && (forall h :: h in r ==> exists x :: x in t.rows && x.ip == ip && h == AsHit(x, counted))
    && (!counted ==> forall h :: h in r ==> h.banCount == Some(1))
  }

  lemma HistoryRowsHold(t: Table, counted: bool, ip: string, limit: Option<int>)
    ensures HistoryRows(t, counted, ip, limit, Limit(SortBy(Hits(OfIp(t.rows, ip), counted), HitByTime), limit))
  {
    var hits := Hits(OfIp(t.rows, ip), counted);
    HistoryShapeHolds(hits, limit);
    HistoryOriginHolds(t, counted, ip, limit);
  }

  lemma HistoryShapeHolds(hits: seq<Hit>, limit: Option<int>)
    ensures HistoryShape(|hits|, limit, Limit(SortBy(hits, HitByTime), limit))
  {
    HitByTimePreorder();
    LimitedSort(hits, HitByTime, limit);
    var r := Limit(SortBy(hits, HitByTime), limit);
    assert forall i, j :: 0 <= i < j < |r| ==> HitByTime(r[i], r[j]);
  }

  lemma HistoryOriginHolds(t: Table, counted: bool, ip: string, limit: Option<int>)
    ensures HistoryOrigin(t, counted, ip, Limit(SortBy(Hits(OfIp(t.rows, ip), counted), HitByTime), limit))
  {
    var hits := Hits(OfIp(t.rows, ip), counted);
    HitByTimePreorder();
    LimitedSort(hits, HitByTime, limit);
    HitsOf(t.rows, ip, counted);
    var r := Limit(SortBy(hits, HitByTime), limit);
    forall h | h in r
      ensures (exists x :: x in t.rows && x.ip == ip && h == AsHit(x, counted)) && (!counted ==> h.banCount == Some(1))
    {
      assert multiset(r) <= multiset(hits);
      assert h in multiset(r);
      assert h in multiset(hits);
      assert h in hits;
      var x :| x in t.rows && x.ip == ip && h == AsHit(x, counted);
    }
  }

  /** `Distinct` lists every address of the table once. */
  lemma {:induction false} DistinctSpec(rows: seq<BanRow>)
    ensures forall ip :: ip in Distinct(rows) <==> ip in Ips(rows)
    ensures forall i, j :: 0 <= i < j < |Distinct(rows)| ==> Distinct(rows)[i] != Distinct(rows)[j]
  {
    if rows != [] {
      var init := rows[..|rows| - 1];
      DistinctSpec(init);
      assert rows == init + [rows[|rows| - 1]];
      forall ip ensures ip in Ips(rows) <==> ip in Ips(init) || ip == rows[|rows| - 1].ip {
        if ip in Ips(rows) {
          var x :| x in rows && x.ip == ip;
          if x != rows[|rows| - 1] {
            assert x in init;
          }
        }
      }
    }
  }

  /** `fetch_top_bips` fails exactly when neither table exists, or the one it reads (`bips` first) lacks a required column or `bantime`. */
  lemma TopBipsFails(db: FailDb, limit: int)
    ensures TopBips(db, limit).Failure? <==>
      var t := if db.bips.Some? then db.bips else db.bans;
      t.None? || !HasRequired(t.value) || "bantime" !in t.value.columns
  {
  }

  /**
   * `fetch_top_bips`: at most `limit` rows when `limit` is not negative,
   * ordered by `bancount` then `timeofban`, both descending. Read straight
   * from a `bips` with `bancount`, they are rows of that table; otherwise
   * they are one row per address, counting that address's bans.
   */
  lemma TopBipsSpec(db: FailDb, limit: int)
    requires TopBips(db, limit).Success?
    ensures var r := TopBips(db, limit).value;
      var t := if db.bips.Some? then db.bips.value else db.bans.value;
      && (0 <= limit ==> |r| <= limit)
      && (forall i, j :: 0 <= i < j < |r| ==> ByCountThenTime(r[i], r[j]))
      && (db.bips.Some? && "bancount" in t.columns ==> multiset(r) <= multiset(t.rows))
      && (!(db.bips.Some? && "bancount" in t.columns) ==>
            && (forall i, j :: 0 <= i < j < |r| ==> r[i].ip != r[j].ip)
            && forall x :: x in r ==> x.ip in Ips(t.rows) && x.banCount == Some(|OfIp(t.rows, x.ip)|))
  {
    ByCountThenTimePreorder();
    var t := if db.bips.Some? then db.bips.value else db.bans.value;
    if db.bips.Some? && "bancount" in t.columns {
      LimitedSort(t.rows, ByCountThenTime, Some(limit));
    } else {
      var g := Grouped(t.rows, db.bips.Some?);
      LimitedSort(g, ByCountThenTime, Some(limit));
      GroupedSpec(t.rows, db.bips.Some?);
      var r := TopBips(db, limit).value;
      assert r == Limit(SortBy(g, ByCountThenTime), Some(limit));
      forall x | x in r ensures x.ip in Ips(t.rows) && x.banCount == Some(|OfIp(t.rows, x.ip)|) {
        assert x in multiset(g);
      }
      forall i, j | 0 <= i < j < |r| ensures r[i].ip != r[j].ip {
        PermutationKeepsDistinct(g, r, i, j);
      }
    }
  }

  /** One grouped row per address, each carrying its address's count. */
  lemma GroupedSpec(rows: seq<BanRow>, maxBantime: bool)
    ensures forall x :: x in Grouped(rows, maxBantime) ==> x.ip in Ips(rows) && x.banCount == Some(|OfIp(rows, x.ip)|)
    ensures forall i, j :: 0 <= i < j < |Grouped(rows, maxBantime)| ==> Grouped(rows, maxBantime)[i].ip != Grouped(rows, maxBantime)[j].ip
  {
    DistinctSpec(rows);
    var d := Distinct(rows);
    var g := Grouped(rows, maxBantime);
    assert forall i :: 0 <= i < |g| ==> g[i].ip == d[i] && d[i] in d;
  }

  /** Drawn from a sequence with pairwise different addresses, the rows still have pairwise different addresses. */
  lemma PermutationKeepsDistinct(g: seq<BanRow>, s: seq<BanRow>, i: int, j: int)
    requires multiset(s) <= multiset(g) && 0 <= i < j < |s|
    requires forall a, b :: 0 <= a < b < |g| ==> g[a].ip != g[b].ip
    ensures s[i].ip != s[j].ip
  {
    assert s == s[..i] + [s[i]] + s[i + 1..j] + [s[j]] + s[j + 1..];
    AtMostOnce(g);
    assert s[i] in multiset(g) && s[j] in multiset(g);
    var a :| 0 <= a < |g| && g[a] == s[i];
    var b :| 0 <= b < |g| && g[b] == s[j];
    if a < b {
      assert g[a].ip != g[b].ip;
    } else if b < a {
      assert g[b].ip != g[a].ip;
    }
  }

  /** With pairwise different addresses, no row occurs twice. */
  lemma {:induction false} AtMostOnce(g: seq<BanRow>)
    requires forall a, b :: 0 <= a < b < |g| ==> g[a].ip != g[b].ip
    ensures forall x :: multiset(g)[x] <= 1
  {
    if g != [] {
      AtMostOnce(g[1..]);
      assert g == [g[0]] + g[1..];
      assert g[0] !in g[1..] by {
        forall k | 0 <= k < |g[1..]| ensures g[1..][k] != g[0] {
          assert g[0].ip != g[k + 1].ip;
        }
      }
    }
  }
}
