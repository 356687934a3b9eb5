/**
 * cache_db.py: the monitor's own SQLite cache. Each table is a map keyed by
 * its primary key, and each `INSERT ... ON CONFLICT DO UPDATE` is a function
 * from the old row (or its absence) to the new one. The connection's
 * transaction is an all-or-nothing snapshot: `Commit` makes the current
 * tables durable, `Rollback` returns to the last durable ones.
 */
module CacheDb {
  import opened Wrappers
  import opened Records
  import Utils

  /** A row of `ip_cache`; `lastBanTs` and `providerFetched` are the nullable columns. */
  datatype IpRow = IpRow(
    firstSeen: int, lastSeen: int,
    fails: int, oks: int, bans: int, unbans: int,
    lastEvent: string, lastJail: string,
    lastBanTs: Option<int>, lastBanJail: string, banCountTotal: int,
    providerAsn: string, providerCc: string, providerName: string, providerFetched: Option<int>)

  /** A row of `subnet_cache`. */
  datatype SubnetRow = SubnetRow(
    prefix: int, firstSeen: int, lastSeen: int,
    fails: int, bans: int, unbans: int, uniqueIps: int, lastIp: string)

  /** A row of `subnet_ip`, keyed by `(subnet, ip)`. */
  datatype Seen = Seen(firstSeen: int, lastSeen: int)

  /** The five tables of the cache. */
  datatype Tables = Tables(
    state: map<string, string>,
    ips: map<string, IpRow>,
    subnets: map<string, SubnetRow>,
    members: map<(string, string), Seen>,
    asns: map<string, AsnInfo>)

  /** The per-event counter increments of `upsert_ip_event`. */
  datatype Delta = Delta(fails: int, oks: int, bans: int, unbans: int)

  function Max(a: int, b: int): int {
    if a > b then a else b
  }

  /** One for the counter of `kind`, none for the others; `OK` counts nothing unless `show_ok` is set. */
  function OneHot(kind: Kind, showOk: bool): (d: Delta)
    ensures d.fails + d.oks + d.bans + d.unbans == (if kind.IsActivity() && (kind != Ok || showOk) then 1 else 0)
    ensures d.fails == (if kind == Fail then 1 else 0) && d.bans == (if kind == Ban then 1 else 0)
    ensures d.unbans == (if kind == Unban then 1 else 0) && d.oks == (if kind == Ok && showOk then 1 else 0)
  {
    Delta(if kind == Fail then 1 else 0,
          if kind == Ok && showOk then 1 else 0,
          if kind == Ban then 1 else 0,
          if kind == Unban then 1 else 0)
  }

  // ---------------------------------------------------------------- one row at a time

  /** The `ip_cache` row after `upsert_ip_event`: a fresh row, or the old one with counters added and the event fields overwritten. */
  function IpEventRow(prev: Option<IpRow>, ts: int, kind: Kind, jail: string, d: Delta): IpRow {
    match prev
    case None =>
      IpRow(ts, ts, d.fails, d.oks, d.bans, d.unbans, KindName(kind), jail, None, "", 0, "", "", "", None)
    case Some(r) =>
      r.(lastSeen := ts, fails := r.fails + d.fails, oks := r.oks + d.oks, bans := r.bans + d.bans,
         unbans := r.unbans + d.unbans, lastEvent := KindName(kind), lastJail := jail)
  }

  /** `_upsert_subnet_ip`: the first sighting stays, the last one only moves forward. */
  function SeenRow(prev: Option<Seen>, ts: int): Seen {
    match prev
    case None => Seen(ts, ts)
    case Some(s) => Seen(s.firstSeen, Max(ts, s.lastSeen))
  }

  /** `_upsert_subnet_counters`. */
  function SubnetCounterRow(prev: Option<SubnetRow>, prefix: int, ts: int, d: Delta, lastIp: string): SubnetRow {
    match prev
    case None => SubnetRow(prefix, ts, ts, d.fails, d.bans, d.unbans, 0, lastIp)
    case Some(s) =>
      s.(lastSeen := Max(ts, s.lastSeen), fails := s.fails + d.fails, bans := s.bans + d.bans,
         unbans := s.unbans + d.unbans, lastIp := lastIp)
  }

  /** SQLite's `CASE` for `last_ban_ts`: a NULL never wins, and an equal time keeps the old value. */
  function LaterBan(prev: Option<int>, next: Option<int>): Option<int> {
    if next.None? then prev
    else if prev.None? then next
    else if next.value > prev.value then next
    else prev
  }

  /** The `ip_cache` row after `upsert_imported_bips` at time `now`. */
  function ImportedRow(prev: Option<IpRow>, now: int, count: int, banTs: Option<int>, jail: string): IpRow {
    match prev
    case None =>
      IpRow(now, now, 0, 0, 0, 0, "", "", banTs, jail, count, "", "", "", None)
    case Some(r) =>
      var keep := banTs.None? || (r.lastBanTs.Some? && banTs.value <= r.lastBanTs.value);
      r.(banCountTotal := Max(count, r.banCountTotal),
         lastBanTs := LaterBan(r.lastBanTs, banTs),
         lastBanJail := if keep then r.lastBanJail else jail,
         lastSeen := if banTs.Some? && banTs.value > r.lastSeen then banTs.value else r.lastSeen)
  }

  /** The imported-ban `subnet_cache` upsert: no counters, the last sighting only moves forward. */
  function ImportedSubnetRow(prev: Option<SubnetRow>, prefix: int, ts: int, ip: string): SubnetRow {
    match prev
    case None => SubnetRow(prefix, ts, ts, 0, 0, 0, 0, ip)
    case Some(s) => s.(lastSeen := Max(ts, s.lastSeen), lastIp := ip)
  }

  function Get<K, V>(m: map<K, V>, k: K): Option<V> {
    if k in m then Some(m[k]) else None
  }

  // ---------------------------------------------------------------- whole tables

  /** What a statement left behind, and the exception it raised, if any. */
  datatype Outcome = Outcome(tables: Tables, raised: Option<string>)

  /**
   * `upsert_ip_event`: the `ip_cache` upsert runs first, so when `ip_to_subnet`
   * then raises, that row is already written and the subnet tables are not.
   */
  function IpEvent(t: Tables, ip: string, ts: int, kind: Kind, jail: string, showOk: bool, prefix: int): Outcome {
    var d := OneHot(kind, showOk);
    var t1 := t.(ips := t.ips[ip := IpEventRow(Get(t.ips, ip), ts, kind, jail, d)]);
    match Utils.IpToSubnet(ip, prefix)
    case Failure(e) => Outcome(t1, Some(e))
    case Success(subnet) =>
      Outcome(t1.(members := t1.members[(subnet, ip) := SeenRow(Get(t1.members, (subnet, ip)), ts)],
                  subnets := t1.subnets[subnet := SubnetCounterRow(Get(t1.subnets, subnet), prefix, ts, d, ip)]),
              None)
  }

  /** `upsert_imported_bips` at time `now`; the subnet tables are touched only for a non-null ban time. */
  function ImportBan(t: Tables, ip: string, now: int, count: int, banTs: Option<int>, jail: string, prefix: int): Outcome {
    var t1 := t.(ips := t.ips[ip := ImportedRow(Get(t.ips, ip), now, count, banTs, jail)]);
    if banTs.None? then Outcome(t1, None)
    else
      match Utils.IpToSubnet(ip, prefix)
      case Failure(e) => Outcome(t1, Some(e))
      case Success(subnet) =>
        var ts := banTs.value;
        Outcome(t1.(members := t1.members[(subnet, ip) := SeenRow(Get(t1.members, (subnet, ip)), ts)],
                    subnets := t1.subnets[subnet := ImportedSubnetRow(Get(t1.subnets, subnet), prefix, ts, ip)]),
                None)
  }

  /** The `subnet_ip` rows of one subnet: the distinct addresses seen in it. */
  function MemberCount(members: map<(string, string), Seen>, subnet: string): nat {
    |set p | p in members && p.0 == subnet|
  }

  /** `refresh_subnet_unique_counts`: every subnet's `unique_ips` recounted from `subnet_ip`. */
  function Recounted(t: Tables): Tables {
    t.(subnets := map s | s in t.subnets :: t.subnets[s].(uniqueIps := MemberCount(t.members, s)))
  }

  /** The provider columns of an `ip_cache` row set from a lookup. */
  function WithProvider(r: IpRow, info: AsnInfo): IpRow {
    r.(providerAsn := info.asn, providerCc := info.cc, providerName := info.asName, providerFetched := Some(info.fetchedTs))
  }

  /** `upsert_asn_info`: `asn_cache` overwritten per address, provider columns set on existing `ip_cache` rows only. */
  function AsnApplied(t: Tables, found: map<string, AsnInfo>): Tables {
    t.(asns := t.asns + found, ips := Provided(t.ips, found))
  }

  // ---------------------------------------------------------------- the connection

  class CacheDB {
    var state: map<string, string>
    var ips: map<string, IpRow>
    var subnets: map<string, SubnetRow>
    var members: map<(string, string), Seen>
    var asns: map<string, AsnInfo>
    /** The tables as of the last commit. */
    var durable: Tables

    function Contents(): Tables
      reads this
    {
      Tables(state, ips, subnets, members, asns)
    }

    /**
     * The connection to a cache file that already holds `stored`, all of it
     * empty for a new file: `CREATE TABLE IF NOT EXISTS` keeps the rows of an
     * existing file, and the commit of `_init_schema` makes them the
     * committed tables.
     */
    constructor (stored: Tables)
      ensures Contents() == stored && durable == stored
    {
      state, ips, subnets, members, asns := stored.state, stored.ips, stored.subnets, stored.members, stored.asns;
      durable := stored;
    }

    method SetTables(t: Tables)
      modifies this
      ensures Contents() == t && durable == old(durable)
    {
      state, ips, subnets, members, asns := t.state, t.ips, t.subnets, t.members, t.asns;
    }

    /** `con.commit()`. */
    method Commit()
      modifies this
      ensures Contents() == old(Contents()) && durable == Contents()
    {
      durable := Contents();
    }

    /** `con.rollback()`: back to the last committed tables. */
    method Rollback()
      modifies this
      ensures Contents() == old(durable) && durable == old(durable)
    {
      SetTables(durable);
    }

    /** `set_state`. */
    method SetState(k: string, v: string)
      modifies this
      ensures Contents() == old(Contents()).(state := old(state)[k := v]) && durable == old(durable)
    {
      state := state[k := v];
    }

    /** `get_state`. */
    method GetState(k: string) returns (v: Option<string>)
      ensures v == Get(state, k)
    {
      v := if k in state then Some(state[k]) else None;
    }

    /** `upsert_ip_event`; `raised` is the exception `ip_to_subnet` raised. */
    method UpsertIpEvent(ip: string, ts: int, kind: Kind, jail: string, showOk: bool, prefix: int)
      returns (raised: Option<string>)
      modifies this
      ensures Outcome(Contents(), raised) == IpEvent(old(Contents()), ip, ts, kind, jail, showOk, prefix)
      ensures durable == old(durable)
    {
      var d := OneHot(kind, showOk);
      ips := ips[ip := IpEventRow(Get(ips, ip), ts, kind, jail, d)];
      var subnet := Utils.IpToSubnet(ip, prefix);
      if subnet.Failure? {
        return Some(subnet.error);
      }
      UpsertSubnetIp(subnet.value, ip, ts);
      UpsertSubnetCounters(subnet.value, prefix, ts, d, ip);
      raised := None;
    }

    /** `_upsert_subnet_ip`. */
    method UpsertSubnetIp(subnet: string, ip: string, ts: int)
      modifies this
      ensures Contents() == old(Contents()).(members := old(members)[(subnet, ip) := SeenRow(Get(old(members), (subnet, ip)), ts)])
      ensures durable == old(durable)
    {
      members := members[(subnet, ip) := SeenRow(Get(members, (subnet, ip)), ts)];
    }

    /** `_upsert_subnet_counters`. */
    method UpsertSubnetCounters(subnet: string, prefix: int, ts: int, d: Delta, lastIp: string)
      modifies this
      ensures Contents() == old(Contents()).(subnets := old(subnets)[subnet := SubnetCounterRow(Get(old(subnets), subnet), prefix, ts, d, lastIp)])
      ensures durable == old(durable)
    {
      subnets := subnets[subnet := SubnetCounterRow(Get(subnets, subnet), prefix, ts, d, lastIp)];
    }

    /** `upsert_imported_bips` at time `now`. */
    method UpsertImportedBips(ip: string, count: int, banTs: Option<int>, jail: string, prefix: int, now: int)
      returns (raised: Option<string>)
      modifies this
      ensures Outcome(Contents(), raised) == ImportBan(old(Contents()), ip, now, count, banTs, jail, prefix)
      ensures durable == old(durable)
    {
      ips := ips[ip := ImportedRow(Get(ips, ip), now, count, banTs, jail)];
      if banTs.None? {
        return None;
      }
      var subnet := Utils.IpToSubnet(ip, prefix);
      if subnet.Failure? {
        return Some(subnet.error);
      }
      UpsertSubnetIp(subnet.value, ip, banTs.value);
      subnets := subnets[subnet.value := ImportedSubnetRow(Get(subnets, subnet.value), prefix, banTs.value, ip)];
      raised := None;
    }

    /** `refresh_subnet_unique_counts`: one `UPDATE` per subnet listed at the start. */
    method RefreshSubnetUniqueCounts()
      modifies this
      ensures Contents() == Recounted(old(Contents())) && durable == old(durable)
    {
      subnets := Recount(subnets, members);
    }

    /** `upsert_asn_info`: returns `(asked, written)`, one write per entry. */
    method UpsertAsnInfo(found: map<string, AsnInfo>) returns (asked: nat, written: nat)
      modifies this
      ensures Contents() == AsnApplied(old(Contents()), found) && durable == old(durable)
      ensures asked == written == |found|
    {
      asked := |found|;
      asns, ips, written := WriteAsns(asns, ips, found);
    }

    /**
     * `list_realtime_seed_ips(n)`: nothing for `n <= 0`, otherwise up to `n`
     * addresses with the most recent `last_seen_ts` first. Ties between equal
     * times are left in whatever order SQLite returns them.
     */
    method ListRealtimeSeedIps(n: int) returns (r: seq<string>)
      ensures n <= 0 ==> r == []
      ensures n > 0 ==> |r| == if n < |ips| then n else |ips|
      ensures forall i :: 0 <= i < |r| ==> r[i] in ips
      ensures forall i, j :: 0 <= i < j < |r| ==> r[i] != r[j] && ips[r[i]].lastSeen >= ips[r[j]].lastSeen
      ensures forall ip, i :: ip in ips && ip !in r && 0 <= i < |r| ==> ips[ip].lastSeen <= ips[r[i]].lastSeen
    {
      r := [];
      if n > 0 {
        r := LatestFirst(ips, n);
      }
    }
  }

  /** The loop of `refresh_subnet_unique_counts`, over the subnets listed before it starts. */
  method Recount(subnets: map<string, SubnetRow>, members: map<(string, string), Seen>)
    returns (out: map<string, SubnetRow>)
    ensures out == map s | s in subnets :: subnets[s].(uniqueIps := MemberCount(members, s))
  {
    var todo := subnets.Keys;
    out := subnets;
    while todo != {}
      invariant todo <= subnets.Keys && out.Keys == subnets.Keys
      invariant forall s :: s in out ==>
        out[s] == if s in todo then subnets[s] else subnets[s].(uniqueIps := MemberCount(members, s))
      decreases |todo|
    {
      var s :| s in todo;
      var n := |set p | p in members && p.0 == s|;
      out := out[s := out[s].(uniqueIps := n)];
      todo := todo - {s};
    }
  }

  /** The loop of `upsert_asn_info`: one `asn_cache` upsert and one `ip_cache` update per entry. */
  method WriteAsns(asns: map<string, AsnInfo>, ips: map<string, IpRow>, found: map<string, AsnInfo>)
    returns (asns': map<string, AsnInfo>, ips': map<string, IpRow>, written: nat)
    ensures (asns', ips') == (asns + found, Provided(ips, found)) && written == |found|
  {
    written := 0;
    asns', ips' := asns, ips;
    var todo := found.Keys;
    NoneWritten(asns, ips, found);
    while todo != {}
      invariant todo <= found.Keys && written + |todo| == |found|
      invariant (asns', ips') == WrittenBut(asns, ips, found, todo)
      decreases |todo|
    {
      var ip :| ip in todo;
      WriteStep(asns, ips, found, todo, ip);
      asns' := asns'[ip := found[ip]];
      if ip in ips' {
        ips' := ips'[ip := WithProvider(ips'[ip], found[ip])];
      }
      written := written + 1;
      todo := todo - {ip};
    }
    AllWritten(asns, ips, found);
  }

  /** `ip_cache` with the provider columns of every looked-up address that has a row. */
  function Provided(ips: map<string, IpRow>, found: map<string, AsnInfo>): map<string, IpRow> {
    map ip | ip in ips :: if ip in found then WithProvider(ips[ip], found[ip]) else ips[ip]
  }

  /** Both tables once every entry except those in `todo` is written. */
  function WrittenBut(asns: map<string, AsnInfo>, ips: map<string, IpRow>, found: map<string, AsnInfo>, todo: set<string>)
    : (map<string, AsnInfo>, map<string, IpRow>)
  {
    (asns + (found - todo), Provided(ips, found - todo))
  }

  /** The two statements for one more entry. */
  function WriteOne(asns: map<string, AsnInfo>, ips: map<string, IpRow>, ip: string, info: AsnInfo)
    : (map<string, AsnInfo>, map<string, IpRow>)
  {
    (asns[ip := info], if ip in ips then ips[ip := WithProvider(ips[ip], info)] else ips)
  }

  lemma NoneWritten(asns: map<string, AsnInfo>, ips: map<string, IpRow>, found: map<string, AsnInfo>)
    ensures WrittenBut(asns, ips, found, found.Keys) == (asns, ips)
  {
    assert found - found.Keys == map[];
    assert Provided(ips, map[]) == ips;
    assert asns + map[] == asns;
  }

  lemma AllWritten(asns: map<string, AsnInfo>, ips: map<string, IpRow>, found: map<string, AsnInfo>)
    ensures WrittenBut(asns, ips, found, {}) == (asns + found, Provided(ips, found))
  {
    assert found - {} == found;
  }

  lemma WriteStep(asns: map<string, AsnInfo>, ips: map<string, IpRow>, found: map<string, AsnInfo>, todo: set<string>, ip: string)
    requires ip in todo && todo <= found.Keys
    ensures WriteOne(WrittenBut(asns, ips, found, todo).0, WrittenBut(asns, ips, found, todo).1, ip, found[ip])
      == WrittenBut(asns, ips, found, todo - {ip})
  {
    var done := found - todo;
    var done' := found - (todo - {ip});
    assert done' == done[ip := found[ip]];
    assert ip !in done;
    assert asns + done' == (asns + done)[ip := found[ip]];
    var p := Provided(ips, done);
    if ip in ips {
      assert p[ip] == ips[ip];
      assert Provided(ips, done') == p[ip := WithProvider(ips[ip], found[ip])];
    } else {
      assert Provided(ips, done') == p;
    }
  }

  /** `ORDER BY last_seen_ts DESC LIMIT n` over `ip_cache`, for `n > 0`. */
  method LatestFirst(ips: map<string, IpRow>, n: int) returns (r: seq<string>)
    requires n > 0
    ensures |r| == if n < |ips| then n else |ips|
    ensures forall i :: 0 <= i < |r| ==> r[i] in ips
    ensures forall i, j :: 0 <= i < j < |r| ==> r[i] != r[j] && ips[r[i]].lastSeen >= ips[r[j]].lastSeen
    ensures forall ip, i :: ip in ips && ip !in r && 0 <= i < |r| ==> ips[ip].lastSeen <= ips[r[i]].lastSeen
  {
    r := [];
    var rest := ips.Keys;
    while |r| < n && rest != {}
      invariant rest <= ips.Keys && |r| + |rest| == |ips| && |r| <= n
      invariant forall i :: 0 <= i < |r| ==> r[i] in ips && r[i] !in rest
      invariant forall ip :: ip in ips && ip !in rest ==> ip in r
      invariant forall i, j :: 0 <= i < j < |r| ==> r[i] != r[j] && ips[r[i]].lastSeen >= ips[r[j]].lastSeen
      invariant forall ip, i :: ip in rest && 0 <= i < |r| ==> ips[ip].lastSeen <= ips[r[i]].lastSeen
      decreases |rest|
    {
      LatestExists(ips, rest);
      var top :| top in rest && forall ip :: ip in rest ==> ips[ip].lastSeen <= ips[top].lastSeen;
      r := r + [top];
      rest := rest - {top};
    }
  }

  lemma {:induction false} LatestExists(ips: map<string, IpRow>, s: set<string>)
    requires s != {} && s <= ips.Keys
    ensures exists top :: top in s && forall ip :: ip in s ==> ips[ip].lastSeen <= ips[top].lastSeen
    decreases |s|
  {
    var x :| x in s;
    var t := s - {x};
    if t == {} {
      assert s == {x};
    } else {
      LatestExists(ips, t);
      var m :| m in t && forall ip :: ip in t ==> ips[ip].lastSeen <= ips[m].lastSeen;
      if ips[x].lastSeen > ips[m].lastSeen {
        forall ip | ip in s ensures ips[ip].lastSeen <= ips[x].lastSeen {
          if ip != x { assert ip in t; }
        }
      } else {
        forall ip | ip in s ensures ips[ip].lastSeen <= ips[m].lastSeen {
          if ip != x { assert ip in t; }
        }
      }
    }
  }

  // ---------------------------------------------------------------- properties

  /** `get_state` returns what the last `set_state` of that key wrote, and other keys are not disturbed. */
  lemma StateRoundTrip(t: Tables, k: string, v: string, k2: string)
    ensures Get(t.(state := t.state[k := v]).state, k2) == if k2 == k then Some(v) else Get(t.state, k2)
  {
  }

  /** Whatever `ip_to_subnet` does, the `ip_cache` row is written. */
  lemma IpEventRowWritten(t: Tables, ip: string, ts: int, kind: Kind, jail: string, showOk: bool, prefix: int)
    ensures IpEvent(t, ip, ts, kind, jail, showOk, prefix).tables.ips
      == t.ips[ip := IpEventRow(Get(t.ips, ip), ts, kind, jail, OneHot(kind, showOk))]
  {
  }

  /** A first event creates the row with both sightings at `ts`, one on the event's counter and none on the others (`OK` only when shown). */
  lemma IpEventFirstSighting(t: Tables, ip: string, ts: int, kind: Kind, jail: string, showOk: bool, prefix: int)
    requires ip !in t.ips
    ensures var r := IpEvent(t, ip, ts, kind, jail, showOk, prefix).tables.ips[ip];
      && r.firstSeen == r.lastSeen == ts
      && r.fails + r.oks + r.bans + r.unbans == (if kind.IsActivity() && (kind != Ok || showOk) then 1 else 0)
      && r.fails == (if kind == Fail then 1 else 0) && r.oks == (if kind == Ok && showOk then 1 else 0)
      && r.bans == (if kind == Ban then 1 else 0) && r.unbans == (if kind == Unban then 1 else 0)
      && r.lastEvent == KindName(kind) && r.lastJail == jail
      && r.lastBanTs.None? && r.banCountTotal == 0 && r.providerFetched.None?
  {
    IpEventRowWritten(t, ip, ts, kind, jail, showOk, prefix);
  }

  /**
   * A later event adds one to the event's own counter (`OK` only when shown)
   * and nothing to the others, and moves `last_seen_ts` to the event's time
   * (even backwards); the first sighting, the imported ban columns and the
   * provider columns are kept, and no other address's row changes.
   */
  lemma IpEventAgain(t: Tables, ip: string, ts: int, kind: Kind, jail: string, showOk: bool, prefix: int)
    requires ip in t.ips
    ensures var t' := IpEvent(t, ip, ts, kind, jail, showOk, prefix).tables;
      var r, r' := t.ips[ip], t'.ips[ip];
      && r'.firstSeen == r.firstSeen && r'.lastSeen == ts
      && r'.fails + r'.oks + r'.bans + r'.unbans
         == r.fails + r.oks + r.bans + r.unbans + (if kind.IsActivity() && (kind != Ok || showOk) then 1 else 0)
      && r'.fails == r.fails + (if kind == Fail then 1 else 0) && r'.oks == r.oks + (if kind == Ok && showOk then 1 else 0)
      && r'.bans == r.bans + (if kind == Ban then 1 else 0) && r'.unbans == r.unbans + (if kind == Unban then 1 else 0)
      && r'.lastEvent == KindName(kind) && r'.lastJail == jail
      && (r'.lastBanTs, r'.lastBanJail, r'.banCountTotal) == (r.lastBanTs, r.lastBanJail, r.banCountTotal)
      && (r'.providerAsn, r'.providerCc, r'.providerName, r'.providerFetched)
         == (r.providerAsn, r.providerCc, r.providerName, r.providerFetched)
      && t'.ips.Keys == t.ips.Keys
      && forall other :: other in t.ips && other != ip ==> t'.ips[other] == t.ips[other]
  {
    IpEventRowWritten(t, ip, ts, kind, jail, showOk, prefix);
  }

  /**
   * `ip_to_subnet` raises exactly for an address that is not IPv4 (or a bad
   * prefix); then the `ip_cache` row is written but the subnet tables are not.
   * Otherwise the pair `(subnet, ip)` is recorded and the subnet's counters
   * grow by the event's one-hot increments.
   */
  lemma IpEventSubnets(t: Tables, ip: string, ts: int, kind: Kind, jail: string, showOk: bool, prefix: int)
    ensures var o := IpEvent(t, ip, ts, kind, jail, showOk, prefix);
      && ip in o.tables.ips
      && (o.raised.Some? <==> !(Utils.IpPlausibleIPv4(ip) && 0 <= prefix <= 32))
      && (o.raised.Some? ==> o.tables.subnets == t.subnets && o.tables.members == t.members)
      && (o.raised.None? ==>
            var subnet := Utils.IpToSubnet(ip, prefix).value;
            var d := OneHot(kind, showOk);
            && (subnet, ip) in o.tables.members
            && subnet in o.tables.subnets
            && o.tables.subnets[subnet].lastIp == ip
            && (subnet in t.subnets ==>
                  && o.tables.subnets[subnet].fails == t.subnets[subnet].fails + d.fails
                  && o.tables.subnets[subnet].bans == t.subnets[subnet].bans + d.bans
                  && o.tables.subnets[subnet].unbans == t.subnets[subnet].unbans + d.unbans
                  && o.tables.subnets[subnet].uniqueIps == t.subnets[subnet].uniqueIps
                  && o.tables.subnets[subnet].lastSeen >= t.subnets[subnet].lastSeen)
            && (subnet !in t.subnets ==> o.tables.subnets[subnet].uniqueIps == 0))
  {
  }

  /** `subnet_ip` keeps the first sighting and the latest of the last ones. */
  lemma SeenKeepsExtremes(prev: Option<Seen>, ts: int)
    ensures var s := SeenRow(prev, ts);
      && s.lastSeen >= ts
      && (prev.Some? ==> s.firstSeen == prev.value.firstSeen && s.lastSeen >= prev.value.lastSeen
                         && (s.lastSeen == ts || s.lastSeen == prev.value.lastSeen))
      && (prev.None? ==> s == Seen(ts, ts))
  {
  }

  /**
   * The imported `last_ban_ts` is the later of the stored and imported times,
   * a NULL losing to any time; `last_ban_jail` changes exactly when the
   * imported time wins outright; the live counters and provider columns are
   * never touched, and `ban_count_total` never goes down.
   */
  lemma ImportedMerge(prev: IpRow, now: int, count: int, banTs: Option<int>, jail: string)
    ensures var r := ImportedRow(Some(prev), now, count, banTs, jail);
      && (r.lastBanTs == prev.lastBanTs || r.lastBanTs == banTs)
      && (r.lastBanTs.None? <==> prev.lastBanTs.None? && banTs.None?)
      && (prev.lastBanTs.Some? ==> r.lastBanTs.Some? && r.lastBanTs.value >= prev.lastBanTs.value)
      && (banTs.Some? ==> r.lastBanTs.Some? && r.lastBanTs.value >= banTs.value)
      && (var wins := banTs.Some? && (prev.lastBanTs.None? || banTs.value > prev.lastBanTs.value);
          r.lastBanJail == if wins then jail else prev.lastBanJail)
      && r.banCountTotal >= prev.banCountTotal && r.banCountTotal >= count
      && (r.banCountTotal == prev.banCountTotal || r.banCountTotal == count)
      && r.firstSeen == prev.firstSeen && r.lastSeen >= prev.lastSeen
      && (r.fails, r.oks, r.bans, r.unbans, r.lastEvent, r.lastJail)
         == (prev.fails, prev.oks, prev.bans, prev.unbans, prev.lastEvent, prev.lastJail)
      && (r.providerAsn, r.providerCc, r.providerName, r.providerFetched)
         == (prev.providerAsn, prev.providerCc, prev.providerName, prev.providerFetched)
  {
  }

  /** Importing the same aggregate a second time leaves the imported ban columns where the first import put them. */
  lemma ImportedIdempotent(prev: Option<IpRow>, now: int, later: int, count: int, banTs: Option<int>, jail: string)
    ensures var r1 := ImportedRow(prev, now, count, banTs, jail);
      var r2 := ImportedRow(Some(r1), later, count, banTs, jail);
      (r2.banCountTotal, r2.lastBanTs, r2.lastBanJail) == (r1.banCountTotal, r1.lastBanTs, r1.lastBanJail)
  {
  }

  /** A ban with no time only touches `ip_cache`. */
  lemma ImportWithoutTime(t: Tables, ip: string, now: int, count: int, jail: string, prefix: int)
    ensures var o := ImportBan(t, ip, now, count, None, jail, prefix);
      o.raised.None? && o.tables.subnets == t.subnets && o.tables.members == t.members
      && o.tables.ips.Keys == t.ips.Keys + {ip}
  {
  }

  /** After the recount every subnet's `unique_ips` is the number of addresses recorded for it, and a second recount changes nothing. */
  lemma {:induction false} RecountedCounts(t: Tables)
    ensures Recounted(t).subnets.Keys == t.subnets.Keys
    ensures forall s :: s in Recounted(t).subnets ==>
      Recounted(t).subnets[s].uniqueIps == |set p | p in t.members && p.0 == s|
      && Recounted(t).subnets[s].(uniqueIps := t.subnets[s].uniqueIps) == t.subnets[s]
    ensures Recounted(Recounted(t)) == Recounted(t)
  {
    var r := Recounted(t);
    assert Recounted(r).subnets == r.subnets;
  }

  /**
   * `upsert_asn_info`: every looked-up address ends up in `asn_cache` with the
   * new answer, other cached answers stay; `ip_cache` gains no rows, and a row
   * gets the provider columns of its address's answer and nothing else.
   */
  lemma AsnAppliedSpec(t: Tables, found: map<string, AsnInfo>)
    ensures var t' := AsnApplied(t, found);
      && t'.asns.Keys == t.asns.Keys + found.Keys
      && (forall ip :: ip in found ==> t'.asns[ip] == found[ip])
      && (forall ip :: ip in t.asns && ip !in found ==> t'.asns[ip] == t.asns[ip])
      && t'.ips.Keys == t.ips.Keys
      && (forall ip :: ip in t.ips && ip !in found ==> t'.ips[ip] == t.ips[ip])
      && (forall ip :: ip in t.ips && ip in found ==>
            var r := t'.ips[ip];
            && (r.providerAsn, r.providerCc, r.providerName, r.providerFetched)
               == (found[ip].asn, found[ip].cc, found[ip].asName, Some(found[ip].fetchedTs))
            && r.(providerAsn := t.ips[ip].providerAsn, providerCc := t.ips[ip].providerCc,
                  providerName := t.ips[ip].providerName, providerFetched := t.ips[ip].providerFetched) == t.ips[ip])
      && (t'.state, t'.subnets, t'.members) == (t.state, t.subnets, t.members)
  {
  }
}
