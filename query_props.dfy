/**
 * What the two query APIs of the monitor promise the interface: the rows of
 * the realtime tab and the lines of the events panel.
 */
module QueryProps {
  import opened Text
  import opened Records
  import opened Sorting
  import opened AppState

  // ---------------------------------------------------------------- get_realtime_rows

  /** A list comprehension with a condition keeps exactly the elements that pass it, each as often as it occurs. */
  lemma {:induction false} FilterSpec<T>(xs: seq<T>, p: T -> bool)
    ensures var r := Filter(xs, p);
            && |r| <= |xs|
            && multiset(r) <= multiset(xs)
            && (forall x :: x in r <==> x in xs && p(x))
  {
    if xs != [] {
      FilterSpec(xs[1..], p);
      assert xs == [xs[0]] + xs[1..];
    }
  }

  /** `realtime.items()` pairs every address of `order` with its counters. */
  lemma ItemsSpec(order: seq<string>, rt: map<string, Counters>)
    ensures var r := Items(order, rt);
            forall ip, c :: (ip, c) in r <==> ip in order && c == (if ip in rt then rt[ip] else Zero)
  {
    var r := Items(order, rt);
    forall ip, c | ip in order && c == (if ip in rt then rt[ip] else Zero) ensures (ip, c) in r {
      var k :| 0 <= k < |order| && order[k] == ip;
      assert r[k] == (ip, c);
    }
  }

  /** An address occurs among the items no more often than in `order`. */
  lemma {:induction false} ItemsCount(order: seq<string>, rt: map<string, Counters>, ip: string, c: Counters)
    ensures multiset(Items(order, rt))[(ip, c)] <= multiset(order)[ip]
  {
    if order != [] {
      var front := order[..|order| - 1];
      ItemsCount(front, rt, ip, c);
      assert Items(order, rt) == Items(front, rt) + [Items(order, rt)[|order| - 1]];
      assert order == front + [order[|order| - 1]];
    }
  }

  /** The sort key ranks every pair of rows, transitively. */
  lemma KeyFirstPreorder()
    ensures TotalPreorder(KeyFirst)
  {
  }

  /** The realtime tab's rows come sorted by `(BAN, FAIL, total)`, highest first. */
  lemma RealtimeRowsSorted(order: seq<string>, rt: map<string, Counters>, search: string)
    ensures SortedBy(RealtimeRows(order, rt, search), KeyFirst)
  {
    var live := Filter(Items(order, rt), Live);
    var hits := if search == [] then live else Filter(live, Matching(search));
    KeyFirstPreorder();
    SortBySorted(hits, KeyFirst);
  }

  /**
   * The realtime tab lists only addresses with some activity whose address
   * contains the search, case-insensitively, each with its counters.
   */
  lemma RealtimeRowsSound(order: seq<string>, rt: map<string, Counters>, search: string, ip: string, c: Counters)
    requires (ip, c) in RealtimeRows(order, rt, search)
    ensures ip in order && c == (if ip in rt then rt[ip] else Zero) && c.Total() > 0
    ensures search == [] || Contains(Lower(ip), Lower(search))
  {
    var items := Items(order, rt);
    var live := Filter(items, Live);
    var hits := if search == [] then live else Filter(live, Matching(search));
    SortByMembers(hits, KeyFirst);
    FilterSpec(items, Live);
    FilterSpec(live, Matching(search));
    ItemsSpec(order, rt);
  }

  /**
   * An address of digits and dots matches the search exactly when it
   * contains the lower-cased search: folding leaves the address alone.
   */
  lemma MatchingAddress(ip: string, c: Counters, search: string)
    requires forall i :: 0 <= i < |ip| ==> IsDigit(ip[i]) || ip[i] == '.'
    ensures Matching(search)((ip, c)) <==> Contains(ip, Lower(search))
  {
    LowerKeepsUncased(ip);
  }

  /**
   * The realtime tab lists every address of `order` with some activity
   * whose address contains the search, case-insensitively, with its counters.
   */
  lemma RealtimeRowsComplete(order: seq<string>, rt: map<string, Counters>, search: string, ip: string)
    requires ip in order && (if ip in rt then rt[ip] else Zero).Total() > 0
    requires search == [] || Contains(Lower(ip), Lower(search))
    ensures (ip, if ip in rt then rt[ip] else Zero) in RealtimeRows(order, rt, search)
  {
    var items := Items(order, rt);
    var live := Filter(items, Live);
    var hits := if search == [] then live else Filter(live, Matching(search));
    SortByMembers(hits, KeyFirst);
    FilterSpec(items, Live);
    FilterSpec(live, Matching(search));
    ItemsSpec(order, rt);
  }

  /** Sorting neither adds nor drops an element. */
  lemma SortByMembers<T>(xs: seq<T>, le: (T, T) -> bool)
    ensures forall x :: x in SortBy(xs, le) <==> x in xs
  {
    var r := SortBy(xs, le);
    forall x ensures x in r <==> x in xs {
      assert x in r <==> x in multiset(r);
      assert x in xs <==> x in multiset(xs);
    }
  }

  /**
   * When `order` lists each counted address once, so do the rows: no
   * address appears twice, and every row holds the address's own counters.
   */
  lemma RealtimeRowsDistinct(m: Mem, search: string)
    requires Ordered(m)
    ensures var r := RealtimeRows(m.order, m.realtime, search);
            && (forall i :: 0 <= i < |r| ==> r[i].0 in m.realtime && r[i].1 == m.realtime[r[i].0])
            && (forall i, j :: 0 <= i < j < |r| ==> r[i].0 != r[j].0)
  {
    var r := RealtimeRows(m.order, m.realtime, search);
    forall i | 0 <= i < |r| ensures r[i].0 in m.realtime && r[i].1 == m.realtime[r[i].0] {
      assert r[i] in r;
      RealtimeRowsSound(m.order, m.realtime, search, r[i].0, r[i].1);
      assert r[i].0 in multiset(m.order);
    }
    forall x ensures multiset(r)[x] <= 1 {
      RealtimeRowsCount(m.order, m.realtime, search, x);
      assert multiset(m.order)[x.0] == multiset(m.realtime.Keys)[x.0];
    }
    DistinctByCount(r);
  }

  /** A row occurs no more often than its address in `order`. */
  lemma RealtimeRowsCount(order: seq<string>, rt: map<string, Counters>, search: string, x: (string, Counters))
    ensures multiset(RealtimeRows(order, rt, search))[x] <= multiset(order)[x.0]
  {
    var items := Items(order, rt);
    var live := Filter(items, Live);
    FilterSpec(items, Live);
    FilterSpec(live, Matching(search));
    ItemsCount(order, rt, x.0, x.1);
  }

  /** A sequence in which nothing occurs twice has no repeated element. */
  lemma DistinctByCount<T>(s: seq<T>)
    requires forall x :: multiset(s)[x] <= 1
    ensures forall i, j :: 0 <= i < j < |s| ==> s[i] != s[j]
  {
    forall i, j | 0 <= i < j < |s| ensures s[i] != s[j] {
      if s[i] == s[j] {
        CountTwice(s, i, j);
        assert false;
      }
    }
  }

  lemma CountTwice<T>(s: seq<T>, i: int, j: int)
    requires 0 <= i < j < |s| && s[i] == s[j]
    ensures multiset(s)[s[i]] >= 2
  {
    assert s == s[..i] + [s[i]] + s[i + 1..j] + [s[j]] + s[j + 1..];
  }

  // ---------------------------------------------------------------- get_events_lines

  /**
   * The events panel shows the last `max_lines` events, oldest first, one
   * line each; as Python slices, zero shows every event and a negative
   * count drops that many from the front.
   */
  lemma EventsLinesSpec(events: seq<Event>, maxLines: int, fmt: int -> string)
    ensures var r := EventsLines(events, maxLines, fmt);
            && |r| == (if maxLines > 0 then (if maxLines < |events| then maxLines else |events|)
                       else if maxLines == 0 then |events|
                       else if |events| + maxLines > 0 then |events| + maxLines else 0)
            && (forall i :: 0 <= i < |r| ==> r[i] == EventLine(fmt, events[|events| - |r| + i]))
  {
  }
}
