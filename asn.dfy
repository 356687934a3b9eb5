/**
 * asn.py: the bulk WHOIS lookup against Team Cymru (RFC 3912 over TCP port 43,
 * run through `nc`). The query is built from the asked addresses, and every
 * `|`-separated response row names the autonomous system of one address.
 *
 * The `nc` process is an oracle from the bytes sent to either an exception or
 * an exit code with the decoded standard output. The timestamp `now_ts()` is
 * an input.
 */
module Asn {
  import opened Wrappers
  import opened Text
  import opened Records

  /** What running `nc` gave: an exception, or an exit code and the output text. */
  datatype Reply = Raised | Exited(code: int, stdout: string)

  /** `[ip.strip() for ip in ips if ip.strip()]`. */
  function Asked(ips: seq<string>): seq<string> {
    NonEmpty(seq(|ips|, i requires 0 <= i < |ips| => Strip(ips[i])))
  }

  /** The entries of `xs` that are not empty, in order. */
  function NonEmpty(xs: seq<string>): seq<string> {
    if xs == [] then []
    else if xs[0] == [] then NonEmpty(xs[1..])
    else [xs[0]] + NonEmpty(xs[1..])
  }

  /** The lines of the query: `begin`, `verbose`, the addresses, `end`. */
  function QueryLines(asked: seq<string>): seq<string> {
    ["begin", "verbose"] + asked + ["end"]
  }

  /** `"\n".join(q_lines) + "\n"`. */
  function Query(asked: seq<string>): string {
    Join(QueryLines(asked), "\n") + "\n"
  }

  /** `query.encode("ascii", errors="ignore")`: every non-ASCII character is dropped. */
  function Ascii(s: string): (r: string)
    ensures |r| <= |s|
  {
    if s == [] then [] else (if s[0] < 128 as char then [s[0]] else []) + Ascii(s[1..])
  }

  /** Lines `cymru_bulk_lookup_nc` skips before splitting: empty ones, headers and comments. */
  predicate Skipped(line: string) {
    line == [] || StartsWith(line, "AS") || StartsWith(line, "Bulk mode") || StartsWith(line, "#")
  }

  /** `[p.strip() for p in line.split("|")]`. */
  function Fields(line: string): (r: seq<string>)
    ensures |r| == |SplitOn(line, '|')|
  {
    var parts := SplitOn(line, '|');
    seq(|parts|, i requires 0 <= i < |parts| => Strip(parts[i]))
  }

  /** One response row as the loop reads it: the address and what it records for it, or nothing. */
  function ParseLine(line: string, fetched: int): Option<(string, AsnInfo)> {
    if Skipped(line) then None
    else
      var parts := Fields(line);
      if |parts| < 6 then None
      else
        var cc := if |parts| >= 7 then parts[3] else parts[2];
        var asName := if |parts| >= 7 then parts[6] else parts[5];
        if parts[1] == [] then None else Some((parts[1], AsnInfo(parts[0], cc, asName, fetched)))
  }

  /** What each response line contributes, in order. */
  function Rows(lines: seq<string>, fetched: int): (r: seq<Option<(string, AsnInfo)>>)
    ensures |r| == |lines|
  {
    seq(|lines|, i requires 0 <= i < |lines| => ParseLine(lines[i], fetched))
  }

  /** The dictionary the loop builds from the rows read so far: a later row for an address replaces an earlier one. */
  function Merge(rows: seq<Option<(string, AsnInfo)>>): map<string, AsnInfo>
    decreases |rows|
  {
    if rows == [] then map[] else Put(Merge(rows[..|rows| - 1]), rows[|rows| - 1])
  }

  /** `result[ip] = ASNInfo(...)` for a row that names an address; nothing for one that does not. */
  function Put(m: map<string, AsnInfo>, row: Option<(string, AsnInfo)>): map<string, AsnInfo> {
    match row
    case None => m
    case Some(e) => m[e.0 := e.1]
  }

  /** `cymru_bulk_lookup_nc(ips)` with `nc` answering as `transport` does. */
  function Lookup(ips: seq<string>, transport: string -> Reply, fetched: int): map<string, AsnInfo> {
    var asked := Asked(ips);
    if asked == [] then map[]
    else
      match transport(Ascii(Query(asked)))
      case Raised => map[]
      case Exited(code, text) => if code != 0 then map[] else Merge(Rows(SplitLines(text), fetched))
  }

  /**
   * `cymru_bulk_lookup_nc`. `sent` is what reached `nc`, and is `None` when no
   * process was started.
   */
  method CymruBulkLookup(ips: seq<string>, transport: string -> Reply, fetched: int)
    returns (out: map<string, AsnInfo>, sent: Option<string>)
    ensures out == Lookup(ips, transport, fetched)
    ensures sent == if Asked(ips) == [] then None else Some(Ascii(Query(Asked(ips))))
  {
    if ips == [] {
      return map[], None;
    }
    var asked := Asked(ips);
    if asked == [] {
      return map[], None;
    }
    var qLines := ["begin", "verbose"];
    qLines := qLines + asked;
    qLines := qLines + ["end"];
    var query := Join(qLines, "\n") + "\n";
    sent := Some(Ascii(query));
    var reply := transport(Ascii(query));
    if reply.Raised? || reply.code != 0 {
      return map[], sent;
    }
    out := ReadRows(SplitLines(reply.stdout), fetched);
  }

  /** The loop of `cymru_bulk_lookup_nc` over the lines of the response. */
  method ReadRows(text: seq<string>, fetched: int) returns (out: map<string, AsnInfo>)
    ensures out == Merge(Rows(text, fetched))
  {
    ghost var rows := Rows(text, fetched);
    out := map[];
    for i := 0 to |text|
      invariant out == Merge(rows[..i])
    {
      assert rows[..i + 1][..i] == rows[..i];
      assert Merge(rows[..i + 1]) == Put(out, rows[i]);
      var line := text[i];
      assert rows[i] == ParseLine(line, fetched);
      if Skipped(line) {
        continue;
      }
      var parts := Fields(line);
      if |parts| < 6 {
        continue;
      }
      var asn, ip := parts[0], parts[1];
      var cc, asName;
      if |parts| >= 7 {
        cc, asName := parts[3], parts[6];
      } else {
        cc, asName := parts[2], parts[5];
      }
      if ip != [] {
        assert rows[i] == Some((ip, AsnInfo(asn, cc, asName, fetched)));
        out := out[ip := AsnInfo(asn, cc, asName, fetched)];
      }
    }
    assert rows[..|text|] == rows;
  }

  // ---------------------------------------------------------------- properties

  lemma {:induction false} NonEmptyConcat(a: seq<string>, b: seq<string>)
    ensures NonEmpty(a + b) == NonEmpty(a) + NonEmpty(b)
  {
    if a != [] {
      var ab := a + b;
      assert ab[0] == a[0] && ab[1..] == a[1..] + b;
      NonEmptyConcat(a[1..], b);
    } else {
      assert a + b == b;
    }
  }

  /** Blank entries are dropped and the rest keep their order, so asking for two lists asks for both in turn. */
  lemma AskedConcat(a: seq<string>, b: seq<string>)
    ensures Asked(a + b) == Asked(a) + Asked(b)
  {
    var sa := seq(|a|, i requires 0 <= i < |a| => Strip(a[i]));
    var sb := seq(|b|, i requires 0 <= i < |b| => Strip(b[i]));
    assert seq(|a + b|, i requires 0 <= i < |a + b| => Strip((a + b)[i])) == sa + sb;
    NonEmptyConcat(sa, sb);
  }

  lemma {:induction false} NonEmptyFrom(xs: seq<string>)
    ensures forall k :: 0 <= k < |NonEmpty(xs)| ==> NonEmpty(xs)[k] != [] && NonEmpty(xs)[k] in xs
  {
    if xs != [] {
      NonEmptyFrom(xs[1..]);
      var rest := NonEmpty(xs[1..]);
      if xs[0] != [] {
        forall k | 1 <= k < |NonEmpty(xs)| ensures NonEmpty(xs)[k] != [] && NonEmpty(xs)[k] in xs {
          assert NonEmpty(xs)[k] == rest[k - 1];
        }
      }
    }
  }

  /** The asked addresses are stripped and none is blank. */
  lemma AskedTrimmed(ips: seq<string>)
    ensures forall k :: 0 <= k < |Asked(ips)| ==> Asked(ips)[k] != [] && Trimmed(Asked(ips)[k])
  {
    NonEmptyFrom(seq(|ips|, i requires 0 <= i < |ips| => Strip(ips[i])));
  }

  lemma {:induction false} NonEmptyNone(xs: seq<string>)
    ensures NonEmpty(xs) == [] <==> forall i :: 0 <= i < |xs| ==> xs[i] == []
  {
    if xs != [] {
      NonEmptyNone(xs[1..]);
      if NonEmpty(xs) == [] {
        forall i | 0 <= i < |xs| ensures xs[i] == [] {
          if i > 0 { assert xs[i] == xs[1..][i - 1]; }
        }
      } else if xs[0] == [] {
        var j :| 0 <= j < |xs[1..]| && xs[1..][j] != [];
        assert xs[j + 1] == xs[1..][j];
      }
    }
  }

  /** Nothing is asked, and no process started, exactly when every input is blank. */
  lemma AskedEmpty(ips: seq<string>)
    ensures Asked(ips) == [] <==> forall i :: 0 <= i < |ips| ==> Strip(ips[i]) == []
  {
    var xs := seq(|ips|, i requires 0 <= i < |ips| => Strip(ips[i]));
    NonEmptyNone(xs);
    assert forall i :: 0 <= i < |ips| ==> xs[i] == Strip(ips[i]);
  }

  /** The server reads back exactly `begin`, `verbose`, the addresses and `end`, when no address holds a newline. */
  lemma QueryRoundTrip(asked: seq<string>)
    requires forall x :: x in asked ==> '\n' !in x
    ensures SplitOn(Query(asked), '\n') == QueryLines(asked) + [""]
  {
    var xs := QueryLines(asked);
    JoinSnoc(xs, "", "\n");
    assert Join(xs + [""], "\n") == Query(asked);
    forall t | t in xs + [""] ensures '\n' !in t {
      if t in asked {
      } else {
        assert t == "begin" || t == "verbose" || t == "end" || t == "";
      }
    }
    SplitJoin(xs + [""], '\n');
  }

  /** ASCII text is sent as it is. */
  lemma {:induction false} AsciiKeeps(s: string)
    requires forall i :: 0 <= i < |s| ==> s[i] < 128 as char
    ensures Ascii(s) == s
  {
    if s != [] {
      AsciiKeeps(s[1..]);
    }
  }

  /** Whether a row records an entry for `ip`. */
  predicate Names(row: Option<(string, AsnInfo)>, ip: string) {
    row.Some? && row.value.0 == ip
  }

  /** An address has an entry exactly when some row names it. */
  lemma {:induction false} MergeKeys(rows: seq<Option<(string, AsnInfo)>>, ip: string)
    ensures ip in Merge(rows) <==> exists i :: 0 <= i < |rows| && Names(rows[i], ip)
    decreases |rows|
  {
    if rows != [] {
      var init := rows[..|rows| - 1];
      MergeKeys(init, ip);
      if !Names(rows[|rows| - 1], ip) {
        if ip in Merge(rows) {
          var i :| 0 <= i < |init| && Names(init[i], ip);
          assert rows[i] == init[i];
        } else {
          forall i | 0 <= i < |rows| ensures !Names(rows[i], ip) {
            if i < |init| { assert rows[i] == init[i]; }
          }
        }
      }
    }
  }

  /** The entry for an address is the one from the last row that names it. */
  lemma {:induction false} MergeLastRowWins(rows: seq<Option<(string, AsnInfo)>>, i: nat, ip: string)
    requires i < |rows| && Names(rows[i], ip)
    requires forall j :: i < j < |rows| ==> !Names(rows[j], ip)
    ensures ip in Merge(rows) && Merge(rows)[ip] == rows[i].value.1
    decreases |rows|
  {
    if i < |rows| - 1 {
      var init := rows[..|rows| - 1];
      assert init[i] == rows[i];
      forall j | i < j < |init| ensures !Names(init[j], ip) {
        assert init[j] == rows[j];
      }
      MergeLastRowWins(init, i, ip);
    }
  }

  /** Every stored entry carries the one fetch time. */
  lemma {:induction false} MergeFetched(rows: seq<Option<(string, AsnInfo)>>, fetched: int)
    requires forall i :: 0 <= i < |rows| && rows[i].Some? ==> rows[i].value.1.fetchedTs == fetched
    ensures forall ip :: ip in Merge(rows) ==> Merge(rows)[ip].fetchedTs == fetched
    decreases |rows|
  {
    if rows != [] {
      var init := rows[..|rows| - 1];
      forall i | 0 <= i < |init| && init[i].Some? ensures init[i].value.1.fetchedTs == fetched {
        assert init[i] == rows[i];
      }
      MergeFetched(init, fetched);
    }
  }

  /** Whatever `nc` answers, every entry of the lookup is stamped with the fetch time. */
  lemma LookupFetched(ips: seq<string>, transport: string -> Reply, fetched: int)
    ensures forall ip :: ip in Lookup(ips, transport, fetched) ==> Lookup(ips, transport, fetched)[ip].fetchedTs == fetched
  {
    var asked := Asked(ips);
    if asked != [] {
      var reply := transport(Ascii(Query(asked)));
      if reply.Exited? && reply.code == 0 {
        MergeFetched(Rows(SplitLines(reply.stdout), fetched), fetched);
      }
    }
  }

  /** A row as the server pads it: the fields joined by `" | "`. */
  function Row(fields: seq<string>): string {
    Join(fields, " | ")
  }

  /** One space, or nothing. */
  function Pad(space: bool): string {
    if space then " " else ""
  }

  /** The pieces `split("|")` cuts a padded row into: each field with the spaces around it. */
  function Padded(fields: seq<string>, lead: bool): seq<string>
    requires |fields| >= 1
  {
    var first := Pad(lead) + fields[0];
    if |fields| == 1 then [first] else [first + " "] + Padded(fields[1..], true)
  }

  lemma {:induction false} SplitRow(fields: seq<string>, lead: bool)
    requires |fields| >= 1 && forall k :: 0 <= k < |fields| ==> '|' !in fields[k]
    ensures SplitOn(Pad(lead) + Row(fields), '|') == Padded(fields, lead)
  {
    var pre := Pad(lead);
    if |fields| == 1 {
      assert '|' !in pre + fields[0];
      SplitOnAbsent(pre + fields[0], '|');
    } else {
      var rest := Row(fields[1..]);
      assert pre + Row(fields) == (pre + fields[0] + " ") + ['|'] + (" " + rest);
      assert '|' !in pre + fields[0] + " ";
      SplitOnAfter(pre + fields[0] + " ", '|', " " + rest);
      SplitRow(fields[1..], true);
    }
  }

  /** Piece `k` is field `k`, with a space before it unless it opens the row and one after it unless it closes it. */
  lemma {:induction false} PaddedAt(fields: seq<string>, lead: bool)
    requires |fields| >= 1
    ensures |Padded(fields, lead)| == |fields|
    ensures forall k :: 0 <= k < |fields| ==>
      Padded(fields, lead)[k] == Pad(lead || k > 0) + fields[k] + Pad(k < |fields| - 1)
  {
    if |fields| > 1 {
      PaddedAt(fields[1..], true);
      var p := Padded(fields, lead);
      assert p == [Pad(lead) + fields[0] + " "] + Padded(fields[1..], true);
      forall k | 1 <= k < |fields| ensures p[k] == Pad(lead || k > 0) + fields[k] + Pad(k < |fields| - 1) {
        assert p[k] == Padded(fields[1..], true)[k - 1];
      }
    } else {
      assert Pad(lead) + fields[0] == Pad(lead) + fields[0] + "";
    }
  }

  /** Stripping the pieces of a padded row gives back its fields. */
  lemma FieldsOfRow(fields: seq<string>)
    requires |fields| >= 1
    requires forall k :: 0 <= k < |fields| ==> '|' !in fields[k] && Trimmed(fields[k])
    ensures Fields(Row(fields)) == fields
  {
    SplitRow(fields, false);
    assert Pad(false) + Row(fields) == Row(fields);
    PaddedAt(fields, false);
    StripPieces(fields, Padded(fields, false));
  }

  lemma StripPieces(fields: seq<string>, p: seq<string>)
    requires |p| == |fields|
    requires forall k :: 0 <= k < |fields| ==> Trimmed(fields[k])
    requires forall k :: 0 <= k < |fields| ==> p[k] == Pad(k > 0) + fields[k] + Pad(k < |fields| - 1)
    ensures forall k :: 0 <= k < |p| ==> Strip(p[k]) == fields[k]
  {
    forall k | 0 <= k < |fields| ensures Strip(p[k]) == fields[k] {
      StripPadded(Pad(k > 0), fields[k], Pad(k < |fields| - 1));
    }
  }

  /** What a row must look like to be read back: fields without `|` or outer spaces, an address, and a number first. */
  predicate WellFormedRow(fields: seq<string>) {
    (|fields| == 6 || |fields| == 7)
    && (forall k :: 0 <= k < |fields| ==> '|' !in fields[k] && Trimmed(fields[k]))
    && fields[0] != [] && IsDigit(fields[0][0]) && fields[1] != []
  }

  lemma RowNotSkipped(fields: seq<string>)
    requires WellFormedRow(fields)
    ensures !Skipped(Row(fields))
  {
    var r := Row(fields);
    assert r == fields[0] + " | " + Row(fields[1..]);
    assert r[0] == fields[0][0];
  }

  /** A verbose row `AS | IP | BGP Prefix | CC | Registry | Allocated | AS Name` is read back as its address, AS number, country and name. */
  lemma VerboseRowRoundTrip(fields: seq<string>, fetched: int)
    requires WellFormedRow(fields) && |fields| == 7
    ensures ParseLine(Row(fields), fetched) == Some((fields[1], AsnInfo(fields[0], fields[3], fields[6], fetched)))
  {
    RowNotSkipped(fields);
    FieldsOfRow(fields);
  }

  /** A short row `AS | IP | CC | Registry | Allocated | AS Name` is read back with the country and name taken one place earlier. */
  lemma ShortRowRoundTrip(fields: seq<string>, fetched: int)
    requires WellFormedRow(fields) && |fields| == 6
    ensures ParseLine(Row(fields), fetched) == Some((fields[1], AsnInfo(fields[0], fields[2], fields[5], fetched)))
  {
    RowNotSkipped(fields);
    FieldsOfRow(fields);
  }
}
