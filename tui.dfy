/**
 * tui.py: the parts of the curses interface that compute rather than draw.
 * These are the split of the screen into panels, the page size of the
 * details overlay, the clamp that keeps a list's cursor on screen, the
 * decoding of terminal escape sequences, the editing done at the search
 * prompt, and the row a press of Enter opens.
 *
 * The terminal is a queue of key codes, consumed by `getch()`. The screen is
 * in no-delay mode, so `getch()` returns -1 when nothing is waiting.
 */
module Tui {
  import opened Wrappers
  import opened Text
  import opened Utils

  // curses key codes
  const KeyDown := 258
  const KeyUp := 259
  const KeyLeft := 260
  const KeyRight := 261
  const KeyHome := 262
  const KeyBackspace := 263
  const KeyNPage := 338
  const KeyPPage := 339
  const KeyEnd := 360
  const Esc := 27
  /** What `getch()` returns with no key waiting. */
  const NoKey := -1

  function Max(a: int, b: int): int {
    if a >= b then a else b
  }

  // ---------------------------------------------------------------- layout

  /**
   * `_calc_layout(h)`: the heights of the list panel, the events panel and
   * the footer. The tab line takes the top row of the screen.
   */
  function CalcLayout(h: int): (r: (int, int, int))
    ensures r.0 >= 1 && r.1 >= 3 && r.2 == 1
    ensures h >= 6 ==> 1 + r.0 + r.1 + r.2 == h
    ensures h >= 11 ==> r.1 == (h - 2) / 3 && r.0 >= r.1
  {
    var usable := Max(1, h - 2);
    var eventsH := Max(3, usable / 3);
    (Max(1, usable - eventsH), eventsH, 1)
  }

  /**
   * Rows inside the details overlay on a screen `h` rows tall. The box is
   * `max(5, h - 4)` rows tall and loses two of them to its border.
   */
  function OverlayInnerHeight(h: int): int {
    Max(5, h - 4) - 2
  }

  /** `_details_page_size(h)`: PgUp and PgDn in the overlay move by exactly the rows it shows. */
  function DetailsPageSize(h: int): (r: int)
    ensures r >= 3 && r == OverlayInnerHeight(h)
    ensures h >= 9 ==> r == h - 6
  {
    var innerH := Max(1, Max(5, h - 4) - 2);
    Max(1, innerH)
  }

  // ---------------------------------------------------------------- the viewport clamp

  /**
   * The cursor and the offset after the clamp at the top of
   * `draw_list_panel` and `draw_details_overlay`, for `total` rows of which
   * `rows` fit on screen. The cursor lands on a row, the window holds no
   * row past the last, and the cursor is inside the window.
   */
  function Viewport(cursor: int, offset: int, total: nat, rows: nat): (r: (int, int))
    ensures 0 <= r.0 <= Max(0, total - 1)
    ensures 0 <= r.1 <= Max(0, total - rows)
    ensures total >= 1 && rows >= 1 ==> r.1 <= r.0 < r.1 + rows
  {
    var c := Clamp(cursor, 0, Max(0, total - 1));
    var o1 := if c < offset then c else offset;
    var o2 := if c >= o1 + rows then Max(0, c - rows + 1) else o1;
    (c, Clamp(o2, 0, Max(0, total - rows)))
  }

  /** A view already in range, with the cursor in its window, is left where it is. */
  lemma ViewportStable(cursor: int, offset: int, total: nat, rows: nat)
    requires rows >= 1
    requires 0 <= cursor <= Max(0, total - 1) && 0 <= offset <= Max(0, total - rows)
    requires total >= 1 ==> offset <= cursor < offset + rows
    ensures Viewport(cursor, offset, total, rows) == (cursor, offset)
  {
  }

  /** Clamping twice is clamping once: a redraw with nothing changed moves nothing. */
  lemma ViewportIdempotent(cursor: int, offset: int, total: nat, rows: nat)
    ensures var r := Viewport(cursor, offset, total, rows);
            Viewport(r.0, r.1, total, rows) == r
  {
    var r := Viewport(cursor, offset, total, rows);
    if rows >= 1 {
      ViewportStable(r.0, r.1, total, rows);
    }
  }

  /**
   * The window scrolls no further than it must. A cursor above the window
   * becomes its top row, a cursor below it becomes its bottom row, and a
   * cursor inside it leaves it alone, as long as the old offset was in range.
   */
  lemma ViewportScrollsMinimally(cursor: int, offset: int, total: nat, rows: nat)
    requires total >= 1 && rows >= 1 && 0 <= offset <= Max(0, total - rows)
    ensures var c := Clamp(cursor, 0, total - 1);
            var r := Viewport(cursor, offset, total, rows);
            && r.0 == c
            && (c < offset ==> r.1 == c)
            && (c >= offset + rows ==> r.1 == c - rows + 1)
            && (offset <= c < offset + rows ==> r.1 == offset)
  {
  }

  /** `ListState`: the view of one tab of the list panel. */
  class ListState {
    var tab: string
    var cursor: int
    var offset: int
    var search: string

    constructor (tab: string)
      ensures this.tab == tab && cursor == 0 && offset == 0 && search == ""
    {
      this.tab := tab;
      cursor := 0;
      offset := 0;
      search := "";
    }

    /** The clamp of `draw_list_panel` for a panel `h` rows tall, one of them its title, listing `total` rows. */
    method ClampToPanel(h: int, total: nat)
      modifies this
      ensures (cursor, offset) == Viewport(old(cursor), old(offset), total, Max(0, h - 1))
      ensures tab == old(tab) && search == old(search)
    {
      var maxRows := Max(0, h - 1);
      cursor := Clamp(cursor, 0, Max(0, total - 1));
      if cursor < offset {
        offset := cursor;
      }
      if cursor >= offset + maxRows {
        offset := Max(0, cursor - maxRows + 1);
      }
      offset := Clamp(offset, 0, Max(0, total - maxRows));
    }
  }

  /** `DetailsState`: the report overlay and its scroll position. */
  class DetailsState {
    var open: bool
    var title: string
    var lines: seq<string>
    var cursor: int
    var offset: int
    /** Declared by the record and never read. */
    var search: string

    constructor ()
      ensures !open && title == "" && lines == [] && cursor == 0 && offset == 0 && search == ""
    {
      open := false;
      title := "";
      lines := [];
      cursor := 0;
      offset := 0;
      search := "";
    }

    /** The clamp of `draw_details_overlay` on a screen `h` rows tall. */
    method ClampToOverlay(h: int)
      modifies this
      ensures (cursor, offset) == Viewport(old(cursor), old(offset), |lines|, OverlayInnerHeight(h))
      ensures open == old(open) && title == old(title) && lines == old(lines) && search == old(search)
    {
      var hh := Max(5, h - 4);
      var innerH := hh - 2;
      var total := |lines|;
      cursor := Clamp(cursor, 0, Max(0, total - 1));
      if cursor < offset {
        offset := cursor;
      }
      if cursor >= offset + innerH {
        offset := Max(0, cursor - innerH + 1);
      }
      offset := Clamp(offset, 0, Max(0, total - innerH));
    }

    /**
     * Enter on the list: nothing without rows; a blank row raises, and the
     * error comes back; otherwise the report on the selected target opens
     * at its top. `report` stands for the detail queries of the application.
     * On the ASN tab the key is read by the corrected rule of `RowKey` (strip
     * `AS`, then take the first word); the code as written takes the first
     * word and then drops two characters, which `AsnKeyAsWritten` models.
     */
    method Enter(tab: Tab, rows: seq<string>, cursor: int, report: Target -> seq<string>) returns (raised: Option<string>)
      modifies this
      ensures EnterTarget(tab, rows, cursor).None? ==> raised.None? && unchanged(this)
      ensures EnterTarget(tab, rows, cursor).Some? ==> var r := EnterTarget(tab, rows, cursor).value;
                && (r.Failure? ==> raised == Some(r.error) && unchanged(this))
                && (r.Success? ==> raised.None? && open && title == Title(r.value) && lines == report(r.value)
                                   && this.cursor == 0 && offset == 0 && search == old(search))
    {
      raised := None;
      if rows == [] {
        return;
      }
      var idx := Clamp(cursor, 0, |rows| - 1);
      var tok := FirstToken(RowKey(tab, rows[idx]));
      EnterReads(tab, rows, cursor, tok);
      if tok.Failure? {
        raised := Some(tok.error);
        return;
      }
      var t := TargetOf(tab, tok.value);
      Show(Title(t), report(t));
    }

    /** Open the overlay on a report, scrolled to its top. */
    method Show(title: string, lines: seq<string>)
      modifies this
      ensures open && this.title == title && this.lines == lines && cursor == 0 && offset == 0 && search == old(search)
    {
      this.title := title;
      this.lines := lines;
      cursor := 0;
      offset := 0;
      open := true;
    }
  }

  // ---------------------------------------------------------------- the Enter key

  datatype Tab = Realtime | Sqlite | Subnets | AsnTab

  /** What the report opened by Enter is about. */
  datatype Target = IpTarget(ip: string) | SubnetTarget(subnet: string) | AsnTarget(asn: string)

  function Title(t: Target): string {
    match t
    case IpTarget(ip) => "details ip " + ip
    case SubnetTarget(s) => "details subnet " + s
    case AsnTarget(a) => "details ASN " + a
  }

  /** `row.split()[0]`: a row with no word raises `IndexError`. */
  function FirstToken(row: string): (r: Result<string>)
    ensures r.Success? <==> !AllSpace(row)
    ensures r.Success? ==> r.value != [] && NoSpace(r.value)
  {
    SplitWsEmpty(row);
    var ts := SplitWs(row);
    if ts == [] then Failure("IndexError: list index out of range")
    else Success(ts[0])
  }

  /** The part of a row whose first word names the target: past its `AS` on the ASN tab. */
  function RowKey(tab: Tab, row: string): string {
    if tab == AsnTab && StartsWith(row, "AS") then row[2..] else row
  }

  function TargetOf(tab: Tab, key: string): Target {
    match tab
    case Realtime => IpTarget(key)
    case Sqlite => IpTarget(key)
    case Subnets => SubnetTarget(key)
    case AsnTab => AsnTarget(key)
  }

  /** The index Enter reads: the cursor, clamped to the rows. */
  function SelectedIndex(rows: seq<string>, cursor: int): (i: int)
    requires rows != []
    ensures 0 <= i < |rows|
    ensures 0 <= cursor < |rows| ==> i == cursor
  {
    Clamp(cursor, 0, |rows| - 1)
  }

  /**
   * The report Enter opens on a tab listing `rows`: `None` without rows,
   * otherwise the target named by the selected row, or the error its
   * parse raises.
   */
  function EnterTarget(tab: Tab, rows: seq<string>, cursor: int): (r: Option<Result<Target>>)
    ensures r.None? <==> rows == []
    ensures r.Some? ==> (r.value.Success? <==> !AllSpace(RowKey(tab, rows[SelectedIndex(rows, cursor)])))
  {
    if rows == [] then None
    else
      match FirstToken(RowKey(tab, rows[SelectedIndex(rows, cursor)]))
      case Failure(e) => Some(Failure(e))
      case Success(key) => Some(Success(TargetOf(tab, key)))
  }

  lemma EnterReads(tab: Tab, rows: seq<string>, cursor: int, tok: Result<string>)
    requires rows != [] && tok == FirstToken(RowKey(tab, rows[Clamp(cursor, 0, |rows| - 1)]))
    ensures tok.Failure? ==> EnterTarget(tab, rows, cursor) == Some(Failure(tok.error))
    ensures tok.Success? ==> EnterTarget(tab, rows, cursor) == Some(Success(TargetOf(tab, tok.value)))
  {
  }

  /** Enter opens the row the clamp of the next redraw highlights, whatever the offset and the panel height. */
  lemma EnterOpensHighlighted(tab: Tab, rows: seq<string>, cursor: int, offset: int, height: nat)
    requires rows != []
    ensures var c := Viewport(cursor, offset, |rows|, height).0;
            0 <= c < |rows| && SelectedIndex(rows, cursor) == c
            && EnterTarget(tab, rows, cursor) == EnterTarget(tab, rows, c)
  {
  }

  /** `ljust`: `s` padded with spaces on the right to `width`, as `f"{s:width}"` pads a string. */
  function LJust(s: string, width: int): (r: string)
    ensures r == s + Spaces(width - |s|)
  {
    s + Spaces(width - |s|)
  }

  /** `rjust`: `s` padded with spaces on the left to `width`, as `f"{s:>width}"` does. */
  function RJust(s: string, width: int): (r: string)
    ensures r == Spaces(width - |s|) + s
  {
    Spaces(width - |s|) + s
  }

  function Spaces(n: int): (r: string)
    ensures |r| == Max(0, n) && AllSpace(r)
  {
    if n <= 0 then [] else [' '] + Spaces(n - 1)
  }

  /** The row of the realtime and sqlite tabs: the address padded to 15, two spaces, then the counters. */
  function IpRow(ip: string, rest: string): string {
    LJust(ip, 15) + "  " + rest
  }

  /** The row of the subnets tab: the network padded to 18, two spaces, then the figures. */
  function SubnetRow(subnet: string, rest: string): string {
    LJust(subnet, 18) + "  " + rest
  }

  /** The row of the ASN tab: `AS`, the number right-aligned in 6, two spaces, then the figures. */
  function AsnRow(asn: string, rest: string): string {
    "AS" + RJust(asn, 6) + "  " + rest
  }

  /** Enter on an address row opens the report on that address, on both address tabs. */
  lemma IpRowTarget(tab: Tab, ip: string, rest: string, cursor: int)
    requires tab == Realtime || tab == Sqlite
    requires ip != [] && NoSpace(ip)
    ensures EnterTarget(tab, [IpRow(ip, rest)], cursor) == Some(Success(IpTarget(ip)))
  {
    IpRowFirstWord(ip, rest);
    EnterOne(tab, IpRow(ip, rest), cursor, ip);
  }

  lemma IpRowFirstWord(ip: string, rest: string)
    requires ip != [] && NoSpace(ip)
    ensures FirstToken(IpRow(ip, rest)) == Success(ip)
  {
    var row := IpRow(ip, rest);
    var tail := Spaces(15 - |ip|) + "  " + rest;
    assert row == [] + ip + tail;
    FirstTokenPadded(row, [], ip, tail);
  }

  /** Enter on a subnet row opens the report on that subnet. */
  lemma SubnetRowTarget(subnet: string, rest: string, cursor: int)
    requires subnet != [] && NoSpace(subnet)
    ensures EnterTarget(Subnets, [SubnetRow(subnet, rest)], cursor) == Some(Success(SubnetTarget(subnet)))
  {
    SubnetRowFirstWord(subnet, rest);
    EnterOne(Subnets, SubnetRow(subnet, rest), cursor, subnet);
  }

  lemma SubnetRowFirstWord(subnet: string, rest: string)
    requires subnet != [] && NoSpace(subnet)
    ensures FirstToken(SubnetRow(subnet, rest)) == Success(subnet)
  {
    var row := SubnetRow(subnet, rest);
    var tail := Spaces(18 - |subnet|) + "  " + rest;
    assert row == [] + subnet + tail;
    FirstTokenPadded(row, [], subnet, tail);
  }

  /** Enter on an ASN row opens the report on that ASN, whatever its length. */
  lemma AsnRowTarget(asn: string, rest: string, cursor: int)
    requires asn != [] && NoSpace(asn)
    ensures EnterTarget(AsnTab, [AsnRow(asn, rest)], cursor) == Some(Success(AsnTarget(asn)))
  {
    AsnRowFirstWord(asn, rest);
    EnterOne(AsnTab, AsnRow(asn, rest), cursor, asn);
  }

  lemma AsnRowFirstWord(asn: string, rest: string)
    requires asn != [] && NoSpace(asn)
    ensures FirstToken(RowKey(AsnTab, AsnRow(asn, rest))) == Success(asn)
  {
    var row := AsnRow(asn, rest);
    var pad := Spaces(6 - |asn|);
    assert row == "AS" + (pad + asn + ("  " + rest));
    assert StartsWith(row, "AS");
    FirstTokenPadded(row[2..], pad, asn, "  " + rest);
  }

  /** Enter on a list of one row reads that row. */
  lemma EnterOne(tab: Tab, row: string, cursor: int, key: string)
    requires FirstToken(RowKey(tab, row)) == Success(key)
    ensures EnterTarget(tab, [row], cursor) == Some(Success(TargetOf(tab, key)))
  {
    assert [row][SelectedIndex([row], cursor)] == row;
  }

  /**
   * `tok = row.split()[0]`, then `tok[2:]` when `tok` starts with `AS`: how
   * the ASN tab reads its rows as written. The as-written row of Enter is
   * this in place of `RowKey` on the ASN tab.
   */
  function AsnKeyAsWritten(row: string): (r: Result<string>)
    ensures r.Success? <==> !AllSpace(row)
  {
    match FirstToken(row)
    case Failure(e) => Failure(e)
    case Success(tok) => Success(if StartsWith(tok, "AS") then tok[2..] else tok)
  }

  /**
   * As written, an ASN shorter than six characters is lost: its row begins
   * `AS` and a space, so the first word is `AS` alone and the ASN read is
   * empty. Six characters or more survive.
   */
  lemma AsnKeyAsWrittenLoses(asn: string, rest: string)
    requires asn != [] && NoSpace(asn)
    ensures |asn| < 6 ==> AsnKeyAsWritten(AsnRow(asn, rest)) == Success("")
    ensures |asn| >= 6 ==> AsnKeyAsWritten(AsnRow(asn, rest)) == Success(asn)
  {
    if |asn| < 6 {
      AsnRowShortWord(asn, rest);
    } else {
      AsnRowLongWord(asn, rest);
      assert ("AS" + asn)[2..] == asn;
    }
  }

  /** Below six characters the row starts `AS` and a space. */
  lemma AsnRowShortWord(asn: string, rest: string)
    requires |asn| < 6
    ensures FirstToken(AsnRow(asn, rest)) == Success("AS")
  {
    var row := AsnRow(asn, rest);
    var tail := Spaces(6 - |asn|) + asn + "  " + rest;
    assert tail[0] == ' ';
    assert row == [] + "AS" + tail;
    FirstTokenPadded(row, [], "AS", tail);
  }

  /** From six characters on the row starts with `AS` glued to the number. */
  lemma AsnRowLongWord(asn: string, rest: string)
    requires |asn| >= 6 && NoSpace(asn)
    ensures FirstToken(AsnRow(asn, rest)) == Success("AS" + asn)
  {
    var row := AsnRow(asn, rest);
    var word := "AS" + asn;
    assert Spaces(6 - |asn|) == [];
    assert NoSpace(word);
    assert row == [] + word + "  " + rest;
    FirstTokenPadded(row, [], word, "  " + rest);
  }

  /** Cloudflare's AS13335 on the ASN tab opens the report on the empty ASN. */
  lemma AsnKeyAsWrittenExample()
    ensures AsnKeyAsWritten(AsnRow("13335", "US  ip_count=     1")) == Success("")
  {
    AsnKeyAsWrittenLoses("13335", "US  ip_count=     1");
  }

  // ---------------------------------------------------------------- first words

  lemma {:induction false} SplitWsEmpty(s: string)
    ensures SplitWs(s) == [] <==> AllSpace(s)
  {
    var t := LStrip(s);
    if t == [] {
      assert AllSpace(s);
    } else {
      assert !IsSpace(s[|s| - |t|]);
    }
  }

  /** The first word of a word padded on the left with spaces and followed by a space, or nothing, is that word. */
  lemma FirstTokenPadded(row: string, pad: string, word: string, rest: string)
    requires row == pad + word + rest
    requires AllSpace(pad) && word != [] && NoSpace(word) && (rest == [] || IsSpace(rest[0]))
    ensures FirstToken(row) == Success(word)
  {
    assert row == pad + (word + rest);
    LStripSpaces(pad, word + rest);
    assert (word + rest)[0] == word[0];
    assert LStrip(word + rest) == word + rest;
    TokenLenConcat(word, rest);
    assert (word + rest)[..|word|] == word;
  }

  lemma {:induction false} TokenLenConcat(a: string, b: string)
    requires NoSpace(a) && (b == [] || IsSpace(b[0]))
    ensures TokenLen(a + b) == |a|
  {
    if a == [] {
      assert a + b == b;
    } else {
      assert (a + b)[0] == a[0];
      assert (a + b)[1..] == a[1..] + b;
      TokenLenConcat(a[1..], b);
    }
  }

  // ---------------------------------------------------------------- the keyboard

  /** The keys waiting on the terminal, oldest first. */
  class Keyboard {
    var pending: seq<int>

    constructor (keys: seq<int>)
      ensures pending == keys
    {
      pending := keys;
    }

    /** `getch()` in no-delay mode: the oldest waiting key, or -1. */
    method GetCh() returns (ch: int)
      modifies this
      ensures (ch, pending) == Next(old(pending))
    {
      if pending == [] {
        ch := NoKey;
      } else {
        ch := pending[0];
        pending := pending[1..];
      }
    }
  }

  function Next(keys: seq<int>): (int, seq<int>) {
    if keys == [] then (NoKey, []) else (keys[0], keys[1..])
  }

  /**
   * `_read_key` over the waiting keys: the key it returns and the keys it
   * leaves. It consumes from one to four keys, or none when nothing waits.
   */
  function DecodeKey(keys: seq<int>): (r: (int, seq<int>))
    ensures keys == [] ==> r == (NoKey, [])
    ensures keys != [] && keys[0] != Esc ==> r == (keys[0], keys[1..])
    ensures |r.1| <= |keys| && r.1 == keys[|keys| - |r.1|..]
    ensures keys != [] ==> |keys| - 4 <= |r.1| < |keys|
  {
    var n1 := Next(keys);
    var ch := n1.0;
    if ch != Esc then n1
    else
      var n2 := Next(n1.1);
      var nxt := n2.0;
      if nxt == NoKey then (ch, n2.1)
      else if nxt != 91 then (ch, n2.1)
      else
        var n3 := Next(n2.1);
        var third := n3.0;
        if third == NoKey then (ch, n3.1)
        else if third == 65 then (KeyUp, n3.1)
        else if third == 66 then (KeyDown, n3.1)
        else if third == 67 then (KeyRight, n3.1)
        else if third == 68 then (KeyLeft, n3.1)
        else if third == 72 then (KeyHome, n3.1)
        else if third == 70 then (KeyEnd, n3.1)
        else if third == 49 || third == 52 || third == 53 || third == 54 then
          var n4 := Next(n3.1);
          if n4.0 == 126 then
            (if third == 49 then KeyHome else if third == 52 then KeyEnd else if third == 53 then KeyPPage else KeyNPage, n4.1)
          else (ch, n4.1)
        else (ch, n3.1)
  }

  /** The escape sequences `_read_key` recognises, each with the key it stands for. */
  const EscapeTable: seq<(seq<int>, int)> := [
    ([27, 91, 65], KeyUp), ([27, 91, 66], KeyDown), ([27, 91, 67], KeyRight), ([27, 91, 68], KeyLeft),
    ([27, 91, 72], KeyHome), ([27, 91, 70], KeyEnd),
    ([27, 91, 49, 126], KeyHome), ([27, 91, 52, 126], KeyEnd), ([27, 91, 53, 126], KeyPPage), ([27, 91, 54, 126], KeyNPage)]

  /** Each sequence of the table, whatever follows it, reads as its key and consumes exactly itself. */
  lemma DecodeKeyEscapes(i: nat, rest: seq<int>)
    requires i < |EscapeTable|
    ensures DecodeKey(EscapeTable[i].0 + rest) == (EscapeTable[i].1, rest)
  {
    var e := EscapeTable[i].0;
    var keys := e + rest;
    assert keys[0] == 27 && keys[1] == 91 && keys[2] == e[2];
    if |e| == 4 {
      assert keys[3] == 126;
      assert keys[4..] == rest;
    } else {
      assert keys[3..] == rest;
    }
  }

  /**
   * An ESC reads as a key other than ESC exactly when the keys start with
   * one of the sequences of the table.
   */
  lemma DecodeKeyTable(keys: seq<int>)
    requires keys != [] && keys[0] == Esc
    ensures DecodeKey(keys).0 != Esc <==> exists i :: 0 <= i < |EscapeTable| && EscapeTable[i].0 <= keys
  {
    forall i | 0 <= i < |EscapeTable| && EscapeTable[i].0 <= keys
      ensures DecodeKey(keys).0 != Esc
    {
      var e := EscapeTable[i].0;
      DecodeKeyEscapes(i, keys[|e|..]);
      assert e + keys[|e|..] == keys;
    }
    if DecodeKey(keys).0 != Esc {
      var third := keys[2];
      var i := if third == 65 then 0 else if third == 66 then 1 else if third == 67 then 2
               else if third == 68 then 3 else if third == 72 then 4 else if third == 70 then 5
               else if third == 49 then 6 else if third == 52 then 7 else if third == 53 then 8 else 9;
      assert EscapeTable[i].0 <= keys;
    }
  }

  /** A key that follows a lone ESC other than `[` is consumed with it and lost. */
  lemma DecodeKeyDropsAfterEsc(k: int, rest: seq<int>)
    requires k != 91 && k != NoKey
    ensures DecodeKey([Esc, k] + rest) == (Esc, rest)
  {
    assert ([Esc, k] + rest)[1..][1..] == rest;
  }

  /** `_read_key`: reads one key, and decodes an escape sequence into the key it stands for. */
  method ReadKey(kb: Keyboard) returns (key: int)
    modifies kb
    ensures (key, kb.pending) == DecodeKey(old(kb.pending))
  {
    var ch := kb.GetCh();
    if ch != Esc {
      return ch;
    }
    var nxt := kb.GetCh();
    if nxt == NoKey {
      return ch;
    }
    if nxt != 91 {
      return ch;
    }
    var third := kb.GetCh();
    if third == NoKey {
      return ch;
    }
    if third == 65 {
      return KeyUp;
    }
    if third == 66 {
      return KeyDown;
    }
    if third == 67 {
      return KeyRight;
    }
    if third == 68 {
      return KeyLeft;
    }
    if third == 72 {
      return KeyHome;
    }
    if third == 70 {
      return KeyEnd;
    }
    if third == 49 || third == 52 || third == 53 || third == 54 {
      var fourth := kb.GetCh();
      if fourth == 126 {
        if third == 49 {
          return KeyHome;
        }
        if third == 52 {
          return KeyEnd;
        }
        if third == 53 {
          return KeyPPage;
        }
        if third == 54 {
          return KeyNPage;
        }
      }
    }
    return ch;
  }

  // ---------------------------------------------------------------- the search prompt

  /** The codes 0..255 whose character Python calls printable: all but the controls, NBSP and the soft hyphen. */
  predicate Printable(ch: int) {
    32 <= ch <= 126 || 161 <= ch <= 172 || 174 <= ch <= 255
  }

  predicate IsBackspace(ch: int) {
    ch == KeyBackspace || ch == 127 || ch == 8
  }

  /** `buf[:-1]`. */
  function DropLast(s: string): string {
    if s == [] then [] else s[..|s| - 1]
  }

  /**
   * `prompt_search` as a fold over the waiting keys, with `buf` the text
   * so far: the string it returns and the keys it leaves. `None` means that
   * no ESC and no Enter has come yet, and then every key has been consumed.
   */
  function Prompted(current: string, buf: string, keys: seq<int>): (r: (Option<string>, seq<int>))
    ensures |r.1| <= |keys| && r.1 == keys[|keys| - |r.1|..]
    ensures r.0.None? ==> r.1 == []
    decreases |keys|
  {
    if keys == [] then (None, [])
    else
      var ch := keys[0];
      if ch == Esc then (Some(current), keys[1..])
      else if ch == 10 || ch == 13 then (Some(buf), keys[1..])
      else if IsBackspace(ch) then Prompted(current, DropLast(buf), keys[1..])
      else if 0 <= ch <= 255 && Printable(ch) then Prompted(current, buf + [ch as char], keys[1..])
      else Prompted(current, buf, keys[1..])
  }

  /** `prompt_search`: edits a copy of the current search until ESC (keep the old one) or Enter (take the copy). */
  method PromptSearch(kb: Keyboard, current: string) returns (r: Option<string>)
    modifies kb
    ensures (r, kb.pending) == Prompted(current, current, old(kb.pending))
  {
    var buf := current;
    while kb.pending != []
      invariant Prompted(current, buf, kb.pending) == Prompted(current, current, old(kb.pending))
      decreases |kb.pending|
    {
      var ch := kb.GetCh();
      if ch == Esc {
        return Some(current);
      }
      if ch == 10 || ch == 13 {
        return Some(buf);
      }
      if IsBackspace(ch) {
        buf := DropLast(buf);
        continue;
      }
      if 0 <= ch <= 255 {
        var c := ch as char;
        if Printable(ch) {
          buf := buf + [c];
        }
      }
    }
    return None;
  }

  /** The key codes that type `s`. */
  function Codes(s: string): (r: seq<int>)
    ensures |r| == |s|
  {
    if s == [] then [] else [s[0] as int] + Codes(s[1..])
  }

  predicate PrintableText(s: string) {
    forall i :: 0 <= i < |s| ==> Printable(s[i] as int)
  }

  function Backspaces(n: nat): seq<int> {
    if n == 0 then [] else [127] + Backspaces(n - 1)
  }

  /** Typing printable text appends it to the buffer. */
  lemma {:induction false} TypedAppends(current: string, buf: string, s: string, more: seq<int>)
    requires PrintableText(s)
    ensures Prompted(current, buf, Codes(s) + more) == Prompted(current, buf + s, more)
    decreases |s|
  {
    if s == [] {
      assert Codes(s) + more == more;
      assert buf + s == buf;
    } else {
      assert Codes(s) + more == [s[0] as int] + (Codes(s[1..]) + more);
      TypedOne(current, buf, s[0], Codes(s[1..]) + more);
      TypedAppends(current, buf + [s[0]], s[1..], more);
      assert buf + [s[0]] + s[1..] == buf + s;
    }
  }

  /** One printable key appends its character. */
  lemma TypedOne(current: string, buf: string, c: char, more: seq<int>)
    requires Printable(c as int)
    ensures Prompted(current, buf, [c as int] + more) == Prompted(current, buf + [c], more)
  {
    var keys := [c as int] + more;
    assert keys[0] == c as int && keys[1..] == more;
    assert (c as int) as char == c;
  }

  /** Typing printable text and pressing Enter returns the search with the text appended. */
  lemma TypeThenEnter(current: string, s: string, rest: seq<int>)
    requires PrintableText(s)
    ensures Prompted(current, current, Codes(s) + [10] + rest) == (Some(current + s), rest)
  {
    var enter := [10] + rest;
    assert Codes(s) + [10] + rest == Codes(s) + enter;
    TypedAppends(current, current, s, enter);
    assert enter[0] == 10 && enter[1..] == rest;
  }

  /** As many backspaces as characters typed take the buffer back to what it was. */
  lemma {:induction false} BackspacesDrop(current: string, buf: string, s: string, more: seq<int>)
    ensures Prompted(current, buf + s, Backspaces(|s|) + more) == Prompted(current, buf, more)
    decreases |s|
  {
    if s == [] {
      assert buf + s == buf;
      assert Backspaces(0) + more == more;
    } else {
      var keys := Backspaces(|s|) + more;
      var s' := s[..|s| - 1];
      assert keys[0] == 127;
      assert keys[1..] == Backspaces(|s'|) + more;
      assert DropLast(buf + s) == buf + s';
      BackspacesDrop(current, buf, s', more);
    }
  }

  /** Typing printable text and then erasing it leaves the prompt as if nothing had been typed. */
  lemma TypeThenErase(current: string, buf: string, s: string, more: seq<int>)
    requires PrintableText(s)
    ensures Prompted(current, buf, Codes(s) + Backspaces(|s|) + more) == Prompted(current, buf, more)
  {
    assert Codes(s) + Backspaces(|s|) + more == Codes(s) + (Backspaces(|s|) + more);
    TypedAppends(current, buf, s, Backspaces(|s|) + more);
    BackspacesDrop(current, buf, s, more);
  }

  /** ESC abandons the edit: whatever was typed before it, the search comes back unchanged. */
  lemma {:induction false} EscapeKeepsSearch(current: string, buf: string, typed: seq<int>, rest: seq<int>)
    requires forall i :: 0 <= i < |typed| ==> typed[i] != Esc && typed[i] != 10 && typed[i] != 13
    ensures Prompted(current, buf, typed + [Esc] + rest) == (Some(current), rest)
    decreases |typed|
  {
    var keys := typed + [Esc] + rest;
    if typed == [] {
      assert keys == [Esc] + rest;
    } else {
      assert keys[0] == typed[0];
      assert keys[1..] == typed[1..] + [Esc] + rest;
      var ch := typed[0];
      var buf' := if IsBackspace(ch) then DropLast(buf)
                  else if 0 <= ch <= 255 && Printable(ch) then buf + [ch as char]
                  else buf;
      EscapeKeepsSearch(current, buf', typed[1..], rest);
    }
  }
}
