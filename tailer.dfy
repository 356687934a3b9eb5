/**
 * tailer.py: `TailFile`, a minimal `tail -F`. The handle follows one file
 * across rotation by watching the inode the path names, remembers the offset
 * just past the last line it returned, and starts at the end of the file the
 * first time it opens it.
 *
 * The disk is an input of each call: the inode the path currently names (none
 * when `stat` finds no file), the text each inode holds, and the errors `stat`
 * and `open()` raise other than a missing file (a denied permission, or the
 * file vanishing between the two calls). `_try_open` catches only
 * `FileNotFoundError` from `stat`; those other errors leave the fields as they
 * were and pass out of `read_available_lines` to its caller. An open handle is
 * the inode it was opened on, so it goes on reading that inode after the path
 * has moved.
 * Offsets count characters. A read error is an input too: the index, within
 * one call, of the `readline()` that raises.
 */
module Tailer {
  import opened Wrappers
  import opened Text

  /** The disk as one call sees it. */
  datatype Disk = Disk(atPath: Option<nat>, text: nat -> string, statErr: Option<string>, openErr: Option<string>)

  /** The fields `_fp`, `_inode`, `_pos` and `_opened_once`; `fp` is the inode the open handle reads. */
  datatype TailState = TailState(fp: Option<nat>, inode: Option<nat>, pos: nat, openedOnce: bool)

  /** What one `read_available_lines` call leaves behind and returns, or the exception it lets escape. */
  datatype Step = Step(state: TailState, lines: seq<string>, raised: Option<string>)

  /** The lines a run of `readline()` calls gathers and the offset after the last of them. */
  datatype Gathered = Gathered(lines: seq<string>, end: nat)

  const DefaultMaxLines := 2000

  /** The fields agree with each other: the handle and the recorded inode are set and cleared together, and a handle opened with `start_at_end` has used up the first open. */
  predicate Inv(s: TailState, startAtEnd: bool) {
    s.fp == s.inode && (s.fp.Some? && startAtEnd ==> s.openedOnce)
  }

  /** `_try_open`: open on first sight, resume at the saved offset after an error, restart at 0 when the path names another inode. */
  function OpenStep(s: TailState, disk: Disk, startAtEnd: bool): TailState {
    match disk.atPath
    case None => s
    case Some(ino) =>
      if s.fp.None? then
        if startAtEnd && !s.openedOnce then TailState(Some(ino), Some(ino), |disk.text(ino)|, true)
        else TailState(Some(ino), Some(ino), s.pos, s.openedOnce)
      else if s.inode.None? || ino != s.inode.value then TailState(Some(ino), Some(ino), 0, s.openedOnce)
      else s
  }

  /** The exception `_try_open` lets escape: any `stat` error but a missing file, or an `open()` error when it opens the path. */
  function OpenError(s: TailState, disk: Disk): Option<string> {
    if disk.statErr.Some? then disk.statErr
    else if disk.atPath.Some? && (s.fp.None? || s.inode != disk.atPath) then disk.openErr
    else None
  }

  /** Where the line that starts at `p` ends: just past the next newline, or at the end of the text. */
  function LineEnd(data: string, p: nat): (e: nat)
    ensures p < |data| ==> p < e <= |data|
    decreases |data| - p
  {
    if p >= |data| then p
    else if data[p] == '\n' then p + 1
    else LineEnd(data, p + 1)
  }

  /** `readline()` at offset `p`: up to and including the next newline, or the rest of the text; empty at or past the end. */
  function ReadLine(data: string, p: nat): (line: string)
    ensures (line == []) == (p >= |data|)
    ensures p + |line| <= |data| || line == []
  {
    if p >= |data| then [] else data[p..LineEnd(data, p)]
  }

  lemma {:induction false} LineEndSpec(data: string, p: nat)
    requires p < |data|
    ensures var e := LineEnd(data, p);
      (forall i :: p <= i < e - 1 ==> data[i] != '\n') && (data[e - 1] == '\n' || e == |data|)
    decreases |data| - p
  {
    if data[p] != '\n' && p + 1 < |data| {
      LineEndSpec(data, p + 1);
    }
  }

  /** The line is the text at `p`, with a newline at its end only, which only the end of the text can replace. */
  lemma ReadLineSpec(data: string, p: nat)
    ensures var line := ReadLine(data, p);
      (p < |data| ==> line == data[p..p + |line|])
      && (forall i :: 0 <= i < |line| - 1 ==> line[i] != '\n')
      && (line != [] ==> line[|line| - 1] == '\n' || p + |line| == |data|)
  {
    if p < |data| {
      LineEndSpec(data, p);
    }
  }

  /** `line.rstrip("\n")` on a line `readline()` returned, where only the final character can be a newline. */
  function Chomp(line: string): string {
    if line != [] && line[|line| - 1] == '\n' then line[..|line| - 1] else line
  }

  /** The `while len(out) < max_lines` loop without errors, continuing a list `acc` already gathered: at most `budget` more lines, each with its newline removed, and the offset after the last. */
  function Collect(data: string, p: nat, budget: nat, acc: seq<string>): Gathered
    decreases budget
  {
    if budget == 0 || p >= |data| then Gathered(acc, p)
    else
      var e := LineEnd(data, p);
      Collect(data, e, budget - 1, acc + [Chomp(data[p..e])])
  }

  /** What a whole call gathers from offset `p` when no `readline()` raises. */
  function Available(data: string, p: nat, budget: nat): Gathered {
    Collect(data, p, budget, [])
  }

  /** `max_lines` as a number of iterations: a negative bound reads nothing. */
  function Budget(maxLines: int): nat {
    if maxLines < 0 then 0 else maxLines
  }

  /** `read_available_lines(max_lines)` with the `readline()` numbered `failAt` raising, if any. */
  function ReadStep(s: TailState, disk: Disk, startAtEnd: bool, maxLines: int, failAt: Option<nat>): Step {
    if OpenError(s, disk).Some? then Step(s, [], OpenError(s, disk))
    else
      var t := OpenStep(s, disk, startAtEnd);
      if t.fp.None? then Step(t, [], None)
      else
        var g := Available(disk.text(t.fp.value), t.pos, Budget(maxLines));
        if failAt.Some? && failAt.value <= |g.lines| && failAt.value < Budget(maxLines) then
          Step(TailState(None, None, t.pos, t.openedOnce), g.lines[..failAt.value], None)
        else Step(t.(pos := g.end), g.lines, None)
  }

  class TailFile {
    const startAtEnd: bool
    var fp: Option<nat>
    var inode: Option<nat>
    var pos: nat
    var openedOnce: bool

    function State(): TailState
      reads this
    {
      TailState(fp, inode, pos, openedOnce)
    }

    predicate Valid()
      reads this
    {
      Inv(State(), startAtEnd)
    }

    constructor(startAtEnd: bool)
      ensures this.startAtEnd == startAtEnd && Valid()
      ensures State() == TailState(None, None, 0, false)
    {
      this.startAtEnd := startAtEnd;
      fp := None;
      inode := None;
      pos := 0;
      openedOnce := false;
    }

    /** `_try_open`; `raised` is the exception it lets escape, which leaves the fields as they were. */
    method TryOpen(disk: Disk) returns (raised: Option<string>)
      requires Valid()
      modifies this
      ensures raised == OpenError(old(State()), disk)
      ensures Valid() && State() == if raised.Some? then old(State()) else OpenStep(old(State()), disk, startAtEnd)
    {
      if disk.statErr.Some? {
        return disk.statErr;
      }
      if disk.atPath.None? {
        return None;
      }
      var ino := disk.atPath.value;
      if fp.None? {
        if disk.openErr.Some? {
          return disk.openErr;
        }
        fp := Some(ino);
        inode := Some(ino);
        if startAtEnd && !openedOnce {
          pos := |disk.text(ino)|;
          openedOnce := true;
        }
        return None;
      }
      if inode.None? || ino != inode.value {
        if disk.openErr.Some? {
          return disk.openErr;
        }
        fp := Some(ino);
        inode := Some(ino);
        pos := 0;
      }
      return None;
    }

    method ReadAvailableLines(disk: Disk, maxLines: int, failAt: Option<nat>) returns (out: seq<string>, raised: Option<string>)
      requires Valid()
      modifies this
      ensures Valid() && Step(State(), out, raised) == ReadStep(old(State()), disk, startAtEnd, maxLines, failAt)
    {
      out := [];
      raised := TryOpen(disk);
      if raised.Some? || fp.None? {
        return;
      }
      var p, failed;
      out, p, failed := ReadLines(disk.text(fp.value), pos, maxLines, failAt);
      if failed {
        fp := None;
        inode := None;
      } else {
        pos := p;
      }
    }
  }

  /** The `try` block of `read_available_lines`: `readline()` until the text runs out or `max_lines` lines are gathered; `failed` when a `readline()` raised, `p` the final offset otherwise. */
  method ReadLines(data: string, start: nat, maxLines: int, failAt: Option<nat>) returns (out: seq<string>, p: nat, failed: bool)
    ensures var g := Available(data, start, Budget(maxLines));
      failed == (failAt.Some? && failAt.value <= |g.lines| && failAt.value < Budget(maxLines))
      && (failed ==> out == g.lines[..failAt.value])
      && (!failed ==> out == g.lines && p == g.end)
  {
    out := [];
    p := start;
    failed := false;
    ghost var left: nat := Budget(maxLines);
    while |out| < maxLines
      invariant |out| + left == Budget(maxLines)
      invariant Available(data, start, Budget(maxLines)) == Collect(data, p, left, out)
      invariant failAt.Some? ==> failAt.value >= |out|
    {
      if failAt == Some(|out|) {
        failed := true;
        break;
      }
      var line := ReadLine(data, p);
      if line == [] {
        break;
      }
      ChompIsRStrip(data, p);
      out := out + [RStripChar(line, '\n')];
      p := p + |line|;
      left := left - 1;
    }
    CollectExtends(data, p, left, out);
  }

  // ---------------------------------------------------------------- properties

  /** Gathering only appends to what was gathered before. */
  lemma {:induction false} CollectExtends(data: string, p: nat, budget: nat, acc: seq<string>)
    ensures var g := Collect(data, p, budget, acc); |acc| <= |g.lines| && g.lines[..|acc|] == acc
    decreases budget
  {
    if budget > 0 && p < |data| {
      var e := LineEnd(data, p);
      var acc' := acc + [Chomp(data[p..e])];
      CollectExtends(data, e, budget - 1, acc');
      assert acc'[..|acc|] == acc;
    }
  }

  /** Gathering onto a list is gathering from scratch, appended to it. */
  lemma {:induction false} CollectSplit(data: string, p: nat, budget: nat, acc: seq<string>)
    ensures var g := Available(data, p, budget);
      Collect(data, p, budget, acc) == Gathered(acc + g.lines, g.end)
    decreases budget
  {
    if budget > 0 && p < |data| {
      var e := LineEnd(data, p);
      var x := Chomp(data[p..e]);
      assert [] + [x] == [x];
      CollectSplit(data, e, budget - 1, acc + [x]);
      CollectSplit(data, e, budget - 1, [x]);
      var g := Available(data, e, budget - 1);
      assert Available(data, p, budget) == Gathered([x] + g.lines, g.end);
      assert acc + [x] + g.lines == acc + ([x] + g.lines);
    } else {
      assert acc + [] == acc;
    }
  }

  lemma AvailableUnfold(data: string, p: nat, budget: nat)
    requires budget > 0 && p < |data|
    ensures var e := LineEnd(data, p); var g := Available(data, e, budget - 1);
      Available(data, p, budget) == Gathered([Chomp(data[p..e])] + g.lines, g.end)
  {
    var e := LineEnd(data, p);
    assert [] + [Chomp(data[p..e])] == [Chomp(data[p..e])];
    CollectSplit(data, e, budget - 1, [Chomp(data[p..e])]);
  }

  /** A line `readline()` returns is its chomped form plus a newline, or, at the end of the text only, its chomped form alone; the chomped form holds no newline. */
  lemma ChompFacts(data: string, p: nat)
    requires p < |data|
    ensures var e := LineEnd(data, p); var x := Chomp(data[p..e]);
      '\n' !in x && (data[p..e] == x + "\n" || (e == |data| && data[p..e] == x))
  {
    var e := LineEnd(data, p);
    LineEndSpec(data, p);
    var x := Chomp(data[p..e]);
    forall i | 0 <= i < |x| ensures x[i] != '\n' {
      assert x[i] == data[p + i];
    }
  }

  /** A call moves forward from `p`, stays within the text and returns at most `budget` lines. */
  lemma {:induction false} AvailableBounds(data: string, p: nat, budget: nat)
    requires p <= |data|
    ensures var g := Available(data, p, budget); p <= g.end <= |data| && |g.lines| <= budget
    decreases budget
  {
    if budget > 0 && p < |data| {
      AvailableUnfold(data, p, budget);
      AvailableBounds(data, LineEnd(data, p), budget - 1);
    }
  }

  /** No returned line holds a newline. */
  lemma {:induction false} AvailableNoNewline(data: string, p: nat, budget: nat)
    ensures var g := Available(data, p, budget); forall i :: 0 <= i < |g.lines| ==> '\n' !in g.lines[i]
    decreases budget
  {
    if budget > 0 && p < |data| {
      var e := LineEnd(data, p);
      AvailableUnfold(data, p, budget);
      AvailableNoNewline(data, e, budget - 1);
      ChompFacts(data, p);
      var x := Chomp(data[p..e]);
      var rest := Available(data, e, budget - 1).lines;
      var lines := Available(data, p, budget).lines;
      assert lines == [x] + rest;
      forall i | 0 <= i < |lines| ensures '\n' !in lines[i] {
        if i > 0 {
          assert lines[i] == rest[i - 1];
        }
      }
    }
  }

  /** The lines a call returns, each put back with the newline `readline()` read. */
  function Terminated(lines: seq<string>): string {
    if lines == [] then [] else lines[0] + "\n" + Terminated(lines[1..])
  }

  /** `text` is what `lines` were read from: each line was newline-terminated except possibly the last, and that one only when the text ran out (`atEnd`). */
  predicate Tiles(text: string, lines: seq<string>, atEnd: bool) {
    text == Terminated(lines)
    || (lines != [] && atEnd && text == Terminated(lines[..|lines| - 1]) + lines[|lines| - 1])
  }

  /** A newline-terminated line in front of tiled text. */
  lemma TilesCons(x: string, text: string, lines: seq<string>, atEnd: bool)
    requires Tiles(text, lines, atEnd)
    ensures Tiles(x + "\n" + text, [x] + lines, atEnd)
  {
    var all := [x] + lines;
    assert all[1..] == lines;
    if text != Terminated(lines) {
      var init := lines[..|lines| - 1];
      assert all[..|all| - 1] == [x] + init;
      assert ([x] + init)[1..] == init;
      assert Terminated([x] + init) == x + "\n" + Terminated(init);
      assert all[|all| - 1] == lines[|lines| - 1];
    }
  }

  /** A last line the text ran out on. */
  lemma TilesLast(x: string)
    ensures Tiles(x, [x], true)
  {
    assert [x][..0] == [];
  }

  /** A call neither skips nor repeats text: its lines are the text it moved over. */
  lemma {:induction false} AvailableTiles(data: string, p: nat, budget: nat)
    requires p <= |data|
    ensures var g := Available(data, p, budget);
      p <= g.end <= |data| && Tiles(data[p..g.end], g.lines, g.end == |data|)
    decreases budget
  {
    AvailableBounds(data, p, budget);
    if budget == 0 || p >= |data| {
      return;
    }
    var g := Available(data, p, budget);
    var e := LineEnd(data, p);
    AvailableUnfold(data, p, budget);
    AvailableTiles(data, e, budget - 1);
    ChompFacts(data, p);
    AvailableBounds(data, e, budget - 1);
    var x := Chomp(data[p..e]);
    var rest := Available(data, e, budget - 1);
    assert data[p..g.end] == data[p..e] + data[e..g.end];
    if data[p..e] == x + "\n" {
      TilesCons(x, data[e..g.end], rest.lines, g.end == |data|);
    } else {
      assert rest == Gathered([], e);
      assert g.lines == [x];
      TilesLast(x);
    }
  }

  /** `line.rstrip("\n")` and Chomp agree on every line `readline()` returns. */
  lemma ChompIsRStrip(data: string, p: nat)
    ensures RStripChar(ReadLine(data, p), '\n') == Chomp(ReadLine(data, p))
  {
    var line := ReadLine(data, p);
    if line != [] {
      ReadLineSpec(data, p);
      var r := RStripChar(line, '\n');
      if line[|line| - 1] == '\n' {
        assert RStripChar(line, '\n') == RStripChar(line[..|line| - 1], '\n');
        if |line| > 1 {
          assert line[..|line| - 1][|line| - 2] == line[|line| - 2];
        }
      }
    }
  }

  /** Every call keeps the fields consistent. */
  lemma ReadStepKeepsInv(s: TailState, disk: Disk, startAtEnd: bool, maxLines: int, failAt: Option<nat>)
    requires Inv(s, startAtEnd)
    ensures Inv(ReadStep(s, disk, startAtEnd, maxLines, failAt).state, startAtEnd)
  {
  }

  /**
   * A call raises exactly when `stat` fails other than on a missing file, or
   * when it must open the path (no handle yet, or another inode there) and
   * `open()` fails; it then returns nothing and leaves the fields as they were.
   */
  lemma OpenErrorRaises(s: TailState, disk: Disk, startAtEnd: bool, maxLines: int, failAt: Option<nat>)
    ensures var r := ReadStep(s, disk, startAtEnd, maxLines, failAt);
      && (r.raised.Some? <==> disk.statErr.Some? || (disk.atPath.Some? && (s.fp.None? || s.inode != disk.atPath) && disk.openErr.Some?))
      && (r.raised.Some? ==> r.state == s && r.lines == [])
      && (disk.statErr.Some? ==> r.raised == disk.statErr)
  {
  }

  /** No file and no handle: nothing is returned and nothing changes. */
  lemma MissingBeforeOpen(s: TailState, disk: Disk, startAtEnd: bool, maxLines: int, failAt: Option<nat>)
    requires s.fp.None? && disk.atPath.None? && disk.statErr.None?
    ensures ReadStep(s, disk, startAtEnd, maxLines, failAt) == Step(s, [], None)
  {
  }

  /** A path that vanished under an open handle: reading goes on from the old file at the saved offset. */
  lemma VanishedKeepsReading(s: TailState, disk: Disk, startAtEnd: bool, maxLines: int)
    requires s.fp.Some? && disk.atPath.None? && disk.statErr.None?
    ensures var g := Available(disk.text(s.fp.value), s.pos, Budget(maxLines));
      ReadStep(s, disk, startAtEnd, maxLines, None) == Step(s.(pos := g.end), g.lines, None)
  {
  }

  /** The first open with `start_at_end` jumps to the end: nothing present at startup is ever returned. */
  lemma FirstOpenSkipsExisting(s: TailState, disk: Disk, maxLines: int, failAt: Option<nat>)
    requires s.fp.None? && !s.openedOnce && disk.atPath.Some? && disk.statErr.None? && disk.openErr.None?
    ensures var r := ReadStep(s, disk, true, maxLines, failAt);
      r.lines == [] && r.state.pos == |disk.text(disk.atPath.value)| && r.state.openedOnce
  {
    var data := disk.text(disk.atPath.value);
    assert Available(data, |data|, Budget(maxLines)) == Gathered([], |data|);
  }

  /** Any other open without a handle, after an error for instance, resumes at the saved offset. */
  lemma ReopenResumes(s: TailState, disk: Disk, startAtEnd: bool, maxLines: int)
    requires s.fp.None? && (s.openedOnce || !startAtEnd) && disk.atPath.Some? && disk.statErr.None? && disk.openErr.None?
    ensures var ino := disk.atPath.value; var g := Available(disk.text(ino), s.pos, Budget(maxLines));
      ReadStep(s, disk, startAtEnd, maxLines, None) == Step(TailState(Some(ino), Some(ino), g.end, s.openedOnce), g.lines, None)
  {
  }

  /** A new inode at the path means rotation: the new file is read from its start. */
  lemma RotationRestarts(s: TailState, disk: Disk, startAtEnd: bool, maxLines: int)
    requires s.fp.Some? && disk.atPath.Some? && s.inode != disk.atPath && disk.statErr.None? && disk.openErr.None?
    ensures var ino := disk.atPath.value; var g := Available(disk.text(ino), 0, Budget(maxLines));
      ReadStep(s, disk, startAtEnd, maxLines, None) == Step(TailState(Some(ino), Some(ino), g.end, s.openedOnce), g.lines, None)
  {
  }

  /** Rotation is told only by the inode: a file cut short under the same inode keeps the saved offset and returns nothing until it grows past it. */
  lemma TruncationNotDetected(s: TailState, disk: Disk, startAtEnd: bool, maxLines: int)
    requires Inv(s, startAtEnd) && s.fp.Some? && disk.atPath == s.inode && disk.statErr.None?
    requires s.pos >= |disk.text(s.fp.value)|
    ensures ReadStep(s, disk, startAtEnd, maxLines, None) == Step(s, [], None)
  {
    var data := disk.text(s.fp.value);
    assert Available(data, s.pos, Budget(maxLines)) == Gathered([], s.pos);
  }

  /** At most `max_lines` lines, none holding a newline. */
  lemma ReadBounded(s: TailState, disk: Disk, startAtEnd: bool, maxLines: int, failAt: Option<nat>)
    ensures var r := ReadStep(s, disk, startAtEnd, maxLines, failAt);
      |r.lines| <= Budget(maxLines) && forall i :: 0 <= i < |r.lines| ==> '\n' !in r.lines[i]
  {
    var t := OpenStep(s, disk, startAtEnd);
    if t.fp.Some? {
      var data := disk.text(t.fp.value);
      AvailableNoNewline(data, t.pos, Budget(maxLines));
      if t.pos <= |data| {
        AvailableBounds(data, t.pos, Budget(maxLines));
      } else {
        assert Available(data, t.pos, Budget(maxLines)) == Gathered([], t.pos);
      }
    }
  }

  /** After a successful call the saved offset is just past the last returned line: the lines are the text between the offset the call started from and the new one. */
  lemma ReadAdvancesPastLines(s: TailState, disk: Disk, startAtEnd: bool, maxLines: int, failAt: Option<nat>)
    requires var r := ReadStep(s, disk, startAtEnd, maxLines, failAt); r.state.fp.Some? && r.raised.None?
    requires var t := OpenStep(s, disk, startAtEnd); t.pos <= |disk.text(t.fp.value)|
    ensures var r := ReadStep(s, disk, startAtEnd, maxLines, failAt); var t := OpenStep(s, disk, startAtEnd);
      var data := disk.text(t.fp.value);
      t.pos <= r.state.pos <= |data| && Tiles(data[t.pos..r.state.pos], r.lines, r.state.pos == |data|)
  {
    var t := OpenStep(s, disk, startAtEnd);
    AvailableTiles(disk.text(t.fp.value), t.pos, Budget(maxLines));
  }

  /** The next call, with the path naming the same inode or nothing, keeps the handle and the offset: it reads on from where this one stopped, so no line comes twice. */
  lemma NextReadContinues(s: TailState, disk: Disk, next: Disk, startAtEnd: bool, maxLines: int, failAt: Option<nat>)
    requires Inv(s, startAtEnd)
    requires var r := ReadStep(s, disk, startAtEnd, maxLines, failAt);
      r.state.fp.Some? && (next.atPath.None? || next.atPath == r.state.fp)
    ensures var r := ReadStep(s, disk, startAtEnd, maxLines, failAt);
      OpenStep(r.state, next, startAtEnd) == r.state && (next.statErr.None? ==> OpenError(r.state, next).None?)
  {
    ReadStepKeepsInv(s, disk, startAtEnd, maxLines, failAt);
  }

  /** A read error drops the handle but not the offset: the retry reads again the lines the failed call had already returned. */
  lemma ErrorRedelivers(s: TailState, disk: Disk, startAtEnd: bool, maxLines: int, k: nat)
    requires Inv(s, startAtEnd)
    requires disk.statErr.None? && disk.openErr.None?
    requires var t := OpenStep(s, disk, startAtEnd); t.fp.Some? && disk.atPath == t.fp
    requires ReadStep(s, disk, startAtEnd, maxLines, Some(k)).state.fp.None?
    ensures var r := ReadStep(s, disk, startAtEnd, maxLines, Some(k));
      var again := ReadStep(r.state, disk, startAtEnd, maxLines, None);
      r.state.pos == OpenStep(s, disk, startAtEnd).pos
      && |r.lines| <= |again.lines| && again.lines[..|r.lines|] == r.lines
  {
    var t := OpenStep(s, disk, startAtEnd);
    var g := Available(disk.text(t.fp.value), t.pos, Budget(maxLines));
    var r := ReadStep(s, disk, startAtEnd, maxLines, Some(k));
    assert r.lines == g.lines[..k];
    assert ReadStep(r.state, disk, startAtEnd, maxLines, None).lines == g.lines;
  }
}
