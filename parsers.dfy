/**
 * parsers.py: the two log-line classifiers and the regular expressions they use,
 * written out as their match semantics (leftmost match, greedy repetition with
 * backtracking, `\b` word boundaries) over ASCII digits and word characters.
 */
module Parsers {
  import opened Wrappers
  import opened Text
  import opened Records
  import Utils

  /** Length of the run of characters satisfying `p` that starts at `i`. */
  function Run(s: string, i: nat, p: char -> bool): (n: nat)
    ensures i + n <= |s| || n == 0
    decreases |s| - i
  {
    if i < |s| && p(s[i]) then 1 + Run(s, i + 1, p) else 0
  }

  /** The run is maximal: every character in it satisfies `p`, the next one does not. */
  lemma {:induction false} RunSpec(s: string, i: nat, p: char -> bool)
    ensures var n := Run(s, i, p);
      (forall k :: i <= k < i + n ==> p(s[k])) && (i + n < |s| ==> !p(s[i + n]))
    decreases |s| - i
  {
    if i < |s| && p(s[i]) {
      RunSpec(s, i + 1, p);
    }
  }

  /** `\b` at position `i`: exactly one of the neighbouring characters is a word character. */
  predicate Boundary(s: string, i: nat)
    requires i <= |s|
  {
    (i > 0 && IsWordChar(s[i - 1])) != (i < |s| && IsWordChar(s[i]))
  }

  /** `\d{1,3}\.` at `i`: the position after the dot. Greedy `\d{1,3}` can only be followed by `.` after a whole run. */
  function OctetDot(s: string, i: nat): (r: Option<nat>)
    ensures r.Some? ==> i < r.value <= |s|
  {
    var n := Run(s, i, IsDigit);
    if 1 <= n <= 3 && i + n < |s| && s[i + n] == '.' then Some(i + n + 1) else None
  }

  /** `(?:\d{1,3}\.){3}` at `i`: the position where the last octet starts. */
  function ThreeOctets(s: string, i: nat): (r: Option<nat>)
    ensures r.Some? ==> i < r.value <= |s|
  {
    match OctetDot(s, i)
    case None => None
    case Some(p2) =>
      match OctetDot(s, p2)
      case None => None
      case Some(p3) => OctetDot(s, p3)
  }

  /** `IP_RE` matching at `i`: the last `\d{1,3}` is greedy and nothing follows it in the pattern. */
  function IpAt(s: string, i: nat): (r: Option<string>)
    ensures r.Some? ==> 7 <= |r.value| <= 15
  {
    match ThreeOctets(s, i)
    case None => None
    case Some(p4) =>
      var n := Run(s, p4, IsDigit);
      if n == 0 then None
      else
        var e := p4 + (if n <= 3 then n else 3);
        DottedLength(s, i, p4);
        Some(s[i..e])
  }

  lemma DottedLength(s: string, i: nat, p4: nat)
    requires ThreeOctets(s, i) == Some(p4)
    ensures i + 6 <= p4 <= i + 12
  {
  }

  /** `IP_RE` inside `\b...\b`: the last octet must be a whole digit run of length 1 to 3 followed by a non-word character or the end. */
  function WordIpAt(s: string, i: nat): (r: Option<string>)
  {
    match ThreeOctets(s, i)
    case None => None
    case Some(p4) =>
      var n := Run(s, p4, IsDigit);
      if 1 <= n <= 3 && Boundary(s, p4 + n) then Some(s[i..p4 + n]) else None
  }

  /** Leftmost position at or after `i` where `at` matches: the scan of `re.search`. */
  function SearchFrom<T>(s: string, at: nat -> Option<T>, i: nat): (r: Option<nat>)
    requires i <= |s|
    ensures r.Some? ==> i <= r.value <= |s| && at(r.value).Some?
    ensures r.Some? ==> forall j :: i <= j < r.value ==> at(j).None?
    ensures r.None? ==> forall j :: i <= j <= |s| ==> at(j).None?
    decreases |s| - i
  {
    if at(i).Some? then Some(i)
    else if i == |s| then None
    else SearchFrom(s, at, i + 1)
  }

  /** The text `re.search` returns for a pattern whose match at each position is `at`. */
  function Search<T>(s: string, at: nat -> Option<T>): (r: Option<T>)
    ensures r.Some? <==> exists j :: 0 <= j <= |s| && at(j).Some?
    ensures r.Some? ==> exists j :: 0 <= j <= |s| && at(j) == r && forall k :: 0 <= k < j ==> at(k).None?
  {
    match SearchFrom(s, at, 0)
    case None => None
    case Some(j) => at(j)
  }

  /** `IP_RE.search(line)`. */
  function FirstIp(line: string): Option<string> {
    Search(line, j => IpAt(line, j))
  }

  /** `\b<phrase>\b` at `i`, for a phrase that starts and ends with a word character. */
  predicate PhraseAt(s: string, phrase: string, i: nat) {
    i + |phrase| <= |s| && s[i..i + |phrase|] == phrase && Boundary(s, i) && Boundary(s, i + |phrase|)
  }

  predicate HasPhrase(s: string, phrase: string) {
    exists i | 0 <= i <= |s| :: PhraseAt(s, phrase, i)
  }

  /** `SSH_FAIL_RE.search(line)` succeeds. */
  predicate HasFailPhrase(line: string) {
    HasPhrase(line, "Failed password") || HasPhrase(line, "Invalid user")
    || HasPhrase(line, "authentication failure")
  }

  /** `SSH_OK_RE.search(line)` succeeds. */
  predicate HasOkPhrase(line: string) {
    HasPhrase(line, "Accepted password") || HasPhrase(line, "Accepted publickey")
  }

  /** `parse_ssh_line(line)`: the first dotted quad must be a valid address; failure phrases win over success phrases. */
  function ParseSshLine(line: string): (r: Option<(string, Kind)>)
    ensures r.Some? ==> (r.value.1 == Fail || r.value.1 == Ok) && Utils.IpPlausibleIPv4(r.value.0)
    ensures r.Some? <==> FirstIp(line).Some? && Utils.IpPlausibleIPv4(FirstIp(line).value)
                         && (HasFailPhrase(line) || HasOkPhrase(line))
    ensures r.Some? ==> r.value.0 == FirstIp(line).value && (r.value.1 == Fail <==> HasFailPhrase(line))
  {
    match FirstIp(line)
    case None => None
    case Some(ip) =>
      if !Utils.IpPlausibleIPv4(ip) then None
      else if HasFailPhrase(line) then Some((ip, Fail))
      else if HasOkPhrase(line) then Some((ip, Ok))
      else None
  }

  /** The characters of `[A-Za-z0-9_.:-]`. */
  predicate IsJailChar(c: char) {
    ('A' <= c <= 'Z') || ('a' <= c <= 'z') || IsDigit(c) || c == '_' || c == '.' || c == ':' || c == '-'
  }

  /** `F2B_JAIL_RE` at `i`: the whole run of jail characters after `[` must be non-empty and closed by `]`. */
  function JailAt(s: string, i: nat): (r: Option<string>)
    ensures r.Some? ==> r.value != [] && forall k :: 0 <= k < |r.value| ==> IsJailChar(r.value[k])
  {
    if i < |s| && s[i] == '[' then
      var n := Run(s, i + 1, IsJailChar);
      if n >= 1 && i + 1 + n < |s| && s[i + 1 + n] == ']' then
        RunSpec(s, i + 1, IsJailChar);
        Some(s[i + 1..i + 1 + n])
      else None
    else None
  }

  /** The jail of a fail2ban line: the first bracket token, or `""`. */
  function JailOf(line: string): string {
    Search(line, j => JailAt(line, j)).GetOr("")
  }

  /** `\b<word>\s+<ip>\b` at `i`: `\s+` takes the whole run of spaces, since an address cannot start with one. */
  function WordThenIpAt(s: string, word: string, i: nat): Option<string> {
    if i + |word| <= |s| && s[i..i + |word|] == word && Boundary(s, i) then
      var w := Run(s, i + |word|, IsSpace);
      if w >= 1 then WordIpAt(s, i + |word| + w) else None
    else None
  }

  /** `F2B_BAN_RE.search(line)`. */
  function BanIp(line: string): Option<string> {
    Search(line, j => WordThenIpAt(line, "Ban", j))
  }

  /** `F2B_UNBAN_RE.search(line)`. */
  function UnbanIp(line: string): Option<string> {
    Search(line, j => WordThenIpAt(line, "Unban", j))
  }

  predicate PlausibleHit(ip: Option<string>) {
    ip.Some? && Utils.IpPlausibleIPv4(ip.value)
  }

  /** `parse_f2b_line(line)`: a plausible `Ban` address wins; otherwise a plausible `Unban` address; the jail is the first bracket token. */
  function ParseF2bLine(line: string): (r: Option<(string, Kind, string)>)
    ensures r.Some? ==> (r.value.1 == Ban || r.value.1 == Unban) && Utils.IpPlausibleIPv4(r.value.0)
    ensures r.Some? ==> r.value.2 == JailOf(line)
    ensures PlausibleHit(BanIp(line)) ==> r == Some((BanIp(line).value, Ban, JailOf(line)))
    ensures !PlausibleHit(BanIp(line)) ==>
      (r.Some? <==> PlausibleHit(UnbanIp(line))) && (r.Some? ==> r.value == (UnbanIp(line).value, Unban, JailOf(line)))
  {
    var jail := JailOf(line);
    var mb := BanIp(line);
    if mb.Some? && Utils.IpPlausibleIPv4(mb.value) then Some((mb.value, Ban, jail))
    else
      var mu := UnbanIp(line);
      if mu.Some? && Utils.IpPlausibleIPv4(mu.value) then Some((mu.value, Unban, jail))
      else None
  }

  // ---------------------------------------------------------------- properties

  /** The leftmost matching position decides what `re.search` returns. */
  lemma SearchAt<T>(s: string, at: nat -> Option<T>, j: nat)
    requires j <= |s| && at(j).Some? && forall k :: 0 <= k < j ==> at(k).None?
    ensures Search(s, at) == at(j)
  {
    var r := SearchFrom(s, at, 0);
    assert r.Some?;
  }

  /** No match can start inside a prefix that lacks the pattern's first character. */
  lemma NoMatchBefore<T>(s: string, prefix: string, c: char, at: nat -> Option<T>)
    requires StartsWith(s, prefix) && c !in prefix
    requires forall k :: 0 <= k < |s| && at(k).Some? ==> s[k] == c
    ensures forall k :: 0 <= k < |prefix| ==> at(k).None?
  {
    forall k | 0 <= k < |prefix| ensures at(k).None? {
      assert s[k] == prefix[k];
    }
  }

  lemma {:induction false} RunExact(s: string, i: nat, p: char -> bool, n: nat)
    requires i + n <= |s| && forall k :: i <= k < i + n ==> p(s[k])
    requires i + n == |s| || !p(s[i + n])
    ensures Run(s, i, p) == n
    decreases n
  {
    if n > 0 {
      RunExact(s, i + 1, p, n - 1);
    }
  }

  /** `line` holds the text `t` from position `j` on. */
  predicate HoldsAt(line: string, j: nat, t: string) {
    j + |t| <= |line| && line[j..j + |t|] == t
  }

  lemma HoldsAtChar(line: string, j: nat, t: string, k: nat)
    requires HoldsAt(line, j, t) && k < |t|
    ensures line[j + k] == t[k]
  {
    assert line[j..j + |t|][k] == line[j + k];
  }

  lemma HoldsAtConcat(line: string, j: nat, a: string, b: string)
    requires HoldsAt(line, j, a + b)
    ensures HoldsAt(line, j, a) && HoldsAt(line, j + |a|, b)
  {
    assert line[j..j + |a|] == line[j..j + |a + b|][..|a|];
    assert line[j + |a|..j + |a| + |b|] == line[j..j + |a + b|][|a|..];
  }

  /** A held string of digits that no digit follows is the whole digit run at its position. */
  lemma DigitRunAt(line: string, i: nat, d: string)
    requires Utils.AllDigits(d) && HoldsAt(line, i, d)
    requires i + |d| == |line| || !IsDigit(line[i + |d|])
    ensures Run(line, i, IsDigit) == |d|
  {
    forall k | i <= k < i + |d| ensures IsDigit(line[k]) {
      HoldsAtChar(line, i, d, k - i);
    }
    RunExact(line, i, IsDigit, |d|);
  }

  lemma OctetDotAt(line: string, i: nat, d: string)
    requires 1 <= |d| <= 3 && Utils.AllDigits(d) && HoldsAt(line, i, d + ".")
    ensures OctetDot(line, i) == Some(i + |d| + 1)
  {
    HoldsAtConcat(line, i, d, ".");
    HoldsAtChar(line, i, d + ".", |d|);
    DigitRunAt(line, i, d);
  }

  /** Where the last part of the dotted quad of `n` starts, relative to the quad. */
  function LastPartOffset(n: nat): nat
    requires n < Utils.AddressSpace
  {
    var ps := Utils.Parts(n);
    |ps[0]| + |ps[1]| + |ps[2]| + 3
  }

  /** The parts of a dotted quad held in a line, as the line holds them. */
  lemma QuadParts(line: string, j: nat, n: nat)
    requires n < Utils.AddressSpace && HoldsAt(line, j, Utils.FormatIPv4(n))
    ensures var ps := Utils.Parts(n); var p2 := j + |ps[0]| + 1; var p3 := p2 + |ps[1]| + 1;
      HoldsAt(line, j, ps[0] + ".") && HoldsAt(line, p2, ps[1] + ".") && HoldsAt(line, p3, ps[2] + ".")
      && HoldsAt(line, j + LastPartOffset(n), ps[3])
  {
    Utils.FormatShape(n);
    var ps := Utils.Parts(n);
    var t2 := ps[1] + "." + (ps[2] + "." + ps[3]);
    var t3 := ps[2] + "." + ps[3];
    assert Utils.FormatIPv4(n) == (ps[0] + ".") + t2;
    HoldsAtConcat(line, j, ps[0] + ".", t2);
    var p2 := j + |ps[0]| + 1;
    assert t2 == (ps[1] + ".") + t3;
    HoldsAtConcat(line, p2, ps[1] + ".", t3);
    var p3 := p2 + |ps[1]| + 1;
    assert t3 == (ps[2] + ".") + ps[3];
    HoldsAtConcat(line, p3, ps[2] + ".", ps[3]);
  }

  /** `(?:\d{1,3}\.){3}` walks through three digit groups, each followed by a dot. */
  lemma ThreeOctetsOfGroups(line: string, j: nat, a: string, b: string, c: string)
    requires 1 <= |a| <= 3 && 1 <= |b| <= 3 && 1 <= |c| <= 3
    requires Utils.AllDigits(a) && Utils.AllDigits(b) && Utils.AllDigits(c)
    requires HoldsAt(line, j, a + ".") && HoldsAt(line, j + |a| + 1, b + ".")
    requires HoldsAt(line, j + |a| + |b| + 2, c + ".")
    ensures ThreeOctets(line, j) == Some(j + |a| + |b| + |c| + 3)
  {
    OctetDotAt(line, j, a);
    OctetDotAt(line, j + |a| + 1, b);
    OctetDotAt(line, j + |a| + |b| + 2, c);
  }

  /** `(?:\d{1,3}\.){3}` walks through the first three parts of a dotted quad held in a line. */
  lemma ThreeOctetsOfQuad(line: string, j: nat, n: nat)
    requires n < Utils.AddressSpace && HoldsAt(line, j, Utils.FormatIPv4(n))
    ensures ThreeOctets(line, j) == Some(j + LastPartOffset(n))
  {
    Utils.FormatShape(n);
    QuadParts(line, j, n);
    var ps := Utils.Parts(n);
    ThreeOctetsOfGroups(line, j, ps[0], ps[1], ps[2]);
  }

  /** What a held quad gives the matcher: where its last part starts, and that part's digits. */
  lemma LastPartFacts(line: string, j: nat, n: nat)
    requires n < Utils.AddressSpace && HoldsAt(line, j, Utils.FormatIPv4(n))
    ensures var d := Utils.Parts(n)[3]; var p4 := j + LastPartOffset(n);
      Utils.AllDigits(d) && 1 <= |d| <= 3 && HoldsAt(line, p4, d) && p4 + |d| == j + |Utils.FormatIPv4(n)|
      && line[j..p4 + |d|] == Utils.FormatIPv4(n)
  {
    QuadParts(line, j, n);
    Utils.FormatShape(n);
  }

  /** The last part of a dotted quad is a whole digit run when no digit follows it. */
  lemma LastPartRun(line: string, p4: nat, d: string)
    requires Utils.AllDigits(d) && 1 <= |d| <= 3 && HoldsAt(line, p4, d)
    requires p4 + |d| == |line| || !IsDigit(line[p4 + |d|])
    ensures Run(line, p4, IsDigit) == |d| && IsDigit(line[p4 + |d| - 1])
  {
    DigitRunAt(line, p4, d);
    HoldsAtChar(line, p4, d, |d| - 1);
  }

  lemma IpAtOfLastPart(line: string, j: nat, p4: nat, d: string)
    requires ThreeOctets(line, j) == Some(p4)
    requires Utils.AllDigits(d) && 1 <= |d| <= 3 && HoldsAt(line, p4, d)
    requires p4 + |d| == |line| || !IsDigit(line[p4 + |d|])
    ensures IpAt(line, j) == Some(line[j..p4 + |d|])
  {
    LastPartRun(line, p4, d);
  }

  lemma WordIpAtOfLastPart(line: string, j: nat, p4: nat, d: string)
    requires ThreeOctets(line, j) == Some(p4)
    requires Utils.AllDigits(d) && 1 <= |d| <= 3 && HoldsAt(line, p4, d)
    requires p4 + |d| == |line| || !IsWordChar(line[p4 + |d|])
    ensures WordIpAt(line, j) == Some(line[j..p4 + |d|])
  {
    LastPartRun(line, p4, d);
  }

  /** `IP_RE` matches exactly a held quad that no digit follows. */
  lemma IpAtQuad(line: string, j: nat, n: nat)
    requires n < Utils.AddressSpace && HoldsAt(line, j, Utils.FormatIPv4(n))
    requires j + |Utils.FormatIPv4(n)| == |line| || !IsDigit(line[j + |Utils.FormatIPv4(n)|])
    ensures IpAt(line, j) == Some(Utils.FormatIPv4(n))
  {
    ThreeOctetsOfQuad(line, j, n);
    LastPartFacts(line, j, n);
    IpAtOfLastPart(line, j, j + LastPartOffset(n), Utils.Parts(n)[3]);
  }

  /** The word-bounded form matches exactly a held quad that no word character follows. */
  lemma WordIpAtQuad(line: string, j: nat, n: nat)
    requires n < Utils.AddressSpace && HoldsAt(line, j, Utils.FormatIPv4(n))
    requires j + |Utils.FormatIPv4(n)| == |line| || !IsWordChar(line[j + |Utils.FormatIPv4(n)|])
    ensures WordIpAt(line, j) == Some(Utils.FormatIPv4(n))
  {
    ThreeOctetsOfQuad(line, j, n);
    LastPartFacts(line, j, n);
    WordIpAtOfLastPart(line, j, j + LastPartOffset(n), Utils.Parts(n)[3]);
  }

  lemma MatchStartsWithDigit(s: string, k: nat)
    requires IpAt(s, k).Some?
    ensures k < |s| && IsDigit(s[k])
  {
    RunSpec(s, k, IsDigit);
  }

  lemma JailMatchStartsWithBracket(s: string, k: nat)
    requires JailAt(s, k).Some?
    ensures k < |s| && s[k] == '['
  {
  }

  lemma WordMatchStartsWithWord(s: string, word: string, k: nat)
    requires |word| >= 1 && WordThenIpAt(s, word, k).Some?
    ensures k < |s| && s[k] == word[0]
  {
    assert s[k..k + |word|][0] == s[k];
  }

  /** The first bracket token of a line is its jail, whatever brackets follow. */
  lemma FirstBracketIsJail(pre: string, jail: string, post: string)
    requires '[' !in pre
    requires jail != [] && forall k :: 0 <= k < |jail| ==> IsJailChar(jail[k])
    ensures JailOf(pre + "[" + jail + "]" + post) == jail
  {
    var s := pre + "[" + jail + "]" + post;
    var i := |pre|;
    forall k | 0 <= k < i ensures JailAt(s, k).None? {
      assert s[k] == pre[k];
      if JailAt(s, k).Some? {
        JailMatchStartsWithBracket(s, k);
      }
    }
    forall k | i + 1 <= k < i + 1 + |jail| ensures IsJailChar(s[k]) {
      assert s[k] == jail[k - i - 1];
    }
    assert s[i + 1 + |jail|] == ']';
    RunExact(s, i + 1, IsJailChar, |jail|);
    assert s[i] == '[';
    assert s[i + 1..i + 1 + |jail|] == jail;
    SearchAt(s, j => JailAt(s, j), i);
  }

  /** A held run of spaces that a non-space follows is the whole run of `\s` at its position. */
  lemma SpaceRunAt(line: string, i: nat, spaces: string)
    requires HoldsAt(line, i, spaces) && forall k :: 0 <= k < |spaces| ==> IsSpace(spaces[k])
    requires i + |spaces| < |line| && !IsSpace(line[i + |spaces|])
    ensures Run(line, i, IsSpace) == |spaces|
  {
    forall k | i <= k < i + |spaces| ensures IsSpace(line[k]) {
      HoldsAtChar(line, i, spaces, k - i);
    }
    RunExact(line, i, IsSpace, |spaces|);
  }

  /** A held quad starts with a digit. */
  lemma QuadStartsWithDigit(line: string, j: nat, n: nat)
    requires n < Utils.AddressSpace && HoldsAt(line, j, Utils.FormatIPv4(n))
    ensures j < |line| && IsDigit(line[j])
  {
    QuadParts(line, j, n);
    Utils.FormatShape(n);
    HoldsAtChar(line, j, Utils.Parts(n)[0] + ".", 0);
  }

  /** After the word and its run of spaces, the match is the address matcher's at the first non-space. */
  lemma WordThenSpaces(line: string, word: string, i: nat, spaces: string)
    requires HoldsAt(line, i, word) && Boundary(line, i)
    requires spaces != [] && HoldsAt(line, i + |word|, spaces) && forall k :: 0 <= k < |spaces| ==> IsSpace(spaces[k])
    requires i + |word| + |spaces| < |line| && !IsSpace(line[i + |word| + |spaces|])
    ensures WordThenIpAt(line, word, i) == WordIpAt(line, i + |word| + |spaces|)
  {
    SpaceRunAt(line, i + |word|, spaces);
    var r := WordThenIpAt(line, word, i);
    var w := Run(line, i + |word|, IsSpace);
    assert r == (if w >= 1 then WordIpAt(line, i + |word| + w) else None);
  }

  /** `\b<word>\s+<ip>\b` matches where the line holds the word, a run of spaces and a quad. */
  lemma WordThenQuad(line: string, i: nat, word: string, spaces: string, n: nat)
    requires HoldsAt(line, i, word) && Boundary(line, i)
    requires spaces != [] && HoldsAt(line, i + |word|, spaces) && forall k :: 0 <= k < |spaces| ==> IsSpace(spaces[k])
    requires n < Utils.AddressSpace
    requires var j := i + |word| + |spaces|; var ip := Utils.FormatIPv4(n);
      HoldsAt(line, j, ip) && (j + |ip| == |line| || !IsWordChar(line[j + |ip|]))
    ensures WordThenIpAt(line, word, i) == Some(Utils.FormatIPv4(n))
  {
    var j := i + |word| + |spaces|;
    QuadStartsWithDigit(line, j, n);
    WordThenSpaces(line, word, i, spaces);
    WordIpAtQuad(line, j, n);
  }

  lemma NoWordMatchBefore(line: string, word: string, i: nat)
    requires |word| >= 1 && forall k :: 0 <= k < i && k < |line| ==> line[k] != word[0]
    ensures forall k :: 0 <= k < i ==> WordThenIpAt(line, word, k).None?
  {
    forall k | 0 <= k < i ensures WordThenIpAt(line, word, k).None? {
      if WordThenIpAt(line, word, k).Some? {
        WordMatchStartsWithWord(line, word, k);
      }
    }
  }

  /** A `Ban <address>` with no `B` before it is the ban the line reports, whatever follows. */
  lemma BanOfLine(line: string, i: nat, spaces: string, n: nat)
    requires forall k :: 0 <= k < i && k < |line| ==> line[k] != 'B'
    requires HoldsAt(line, i, "Ban") && Boundary(line, i)
    requires spaces != [] && HoldsAt(line, i + 3, spaces) && forall k :: 0 <= k < |spaces| ==> IsSpace(spaces[k])
    requires n < Utils.AddressSpace
    requires var j := i + 3 + |spaces|; var ip := Utils.FormatIPv4(n);
      HoldsAt(line, j, ip) && (j + |ip| == |line| || !IsWordChar(line[j + |ip|]))
    ensures ParseF2bLine(line) == Some((Utils.FormatIPv4(n), Ban, JailOf(line)))
  {
    NoWordMatchBefore(line, "Ban", i);
    WordThenQuad(line, i, "Ban", spaces, n);
    SearchAt(line, j => WordThenIpAt(line, "Ban", j), i);
    Utils.ParseFormat(n);
  }

  /** Only the first dotted quad of an auth line counts: when it is not a valid address the line is dropped. */
  lemma FirstQuadDecides(line: string, j: nat)
    requires j <= |line| && IpAt(line, j).Some? && !Utils.IpPlausibleIPv4(IpAt(line, j).value)
    requires forall k :: 0 <= k < j ==> IpAt(line, k).None?
    ensures ParseSshLine(line) == None
  {
    SearchAt(line, k => IpAt(line, k), j);
  }

  /** The sample fail2ban line of the source's comment, `[1234]` being the process id and `[sshd]` the jail. */
  const SampleBanLine := "2026-01-29 12:34:56,789 " + "fail2ban.actions " + "[1234]: " + "NOTICE [sshd] " + "Ban 1.2.3.4"

  /** In the sample line the first bracket token is the process id, so the jail is `1234`, not `sshd`. */
  lemma SampleLineJail()
    ensures JailOf(SampleBanLine) == "1234"
  {
    var pre := "2026-01-29 12:34:56,789 " + "fail2ban.actions ";
    assert '[' !in "2026-01-29 12:34:56,789 " && '[' !in "fail2ban.actions ";
    assert SampleBanLine == pre + "[" + "1234" + "]" + (": " + "NOTICE [sshd] " + "Ban 1.2.3.4");
    FirstBracketIsJail(pre, "1234", ": " + "NOTICE [sshd] " + "Ban 1.2.3.4");
  }

  lemma SampleNoEarlierB()
    ensures forall k :: 0 <= k < 63 ==> SampleBanLine[k] != 'B'
  {
    var pre := "2026-01-29 12:34:56,789 " + "fail2ban.actions " + "[1234]: " + "NOTICE [sshd] ";
    assert 'B' !in "2026-01-29 12:34:56,789 " && 'B' !in "fail2ban.actions ";
    assert 'B' !in "[1234]: " && 'B' !in "NOTICE [sshd] ";
    assert |pre| == 63 && 'B' !in pre;
    assert SampleBanLine == pre + "Ban 1.2.3.4";
    forall k | 0 <= k < 63 ensures SampleBanLine[k] != 'B' {
      assert SampleBanLine[k] == pre[k];
    }
  }

  lemma SampleAddress()
    ensures Utils.FormatIPv4(0x0102_0304) == "1.2.3.4"
  {
    assert Utils.OctetsOf(0x0102_0304) == [1, 2, 3, 4];
    assert NatToStr(1) == "1" && NatToStr(2) == "2" && NatToStr(3) == "3" && NatToStr(4) == "4";
    assert Join(["1", "2", "3", "4"], ".") == "1.2.3.4";
  }

  lemma SampleBanPieces()
    ensures HoldsAt(SampleBanLine, 63, "Ban") && Boundary(SampleBanLine, 63)
    ensures HoldsAt(SampleBanLine, 66, " ") && HoldsAt(SampleBanLine, 67, "1.2.3.4") && |SampleBanLine| == 74
  {
    var pre := "2026-01-29 12:34:56,789 " + "fail2ban.actions " + "[1234]: " + "NOTICE [sshd] ";
    var s := SampleBanLine;
    assert |pre| == 63 && pre[62] == ' ';
    assert s == pre + "Ban 1.2.3.4";
    assert s[62] == ' ' && s[63] == 'B';
    assert s[63..66] == "Ban";
    assert s[66..67] == " ";
    assert s[67..74] == "1.2.3.4";
  }

  /** The sample line is a ban of 1.2.3.4 in jail `1234`. */
  lemma SampleLineParse()
    ensures ParseF2bLine(SampleBanLine) == Some(("1.2.3.4", Ban, "1234"))
  {
    SampleLineJail();
    SampleNoEarlierB();
    SampleBanPieces();
    SampleAddress();
    BanOfLine(SampleBanLine, 63, " ", 0x0102_0304);
  }
}
