/**
 * utils.py: clamping, IPv4 literal validation, masking an address to its CIDR
 * network (section 3.1 of RFC 4632), digit grouping and the placeholder of the
 * timestamp formatter.
 *
 * IPv4 literals follow Python's `ipaddress` (3.9.5 and later): exactly four
 * `.`-separated parts, each 1 to 3 ASCII digits, no leading zero except `0`
 * itself, value at most 255. Addresses are the integers below 2^32.
 */
module Utils {
  import opened Wrappers
  import opened Text

  const AddressSpace: nat := 0x1_0000_0000

  /** `clamp(n, lo, hi)`. */
  function Clamp(n: int, lo: int, hi: int): (r: int)
    ensures n < lo ==> r == lo
    ensures lo <= n && hi < n ==> r == hi
    ensures lo <= n <= hi ==> r == n
    ensures lo <= hi ==> lo <= r <= hi
  {
    if n < lo then lo else if n > hi then hi else n
  }

  /** A clamped value is a fixed point of the same clamp. */
  lemma ClampIdempotent(n: int, lo: int, hi: int)
    requires lo <= hi
    ensures Clamp(Clamp(n, lo, hi), lo, hi) == Clamp(n, lo, hi)
  {
  }

  function Pow2(k: nat): (r: nat)
    ensures r >= 1
  {
    if k == 0 then 1 else 2 * Pow2(k - 1)
  }

  // ---------------------------------------------------------------- IPv4 literals

  /** One part of a dotted quad, as `ipaddress` accepts it. */
  function ParseOctet(s: string): (r: Option<nat>)
    ensures r.Some? ==> r.value < 256
  {
    if |s| == 0 || |s| > 3 || !(forall i :: 0 <= i < |s| ==> IsDigit(s[i])) then None
    else if s != "0" && s[0] == '0' then None
    else if DigitsValue(s) > 255 then None
    else Some(DigitsValue(s))
  }

  /** Value of four octets, most significant first. */
  function ValueOf(a: nat, b: nat, c: nat, d: nat): nat {
    ((a * 256 + b) * 256 + c) * 256 + d
  }

  function OctetsOf(n: nat): seq<nat> {
    [n / 256 / 256 / 256, n / 256 / 256 % 256, n / 256 % 256, n % 256]
  }

  /** `ipaddress.IPv4Address(s)`: the address a dotted-quad literal denotes, `None` where it raises. */
  function ParseIPv4(s: string): (r: Option<nat>)
    ensures r.Some? ==> r.value < AddressSpace
  {
    var parts := SplitOn(s, '.');
    if |parts| != 4 then None
    else match (ParseOctet(parts[0]), ParseOctet(parts[1]), ParseOctet(parts[2]), ParseOctet(parts[3]))
      case (Some(a), Some(b), Some(c), Some(d)) => OctetsRoundTrip(a, b, c, d); Some(ValueOf(a, b, c, d))
      case _ => None
  }

  /** `str(IPv4Address(n))`. */
  function FormatIPv4(n: nat): string
    requires n < AddressSpace
  {
    var o := OctetsOf(n);
    Join([NatToStr(o[0]), NatToStr(o[1]), NatToStr(o[2]), NatToStr(o[3])], ".")
  }

  predicate AllDigits(d: string) {
    forall k :: 0 <= k < |d| ==> IsDigit(d[k])
  }

  /** The four decimal parts of the dotted quad of `n`. */
  function Parts(n: nat): seq<string>
    requires n < AddressSpace
  {
    var o := OctetsOf(n);
    [NatToStr(o[0]), NatToStr(o[1]), NatToStr(o[2]), NatToStr(o[3])]
  }

  /** A dotted quad is four runs of 1 to 3 digits joined by dots. */
  lemma FormatShape(n: nat)
    requires n < AddressSpace
    ensures var ps := Parts(n);
      |ps| == 4 && (forall k :: 0 <= k < 4 ==> 1 <= |ps[k]| <= 3 && AllDigits(ps[k]))
      && FormatIPv4(n) == ps[0] + "." + (ps[1] + "." + (ps[2] + "." + ps[3]))
      && |FormatIPv4(n)| == |ps[0]| + |ps[1]| + |ps[2]| + |ps[3]| + 3
  {
    ValueOfOctets(n);
    var ps := Parts(n);
    assert Join(ps[3..], ".") == ps[3];
    assert Join(ps[2..], ".") == ps[2] + "." + Join(ps[3..], ".");
    assert Join(ps[1..], ".") == ps[1] + "." + Join(ps[2..], ".");
    assert Join(ps, ".") == ps[0] + "." + Join(ps[1..], ".");
  }

  /** `ip_plausible_ipv4(ip)`: `ip_address(ip)` succeeds with version 4; every failure is caught. */
  predicate IpPlausibleIPv4(ip: string) {
    ParseIPv4(ip).Some?
  }

  lemma OctetsRoundTrip(a: nat, b: nat, c: nat, d: nat)
    requires a < 256 && b < 256 && c < 256 && d < 256
    ensures ValueOf(a, b, c, d) < AddressSpace
    ensures OctetsOf(ValueOf(a, b, c, d)) == [a, b, c, d]
  {
    var n := ValueOf(a, b, c, d);
    var q1 := (a * 256 + b) * 256 + c;
    var q2 := a * 256 + b;
    assert n / 256 == q1 && n % 256 == d;
    assert q1 / 256 == q2 && q1 % 256 == c;
    assert q2 / 256 == a && q2 % 256 == b;
  }

  lemma ValueOfOctets(n: nat)
    requires n < AddressSpace
    ensures var o := OctetsOf(n);
      o[0] < 256 && o[1] < 256 && o[2] < 256 && o[3] < 256 && ValueOf(o[0], o[1], o[2], o[3]) == n
  {
    var q1 := n / 256;
    var q2 := q1 / 256;
    var q3 := q2 / 256;
    assert n == q1 * 256 + n % 256;
    assert q1 == q2 * 256 + q1 % 256;
    assert q2 == q3 * 256 + q2 % 256;
    assert q1 < 0x100_0000;
    assert q2 < 0x1_0000;
    assert q3 < 256;
  }

  lemma ParseOctetOfNat(k: nat)
    requires k < 256
    ensures ParseOctet(NatToStr(k)) == Some(k)
  {
    var s := NatToStr(k);
    NatToStrValue(k);
    if |s| == 1 && s[0] == '0' {
      assert s == "0";
    }
  }

  lemma ParseOctetCanonical(s: string)
    requires ParseOctet(s).Some?
    ensures s == NatToStr(ParseOctet(s).value)
  {
    CanonicalDigits(s);
  }

  /** A digit string without a leading zero is the decimal rendering of its value. */
  lemma {:induction false} CanonicalDigits(t: string)
    requires |t| >= 1 && forall i :: 0 <= i < |t| ==> IsDigit(t[i])
    requires |t| == 1 || t[0] != '0'
    ensures NatToStr(DigitsValue(t)) == t
  {
    var v := DigitsValue(t);
    if |t| > 1 {
      var t' := t[..|t| - 1];
      var d := DigitValue(t[|t| - 1]);
      DigitsValueAtLeastFirst(t');
      assert v == DigitsValue(t') * 10 + d;
      assert v / 10 == DigitsValue(t') && v % 10 == d;
      CanonicalDigits(t');
      assert t == t' + [t[|t| - 1]];
    }
  }

  lemma {:induction false} DigitsValueAtLeastFirst(s: string)
    requires |s| >= 1 && forall i :: 0 <= i < |s| ==> IsDigit(s[i])
    ensures DigitsValue(s) >= DigitValue(s[0])
  {
    if |s| > 1 {
      DigitsValueAtLeastFirst(s[..|s| - 1]);
    }
  }

  lemma DigitsHaveNoDot(k: nat)
    ensures '.' !in NatToStr(k) && '/' !in NatToStr(k)
  {
  }

  /** Formatting an address and parsing it back gives the same address. */
  lemma ParseFormat(n: nat)
    requires n < AddressSpace
    ensures ParseIPv4(FormatIPv4(n)) == Some(n)
  {
    var o := OctetsOf(n);
    var parts := [NatToStr(o[0]), NatToStr(o[1]), NatToStr(o[2]), NatToStr(o[3])];
    ValueOfOctets(n);
    DigitsHaveNoDot(o[0]); DigitsHaveNoDot(o[1]); DigitsHaveNoDot(o[2]); DigitsHaveNoDot(o[3]);
    SplitJoin(parts, '.');
    ParseOctetOfNat(o[0]); ParseOctetOfNat(o[1]); ParseOctetOfNat(o[2]); ParseOctetOfNat(o[3]);
  }

  /** A literal that parses is the canonical rendering of its address. */
  lemma FormatParse(s: string)
    requires ParseIPv4(s).Some?
    ensures FormatIPv4(ParseIPv4(s).value) == s
  {
    var parts := SplitOn(s, '.');
    JoinSplit(s, '.');
    ParseOctetCanonical(parts[0]); ParseOctetCanonical(parts[1]);
    ParseOctetCanonical(parts[2]); ParseOctetCanonical(parts[3]);
    var a, b, c, d := ParseOctet(parts[0]).value, ParseOctet(parts[1]).value,
      ParseOctet(parts[2]).value, ParseOctet(parts[3]).value;
    OctetsRoundTrip(a, b, c, d);
    assert parts == [parts[0], parts[1], parts[2], parts[3]];
  }

  /** A string is a plausible IPv4 literal exactly when it is the canonical dotted quad of some address. */
  lemma PlausibleIffCanonical(s: string)
    ensures IpPlausibleIPv4(s) <==> exists n: nat :: n < AddressSpace && FormatIPv4(n) == s
  {
    if IpPlausibleIPv4(s) {
      FormatParse(s);
    }
    if exists n: nat :: n < AddressSpace && FormatIPv4(n) == s {
      var n: nat :| n < AddressSpace && FormatIPv4(n) == s;
      ParseFormat(n);
    }
  }

  // ---------------------------------------------------------------- networks

  /** `n` with its low `k` bits cleared. */
  function ClearLow(n: nat, k: nat): (m: nat)
    ensures m <= n
  {
    if k == 0 then n else 2 * ClearLow(n / 2, k - 1)
  }

  /** The network address of `n` under a `/prefix` mask. */
  function Mask(n: nat, prefix: nat): (m: nat)
    requires prefix <= 32
    ensures m <= n
  {
    ClearLow(n, 32 - prefix)
  }

  /** Size of the address block of a `/prefix` network. */
  function BlockSize(prefix: nat): nat
    requires prefix <= 32
  {
    Pow2(32 - prefix)
  }

  lemma {:induction false} ClearLowBlock(n: nat, k: nat)
    ensures ClearLow(n, k) <= n < ClearLow(n, k) + Pow2(k)
  {
    if k > 0 {
      ClearLowBlock(n / 2, k - 1);
    }
  }

  lemma {:induction false} ClearLowSameBlock(n: nat, x: nat, k: nat)
    requires ClearLow(n, k) <= x < ClearLow(n, k) + Pow2(k)
    ensures ClearLow(x, k) == ClearLow(n, k)
  {
    if k > 0 {
      ClearLowSameBlock(n / 2, x / 2, k - 1);
    }
  }

  /** An address has the same network address as `n` exactly when it lies in `n`'s block. */
  lemma MaskBlock(n: nat, x: nat, prefix: nat)
    requires prefix <= 32
    ensures InBlock(n, Mask(n, prefix), prefix)
    ensures Mask(x, prefix) == Mask(n, prefix) <==> InBlock(x, Mask(n, prefix), prefix)
  {
    ClearLowBlock(n, 32 - prefix);
    ClearLowBlock(x, 32 - prefix);
    if InBlock(x, Mask(n, prefix), prefix) {
      ClearLowSameBlock(n, x, 32 - prefix);
    }
  }

  /** `x` lies in the `/prefix` block that starts at `m`. */
  predicate InBlock(x: nat, m: nat, prefix: nat)
    requires prefix <= 32
  {
    m <= x < m + BlockSize(prefix)
  }

  /** `ip_to_subnet(ip, prefix)`: IPv6 and malformed addresses raise, and so does a prefix outside 0..32. */
  function IpToSubnet(ip: string, prefix: int): (r: Result<string>)
    ensures r.Success? <==> IpPlausibleIPv4(ip) && 0 <= prefix <= 32
  {
    match ParseIPv4(ip)
    case None => Failure("IPv4 only")
    case Some(n) =>
      if 0 <= prefix <= 32 then
        Success(FormatIPv4(Mask(n, prefix)) + "/" + NatToStr(prefix))
      else Failure("invalid prefix")
  }

  /**
   * The text of a successful `ip_to_subnet` is `<network>/<prefix>`: `ip` lies in the
   * network's block, and the addresses of that block are exactly those with the same network.
   */
  lemma IpToSubnetDenotes(ip: string, prefix: int, x: nat)
    requires IpToSubnet(ip, prefix).Success?
    ensures var parts := SplitOn(IpToSubnet(ip, prefix).value, '/');
      |parts| == 2 && parts[1] == NatToStr(prefix) && ParseIPv4(parts[0]).Some?
      && var m := ParseIPv4(parts[0]).value;
      InBlock(ParseIPv4(ip).value, m, prefix)
      && (x < AddressSpace && InBlock(x, m, prefix) <==> x < AddressSpace && Mask(x, prefix) == m)
  {
    var n := ParseIPv4(ip).value;
    var m := Mask(n, prefix);
    MaskBlock(n, x, prefix);
    var addr := FormatIPv4(m);
    FormatHasNoSlash(m);
    DigitsHaveNoDot(prefix);
    SplitJoin([addr, NatToStr(prefix)], '/');
    ParseFormat(m);
  }

  lemma FormatHasNoSlash(n: nat)
    requires n < AddressSpace
    ensures '/' !in FormatIPv4(n)
  {
    var o := OctetsOf(n);
    DigitsHaveNoDot(o[0]); DigitsHaveNoDot(o[1]); DigitsHaveNoDot(o[2]); DigitsHaveNoDot(o[3]);
    JoinAvoids([NatToStr(o[0]), NatToStr(o[1]), NatToStr(o[2]), NatToStr(o[3])], ".", '/');
  }

  /** Taking the subnet of a network address with the same prefix changes nothing. */
  lemma IpToSubnetIdempotent(ip: string, prefix: int)
    requires IpToSubnet(ip, prefix).Success?
    ensures var net := FormatIPv4(Mask(ParseIPv4(ip).value, prefix));
      IpToSubnet(net, prefix) == IpToSubnet(ip, prefix)
  {
    var n := ParseIPv4(ip).value;
    var m := Mask(n, prefix);
    MaskBlock(n, m, prefix);
    ClearLowBlock(m, 32 - prefix);
    ParseFormat(m);
  }

  // ---------------------------------------------------------------- digit grouping

  /** The `,`-grouping of `format(n, ",")` applied to a digit string, with spaces for commas. */
  function Group3(s: string): string
    decreases |s|
  {
    if |s| <= 3 then s else Group3(s[..|s| - 3]) + " " + s[|s| - 3..]
  }

  /** `human_int(n)`: `f"{n:,}"` with every comma replaced by a space. */
  function HumanInt(n: int): string {
    if n < 0 then "-" + Group3(NatToStr(-n)) else Group3(NatToStr(n))
  }

  /** The digit strings of the groups, left to right. */
  function Chunks(s: string): (r: seq<string>)
    ensures |r| >= 1
    decreases |s|
  {
    if |s| <= 3 then [s] else Chunks(s[..|s| - 3]) + [s[|s| - 3..]]
  }

  /** `s` with every `c` deleted. */
  function Without(s: string, c: char): string {
    if s == [] then [] else (if s[0] == c then [] else [s[0]]) + Without(s[1..], c)
  }

  lemma {:induction false} WithoutConcat(a: string, b: string, c: char)
    ensures Without(a + b, c) == Without(a, c) + Without(b, c)
  {
    if a != [] {
      assert (a + b)[0] == a[0];
      assert (a + b)[1..] == a[1..] + b;
      WithoutConcat(a[1..], b, c);
    } else {
      assert a + b == b;
    }
  }

  lemma {:induction false} WithoutAbsent(s: string, c: char)
    requires c !in s
    ensures Without(s, c) == s
  {
    if s != [] {
      WithoutAbsent(s[1..], c);
    }
  }

  lemma {:induction false} Group3IsJoin(s: string)
    ensures Group3(s) == Join(Chunks(s), " ")
    decreases |s|
  {
    if |s| > 3 {
      Group3IsJoin(s[..|s| - 3]);
      JoinSnoc(Chunks(s[..|s| - 3]), s[|s| - 3..], " ");
    }
  }

  lemma {:induction false} ChunksShape(s: string)
    requires |s| >= 1
    ensures var cs := Chunks(s);
      1 <= |cs[0]| <= 3 && (forall i :: 1 <= i < |cs| ==> |cs[i]| == 3)
      && (forall t :: t in cs ==> forall j :: 0 <= j < |t| ==> t[j] in s)
    decreases |s|
  {
    if |s| > 3 {
      ChunksShape(s[..|s| - 3]);
      var cs := Chunks(s[..|s| - 3]);
      forall t | t in cs ensures forall j :: 0 <= j < |t| ==> t[j] in s {
        forall j | 0 <= j < |t| ensures t[j] in s {
          assert t[j] in s[..|s| - 3];
        }
      }
    }
  }

  lemma {:induction false} Group3Digits(s: string)
    requires ' ' !in s
    ensures Without(Group3(s), ' ') == s
    decreases |s|
  {
    if |s| <= 3 {
      WithoutAbsent(s, ' ');
    } else {
      var a := s[..|s| - 3];
      var b := s[|s| - 3..];
      assert s == a + b;
      assert ' ' !in a && ' ' !in b by {
        forall j | 0 <= j < |a| ensures a[j] != ' ' { assert a[j] == s[j]; }
        forall j | 0 <= j < |b| ensures b[j] != ' ' { assert b[j] == s[|s| - 3 + j]; }
      }
      var g := Group3(a);
      Group3Digits(a);
      WithoutConcat(g + " ", b, ' ');
      WithoutConcat(g, " ", ' ');
      WithoutAbsent(b, ' ');
      assert Without(" ", ' ') == [];
      calc {
        Without(Group3(s), ' ');
        Without(g + " " + b, ' ');
        Without(g + " ", ' ') + Without(b, ' ');
        Without(g, ' ') + Without(" ", ' ') + b;
        a + b;
      }
    }
  }

  lemma NoSpaceInDigits(n: nat)
    ensures ' ' !in NatToStr(n)
  {
  }

  /** Deleting the spaces from `human_int(n)` gives `str(n)`. */
  lemma HumanIntDigits(n: int)
    ensures Without(HumanInt(n), ' ') == IntToStr(n)
  {
    if n < 0 {
      NoSpaceInDigits(-n);
      Group3Digits(NatToStr(-n));
      WithoutConcat("-", Group3(NatToStr(-n)), ' ');
    } else {
      NoSpaceInDigits(n);
      Group3Digits(NatToStr(n));
    }
  }

  /** The space-separated groups of `human_int(n)`, n >= 0, are digit runs: 1 to 3 digits, then exactly 3 each. */
  lemma HumanIntGroups(n: nat)
    ensures var gs := SplitOn(HumanInt(n), ' ');
      1 <= |gs[0]| <= 3 && (forall i :: 1 <= i < |gs| ==> |gs[i]| == 3)
      && (forall t :: t in gs ==> forall j :: 0 <= j < |t| ==> IsDigit(t[j]))
  {
    var s := NatToStr(n);
    NoSpaceInDigits(n);
    Group3IsJoin(s);
    ChunksShape(s);
    var cs := Chunks(s);
    forall t | t in cs ensures ' ' !in t {
      forall j | 0 <= j < |t| ensures t[j] != ' ' {
        assert t[j] in s;
      }
    }
    SplitJoin(cs, ' ');
    forall t | t in cs ensures forall j :: 0 <= j < |t| ==> IsDigit(t[j]) {
      forall j | 0 <= j < |t| ensures IsDigit(t[j]) {
        assert t[j] in s;
        var k :| 0 <= k < |s| && s[k] == t[j];
      }
    }
  }

  // ---------------------------------------------------------------- timestamps

  /**
   * `fmt_epoch_utc(ts)` as written. `render` stands for the `datetime` formatting,
   * `None` where it raises (then the source falls back to `str(ts)`).
   */
  function FmtEpochUtcAsWritten(ts: Option<int>, render: int -> Option<string>): (r: string)
    ensures ts.None? ==> r == "\U{e2}\U{20ac}\U{201d}"
  {
    match ts
    case None => "\U{e2}\U{20ac}\U{201d}"
    case Some(t) => render(t).GetOr(IntToStr(t))
  }

  /** The placeholder as written is three characters (the UTF-8 bytes of an em dash read as cp1252), not one dash. */
  lemma PlaceholderIsMojibake(render: int -> Option<string>)
    ensures |FmtEpochUtcAsWritten(None, render)| == 3
    ensures FmtEpochUtcAsWritten(None, render) != "\U{2014}"
  {
  }

  /** `fmt_epoch_utc(ts)` with the em dash placeholder evidently meant. */
  function FmtEpochUtc(ts: Option<int>, render: int -> Option<string>): (r: string)
    ensures ts.None? ==> r == "\U{2014}" && |r| == 1
    ensures ts.Some? && render(ts.value).None? ==> r == IntToStr(ts.value)
  {
    match ts
    case None => "\U{2014}"
    case Some(t) => render(t).GetOr(IntToStr(t))
  }
}
