/** From a client address, as text, to the rate-limit bucket it counts against. */
module ClientIp {
  import opened Text
  import opened Wrappers

  const UNKNOWN_IP_BUCKET := "unknown"
  const IPV6_BUCKET_SUFFIX := "/64"

  /** One 16-bit group of an address. */
  type Hextet = n: nat | n < 0x1_0000

  type Groups = seq<Hextet>

  // ── reading ──────────────────────────────────────────────────────────────

  /** A decimal from 0 to 255 without a leading zero. */
  predicate IsOctet(s: string) {
    1 <= |s| <= 3 && IsNumeral(s, 10) && (|s| > 1 ==> s[0] != '0') && Value(s, 10) <= 255
  }

  predicate IsIpv4(s: string) {
    var octets := Split(s, '.');
    |octets| == 4 && forall octet :: octet in octets ==> IsOctet(octet)
  }

  predicate IsHextetText(s: string) {
    1 <= |s| <= 4 && IsNumeral(s, 16)
  }

  /** Up to four hexadecimal digits make a value of up to 0xffff. */
  lemma {:induction false} HextetTextFits(s: string)
    requires IsHextetText(s)
    ensures Value(s, 16) < if |s| == 1 then 0x10 else if |s| == 2 then 0x100 else if |s| == 3 then 0x1000 else 0x1_0000
  {
    var init := s[..|s| - 1];
    assert s[|s| - 1] in s;
    if |s| > 1 {
      assert forall c :: c in init ==> c in s;
      HextetTextFits(init);
    }
  }

  function Octet(s: string): (n: nat)
    requires IsOctet(s)
    ensures n < 256
  {
    Value(s, 10)
  }

  function GroupOf(high: nat, low: nat): Hextet
    requires high < 256 && low < 256
  {
    high * 256 + low
  }

  /** The two groups that four octets make. */
  function QuadGroups(octets: seq<string>): (groups: Groups)
    requires |octets| == 4 && forall octet :: octet in octets ==> IsOctet(octet)
    ensures |groups| == 2
  {
    assert octets[0] in octets && octets[1] in octets && octets[2] in octets && octets[3] in octets;
    [GroupOf(Octet(octets[0]), Octet(octets[1])), GroupOf(Octet(octets[2]), Octet(octets[3]))]
  }

  /** The groups one part stands for: a hextet is one, a dotted quad is two. */
  function PartGroups(part: string, quadAllowed: bool): Option<Groups> {
    if '.' in part then
      if quadAllowed && IsIpv4(part) then Some(QuadGroups(Split(part, '.'))) else None
    else if IsHextetText(part) then
      HextetTextFits(part);
      Some([Value(part, 16)])
    else None
  }

  function Prepend(groups: Groups, rest: Option<Groups>): Option<Groups> {
    if rest.None? then None else Some(groups + rest.value)
  }

  /** The groups of a list of parts, where only the last may be a dotted quad. */
  function PartsGroups(parts: seq<string>, quadAllowed: bool): Option<Groups> {
    if parts == [] then Some([])
    else
      var first, rest := PartGroups(parts[0], |parts| == 1 && quadAllowed), PartsGroups(parts[1..], quadAllowed);
      if first.None? then None else Prepend(first.value, rest)
  }

  lemma PrependNothing(rest: Option<Groups>)
    ensures Prepend([], rest) == rest
  {
    if rest.Some? {
      assert [] + rest.value == rest.value;
    }
  }

  lemma PrependTwice(a: Groups, b: Groups, rest: Option<Groups>)
    ensures Prepend(a, Prepend(b, rest)) == Prepend(a + b, rest)
  {
    if rest.Some? {
      assert a + (b + rest.value) == (a + b) + rest.value;
    }
  }

  function AtMostEight(groups: Option<Groups>): Option<Groups> {
    if groups.Some? && |groups.value| > 8 then None else groups
  }

  /** The parts, read one after the other. */
  method ToGroups(parts: seq<string>, allowIpv4Tail: bool) returns (r: Option<Groups>)
    ensures r == AtMostEight(PartsGroups(parts, allowIpv4Tail))
  {
    var groups: Groups := [];
    assert parts[0..] == parts;
    PrependNothing(PartsGroups(parts, allowIpv4Tail));
    for i := 0 to |parts|
      invariant PartsGroups(parts, allowIpv4Tail) == Prepend(groups, PartsGroups(parts[i..], allowIpv4Tail))
    {
      var part := parts[i];
      var isLast := i == |parts| - 1;
      assert parts[i..][0] == part && parts[i..][1..] == parts[i + 1..];
      ghost var rest := PartsGroups(parts[i + 1..], allowIpv4Tail);
      if PartGroups(part, isLast && allowIpv4Tail).Some? {
        PrependTwice(groups, PartGroups(part, isLast && allowIpv4Tail).value, rest);
      }
      if '.' in part {
        if !isLast || !allowIpv4Tail || !IsIpv4(part) {
          return None;
        }
        var octets := Split(part, '.');
        assert forall k :: 0 <= k < 4 ==> octets[k] in octets;
        var a, b, c, d := Octet(octets[0]), Octet(octets[1]), Octet(octets[2]), Octet(octets[3]);
        groups := groups + [GroupOf(a, b), GroupOf(c, d)];
      } else {
        if !IsHextetText(part) {
          return None;
        }
        HextetTextFits(part);
        var group: Hextet := Value(part, 16);
        groups := groups + [group];
      }
    }
    assert groups + [] == groups;
    return if |groups| > 8 then None else Some(groups);
  }

  function Parts(s: string): seq<string> {
    if s == "" then [] else Split(s, ':')
  }

  function Zeros(n: nat): (r: Groups)
    ensures |r| == n && forall i :: 0 <= i < n ==> r[i] == 0
  {
    seq(n, i => 0)
  }

  /** What stands before and after `::`, with one zero group or more between. */
  function ParseAround(head: string, tail: string): (r: Option<Groups>)
    ensures r.Some? ==> |r.value| == 8
  {
    var headGroups := AtMostEight(PartsGroups(Parts(head), false));
    var tailGroups := AtMostEight(PartsGroups(Parts(tail), true));
    if headGroups.None? || tailGroups.None? then None
    else
      var omitted := 8 - |headGroups.value| - |tailGroups.value|;
      if omitted < 1 then None else Some(headGroups.value + Zeros(omitted) + tailGroups.value)
  }

  /** The eight groups an IPv6 literal denotes, if it is one. */
  function ParseIpv6(input: string): (r: Option<Groups>)
    ensures r.Some? ==> |r.value| == 8
  {
    if ':' !in input then None
    else
      var doubleColon := IndexOf(input, "::", 0);
      if doubleColon.None? then
        var groups := AtMostEight(PartsGroups(Parts(input), true));
        if groups.Some? && |groups.value| == 8 then groups else None
      else if IndexOf(input, "::", doubleColon.value + 1).Some? then None
      else ParseAround(input[..doubleColon.value], input[doubleColon.value + 2..])
  }

  // ── printing ─────────────────────────────────────────────────────────────

  function Hextets(groups: Groups): seq<string> {
    seq(|groups|, i requires 0 <= i < |groups| => Digits(groups[i], 16))
  }

  /** How many zero groups follow one another from `i` on. */
  function ZerosFrom(groups: Groups, i: nat): nat
    requires i <= |groups|
    decreases |groups| - i
  {
    if i < |groups| && groups[i] == 0 then 1 + ZerosFrom(groups, i + 1) else 0
  }

  /** Where the longest run of zero groups at or after `i` starts; the first of them if several. */
  function LongestFrom(groups: Groups, i: nat): (start: nat)
    requires i <= |groups|
    ensures i <= start <= |groups|
    decreases |groups| - i
  {
    if i == |groups| then i
    else
      var later := LongestFrom(groups, i + 1);
      if ZerosFrom(groups, i) >= ZerosFrom(groups, later) then i else later
  }

  predicate AllZero(groups: Groups, from: nat, to: nat) {
    from <= to <= |groups| && forall i :: from <= i < to ==> groups[i] == 0
  }

  /** `length` zero groups at `start`: no run before `upto` is longer, and none as long starts earlier. */
  ghost predicate IsFirstLongestRun(groups: Groups, upto: nat, start: nat, length: nat) {
    && start + length <= upto
    && AllZero(groups, start, start + length)
    && forall from: nat, to: nat :: to <= upto && AllZero(groups, from, to) ==>
                                      to - from <= length && (to - from == length ==> start <= from)
  }

  /** The text of an address whose zero groups at `start` are written `::`. */
  function Compressed(groups: Groups, start: nat, length: nat): string
    requires start + length <= |groups|
  {
    Join(Hextets(groups[..start]), ':') + "::" + Join(Hextets(groups[start + length..]), ':')
  }

  /** The text form of an address: its first longest run of two or more zero groups becomes `::`. */
  function Format(groups: Groups): string {
    var start := LongestFrom(groups, 0);
    ZerosFromIsRun(groups, start);
    var length := ZerosFrom(groups, start);
    if length < 2 then Join(Hextets(groups), ':') else Compressed(groups, start, length)
  }

  lemma {:induction false} ZerosFromIsRun(groups: Groups, i: nat)
    requires i <= |groups|
    ensures AllZero(groups, i, i + ZerosFrom(groups, i))
    ensures forall to: nat :: AllZero(groups, i, to) ==> to <= i + ZerosFrom(groups, i)
    decreases |groups| - i
  {
    if i < |groups| && groups[i] == 0 {
      ZerosFromIsRun(groups, i + 1);
      forall to: nat | AllZero(groups, i, to) ensures to <= i + ZerosFrom(groups, i) {
        assert to > i ==> AllZero(groups, i + 1, to);
      }
    }
  }

  lemma {:induction false} LongestFromIsFirst(groups: Groups, i: nat)
    requires i <= |groups|
    ensures var start := LongestFrom(groups, i);
            forall k: nat :: i <= k <= |groups| ==>
              && ZerosFrom(groups, k) <= ZerosFrom(groups, start)
              && (k < start ==> ZerosFrom(groups, k) < ZerosFrom(groups, start))
    decreases |groups| - i
  {
    if i < |groups| {
      LongestFromIsFirst(groups, i + 1);
    }
  }

  /** What `Format` compresses is exactly the first longest run. */
  lemma FormatCompressesFirstLongestRun(groups: Groups)
    ensures var start := LongestFrom(groups, 0);
            IsFirstLongestRun(groups, |groups|, start, ZerosFrom(groups, start))
  {
    var start := LongestFrom(groups, 0);
    ZerosFromIsRun(groups, start);
    LongestFromIsFirst(groups, 0);
    forall from: nat, to: nat | to <= |groups| && AllZero(groups, from, to)
      ensures to - from <= ZerosFrom(groups, start) && (to - from == ZerosFrom(groups, start) ==> start <= from)
    {
      ZerosFromIsRun(groups, from);
    }
  }

  lemma FirstLongestRunIsUnique(groups: Groups, s: nat, n: nat, s': nat, n': nat)
    requires IsFirstLongestRun(groups, |groups|, s, n) && IsFirstLongestRun(groups, |groups|, s', n')
    ensures s == s' && n == n'
  {
    assert AllZero(groups, s, s + n) && AllZero(groups, s', s' + n');
  }

  /** After `upto` groups: the first longest run so far, and the length of the run that ends there. */
  ghost predicate Scanned(groups: Groups, upto: nat, start: nat, length: nat, runLength: nat) {
    && runLength <= upto <= |groups|
    && AllZero(groups, upto - runLength, upto)
    && (runLength < upto ==> groups[upto - runLength - 1] != 0)
    && runLength <= length
    && IsFirstLongestRun(groups, upto, start, length)
  }

  lemma ScanStep(groups: Groups, i: nat, start: nat, length: nat, runLength: nat)
    requires i < |groups| && Scanned(groups, i, start, length, runLength)
    ensures groups[i] != 0 ==> Scanned(groups, i + 1, start, length, 0)
    ensures groups[i] == 0 && runLength + 1 <= length ==> Scanned(groups, i + 1, start, length, runLength + 1)
    ensures groups[i] == 0 && runLength + 1 > length ==>
            Scanned(groups, i + 1, i - runLength, runLength + 1, runLength + 1)
  {
  }

  lemma ScanEnd(groups: Groups, start: nat, length: nat, runLength: nat)
    requires Scanned(groups, |groups|, start, length, runLength)
    ensures start == LongestFrom(groups, 0) && length == ZerosFrom(groups, start)
  {
    var longest := LongestFrom(groups, 0);
    FormatCompressesFirstLongestRun(groups);
    FirstLongestRunIsUnique(groups, start, length, longest, ZerosFrom(groups, longest));
  }

  /** The printer's scan: the best run so far, beside the run being read. */
  method FormatIpv6(groups: Groups) returns (text: string)
    ensures text == Format(groups)
  {
    var bestStart, bestLength, runStart, runLength := -1, 0, -1, 0;
    for i := 0 to |groups|
      invariant 0 <= runLength <= i && (runStart == if runLength == 0 then -1 else i - runLength)
      invariant bestLength >= 0 && bestStart >= -1 && (bestStart == -1 <==> bestLength == 0)
      invariant Scanned(groups, i, if bestLength == 0 then 0 else bestStart, bestLength, runLength)
    {
      ScanStep(groups, i, if bestLength == 0 then 0 else bestStart, bestLength, runLength);
      if groups[i] != 0 {
        runStart, runLength := -1, 0;
        continue;
      }
      if runStart == -1 {
        runStart := i;
      }
      runLength := runLength + 1;
      if runLength > bestLength {
        bestStart, bestLength := runStart, runLength;
      }
    }
    ScanEnd(groups, if bestLength == 0 then 0 else bestStart, bestLength, runLength);
    var hextets := Hextets(groups);
    if bestLength < 2 {
      return Join(hextets, ':');
    }
    assert hextets[..bestStart] == Hextets(groups[..bestStart]);
    assert hextets[bestStart + bestLength..] == Hextets(groups[bestStart + bestLength..]);
    return Join(hextets[..bestStart], ':') + "::" + Join(hextets[bestStart + bestLength..], ':');
  }

  // ── the bucket ───────────────────────────────────────────────────────────

  predicate IsMapped(groups: Groups) {
    |groups| == 8 && groups[..6] == [0, 0, 0, 0, 0, 0xffff]
  }

  /** The IPv4 address in the last two groups. */
  function DottedQuad(high: Hextet, low: Hextet): string {
    Join([Digits(high / 256, 10), Digits(high % 256, 10), Digits(low / 256, 10), Digits(low % 256, 10)], '.')
  }

  predicate IsWhiteSpace(c: char) {
    || '\t' <= c <= '\r' || c == ' ' || c == '\U{A0}' || c == '\U{1680}' || '\U{2000}' <= c <= '\U{200A}'
    || c == '\U{2028}' || c == '\U{2029}' || c == '\U{202F}' || c == '\U{205F}' || c == '\U{3000}' || c == '\U{FEFF}'
  }

  function Trim(s: string): string {
    if s == "" then s
    else if IsWhiteSpace(s[0]) then Trim(s[1..])
    else if IsWhiteSpace(s[|s| - 1]) then Trim(s[..|s| - 1])
    else s
  }

  function LowerCharacter(c: char): char {
    if 'A' <= c <= 'Z' then 'a' + (c - 'A') else c
  }

  function Lower(s: string): string {
    seq(|s|, i requires 0 <= i < |s| => LowerCharacter(s[i]))
  }

  predicate IsDecimal(s: string, longest: nat) {
    1 <= |s| <= longest && IsNumeral(s, 10)
  }

  /** The inside of `[…]`, with or without a port behind it. */
  function Bracketed(s: string): Option<string> {
    if s == "" || s[0] != '[' then None
    else
      var close := IndexOf(s, "]", 1);
      if close.None? || close.value == 1 then None
      else
        var port := s[close.value + 1..];
        if port == "" || (port[0] == ':' && IsDecimal(port[1..], 5)) then Some(s[1..close.value]) else None
  }

  /** What stands before `:port`, where that can only be four decimals. */
  function BeforePort(s: string): Option<string> {
    var sides := Split(s, ':');
    if |sides| == 2 && IsDecimal(sides[1], 5) && |Split(sides[0], '.')| == 4
       && forall octet :: octet in Split(sides[0], '.') ==> IsDecimal(octet, 3)
    then Some(sides[0]) else None
  }

  /** The address without brackets, port and zone. */
  function StripEnvelope(s: string): string {
    var address :=
      if Bracketed(s).Some? then Bracketed(s).value
      else if BeforePort(s).Some? then BeforePort(s).value
      else s;
    var zone := IndexOf(address, "%", 0);
    if zone.None? then address else address[..zone.value]
  }

  /** The bucket of an address without its envelope. */
  function AddressKey(address: string): string {
    if IsIpv4(address) then address
    else
      var groups := ParseIpv6(Lower(address));
      if groups.None? then UNKNOWN_IP_BUCKET
      else if IsMapped(groups.value) then DottedQuad(groups.value[6], groups.value[7])
      else Format(groups.value[..4] + Zeros(4)) + IPV6_BUCKET_SUFFIX
  }

  /** The bucket of whatever the framework resolved; `None` stands for a missing value. */
  function ClientIpKey(raw: Option<string>): string {
    var trimmed := if raw.Some? then Trim(raw.value) else "";
    if trimmed == "" then UNKNOWN_IP_BUCKET else AddressKey(StripEnvelope(trimmed))
  }
}
