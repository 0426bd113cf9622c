/** Which client addresses share a rate-limit bucket. */
module ClientIpBuckets {
  import opened AddressGrammar
  import opened AddressTexts
  import opened ClientIp
  import opened Text
  import opened Wrappers

  // ── the bucket of an address ─────────────────────────────────────────────

  function Prefix(groups: Groups): Groups
    requires |groups| == 8
  {
    groups[..4]
  }

  lemma ParseableIsNotIpv4(s: string)
    requires ParseIpv6(Lower(s)).Some?
    ensures !IsIpv4(s) && s != ""
  {
    assert ':' in Lower(s);
    var i :| 0 <= i < |s| && Lower(s)[i] == ':';
    assert s[i] == ':' && s[i] in s;
    if IsIpv4(s) {
      Ipv4Characters(s);
      assert false;
    }
  }

  lemma MappedIsIpv4InIpv6(groups: Groups)
    ensures IsMapped(groups) <==> IsIpv4InIpv6(groups)
  {
    if IsIpv4InIpv6(groups) {
      assert groups[..6] == [0, 0, 0, 0, 0, 0xffff];
    } else if |groups| == 8 && groups[..6] == [0, 0, 0, 0, 0, 0xffff] {
      assert forall i :: 0 <= i < 6 ==> groups[i] == [0, 0, 0, 0, 0, 0xffff][i];
    }
  }

  lemma KeyOfText(a: string, groups: Groups)
    requires IsTextOf(Lower(a), groups)
    ensures |groups| == 8
    ensures AddressKey(a) ==
            if IsIpv4InIpv6(groups) then DottedQuad(groups[6], groups[7])
            else Format(Prefix(groups) + [0, 0, 0, 0]) + "/64"
  {
    ParseIsExact(Lower(a), groups);
    ParseableIsNotIpv4(a);
    MappedIsIpv4InIpv6(groups);
    assert Zeros(4) == [0, 0, 0, 0];
  }

  /**
   * Any spelling of one IPv6 address and any spelling of another get one bucket exactly when the first four
   * groups agree.
   */
  lemma AddressBucketsByPrefix(a: string, g: Groups, b: string, h: Groups)
    requires IsTextOf(Lower(a), g) && !IsIpv4InIpv6(g)
    requires IsTextOf(Lower(b), h) && !IsIpv4InIpv6(h)
    ensures |g| == |h| == 8
    ensures AddressKey(a) == AddressKey(b) <==> g[..4] == h[..4]
  {
    KeyOfText(a, g);
    KeyOfText(b, h);
    BucketsOfPrefixes(Prefix(g), Prefix(h));
  }

  lemma BucketsOfPrefixes(p: Groups, q: Groups)
    requires |p| == 4 && |q| == 4
    ensures Format(p + [0, 0, 0, 0]) + "/64" == Format(q + [0, 0, 0, 0]) + "/64" <==> p == q
  {
    var a, b := p + [0, 0, 0, 0], q + [0, 0, 0, 0];
    FormatIsInjective(a, b);
    assert a[..4] == p && b[..4] == q;
    assert (Format(a) + "/64")[..|Format(a)|] == Format(a);
    assert (Format(b) + "/64")[..|Format(b)|] == Format(b);
  }

  /** An IPv4-mapped address counts against the bucket of its IPv4 address. */
  lemma MappedKeyIsIpv4(a: string, groups: Groups)
    requires IsTextOf(Lower(a), groups) && IsIpv4InIpv6(groups)
    ensures QuadSpells(AddressKey(a), groups[6], groups[7])
  {
    KeyOfText(a, groups);
    DottedQuadIsRead(groups[6], groups[7]);
    QuadIsExact(AddressKey(a), groups[6], groups[7]);
  }

  lemma MappedTextIsLower(quad: string)
    requires IsIpv4(quad)
    ensures Lower("::ffff:" + quad) == "::ffff:" + quad
  {
    Ipv4Characters(quad);
    var text := "::ffff:" + quad;
    assert forall i :: 7 <= i < |text| ==> text[i] == quad[i - 7] && quad[i - 7] in quad;
  }

  lemma QuadIsItsOwnKey(quad: string)
    requires IsQuad(quad)
    ensures IsIpv4(quad) && AddressKey(quad) == quad
  {
    QuadIsExact(quad, 0, 0);
  }

  lemma QuadIsPrinted(quad: string) returns (high: Hextet, low: Hextet)
    requires IsIpv4(quad)
    ensures QuadSpells(quad, high, low) && DottedQuad(high, low) == quad
  {
    QuadIsPrintedBack(quad);
    var groups := PartGroups(quad, true).value;
    high, low := groups[0], groups[1];
    assert groups == [high, low];
    PartIsExact(quad, true, groups);
  }

  lemma KeyOfMapped(a: string, groups: Groups)
    requires IsTextOf(Lower(a), groups) && IsIpv4InIpv6(groups)
    ensures AddressKey(a) == DottedQuad(groups[6], groups[7])
  {
    KeyOfText(a, groups);
  }

  /** `::ffff:a.b.c.d` and `a.b.c.d` are one client. */
  lemma MappedAddressOfIpv4(quad: string)
    requires IsQuad(quad)
    ensures AddressKey("::ffff:" + quad) == AddressKey(quad) == quad
  {
    QuadIsItsOwnKey(quad);
    MappedTextIsLower(quad);
    var high, low := QuadIsPrinted(quad);
    var groups := MappedTextIsText(quad, high, low);
    KeyOfMapped("::ffff:" + quad, groups);
  }

  lemma PrefixKeyIsItsOwnKind(p: Groups)
    requires |p| == 4
    ensures var key := Format(p + [0, 0, 0, 0]) + "/64"; !IsQuad(key) && key != "unknown"
  {
    var key := Format(p + [0, 0, 0, 0]) + "/64";
    assert key[|key| - 3] == '/' && '/' in key;
    assert '/' !in "unknown";
    QuadIsExact(key, 0, 0);
    if IsIpv4(key) {
      Ipv4Characters(key);
      assert false;
    }
  }

  lemma UnknownIsNoIpv4()
    ensures !IsIpv4("unknown") && !IsIpv4("")
  {
    SplitAtFirst("unknown", "", '.');
  }

  /** The bucket of an address that cannot be read is the shared one, that of an IPv4 address is itself. */
  lemma KeyWithoutText(a: string)
    requires forall groups :: !IsTextOf(Lower(a), groups)
    ensures AddressKey(a) == if IsQuad(a) then a else "unknown"
  {
    QuadIsExact(a, 0, 0);
    if ParseIpv6(Lower(a)).Some? {
      ParseIsExact(Lower(a), ParseIpv6(Lower(a)).value);
    }
  }

  /** No IPv4 address is also a text of an IPv6 one. */
  lemma QuadIsNoText(a: string, groups: Groups)
    requires IsTextOf(Lower(a), groups)
    ensures !IsQuad(a) && a != "unknown"
  {
    ParseIsExact(Lower(a), groups);
    ParseableIsNotIpv4(a);
    QuadIsExact(a, 0, 0);
    UnknownHasNoColon();
  }

  lemma UnknownHasNoColon()
    ensures ParseIpv6(Lower("unknown")).None?
  {
    assert Lower("unknown") == "unknown";
  }

  /** The shared bucket is for exactly the texts that are no address. */
  lemma SharedBucketIffUnreadable(a: string)
    ensures AddressKey(a) == "unknown" <==> !IsQuad(a) && forall groups :: !IsTextOf(Lower(a), groups)
  {
    UnknownIsNoIpv4();
    QuadIsExact("unknown", 0, 0);
    if groups :| IsTextOf(Lower(a), groups) {
      KeyOfText(a, groups);
      DottedQuadIsRead(groups[6], groups[7]);
      PrefixKeyIsItsOwnKind(Prefix(groups));
    } else {
      KeyWithoutText(a);
    }
  }

  /** An IPv4 bucket is for exactly the IPv4 addresses, those written in IPv6 included. */
  lemma Ipv4BucketIffIpv4(a: string)
    ensures IsQuad(AddressKey(a)) <==>
            IsQuad(a) || exists groups :: IsTextOf(Lower(a), groups) && IsIpv4InIpv6(groups)
  {
    UnknownIsNoIpv4();
    QuadIsExact("unknown", 0, 0);
    if groups :| IsTextOf(Lower(a), groups) {
      KeyOfText(a, groups);
      QuadIsNoText(a, groups);
      OneAddressPerText(Lower(a), groups);
      DottedQuadIsRead(groups[6], groups[7]);
      QuadIsExact(DottedQuad(groups[6], groups[7]), groups[6], groups[7]);
      PrefixKeyIsItsOwnKind(Prefix(groups));
    } else {
      KeyWithoutText(a);
    }
  }

  lemma OneAddressPerText(text: string, groups: Groups)
    requires IsTextOf(text, groups)
    ensures forall other :: IsTextOf(text, other) ==> other == groups
  {
    ParseIsExact(text, groups);
    forall other | IsTextOf(text, other)
      ensures other == groups
    {
      ParseIsExact(text, other);
    }
  }

  // ── what an envelope changes ─────────────────────────────────────────────

  lemma TrimKeeps(s: string)
    requires s != "" ==> !IsWhiteSpace(s[0]) && !IsWhiteSpace(s[|s| - 1])
    ensures Trim(s) == s
  {
  }

  lemma CharacterAt(s: string, c: char, k: nat)
    ensures OccursAt(s, [c], k) <==> k < |s| && s[k] == c
  {
    assert k < |s| && s[k] == c ==> s[k..][..1] == [c];
    assert OccursAt(s, [c], k) ==> s[k..][0] == [c][0];
  }

  lemma NoneFound(s: string, c: char)
    requires c !in s
    ensures forall from: nat :: from <= |s| ==> IndexOf(s, [c], from).None?
  {
    forall k: nat ensures !OccursAt(s, [c], k) {
      CharacterAt(s, c, k);
    }
    forall from: nat | from <= |s| ensures IndexOf(s, [c], from).None? {
      IndexOfIsFirst(s, [c], from);
    }
  }

  lemma FoundAt(s: string, c: char, from: nat, at: nat)
    requires from <= at < |s| && s[at] == c && c !in s[from..at]
    ensures IndexOf(s, [c], from) == Some(at)
  {
    CharacterAt(s, c, at);
    forall k: nat | from <= k < at ensures !OccursAt(s, [c], k) {
      CharacterAt(s, c, k);
      assert s[k] == s[from..at][k - from];
    }
    IndexOfIsFirst(s, [c], from);
  }

  /** A character that neither an envelope nor white space is made of. */
  predicate IsPlain(c: char) {
    !IsWhiteSpace(c) && c != '[' && c != ']' && c != '%'
  }

  lemma PlainIfLowerIs(c: char)
    ensures IsAddressCharacter(LowerCharacter(c)) || LowerCharacter(c) == ':' ==> IsPlain(c)
  {
  }

  lemma AddressIsPlain(s: string)
    requires HasAddressCharacters(Lower(s))
    ensures s != "" && forall c :: c in s ==> IsPlain(c)
  {
    forall c | c in s ensures IsPlain(c) {
      var i :| 0 <= i < |s| && s[i] == c;
      assert Lower(s)[i] == LowerCharacter(c) && Lower(s)[i] in Lower(s);
      PlainIfLowerIs(c);
    }
  }

  lemma AddressHasNoPort(s: string)
    requires HasAddressCharacters(Lower(s))
    ensures BeforePort(s).None?
  {
    var i, j :| 0 <= i < j < |s| && Lower(s)[i] == ':' && Lower(s)[j] == ':';
    TwoColonsAreNoPort(s, i, j);
  }

  lemma TwoColonsAreNoPort(s: string, i: nat, j: nat)
    requires i < j < |s| && s[i] == ':' && s[j] == ':'
    ensures BeforePort(s).None?
  {
    OneColonSplitsInTwo(s);
  }

  lemma OneColonSplitsInTwo(s: string)
    ensures |Split(s, ':')| == 2 ==> forall i, j :: 0 <= i < j < |s| && s[i] == ':' ==> s[j] != ':'
  {
    JoinOfSplit(s, ':');
    var sides := Split(s, ':');
    if |sides| == 2 {
      var a, b := sides[0], sides[1];
      assert s == a + [':'] + b;
      assert forall k :: 0 <= k < |a| ==> s[k] == a[k];
      assert forall k :: |a| < k < |s| ==> s[k] == b[k - |a| - 1];
      assert forall k :: 0 <= k < |s| && k != |a| ==> s[k] in a || s[k] in b;
    }
  }

  lemma NothingInEnvelope()
    ensures StripEnvelope("") == ""
  {
  }

  /** The bucket of a text is that of the address in it. */
  lemma KeyIsOfAddress(raw: string)
    ensures ClientIpKey(Some(raw)) == AddressKey(StripEnvelope(Trim(raw)))
  {
    NothingInEnvelope();
    UnknownIsNoIpv4();
  }

  /** An address without an envelope is left alone: an IPv4 one, … */
  lemma Ipv4IsKept(s: string)
    requires IsIpv4(s)
    ensures StripEnvelope(Trim(s)) == s
  {
    Ipv4Characters(s);
    assert s[0] in s && s[|s| - 1] in s;
    TrimKeeps(s);
    SplitAtFirst(s, "", ':');
    NoneFound(s, '%');
  }

  /** … or an IPv6 one. */
  lemma Ipv6IsKept(s: string, groups: Groups)
    requires IsTextOf(Lower(s), groups)
    ensures StripEnvelope(Trim(s)) == s && s != "" && forall c :: c in s ==> IsPlain(c)
  {
    TextCharacters(Lower(s), groups);
    AddressIsPlain(s);
    AddressHasNoPort(s);
    assert s[0] in s && s[|s| - 1] in s;
    TrimKeeps(s);
    NoneFound(s, '%');
  }

  /** A run of decimal digits. */
  predicate AreDecimals(s: string, longest: nat) {
    1 <= |s| <= longest && forall i :: 0 <= i < |s| ==> '0' <= s[i] <= '9'
  }

  lemma DecimalsAre(s: string, longest: nat)
    ensures IsDecimal(s, longest) <==> AreDecimals(s, longest)
  {
    forall i | 0 <= i < |s|
      ensures s[i] in s && (IsDecimalCharacter(s[i]) <==> DigitValue(s[i]) < 10)
    {
      HexDigits(s[i]);
    }
  }

  /** Nothing, or a colon and up to five digits. */
  predicate IsPort(port: string) {
    port == "" || (port[0] == ':' && AreDecimals(port[1..], 5))
  }

  lemma BracketsAreStripped(inside: string, port: string)
    requires inside != "" && ']' !in inside && IsPort(port)
    ensures var raw := "[" + inside + "]" + port; Trim(raw) == raw && Bracketed(raw) == Some(inside)
  {
    var raw := "[" + inside + "]" + port;
    var close := |inside| + 1;
    assert raw[1..close] == inside && raw[close] == ']' && raw[close + 1..] == port;
    assert port != "" ==> port[1..][|port| - 2] in port[1..];
    DecimalsAre(if port == "" then "" else port[1..], 5);
    TrimKeeps(raw);
    FoundAt(raw, ']', 1, close);
  }

  /** What brackets enclose, with nothing but a port behind them. */
  ghost predicate Encloses(s: string, inside: string) {
    inside != "" && ']' !in inside && exists port :: IsPort(port) && s == "[" + inside + "]" + port
  }

  lemma BracketedIsExact(s: string, inside: string)
    ensures Bracketed(s) == Some(inside) <==> Encloses(s, inside)
  {
    if Bracketed(s) == Some(inside) {
      var close := IndexOf(s, "]", 1).value;
      var port := s[close + 1..];
      IndexOfIsFirst(s, "]", 1);
      CharacterAt(s, ']', close);
      forall k | 0 <= k < |inside| ensures inside[k] != ']' {
        CharacterAt(s, ']', k + 1);
      }
      DecimalsAre(if port == "" then "" else port[1..], 5);
      assert IsPort(port) && s == "[" + inside + "]" + port;
    }
    if Encloses(s, inside) {
      var port :| IsPort(port) && s == "[" + inside + "]" + port;
      BracketsAreStripped(inside, port);
    }
  }

  /** Four runs of up to three digits with dots between, whether or not they are octets. */
  predicate AreFourDecimals(s: string, a: string, b: string, c: string, d: string) {
    && AreDecimals(a, 3) && AreDecimals(b, 3) && AreDecimals(c, 3) && AreDecimals(d, 3)
    && s == a + "." + b + "." + c + "." + d
  }

  ghost predicate LooksLikeIpv4(s: string) {
    exists a, b, c, d :: AreFourDecimals(s, a, b, c, d)
  }

  lemma DecimalsHaveNone(s: string, longest: nat, c: char)
    requires AreDecimals(s, longest) && !('0' <= c <= '9')
    ensures c !in s
  {
  }

  lemma FourDecimalsAreSplit(s: string)
    ensures LooksLikeIpv4(s) <==>
            |Split(s, '.')| == 4 && forall octet :: octet in Split(s, '.') ==> IsDecimal(octet, 3)
  {
    var octets := Split(s, '.');
    JoinOfSplit(s, '.');
    forall octet ensures IsDecimal(octet, 3) <==> AreDecimals(octet, 3) {
      DecimalsAre(octet, 3);
    }
    if |octets| == 4 && forall octet :: octet in octets ==> IsDecimal(octet, 3) {
      var a, b, c, d := octets[0], octets[1], octets[2], octets[3];
      assert octets == [a, b, c, d];
      JoinOfFour(a, b, c, d);
      assert AreFourDecimals(s, a, b, c, d);
    }
    if a, b, c, d :| AreFourDecimals(s, a, b, c, d) {
      DecimalsHaveNone(a, 3, '.');
      DecimalsHaveNone(b, 3, '.');
      DecimalsHaveNone(c, 3, '.');
      DecimalsHaveNone(d, 3, '.');
      JoinOfFour(a, b, c, d);
      SplitOfJoin([a, b, c, d], '.');
    }
  }

  ghost predicate StandsBeforePort(s: string, address: string) {
    LooksLikeIpv4(address) && exists port :: AreDecimals(port, 5) && s == address + ":" + port
  }

  lemma FourDecimalsHaveNoColon(s: string)
    requires LooksLikeIpv4(s)
    ensures ':' !in s
  {
    var a, b, c, d :| AreFourDecimals(s, a, b, c, d);
    DecimalsHaveNone(a, 3, ':');
    DecimalsHaveNone(b, 3, ':');
    DecimalsHaveNone(c, 3, ':');
    DecimalsHaveNone(d, 3, ':');
  }

  lemma BeforePortIsExact(s: string, address: string)
    ensures BeforePort(s) == Some(address) <==> StandsBeforePort(s, address)
  {
    var sides := Split(s, ':');
    JoinOfSplit(s, ':');
    if BeforePort(s) == Some(address) {
      FourDecimalsAreSplit(address);
      DecimalsAre(sides[1], 5);
      assert sides == [address, sides[1]];
      JoinOfCons(address, [sides[1]], ':');
      assert [address] + [sides[1]] == sides;
      assert AreDecimals(sides[1], 5) && s == address + ":" + sides[1];
    }
    if StandsBeforePort(s, address) {
      var port :| AreDecimals(port, 5) && s == address + ":" + port;
      FourDecimalsAreSplit(address);
      FourDecimalsHaveNoColon(address);
      DecimalsHaveNone(port, 5, ':');
      DecimalsAre(port, 5);
      SplitAtFirst(address, port, ':');
      SplitAtFirst(port, "", ':');
    }
  }

  /** What stands in the brackets, or before the port, or else all of it. */
  ghost predicate IsUnwrapped(s: string, address: string) {
    || Encloses(s, address)
    || StandsBeforePort(s, address)
    || (address == s && forall other :: !Encloses(s, other) && !StandsBeforePort(s, other))
  }

  lemma BracketsHaveNoPortBefore(s: string, address: string)
    requires StandsBeforePort(s, address)
    ensures Bracketed(s).None?
  {
    var a, b, c, d :| AreFourDecimals(address, a, b, c, d);
    assert s[0] == a[0];
  }

  lemma EveryTextIsUnwrapped(s: string) returns (address: string, zone: string)
    ensures IsUnwrapped(s, address) && address == StripEnvelope(s) + zone
    ensures '%' !in StripEnvelope(s) && (zone == "" || zone[0] == '%')
  {
    address := if Bracketed(s).Some? then Bracketed(s).value
               else if BeforePort(s).Some? then BeforePort(s).value else s;
    forall other
      ensures Bracketed(s) == Some(other) <==> Encloses(s, other)
      ensures BeforePort(s) == Some(other) <==> StandsBeforePort(s, other)
    {
      BracketedIsExact(s, other);
      BeforePortIsExact(s, other);
    }
    var at := IndexOf(address, "%", 0);
    IndexOfIsFirst(address, "%", 0);
    zone := if at.None? then "" else address[at.value..];
    forall k | 0 <= k < |StripEnvelope(s)| ensures StripEnvelope(s)[k] != '%' {
      CharacterAt(address, '%', k);
    }
    if at.Some? {
      CharacterAt(address, '%', at.value);
    }
  }

  /** What is left of any text: the address in its envelope, up to the first `%`. */
  lemma EnvelopeIsExact(s: string, address: string, zone: string)
    requires '%' !in address && (zone == "" || zone[0] == '%') && IsUnwrapped(s, address + zone)
    ensures StripEnvelope(s) == address
  {
    BracketedIsExact(s, address + zone);
    BeforePortIsExact(s, address + zone);
    if StandsBeforePort(s, address + zone) { BracketsHaveNoPortBefore(s, address + zone); }
    if Bracketed(s).Some? { BracketedIsExact(s, Bracketed(s).value); }
    if BeforePort(s).Some? { BeforePortIsExact(s, BeforePort(s).value); }
    ZoneStartsAt(address, zone);
  }

  /** White space by its code points, line ends and the byte order mark included. */
  predicate IsWhite(c: char) {
    var n := c as int;
    || 9 <= n <= 13 || n == 32 || n == 160 || n == 5760 || 8192 <= n <= 8202
    || n == 8232 || n == 8233 || n == 8239 || n == 8287 || n == 12288 || n == 65279
  }

  lemma WhiteSpaceIsWhite(c: char)
    ensures IsWhiteSpace(c) <==> IsWhite(c)
  {
  }

  predicate AreWhite(s: string) {
    forall i :: 0 <= i < |s| ==> IsWhite(s[i])
  }

  lemma {:induction false} TrimDropsLast(s: string, c: char)
    requires IsWhiteSpace(c)
    ensures Trim(s + [c]) == Trim(s)
  {
    if s == "" {
      assert s + [c] == [c] && [c][1..] == "";
    } else if IsWhiteSpace(s[0]) {
      TrimDropsLast(s[1..], c);
      assert (s + [c])[1..] == s[1..] + [c];
    } else {
      assert (s + [c])[..|s|] == s;
    }
  }

  lemma {:induction false} TrimDropsSpace(before: string, s: string, after: string)
    requires AreWhite(before) && AreWhite(after)
    ensures Trim(before + s + after) == Trim(s)
    decreases |before| + |after|
  {
    if after != "" {
      var front, last := after[..|after| - 1], after[|after| - 1];
      WhiteSpaceIsWhite(last);
      TrimDropsSpace(before, s, front);
      TrimDropsLast(before + s + front, last);
      assert before + s + after == (before + s + front) + [last];
    } else if before != "" {
      WhiteSpaceIsWhite(before[0]);
      TrimDropsSpace(before[1..], s, after);
      assert (before + s + after)[1..] == before[1..] + s + after;
    } else {
      assert before + s + after == s;
    }
  }

  lemma ZoneStartsAt(s: string, zone: string)
    requires '%' !in s && (zone == "" || zone[0] == '%')
    ensures var at := IndexOf(s + zone, "%", 0);
            if zone == "" then at.None? && s + zone == s else at == Some(|s|) && (s + zone)[..|s|] == s
  {
    if zone == "" {
      NoneFound(s, '%');
      assert s + zone == s;
    } else {
      assert (s + zone)[0..|s|] == s;
      FoundAt(s + zone, '%', 0, |s|);
    }
  }

  /** The address of `[address%zone]:port` is the address; zone and port may be missing. */
  lemma EnvelopeIsStripped(s: string, zone: string, port: string)
    requires s != "" && forall c :: c in s ==> IsPlain(c)
    requires (zone == "" || zone[0] == '%') && ']' !in zone && IsPort(port)
    ensures StripEnvelope(Trim("[" + (s + zone) + "]" + port)) == s
  {
    BracketsAreStripped(s + zone, port);
    ZoneStartsAt(s, zone);
  }

  // ── the bucket of a text ─────────────────────────────────────────────────

  /** White space around a text does not change its bucket. */
  lemma SpaceIsIgnored(before: string, s: string, after: string)
    requires AreWhite(before) && AreWhite(after)
    ensures ClientIpKey(Some(before + s + after)) == ClientIpKey(Some(s))
  {
    TrimDropsSpace(before, s, after);
  }

  lemma NothingIsShared()
    ensures ClientIpKey(None) == ClientIpKey(Some("")) == "unknown"
  {
  }

  /** Brackets, zone and port do not change the bucket of an IPv6 address. */
  lemma EnvelopeIsIgnored(s: string, groups: Groups, zone: string, port: string)
    requires IsTextOf(Lower(s), groups)
    requires (zone == "" || zone[0] == '%') && ']' !in zone && IsPort(port)
    ensures ClientIpKey(Some("[" + (s + zone) + "]" + port)) == ClientIpKey(Some(s)) == AddressKey(s)
  {
    Ipv6IsKept(s, groups);
    EnvelopeIsStripped(s, zone, port);
    KeyIsOfAddress(s);
    KeyIsOfAddress("[" + (s + zone) + "]" + port);
  }

  /** Two texts with IPv6 addresses in them share a bucket exactly when the first four groups agree. */
  lemma SameBucketIffSamePrefix(x: string, g: Groups, y: string, h: Groups)
    requires IsTextOf(Lower(StripEnvelope(Trim(x))), g) && !IsIpv4InIpv6(g)
    requires IsTextOf(Lower(StripEnvelope(Trim(y))), h) && !IsIpv4InIpv6(h)
    ensures |g| == |h| == 8
    ensures ClientIpKey(Some(x)) == ClientIpKey(Some(y)) <==> g[..4] == h[..4]
  {
    KeyIsOfAddress(x);
    KeyIsOfAddress(y);
    AddressBucketsByPrefix(StripEnvelope(Trim(x)), g, StripEnvelope(Trim(y)), h);
  }

  lemma PortIsCut(s: string, port: string)
    requires IsIpv4(s) && AreDecimals(port, 5)
    ensures Trim(s + ":" + port) == s + ":" + port && StripEnvelope(s + ":" + port) == s
  {
    var raw := s + ":" + port;
    DecimalsAre(port, 5);
    Ipv4Characters(s);
    assert s[0] in s && port[|port| - 1] in port;
    assert raw[0] == s[0] && raw[|raw| - 1] == port[|port| - 1];
    TrimKeeps(raw);
    SplitAtFirst(s, port, ':');
    SplitAtFirst(port, "", ':');
    assert raw == s + [':'] + port;
    assert Split(raw, ':') == [s, port];
    NoneFound(s, '%');
  }

  /** A port does not change the bucket of an IPv4 address, which is the address itself. */
  lemma PortIsIgnored(s: string, port: string)
    requires IsQuad(s) && AreDecimals(port, 5)
    ensures ClientIpKey(Some(s + ":" + port)) == ClientIpKey(Some(s)) == s
  {
    QuadIsExact(s, 0, 0);
    Ipv4IsKept(s);
    PortIsCut(s, port);
    KeyIsOfAddress(s);
    KeyIsOfAddress(s + ":" + port);
  }
}
