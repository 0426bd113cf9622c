/** The texts of an IPv6 address: the reader accepts exactly these, and undoes the printer. */
module AddressTexts {
  import opened AddressGrammar
  import opened ClientIp
  import opened Text
  import opened Wrappers

  // ── the texts of an address ──────────────────────────────────────────────

  /** All eight groups written out. */
  ghost predicate IsFullText(text: string, parts: seq<string>, groups: Groups) {
    text == Join(parts, ':') && Spell(parts, true, groups) && |groups| == 8
  }

  /** One `::` for one or more zero groups between `before` and `after`. */
  ghost predicate IsShortText(text: string, head: seq<string>, tail: seq<string>, before: Groups, after: Groups) {
    && text == Join(head, ':') + "::" + Join(tail, ':')
    && Spell(head, false, before) && Spell(tail, true, after) && |before| + |after| <= 7
  }

  /** The eight groups with zeros in the gap. */
  function Filled(before: Groups, after: Groups): Groups
    requires |before| + |after| <= 8
  {
    before + Zeros(8 - |before| - |after|) + after
  }

  /** The texts of an address by section 2.2 of RFC 4291, said without reading any text. */
  ghost predicate IsTextOf(text: string, groups: Groups) {
    || (exists parts :: IsFullText(text, parts, groups))
    || (exists head, tail, before, after ::
          IsShortText(text, head, tail, before, after) && groups == Filled(before, after))
  }

  predicate IsAddressCharacter(c: char) {
    DigitValue(c) < 16 || c == '.'
  }

  predicate IsAddressPart(s: string) {
    s != "" && forall c :: c in s ==> IsAddressCharacter(c)
  }

  lemma Ipv4Characters(s: string)
    requires IsIpv4(s)
    ensures '.' in s && IsAddressPart(s) && forall c :: c in s ==> DigitValue(c) < 10 || c == '.'
  {
    JoinOfSplit(s, '.');
    JoinedCharacters(Split(s, '.'), '.', '.');
    forall c | c in s ensures DigitValue(c) < 10 || c == '.' {
      JoinedCharacters(Split(s, '.'), '.', c);
    }
  }

  lemma {:induction false} PartsAreAddressParts(parts: seq<string>, quadAllowed: bool)
    requires PartsGroups(parts, quadAllowed).Some?
    ensures forall part :: part in parts ==> IsAddressPart(part)
    ensures |parts| <= |PartsGroups(parts, quadAllowed).value| <= |parts| + 1
    ensures quadAllowed || |PartsGroups(parts, quadAllowed).value| == |parts|
    ensures parts == [] ==> PartsGroups(parts, quadAllowed).value == []
  {
    if parts != [] {
      if '.' in parts[0] {
        Ipv4Characters(parts[0]);
      }
      PartsAreAddressParts(parts[1..], quadAllowed);
      assert forall part :: part in parts <==> part == parts[0] || part in parts[1..];
    }
  }

  /** No separator at either end, and no two in a row. */
  predicate IsTight(s: string) {
    && (s != "" ==> s[0] != ':' && s[|s| - 1] != ':')
    && forall k :: 0 < k < |s| && s[k - 1] == ':' ==> s[k] != ':'
  }

  lemma {:induction false} JoinIsTight(parts: seq<string>)
    requires forall part :: part in parts ==> IsAddressPart(part)
    ensures IsTight(Join(parts, ':')) && (parts != [] ==> Join(parts, ':') != "")
  {
    if parts != [] {
      var first := parts[0];
      assert first in parts;
      assert forall k :: 0 <= k < |first| ==> first[k] in first;
      assert IsTight(first);
      if |parts| > 1 {
        var rest := Join(parts[1..], ':');
        JoinIsTight(parts[1..]);
        var s := first + [':'] + rest;
        assert forall k :: 0 <= k < |first| ==> s[k] == first[k];
        assert forall k :: |first| < k < |s| ==> s[k] == rest[k - |first| - 1];
      }
    }
  }

  /** Joining parts that can be read loses nothing. */
  lemma PartsOfJoin(parts: seq<string>, quadAllowed: bool)
    requires PartsGroups(parts, quadAllowed).Some?
    ensures IsTight(Join(parts, ':')) && Parts(Join(parts, ':')) == parts
  {
    PartsAreAddressParts(parts, quadAllowed);
    JoinIsTight(parts);
    if parts != [] {
      SplitOfJoin(parts, ':');
    }
  }

  lemma DoubleColonAt(s: string, k: nat)
    ensures OccursAt(s, "::", k) <==> k + 1 < |s| && s[k] == ':' && s[k + 1] == ':'
  {
    if k + 1 < |s| && s[k] == ':' && s[k + 1] == ':' {
      assert s[k..][..2] == "::";
    }
    if OccursAt(s, "::", k) {
      assert s[k..][0] == "::"[0] && s[k..][1] == "::"[1];
    }
  }

  lemma FullTextIsRead(text: string, parts: seq<string>, groups: Groups)
    requires IsFullText(text, parts, groups)
    ensures ParseIpv6(text) == Some(groups)
  {
    PartsAreExact(parts, true, groups);
    PartsAreAddressParts(parts, true);
    PartsOfJoin(parts, true);
    JoinedCharacters(parts, ':', ':');
    forall k: nat ensures !OccursAt(text, "::", k) {
      DoubleColonAt(text, k);
    }
    IndexOfIsFirst(text, "::", 0);
  }

  lemma ShortTextIsRead(text: string, head: seq<string>, tail: seq<string>, before: Groups, after: Groups)
    requires IsShortText(text, head, tail, before, after)
    ensures ParseIpv6(text) == Some(Filled(before, after))
  {
    PartsAreExact(head, false, before);
    PartsAreExact(tail, true, after);
    PartsOfJoin(head, false);
    PartsOfJoin(tail, true);
    AroundIsRead(Join(head, ':'), Join(tail, ':'), before, after);
    ReadAround(text, Join(head, ':'), Join(tail, ':'));
  }

  lemma AroundIsRead(before: string, after: string, head: Groups, tail: Groups)
    requires PartsGroups(Parts(before), false) == Some(head) && PartsGroups(Parts(after), true) == Some(tail)
    requires |head| + |tail| <= 7
    ensures ParseAround(before, after) == Some(Filled(head, tail))
  {
  }

  lemma ReadAround(text: string, before: string, after: string)
    requires IsTight(before) && IsTight(after) && text == before + "::" + after
    ensures ParseIpv6(text) == ParseAround(before, after)
  {
    OneDoubleColon(before, after);
    ParseAtDoubleColon(text, |before|);
    assert text[..|before|] == before && text[|before| + 2..] == after;
  }

  lemma ParseAtDoubleColon(text: string, at: nat)
    requires forall k: nat :: OccursAt(text, "::", k) <==> k == at
    ensures at + 2 <= |text| && ParseIpv6(text) == ParseAround(text[..at], text[at + 2..])
  {
    DoubleColonAt(text, at);
    assert OccursAt(text, "::", at);
    assert text[at] == ':';
    IndexOfIsFirst(text, "::", 0);
    IndexOfIsFirst(text, "::", at + 1);
    assert IndexOf(text, "::", 0) == Some(at);
    assert IndexOf(text, "::", at + 1).None?;
  }

  lemma OneDoubleColon(before: string, after: string)
    requires IsTight(before) && IsTight(after)
    ensures forall k: nat :: OccursAt(before + "::" + after, "::", k) <==> k == |before|
  {
    var s := before + "::" + after;
    assert forall i :: 0 <= i < |before| ==> s[i] == before[i];
    assert forall i :: 0 <= i < |after| ==> s[|before| + 2 + i] == after[i];
    forall k: nat ensures OccursAt(s, "::", k) <==> k == |before| {
      DoubleColonAt(s, k);
      if |before| + 2 <= k && k + 1 < |s| {
        assert s[k] == after[k - |before| - 2] && s[k + 1] == after[k + 1 - |before| - 2];
      }
    }
  }

  lemma PartsAreJoined(s: string)
    ensures Join(Parts(s), ':') == s
  {
    JoinOfSplit(s, ':');
  }

  lemma ReadTextIsText(text: string, groups: Groups)
    requires ParseIpv6(text) == Some(groups)
    ensures IsTextOf(text, groups)
  {
    var doubleColon := IndexOf(text, "::", 0);
    if doubleColon.None? {
      UncompressedIsFullText(text, groups);
    } else {
      SplitAtDoubleColon(text, doubleColon.value);
      AroundIsShortText(text, text[..doubleColon.value], text[doubleColon.value + 2..], groups);
    }
  }

  lemma SplitAtDoubleColon(text: string, at: nat)
    requires IndexOf(text, "::", 0) == Some(at)
    ensures at + 2 <= |text| && text == text[..at] + "::" + text[at + 2..]
  {
    IndexOfIsFirst(text, "::", 0);
    DoubleColonAt(text, at);
  }

  lemma UncompressedIsFullText(text: string, groups: Groups)
    requires PartsGroups(Parts(text), true) == Some(groups) && |groups| == 8
    ensures IsTextOf(text, groups)
  {
    PartsAreJoined(text);
    PartsAreExact(Parts(text), true, groups);
    assert IsFullText(text, Parts(text), groups);
  }

  lemma AroundIsFilled(before: string, after: string, groups: Groups) returns (head: Groups, tail: Groups)
    requires ParseAround(before, after) == Some(groups)
    ensures Spell(Parts(before), false, head) && Spell(Parts(after), true, tail)
    ensures |head| + |tail| <= 7 && groups == Filled(head, tail)
  {
    head, tail := PartsGroups(Parts(before), false).value, PartsGroups(Parts(after), true).value;
    PartsAreExact(Parts(before), false, head);
    PartsAreExact(Parts(after), true, tail);
  }

  lemma AroundIsShortText(text: string, before: string, after: string, groups: Groups)
    requires text == before + "::" + after && ParseAround(before, after) == Some(groups)
    ensures IsTextOf(text, groups)
  {
    PartsAreJoined(before);
    PartsAreJoined(after);
    var head, tail := AroundIsFilled(before, after, groups);
    assert IsShortText(text, Parts(before), Parts(after), head, tail);
  }

  /** The reader accepts exactly the texts of an address, and gives that address. */
  lemma ParseIsExact(text: string, groups: Groups)
    ensures ParseIpv6(text) == Some(groups) <==> IsTextOf(text, groups)
  {
    if ParseIpv6(text) == Some(groups) {
      ReadTextIsText(text, groups);
    }
    if parts :| IsFullText(text, parts, groups) {
      FullTextIsRead(text, parts, groups);
    } else if head, tail, before, after :| IsShortText(text, head, tail, before, after)
                                           && groups == Filled(before, after) {
      ShortTextIsRead(text, head, tail, before, after);
    }
  }

  // ── printing and reading back ────────────────────────────────────────────

  lemma HextetIsRead(n: Hextet, quadAllowed: bool)
    ensures PartGroups(Digits(n, 16), quadAllowed) == Some([n])
  {
    ValueOfDigits(n, 16);
    assert Bound(2, 16) == 0x100 && Bound(4, 16) == 0x1_0000;
    DigitsLength(n, 4, 16);
  }

  lemma {:induction false} HextetsAreRead(groups: Groups, quadAllowed: bool)
    ensures PartsGroups(Hextets(groups), quadAllowed) == Some(groups)
  {
    if groups != [] {
      HextetIsRead(groups[0], |groups| == 1 && quadAllowed);
      HextetsAreRead(groups[1..], quadAllowed);
      assert Hextets(groups)[1..] == Hextets(groups[1..]);
      assert [groups[0]] + groups[1..] == groups;
    }
  }

  /** Reading a printed address gives it back. */
  lemma ParseOfFormat(groups: Groups)
    requires |groups| == 8
    ensures ParseIpv6(Format(groups)) == Some(groups)
  {
    var start := LongestFrom(groups, 0);
    var length := ZerosFrom(groups, start);
    ZerosFromIsRun(groups, start);
    if length < 2 {
      HextetsAreRead(groups, true);
      PartsAreExact(Hextets(groups), true, groups);
      FullTextIsRead(Format(groups), Hextets(groups), groups);
    } else {
      var before, after := groups[..start], groups[start + length..];
      HextetsAreRead(before, false);
      HextetsAreRead(after, true);
      PartsAreExact(Hextets(before), false, before);
      PartsAreExact(Hextets(after), true, after);
      assert groups == Filled(before, after);
      ShortTextIsRead(Format(groups), Hextets(before), Hextets(after), before, after);
    }
  }

  /** The printed form is canonical: equal texts for equal addresses only. */
  lemma FormatIsInjective(a: Groups, b: Groups)
    requires |a| == 8 && |b| == 8
    ensures Format(a) == Format(b) <==> a == b
  {
    ParseOfFormat(a);
    ParseOfFormat(b);
  }

  ghost predicate HasGap(text: string) {
    exists k: nat :: OccursAt(text, "::", k)
  }

  predicate HasTwoZeros(groups: Groups) {
    exists i :: 0 <= i < |groups| - 1 && groups[i] == 0 && groups[i + 1] == 0
  }

  lemma FullFormHasNoGap(groups: Groups)
    ensures !HasGap(Join(Hextets(groups), ':'))
  {
    HextetsAreRead(groups, true);
    PartsOfJoin(Hextets(groups), true);
    forall k: nat ensures !OccursAt(Join(Hextets(groups), ':'), "::", k) {
      DoubleColonAt(Join(Hextets(groups), ':'), k);
    }
  }

  lemma CompressedHasGap(groups: Groups, start: nat, length: nat)
    requires start + length <= |groups|
    ensures HasGap(Compressed(groups, start, length))
  {
    var text, at := Compressed(groups, start, length), |Join(Hextets(groups[..start]), ':')|;
    DoubleColonAt(text, at);
    assert OccursAt(text, "::", at);
  }

  lemma LongRunIffTwoZeros(groups: Groups)
    ensures ZerosFrom(groups, LongestFrom(groups, 0)) >= 2 <==> HasTwoZeros(groups)
  {
    var start := LongestFrom(groups, 0);
    FormatCompressesFirstLongestRun(groups);
    if i :| 0 <= i < |groups| - 1 && groups[i] == 0 && groups[i + 1] == 0 {
      assert AllZero(groups, i, i + 2);
    }
    if ZerosFrom(groups, start) >= 2 {
      assert groups[start] == 0 && groups[start + 1] == 0;
    }
  }

  /** The printed form has a `::` exactly when two zero groups stand side by side. */
  lemma GapIffTwoZeros(groups: Groups)
    ensures HasGap(Format(groups)) <==> HasTwoZeros(groups)
  {
    var start := LongestFrom(groups, 0);
    LongRunIffTwoZeros(groups);
    ZerosFromIsRun(groups, start);
    if HasTwoZeros(groups) {
      CompressedHasGap(groups, start, ZerosFrom(groups, start));
    } else {
      FullFormHasNoGap(groups);
    }
  }

  // ── IPv4 addresses in IPv6 texts ─────────────────────────────────────────

  lemma OctetIsRead(n: nat)
    requires n < 256
    ensures IsOctet(Digits(n, 10)) && '.' !in Digits(n, 10) && Value(Digits(n, 10), 10) == n
  {
    ValueOfDigits(n, 10);
    assert Bound(1, 10) == 10 && Bound(3, 10) == 1000;
    DigitsLength(n, 3, 10);
  }

  lemma OctetsAreRead(octets: seq<string>)
    requires |octets| == 4 && forall octet :: octet in octets ==> IsOctet(octet) && '.' !in octet
    ensures IsIpv4(Join(octets, '.')) && '.' in Join(octets, '.')
    ensures Split(Join(octets, '.'), '.') == octets
  {
    SplitOfJoin(octets, '.');
    JoinedCharacters(octets, '.', '.');
  }

  lemma GroupIsRead(n: Hextet)
    ensures var high, low := Digits(n / 256, 10), Digits(n % 256, 10);
            IsOctet(high) && IsOctet(low) && '.' !in high && '.' !in low && GroupOf(Octet(high), Octet(low)) == n
  {
    OctetIsRead(n / 256);
    OctetIsRead(n % 256);
  }

  lemma DottedQuadIsRead(high: Hextet, low: Hextet)
    ensures IsIpv4(DottedQuad(high, low)) && PartGroups(DottedQuad(high, low), true) == Some([high, low])
  {
    GroupIsRead(high);
    GroupIsRead(low);
    OctetsAreRead([Digits(high / 256, 10), Digits(high % 256, 10), Digits(low / 256, 10), Digits(low % 256, 10)]);
  }

  lemma GroupSplits(high: nat, low: nat)
    requires high < 256 && low < 256
    ensures GroupOf(high, low) / 256 == high && GroupOf(high, low) % 256 == low
  {
  }

  lemma GroupIsPrintedBack(high: string, low: string)
    requires IsOctet(high) && IsOctet(low)
    ensures var group := GroupOf(Octet(high), Octet(low));
            Digits(group / 256, 10) == high && Digits(group % 256, 10) == low
  {
    GroupSplits(Octet(high), Octet(low));
    DigitsOfValue(high, 10);
    DigitsOfValue(low, 10);
  }

  lemma QuadOfNumerals(high: Hextet, low: Hextet, a: string, b: string, c: string, d: string)
    requires Digits(high / 256, 10) == a && Digits(high % 256, 10) == b
    requires Digits(low / 256, 10) == c && Digits(low % 256, 10) == d
    ensures DottedQuad(high, low) == Join([a, b, c, d], '.')
  {
  }

  lemma OctetsArePrintedBack(a: string, b: string, c: string, d: string)
    requires IsOctet(a) && IsOctet(b) && IsOctet(c) && IsOctet(d)
    ensures DottedQuad(GroupOf(Octet(a), Octet(b)), GroupOf(Octet(c), Octet(d))) == Join([a, b, c, d], '.')
  {
    GroupIsPrintedBack(a, b);
    GroupIsPrintedBack(c, d);
    QuadOfNumerals(GroupOf(Octet(a), Octet(b)), GroupOf(Octet(c), Octet(d)), a, b, c, d);
  }

  /** Printing the two groups that a dotted quad stands for gives the quad back. */
  lemma QuadIsPrintedBack(s: string)
    requires IsIpv4(s)
    ensures PartGroups(s, true).Some?
    ensures var groups := PartGroups(s, true).value; |groups| == 2 && DottedQuad(groups[0], groups[1]) == s
  {
    Ipv4Characters(s);
    JoinOfSplit(s, '.');
    var octets := Split(s, '.');
    assert octets[0] in octets && octets[1] in octets && octets[2] in octets && octets[3] in octets;
    OctetsArePrintedBack(octets[0], octets[1], octets[2], octets[3]);
    assert octets == [octets[0], octets[1], octets[2], octets[3]];
  }

  /** The groups of `::ffff:0:0/96`, in which an IPv4 address is the last two. */
  predicate IsIpv4InIpv6(groups: Groups) {
    && |groups| == 8
    && groups[0] == 0 && groups[1] == 0 && groups[2] == 0 && groups[3] == 0 && groups[4] == 0 && groups[5] == 0xffff
  }

  /** `ffff` and a dotted quad spell three groups. */
  lemma MappedTailSpells(quad: string, high: Hextet, low: Hextet)
    requires QuadSpells(quad, high, low)
    ensures Spell(["ffff", quad], true, [0xffff, high, low])
  {
    var parts, groups: Groups := ["ffff", quad], [0xffff, high, low];
    assert HexSum("ffff") == 0xffff;
    assert parts[..1] == ["ffff"] && groups[..1] == [0xffff];
    assert HextetsSpell(parts[..1], groups[..1]);
    assert EndInQuad(parts, groups);
  }

  lemma MappedTextIsText(quad: string, high: Hextet, low: Hextet) returns (groups: Groups)
    requires QuadSpells(quad, high, low)
    ensures IsTextOf("::ffff:" + quad, groups) && IsIpv4InIpv6(groups) && groups[6] == high && groups[7] == low
  {
    var after: Groups := [0xffff, high, low];
    groups := Filled([], after);
    MappedTailSpells(quad, high, low);
    JoinOfCons("ffff", [quad], ':');
    assert ["ffff"] + [quad] == ["ffff", quad];
    assert "::ffff:" + quad == Join([], ':') + "::" + Join(["ffff", quad], ':');
    assert HextetsSpell([], []);
    assert IsShortText("::ffff:" + quad, [], ["ffff", quad], [], after);
  }

  /** Only characters of an address and colons, of which there are two. */
  ghost predicate HasAddressCharacters(text: string) {
    && (forall c :: c in text ==> IsAddressCharacter(c) || c == ':')
    && exists i, j :: 0 <= i < j < |text| && text[i] == ':' && text[j] == ':'
  }

  lemma TextCharacters(text: string, groups: Groups)
    requires IsTextOf(text, groups)
    ensures HasAddressCharacters(text)
  {
    if parts :| IsFullText(text, parts, groups) {
      PartsAreExact(parts, true, groups);
      PartsAreAddressParts(parts, true);
      forall c | c in text ensures IsAddressCharacter(c) || c == ':' {
        JoinedCharacters(parts, ':', c);
      }
      var rest := Join(parts[1..], ':');
      assert rest == parts[1] + [':'] + Join(parts[1..][1..], ':');
      assert text == parts[0] + [':'] + rest && rest[|parts[1]|] == ':';
      assert text[|parts[0]|] == ':' && text[|parts[0]| + 1 + |parts[1]|] == ':';
    } else {
      var head, tail, before, after :| IsShortText(text, head, tail, before, after) && groups == Filled(before, after);
      PartsAreExact(head, false, before);
      PartsAreExact(tail, true, after);
      PartsAreAddressParts(head, false);
      PartsAreAddressParts(tail, true);
      forall c | c in text ensures IsAddressCharacter(c) || c == ':' {
        JoinedCharacters(head, ':', c);
        JoinedCharacters(tail, ':', c);
      }
      var at := |Join(head, ':')|;
      assert text[at] == ':' && text[at + 1] == ':';
    }
  }
}
