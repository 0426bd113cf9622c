/**
 * How the parts of an address are spelled, character by character and without reading anything, and the
 * proof that the reader takes every part for what it spells and refuses every other one.
 */
module AddressGrammar {
  import opened ClientIp
  import opened Text
  import opened Wrappers

  // ── spelling ─────────────────────────────────────────────────────────────

  predicate IsHexCharacter(c: char) {
    '0' <= c <= '9' || 'a' <= c <= 'f'
  }

  function Hex(c: char): (n: nat)
    requires IsHexCharacter(c)
    ensures n < 16
  {
    if c <= '9' then c as int - '0' as int else 10 + (c as int - 'a' as int)
  }

  /** One to four hexadecimal characters, leading zeros or not. */
  predicate IsHexText(s: string) {
    1 <= |s| <= 4 && forall i :: 0 <= i < |s| ==> IsHexCharacter(s[i])
  }

  function HexSum(s: string): Hextet
    requires IsHexText(s)
  {
    if |s| == 1 then Hex(s[0])
    else if |s| == 2 then 0x10 * Hex(s[0]) + Hex(s[1])
    else if |s| == 3 then 0x100 * Hex(s[0]) + 0x10 * Hex(s[1]) + Hex(s[2])
    else 0x1000 * Hex(s[0]) + 0x100 * Hex(s[1]) + 0x10 * Hex(s[2]) + Hex(s[3])
  }

  predicate IsDecimalCharacter(c: char) {
    '0' <= c <= '9'
  }

  function Decimal(c: char): (n: nat)
    requires IsDecimalCharacter(c)
    ensures n < 10
  {
    c as int - '0' as int
  }

  /** `0` to `255`, without a leading zero. */
  predicate IsOctetText(s: string) {
    || (|s| == 1 && IsDecimalCharacter(s[0]))
    || (|s| == 2 && '1' <= s[0] <= '9' && IsDecimalCharacter(s[1]))
    || (|s| == 3 && s[0] == '1' && IsDecimalCharacter(s[1]) && IsDecimalCharacter(s[2]))
    || (|s| == 3 && s[0] == '2' && '0' <= s[1] <= '4' && IsDecimalCharacter(s[2]))
    || (|s| == 3 && s[0] == '2' && s[1] == '5' && '0' <= s[2] <= '5')
  }

  function OctetSum(s: string): (n: nat)
    requires IsOctetText(s)
    ensures n < 256
  {
    if |s| == 1 then Decimal(s[0])
    else if |s| == 2 then 10 * Decimal(s[0]) + Decimal(s[1])
    else 100 * Decimal(s[0]) + 10 * Decimal(s[1]) + Decimal(s[2])
  }

  predicate AreOctets(a: string, b: string, c: string, d: string) {
    IsOctetText(a) && IsOctetText(b) && IsOctetText(c) && IsOctetText(d)
  }

  predicate IsQuadOf(s: string, a: string, b: string, c: string, d: string) {
    AreOctets(a, b, c, d) && s == a + "." + b + "." + c + "." + d
  }

  ghost predicate IsQuad(s: string) {
    exists a, b, c, d :: IsQuadOf(s, a, b, c, d)
  }

  /** A dotted quad spells two groups, of two octets each. */
  ghost predicate QuadSpells(s: string, high: Hextet, low: Hextet) {
    exists a, b, c, d :: IsQuadOf(s, a, b, c, d)
                         && high == 0x100 * OctetSum(a) + OctetSum(b) && low == 0x100 * OctetSum(c) + OctetSum(d)
  }

  predicate HextetSpells(s: string, group: Hextet) {
    IsHexText(s) && HexSum(s) == group
  }

  predicate HextetsSpell(parts: seq<string>, groups: Groups) {
    |parts| == |groups| && forall i :: 0 <= i < |parts| ==> HextetSpells(parts[i], groups[i])
  }

  /** One group a part; where a quad is allowed, the last part may be one and spell the last two groups. */
  ghost predicate Spell(parts: seq<string>, quadAllowed: bool, groups: Groups) {
    || HextetsSpell(parts, groups)
    || (quadAllowed && EndInQuad(parts, groups))
  }

  ghost predicate EndInQuad(parts: seq<string>, groups: Groups) {
    && parts != [] && |groups| == |parts| + 1
    && HextetsSpell(parts[..|parts| - 1], groups[..|parts| - 1])
    && QuadSpells(parts[|parts| - 1], groups[|parts| - 1], groups[|parts|])
  }

  // ── hextets ──────────────────────────────────────────────────────────────

  lemma ValueOfOne(a: char, base: nat)
    requires IsBase(base)
    ensures Value([a], base) == DigitValue(a)
  {
    ValueOfLonger("", a, base);
    assert "" + [a] == [a];
  }

  lemma ValueOfTwo(a: char, b: char, base: nat)
    requires IsBase(base)
    ensures Value([a, b], base) == Shifted(DigitValue(a), base) + DigitValue(b)
  {
    ValueOfOne(a, base);
    ValueOfLonger([a], b, base);
    assert [a] + [b] == [a, b];
  }

  lemma ValueOfThree(a: char, b: char, c: char, base: nat)
    requires IsBase(base)
    ensures Value([a, b, c], base) ==
            Shifted(Shifted(DigitValue(a), base) + DigitValue(b), base) + DigitValue(c)
  {
    ValueOfTwo(a, b, base);
    ValueOfLonger([a, b], c, base);
    assert [a, b] + [c] == [a, b, c];
  }

  lemma ValueOfFour(a: char, b: char, c: char, d: char)
    ensures Value([a, b, c, d], 16) ==
            0x1000 * DigitValue(a) + 0x100 * DigitValue(b) + 0x10 * DigitValue(c) + DigitValue(d)
  {
    ValueOfThree(a, b, c, 16);
    ValueOfLonger([a, b, c], d, 16);
    assert [a, b, c] + [d] == [a, b, c, d];
  }

  lemma HexDigits(c: char)
    ensures IsHexCharacter(c) <==> DigitValue(c) < 16
    ensures IsHexCharacter(c) ==> Hex(c) == DigitValue(c)
    ensures IsDecimalCharacter(c) <==> DigitValue(c) < 10
    ensures IsDecimalCharacter(c) ==> Decimal(c) == DigitValue(c)
  {
  }

  lemma HexTextIsHextet(s: string)
    ensures IsHextetText(s) <==> IsHexText(s)
    ensures IsHexText(s) ==> Value(s, 16) == HexSum(s)
  {
    forall i | 0 <= i < |s|
      ensures s[i] in s && (IsHexCharacter(s[i]) <==> DigitValue(s[i]) < 16)
      ensures IsHexCharacter(s[i]) ==> Hex(s[i]) == DigitValue(s[i])
    {
      HexDigits(s[i]);
    }
    if IsHexText(s) {
      HexValue(s);
    }
  }

  lemma HexValue(s: string)
    requires IsHexText(s) && forall i :: 0 <= i < |s| ==> Hex(s[i]) == DigitValue(s[i])
    ensures Value(s, 16) == HexSum(s)
  {
    if |s| == 1 {
      ValueOfOne(s[0], 16);
      assert s == [s[0]];
    } else if |s| == 2 {
      ValueOfTwo(s[0], s[1], 16);
      assert s == [s[0], s[1]];
    } else if |s| == 3 {
      ValueOfThree(s[0], s[1], s[2], 16);
      assert s == [s[0], s[1], s[2]];
    } else {
      ValueOfFour(s[0], s[1], s[2], s[3]);
      assert s == [s[0], s[1], s[2], s[3]];
    }
  }

  /** A part without a dot is read as the hextet it spells, and refused when it spells none. */
  lemma HextetIsExact(part: string, quadAllowed: bool)
    requires '.' !in part
    ensures PartGroups(part, quadAllowed) == if IsHexText(part) then Some([HexSum(part)]) else None
  {
    HexTextIsHextet(part);
  }

  // ── leading zeros and capitals ───────────────────────────────────────────

  predicate AreZeros(s: string) {
    forall i :: 0 <= i < |s| ==> s[i] == '0'
  }

  lemma {:induction false} PaddedValue(zeros: string, s: string, base: nat)
    requires IsBase(base) && AreZeros(zeros)
    ensures Value(zeros + s, base) == Value(s, base)
    decreases |zeros| + |s|
  {
    if s != "" {
      var init, last := s[..|s| - 1], s[|s| - 1];
      PaddedValue(zeros, init, base);
      ValueOfLonger(zeros + init, last, base);
      ValueOfLonger(init, last, base);
      assert zeros + s == (zeros + init) + [last] && s == init + [last];
    } else if zeros != "" {
      PaddedValue(zeros[..|zeros| - 1], "", base);
      ValueOfLonger(zeros[..|zeros| - 1], '0', base);
      assert zeros[..|zeros| - 1] + "" == zeros[..|zeros| - 1];
      assert zeros + "" == zeros[..|zeros| - 1] + ['0'];
    } else {
      assert zeros + s == s;
    }
  }

  /** Leading zeros, up to four characters in all, do not change the group. */
  lemma PaddedHextetIsRead(zeros: string, n: Hextet, quadAllowed: bool)
    requires AreZeros(zeros) && |zeros| + |Digits(n, 16)| <= 4
    ensures PartGroups(zeros + Digits(n, 16), quadAllowed) == Some([n])
  {
    var part := zeros + Digits(n, 16);
    ValueOfDigits(n, 16);
    forall i | 0 <= i < |part|
      ensures IsHexCharacter(part[i])
    {
      assert i >= |zeros| ==> part[i] in Digits(n, 16);
      HexDigits(part[i]);
    }
    PaddedValue(zeros, Digits(n, 16), 16);
    HexTextIsHextet(part);
    HextetIsExact(part, quadAllowed);
  }

  /** And every hextet is spelled that way. */
  lemma {:induction false} HextetIsPadded(s: string) returns (zeros: string)
    requires IsHexText(s)
    ensures AreZeros(zeros) && s == zeros + Digits(HexSum(s), 16)
  {
    HexTextIsHextet(s);
    if |s| > 1 && s[0] == '0' {
      zeros := HextetIsPadded(s[1..]);
      ZeroInFront(s);
      assert s == "0" + zeros + Digits(HexSum(s), 16);
      zeros := "0" + zeros;
    } else {
      zeros := "";
      DigitsOfValue(s, 16);
      assert zeros + s == s;
    }
  }

  lemma ZeroInFront(s: string)
    requires IsHexText(s) && |s| > 1 && s[0] == '0'
    ensures IsHexText(s[1..]) && HexSum(s[1..]) == HexSum(s) && s == "0" + s[1..]
  {
    assert Hex('0') == 0;
  }

  /** Each character of `t` is that of `s`, or its capital. */
  predicate IsInAnyCase(t: string, s: string) {
    && |t| == |s|
    && forall i :: 0 <= i < |s| ==> t[i] == s[i] || ('A' <= t[i] <= 'Z' && s[i] as int == t[i] as int + 32)
  }

  lemma CapitalsAreLowered(t: string, s: string)
    requires IsInAnyCase(t, s) && forall i :: 0 <= i < |s| ==> !('A' <= s[i] <= 'Z')
    ensures Lower(t) == s
  {
  }

  /** Four spellings of one group. */
  lemma SpellingsOfOneGroup()
    ensures PartGroups("ff", false) == PartGroups("0ff", false) == PartGroups("00ff", false) == Some([0xff])
    ensures Lower("FF") == "ff"
  {
    assert HexSum("ff") == 0xff && HexSum("0ff") == 0xff && HexSum("00ff") == 0xff;
    HextetIsExact("ff", false);
    HextetIsExact("0ff", false);
    HextetIsExact("00ff", false);
    CapitalsAreLowered("FF", "ff");
  }

  // ── dotted quads ─────────────────────────────────────────────────────────

  lemma OctetTextIsOctet(s: string)
    ensures IsOctet(s) <==> IsOctetText(s)
    ensures IsOctetText(s) ==> Octet(s) == OctetSum(s) && '.' !in s
  {
    forall i | 0 <= i < |s|
      ensures s[i] in s && (IsDecimalCharacter(s[i]) <==> DigitValue(s[i]) < 10)
      ensures IsDecimalCharacter(s[i]) ==> Decimal(s[i]) == DigitValue(s[i])
    {
      HexDigits(s[i]);
    }
    if 1 <= |s| <= 3 {
      DecimalValue(s);
    }
  }

  lemma DecimalValue(s: string)
    requires 1 <= |s| <= 3
    ensures Value(s, 10) ==
            if |s| == 1 then DigitValue(s[0])
            else if |s| == 2 then 10 * DigitValue(s[0]) + DigitValue(s[1])
            else 100 * DigitValue(s[0]) + 10 * DigitValue(s[1]) + DigitValue(s[2])
  {
    if |s| == 1 {
      ValueOfOne(s[0], 10);
      assert s == [s[0]];
    } else if |s| == 2 {
      ValueOfTwo(s[0], s[1], 10);
      assert s == [s[0], s[1]];
    } else {
      ValueOfThree(s[0], s[1], s[2], 10);
      assert s == [s[0], s[1], s[2]];
    }
  }

  lemma SplitOfQuad(s: string, a: string, b: string, c: string, d: string)
    requires AreOctets(a, b, c, d)
    ensures s == a + "." + b + "." + c + "." + d <==> Split(s, '.') == [a, b, c, d]
  {
    OctetTextIsOctet(a);
    OctetTextIsOctet(b);
    OctetTextIsOctet(c);
    OctetTextIsOctet(d);
    JoinOfFour(a, b, c, d);
    SplitOfJoin([a, b, c, d], '.');
    JoinOfSplit(s, '.');
  }

  lemma JoinOfFour(a: string, b: string, c: string, d: string)
    ensures Join([a, b, c, d], '.') == a + "." + b + "." + c + "." + d
  {
    JoinOfCons(c, [d], '.');
    JoinOfCons(b, [c, d], '.');
    JoinOfCons(a, [b, c, d], '.');
    assert [c] + [d] == [c, d] && [b] + [c, d] == [b, c, d] && [a] + [b, c, d] == [a, b, c, d];
    assert a + ['.'] + (b + ['.'] + (c + ['.'] + d)) == a + "." + b + "." + c + "." + d;
  }

  lemma QuadOctets(s: string) returns (a: string, b: string, c: string, d: string)
    requires IsIpv4(s)
    ensures IsQuadOf(s, a, b, c, d) && Split(s, '.') == [a, b, c, d]
  {
    var octets := Split(s, '.');
    a, b, c, d := octets[0], octets[1], octets[2], octets[3];
    assert a in octets && b in octets && c in octets && d in octets;
    OctetTextIsOctet(a);
    OctetTextIsOctet(b);
    OctetTextIsOctet(c);
    OctetTextIsOctet(d);
    assert octets == [a, b, c, d];
    SplitOfQuad(s, a, b, c, d);
  }

  lemma QuadGroupsOf(a: string, b: string, c: string, d: string)
    requires AreOctets(a, b, c, d)
    ensures forall octet :: octet in [a, b, c, d] ==> IsOctet(octet)
    ensures QuadGroups([a, b, c, d]) ==
            [0x100 * OctetSum(a) + OctetSum(b), 0x100 * OctetSum(c) + OctetSum(d)]
  {
    OctetTextIsOctet(a);
    OctetTextIsOctet(b);
    OctetTextIsOctet(c);
    OctetTextIsOctet(d);
  }

  lemma QuadIsRead(s: string, a: string, b: string, c: string, d: string)
    requires IsQuadOf(s, a, b, c, d)
    ensures '.' in s && IsIpv4(s)
    ensures QuadGroups(Split(s, '.')) ==
            [0x100 * OctetSum(a) + OctetSum(b), 0x100 * OctetSum(c) + OctetSum(d)]
  {
    SplitOfQuad(s, a, b, c, d);
    QuadGroupsOf(a, b, c, d);
    assert s[|a|] == '.';
  }

  /** The reader takes for a dotted quad exactly what is spelled as one, and for the groups it spells. */
  lemma QuadIsExact(s: string, high: Hextet, low: Hextet)
    ensures IsIpv4(s) <==> IsQuad(s)
    ensures IsIpv4(s) && QuadGroups(Split(s, '.')) == [high, low] <==> QuadSpells(s, high, low)
  {
    if IsIpv4(s) {
      var a, b, c, d := QuadOctets(s);
      QuadIsRead(s, a, b, c, d);
    }
    if a, b, c, d :| IsQuadOf(s, a, b, c, d) {
      QuadIsRead(s, a, b, c, d);
    }
    if QuadSpells(s, high, low) {
      var a, b, c, d :| IsQuadOf(s, a, b, c, d)
                        && high == 0x100 * OctetSum(a) + OctetSum(b) && low == 0x100 * OctetSum(c) + OctetSum(d);
      QuadIsRead(s, a, b, c, d);
    }
  }

  // ── parts and lists of parts ─────────────────────────────────────────────

  lemma PartIsExact(part: string, quadAllowed: bool, groups: Groups)
    ensures PartGroups(part, quadAllowed) == Some(groups) <==>
            || (|groups| == 1 && HextetSpells(part, groups[0]))
            || (|groups| == 2 && quadAllowed && QuadSpells(part, groups[0], groups[1]))
  {
    assert |groups| == 1 ==> groups == [groups[0]];
    assert |groups| == 2 ==> groups == [groups[0], groups[1]];
    if '.' !in part {
      HextetIsExact(part, quadAllowed);
      if |groups| == 2 { QuadIsExact(part, groups[0], groups[1]); }
      if IsIpv4(part) {
        var a, b, c, d := QuadOctets(part);
        QuadIsRead(part, a, b, c, d);
      }
    } else {
      assert !IsHexText(part);
      if |groups| == 2 { QuadIsExact(part, groups[0], groups[1]); }
    }
  }

  lemma SpellCons(parts: seq<string>, quadAllowed: bool, groups: Groups)
    requires |parts| > 1
    ensures Spell(parts, quadAllowed, groups) <==>
            groups != [] && HextetSpells(parts[0], groups[0]) && Spell(parts[1..], quadAllowed, groups[1..])
  {
    if groups != [] {
      var n := |parts| - 1;
      assert HextetsSpell(parts, groups) <==>
          HextetSpells(parts[0], groups[0]) && HextetsSpell(parts[1..], groups[1..]);
      if |groups| == |parts| + 1 {
        assert parts[1..][..n - 1] == parts[..n][1..] && groups[1..][..n - 1] == groups[..n][1..];
        assert HextetsSpell(parts[..n], groups[..n]) <==>
            HextetSpells(parts[0], groups[0]) && HextetsSpell(parts[..n][1..], groups[..n][1..]);
        assert parts[1..][n - 1] == parts[n] && groups[1..][n - 1] == groups[n] && groups[1..][n] == groups[n + 1];
      }
    }
  }

  lemma SpellOne(part: string, quadAllowed: bool, groups: Groups)
    ensures Spell([part], quadAllowed, groups) <==>
            || (|groups| == 1 && HextetSpells(part, groups[0]))
            || (|groups| == 2 && quadAllowed && QuadSpells(part, groups[0], groups[1]))
  {
    if |groups| == 2 {
      assert [part][..0] == [] && groups[..0] == [];
      assert HextetsSpell([part][..0], groups[..0]);
    }
  }

  /** The reader takes a list of parts for exactly the groups it spells. */
  lemma {:induction false} PartsAreExact(parts: seq<string>, quadAllowed: bool, groups: Groups)
    ensures PartsGroups(parts, quadAllowed) == Some(groups) <==> Spell(parts, quadAllowed, groups)
  {
    if |parts| == 1 {
      assert parts == [parts[0]];
      PartIsExact(parts[0], quadAllowed, groups);
      SpellOne(parts[0], quadAllowed, groups);
      OnePart(parts[0], quadAllowed);
    } else if |parts| > 1 {
      SpellCons(parts, quadAllowed, groups);
      if groups != [] {
        PartIsExact(parts[0], false, groups[..1]);
        PartsAreExact(parts[1..], quadAllowed, groups[1..]);
        assert groups == groups[..1] + groups[1..];
      }
      FirstOfMany(parts, quadAllowed, groups);
    }
  }

  lemma OnePart(part: string, quadAllowed: bool)
    ensures PartsGroups([part], quadAllowed) == PartGroups(part, quadAllowed)
  {
    var first := PartGroups(part, quadAllowed);
    assert PartsGroups([part][1..], quadAllowed) == Some([]);
    if first.Some? {
      assert first.value + [] == first.value;
    }
  }

  /** Of several parts the first can only be a hextet. */
  lemma FirstOfMany(parts: seq<string>, quadAllowed: bool, groups: Groups)
    requires |parts| > 1
    ensures PartsGroups(parts, quadAllowed) == Some(groups) <==>
            && groups != [] && PartGroups(parts[0], false) == Some(groups[..1])
            && PartsGroups(parts[1..], quadAllowed) == Some(groups[1..])
  {
    var first, rest := PartGroups(parts[0], false), PartsGroups(parts[1..], quadAllowed);
    if first.Some? && rest.Some? {
      var all := first.value + rest.value;
      assert all[..1] == first.value && all[1..] == rest.value;
      assert groups != [] && groups[..1] == first.value && groups[1..] == rest.value ==> groups == all;
    }
  }
}
