/** The string operations the address code relies on, and how they undo one another. */
module Text {
  import opened Wrappers

  predicate OccursAt(s: string, pattern: string, k: nat) {
    k <= |s| && pattern <= s[k..]
  }

  /** The first place at or after `from` where `pattern` occurs. */
  function IndexOf(s: string, pattern: string, from: nat): (r: Option<nat>)
    requires from <= |s|
    ensures r.Some? ==> from <= r.value && r.value + |pattern| <= |s|
    decreases |s| - from
  {
    if OccursAt(s, pattern, from) then Some(from)
    else if from == |s| then None
    else IndexOf(s, pattern, from + 1)
  }

  lemma {:induction false} IndexOfIsFirst(s: string, pattern: string, from: nat)
    requires from <= |s|
    ensures var r := IndexOf(s, pattern, from);
            && (r.Some? ==> OccursAt(s, pattern, r.value))
            && forall k: nat :: from <= k && (r.Some? ==> k < r.value) ==> !OccursAt(s, pattern, k)
    decreases |s| - from
  {
    if !OccursAt(s, pattern, from) && from < |s| {
      IndexOfIsFirst(s, pattern, from + 1);
    }
  }

  function Split(s: string, separator: char): (parts: seq<string>)
    ensures |parts| > 0
  {
    if s == "" then [""]
    else
      var rest := Split(s[1..], separator);
      if s[0] == separator then [""] + rest else [[s[0]] + rest[0]] + rest[1..]
  }

  function Join(parts: seq<string>, separator: char): string {
    if parts == [] then ""
    else if |parts| == 1 then parts[0]
    else parts[0] + [separator] + Join(parts[1..], separator)
  }

  lemma JoinOfCons(first: string, rest: seq<string>, separator: char)
    requires rest != []
    ensures Join([first] + rest, separator) == first + [separator] + Join(rest, separator)
  {
    assert ([first] + rest)[1..] == rest;
  }

  lemma JoinOfLongerFirst(c: char, parts: seq<string>, separator: char)
    requires parts != []
    ensures Join([[c] + parts[0]] + parts[1..], separator) == [c] + Join(parts, separator)
  {
    assert ([[c] + parts[0]] + parts[1..])[1..] == parts[1..];
  }

  lemma {:induction false} JoinOfSplit(s: string, separator: char)
    ensures Join(Split(s, separator), separator) == s
    ensures forall part :: part in Split(s, separator) ==> separator !in part
  {
    if s != "" {
      JoinOfSplit(s[1..], separator);
      var rest := Split(s[1..], separator);
      if s[0] == separator {
        JoinOfCons("", rest, separator);
        assert s == "" + [separator] + s[1..];
      } else {
        JoinOfLongerFirst(s[0], rest, separator);
        assert s == [s[0]] + s[1..];
      }
    }
  }

  lemma {:induction false} SplitAtFirst(part: string, rest: string, separator: char)
    requires separator !in part
    ensures Split(part, separator) == [part]
    ensures Split(part + [separator] + rest, separator) == [part] + Split(rest, separator)
  {
    var s := part + [separator] + rest;
    if part == "" {
      assert s[1..] == rest;
    } else {
      SplitAtFirst(part[1..], rest, separator);
      assert s[1..] == part[1..] + [separator] + rest;
      assert [part[0]] + part[1..] == part;
    }
  }

  lemma {:induction false} SplitOfJoin(parts: seq<string>, separator: char)
    requires parts != [] && forall part :: part in parts ==> separator !in part
    ensures Split(Join(parts, separator), separator) == parts
  {
    assert parts[0] in parts && parts == [parts[0]] + parts[1..];
    if |parts| == 1 {
      SplitAtFirst(parts[0], "", separator);
    } else {
      JoinOfCons(parts[0], parts[1..], separator);
      SplitAtFirst(parts[0], Join(parts[1..], separator), separator);
      assert forall part :: part in parts[1..] ==> part in parts;
      SplitOfJoin(parts[1..], separator);
    }
  }

  /** Every character of the joined text is a separator or comes from a part, and every part's is there. */
  lemma {:induction false} JoinedCharacters(parts: seq<string>, separator: char, c: char)
    ensures c in Join(parts, separator) <==>
            (|parts| > 1 && c == separator) || exists part :: part in parts && c in part
  {
    if |parts| > 1 {
      JoinedCharacters(parts[1..], separator, c);
      assert forall part :: part in parts <==> part == parts[0] || part in parts[1..];
    }
  }

  // ── numerals ─────────────────────────────────────────────────────────────

  function DigitChar(d: nat): char
    requires d < 16
  {
    if d < 10 then '0' + d as char else 'a' + (d - 10) as char
  }

  /** The value of a lower-case digit, at least 16 for any other character. */
  function DigitValue(c: char): nat {
    if '0' <= c <= '9' then c as int - '0' as int
    else if 'a' <= c <= 'f' then c as int - 'a' as int + 10
    else 16
  }

  predicate IsNumeral(s: string, base: nat) {
    forall c :: c in s ==> DigitValue(c) < base
  }

  predicate IsBase(base: nat) {
    base == 10 || base == 16
  }

  /** `n * base`, `n / base` and `n % base`, for the two bases. */
  function Shifted(n: nat, base: nat): nat
    requires IsBase(base)
  {
    if base == 10 then n * 10 else n * 16
  }

  function WithoutLastDigit(n: nat, base: nat): nat
    requires IsBase(base)
  {
    if base == 10 then n / 10 else n / 16
  }

  function LastDigit(n: nat, base: nat): nat
    requires IsBase(base)
  {
    if base == 10 then n % 10 else n % 16
  }

  function Digits(n: nat, base: nat): string
    requires IsBase(base)
  {
    if n < base then [DigitChar(n)]
    else Digits(WithoutLastDigit(n, base), base) + [DigitChar(LastDigit(n, base))]
  }

  function Value(s: string, base: nat): nat
    requires IsBase(base)
  {
    if s == "" then 0 else Shifted(Value(s[..|s| - 1], base), base) + DigitValue(s[|s| - 1])
  }

  lemma ValueOfLonger(init: string, last: char, base: nat)
    requires IsBase(base)
    ensures Value(init + [last], base) == Shifted(Value(init, base), base) + DigitValue(last)
  {
    assert (init + [last])[..|init|] == init;
  }

  lemma NumberSplits(n: nat, base: nat)
    requires IsBase(base)
    ensures Shifted(WithoutLastDigit(n, base), base) + LastDigit(n, base) == n && LastDigit(n, base) < base
    ensures n >= base ==> 0 < WithoutLastDigit(n, base) < n
  {
  }

  lemma DigitIsItsValue(d: nat)
    requires d < 16
    ensures DigitValue(DigitChar(d)) == d && (d > 0 ==> DigitChar(d) != '0')
  {
  }

  /** Numbers are read back from their numerals, which have no leading zero. */
  lemma {:induction false} ValueOfDigits(n: nat, base: nat)
    requires IsBase(base)
    ensures Value(Digits(n, base), base) == n
    ensures IsNumeral(Digits(n, base), base) && Digits(n, base) != ""
    ensures n > 0 ==> Digits(n, base)[0] != '0'
    ensures |Digits(n, base)| > 1 ==> n > 0
  {
    if n < base {
      DigitIsItsValue(n);
      ValueOfLonger("", DigitChar(n), base);
      assert "" + [DigitChar(n)] == [DigitChar(n)];
    } else {
      var q, d := WithoutLastDigit(n, base), LastDigit(n, base);
      NumberSplits(n, base);
      DigitIsItsValue(d);
      ValueOfDigits(q, base);
      ValueOfLonger(Digits(q, base), DigitChar(d), base);
    }
  }

  /** The least number that takes more than `k` digits. */
  function Bound(k: nat, base: nat): nat
    requires IsBase(base)
  {
    if k == 0 then 1 else Shifted(Bound(k - 1, base), base)
  }

  lemma {:induction false} DigitsLength(n: nat, k: nat, base: nat)
    requires IsBase(base) && k > 0 && n < Bound(k, base)
    ensures |Digits(n, base)| <= k
  {
    if n >= base {
      DigitsLength(WithoutLastDigit(n, base), k - 1, base);
    }
  }

  lemma DigitsOfPair(q: nat, d: nat, base: nat)
    requires IsBase(base) && d < base && q > 0
    ensures Shifted(q, base) + d > 0 && Digits(Shifted(q, base) + d, base) == Digits(q, base) + [DigitChar(d)]
  {
    var n := Shifted(q, base) + d;
    NumberSplits(n, base);
    assert WithoutLastDigit(n, base) == q && LastDigit(n, base) == d;
  }

  lemma DigitsOfLonger(init: string, last: char, base: nat)
    requires IsBase(base) && DigitValue(last) < base && DigitChar(DigitValue(last)) == last
    requires Digits(Value(init, base), base) == init && Value(init, base) > 0
    ensures Digits(Value(init + [last], base), base) == init + [last] && Value(init + [last], base) > 0
  {
    ValueOfLonger(init, last, base);
    DigitsOfPair(Value(init, base), DigitValue(last), base);
  }

  lemma DigitIsItself(c: char)
    ensures DigitValue(c) < 16 ==> DigitChar(DigitValue(c)) == c
  {
  }

  lemma NumeralWithoutLast(s: string, base: nat)
    requires IsBase(base) && IsNumeral(s, base) && s != ""
    ensures IsNumeral(s[..|s| - 1], base) && DigitValue(s[|s| - 1]) < base
    ensures DigitChar(DigitValue(s[|s| - 1])) == s[|s| - 1]
  {
    var init, last := s[..|s| - 1], s[|s| - 1];
    DigitIsItself(last);
    assert last in s;
    assert forall c :: c in init ==> c in s;
  }

  /** A numeral without a leading zero is the one its value is printed as. */
  lemma {:induction false} DigitsOfValue(s: string, base: nat)
    requires IsBase(base) && IsNumeral(s, base) && s != "" && (|s| > 1 ==> s[0] != '0')
    ensures Digits(Value(s, base), base) == s
    ensures s != "0" ==> Value(s, base) > 0
  {
    var init, last := s[..|s| - 1], s[|s| - 1];
    NumeralWithoutLast(s, base);
    assert s == init + [last];
    if init == "" {
      assert Value(s, base) == DigitValue(last);
    } else {
      DigitsOfValue(init, base);
      DigitsOfLonger(init, last, base);
    }
  }
}
