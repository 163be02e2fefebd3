/** The runtime-version query: the numeric encoding of the PCP_VERSION string. */
module Version {
  import opened Text

  const ULONG_MODULUS: nat := 0x1_0000_0000_0000_0000

  /** The first release in which the inet6 option is offered, as the option table encodes it. */
  const INET6_GATE: nat := 0x30801

  // ----- strtoul in base ten -----

  predicate IsSpace(c: char) {
    c == ' ' || c == '\t' || c == '\n' || c == '\U{0B}' || c == '\U{0C}' || c == '\r'
  }

  function SkipSpaces(s: string): string {
    if s != "" && IsSpace(s[0]) then SkipSpaces(s[1..]) else s
  }

  function DigitPrefix(s: string): string {
    if s != "" && IsDigit(s[0]) then [s[0]] + DigitPrefix(s[1..]) else ""
  }

  /** White space, an optional sign, digits; no digits give 0, overflow saturates, a minus negates modulo 2^64. */
  function Strtoul(s: string): (v: nat)
    ensures v < ULONG_MODULUS
  {
    var t := SkipSpaces(s);
    var signed := t != "" && (t[0] == '-' || t[0] == '+');
    var v := Value(DigitPrefix(if signed then t[1..] else t));
    if v >= ULONG_MODULUS then ULONG_MODULUS - 1
    else if signed && t[0] == '-' && v > 0 then ULONG_MODULUS - v
    else v
  }

  lemma {:induction false} SkipSpacesStops(a: string, rest: string)
    ensures SkipSpaces(a + "." + rest) == SkipSpaces(a) + "." + rest
  {
    if a != "" && IsSpace(a[0]) {
      SkipSpacesStops(a[1..], rest);
      assert (a + "." + rest)[1..] == a[1..] + "." + rest;
    }
  }

  lemma {:induction false} DigitPrefixStops(a: string, rest: string)
    ensures DigitPrefix(a + "." + rest) == DigitPrefix(a)
  {
    if a != "" && IsDigit(a[0]) {
      DigitPrefixStops(a[1..], rest);
      assert (a + "." + rest)[1..] == a[1..] + "." + rest;
    }
  }

  /** A number ends at the first dot, so only the component in front of it matters. */
  lemma StrtoulStopsAtDot(a: string, rest: string)
    ensures Strtoul(a + "." + rest) == Strtoul(a)
  {
    SkipSpacesStops(a, rest);
    var t := SkipSpaces(a);
    if t != "" {
      assert (t + "." + rest)[1..] == t[1..] + "." + rest;
      DigitPrefixStops(t[1..], rest);
    }
    DigitPrefixStops(t, rest);
  }

  lemma {:induction false} DigitPrefixOfDigits(s: string)
    requires AllDigits(s)
    ensures DigitPrefix(s) == s
  {
    if s == "" {
    } else {
      DigitPrefixOfDigits(s[1..]);
    }
  }

  ghost predicate AllSpaces(s: string) {
    forall k :: 0 <= k < |s| ==> IsSpace(s[k])
  }

  lemma {:induction false} SkipsSpaces(spaces: string, s: string)
    requires AllSpaces(spaces) && (s != "" ==> !IsSpace(s[0]))
    ensures SkipSpaces(spaces + s) == s
  {
    if spaces == "" {
      assert spaces + s == s;
    } else {
      SkipsSpaces(spaces[1..], s);
      assert (spaces + s)[1..] == spaces[1..] + s;
    }
  }

  lemma {:induction false} DigitPrefixIs(digits: string, rest: string)
    requires AllDigits(digits) && (rest != "" ==> !IsDigit(rest[0]))
    ensures DigitPrefix(digits + rest) == digits
  {
    if digits == "" {
      assert digits + rest == rest;
    } else {
      DigitPrefixIs(digits[1..], rest);
      assert (digits + rest)[1..] == digits[1..] + rest;
    }
  }

  /** The number at the front of a text: after any white space and an optional sign, as many digits as there are. No
      digits give 0, a number that does not fit gives the greatest, and a minus wraps around. */
  lemma StrtoulReads(spaces: string, sign: string, digits: string, rest: string)
    requires AllSpaces(spaces) && (sign == "" || sign == "+" || sign == "-")
    requires AllDigits(digits) && (rest != "" ==> !IsDigit(rest[0]))
    requires sign == "" && digits == "" ==> rest == "" || (!IsSpace(rest[0]) && rest[0] != '+' && rest[0] != '-')
    ensures var v := Strtoul(spaces + (sign + (digits + rest)));
            if Value(digits) >= 0x1_0000_0000_0000_0000 then v == 0xFFFF_FFFF_FFFF_FFFF
            else if sign == "-" then (v + Value(digits)) % 0x1_0000_0000_0000_0000 == 0
            else v == Value(digits)
  {
    var number := digits + rest;
    var t := sign + number;
    assert t != "" ==> !IsSpace(t[0]) by {
      assert sign == "" ==> t == number;
      assert digits != "" ==> number[0] == digits[0] && IsDigit(digits[0]);
    }
    SkipsSpaces(spaces, t);
    DigitPrefixIs(digits, rest);
    if sign == "" {
      assert t == number;
      assert digits != "" ==> t[0] == digits[0];
      assert digits == "" ==> t == rest;
    } else {
      assert t[1..] == number;
    }
  }

  lemma StrtoulOfDecimal(n: nat)
    requires n < ULONG_MODULUS
    ensures Strtoul(Decimal(n)) == n
  {
    var s := Decimal(n);
    assert IsDigit(s[0]);
    DigitPrefixOfDigits(s);
    ValueOfDecimal(n);
  }

  // ----- The encoding -----

  /** The last position of `c` in `s`, or `|s|` when there is none. */
  function FindLast(s: string, c: char): (r: nat)
    ensures r <= |s|
    decreases |s|
  {
    var e := Find(s, c);
    if e == |s| then e
    else
      var inner := FindLast(s[e + 1..], c);
      if inner == |s| - e - 1 then e else e + 1 + inner
  }

  lemma {:induction false} FindLastIsLast(s: string, c: char)
    ensures var r := FindLast(s, c);
            (r < |s| ==> s[r] == c) && forall k :: 0 <= k < |s| && s[k] == c ==> k <= r < |s|
    decreases |s|
  {
    var e := Find(s, c);
    if e < |s| {
      var rest := s[e + 1..];
      FindLastIsLast(rest, c);
      assert forall k :: e < k < |s| ==> s[k] == rest[k - e - 1];
    }
  }

  /** Three numbers packed as `unsigned long` arithmetic packs them. */
  function Encode(a: nat, b: nat, c: nat): nat {
    (a * 0x1_0000 + b * 0x100 + c) % ULONG_MODULUS
  }

  /** Where the three numbers start: at the front, after the first dot and after the last dot; nowhere with fewer than
      two dots. */
  function NumberStarts(s: string): (starts: seq<string>)
    ensures |starts| == 0 || |starts| == 3
  {
    var first, last := Find(s, '.'), FindLast(s, '.');
    if first == last then [] else [s, s[first + 1..], s[last + 1..]]
  }

  /** `get_pcp_runtime_version` */
  function RuntimeVersion(s: string): nat {
    var starts := NumberStarts(s);
    if starts == [] then 0 else Encode(Strtoul(starts[0]), Strtoul(starts[1]), Strtoul(starts[2]))
  }

  /** The text after the last dot, or all of it. */
  function AfterLastDot(s: string): string {
    var last := FindLast(s, '.');
    if last < |s| then s[last + 1..] else s
  }

  lemma AfterLastDotStep(s: string)
    ensures var e := Find(s, '.');
            AfterLastDot(s) == if e < |s| then AfterLastDot(s[e + 1..]) else s
  {
    var e := Find(s, '.');
    if e < |s| {
      var rest := s[e + 1..];
      var inner := FindLast(rest, '.');
      if inner < |rest| {
        assert s[e + 1 + inner + 1..] == rest[inner + 1..];
      }
    }
  }

  lemma {:induction false} LastField(s: string)
    ensures var parts := Split(s, '.'); parts[|parts| - 1] == AfterLastDot(s)
    decreases |s|
  {
    var e, parts := Find(s, '.'), Split(s, '.');
    AfterLastDotStep(s);
    if e < |s| {
      var tail := Split(s[e + 1..], '.');
      LastField(s[e + 1..]);
      assert parts == [s[..e]] + tail;
      assert parts[|parts| - 1] == tail[|tail| - 1];
    } else {
      assert parts == [s];
    }
  }

  lemma FirstField(s: string)
    ensures Strtoul(s) == Strtoul(Split(s, '.')[0])
  {
    var e := Find(s, '.');
    if e < |s| {
      assert s == s[..e] + "." + s[e + 1..];
      StrtoulStopsAtDot(s[..e], s[e + 1..]);
    }
  }

  lemma OneDot(s: string)
    requires Find(s, '.') < |s|
    ensures Find(s, '.') == FindLast(s, '.') <==> |Split(s, '.')| == 2
  {
    var e := Find(s, '.');
    var rest := s[e + 1..];
    assert |Split(rest, '.')| == 1 <==> Find(rest, '.') == |rest|;
  }

  lemma NumberStartsAtFields(s: string)
    ensures var parts, starts := Split(s, '.'), NumberStarts(s);
            if |parts| < 3 then starts == []
            else
              && |starts| == 3 && starts[0] == s
              && Split(starts[1], '.')[0] == parts[1] && starts[2] == parts[|parts| - 1]
  {
    var e := Find(s, '.');
    if e < |s| {
      OneDot(s);
      LastField(s);
      assert Split(s, '.') == [s[..e]] + Split(s[e + 1..], '.');
    }
  }

  /** What the query computes for every version string, by its dot-separated components. */
  lemma VersionByComponents(s: string)
    ensures var parts := Split(s, '.');
            RuntimeVersion(s) ==
            if |parts| < 3 then 0 else Encode(Strtoul(parts[0]), Strtoul(parts[1]), Strtoul(parts[|parts| - 1]))
  {
    var starts := NumberStarts(s);
    NumberStartsAtFields(s);
    if starts != [] {
      FirstField(starts[0]);
      FirstField(starts[1]);
    }
  }

  function VersionText(a: nat, b: nat, c: nat): string {
    Decimal(a) + "." + (Decimal(b) + "." + Decimal(c))
  }

  ghost predicate VersionAtLeast(a: nat, b: nat, c: nat, a': nat, b': nat, c': nat) {
    a > a' || (a == a' && (b > b' || (b == b' && c >= c')))
  }

  lemma VersionTextComponents(a: nat, b: nat, c: nat)
    ensures Split(VersionText(a, b, c), '.') == [Decimal(a), Decimal(b), Decimal(c)]
  {
    DecimalIsFreeOf(a, '.');
    DecimalIsFreeOf(b, '.');
    DecimalIsFreeOf(c, '.');
    SplitLast(Decimal(c), '.');
    SplitField(Decimal(b), Decimal(c), '.');
    SplitField(Decimal(a), Decimal(b) + "." + Decimal(c), '.');
    assert VersionText(a, b, c) == Decimal(a) + "." + (Decimal(b) + "." + Decimal(c));
  }

  lemma EncodedText(a: nat, b: nat, c: nat)
    requires a < ULONG_MODULUS && b < ULONG_MODULUS && c < ULONG_MODULUS
    ensures RuntimeVersion(VersionText(a, b, c)) == Encode(a, b, c)
  {
    var s := VersionText(a, b, c);
    VersionTextComponents(a, b, c);
    var parts := Split(s, '.');
    assert RuntimeVersion(s) == Encode(Strtoul(parts[0]), Strtoul(parts[1]), Strtoul(parts[2])) by {
      VersionByComponents(s);
    }
    StrtoulOfDecimal(a);
    StrtoulOfDecimal(b);
    StrtoulOfDecimal(c);
  }

  /** Three numbers of any size are packed as unsigned 64-bit arithmetic packs them. */
  lemma VersionOfText(a: nat, b: nat, c: nat)
    requires a < ULONG_MODULUS && b < ULONG_MODULUS && c < ULONG_MODULUS
    ensures RuntimeVersion(VersionText(a, b, c)) == (a * 0x1_0000 + b * 0x100 + c) % 0x1_0000_0000_0000_0000
  {
    EncodedText(a, b, c);
    assert ULONG_MODULUS == 0x1_0000_0000_0000_0000;
  }

  lemma EncodeFits(a: nat, b: nat, c: nat)
    requires a < 256 && b < 256 && c < 256
    ensures Encode(a, b, c) == a * 0x1_0000 + b * 0x100 + c
  {
    assert a * 0x1_0000 + b * 0x100 + c < ULONG_MODULUS;
  }

  /** The encoding of a three-component version is exact while every component fits in its byte. */
  lemma VersionIsExact(a: nat, b: nat, c: nat)
    requires a < 256 && b < 256 && c < 256
    ensures RuntimeVersion(VersionText(a, b, c)) == a * 0x1_0000 + b * 0x100 + c
  {
    EncodedText(a, b, c);
    EncodeFits(a, b, c);
  }

  /** Comparing encodings is comparing versions, so the inet6 gate means "3.8.1 or later". */
  lemma EncodingOrdersVersions(a: nat, b: nat, c: nat, a': nat, b': nat, c': nat)
    requires a < 256 && b < 256 && c < 256 && a' < 256 && b' < 256 && c' < 256
    ensures RuntimeVersion(VersionText(a, b, c)) >= RuntimeVersion(VersionText(a', b', c'))
            <==> VersionAtLeast(a, b, c, a', b', c')
    ensures RuntimeVersion(VersionText(a, b, c)) >= INET6_GATE <==> VersionAtLeast(a, b, c, 3, 8, 1)
  {
    VersionIsExact(a, b, c);
    VersionIsExact(a', b', c');
  }
}
