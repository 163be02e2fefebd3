/** Text primitives shared by the tokenizer, the version parser and the exporters:
    splitting and joining on a separator, decimal numerals, lines and words. */
module Text {

  // ----- Splitting and joining -----

  /** `s.find(c, from)`: the first position of `c` at or after `from`, or `|s|` when there is none. */
  function FindFrom(s: string, c: char, from: nat): (r: nat)
    requires from <= |s|
    ensures from <= r <= |s|
    ensures forall k :: from <= k < r ==> s[k] != c
    ensures r < |s| ==> s[r] == c
    decreases |s| - from
  {
    if from == |s| || s[from] == c then from else FindFrom(s, c, from + 1)
  }

  function Find(s: string, c: char): (r: nat)
    ensures r <= |s|
  {
    FindFrom(s, c, 0)
  }

  /** The fields of `s` between separators; a string always has at least one field. */
  function Split(s: string, c: char): (parts: seq<string>)
    ensures parts != []
    decreases |s|
  {
    var e := Find(s, c);
    if e == |s| then [s] else [s[..e]] + Split(s[e + 1..], c)
  }

  function Join(parts: seq<string>, c: char): string
    requires parts != []
  {
    if |parts| == 1 then parts[0] else parts[0] + [c] + Join(parts[1..], c)
  }

  predicate Free(s: string, c: char) { c !in s }

  ghost predicate AllFree(parts: seq<string>, c: char) {
    forall k :: 0 <= k < |parts| ==> Free(parts[k], c)
  }

  lemma {:induction false} JoinSplit(s: string, c: char)
    ensures AllFree(Split(s, c), c)
    ensures Join(Split(s, c), c) == s
    decreases |s|
  {
    var e := Find(s, c);
    if e < |s| {
      var rest := s[e + 1..];
      JoinSplit(rest, c);
      var parts := Split(s, c);
      assert parts[0] == s[..e] && parts[1..] == Split(rest, c);
      assert s == s[..e] + [c] + rest;
    }
  }

  /** One field and its separator in front of any text are split off as one field. */
  lemma SplitField(a: string, b: string, c: char)
    requires Free(a, c)
    ensures Split(a + [c] + b, c) == [a] + Split(b, c)
  {
    var s := a + [c] + b;
    assert s[..|a|] == a && s[|a|] == c && s[|a| + 1..] == b;
    assert Find(s, c) == |a|;
  }

  lemma SplitLast(a: string, c: char)
    requires Free(a, c)
    ensures Split(a, c) == [a]
  {
    assert Find(a, c) == |a|;
  }

  lemma {:induction false} SplitJoin(parts: seq<string>, c: char)
    requires parts != [] && AllFree(parts, c)
    ensures Split(Join(parts, c), c) == parts
  {
    assert Free(parts[0], c);
    if |parts| == 1 {
      SplitLast(parts[0], c);
    } else {
      assert AllFree(parts[1..], c);
      SplitJoin(parts[1..], c);
      SplitField(parts[0], Join(parts[1..], c), c);
    }
  }

  // ----- Lines -----

  /** Each line followed by a newline, as `std::endl` writes it. */
  function Unlines(lines: seq<string>): string {
    if lines == [] then "" else lines[0] + "\n" + Unlines(lines[1..])
  }

  lemma Assoc<T>(a: seq<T>, b: seq<T>, c: seq<T>)
    ensures a + b + c == a + (b + c)
  {
  }

  lemma {:induction false} UnlinesAppend(a: seq<string>, b: seq<string>)
    ensures Unlines(a + b) == Unlines(a) + Unlines(b)
  {
    if a == [] {
      assert a + b == b;
    } else {
      var rest := a[1..];
      assert (a + b)[1..] == rest + b;
      UnlinesAppend(rest, b);
      Assoc(a[0] + "\n", Unlines(rest), Unlines(b));
    }
  }

  lemma {:induction false} SplitUnlines(lines: seq<string>)
    requires AllFree(lines, '\n')
    ensures Split(Unlines(lines), '\n') == lines + [""]
  {
    if lines == [] {
    } else {
      var rest := lines[1..];
      assert Free(lines[0], '\n') && AllFree(rest, '\n');
      SplitUnlines(rest);
      SplitField(lines[0], Unlines(rest), '\n');
      assert Unlines(lines) == lines[0] + ['\n'] + Unlines(rest);
      assert [lines[0]] + (rest + [""]) == lines + [""];
    }
  }

  /** The lines of a text that was written line by line; what follows the last newline is dropped. */
  function Lines(s: string): seq<string> {
    var parts := Split(s, '\n');
    parts[..|parts| - 1]
  }

  lemma LinesUnlines(lines: seq<string>)
    requires AllFree(lines, '\n')
    ensures Lines(Unlines(lines)) == lines
  {
    SplitUnlines(lines);
  }

  // ----- Words -----

  function Spaces(n: nat): (s: string)
    ensures |s| == n
    ensures forall k :: 0 <= k < n ==> s[k] == ' '
  {
    seq(n, _ => ' ')
  }

  /** The maximal runs of characters other than a space. */
  function Words(s: string): (words: seq<string>)
    ensures forall k :: 0 <= k < |words| ==> words[k] != ""
    decreases |s|
  {
    if s == "" then []
    else if s[0] == ' ' then Words(s[1..])
    else
      var e := Find(s, ' ');
      [s[..e]] + Words(s[e..])
  }

  predicate IsWord(w: string) { w != "" && Free(w, ' ') }

  lemma {:induction false} WordsAfterSpaces(n: nat, s: string)
    ensures Words(Spaces(n) + s) == Words(s)
  {
    if n == 0 {
      assert Spaces(n) + s == s;
    } else {
      WordsAfterSpaces(n - 1, s);
      assert (Spaces(n) + s)[1..] == Spaces(n - 1) + s;
    }
  }

  lemma WordsOne(w: string)
    requires IsWord(w)
    ensures Words(w) == [w]
  {
    assert Find(w, ' ') == |w|;
    assert w[|w|..] == "";
    assert w[..|w|] == w;
    assert Words("") == [];
  }

  lemma WordsCons(w: string, n: nat, s: string)
    requires IsWord(w) && n > 0
    ensures Words(w + Spaces(n) + s) == [w] + Words(s)
  {
    var t := w + Spaces(n) + s;
    assert t[..|w|] == w && t[|w|] == ' ' && t[|w|..] == Spaces(n) + s;
    assert Find(t, ' ') == |w|;
    WordsAfterSpaces(n, s);
  }

  // ----- Decimal numerals -----

  predicate IsDigit(c: char) { '0' <= c <= '9' }

  ghost predicate AllDigits(s: string) {
    forall k :: 0 <= k < |s| ==> IsDigit(s[k])
  }

  function DigitText(n: nat): (s: string)
    requires n < 10
    ensures |s| == 1 && IsDigit(s[0]) && s[0] as int == '0' as int + n
  {
    [('0' as int + n) as char]
  }

  function Decimal(n: nat): (s: string)
    ensures s != "" && AllDigits(s)
  {
    if n < 10 then DigitText(n) else Decimal(n / 10) + DigitText(n % 10)
  }

  /** What a run of digits denotes; characters other than digits count nothing. */
  function Value(s: string): nat {
    if s == "" then 0 else
      var c := s[|s| - 1];
      Value(s[..|s| - 1]) * 10 + (if IsDigit(c) then c as int - '0' as int else 0)
  }

  lemma {:induction false} ValueOfDecimal(n: nat)
    ensures Value(Decimal(n)) == n
  {
    var s := Decimal(n);
    assert Value("") == 0;
    if n < 10 {
      assert s[..|s| - 1] == "";
    } else {
      ValueOfDecimal(n / 10);
      assert s[..|s| - 1] == Decimal(n / 10);
    }
  }

  lemma DecimalIsFreeOf(n: nat, c: char)
    requires !IsDigit(c)
    ensures Free(Decimal(n), c)
  {
  }

  /** How `operator<<` writes a signed integer. */
  function IntText(i: int): string {
    if i < 0 then "-" + Decimal(-i) else Decimal(i)
  }
}
