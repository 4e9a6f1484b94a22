/**
 Text primitives shared by the report parsers and the erase-progress tracker:
 Python's notions of whitespace and digits (restricted to ASCII), substring
 search, `str.strip()`, `str.split()` with no argument, `str.splitlines()`,
 and the decimal reading (`int(...)`) and rendering (`str(...)`) of integers.
 */
module TextUtil {

  datatype Option<+T> = None | Some(value: T)

  /** Python's `str.isspace()` (and the regex class `\s`) on ASCII characters. */
  predicate IsSpace(c: char) {
    c == ' ' || c == '\t' || c == '\n' || c == '\r' || c == '\U{B}' || c == '\U{C}'
    || ('\U{1C}' <= c <= '\U{1F}')
  }

  /** The regex class `\d` on ASCII characters. */
  predicate IsDigit(c: char) {
    '0' <= c <= '9'
  }

  /** The regex class `[a-zA-Z0-9_]`. */
  predicate IsWordChar(c: char) {
    ('a' <= c <= 'z') || ('A' <= c <= 'Z') || IsDigit(c) || c == '_'
  }

  /** The characters at which Python's `str.splitlines()` breaks a line. */
  predicate IsLineBreak(c: char) {
    c == '\n' || c == '\r' || c == '\U{B}' || c == '\U{C}' || c == '\U{1C}' || c == '\U{1D}'
    || c == '\U{1E}' || c == '\U{85}' || c == '\U{2028}' || c == '\U{2029}'
  }

  /** The character sets the scanners below run over. */
  datatype CharSet =
    | Spaces           // \s
    | NonSpaces        // \S
    | Digits           // \d
    | NonDigits        // \D
    | WordChars        // [a-zA-Z0-9_]
    | NotLineBreaks    // what splitlines() keeps inside a line
    | Except(c: char)  // everything but one character

  predicate In(c: char, k: CharSet) {
    match k
    case Spaces => IsSpace(c)
    case NonSpaces => !IsSpace(c)
    case Digits => IsDigit(c)
    case NonDigits => !IsDigit(c)
    case WordChars => IsWordChar(c)
    case NotLineBreaks => !IsLineBreak(c)
    case Except(x) => c != x
  }

  predicate AllChars(s: string, k: CharSet) {
    forall i :: 0 <= i < |s| ==> In(s[i], k)
  }

  predicate AllDigits(s: string) {
    AllChars(s, Digits)
  }

  lemma AllCharsAppend(a: string, b: string, k: CharSet)
    ensures AllChars(a + b, k) <==> AllChars(a, k) && AllChars(b, k)
  {
    if AllChars(a, k) && AllChars(b, k) {
      forall i | 0 <= i < |a + b| ensures In((a + b)[i], k) {
        if i >= |a| {
          assert (a + b)[i] == b[i - |a|];
        }
      }
    }
    if AllChars(a + b, k) {
      forall i | 0 <= i < |a| ensures In(a[i], k) {
        assert (a + b)[i] == a[i];
      }
      forall i | 0 <= i < |b| ensures In(b[i], k) {
        assert (a + b)[|a| + i] == b[i];
      }
    }
  }

  /** Length of the longest prefix of `s` whose characters all belong to `k`. */
  function Span(s: string, k: CharSet): (n: nat)
    ensures n <= |s|
    ensures forall i :: 0 <= i < n ==> In(s[i], k)
    ensures n < |s| ==> !In(s[n], k)
  {
    SpanFrom(s, k, 0)
  }

  /** The end of the run of `k`-characters that starts at `from`. */
  function SpanFrom(s: string, k: CharSet, from: nat): (n: nat)
    requires from <= |s|
    ensures from <= n <= |s|
    ensures forall i :: from <= i < n ==> In(s[i], k)
    ensures n < |s| ==> !In(s[n], k)
    decreases |s| - from
  {
    if from < |s| && In(s[from], k) then SpanFrom(s, k, from + 1) else from
  }

  /** The run from `from` is unique: any stretch of `k`-characters followed by a non-`k` character (or the end) is it. */
  lemma SpanFromUnique(s: string, k: CharSet, from: nat, e: nat)
    requires from <= e <= |s|
    requires forall i :: from <= i < e ==> In(s[i], k)
    requires e < |s| ==> !In(s[e], k)
    ensures SpanFrom(s, k, from) == e
  {
  }

  /** Where `a + b` occurs at `i`, with `a` made of `k`-characters and `b` starting with another, the run from `i` is `a` and `b` follows it. */
  lemma RunOfOccurrence(s: string, i: nat, a: string, b: string, k: CharSet)
    requires OccursAt(s, a + b, i) && AllChars(a, k) && |b| > 0 && !In(b[0], k)
    ensures SpanFrom(s, k, i) == i + |a| && OccursAt(s, b, i + |a|)
  {
    var x := a + b;
    forall j | 0 <= j < |x| ensures s[i + j] == x[j] {
      assert s[i..i + |x|][j] == s[i + j];
    }
    forall j | i <= j < i + |a| ensures In(s[j], k) {
      assert s[j] == x[j - i] == a[j - i];
    }
    assert s[i + |a|] == x[|a|] == b[0];
    SpanFromUnique(s, k, i, i + |a|);
    forall j | 0 <= j < |b| ensures s[i + |a|..i + |x|][j] == b[j] {
      assert s[i + |a| + j] == x[|a| + j];
    }
    assert s[i + |a|..i + |a| + |b|] == b;
  }

  /** The run from `from`, cut out of `s`, consists of `k`-characters. */
  lemma RunFrom(s: string, k: CharSet, from: nat)
    requires from <= |s|
    ensures AllChars(s[from..SpanFrom(s, k, from)], k)
  {
    var e := SpanFrom(s, k, from);
    assert forall j :: 0 <= j < e - from ==> s[from..e][j] == s[from + j];
  }

  /** The maximal prefix is unique: any prefix of `k`-characters followed by a non-`k` character (or the end) is it. */
  lemma SpanUnique(s: string, k: CharSet, n: nat)
    requires n <= |s|
    requires forall i :: 0 <= i < n ==> In(s[i], k)
    requires n < |s| ==> !In(s[n], k)
    ensures Span(s, k) == n
  {
  }

  /** An occurrence inside a prefix is an occurrence in the whole string. */
  lemma OccursInPrefix(s: string, n: nat, sub: string, j: int)
    requires n <= |s| && OccursAt(s[..n], sub, j)
    ensures OccursAt(s, sub, j) && j + |sub| <= n
  {
    assert s[j..j + |sub|] == s[..n][j..j + |sub|];
  }

  /** Python's `str.lstrip()` (the regex `^\s*`). */
  function DropSpaces(s: string): (r: string)
    ensures |r| <= |s| && Span(s, Spaces) == |s| - |r|
    ensures r == "" || !IsSpace(r[0])
    ensures forall i :: 0 <= i < |s| - |r| ==> IsSpace(s[i])
  {
    s[Span(s, Spaces)..]
  }

  /** Drops trailing whitespace (Python's `str.rstrip()`). */
  function DropTrailingSpaces(s: string): (r: string)
    ensures |r| <= |s| && r == s[..|r|]
    ensures r == "" || !IsSpace(r[|r| - 1])
    ensures forall i :: |r| <= i < |s| ==> IsSpace(s[i])
    decreases |s|
  {
    if |s| > 0 && IsSpace(s[|s| - 1]) then DropTrailingSpaces(s[..|s| - 1]) else s
  }

  /** Python's `str.strip()`. */
  function Strip(s: string): (r: string)
    ensures r == "" || (!IsSpace(r[0]) && !IsSpace(r[|r| - 1]))
    ensures r == "" <==> AllChars(s, Spaces)
  {
    DropTrailingSpaces(DropSpaces(s))
  }

  predicate EndsWithSpace(s: string) {
    |s| > 0 && IsSpace(s[|s| - 1])
  }

  /** `sub` occurs in `s` at position `i`. */
  predicate OccursAt(s: string, sub: string, i: int) {
    0 <= i && i + |sub| <= |s| && s[i..i + |sub|] == sub
  }

  /** The leftmost occurrence of `sub` in `s` at or after `from` (Python's `s.find(sub, from)`). */
  function FindFrom(s: string, sub: string, from: nat): (r: Option<nat>)
    requires from <= |s|
    ensures r.Some? ==> from <= r.value && OccursAt(s, sub, r.value)
    ensures r.Some? ==> forall j :: from <= j < r.value ==> !OccursAt(s, sub, j)
    ensures r.None? ==> forall j :: from <= j ==> !OccursAt(s, sub, j)
    decreases |s| - from
  {
    if from + |sub| > |s| then None
    else if s[from..from + |sub|] == sub then Some(from)
    else if from == |s| then None
    else FindFrom(s, sub, from + 1)
  }

  /** Python's `sub in s`. */
  predicate Contains(s: string, sub: string) {
    FindFrom(s, sub, 0).Some?
  }

  lemma ContainsAt(s: string, sub: string, i: int)
    requires OccursAt(s, sub, i)
    ensures Contains(s, sub)
  {
  }

  /** The text before the leftmost occurrence of `sub` does not contain `sub`. */
  lemma NothingBeforeFirst(s: string, sub: string, i: nat)
    requires |sub| > 0 && FindFrom(s, sub, 0) == Some(i)
    ensures !Contains(s[..i], sub)
  {
    if Contains(s[..i], sub) {
      OccursInPrefix(s, i, sub, FindFrom(s[..i], sub, 0).value);
    }
  }

  /** A string lacking one of `sub`'s characters does not contain `sub`. */
  lemma LacksChar(s: string, sub: string, k: nat)
    requires k < |sub| && AllChars(s, Except(sub[k]))
    ensures !Contains(s, sub)
  {
  }

  /** The leftmost position of character `c` in `s`. */
  function IndexOf(s: string, c: char): (r: Option<nat>)
    ensures r.Some? ==> r.value < |s| && s[r.value] == c && forall j :: 0 <= j < r.value ==> s[j] != c
    ensures r.None? ==> forall j :: 0 <= j < |s| ==> s[j] != c
  {
    var n := Span(s, Except(c));
    if n < |s| then Some(n) else None
  }

  /**
   Python's `str.split()` with no argument: the maximal runs of non-whitespace
   characters, in order.
   */
  function Tokens(s: string): (r: seq<string>)
    ensures forall i :: 0 <= i < |r| ==> |r[i]| > 0 && AllChars(r[i], NonSpaces)
    decreases |s|
  {
    var t := DropSpaces(s);
    if t == "" then []
    else
      var m := Span(t, NonSpaces);
      assert m > 0;
      var tok := t[..m];
      assert |tok| > 0 && AllChars(tok, NonSpaces);
      [tok] + Tokens(t[m..])
  }

  /** Leading whitespace never changes the tokens. */
  lemma TokensDropSpaces(s: string)
    ensures Tokens(DropSpaces(s)) == Tokens(s)
  {
    var t := DropSpaces(s);
    SpanUnique(t, Spaces, 0);
    assert DropSpaces(t) == t;
  }

  /**
   Python's `str.splitlines()`: the lines of `s` without their terminators;
   `\r\n` counts as one terminator and a final terminator adds no empty line.
   */
  function SplitLines(s: string): (r: seq<string>)
    ensures forall i :: 0 <= i < |r| ==> AllChars(r[i], NotLineBreaks)
    ensures s == "" <==> r == []
    decreases |s|
  {
    if s == "" then []
    else
      var n := Span(s, NotLineBreaks);
      if n == |s| then [s]
      else
        var skip := if s[n] == '\r' && n + 1 < |s| && s[n + 1] == '\n' then 2 else 1;
        [s[..n]] + SplitLines(s[n + skip..])
  }

  /** Each line followed by `\n`: the text `splitlines()` takes apart. */
  function JoinLines(lines: seq<string>): string
  {
    if lines == [] then "" else lines[0] + "\n" + JoinLines(lines[1..])
  }

  /** A line free of breaks followed by `\n` comes off the front of the text as one line. */
  lemma SplitLinesCons(l: string, rest: string)
    requires AllChars(l, NotLineBreaks)
    ensures SplitLines(l + "\n" + rest) == [l] + SplitLines(rest)
  {
    var s := l + "\n" + rest;
    assert s[|l|] == '\n';
    assert forall i :: 0 <= i < |l| ==> s[i] == l[i];
    SpanUnique(s, NotLineBreaks, |l|);
    assert s[..|l|] == l;
    assert s[|l| + 1..] == rest;
  }

  /** `splitlines()` recovers every list of lines written one per `\n`-terminated line. */
  lemma {:induction false} SplitLinesJoinLines(lines: seq<string>)
    requires forall i :: 0 <= i < |lines| ==> AllChars(lines[i], NotLineBreaks)
    ensures SplitLines(JoinLines(lines)) == lines
  {
    if lines != [] {
      var rest := JoinLines(lines[1..]);
      assert JoinLines(lines) == lines[0] + "\n" + rest;
      SplitLinesCons(lines[0], rest);
      SplitLinesJoinLines(lines[1..]);
      assert [lines[0]] + lines[1..] == lines;
    }
  }

  /** The value of a decimal digit. */
  function DigitValue(c: char): nat {
    if IsDigit(c) then (c as int) - ('0' as int) else 0
  }

  /** The digit character for `d`. */
  function DigitChar(d: nat): (c: char)
    requires d < 10
    ensures IsDigit(c) && DigitValue(c) == d
  {
    (('0' as int) + d) as char
  }

  /** Python's `int(s)` on a run of ASCII digits. */
  function DigitsValue(s: string): nat
    decreases |s|
  {
    if s == "" then 0 else 10 * DigitsValue(s[..|s| - 1]) + DigitValue(s[|s| - 1])
  }

  /** Python's `int(s)` on an optionally `-`-signed run of ASCII digits. */
  function SignedValue(s: string): int
  {
    if |s| > 0 && s[0] == '-' then 0 - DigitsValue(s[1..]) else DigitsValue(s)
  }

  /** Python's `str(n)` for `n >= 0`. */
  function ShowNat(n: nat): (r: string)
    ensures |r| > 0 && AllDigits(r)
    ensures |r| > 1 ==> r[0] != '0'
  {
    if n < 10 then [DigitChar(n)] else ShowNat(n / 10) + [DigitChar(n % 10)]
  }

  /** Python's `str(n)`. */
  function ShowInt(n: int): string
  {
    if n < 0 then "-" + ShowNat(-n) else ShowNat(n)
  }

  /** Reading back a rendered natural number gives the number. */
  lemma {:induction false} DigitsValueShowNat(n: nat)
    ensures DigitsValue(ShowNat(n)) == n
  {
    if n >= 10 {
      var s := ShowNat(n);
      assert s[..|s| - 1] == ShowNat(n / 10);
      DigitsValueShowNat(n / 10);
    }
  }

  /** `int(str(n)) == n`: the decimal rendering used in warnings is read back exactly by the row parser. */
  lemma SignedValueShowInt(n: int)
    ensures SignedValue(ShowInt(n)) == n
  {
    if n < 0 {
      DigitsValueShowNat(-n);
      assert ShowInt(n)[1..] == ShowNat(-n);
    } else {
      DigitsValueShowNat(n);
    }
  }
}
