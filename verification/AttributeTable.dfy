/**
 The `smartctl -A` attribute-table parser (`parse_smart_attributes`), shared
 by the graphical and the console program; the console stops at one more
 section marker.
 */
module AttributeTable {
  import opened TextUtil

  /** One parsed table row. The Flags and When_Failed columns are not kept. */
  datatype Attribute = Attribute(
    id: int,
    name: string,
    current: int,
    worst: int,
    threshold: int,
    kind: string,
    updated: string,
    rawValue: int)

  /** The two programs whose parsers differ in their list of section markers. */
  datatype Program = Gui | Console

  const HeaderMarker: string := "ID# ATTRIBUTE_NAME"

  /** The character class of one capture group of the row regex. */
  datatype FieldClass =
    | DigitRun        // (\d+)
    | WordRun         // ([a-zA-Z0-9_]+)
    | NonSpaceRun     // (\S+)
    | SignedDigitRun  // ([-]?\d+)

  /** ID, Name, Flags, Current, Worst, Threshold, Type, Updated, When_Failed, Raw_Value. */
  const RowPattern: seq<FieldClass> :=
    [DigitRun, WordRun, NonSpaceRun, DigitRun, DigitRun, DigitRun, NonSpaceRun, NonSpaceRun, NonSpaceRun, SignedDigitRun]

  /**
   Length of the text a capture group of class `k` matches greedily at the
   start of `s`; 0 when it cannot match there. Every class is a subset of
   `\S`, so the greedy length is the only one the rest of the regex can use.
   */
  function PieceLength(s: string, k: FieldClass): (n: nat)
    ensures n <= |s|
  {
    match k
    case DigitRun => Span(s, Digits)
    case WordRun => Span(s, WordChars)
    case NonSpaceRun => Span(s, NonSpaces)
    case SignedDigitRun =>
      if |s| > 0 && s[0] == '-' then
        var d := Span(s[1..], Digits);
        if d == 0 then 0 else 1 + d
      else Span(s, Digits)
  }

  /** Python's `$` without MULTILINE: the end, or just before a final newline. */
  predicate AtLineEnd(s: string) {
    s == "" || s == "\n"
  }

  /**
   The capture groups `pat` matched from the start of `s`, each followed by
   `\s+` except the last, which must be followed by `$`.
   */
  function MatchPieces(s: string, pat: seq<FieldClass>): (r: Option<seq<string>>)
    requires |pat| > 0
    ensures r.Some? ==> |r.value| == |pat|
    decreases |pat|
  {
    var n := PieceLength(s, pat[0]);
    if n == 0 then None
    else if |pat| == 1 then
      if AtLineEnd(s[n..]) then Some([s[..n]]) else None
    else if n == |s| || !IsSpace(s[n]) then None  // `\s+` needs at least one space
    else
      match MatchPieces(DropSpaces(s[n..]), pat[1..])  // greedy `\s+` takes them all
      case None => None
      case Some(rest) => Some([s[..n]] + rest)
  }

  /** `attribute_pattern.match(line)`: `^\s*` and the ten groups. */
  function MatchRowRegex(line: string): (r: Option<seq<string>>)
    ensures r.Some? ==> |r.value| == 10
  {
    MatchPieces(DropSpaces(line), RowPattern)
  }

  /** Whole token `t` belongs to the class `k`. */
  predicate FitsClass(t: string, k: FieldClass) {
    match k
    case DigitRun => |t| > 0 && AllChars(t, Digits)
    case WordRun => |t| > 0 && AllChars(t, WordChars)
    case NonSpaceRun => |t| > 0 && AllChars(t, NonSpaces)
    case SignedDigitRun =>
      var u := if |t| > 0 && t[0] == '-' then t[1..] else t;
      |u| > 0 && AllChars(u, Digits)
  }

  /** Token `i` belongs to the class of column `i`, for every column. */
  predicate TokensFit(toks: seq<string>, pat: seq<FieldClass>) {
    |toks| == |pat| && (pat == [] || (FitsClass(toks[0], pat[0]) && TokensFit(toks[1..], pat[1..])))
  }

  /**
   The token-level reading of the row regex: exactly ten whitespace-separated
   tokens, nothing after the last one, and each token in its column's class.
   */
  predicate IsTokenRow(line: string) {
    TokensFit(Tokens(line), RowPattern) && !EndsWithSpace(line)
  }

  predicate NoNewline(s: string) {
    forall i :: 0 <= i < |s| ==> s[i] != '\n'
  }

  /** The record built from the ten groups: int of ID, Current, Worst, Threshold and Raw_Value. */
  function ToAttribute(f: seq<string>): Attribute
    requires |f| == 10
  {
    Attribute(DigitsValue(f[0]), f[1], DigitsValue(f[3]), DigitsValue(f[4]), DigitsValue(f[5]),
              f[6], f[7], SignedValue(f[9]))
  }

  /** The record a line yields, if the row regex matches it. */
  function MatchRow(line: string): Option<Attribute>
  {
    match MatchRowRegex(line)
    case None => None
    case Some(f) => Some(ToAttribute(f))
  }

  predicate IsHeader(line: string) {
    Contains(line, HeaderMarker)
  }

  /** A line that ends the attribute window. */
  predicate IsTerminator(line: string, prog: Program) {
    Strip(line) == ""
    || Contains(line, "SMART Error Log")
    || Contains(line, "SMART Self-test Log")
    || (prog == Console && Contains(line, "Vendor Specific SMART Attributes"))
  }

  /** The parsing loop over `lines`; `started` is the source's `start_parsing` flag. */
  function ParseLines(lines: seq<string>, started: bool, prog: Program): seq<Attribute>
    decreases |lines|
  {
    if lines == [] then []
    else if IsHeader(lines[0]) then ParseLines(lines[1..], true, prog)
    else if !started then ParseLines(lines[1..], false, prog)
    else if IsTerminator(lines[0], prog) then []
    else
      match MatchRow(lines[0])
      case Some(a) => [a] + ParseLines(lines[1..], true, prog)
      case None => ParseLines(lines[1..], true, prog)
  }

  /** `parse_smart_attributes(text)`. */
  function ParseSmartAttributes(text: string, prog: Program): seq<Attribute>
  {
    ParseLines(SplitLines(text), false, prog)
  }

  /** Reference reading of a window: every non-header line that matches the row regex, in order. */
  function Rows(window: seq<string>): seq<Attribute>
  {
    if window == [] then []
    else
      var rest := Rows(window[1..]);
      if IsHeader(window[0]) then rest
      else match MatchRow(window[0])
        case Some(a) => [a] + rest
        case None => rest
  }

  // ---------------------------------------------------------------------
  // The row regex is a token-level predicate.
  // ---------------------------------------------------------------------

  /** The maximal run of `k`-characters is followed by a space or the end iff it is the whole first token. */
  lemma RunVsToken(s: string, k: CharSet)
    requires forall c :: In(c, k) ==> !IsSpace(c)
    ensures var n := Span(s, k); var m := Span(s, NonSpaces);
      (n > 0 && (n == |s| || IsSpace(s[n]))) <==> (m > 0 && AllChars(s[..m], k))
    ensures var n := Span(s, k); var m := Span(s, NonSpaces);
      (m > 0 && AllChars(s[..m], k)) ==> n == m
  {
    var n := Span(s, k);
    var m := Span(s, NonSpaces);
    if n > 0 && (n == |s| || IsSpace(s[n])) {
      SpanUnique(s, NonSpaces, n);
      assert AllChars(s[..m], k) by {
        forall i | 0 <= i < m ensures In(s[..m][i], k) {
          assert s[..m][i] == s[i];
        }
      }
    }
    if m > 0 && AllChars(s[..m], k) {
      forall i | 0 <= i < m ensures In(s[i], k) {
        assert s[..m][i] == s[i];
      }
      SpanUnique(s, k, m);
    }
  }

  /** The signed class on a string that starts with `-`. */
  lemma SignedRunWithMinus(s: string)
    requires |s| > 0 && s[0] == '-'
    ensures var n := PieceLength(s, SignedDigitRun); var m := Span(s, NonSpaces);
      (n > 0 && (n == |s| || IsSpace(s[n]))) <==> (m > 0 && FitsClass(s[..m], SignedDigitRun))
    ensures var n := PieceLength(s, SignedDigitRun); var m := Span(s, NonSpaces);
      (m > 0 && FitsClass(s[..m], SignedDigitRun)) ==> n == m
  {
    var t := s[1..];
    RunVsToken(t, Digits);
    var mt := Span(t, NonSpaces);
    SpanUnique(s, NonSpaces, 1 + mt);
    var m := Span(s, NonSpaces);
    assert m == 1 + mt;
    assert s[..m][0] == '-';
    assert s[..m][1..] == t[..mt];
  }

  /** The signed class on a string that does not start with `-`: a plain digit run. */
  lemma SignedRunWithoutMinus(s: string)
    requires !(|s| > 0 && s[0] == '-')
    ensures var n := PieceLength(s, SignedDigitRun); var m := Span(s, NonSpaces);
      (n > 0 && (n == |s| || IsSpace(s[n]))) <==> (m > 0 && FitsClass(s[..m], SignedDigitRun))
    ensures var n := PieceLength(s, SignedDigitRun); var m := Span(s, NonSpaces);
      (m > 0 && FitsClass(s[..m], SignedDigitRun)) ==> n == m
  {
    RunVsToken(s, Digits);
    var m := Span(s, NonSpaces);
    if m > 0 {
      assert s[..m][0] == s[0];
    }
  }

  /** One capture group plus its separator versus the first token of `s`. */
  lemma PieceVsToken(s: string, k: FieldClass)
    ensures var n := PieceLength(s, k); var m := Span(s, NonSpaces);
      (n > 0 && (n == |s| || IsSpace(s[n]))) <==> (m > 0 && FitsClass(s[..m], k))
    ensures var n := PieceLength(s, k); var m := Span(s, NonSpaces);
      (m > 0 && FitsClass(s[..m], k)) ==> n == m
  {
    match k
    case DigitRun => RunVsToken(s, Digits);
    case WordRun => RunVsToken(s, WordChars);
    case NonSpaceRun => RunVsToken(s, NonSpaces);
    case SignedDigitRun =>
      if |s| > 0 && s[0] == '-' {
        SignedRunWithMinus(s);
      } else {
        SignedRunWithoutMinus(s);
      }
  }

  /** Tokens of a string that starts with a non-space character. */
  lemma TokensUnfold(s: string)
    requires s != "" && !IsSpace(s[0])
    ensures var m := Span(s, NonSpaces);
      0 < m && Tokens(s) == [s[..m]] + Tokens(DropSpaces(s[m..]))
  {
    SpanUnique(s, Spaces, 0);
    TokensDropSpaces(s[Span(s, NonSpaces)..]);
  }

  /** A string has no tokens iff it is all whitespace. */
  lemma TokensEmpty(s: string)
    ensures Tokens(s) == [] <==> AllChars(s, Spaces)
  {
    if AllChars(s, Spaces) {
      SpanUnique(s, Spaces, |s|);
    }
  }

  lemma TokensFitCons(t: string, ts: seq<string>, pat: seq<FieldClass>)
    requires |pat| > 0
    ensures TokensFit([t] + ts, pat) <==> FitsClass(t, pat[0]) && TokensFit(ts, pat[1..])
  {
    assert ([t] + ts)[0] == t && ([t] + ts)[1..] == ts;
  }

  /** Column by column: `TokensFit` says that every token belongs to its column's class. */
  lemma {:induction false} TokensFitIndex(toks: seq<string>, pat: seq<FieldClass>)
    ensures TokensFit(toks, pat) <==> |toks| == |pat| && forall i :: 0 <= i < |pat| ==> FitsClass(toks[i], pat[i])
    decreases |pat|
  {
    if |toks| == |pat| && pat != [] {
      TokensFitIndex(toks[1..], pat[1..]);
      if forall i :: 0 <= i < |pat| ==> FitsClass(toks[i], pat[i]) {
        forall i | 0 <= i < |pat| - 1 ensures FitsClass(toks[1..][i], pat[1..][i]) {
          assert toks[1..][i] == toks[i + 1];
        }
      }
      if TokensFit(toks, pat) {
        forall i | 0 <= i < |pat| ensures FitsClass(toks[i], pat[i]) {
          if i > 0 {
            assert toks[1..][i - 1] == toks[i];
          }
        }
      }
    }
  }

  lemma NoNewlineSuffix(s: string, k: nat)
    requires NoNewline(s) && k <= |s|
    ensures NoNewline(s[k..])
  {
    forall i | 0 <= i < |s| - k ensures s[k..][i] != '\n' {
      assert s[k..][i] == s[k + i];
    }
  }

  /** The scan for a single last group: it succeeds iff the group covers the rest of a newline-free `s`. */
  lemma ScanLast(s: string, pat: seq<FieldClass>)
    requires |pat| == 1 && NoNewline(s)
    ensures var n := PieceLength(s, pat[0]);
      MatchPieces(s, pat) == if n > 0 && n == |s| then Some([s]) else None
  {
    var n := PieceLength(s, pat[0]);
    if n < |s| {
      assert s[n..][0] != '\n';
    } else {
      assert s[..n] == s;
    }
  }

  /** A column list of length one. */
  lemma TokensFitSingle(toks: seq<string>, pat: seq<FieldClass>)
    requires |pat| == 1
    ensures TokensFit(toks, pat) <==> |toks| == 1 && FitsClass(toks[0], pat[0])
  {
  }

  /** After the first token of `s`, nothing but spaces remain iff that token ends `s` or `s` ends with a space. */
  lemma FirstTokenIsLast(s: string)
    requires s != "" && !IsSpace(s[0])
    ensures var m := Span(s, NonSpaces);
      (DropSpaces(s[m..]) == "" && !EndsWithSpace(s)) <==> m == |s|
  {
    var m := Span(s, NonSpaces);
    var rest := DropSpaces(s[m..]);
    if m < |s| && rest == "" {
      assert s[m..][|s| - m - 1] == s[|s| - 1];
    }
    if m == |s| {
      assert s[m..] == "";
    }
  }

  /** `s` has exactly one token iff only spaces follow its first token. */
  lemma OneToken(s: string)
    requires s != "" && !IsSpace(s[0])
    ensures var m := Span(s, NonSpaces);
      |Tokens(s)| == 1 <==> DropSpaces(s[m..]) == ""
  {
    var m := Span(s, NonSpaces);
    TokensUnfold(s);
    var rest := DropSpaces(s[m..]);
    TokensEmpty(rest);
    if rest != "" {
      assert !IsSpace(rest[0]);
    }
  }

  /** A single token that fits its class and ends the string, on the token side. */
  lemma TokensLast(s: string, pat: seq<FieldClass>)
    requires |pat| == 1 && s != "" && !IsSpace(s[0])
    ensures var m := Span(s, NonSpaces);
      (TokensFit(Tokens(s), pat) && !EndsWithSpace(s)) <==> (m == |s| && FitsClass(s[..m], pat[0]))
    ensures Span(s, NonSpaces) == |s| ==> Tokens(s) == [s]
  {
    var m := Span(s, NonSpaces);
    TokensUnfold(s);
    OneToken(s);
    FirstTokenIsLast(s);
    TokensFitSingle(Tokens(s), pat);
    if m == |s| {
      assert s[..m] == s;
      assert s[m..] == "";
    }
  }

  /** The first token of `s` against the first column, the remaining tokens against the rest. */
  lemma TokensFitUnfold(s: string, pat: seq<FieldClass>)
    requires |pat| > 0 && s != "" && !IsSpace(s[0])
    ensures var m := Span(s, NonSpaces);
      TokensFit(Tokens(s), pat) <==> FitsClass(s[..m], pat[0]) && TokensFit(Tokens(DropSpaces(s[m..])), pat[1..])
  {
    var m := Span(s, NonSpaces);
    TokensUnfold(s);
    TokensFitCons(s[..m], Tokens(DropSpaces(s[m..])), pat);
  }

  /** What is left after a token and its separating spaces ends as the whole string does. */
  lemma RestEnd(s: string, m: nat)
    requires m <= |s| && DropSpaces(s[m..]) != ""
    ensures m < |s|
    ensures EndsWithSpace(DropSpaces(s[m..])) <==> EndsWithSpace(s)
  {
    var t := s[m..];
    var rest := DropSpaces(t);
    assert rest[|rest| - 1] == t[|t| - 1];
    assert t[|t| - 1] == s[|s| - 1];
  }

  /** A fitting first token followed by more tokens, on the token side. */
  lemma TokensStep(s: string, pat: seq<FieldClass>)
    requires |pat| > 1 && s != "" && !IsSpace(s[0])
    ensures var m := Span(s, NonSpaces); var rest := DropSpaces(s[m..]);
      (TokensFit(Tokens(s), pat) && !EndsWithSpace(s))
        <==> (FitsClass(s[..m], pat[0]) && m < |s| && rest != "" && TokensFit(Tokens(rest), pat[1..]) && !EndsWithSpace(rest))
  {
    var m := Span(s, NonSpaces);
    var rest := DropSpaces(s[m..]);
    TokensFitUnfold(s, pat);
    if rest == "" {
      TokensEmpty(rest);
      assert !TokensFit(Tokens(rest), pat[1..]);
    } else {
      RestEnd(s, m);
    }
  }

  /** The one-group case of `PiecesVsTokens`. */
  lemma PiecesVsTokensLast(s: string, pat: seq<FieldClass>)
    requires |pat| == 1 && NoNewline(s) && s != "" && !IsSpace(s[0])
    ensures MatchPieces(s, pat).Some? <==> TokensFit(Tokens(s), pat) && !EndsWithSpace(s)
    ensures MatchPieces(s, pat).Some? ==> MatchPieces(s, pat).value == Tokens(s)
  {
    ScanLast(s, pat);
    TokensLast(s, pat);
    PieceVsToken(s, pat[0]);
  }

  /** One unfolding of the scan for a group followed by more groups. */
  lemma ScanStep(s: string, pat: seq<FieldClass>)
    requires |pat| > 1
    ensures var n := PieceLength(s, pat[0]);
      MatchPieces(s, pat) ==
        if n > 0 && n < |s| && IsSpace(s[n]) then
          match MatchPieces(DropSpaces(s[n..]), pat[1..])
          case None => None
          case Some(rest) => Some([s[..n]] + rest)
        else None
  {
  }

  /** The several-group case of `PiecesVsTokens`, given the claim for the text after the first separator. */
  lemma PiecesVsTokensStep(s: string, pat: seq<FieldClass>)
    requires |pat| > 1 && s != "" && !IsSpace(s[0])
    requires var n := PieceLength(s, pat[0]); var rest := DropSpaces(s[n..]);
      n > 0 && n < |s| && IsSpace(s[n]) ==>
        (MatchPieces(rest, pat[1..]).Some? <==> TokensFit(Tokens(rest), pat[1..]) && !EndsWithSpace(rest))
        && (MatchPieces(rest, pat[1..]).Some? ==> MatchPieces(rest, pat[1..]).value == Tokens(rest))
    ensures MatchPieces(s, pat).Some? <==> TokensFit(Tokens(s), pat) && !EndsWithSpace(s)
    ensures MatchPieces(s, pat).Some? ==> MatchPieces(s, pat).value == Tokens(s)
  {
    var n := PieceLength(s, pat[0]);
    var m := Span(s, NonSpaces);
    var rest := DropSpaces(s[m..]);
    ScanStep(s, pat);
    TokensStep(s, pat);
    PieceVsToken(s, pat[0]);
    if n > 0 && n < |s| && IsSpace(s[n]) {
      assert n == m;
      TokensUnfold(s);
    } else {
      assert MatchPieces(s, pat) == None;
      assert !(FitsClass(s[..m], pat[0]) && m < |s|);
    }
  }

  /** The scan over `pat` succeeds iff the tokens of `s` fit `pat` column by column and `s` has no trailing space. */
  lemma {:induction false} PiecesVsTokens(s: string, pat: seq<FieldClass>)
    requires |pat| > 0 && NoNewline(s)
    requires s == "" || !IsSpace(s[0])
    ensures MatchPieces(s, pat).Some? <==> TokensFit(Tokens(s), pat) && !EndsWithSpace(s)
    ensures MatchPieces(s, pat).Some? ==> MatchPieces(s, pat).value == Tokens(s)
    decreases |pat|
  {
    if s == "" {
      assert Tokens(s) == [];
    } else if |pat| == 1 {
      PiecesVsTokensLast(s, pat);
    } else {
      var n := PieceLength(s, pat[0]);
      if n > 0 && n < |s| && IsSpace(s[n]) {
        var rest := DropSpaces(s[n..]);
        NoNewlineSuffix(s, |s| - |rest|);
        PiecesVsTokens(rest, pat[1..]);
      }
      PiecesVsTokensStep(s, pat);
    }
  }

  /**
   On a line without a newline (every line `splitlines()` yields), the row
   regex matches iff the line is a ten-token row, and its groups are the tokens.
   */
  lemma RowRegexIsTokenLevel(line: string)
    requires NoNewline(line)
    ensures MatchRowRegex(line).Some? <==> IsTokenRow(line)
    ensures MatchRowRegex(line).Some? ==> MatchRowRegex(line).value == Tokens(line)
  {
    var s := DropSpaces(line);
    TokensDropSpaces(line);
    NoNewlineSuffix(line, |line| - |s|);
    PiecesVsTokens(s, RowPattern);
    if s == "" {
      TokensEmpty(s);
    } else {
      assert s[|s| - 1] == line[|line| - 1];
    }
  }

  /**
   A line yields a record iff it is a ten-token row; the record holds the
   integer ID, the Name, the integer Current, Worst and Threshold, the Type,
   the Updated column and the signed integer Raw_Value, in that order.
   */
  lemma MatchRowIff(line: string)
    requires NoNewline(line)
    ensures MatchRow(line).Some? <==> IsTokenRow(line)
    ensures MatchRow(line).Some? ==>
      var t := Tokens(line);
      MatchRow(line).value
        == Attribute(DigitsValue(t[0]), t[1], DigitsValue(t[3]), DigitsValue(t[4]), DigitsValue(t[5]),
                     t[6], t[7], SignedValue(t[9]))
  {
    RowRegexIsTokenLevel(line);
  }

  /** A bare `-` in the Raw_Value column fails the row regex, so the row is skipped rather than read as 0. */
  lemma DashRawValueNeverMatches(line: string)
    requires NoNewline(line)
    requires |Tokens(line)| == 10 && Tokens(line)[9] == "-"
    ensures MatchRow(line) == None
  {
    MatchRowIff(line);
    TokensFitIndex(Tokens(line), RowPattern);
    assert !FitsClass(Tokens(line)[9], RowPattern[9]);
  }

  // ---------------------------------------------------------------------
  // The header-to-terminator window.
  // ---------------------------------------------------------------------

  /** Lines before the first header contribute nothing. */
  lemma {:induction false} SkipPreamble(lines: seq<string>, h: nat, prog: Program)
    requires h < |lines| && IsHeader(lines[h])
    requires forall i :: 0 <= i < h ==> !IsHeader(lines[i])
    ensures ParseLines(lines, false, prog) == ParseLines(lines[h + 1..], true, prog)
  {
    if h > 0 {
      SkipPreamble(lines[1..], h - 1, prog);
      assert lines[1..][h..] == lines[h + 1..];
    }
  }

  /** Inside the window, from line `k` on, the parser keeps exactly the reference rows of the lines before the terminator. */
  lemma {:induction false} ParseWindowRows(lines: seq<string>, k: nat, e: nat, prog: Program)
    requires k <= e <= |lines|
    requires forall i :: k <= i < e ==> IsHeader(lines[i]) || !IsTerminator(lines[i], prog)
    requires e < |lines| ==> !IsHeader(lines[e]) && IsTerminator(lines[e], prog)
    ensures ParseLines(lines[k..], true, prog) == Rows(lines[k..e])
    decreases e - k
  {
    if k == e {
      assert lines[k..e] == [];
      if k < |lines| {
        assert lines[k..][0] == lines[k];
      }
    } else {
      ParseWindowRows(lines, k + 1, e, prog);
      assert lines[k..][0] == lines[k] && lines[k..][1..] == lines[k + 1..];
      assert lines[k..e][0] == lines[k] && lines[k..e][1..] == lines[k + 1..e];
    }
  }

  /**
   With the first header at `h` and the first later non-header terminator at
   `e` (or none, `e == |lines|`), the result is the reference rows of
   `lines[h+1..e]`: the preamble and everything from the terminator on
   contribute nothing.
   */
  lemma ParseWindow(lines: seq<string>, h: nat, e: nat, prog: Program)
    requires h < e <= |lines| && IsHeader(lines[h])
    requires forall i :: 0 <= i < h ==> !IsHeader(lines[i])
    requires forall i :: h < i < e ==> IsHeader(lines[i]) || !IsTerminator(lines[i], prog)
    requires e < |lines| ==> !IsHeader(lines[e]) && IsTerminator(lines[e], prog)
    ensures ParseLines(lines, false, prog) == Rows(lines[h + 1..e])
  {
    SkipPreamble(lines, h, prog);
    ParseWindowRows(lines, h + 1, e, prog);
  }

  /** Without a header line the result is empty. */
  lemma {:induction false} NoHeaderNoRows(lines: seq<string>, prog: Program)
    requires forall i :: 0 <= i < |lines| ==> !IsHeader(lines[i])
    ensures ParseLines(lines, false, prog) == []
  {
    if lines != [] {
      NoHeaderNoRows(lines[1..], prog);
    }
  }

  /**
   Nothing after a terminator is read: once a header at `h` has started the
   window (or it was already started), appending lines after the terminator
   at `e` leaves the result unchanged.
   */
  lemma {:induction false} NothingAfterTerminator(lines: seq<string>, started: bool, more: seq<string>, prog: Program, h: nat, e: nat)
    requires e < |lines| && !IsHeader(lines[e]) && IsTerminator(lines[e], prog)
    requires started || (h < e && IsHeader(lines[h]))
    ensures ParseLines(lines + more, started, prog) == ParseLines(lines, started, prog)
  {
    var all := lines + more;
    assert all[1..] == lines[1..] + more;
    assert all[0] == lines[0];
    if e == 0 {
      TerminatorStops(all, prog);
      TerminatorStops(lines, prog);
    } else {
      var next := started || IsHeader(lines[0]);
      if !next {
        assert lines[1..][h - 1] == lines[h];
      }
      assert lines[1..][e - 1] == lines[e];
      NothingAfterTerminator(lines[1..], next, more, prog, if h > 0 then h - 1 else 0, e - 1);
      SameTail(all, lines, started, prog);
    }
  }

  /** A non-header terminator inside the window ends the parse. */
  lemma TerminatorStops(lines: seq<string>, prog: Program)
    requires lines != [] && !IsHeader(lines[0]) && IsTerminator(lines[0], prog)
    ensures ParseLines(lines, true, prog) == []
  {
  }

  /** The parse of a list depends only on its first line and the parse of the rest. */
  lemma SameTail(a: seq<string>, b: seq<string>, started: bool, prog: Program)
    requires a != [] && b != [] && a[0] == b[0]
    requires var next := started || IsHeader(a[0]);
      ParseLines(a[1..], next, prog) == ParseLines(b[1..], next, prog)
    ensures ParseLines(a, started, prog) == ParseLines(b, started, prog)
  {
  }

  /** What one line of the window adds to the reference rows. */
  function RowOf(line: string): (r: seq<Attribute>)
    ensures |r| <= 1
  {
    if IsHeader(line) then []
    else match MatchRow(line)
      case Some(a) => [a]
      case None => []
  }

  /** One unfolding of `Rows`, with the first line's contribution named. */
  lemma RowsCons(window: seq<string>)
    requires window != []
    ensures Rows(window) == RowOf(window[0]) + Rows(window[1..])
  {
    if IsHeader(window[0]) || MatchRow(window[0]).None? {
      assert RowOf(window[0]) == [];
      assert [] + Rows(window[1..]) == Rows(window[1..]);
    }
  }

  lemma AppendAssoc<T>(x: seq<T>, y: seq<T>, z: seq<T>)
    ensures x + (y + z) == (x + y) + z
  {
  }

  /** The reference rows distribute over concatenation: records keep their input order. */
  lemma {:induction false} RowsAppend(a: seq<string>, b: seq<string>)
    ensures Rows(a + b) == Rows(a) + Rows(b)
  {
    if a != [] {
      assert (a + b)[0] == a[0];
      assert (a + b)[1..] == a[1..] + b;
      RowsCons(a + b);
      RowsCons(a);
      RowsAppend(a[1..], b);
      AppendAssoc(RowOf(a[0]), Rows(a[1..]), Rows(b));
    } else {
      assert a + b == b;
    }
  }

  /** The console parser returns a prefix of what the graphical one returns: its only difference is an extra terminator. */
  lemma {:induction false} ConsoleIsPrefixOfGui(lines: seq<string>, started: bool)
    ensures var c := ParseLines(lines, started, Console);
      c <= ParseLines(lines, started, Gui)
  {
    if lines != [] {
      var next := started || IsHeader(lines[0]);
      ConsoleIsPrefixOfGui(lines[1..], next);
      PrefixStep(lines, started);
    }
  }

  lemma PrefixStep(lines: seq<string>, started: bool)
    requires lines != []
    requires var next := started || IsHeader(lines[0]);
      ParseLines(lines[1..], next, Console) <= ParseLines(lines[1..], next, Gui)
    ensures ParseLines(lines, started, Console) <= ParseLines(lines, started, Gui)
  {
    var l := lines[0];
    var next := started || IsHeader(l);
    var c := ParseLines(lines[1..], next, Console);
    var g := ParseLines(lines[1..], next, Gui);
    if IsHeader(l) || !started {
      assert ParseLines(lines, started, Console) == c;
      assert ParseLines(lines, started, Gui) == g;
    } else if IsTerminator(l, Console) {
      assert ParseLines(lines, started, Console) == [];
    } else {
      assert !IsTerminator(l, Gui);
      match MatchRow(l)
      case Some(a) =>
        assert ParseLines(lines, started, Console) == [a] + c;
        assert ParseLines(lines, started, Gui) == [a] + g;
      case None =>
        assert ParseLines(lines, started, Console) == c;
        assert ParseLines(lines, started, Gui) == g;
    }
  }

  /** Where no line mentions the vendor-specific section, both programs parse alike. */
  lemma {:induction false} ConsoleEqualsGuiWithoutVendorMarker(lines: seq<string>, started: bool)
    requires forall i :: 0 <= i < |lines| ==> !Contains(lines[i], "Vendor Specific SMART Attributes")
    ensures ParseLines(lines, started, Console) == ParseLines(lines, started, Gui)
  {
    if lines != [] {
      ConsoleEqualsGuiWithoutVendorMarker(lines[1..], started || IsHeader(lines[0]));
    }
  }

  /** A single line yields a record iff it is row-shaped and not a header. */
  lemma RowOfIff(line: string)
    requires NoNewline(line)
    ensures RowOf(line) != [] <==> !IsHeader(line) && IsTokenRow(line)
  {
    MatchRowIff(line);
  }

  /** Lines `k` to `e` yield a record iff one of them is row-shaped and not a header. */
  lemma {:induction false} WindowHasRowIff(lines: seq<string>, k: nat, e: nat)
    requires k <= e <= |lines|
    requires forall i :: k <= i < e ==> NoNewline(lines[i])
    ensures Rows(lines[k..e]) != [] <==> exists i :: k <= i < e && !IsHeader(lines[i]) && IsTokenRow(lines[i])
    decreases e - k
  {
    if k < e {
      var w := lines[k..e];
      assert w[0] == lines[k] && w[1..] == lines[k + 1..e];
      RowsCons(w);
      RowOfIff(lines[k]);
      WindowHasRowIff(lines, k + 1, e);
      if RowOf(lines[k]) == [] {
        assert Rows(w) == Rows(lines[k + 1..e]);
        if exists i :: k <= i < e && !IsHeader(lines[i]) && IsTokenRow(lines[i]) {
          var i :| k <= i < e && !IsHeader(lines[i]) && IsTokenRow(lines[i]);
          assert k + 1 <= i;
        }
      }
    }
  }

  /** The lines `splitlines()` returns hold no newline. */
  lemma SplitLinesNoNewline(text: string)
    ensures forall i :: 0 <= i < |SplitLines(text)| ==> NoNewline(SplitLines(text)[i])
  {
    var lines := SplitLines(text);
    forall i | 0 <= i < |lines| ensures NoNewline(lines[i]) {
      assert AllChars(lines[i], NotLineBreaks);
      assert IsLineBreak('\n');
    }
  }

  /** Line `h` is the first header of `lines`, and line `e` the first terminator after it, or the end. */
  predicate TableWindow(lines: seq<string>, h: nat, e: nat, prog: Program) {
    && h < e <= |lines| && IsHeader(lines[h])
    && (forall i :: 0 <= i < h ==> !IsHeader(lines[i]))
    && (forall i :: h < i < e ==> IsHeader(lines[i]) || !IsTerminator(lines[i], prog))
    && (e < |lines| ==> !IsHeader(lines[e]) && IsTerminator(lines[e], prog))
  }

  /**
   Between the first header `h` and the first terminator `e`, the parse of a
   text yields a record iff some line strictly between them is row-shaped and
   not a header; the records are those of the lines between.
   */
  lemma TableHasRowIff(text: string, h: nat, e: nat, prog: Program)
    requires TableWindow(SplitLines(text), h, e, prog)
    ensures var lines := SplitLines(text);
      ParseSmartAttributes(text, prog) != [] <==> exists i :: h < i < e && !IsHeader(lines[i]) && IsTokenRow(lines[i])
    ensures ParseSmartAttributes(text, prog) == Rows(SplitLines(text)[h + 1..e])
  {
    var lines := SplitLines(text);
    ParseWindow(lines, h, e, prog);
    SplitLinesNoNewline(text);
    WindowHasRowIff(lines, h + 1, e);
  }
}
