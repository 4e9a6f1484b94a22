/**
 The progress label of a secure erase (`shred -v -n 0 -z`): the program
 buffers the tool's error stream, takes complete lines out of the buffer,
 keeps the trailing partial line for the next read, and shows the last
 percentage it saw.
 */
module EraseProgress {
  import opened TextUtil

  // ---------------------------------------------------------------------
  // `str.split('\n')` and its inverse.
  // ---------------------------------------------------------------------

  /** Python's `s.split('\n')`: never empty, no piece holds a newline. */
  function SplitNewlines(s: string): (r: seq<string>)
    ensures |r| >= 1
    ensures forall i :: 0 <= i < |r| ==> AllChars(r[i], Except('\n'))
    decreases |s|
  {
    var n := Span(s, Except('\n'));
    if n == |s| then [s] else [s[..n]] + SplitNewlines(s[n + 1..])
  }

  /** `'\n'.join(pieces)`. */
  function JoinNewlines(pieces: seq<string>): string
    decreases |pieces|
  {
    if pieces == [] then ""
    else if |pieces| == 1 then pieces[0]
    else pieces[0] + "\n" + JoinNewlines(pieces[1..])
  }

  /** Joining the pieces gives the text back. */
  lemma {:induction false} JoinSplit(s: string)
    ensures JoinNewlines(SplitNewlines(s)) == s
    decreases |s|
  {
    var n := Span(s, Except('\n'));
    if n < |s| {
      JoinSplit(s[n + 1..]);
      assert s == s[..n] + "\n" + s[n + 1..];
    }
  }

  /** Splitting a join of newline-free pieces gives the pieces back. */
  lemma {:induction false} SplitJoin(pieces: seq<string>)
    requires |pieces| >= 1
    requires forall i :: 0 <= i < |pieces| ==> AllChars(pieces[i], Except('\n'))
    ensures SplitNewlines(JoinNewlines(pieces)) == pieces
    decreases |pieces|
  {
    var s := JoinNewlines(pieces);
    var p := pieces[0];
    assert AllChars(p, Except('\n'));
    if |pieces| == 1 {
      assert s == p;
      SpanUnique(s, Except('\n'), |s|);
    } else {
      var tail := JoinNewlines(pieces[1..]);
      assert s == p + ("\n" + tail);
      assert s[..|p|] == p;
      assert s[|p|] == '\n';
      assert s[|p| + 1..] == tail;
      SpanUnique(s, Except('\n'), |p|);
      SplitJoin(pieces[1..]);
      assert SplitNewlines(s) == [p] + SplitNewlines(tail);
    }
  }

  // ---------------------------------------------------------------------
  // `re.search(r'(\d+)%', line)`.
  // ---------------------------------------------------------------------

  /** `s[i..j]` is a run of digits directly followed by `%` at `j`. */
  predicate PercentAt(s: string, i: int, j: int) {
    0 <= i < j < |s| && AllChars(s[i..j], Digits) && s[j] == '%'
  }

  /** Where the run of digits starting at `i` ends. */
  function RunEnd(s: string, i: nat): (e: nat)
    requires i <= |s|
    ensures i <= e <= |s| && AllChars(s[i..e], Digits) && (e < |s| ==> !IsDigit(s[e]))
  {
    var n := Span(s[i..], Digits);
    assert s[i..i + n] == s[i..][..n];
    i + n
  }

  /** The leftmost start at or after `from` of a digit run followed by `%`. */
  function PercentFrom(s: string, from: nat): (r: Option<nat>)
    requires from <= |s|
    ensures r.Some? ==> from <= r.value < |s| && PercentAt(s, r.value, RunEnd(s, r.value))
    decreases |s| - from
  {
    if from == |s| then None
    else if IsDigit(s[from]) then
      var e := RunEnd(s, from);
      if e < |s| && s[e] == '%' then Some(from) else PercentFrom(s, e)
    else PercentFrom(s, from + 1)
  }

  /** Group 1 of the leftmost match of `(\d+)%`, if any. */
  function Percent(s: string): (r: Option<string>)
    ensures r.Some? ==> |r.value| > 0 && AllDigits(r.value)
  {
    match PercentFrom(s, 0)
    case None => None
    case Some(i) => Some(s[i..RunEnd(s, i)])
  }

  /** A match ends at the end of its digit run: `\d+` cannot stop early before a `%`. */
  lemma MatchEndsRun(s: string, i: nat, j: int)
    requires PercentAt(s, i, j)
    ensures j == RunEnd(s, i)
  {
  }

  /** A match starting inside a run ends where the run ends. */
  lemma NoMatchInsideRun(s: string, from: nat, i: nat, j: int)
    requires from < |s| && IsDigit(s[from]) && from <= i < RunEnd(s, from)
    requires PercentAt(s, i, j)
    ensures j == RunEnd(s, from)
  {
  }

  /** `PercentFrom` finds the leftmost match, and finds none only when there is none. */
  lemma {:induction false} PercentFromLeftmost(s: string, from: nat)
    requires from <= |s|
    ensures PercentFrom(s, from).None? ==> forall i, j :: from <= i && PercentAt(s, i, j) ==> false
    ensures PercentFrom(s, from).Some? ==> forall i, j :: from <= i < PercentFrom(s, from).value ==> !PercentAt(s, i, j)
    decreases |s| - from
  {
    if from < |s| {
      if IsDigit(s[from]) {
        var e := RunEnd(s, from);
        if !(e < |s| && s[e] == '%') {
          PercentFromLeftmost(s, e);
          forall i, j | from <= i < e && PercentAt(s, i, j) ensures false {
            NoMatchInsideRun(s, from, i, j);
          }
        }
      } else {
        PercentFromLeftmost(s, from + 1);
      }
    }
  }

  /** `d` followed by `%` starts at `i`, and no match starts earlier. */
  ghost predicate LeftmostMatch(s: string, i: int, d: string) {
    PercentAt(s, i, i + |d|) && s[i..i + |d|] == d && forall k, j :: 0 <= k < i ==> !PercentAt(s, k, j)
  }

  /**
   `re.search(r'(\d+)%', s)`: the group is the digit run of the leftmost
   match, and there is no match exactly when no digit run is followed by `%`.
   */
  lemma PercentIsLeftmostMatch(s: string)
    ensures Percent(s).None? <==> forall i, j :: !PercentAt(s, i, j)
    ensures Percent(s).Some? ==> exists i :: LeftmostMatch(s, i, Percent(s).value)
  {
    PercentFromLeftmost(s, 0);
    if PercentFrom(s, 0).Some? {
      var i := PercentFrom(s, 0).value;
      assert LeftmostMatch(s, i, Percent(s).value);
    }
  }

  /** A match exists exactly when some `%` has a digit right before it. */
  lemma PercentIffDigitBeforeSign(s: string)
    ensures Percent(s).Some? <==> exists j :: 0 < j < |s| && s[j] == '%' && IsDigit(s[j - 1])
  {
    PercentIsLeftmostMatch(s);
    if Percent(s).Some? {
      var i := PercentFrom(s, 0).value;
      var e := RunEnd(s, i);
      assert s[e - 1] == s[i..e][e - 1 - i];
    }
    if exists j :: 0 < j < |s| && s[j] == '%' && IsDigit(s[j - 1]) {
      var j :| 0 < j < |s| && s[j] == '%' && IsDigit(s[j - 1]);
      assert PercentAt(s, j - 1, j) by {
        assert s[j - 1..j] == [s[j - 1]];
      }
    }
  }

  // ---------------------------------------------------------------------
  // The label and the buffer.
  // ---------------------------------------------------------------------

  /** The buffered partial line and the text of the progress label. */
  datatype Tracker = Tracker(buffer: string, shown: string)

  const StartLabel: string := "İşlem sürüyor: 0%"
  const FinishedLabel: string := "İşlem bitti: --%"
  const ErrorLabel: string := "Hata: --%"
  const StartingLabel: string := "İşlem sürüyor: " + "Başlıyor..."
  const PassMarker: string := "Pass 1/1 (zero)..."

  /** The label for a percentage: the sign goes before the number. */
  function ProgressLabel(digits: string): string {
    "İşlem sürüyor: %" + digits
  }

  /** Starting an erase: label `0%`, empty buffer. */
  function Start(): Tracker {
    Tracker("", StartLabel)
  }

  /** The erase finished (`shred_finished`): the buffer is dropped. */
  function Finish(t: Tracker): Tracker {
    Tracker("", FinishedLabel)
  }

  /** The process failed (`shred_error_occurred`): the buffer is dropped. */
  function Fail(t: Tracker): Tracker {
    Tracker("", ErrorLabel)
  }

  /** The label while lines are scanned, and the last percentage seen. */
  datatype Scan = Scan(shown: string, last: Option<string>)

  /**
   One complete line: a percentage is remembered; otherwise the start line
   of the zero pass shows "Başlıyor..." while the label has no `\d+%`.
   */
  function ScanLine(st: Scan, line: string): Scan {
    match Percent(line)
    case Some(d) => Scan(st.shown, Some(d))
    case None =>
      if Contains(line, PassMarker) && Percent(st.shown).None? then Scan(StartingLabel, st.last) else st
  }

  function ScanAll(st: Scan, lines: seq<string>): Scan
    decreases |lines|
  {
    if lines == [] then st else ScanAll(ScanLine(st, lines[0]), lines[1..])
  }

  predicate EndsWithNewline(s: string) {
    |s| > 0 && s[|s| - 1] == '\n'
  }

  /**
   The complete lines of the buffered text: every piece of the split when
   the text ends with a newline (the last one is then empty), all but the
   last piece otherwise.
   */
  function CompleteLines(text: string): seq<string>
  {
    var pieces := SplitNewlines(text);
    if EndsWithNewline(text) then pieces else pieces[..|pieces| - 1]
  }

  /** The last piece of the split: the text after the last newline. */
  function LastPiece(text: string): string
  {
    var pieces := SplitNewlines(text);
    pieces[|pieces| - 1]
  }

  /** What stays in the buffer: the last piece, unless the text ends with a newline. */
  function PartialLine(text: string): string
  {
    if EndsWithNewline(text) then "" else LastPiece(text)
  }

  /** `update_shred_progress`: one read of the error stream. */
  function Step(t: Tracker, chunk: string): Tracker
  {
    var text := t.buffer + chunk;
    var st := ScanAll(Scan(t.shown, None), CompleteLines(text));
    Tracker(PartialLine(text), if st.last.Some? then ProgressLabel(st.last.value) else st.shown)
  }

  // ---------------------------------------------------------------------
  // The buffer.
  // ---------------------------------------------------------------------

  lemma {:induction false} SplitEndsWithNewline(s: string)
    requires EndsWithNewline(s)
    ensures LastPiece(s) == ""
    decreases |s|
  {
    var n := Span(s, Except('\n'));
    assert n < |s|;
    LastPieceStep(s);
    if n + 1 < |s| {
      assert s[n + 1..][|s[n + 1..]| - 1] == s[|s| - 1];
      SplitEndsWithNewline(s[n + 1..]);
    } else {
      assert s[n + 1..] == "";
    }
  }

  /** A newline-preceded suffix of the text after the newline at `n` is one of the whole text. */
  lemma SuffixOfDrop(s: string, n: nat, t: string, last: string)
    requires n < |s| && s[n] == '\n' && t == s[n + 1..]
    requires |last| <= |t| && t[|t| - |last|..] == last && (|last| == |t| || t[|t| - |last| - 1] == '\n')
    ensures |last| <= |s| && s[|s| - |last|..] == last && (|last| == |s| || s[|s| - |last| - 1] == '\n')
  {
    assert t[|t| - |last|..] == s[|s| - |last|..];
    if |last| < |t| {
      assert t[|t| - |last| - 1] == s[|s| - |last| - 1];
    }
  }

  /** Without a newline the last piece is the whole text; otherwise it is the last piece after the first newline. */
  lemma LastPieceStep(s: string)
    ensures var n := Span(s, Except('\n'));
      (n == |s| ==> LastPiece(s) == s) && (n < |s| ==> s[n] == '\n' && LastPiece(s) == LastPiece(s[n + 1..]))
  {
    var n := Span(s, Except('\n'));
    if n < |s| {
      var pieces := SplitNewlines(s[n + 1..]);
      assert SplitNewlines(s) == [s[..n]] + pieces;
      assert !In(s[n], Except('\n'));
    }
  }

  /** The last piece of a split is what follows the last newline. */
  lemma {:induction false} LastPieceIsTail(s: string)
    ensures var last := LastPiece(s);
      |last| <= |s| && s[|s| - |last|..] == last && (|last| == |s| || s[|s| - |last| - 1] == '\n')
    decreases |s|
  {
    var n := Span(s, Except('\n'));
    LastPieceStep(s);
    if n < |s| {
      var t := s[n + 1..];
      LastPieceIsTail(t);
      SuffixOfDrop(s, n, t, LastPiece(t));
    } else {
      assert s[0..] == s;
    }
  }

  /**
   The new buffer is exactly the text after the last newline of the old
   buffer plus the chunk: it holds no newline, and everything before it is
   made of complete lines.
   */
  lemma StepBuffer(t: Tracker, chunk: string)
    ensures var text := t.buffer + chunk;
      var b := Step(t, chunk).buffer;
      AllChars(b, Except('\n')) && |b| <= |text| && text[|text| - |b|..] == b
      && (|b| == |text| || text[|text| - |b| - 1] == '\n')
  {
    var text := t.buffer + chunk;
    LastPieceIsTail(text);
    if EndsWithNewline(text) {
      assert text[|text| - 1] == '\n';
    }
  }

  /** The complete lines and the partial line make up the text. */
  lemma LinesRebuildText(text: string)
    ensures EndsWithNewline(text) ==> JoinNewlines(CompleteLines(text)) == text && PartialLine(text) == ""
    ensures !EndsWithNewline(text) ==> JoinNewlines(CompleteLines(text) + [PartialLine(text)]) == text
    ensures EndsWithNewline(text) ==> CompleteLines(text)[|CompleteLines(text)| - 1] == ""
  {
    JoinSplit(text);
    if EndsWithNewline(text) {
      SplitEndsWithNewline(text);
    }
    var pieces := SplitNewlines(text);
    assert pieces[..|pieces| - 1] + [pieces[|pieces| - 1]] == pieces;
  }

  /** A read with no newline anywhere only grows the buffer. */
  lemma NoNewlineOnlyBuffers(t: Tracker, chunk: string)
    requires AllChars(t.buffer + chunk, Except('\n'))
    ensures Step(t, chunk) == Tracker(t.buffer + chunk, t.shown)
  {
    var text := t.buffer + chunk;
    SpanUnique(text, Except('\n'), |text|);
    assert SplitNewlines(text) == [text];
    assert CompleteLines(text) == [];
  }

  // ---------------------------------------------------------------------
  // The label.
  // ---------------------------------------------------------------------

  /** The percentage of the last line that has one. */
  function LastPercent(lines: seq<string>): (r: Option<string>)
    decreases |lines|
  {
    if lines == [] then None
    else if Percent(lines[|lines| - 1]).Some? then Percent(lines[|lines| - 1])
    else LastPercent(lines[..|lines| - 1])
  }

  /** A line announcing the zero pass that carries no percentage. */
  predicate StartsPass(line: string) {
    Percent(line).None? && Contains(line, PassMarker)
  }

  lemma StartingLabelHasNoPercent()
    ensures Percent(StartingLabel).None?
  {
    assert AllChars("İşlem sürüyor: ", Except('%'));
    assert AllChars("Başlıyor...", Except('%'));
    AllCharsAppend("İşlem sürüyor: ", "Başlıyor...", Except('%'));
    PercentIffDigitBeforeSign(StartingLabel);
    forall j | 0 < j < |StartingLabel| ensures StartingLabel[j] != '%' {
      assert In(StartingLabel[j], Except('%'));
    }
  }

  lemma ScanLineLast(st: Scan, line: string)
    ensures ScanLine(st, line).last == if Percent(line).Some? then Percent(line) else st.last
    ensures ScanLine(st, line).shown
      == if StartsPass(line) && Percent(st.shown).None? then StartingLabel else st.shown
  {
  }

  lemma ScanAllSnoc(st: Scan, lines: seq<string>, line: string)
    ensures ScanAll(st, lines + [line]) == ScanLine(ScanAll(st, lines), line)
    decreases |lines|
  {
    if lines == [] {
      assert ScanAll(st, [line]) == ScanAll(ScanLine(st, line), []);
    } else {
      assert (lines + [line])[0] == lines[0];
      assert (lines + [line])[1..] == lines[1..] + [line];
      ScanAllSnoc(ScanLine(st, lines[0]), lines[1..], line);
    }
  }

  /**
   Scanning lines: the percentage remembered is the one of the last line
   that has one, and the label turns to "Başlıyor..." exactly when some
   line starts the zero pass while the label had no `\d+%`.
   */
  lemma {:induction false} ScanAllSpec(st: Scan, lines: seq<string>)
    ensures ScanAll(st, lines).last == if LastPercent(lines).Some? then LastPercent(lines) else st.last
    ensures ScanAll(st, lines).shown
      == if (exists i :: 0 <= i < |lines| && StartsPass(lines[i])) && Percent(st.shown).None? then StartingLabel
         else st.shown
    decreases |lines|
  {
    if lines != [] {
      var init := lines[..|lines| - 1];
      var line := lines[|lines| - 1];
      assert lines == init + [line];
      ScanAllSpec(st, init);
      ScanAllSnoc(st, init, line);
      ScanLineLast(ScanAll(st, init), line);
      StartingLabelHasNoPercent();
      if exists i :: 0 <= i < |lines| && StartsPass(lines[i]) {
        var i :| 0 <= i < |lines| && StartsPass(lines[i]);
        if i < |init| {
          assert StartsPass(init[i]);
        }
      } else {
        forall i | 0 <= i < |init| ensures !StartsPass(init[i]) {
          assert init[i] == lines[i];
        }
      }
    }
  }

  /**
   The label after a read: the last percentage among the complete lines if
   there is one; else "Başlıyor..." if one of them starts the zero pass and
   the label had no `\d+%`; else the label is unchanged.
   */
  lemma StepLabel(t: Tracker, chunk: string)
    ensures var lines := CompleteLines(t.buffer + chunk);
      Step(t, chunk).shown
      == if LastPercent(lines).Some? then ProgressLabel(LastPercent(lines).value)
         else if (exists i :: 0 <= i < |lines| && StartsPass(lines[i])) && Percent(t.shown).None? then StartingLabel
         else t.shown
  {
    ScanAllSpec(Scan(t.shown, None), CompleteLines(t.buffer + chunk));
  }

  /** The percentage shown comes from the last complete line that has one. */
  lemma {:induction false} LastPercentIsLast(lines: seq<string>)
    ensures LastPercent(lines).None? <==> forall i :: 0 <= i < |lines| ==> Percent(lines[i]).None?
    ensures LastPercent(lines).Some? ==>
      exists k :: 0 <= k < |lines| && Percent(lines[k]) == LastPercent(lines)
                  && forall i :: k < i < |lines| ==> Percent(lines[i]).None?
    decreases |lines|
  {
    if lines != [] {
      var n := |lines| - 1;
      var init := lines[..n];
      LastPercentIsLast(init);
      assert forall i :: 0 <= i < n ==> init[i] == lines[i];
      if Percent(lines[n]).Some? {
        assert LastPercent(lines) == Percent(lines[n]);
      } else {
        assert LastPercent(lines) == LastPercent(init);
        if LastPercent(init).Some? {
          var k :| 0 <= k < |init| && Percent(init[k]) == LastPercent(init)
                   && forall i :: k < i < |init| ==> Percent(init[i]).None?;
          assert Percent(lines[k]) == LastPercent(lines);
          forall i | k < i < |lines| ensures Percent(lines[i]).None? {
            if i < n {
              assert lines[i] == init[i];
            }
          }
        }
      }
    }
  }

  // ---------------------------------------------------------------------
  // Consequences of the label formats.
  // ---------------------------------------------------------------------

  /** The start label `0%` has a `\d+%`, so "Başlıyor..." never replaces it. */
  lemma StartLabelHasPercent()
    ensures Percent(StartLabel).Some?
  {
    PercentIffDigitBeforeSign(StartLabel);
    assert StartLabel[16] == '%' && IsDigit(StartLabel[15]);
  }

  /**
   A progress label puts the sign before the number, so it has no `\d+%`:
   the guard that should keep "Başlıyor..." from replacing a percentage
   does not see it.
   */
  lemma ProgressLabelHasNoPercent(digits: string)
    requires AllDigits(digits)
    ensures Percent(ProgressLabel(digits)).None?
  {
    var s := ProgressLabel(digits);
    var head := "İşlem sürüyor: %";
    assert s == head + digits;
    forall j | |head| <= j < |s| ensures s[j] != '%' {
      assert s[j] == digits[j - |head|];
      assert In(digits[j - |head|], Digits);
    }
    forall j | 0 < j < |head| && s[j] == '%' ensures !IsDigit(s[j - 1]) {
      assert s[j] == head[j] && s[j - 1] == head[j - 1];
    }
    PercentIffDigitBeforeSign(s);
  }

  /** A single complete line read into an empty buffer. */
  lemma OneLine(line: string)
    requires AllChars(line, Except('\n'))
    ensures CompleteLines(line + "\n") == [line, ""] && PartialLine(line + "\n") == ""
    ensures LastPercent([line, ""]) == Percent(line)
  {
    SplitJoin([line, ""]);
    assert JoinNewlines([line, ""]) == line + "\n";
    assert Percent("") == None;
    assert [line, ""][..1] == [line];
    assert LastPercent([line, ""]) == LastPercent([line]);
    assert [line][..0] == [];
    assert LastPercent([line]) == if Percent(line).Some? then Percent(line) else LastPercent([]);
  }

  /**
   A complete line that starts the zero pass, read into an empty buffer:
   "Başlıyor..." replaces a label without `\d+%`, any other label stays.
   */
  lemma PassLineStep(t: Tracker, line: string)
    requires t.buffer == "" && AllChars(line, Except('\n')) && StartsPass(line)
    ensures Step(t, line + "\n") == Tracker("", if Percent(t.shown).None? then StartingLabel else t.shown)
  {
    var chunk := line + "\n";
    assert t.buffer + chunk == chunk;
    OneLine(line);
    assert StartsPass(CompleteLines(chunk)[0]);
    StepLabel(t, chunk);
  }

  /** From the start label, a line that starts the zero pass changes nothing. */
  lemma StartIgnoresPassLine(line: string)
    requires AllChars(line, Except('\n')) && StartsPass(line)
    ensures Step(Start(), line + "\n") == Start()
  {
    StartLabelHasPercent();
    PassLineStep(Start(), line);
  }

  /** After a percentage is shown, a line that starts the zero pass brings back "Başlıyor...". */
  lemma PassLineAfterProgress(digits: string, line: string)
    requires AllDigits(digits)
    requires AllChars(line, Except('\n')) && StartsPass(line)
    ensures Step(Tracker("", ProgressLabel(digits)), line + "\n") == Tracker("", StartingLabel)
  {
    ProgressLabelHasNoPercent(digits);
    PassLineStep(Tracker("", ProgressLabel(digits)), line);
  }

  /** In `p + d + "%"` with `p` and `d` free of `%`, the only `%` is the last character. */
  lemma OnlyFinalPercent(p: string, d: string)
    requires AllChars(p, Except('%')) && AllDigits(d)
    ensures forall j :: 0 <= j < |p| + |d| ==> (p + d + "%")[j] != '%'
  {
    var s := p + d + "%";
    forall j | 0 <= j < |p| + |d| ensures s[j] != '%' {
      if j < |p| {
        assert s[j] == p[j];
      } else {
        assert s[j] == d[j - |p|];
      }
    }
  }

  /** After a text free of `%` that does not end in a digit, a digit run and `%` are the leftmost match. */
  lemma PercentAfterPrefix(p: string, d: string)
    requires AllChars(p, Except('%')) && (p == "" || !IsDigit(p[|p| - 1]))
    requires |d| > 0 && AllDigits(d)
    ensures Percent(p + d + "%") == Some(d)
  {
    var s := p + d + "%";
    var n := |p| + |d|;
    assert s[|p|..n] == d;
    assert PercentAt(s, |p|, n);
    PercentFromLeftmost(s, 0);
    var i := PercentFrom(s, 0).value;
    var e := RunEnd(s, i);
    OnlyFinalPercent(p, d);
    assert e == n;
    assert s[i..e] == d;
  }

  /**
   A line completed by a later read: with `a` buffered, a chunk that finishes
   the line `a + b` and adds a line `c` without a percentage shows the
   percentage of `a + b` and leaves the buffer empty.
   */
  lemma LineCompletedAcrossReads(a: string, b: string, c: string, shown: string)
    requires AllChars(a + b, Except('\n')) && AllChars(c, Except('\n'))
    requires Percent(a + b).Some? && Percent(c).None?
    ensures Step(Tracker(a, shown), b + "\n" + c + "\n") == Tracker("", ProgressLabel(Percent(a + b).value))
  {
    var lines := [a + b, c, ""];
    var text := a + (b + "\n" + c + "\n");
    assert JoinNewlines(lines) == text by {
      assert lines[1..] == [c, ""] && [c, ""][1..] == [""];
      assert JoinNewlines([c, ""]) == c + "\n" + "";
    }
    SplitJoin(lines);
    assert CompleteLines(text) == lines;
    assert Percent("") == None;
    assert LastPercent(lines) == Percent(a + b) by {
      assert lines[..2] == [a + b, c];
      assert LastPercent(lines) == LastPercent([a + b, c]);
      assert [a + b, c][..1] == [a + b];
      assert LastPercent([a + b, c]) == LastPercent([a + b]);
    }
    StepLabel(Tracker(a, shown), b + "\n" + c + "\n");
  }

  /** The zero-pass marker holds neither a newline nor `%`, and ends in `.`. */
  lemma PassMarkerChars()
    ensures AllChars(PassMarker, Except('\n')) && AllChars(PassMarker, Except('%'))
    ensures PassMarker[|PassMarker| - 1] == '.'
  {
    forall i | 0 <= i < |PassMarker| ensures PassMarker[i] != '\n' && PassMarker[i] != '%' {
    }
  }

  /** The line `done` holds no newline and no percentage. */
  lemma DoneLine()
    ensures AllChars("done", Except('\n')) && Percent("done") == None
  {
    var s := "done";
    forall i | 0 <= i < |s| ensures s[i] != '\n' && s[i] != '%' {
    }
    PercentIffDigitBeforeSign(s);
  }

  /**
   A percentage split across two reads: `Pass 1/1 (zero)...12` only fills the
   buffer; `%\ndone\n` completes the line, shows `%12` and empties the buffer.
   */
  lemma SplitPercentExample()
    ensures Step(Start(), PassMarker + "12") == Tracker(PassMarker + "12", StartLabel)
    ensures Step(Tracker(PassMarker + "12", StartLabel), "%" + "\n" + "done" + "\n") == Tracker("", ProgressLabel("12"))
  {
    var first := PassMarker + "12";
    PassMarkerChars();
    AllCharsAppend(PassMarker, "12", Except('\n'));
    AllCharsAppend(first, "%", Except('\n'));
    assert "" + first == first;
    NoNewlineOnlyBuffers(Start(), first);
    PercentAfterPrefix(PassMarker, "12");
    DoneLine();
    LineCompletedAcrossReads(first, "%", "done", StartLabel);
  }

  /** What came before a reset has no effect on what follows it. */
  lemma ResetForgets(t: Tracker, u: Tracker, chunk: string)
    ensures Step(Finish(t), chunk) == Step(Finish(u), chunk)
    ensures Step(Fail(t), chunk) == Step(Fail(u), chunk)
  {
  }
}
