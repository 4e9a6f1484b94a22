/**
 The `smartctl -i` identity parser (`parse_smart_info`): each line is matched
 against a fixed chain of labels and the first label the line contains
 decides which key it sets and how the value is cut out of the line.
 The graphical and the console program share this parser unchanged.
 */
module DeviceInfo {
  import opened TextUtil

  /** The keys of the info map, in the order the label chain tests them. */
  datatype InfoField =
    | ModelFamily
    | DeviceModel
    | SerialNumber
    | FirmwareVersion
    | UserCapacity
    | RotationRate
    | SmartSupport
    | LocalTime
    | PowerOnHours
    | PowerCycleCount
    | WearLeveling
    | MediaWearout
    | DataUnitsWritten
    | DataUnitsRead

  /** The text whose presence in a line selects the field. */
  function Label(f: InfoField): string {
    match f
    case ModelFamily => "Model Family:"
    case DeviceModel => "Device Model:"
    case SerialNumber => "Serial Number:"
    case FirmwareVersion => "Firmware Version:"
    case UserCapacity => "User Capacity:"
    case RotationRate => "Rotation Rate:"
    case SmartSupport => "SMART support is:"
    case LocalTime => "Local Time is:"
    case PowerOnHours => "Power On Hours:"
    case PowerCycleCount => "Power Cycle Count:"
    case WearLeveling => "Wear_Leveling_Count"
    case MediaWearout => "Media_Wearout_Indicator"
    case DataUnitsWritten => "Data Units Written:"
    case DataUnitsRead => "Data Units Read:"
  }

  /** The dictionary key the field is stored under. */
  function KeyName(f: InfoField): string {
    match f
    case ModelFamily => "Model Family"
    case DeviceModel => "Device Model"
    case SerialNumber => "Serial Number"
    case FirmwareVersion => "Firmware Version"
    case UserCapacity => "User Capacity"
    case RotationRate => "Rotation Rate"
    case SmartSupport => "SMART Supported"
    case LocalTime => "Local Time"
    case PowerOnHours => "Power On Hours"
    case PowerCycleCount => "Power Cycle Count"
    case WearLeveling => "Wear Leveling"
    case MediaWearout => "Media Wearout"
    case DataUnitsWritten => "Data Units Written"
    case DataUnitsRead => "Data Units Read"
  }

  /** Distinct fields are stored under distinct keys, so the map keyed by field is the dictionary keyed by name. */
  lemma KeysDistinct(f: InfoField, g: InfoField)
    requires f != g
    ensures KeyName(f) != KeyName(g)
  {
  }

  const FieldCount: nat := 14

  /** Position of the field's test in the label chain. */
  function Rank(f: InfoField): (r: nat)
    ensures r < FieldCount
  {
    match f
    case ModelFamily => 0
    case DeviceModel => 1
    case SerialNumber => 2
    case FirmwareVersion => 3
    case UserCapacity => 4
    case RotationRate => 5
    case SmartSupport => 6
    case LocalTime => 7
    case PowerOnHours => 8
    case PowerCycleCount => 9
    case WearLeveling => 10
    case MediaWearout => 11
    case DataUnitsWritten => 12
    case DataUnitsRead => 13
  }

  /** The field whose label is looked for at position `i` of the chain. */
  function FieldAt(i: nat): (f: InfoField)
    requires i < FieldCount
    ensures Rank(f) == i
  {
    [ModelFamily, DeviceModel, SerialNumber, FirmwareVersion, UserCapacity, RotationRate, SmartSupport,
     LocalTime, PowerOnHours, PowerCycleCount, WearLeveling, MediaWearout, DataUnitsWritten, DataUnitsRead][i]
  }

  /** Every field sits at exactly one position of the chain. */
  lemma FieldAtRank(f: InfoField)
    ensures FieldAt(Rank(f)) == f
  {
  }

  /** The fields stored as the trimmed text after the first colon. */
  predicate IsColonField(f: InfoField) {
    f in {ModelFamily, DeviceModel, SerialNumber, FirmwareVersion, RotationRate, LocalTime, DataUnitsWritten, DataUnitsRead}
  }

  // ---------------------------------------------------------------------
  // Choosing the field: the `if … elif …` chain.
  // ---------------------------------------------------------------------

  /** The first field at position `i` or later whose label the line contains. */
  function FirstLabelFrom(line: string, i: nat): (r: Option<InfoField>)
    requires i <= FieldCount
    ensures r.Some? ==> i <= Rank(r.value) && Contains(line, Label(r.value))
    decreases FieldCount - i
  {
    if i == FieldCount then None
    else if Contains(line, Label(FieldAt(i))) then Some(FieldAt(i))
    else FirstLabelFrom(line, i + 1)
  }

  /** No field between `i` and the one found (or the end of the chain) has its label in the line. */
  lemma {:induction false} FirstLabelFromIsFirst(line: string, i: nat)
    requires i <= FieldCount
    ensures var r := FirstLabelFrom(line, i);
      forall f :: i <= Rank(f) && (r.None? || Rank(f) < Rank(r.value)) ==> !Contains(line, Label(f))
    decreases FieldCount - i
  {
    if i < FieldCount && !Contains(line, Label(FieldAt(i))) {
      FirstLabelFromIsFirst(line, i + 1);
      forall f | Rank(f) == i ensures f == FieldAt(i) {
        FieldAtRank(f);
      }
    }
  }

  /** The branch of the chain a line takes. */
  function FirstLabel(line: string): (r: Option<InfoField>)
    ensures r.Some? ==> Contains(line, Label(r.value))
  {
    FirstLabelFrom(line, 0)
  }

  /**
   The chain picks the first field, in chain order, whose label the line
   contains, and skips the line iff it contains no label at all.
   */
  lemma FirstLabelIsFirst(line: string)
    ensures FirstLabel(line).Some? ==>
      forall f :: Rank(f) < Rank(FirstLabel(line).value) ==> !Contains(line, Label(f))
    ensures FirstLabel(line).None? <==> forall f :: !Contains(line, Label(f))
  {
    FirstLabelFromIsFirst(line, 0);
  }

  // ---------------------------------------------------------------------
  // Cutting the value out of the line.
  // ---------------------------------------------------------------------

  /** `line.split(":", 1)[1].strip()`; a line without a colon never reaches it (see `ColonPresent`). */
  function AfterColon(line: string): (r: string)
  {
    match IndexOf(line, ':')
    case Some(i) => Strip(line[i + 1..])
    case None => ""
  }

  /** `r` is `s` cut before its first `bytes`, or all of `s` when it holds none. */
  predicate BytesCut(s: string, r: string) {
    || ((forall k :: 0 <= k <= |s| ==> !OccursAt(s, "bytes", k)) && r == s)
    || (exists k :: 0 <= k <= |s| && OccursAt(s, "bytes", k) && (forall m :: 0 <= m < k ==> !OccursAt(s, "bytes", m))
                     && r == s[..k])
  }

  /** `s.split("bytes")[0]` is the text before the first `bytes`. */
  lemma BeforeBytesCut(s: string)
    ensures BytesCut(s, BeforeBytes(s))
  {
    match FindFrom(s, "bytes", 0)
    case Some(i) =>
      assert OccursAt(s, "bytes", i) && BeforeBytes(s) == s[..i];
    case None =>
  }

  /** The part before the first `bytes` (`s.split("bytes")[0]`). */
  function BeforeBytes(s: string): (r: string)
    ensures r <= s
    ensures !Contains(r, "bytes") || r == s
  {
    match FindFrom(s, "bytes", 0)
    case Some(i) =>
      NothingBeforeFirst(s, "bytes", i);
      s[..i]
    case None => s
  }

  /**
   `re.search(r'\[(.*?)\]', s)` from position `from` on: the leftmost `[`
   whose first following `]` comes before any newline; the text between them.
   */
  function BracketFrom(s: string, from: nat): (r: Option<string>)
    requires from <= |s|
    ensures r.Some? ==> exists i :: from <= i && OccursAt(s, "[" + r.value + "]", i)
    ensures r.Some? ==> AllChars(r.value, Except(']')) && AllChars(r.value, Except('\n'))
    decreases |s| - from
  {
    if from == |s| then None
    else if s[from] == '[' then
      var rest := s[from + 1..];
      var n := Span(rest, Except(']'));
      if n < |rest| && AllChars(rest[..n], Except('\n')) then
        assert s[from..from + n + 2] == "[" + rest[..n] + "]";
        assert OccursAt(s, "[" + rest[..n] + "]", from);
        Some(rest[..n])
      else BracketFrom(s, from + 1)
    else BracketFrom(s, from + 1)
  }

  /** `(\d+)\s+hours` matches at `i`: a digit run, then a whitespace run, then `hours`; both runs taken whole. */
  predicate HoursAt(s: string, i: nat)
    requires i <= |s|
  {
    var d := SpanFrom(s, Digits, i);
    var w := SpanFrom(s, Spaces, d);
    d > i && w > d && HoursWordAt(s, w)
  }

  /** The word `hours` starts at `w`, spelled out letter by letter. */
  predicate HoursWordAt(s: string, w: nat) {
    w + 5 <= |s| && s[w] == 'h' && s[w + 1] == 'o' && s[w + 2] == 'u' && s[w + 3] == 'r' && s[w + 4] == 's'
  }

  /** An occurrence of `hours` is the word spelled out. */
  lemma HoursWordOccurs(s: string, w: nat)
    requires OccursAt(s, "hours", w)
    ensures HoursWordAt(s, w)
  {
    var x := s[w..w + 5];
    assert x[0] == s[w] && x[1] == s[w + 1] && x[2] == s[w + 2] && x[3] == s[w + 3] && x[4] == s[w + 4];
  }

  /** The leftmost position at or after `from` where `(\d+)\s+hours` matches. */
  function HoursPos(s: string, from: nat): (r: Option<nat>)
    requires from <= |s|
    ensures r.Some? ==> from <= r.value < |s| && HoursAt(s, r.value)
    ensures r.Some? ==> forall i :: from <= i < r.value ==> !HoursAt(s, i)
    decreases |s| - from
  {
    if from == |s| then None
    else if HoursAt(s, from) then Some(from)
    else HoursPos(s, from + 1)
  }

  /** A failed search means the pattern matches nowhere from `from` on. */
  lemma {:induction false} HoursPosNone(s: string, from: nat)
    requires from <= |s| && HoursPos(s, from).None?
    ensures forall i :: from <= i <= |s| ==> !HoursAt(s, i)
    decreases |s| - from
  {
    if from == |s| {
      assert SpanFrom(s, Digits, from) == from;
    } else {
      HoursPosNone(s, from + 1);
    }
  }

  /** `re.search(r'(\d+)\s+hours', s).group(1)`: the digit run at the leftmost match. */
  function HoursDigits(s: string): (r: Option<string>)
    ensures r.Some? ==> |r.value| > 0 && AllDigits(r.value)
  {
    match HoursPos(s, 0)
    case None => None
    case Some(i) =>
      RunFrom(s, Digits, i);
      Some(s[i..SpanFrom(s, Digits, i)])
  }

  /**
   The regex's own reading: the pattern matches at `i` whenever some
   non-empty digit string and some non-empty whitespace string followed by
   `hours` occur there, the digit string starting a digit run.
   */
  lemma HoursAtIff(s: string, i: nat, digits: string, ws: string)
    requires |digits| > 0 && AllDigits(digits) && |ws| > 0 && AllChars(ws, Spaces)
    requires OccursAt(s, digits + ws + "hours", i)
    ensures HoursAt(s, i) && SpanFrom(s, Digits, i) == i + |digits|
  {
    var rest := ws + "hours";
    assert digits + ws + "hours" == digits + rest;
    assert rest[0] == ws[0] && In(ws[0], Spaces);
    RunOfOccurrence(s, i, digits, rest, Digits);
    var d := i + |digits|;
    HoursTail(s, d, ws);
    HoursAtParts(s, i, d, d + |ws|);
  }

  /** The match test from its parts: a digit run from `i` to `d`, a whitespace run from `d` to `w`, then `hours`. */
  lemma HoursAtParts(s: string, i: nat, d: nat, w: nat)
    requires i < d < w <= |s|
    requires SpanFrom(s, Digits, i) == d && SpanFrom(s, Spaces, d) == w && HoursWordAt(s, w)
    ensures HoursAt(s, i)
  {
  }

  /** A whitespace run followed by `hours` at `d`: the run is taken whole and the word follows it. */
  lemma HoursTail(s: string, d: nat, ws: string)
    requires |ws| > 0 && AllChars(ws, Spaces) && OccursAt(s, ws + "hours", d)
    ensures SpanFrom(s, Spaces, d) == d + |ws| && HoursWordAt(s, d + |ws|)
  {
    assert "hours"[0] == 'h';
    RunOfOccurrence(s, d, ws, "hours", Spaces);
    HoursWordOccurs(s, d + |ws|);
  }

  /** `re.search(r'(\d+)', s)`: the maximal digit run at the leftmost digit. */
  function FirstDigitRun(s: string): (r: Option<string>)
    ensures r.Some? ==> |r.value| > 0 && AllDigits(r.value)
    ensures r.None? <==> AllChars(s, NonDigits)
    ensures r.Some? ==> exists p :: 0 <= p && OccursAt(s, r.value, p) && AllChars(s[..p], NonDigits)
                          && (p + |r.value| == |s| || !IsDigit(s[p + |r.value|]))
  {
    var p := Span(s, NonDigits);
    if p == |s| then
      assert s[..p] == s;
      None
    else
      var d := Span(s[p..], Digits);
      assert s[p..p + d] == s[p..][..d];
      Some(s[p..p + d])
  }

  // The SSD wear regexes `.*X\s+.*?\s+(\d+)`, read as Python's backtracking matcher does.

  /** `\s+(\d+)` at `q`: the whole whitespace run must be followed by a digit; the digit run. */
  function SpacedDigits(s: string, q: nat): (r: Option<string>)
    requires q <= |s|
    ensures r.Some? ==> |r.value| > 0 && AllDigits(r.value)
  {
    var l := Span(s[q..], Spaces);
    if l > 0 && q + l < |s| && IsDigit(s[q + l]) then
      var d := Span(s[q + l..], Digits);
      Some(s[q + l..q + l + d])
    else None
  }

  /** `.*?` starting at `start` and currently `j` characters long, then `\s+(\d+)`: shortest first, never across a newline. */
  function LazyThenDigits(s: string, start: nat, j: nat): (r: Option<string>)
    requires start + j <= |s|
    ensures r.Some? ==> |r.value| > 0 && AllDigits(r.value)
    decreases |s| - start - j
  {
    match SpacedDigits(s, start + j)
    case Some(v) => Some(v)
    case None =>
      if start + j < |s| && s[start + j] != '\n' then LazyThenDigits(s, start, j + 1) else None
  }

  /** `\s+` after the label at `e`, trying `k` whitespace characters first, then fewer. */
  function AfterLabel(s: string, e: nat, k: nat): (r: Option<string>)
    requires e + k <= |s|
    ensures r.Some? ==> |r.value| > 0 && AllDigits(r.value)
  {
    if k == 0 then None
    else
      match LazyThenDigits(s, e + k, 0)
      case Some(v) => Some(v)
      case None => AfterLabel(s, e, k - 1)
  }

  /** The label at `p` and the rest of the pattern after it. */
  function WearAt(s: string, x: string, p: nat): (r: Option<string>)
    requires p <= |s|
    ensures r.Some? ==> OccursAt(s, x, p) && |r.value| > 0 && AllDigits(r.value)
  {
    if !OccursAt(s, x, p) then None
    else
      var e := p + |x|;
      AfterLabel(s, e, Span(s[e..], Spaces))
  }

  /** The greedy `.*` before the label: label positions `p` tried from the right. */
  function WearFrom(s: string, x: string, p: nat): (r: Option<string>)
    requires p <= |s|
    ensures r.Some? ==> Contains(s, x) && |r.value| > 0 && AllDigits(r.value)
  {
    match WearAt(s, x, p)
    case Some(v) =>
      ContainsAt(s, x, p);
      Some(v)
    case None => if p == 0 then None else WearFrom(s, x, p - 1)
  }

  /** `re.match(r'.*X\s+.*?\s+(\d+)', s)`: `.*` cannot cross a newline, so the label must start within the first line. */
  function WearMatch(s: string, x: string): (r: Option<string>)
    ensures r.Some? ==> Contains(s, x) && |r.value| > 0 && AllDigits(r.value)
  {
    WearFrom(s, x, Span(s, Except('\n')))
  }

  /** The value a line stores under field `f`, once the chain has chosen `f`; `None` when the line is ignored. */
  function Extract(f: InfoField, line: string): (r: Option<string>)
  {
    match f
    case UserCapacity =>
      Some(match BracketFrom(line, 0)
           case Some(c) => c
           case None => Strip(BeforeBytes(AfterColon(line))))
    case SmartSupport => Some(if Contains(line, "Enabled") then "Enabled" else "Disabled")
    case PowerOnHours =>
      (match HoursDigits(line)
       case Some(d) => Some(d + " hours")
       case None => None)
    case PowerCycleCount => FirstDigitRun(line)
    case WearLeveling => WearMatch(line, "Wear_Leveling_Count")
    case MediaWearout => WearMatch(line, "Media_Wearout_Indicator")
    case _ => Some(AfterColon(line))
  }

  /** What one line contributes to the map. */
  datatype Entry = Skip | Set(field: InfoField, value: string)

  /** The entry of one line: the field its first label names, with the value cut out of the line, if any. */
  function LineEntry(line: string): (r: Entry)
    ensures r.Set? ==> FirstLabel(line) == Some(r.field)
  {
    match FirstLabel(line)
    case None => Skip
    case Some(f) =>
      match Extract(f, line)
      case None => Skip
      case Some(v) => Set(f, v)
  }

  /** One iteration of the loop: store the entry's value under its field. */
  function Apply(info: map<InfoField, string>, e: Entry): (r: map<InfoField, string>)
    ensures e.Set? ==> r == info[e.field := e.value]
    ensures e.Skip? ==> r == info
  {
    match e
    case Skip => info
    case Set(f, v) => info[f := v]
  }

  /** The entries applied first to last, starting from the empty map. */
  function Fold(es: seq<Entry>): map<InfoField, string>
    decreases |es|
  {
    if es == [] then map[] else Apply(Fold(es[..|es| - 1]), es[|es| - 1])
  }

  /** The entries of the lines, in order. */
  function Entries(lines: seq<string>): (es: seq<Entry>)
    ensures |es| == |lines| && forall i :: 0 <= i < |lines| ==> es[i] == LineEntry(lines[i])
  {
    seq(|lines|, i requires 0 <= i < |lines| => LineEntry(lines[i]))
  }

  /** The loop of `parse_smart_info` over the lines, first to last. */
  function ParseInfoLines(lines: seq<string>): map<InfoField, string>
  {
    Fold(Entries(lines))
  }

  /** `parse_smart_info(text)`. */
  function ParseSmartInfo(text: string): map<InfoField, string>
  {
    ParseInfoLines(SplitLines(text))
  }

  /** Entry `e` sets field `f`. */
  predicate Sets(e: Entry, f: InfoField) {
    e.Set? && e.field == f
  }

  // ---------------------------------------------------------------------
  // Properties of the map.
  // ---------------------------------------------------------------------

  /** Over entries: the value stored under `f` is the one of the last entry that sets `f`. */
  lemma {:induction false} LastEntryWins(es: seq<Entry>, f: InfoField, i: nat)
    requires i < |es| && Sets(es[i], f)
    requires forall j :: i < j < |es| ==> !Sets(es[j], f)
    ensures f in Fold(es) && Fold(es)[f] == es[i].value
    decreases |es|
  {
    var n := |es| - 1;
    if i < n {
      var init := es[..n];
      assert init[i] == es[i];
      forall j | i < j < n ensures !Sets(init[j], f) {
        assert init[j] == es[j];
      }
      LastEntryWins(init, f, i);
    }
  }

  /** Over entries: a field is stored iff some entry sets it. */
  lemma {:induction false} StoredIffSet(es: seq<Entry>, f: InfoField)
    ensures f in Fold(es) <==> exists i :: 0 <= i < |es| && Sets(es[i], f)
    decreases |es|
  {
    if es != [] {
      var n := |es| - 1;
      var init := es[..n];
      StoredIffSet(init, f);
      if exists i :: 0 <= i < n && Sets(init[i], f) {
        var i :| 0 <= i < n && Sets(init[i], f);
        assert es[i] == init[i];
      }
      if exists i :: 0 <= i < |es| && Sets(es[i], f) {
        var i :| 0 <= i < |es| && Sets(es[i], f);
        if i < n {
          assert init[i] == es[i];
        }
      }
    }
  }

  /**
   Last writer wins: when line `i` sets `f` and no later line does, the map
   holds line `i`'s value under `f`.
   */
  lemma LastWriterWins(lines: seq<string>, f: InfoField, i: nat)
    requires i < |lines| && Sets(LineEntry(lines[i]), f)
    requires forall j :: i < j < |lines| ==> !Sets(LineEntry(lines[j]), f)
    ensures f in ParseInfoLines(lines) && ParseInfoLines(lines)[f] == LineEntry(lines[i]).value
  {
    LastEntryWins(Entries(lines), f, i);
  }

  /** A field is in the map iff some line sets it: there are no defaults. */
  lemma PresentIffWritten(lines: seq<string>, f: InfoField)
    ensures f in ParseInfoLines(lines) <==> exists i :: 0 <= i < |lines| && Sets(LineEntry(lines[i]), f)
  {
    var es := Entries(lines);
    StoredIffSet(es, f);
    if exists i :: 0 <= i < |lines| && Sets(LineEntry(lines[i]), f) {
      var i :| 0 <= i < |lines| && Sets(LineEntry(lines[i]), f);
      assert Sets(es[i], f);
    }
  }

  /** Over entries: a stored value is the value of some entry that sets its field. */
  lemma {:induction false} StoredValueFrom(es: seq<Entry>, f: InfoField)
    requires f in Fold(es)
    ensures exists i :: 0 <= i < |es| && Sets(es[i], f) && Fold(es)[f] == es[i].value
    decreases |es|
  {
    var n := |es| - 1;
    var init := es[..n];
    if !Sets(es[n], f) {
      StoredValueFrom(init, f);
      var i :| 0 <= i < n && Sets(init[i], f) && Fold(init)[f] == init[i].value;
      assert es[i] == init[i];
    }
  }

  /** A field whose label appears on no line is absent. */
  lemma AbsentWithoutLabel(lines: seq<string>, f: InfoField)
    requires forall i :: 0 <= i < |lines| ==> !Contains(lines[i], Label(f))
    ensures f !in ParseInfoLines(lines)
  {
    PresentIffWritten(lines, f);
  }

  /** The entry of a line whose first label names `f`, in terms of the extraction for `f`. */
  lemma EntryOf(line: string, f: InfoField)
    requires FirstLabel(line) == Some(f)
    ensures LineEntry(line) == if Extract(f, line).Some? then Set(f, Extract(f, line).value) else Skip
  {
  }

  /** A line holding a text that ends in a colon holds a colon. */
  lemma ColonInside(line: string, x: string)
    requires |x| > 0 && x[|x| - 1] == ':' && Contains(line, x)
    ensures IndexOf(line, ':').Some?
  {
    var i := FindFrom(line, x, 0).value;
    assert line[i + |x| - 1] == line[i..i + |x|][|x| - 1];
  }

  /** Every label of a colon field, and the User Capacity label, ends in a colon. */
  lemma ColonPresent(line: string, f: InfoField)
    requires IsColonField(f) || f == UserCapacity
    requires Contains(line, Label(f))
    ensures IndexOf(line, ':').Some?
  {
    var x := Label(f);
    assert x[|x| - 1] == ':';
    ColonInside(line, x);
  }

  /** For a colon field the value is the trimmed text after the line's first colon. */
  lemma ColonFieldValue(line: string, f: InfoField)
    requires IsColonField(f) && FirstLabel(line) == Some(f)
    ensures exists i :: 0 <= i < |line| && line[i] == ':' && (forall j :: 0 <= j < i ==> line[j] != ':')
                        && LineEntry(line) == Set(f, Strip(line[i + 1..]))
  {
    ColonPresent(line, f);
    var i := IndexOf(line, ':').value;
    assert Extract(f, line) == Some(AfterColon(line));
    EntryOf(line, f);
  }

  /** SMART support is stored as exactly `Enabled` or `Disabled`, chosen by whether the line mentions `Enabled`. */
  lemma SmartSupportValue(line: string)
    requires FirstLabel(line) == Some(SmartSupport)
    ensures LineEntry(line) == Set(SmartSupport, if Contains(line, "Enabled") then "Enabled" else "Disabled")
  {
    EntryOf(line, SmartSupport);
  }

  /** The hours search succeeds iff the pattern matches somewhere, and then yields the digits of the leftmost match. */
  lemma HoursDigitsFound(line: string)
    ensures HoursDigits(line).Some? <==> exists i :: 0 <= i <= |line| && HoursAt(line, i)
    ensures HoursDigits(line).Some? ==>
      exists i :: 0 <= i < |line| && HoursAt(line, i) && (forall j :: 0 <= j < i ==> !HoursAt(line, j))
                  && HoursDigits(line).value == line[i..SpanFrom(line, Digits, i)]
  {
    var r := HoursPos(line, 0);
    if r.None? {
      HoursPosNone(line, 0);
    } else {
      var i := r.value;
      assert HoursDigits(line).value == line[i..SpanFrom(line, Digits, i)];
    }
  }

  /** The entry of a Power On Hours line, in terms of the hours search. */
  lemma HoursEntry(line: string)
    requires FirstLabel(line) == Some(PowerOnHours)
    ensures LineEntry(line) == if HoursDigits(line).Some? then Set(PowerOnHours, HoursDigits(line).value + " hours") else Skip
  {
    EntryOf(line, PowerOnHours);
    HoursExtract(line);
  }

  /** Power On Hours is read by the hours search. */
  lemma HoursExtract(line: string)
    ensures Extract(PowerOnHours, line) == if HoursDigits(line).Some? then Some(HoursDigits(line).value + " hours") else None
  {
  }

  /**
   A Power On Hours line is set iff the hours pattern matches somewhere in it,
   and then to the digits of the leftmost match followed by ` hours`.
   */
  lemma PowerOnHoursValue(line: string)
    requires FirstLabel(line) == Some(PowerOnHours)
    ensures LineEntry(line).Set? <==> exists i :: 0 <= i <= |line| && HoursAt(line, i)
    ensures LineEntry(line).Set? ==>
      exists i :: 0 <= i < |line| && HoursAt(line, i) && (forall j :: 0 <= j < i ==> !HoursAt(line, j))
                  && LineEntry(line) == Set(PowerOnHours, line[i..SpanFrom(line, Digits, i)] + " hours")
  {
    HoursEntry(line);
    HoursEntryValue(LineEntry(line), line);
  }

  /** An entry cut out by the hours search: set iff the pattern matches, to the leftmost match's digits and ` hours`. */
  lemma HoursEntryValue(e: Entry, line: string)
    requires e == if HoursDigits(line).Some? then Set(PowerOnHours, HoursDigits(line).value + " hours") else Skip
    ensures e.Set? <==> exists i :: 0 <= i <= |line| && HoursAt(line, i)
    ensures e.Set? ==>
      exists i :: 0 <= i < |line| && HoursAt(line, i) && (forall j :: 0 <= j < i ==> !HoursAt(line, j))
                  && e == Set(PowerOnHours, line[i..SpanFrom(line, Digits, i)] + " hours")
  {
    HoursDigitsFound(line);
  }

  /** An entry cut out by the leftmost digit run: set iff the line holds a digit, and then to that run. */
  lemma DigitRunEntry(e: Entry, line: string)
    requires e == if FirstDigitRun(line).Some? then Set(PowerCycleCount, FirstDigitRun(line).value) else Skip
    ensures e.Set? <==> exists i :: 0 <= i < |line| && IsDigit(line[i])
    ensures e.Set? ==> e.value == FirstDigitRun(line).value
  {
    if FirstDigitRun(line).None? {
      assert AllChars(line, NonDigits);
    } else {
      assert !AllChars(line, NonDigits);
    }
  }

  /** Power Cycle Count is read as the leftmost digit run. */
  lemma PowerCycleExtract(line: string)
    ensures Extract(PowerCycleCount, line) == FirstDigitRun(line)
  {
  }

  /** Power Cycle Count is set iff the line holds a digit, and then to the leftmost digit run. */
  lemma PowerCycleValue(line: string)
    requires FirstLabel(line) == Some(PowerCycleCount)
    ensures LineEntry(line).Set? <==> exists i :: 0 <= i < |line| && IsDigit(line[i])
    ensures LineEntry(line).Set? ==> LineEntry(line).value == FirstDigitRun(line).value
  {
    EntryOf(line, PowerCycleCount);
    PowerCycleExtract(line);
    DigitRunEntry(LineEntry(line), line);
  }

  /** The wear fields are set only from a line holding their label, and only to a digit run. */
  lemma WearValue(line: string, f: InfoField)
    requires f == WearLeveling || f == MediaWearout
    requires Sets(LineEntry(line), f)
    ensures Contains(line, Label(f))
    ensures |LineEntry(line).value| > 0 && AllDigits(LineEntry(line).value)
  {
    EntryOf(line, f);
    assert Extract(f, line) == WearMatch(line, Label(f));
  }

  /** The availability test of the console program: the map says SMART support is `Enabled`. */
  predicate SmartEnabled(info: map<InfoField, string>) {
    SmartSupport in info && info[SmartSupport] == "Enabled"
  }

  /** A line sets SMART support exactly when the chain sends it to that branch. */
  lemma SupportSets(line: string)
    ensures Sets(LineEntry(line), SmartSupport) <==> FirstLabel(line) == Some(SmartSupport)
  {
    if FirstLabel(line) == Some(SmartSupport) {
      SmartSupportValue(line);
    }
  }

  /**
   With line `i` the last one that takes the SMART-support branch, SMART
   counts as enabled iff that line contains `Enabled`.
   */
  lemma SmartEnabledByLastLine(lines: seq<string>, i: nat)
    requires i < |lines| && FirstLabel(lines[i]) == Some(SmartSupport)
    requires forall j :: i < j < |lines| ==> FirstLabel(lines[j]) != Some(SmartSupport)
    ensures SmartEnabled(ParseInfoLines(lines)) <==> Contains(lines[i], "Enabled")
  {
    SmartSupportValue(lines[i]);
    forall j | i < j < |lines| ensures !Sets(LineEntry(lines[j]), SmartSupport) {
      SupportSets(lines[j]);
    }
    LastWriterWins(lines, SmartSupport, i);
  }

  /** Without a SMART-support line the key is absent and SMART does not count as enabled. */
  lemma SmartDisabledWithoutLine(lines: seq<string>)
    requires forall j :: 0 <= j < |lines| ==> FirstLabel(lines[j]) != Some(SmartSupport)
    ensures !SmartEnabled(ParseInfoLines(lines))
  {
    forall j | 0 <= j < |lines| ensures !Sets(LineEntry(lines[j]), SmartSupport) {
      SupportSets(lines[j]);
    }
    PresentIffWritten(lines, SmartSupport);
  }

  /**
   Whatever the text, a stored SMART-support value is `Enabled` or
   `Disabled`: the raw wording of the line never reaches the map.
   */
  lemma SmartSupportStored(text: string)
    ensures SmartSupport in ParseSmartInfo(text) ==>
              ParseSmartInfo(text)[SmartSupport] in {"Enabled", "Disabled"}
  {
    var lines := SplitLines(text);
    var es := Entries(lines);
    if SmartSupport in Fold(es) {
      StoredValueFrom(es, SmartSupport);
      var i :| 0 <= i < |es| && Sets(es[i], SmartSupport) && Fold(es)[SmartSupport] == es[i].value;
      SmartSupportValue(lines[i]);
    }
  }

  // ---------------------------------------------------------------------
  // User Capacity.
  // ---------------------------------------------------------------------

  /** Positions holding no `[` are skipped by the bracket search. */
  lemma {:induction false} BracketSkip(s: string, from: nat, i: nat)
    requires from <= i <= |s|
    requires forall j :: from <= j < i ==> s[j] != '['
    ensures BracketFrom(s, from) == BracketFrom(s, i)
    decreases i - from
  {
    if from < i {
      BracketSkip(s, from + 1, i);
    }
  }

  /** A `[` followed by a text free of `]` and newlines and then `]` yields that text. */
  lemma BracketHere(s: string, i: nat, c: string)
    requires i + |c| + 2 <= |s| && s[i..i + |c| + 2] == "[" + c + "]"
    requires AllChars(c, Except(']')) && AllChars(c, Except('\n'))
    ensures BracketFrom(s, i) == Some(c)
  {
    var rest := s[i + 1..];
    assert s[i] == '[';
    assert rest[..|c|] == c by {
      forall k | 0 <= k < |c| ensures rest[k] == c[k] {
        assert rest[k] == s[i..i + |c| + 2][k + 1];
      }
    }
    assert rest[|c|] == ']' by {
      assert rest[|c|] == s[i..i + |c| + 2][|c| + 1];
    }
    SpanUnique(rest, Except(']'), |c|);
  }

  /** The User Capacity search finds the first bracket pair of a line whose text before it holds no `[`. */
  lemma FirstBracketContent(prefix: string, c: string, suffix: string)
    requires AllChars(prefix, Except('['))
    requires AllChars(c, Except(']')) && AllChars(c, Except('\n'))
    ensures BracketFrom(prefix + "[" + c + "]" + suffix, 0) == Some(c)
  {
    var s := prefix + "[" + c + "]" + suffix;
    forall j | 0 <= j < |prefix| ensures s[j] != '[' {
      assert s[j] == prefix[j];
    }
    BracketSkip(s, 0, |prefix|);
    assert s[|prefix|..|prefix| + |c| + 2] == "[" + c + "]";
    BracketHere(s, |prefix|, c);
  }

  /**
   Without any `[` the capacity falls back to the text after the line's first
   colon, stripped, cut before its first `bytes` and stripped again.
   */
  lemma CapacityWithoutBrackets(line: string)
    requires FirstLabel(line) == Some(UserCapacity) && AllChars(line, Except('['))
    ensures LineEntry(line) == Set(UserCapacity, Strip(BeforeBytes(AfterColon(line))))
    ensures exists i, v :: 0 <= i < |line| && line[i] == ':' && (forall j :: 0 <= j < i ==> line[j] != ':')
                           && BytesCut(Strip(line[i + 1..]), v) && LineEntry(line) == Set(UserCapacity, Strip(v))
  {
    BracketSkip(line, 0, |line|);
    EntryOf(line, UserCapacity);
    ColonPresent(line, UserCapacity);
    var i := IndexOf(line, ':').value;
    BeforeBytesCut(AfterColon(line));
  }

  /** The capacity text before the bracket pair, in pieces short enough to inspect one by one. */
  const CapacityPieces: seq<string> := ["User Capacity:", "    1,000,204,", "886,016 bytes "]

  /** The capacity in the bracket pair. */
  const CapacityValue: string := "1.00 TB"

  /** `User Capacity:    1,000,204,886,016 bytes [1.00 TB]`, as `smartctl -i` prints it. */
  function CapacityLine(): string {
    CapacityPieces[0] + CapacityPieces[1] + CapacityPieces[2] + "[" + CapacityValue + "]"
  }

  /** A character that none of the pieces holds is absent from the whole line. */
  lemma CapacityLineLacks(c: char)
    requires c in {'M', 'D', 'S', 'F', '['}
    ensures AllChars(CapacityPieces[0] + CapacityPieces[1] + CapacityPieces[2], Except(c))
    ensures c != '[' ==> AllChars(CapacityLine(), Except(c))
  {
    var p0, p1, p2 := CapacityPieces[0], CapacityPieces[1], CapacityPieces[2];
    assert AllChars("User Capacity:", Except(c));
    assert AllChars("    1,000,204,", Except(c));
    assert AllChars("886,016 bytes ", Except(c));
    AllCharsAppend(p0, p1, Except(c));
    AllCharsAppend(p0 + p1, p2, Except(c));
    if c != '[' {
      assert AllChars("[", Except(c)) && AllChars(CapacityValue, Except(c)) && AllChars("]", Except(c));
      AllCharsAppend(p0 + p1 + p2, "[", Except(c));
      AllCharsAppend(p0 + p1 + p2 + "[", CapacityValue, Except(c));
      AllCharsAppend(p0 + p1 + p2 + "[" + CapacityValue, "]", Except(c));
    }
  }

  /** A line with the User Capacity label and none of the letters M, D, S, F is sent to User Capacity. */
  lemma CapacityLabelChosen(line: string)
    requires AllChars(line, Except('M')) && AllChars(line, Except('D'))
    requires AllChars(line, Except('S')) && AllChars(line, Except('F'))
    requires Contains(line, Label(UserCapacity))
    ensures FirstLabel(line) == Some(UserCapacity)
  {
    LacksChar(line, Label(ModelFamily), 0);
    LacksChar(line, Label(DeviceModel), 0);
    LacksChar(line, Label(SerialNumber), 0);
    LacksChar(line, Label(FirmwareVersion), 0);
    assert FieldAt(0) == ModelFamily && FieldAt(1) == DeviceModel && FieldAt(2) == SerialNumber;
    assert FieldAt(3) == FirmwareVersion && FieldAt(4) == UserCapacity;
    SkipLabel(line, 0);
    SkipLabel(line, 1);
    SkipLabel(line, 2);
    SkipLabel(line, 3);
  }

  /** A line without the label at position `i` of the chain goes on to the next test. */
  lemma SkipLabel(line: string, i: nat)
    requires i < FieldCount && !Contains(line, Label(FieldAt(i)))
    ensures FirstLabelFrom(line, i) == FirstLabelFrom(line, i + 1)
  {
  }

  /**
   A User Capacity line whose first bracket pair holds `c`: the entry is `c`,
   whatever the byte count before it and the text after it say.
   */
  lemma CapacityEntry(prefix: string, c: string, suffix: string)
    requires FirstLabel(prefix + "[" + c + "]" + suffix) == Some(UserCapacity)
    requires AllChars(prefix, Except('['))
    requires AllChars(c, Except(']')) && AllChars(c, Except('\n'))
    ensures LineEntry(prefix + "[" + c + "]" + suffix) == Set(UserCapacity, c)
  {
    FirstBracketContent(prefix, c, suffix);
    EntryOf(prefix + "[" + c + "]" + suffix, UserCapacity);
  }

  /** The capacity value holds neither a closing bracket nor a line break. */
  lemma CapacityValueChars()
    ensures AllChars(CapacityValue, Except(']')) && AllChars(CapacityValue, Except('\n'))
  {
  }

  /** The capacity line is sent to User Capacity. */
  lemma CapacityLineLabel()
    ensures FirstLabel(CapacityLine()) == Some(UserCapacity)
  {
    var line := CapacityLine();
    CapacityLineLacks('M');
    CapacityLineLacks('D');
    CapacityLineLacks('S');
    CapacityLineLacks('F');
    assert line[0..14] == Label(UserCapacity);
    ContainsAt(line, Label(UserCapacity), 0);
    CapacityLabelChosen(line);
  }

  /** The capacity line's entry. */
  lemma CapacityLineEntry()
    ensures LineEntry(CapacityLine()) == Set(UserCapacity, "1.00 TB")
  {
    var prefix := CapacityPieces[0] + CapacityPieces[1] + CapacityPieces[2];
    CapacityLineLacks('[');
    CapacityLineLabel();
    var line := prefix + "[" + CapacityValue + "]" + "";
    assert CapacityLine() == line;
    assert FirstLabel(line) == Some(UserCapacity);
    CapacityValueChars();
    CapacityEntry(prefix, CapacityValue, "");
  }

  /** `User Capacity:    1,000,204,886,016 bytes [1.00 TB]` stores `1.00 TB`. */
  lemma UserCapacityExample()
    ensures ParseInfoLines([CapacityLine()]) == map[UserCapacity := "1.00 TB"]
  {
    CapacityLineEntry();
    assert Entries([CapacityLine()]) == [Set(UserCapacity, "1.00 TB")];
    assert [Set(UserCapacity, "1.00 TB")][..0] == [];
  }
}
