# Zeus HDD Doctor: the SMART telemetry pipeline in Dafny

Zeus HDD Doctor reads a disk's SMART report in two programs: a graphical one
(`Zeus_HDD_Doctor.v01.py`, packaged unchanged as
`zeus-hdd-doctor/usr/share/zeus-hdd-doctor/Zeus_HDD_Doctor.py`) and a console
one (`Zeus_HDD_Doctor_CONSOLE.py`). It computes a health score and verdict from
the report, and it shows the progress of a secure erase done with `shred`.
This project models the pure logic behind those features and proves what it
computes.

The project has five modules, one per component:

- `TextUtil`: the Python string operations the programs rely on, restricted to
  ASCII classes:
  - `str.splitlines()`, `str.split()`, `str.strip()`, `in`;
  - `int(...)` on digit runs, and `str(...)` of integers.
- `AttributeTable`: `parse_smart_attributes`, the `smartctl -A` table parser.
  - The ten-group row regex is modelled as a greedy scanner. It is proved equal
    to a token-level predicate: ten whitespace-separated tokens, each in its
    column's character class, with nothing after the last one.
  - The header-to-terminator window is modelled in both programs. The console
    program has one extra terminator.
- `DeviceInfo`: `parse_smart_info`, the `smartctl -i` identity parser.
  - The label chain, the colon split, the bracket search and the `hours` search
    are modelled.
  - So are the digit-run search and the two wear regexes, whose backtracking
    semantics are written out.
- `HealthScore`: `calculate_health_score` in both programs, in two parts.
  - The score: the four deduction rules, the clamp, the bands and the notes.
    The console program adds an "unknown" result, modelled as the variant
    `Unknown | Known(n)`.
  - When each program scores: the availability decision of the console's
    `analyze_disks` and the graphical call site.
- `EraseProgress`: `update_shred_progress` as a step function on a buffer and a
  label, plus the resets at start, finish and error.
  - `str.split('\n')` is modelled exactly.
  - So is `re.search(r'(\d+)%', line)`.

Each report parser takes the report text. The fetched `smartctl` outputs are
parameters, and a failed fetch is `None`. An erase read is a chunk of
already-decoded text.

The code is modelled as written.

## Behaviour a reader might not expect

- **Temperature rule.** In `Zeus_HDD_Doctor.v01.py:216-221` the test for a
  reading above 60 is an `elif` (line 219) after the test for above 50, so that
  branch is never taken. Every reading above 50 costs 5 points, 65 included
  (`HealthScore.TemperatureNeverCritical`, `HealthScore.HotDriveExample`).
- **Dash raw values.** The comment at `Zeus_HDD_Doctor_CONSOLE.py:151` says a
  raw value of `-` should read as 0. The raw-value group at
  `Zeus_HDD_Doctor.v01.py:100` admits only an optional `-` followed by digits,
  so a row whose raw value is `-` never matches and is skipped. The fallback at
  `Zeus_HDD_Doctor.v01.py:126-141` therefore never substitutes 0
  (`AttributeTable.DashRawValueNeverMatches`).
- **Console bands.** `Zeus_HDD_Doctor.v01.py:240-251` bands with `>=`, and
  `Zeus_HDD_Doctor_CONSOLE.py:287-298` bands with `>`. A score of exactly 85,
  70 or 60 gets a band one step lower in the console program
  (`HealthScore.BandsDifferOnlyAtEdges`).
- **Console note wording.** The ORTA note says "yedeklemenizi" at
  `Zeus_HDD_Doctor.v01.py:248` and "yedeklemeniz" at
  `Zeus_HDD_Doctor_CONSOLE.py:295`.
- **Progress label.** The label set at `Zeus_HDD_Doctor.v01.py:558` reads
  `İşlem sürüyor: %12`, with the sign before the number, so it never contains
  `\d+%`. Once a percentage has been shown, the test at line 552 lets a later
  "Pass 1/1 (zero)..." line bring back "Başlıyor..."
  (`EraseProgress.PassLineAfterProgress`). The start label
  `İşlem sürüyor: 0%` set at line 514 does contain `\d+%` and suppresses it
  (`EraseProgress.StartIgnoresPassLine`).
- **Info map.** In `Zeus_HDD_Doctor.v01.py:153-190` a line sets at most one
  key: the first label of the `elif` chain that the line contains. When several
  lines set the same key, the last one wins
  (`DeviceInfo.FirstLabelIsFirst`, `DeviceInfo.LastWriterWins`).

## Model

| member | source | states |
|---|---|---|
| `AttributeTable.PiecesVsTokens` | Zeus_HDD_Doctor.v01.py:92-100 | For any sequence of column classes, the greedy group-by-group scan succeeds iff the text's whitespace tokens fit the classes column by column and the text has no trailing whitespace; the captured groups are then exactly the tokens |
| `AttributeTable.RowRegexIsTokenLevel` | Zeus_HDD_Doctor.v01.py:91-101 | On a line without a newline, the row regex matches iff the line is a ten-token row with no trailing whitespace, and its ten groups are the line's tokens. The columns are: digits; `[A-Za-z0-9_]+`; non-blank; digits, digits, digits; non-blank three times; an optional `-` then digits |
| `AttributeTable.MatchRowIff` | Zeus_HDD_Doctor.v01.py:112-125 | A line yields a record iff it is a ten-token row; the record is int(token 1), token 2, int(tokens 4-6), tokens 7 and 8, signed int(token 10), and Flags and When_Failed are dropped |
| `AttributeTable.DashRawValueNeverMatches` | Zeus_HDD_Doctor.v01.py:126-141 | A ten-token line whose raw-value token is `-` yields no record, so the `ValueError` fallback never substitutes 0 for a dash (it is reached only past `int()`'s digit limit, see Left out) |
| `AttributeTable.NoHeaderNoRows` | Zeus_HDD_Doctor.v01.py:103-108 | Without a line containing `ID# ATTRIBUTE_NAME` the parser returns nothing |
| `AttributeTable.ParseWindow` | Zeus_HDD_Doctor.v01.py:103-113 | With the first header at h and the first later non-header terminator at e, the result is the reference rows of the lines strictly between them: the preamble and everything from the terminator on contribute nothing |
| `AttributeTable.TableHasRowIff` | Zeus_HDD_Doctor.v01.py:103-125 | With the first header at h and the first terminator after it at e, the parser returns a record iff some line strictly between them is a ten-token row that is not a header |
| `AttributeTable.NothingAfterTerminator` | Zeus_HDD_Doctor.v01.py:109-110 | Once a window is open, lines appended after a terminator never change the result |
| `AttributeTable.RowsAppend` | Zeus_HDD_Doctor.v01.py:104-125 | The rows of two consecutive stretches of lines are the rows of the first followed by those of the second, so records keep their input order |
| `AttributeTable.ConsoleIsPrefixOfGui` | Zeus_HDD_Doctor_CONSOLE.py:131-134 | The console parser's extra `Vendor Specific SMART Attributes` terminator can only cut the list short: its result is a prefix of the graphical parser's |
| `AttributeTable.ConsoleEqualsGuiWithoutVendorMarker` | Zeus_HDD_Doctor_CONSOLE.py:127-170 | When no line mentions the vendor-specific section, the two parsers return the same list |
| `DeviceInfo.FirstLabelIsFirst` | Zeus_HDD_Doctor.v01.py:153-190 | A line takes the branch of the first field, in chain order, whose label it contains; no earlier label occurs in it, and it is ignored iff it contains no label |
| `DeviceInfo.LastWriterWins` | Zeus_HDD_Doctor.v01.py:151-192 | When line i sets field f and no later line does, the map holds line i's value under f |
| `DeviceInfo.PresentIffWritten` | Zeus_HDD_Doctor.v01.py:151-192 | A field is in the map iff some line sets it; nothing is filled in by default |
| `DeviceInfo.AbsentWithoutLabel` | Zeus_HDD_Doctor.v01.py:153-190 | A field whose label appears on no line is absent from the map |
| `DeviceInfo.ColonPresent` | Zeus_HDD_Doctor.v01.py:155 | Every line that reaches a `split(":", 1)[1]` holds a colon, so the split never fails |
| `DeviceInfo.ColonFieldValue` | Zeus_HDD_Doctor.v01.py:154-161 | For the eight colon fields the value is the stripped text after the line's first colon |
| `DeviceInfo.FirstBracketContent` | Zeus_HDD_Doctor.v01.py:163 | The bracket search yields the text of the first `[...]` pair when nothing before it holds `[` |
| `DeviceInfo.BeforeBytesCut` | Zeus_HDD_Doctor.v01.py:164 | `split("bytes")[0]` is the text before the leftmost occurrence of `bytes`, or the whole text when it has none |
| `DeviceInfo.CapacityWithoutBrackets` | Zeus_HDD_Doctor.v01.py:164 | Without any `[`, the capacity is the text after the line's first colon, stripped, cut before its leftmost `bytes` and stripped again |
| `DeviceInfo.CapacityEntry` | Zeus_HDD_Doctor.v01.py:162-164 | A line that takes the User Capacity branch and whose first `[` opens a pair holding `c` stores `c`, whatever the byte count before it and the text after it say |
| `DeviceInfo.UserCapacityExample` | Zeus_HDD_Doctor.v01.py:162-164 | `User Capacity:    1,000,204,886,016 bytes [1.00 TB]` alone yields the map {User Capacity: `1.00 TB`} |
| `DeviceInfo.SmartSupportStored` | Zeus_HDD_Doctor.v01.py:151-192 | Whatever the report, a stored SMART-support value is `Enabled` or `Disabled`: the line's own wording never reaches the map |
| `DeviceInfo.HoursAtIff` | Zeus_HDD_Doctor.v01.py:172 | Wherever a digit run, a whitespace run and `hours` occur in a row, the hours pattern matches there and captures that digit run |
| `DeviceInfo.HoursDigitsFound` | Zeus_HDD_Doctor.v01.py:172 | The hours search succeeds iff the pattern matches somewhere, and it captures the digit run of the leftmost match |
| `DeviceInfo.PowerOnHoursValue` | Zeus_HDD_Doctor.v01.py:171-174 | A Power On Hours line is set iff the hours pattern matches at some position, and then to the digits of the leftmost match followed by ` hours` |
| `DeviceInfo.PowerCycleValue` | Zeus_HDD_Doctor.v01.py:175-178 | Power Cycle Count is set iff the line holds a digit, and then to the leftmost digit run |
| `DeviceInfo.WearValue` | Zeus_HDD_Doctor.v01.py:179-186 | The wear keys are set only from a line holding their label, and only to a non-empty digit run |
| `DeviceInfo.SmartEnabledByLastLine` | Zeus_HDD_Doctor_CONSOLE.py:194-195 | With line i the last one taking the SMART-support branch, SMART counts as enabled iff that line contains `Enabled` |
| `DeviceInfo.SmartDisabledWithoutLine` | Zeus_HDD_Doctor_CONSOLE.py:387-392 | A report without a SMART-support line never counts as enabled |
| `HealthScore.Score` | Zeus_HDD_Doctor.v01.py:198-236 | The scorer's running loop ends with the clamped score of the reference deduction sum and the warnings in firing order |
| `HealthScore.ScoreOf` | Zeus_HDD_Doctor.v01.py:236 | The score always lies in 0..100 |
| `HealthScore.DeductionIsTotalCost` | Zeus_HDD_Doctor.v01.py:205-236 | The total deducted is the sum of each attribute's own cost under the four rules, so the score is the clamp of 100 minus that sum |
| `HealthScore.ScorePermutation` | Zeus_HDD_Doctor.v01.py:205-251 | Reordering the attributes changes neither the score nor the verdict of either program |
| `HealthScore.ScoreMonotone` | Zeus_HDD_Doctor.v01.py:205-236 | Adding attributes never raises the score |
| `HealthScore.PerfectIffNoWarnings` | Zeus_HDD_Doctor.v01.py:203-236 | The score is 100 iff there are no warnings, and n warnings leave at most 100 - 5n |
| `HealthScore.WarningsAppend` | Zeus_HDD_Doctor.v01.py:205-233 | The warnings of two attribute lists in a row are the first list's warnings followed by the second's: attribute order first, then rule order |
| `HealthScore.TemperatureNeverCritical` | Zeus_HDD_Doctor.v01.py:214-221 | For ID 194 or a name containing `Temperature`, a reading above 50 always costs exactly 5, however high, and the critical temperature warning never occurs |
| `HealthScore.WearRuleCosts` | Zeus_HDD_Doctor.v01.py:223-233 | Only IDs 177 and 233 are charged for wear: 177 costs 5 above 50000; 233 costs 20 below 20, 10 from 20 to 49, nothing from 50 |
| `HealthScore.AttributeCostArithmetic` | Zeus_HDD_Doctor.v01.py:199-233 | One attribute costs the sum of four independent charges: 15 when the current value is below a positive threshold; 10 when the ID is 1, 5, 7 or 196-199 and the raw value is positive; 5 when ID 194 or a name containing `Temperature` reads above 50; and for wear, 5 for ID 177 above 50000, or 20 or 10 for ID 233 below 20 or from 20 to 49 |
| `HealthScore.AttributeCostBound` | Zeus_HDD_Doctor.v01.py:205-233 | A single attribute costs at most 50 points |
| `HealthScore.VerdictsMonotone` | Zeus_HDD_Doctor.v01.py:240-251 | A higher score never gets a worse band, in either program |
| `HealthScore.BandsDifferOnlyAtEdges` | Zeus_HDD_Doctor_CONSOLE.py:287-298 | The programs' bands differ exactly at scores 60, 70 and 85, where the console's band is one step worse |
| `HealthScore.GuiNotesShape` | Zeus_HDD_Doctor.v01.py:238-254 | The notes start with the band note and equal it iff there are no warnings |
| `HealthScore.BulletsAreLines` | Zeus_HDD_Doctor.v01.py:254 | The warnings section is the warnings, each prefixed `- `, joined by newlines |
| `HealthScore.ConsoleUnknownIffUnavailable` | Zeus_HDD_Doctor_CONSOLE.py:228-232 | The console score is `Bilinmiyor` iff SMART data is unavailable; the result then ignores the attributes and has status BİLİNMİYOR |
| `HealthScore.ConsoleAgreesWithGui` | Zeus_HDD_Doctor_CONSOLE.py:245-282 | With data available, the console computes the same number as the graphical scorer and bands it with its own bands |
| `HealthScore.ConsoleEmptyIsPerfect` | Zeus_HDD_Doctor_CONSOLE.py:225-289 | Available data with no attribute rows gives Known(100), MÜKEMMEL and the bare MÜKEMMEL note, not Unknown |
| `HealthScore.AnalyzeDisk` | Zeus_HDD_Doctor_CONSOLE.py:436-438 | When either `smartctl` output failed to arrive, the disk gets the unknown result: `Bilinmiyor`, status BİLİNMİYOR and the unknown note |
| `HealthScore.AnalyzeDiskBySupportLine` | Zeus_HDD_Doctor_CONSOLE.py:385-396 | With both outputs fetched and line i the last info line that the label chain sends to SMART support, `analyze_disks` gets a number iff that line contains `Enabled`; the number is the score of the console parse of the table |
| `HealthScore.AnalyzeDiskWithoutSupportLine` | Zeus_HDD_Doctor_CONSOLE.py:385-396 | With both outputs fetched but no info line sent to SMART support, the result is `Bilinmiyor` with status BİLİNMİYOR |
| `HealthScore.GuiScoresIffRowInWindow` | Zeus_HDD_Doctor.v01.py:632-662 | With both outputs fetched, the first header at h and the first terminator after it at e, the graphical program scores iff some line strictly between them is a ten-token row that is not a header; the report is the scorer's on those lines' records |
| `HealthScore.GuiUnscored` | Zeus_HDD_Doctor.v01.py:632-662 | A failed fetch is reported as such, and a fetched table without a header line as unparsed |
| `HealthScore.ReallocatedSectorsExample` | Zeus_HDD_Doctor.v01.py:210-242 | Three reallocated sectors, with no threshold set, alone give 90, MÜKEMMEL in both programs, and one quoted warning |
| `HealthScore.HotDriveExample` | Zeus_HDD_Doctor.v01.py:214-218 | Attribute 194 with raw value 65 alone gives 95 and the single mild temperature warning |
| `HealthScore.WornOutSsdExample` | Zeus_HDD_Doctor.v01.py:227-230 | A media wear-out of 15 alone gives 80, İYİ, and the critical wear warning only |
| `EraseProgress.JoinSplit` | Zeus_HDD_Doctor.v01.py:534 | Joining the pieces of `split('\n')` with newlines gives the text back |
| `EraseProgress.SplitJoin` | Zeus_HDD_Doctor.v01.py:534 | Splitting a newline-join of newline-free pieces gives the pieces back |
| `EraseProgress.StepBuffer` | Zeus_HDD_Doctor.v01.py:530-555 | After a read, the buffer is exactly the text after the last newline of old buffer plus chunk, and it holds no newline |
| `EraseProgress.LinesRebuildText` | Zeus_HDD_Doctor.v01.py:534-540 | The processed lines joined by newlines, followed by the kept partial line, rebuild the old buffer plus the chunk |
| `EraseProgress.NoNewlineOnlyBuffers` | Zeus_HDD_Doctor.v01.py:536-538 | A read that leaves no newline in the text only grows the buffer and leaves the label unchanged |
| `EraseProgress.PercentIsLeftmostMatch` | Zeus_HDD_Doctor.v01.py:548 | The percentage found in a line is the digit run of the leftmost `\d+%` match, and none is found iff there is no match |
| `EraseProgress.PercentIffDigitBeforeSign` | Zeus_HDD_Doctor.v01.py:548 | A line has a percentage iff some `%` has a digit right before it |
| `EraseProgress.ScanAllSpec` | Zeus_HDD_Doctor.v01.py:542-553 | Over a batch of lines, the remembered percentage is the last line's that has one; the label turns to "Başlıyor..." iff some line starts the zero pass while the label has no `\d+%` |
| `EraseProgress.LastPercentIsLast` | Zeus_HDD_Doctor.v01.py:549-550 | The percentage kept comes from a line that has one, and no later line has one; there is none iff no line has one |
| `EraseProgress.StepLabel` | Zeus_HDD_Doctor.v01.py:542-558 | After a read the label is `İşlem sürüyor: %d` for the last percentage d among the complete lines; failing that, "Başlıyor..." as above; otherwise unchanged |
| `EraseProgress.PercentAfterPrefix` | Zeus_HDD_Doctor.v01.py:548 | After a text without `%` that does not end in a digit, a digit run followed by `%` is the match found |
| `EraseProgress.LineCompletedAcrossReads` | Zeus_HDD_Doctor.v01.py:530-558 | A line begun in one read and finished in the next is scanned whole: its percentage is shown and the buffer empties |
| `EraseProgress.SplitPercentExample` | Zeus_HDD_Doctor.v01.py:530-558 | Reading `Pass 1/1 (zero)...12` only fills the buffer; reading `%\ndone\n` next shows `%12` and leaves the buffer empty |
| `EraseProgress.StartLabelHasPercent` | Zeus_HDD_Doctor.v01.py:514 | The start label contains `\d+%` |
| `EraseProgress.ProgressLabelHasNoPercent` | Zeus_HDD_Doctor.v01.py:558 | A progress label, with its sign before the number, contains no `\d+%` |
| `EraseProgress.StartIgnoresPassLine` | Zeus_HDD_Doctor.v01.py:551-553 | From the start state, a line announcing the zero pass changes nothing |
| `EraseProgress.PassLineAfterProgress` | Zeus_HDD_Doctor.v01.py:551-558 | After a percentage has been shown, a line announcing the zero pass brings back "Başlıyor..." |
| `TextUtil.SplitLinesJoinLines` | Zeus_HDD_Doctor.v01.py:104 | `splitlines()` recovers every list of break-free lines written one per `\n`-terminated line |
| `TextUtil.DigitsValueShowNat` | Zeus_HDD_Doctor.v01.py:116 | Reading back the decimal rendering of a natural number gives the number |
| `TextUtil.SignedValueShowInt` | Zeus_HDD_Doctor.v01.py:123 | `int(str(n)) == n` for every integer, so a raw value quoted in a warning reads back as itself |

## Left out

- Fetching the reports is not modelled. This covers `smartctl`, `lsblk`, the device-type retries and the timeouts. It is process I/O, so the fetched texts are parameters, with `None` for a failed fetch.
- The `pkexec` re-launch and the root check are not modelled: they are calls into the operating system.
- The presentation layer is not modelled. This covers:
  - the Qt widgets and the dialogs;
  - the stylesheets and the console colour codes;
  - the menus and `input()` loops;
  - the detailed tables, and the summary line that prints `Bilinmiyor` without a `%`.
  
  Status labels are a `Verdict` enumeration, without ANSI codes.
- Starting `shred` is not modelled. Neither are the `QProcess` signals, `QApplication.processEvents`, the debug `print` of each line, the message boxes or the "already running" guard. These are event-loop and process lifecycle.
- Byte decoding with `errors='ignore'` is not modelled: chunks are already-decoded text.
- Only ASCII characters count as whitespace and digits. Python's regexes and `str.isspace()` also accept non-ASCII whitespace and digits.
- Python's limit on the length of digit strings that `int()` accepts is not modelled. A table row with a digit group longer than that limit raises `ValueError`; the fallback at `Zeus_HDD_Doctor.v01.py:126-141` calls `int()` on the same groups again, fails again and drops the row. The model reads every digit group and keeps such a row.
- `disk_info` is not modelled as a parameter of the scorer: neither program reads it.
- DeviceInfo.WearValue: this states only that the wear keys are set from a line holding their label and to a digit run. The `WearMatch` function models exactly which digit run the `.*X\s+.*?\s+(\d+)` backtracking captures, but no lemma characterises it further. The scorer never reads these keys.
- HealthScore.ScoreOf: its own contract states only the 0..100 range. The meaning of the number is stated by `HealthScore.Score` and `HealthScore.DeductionIsTotalCost`.
