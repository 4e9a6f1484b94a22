/**
 The health scorer (`calculate_health_score`) of both programs: fixed
 deductions per attribute, a clamp to 0..100, a verdict band and notes made
 of the band note and the warnings. The console scorer adds an "unknown"
 result for devices whose SMART data is not available, and the two programs
 decide when to score differently.
 */
module HealthScore {
  import opened TextUtil
  import opened AttributeTable
  import opened DeviceInfo

  /** IDs whose raw value counts errors: 1, 5, 7, 196, 197, 198, 199. */
  const CriticalRawIds: set<int> := {1, 5, 7, 196, 197, 198, 199}

  /** What a rule found, with the values its warning quotes. */
  datatype Finding =
    | BelowThreshold(name: string, id: int, threshold: int, current: int)
    | ErrorCount(name: string, id: int, raw: int)
    | Hot(reading: int)
    | VeryHot(reading: int)
    | LevelingHigh(raw: int)
    | WearoutCritical(raw: int)
    | WearoutHigh(raw: int)

  /** The points a finding deducts. */
  function Cost(f: Finding): nat {
    match f
    case BelowThreshold(_, _, _, _) => 15
    case ErrorCount(_, _, _) => 10
    case Hot(_) => 5
    case VeryHot(_) => 15
    case LevelingHigh(_) => 5
    case WearoutCritical(_) => 20
    case WearoutHigh(_) => 10
  }

  /** The warning text of a finding. */
  function Message(f: Finding): string {
    match f
    case BelowThreshold(name, id, thr, cur) =>
      "'" + name + "' (ID:" + ShowInt(id) + ") kritik eşik (" + ShowInt(thr) + ") altında (" + ShowInt(cur) + ")!"
    case ErrorCount(name, id, raw) => "'" + name + "' (ID:" + ShowInt(id) + ") Raw Value'u 0'dan büyük (" + ShowInt(raw) + ")!"
    case Hot(t) => "Disk sıcaklığı yüksek (" + ShowInt(t) + "°C)."
    case VeryHot(t) => "DİKKAT: Disk sıcaklığı çok yüksek (" + ShowInt(t) + "°C)!"
    case LevelingHigh(raw) => "SSD yıpranma düzeyi yüksek: " + ShowInt(raw) + " (Wear_Leveling_Count)."
    case WearoutCritical(raw) => "SSD yıpranma düzeyi kritik: %" + ShowInt(raw) + " (Media_Wearout_Indicator)."
    case WearoutHigh(raw) => "SSD yıpranma düzeyi yüksek: %" + ShowInt(raw) + " (Media_Wearout_Indicator)."
  }

  function Optional(o: Option<Finding>): (r: seq<Finding>)
    ensures o.None? ==> r == []
    ensures o.Some? ==> r == [o.value]
  {
    match o
    case None => []
    case Some(f) => [f]
  }

  // ---------------------------------------------------------------------
  // The four rules, each applied to one attribute.
  // ---------------------------------------------------------------------

  /** Current below a positive threshold. */
  function ThresholdRule(a: Attribute): Option<Finding>
  {
    if a.threshold > 0 && a.current < a.threshold then Some(BelowThreshold(a.name, a.id, a.threshold, a.current))
    else None
  }

  /** A positive raw value on an error-counting attribute. */
  function RawCounterRule(a: Attribute): Option<Finding>
  {
    if a.id in CriticalRawIds && a.rawValue > 0 then Some(ErrorCount(a.name, a.id, a.rawValue)) else None
  }

  /** Attribute 194, or any attribute whose name mentions `Temperature`, is a temperature reading. */
  predicate IsTemperature(a: Attribute) {
    a.id == 194 || Contains(a.name, "Temperature")
  }

  /** The reading: the raw value of attribute 194, the current value otherwise. */
  function Reading(a: Attribute): int {
    if a.id == 194 then a.rawValue else a.current
  }

  /**
   The temperature rule as written: the test for above 50 comes first, so
   the branch for above 60 is never taken.
   */
  function TemperatureRule(a: Attribute): Option<Finding>
  {
    if IsTemperature(a) then
      var t := Reading(a);
      if t > 50 then Some(Hot(t))
      else if t > 60 then Some(VeryHot(t))
      else None
    else None
  }

  /** SSD wear: attribute 177 above 50000; attribute 233 below 20, or below 50. */
  function WearRule(a: Attribute): Option<Finding>
  {
    if a.id == 177 && a.rawValue > 0 then
      if a.rawValue > 50000 then Some(LevelingHigh(a.rawValue)) else None
    else if a.id == 233 && a.rawValue < 100 then
      if a.rawValue < 20 then Some(WearoutCritical(a.rawValue))
      else if a.rawValue < 50 then Some(WearoutHigh(a.rawValue))
      else None
    else None
  }

  /** The findings of one attribute, in rule order. */
  function AttributeFindings(a: Attribute): (r: seq<Finding>)
    ensures |r| <= 4
  {
    Optional(ThresholdRule(a)) + Optional(RawCounterRule(a)) + Optional(TemperatureRule(a)) + Optional(WearRule(a))
  }

  /** The findings of all attributes: attribute order, then rule order. */
  function Findings(attrs: seq<Attribute>): seq<Finding>
    decreases |attrs|
  {
    if attrs == [] then [] else AttributeFindings(attrs[0]) + Findings(attrs[1..])
  }

  function TotalCost(fs: seq<Finding>): nat
    decreases |fs|
  {
    if fs == [] then 0 else Cost(fs[0]) + TotalCost(fs[1..])
  }

  /** The warning texts, one per finding, in the same order. */
  function WarningsOf(fs: seq<Finding>): (r: seq<string>)
    ensures |r| == |fs|
  {
    seq(|fs|, i requires 0 <= i < |fs| => Message(fs[i]))
  }

  /** The cost of one attribute under all four rules. */
  function AttributeCost(a: Attribute): nat {
    TotalCost(AttributeFindings(a))
  }

  /** Reference sum: the attribute costs added up one attribute at a time. */
  function Deduction(attrs: seq<Attribute>): nat
    decreases |attrs|
  {
    if attrs == [] then 0 else AttributeCost(attrs[0]) + Deduction(attrs[1..])
  }

  /** `max(0, min(100, x))`. */
  function Clamp(x: int): (r: int)
    ensures 0 <= r <= 100
    ensures 0 <= x <= 100 ==> r == x
    ensures x < 0 ==> r == 0
    ensures x > 100 ==> r == 100
  {
    if x < 0 then 0 else if x > 100 then 100 else x
  }

  /** The score: 100 minus every deduction, clamped. */
  function ScoreOf(attrs: seq<Attribute>): (r: int)
    ensures 0 <= r <= 100
  {
    Clamp(100 - TotalCost(Findings(attrs)))
  }

  /** The warnings, one per deduction, in firing order. */
  function Warnings(attrs: seq<Attribute>): seq<string>
  {
    WarningsOf(Findings(attrs))
  }

  // ---------------------------------------------------------------------
  // Verdicts and notes.
  // ---------------------------------------------------------------------

  datatype Verdict = Excellent | Good | Fair | PoorCritical

  /** The graphical program's bands: 85, 70 and 60 inclusive. */
  function GuiVerdict(score: int): Verdict {
    if score >= 85 then Excellent else if score >= 70 then Good else if score >= 60 then Fair else PoorCritical
  }

  /** The console program's bands: strictly above 85, 70 and 60. */
  function ConsoleVerdict(score: int): Verdict {
    if score > 85 then Excellent else if score > 70 then Good else if score > 60 then Fair else PoorCritical
  }

  function StatusLabel(v: Verdict): string {
    match v
    case Excellent => "MÜKEMMEL"
    case Good => "İYİ"
    case Fair => "ORTA"
    case PoorCritical => "KÖTÜ / KRİTİK"
  }

  /** The band note; the two programs word the ORTA note differently by one letter. */
  function BandNote(v: Verdict, prog: Program): string {
    match v
    case Excellent => "Disk durumu MÜKEMMEL. Herhangi bir işlem gerekli değildir."
    case Good => "Disk durumu İYİ. Bazı önemsiz uyarılar mevcut olabilir. Düzenli kontrol önerilir."
    case Fair =>
      if prog == Gui then
        "Disk durumu ORTA. Bazı sorunlar tespit edildi. Verilerinizi yedeklemenizi ve diski gözlemlemeniz önerilir."
      else
        "Disk durumu ORTA. Bazı sorunlar tespit edildi. Verilerinizi yedeklemeniz ve diski gözlemlemeniz önerilir."
    case PoorCritical => "Disk durumu KÖTÜ veya KRİTİK. Acil yedekleme yapın ve diski değiştirin. Veri kaybı riski çok yüksek!"
  }

  /** The warnings, each prefixed `- `, joined by newlines. */
  function Bullets(ws: seq<string>): string
    decreases |ws|
  {
    if ws == [] then ""
    else if |ws| == 1 then "- " + ws[0]
    else "- " + ws[0] + "\n" + Bullets(ws[1..])
  }

  const WarningsHeading: string := "\n\nTespit Edilen Uyarılar:\n"

  /** What is appended to the band note: nothing without warnings. */
  function WarningSection(ws: seq<string>): string {
    if ws == [] then "" else WarningsHeading + Bullets(ws)
  }

  /** A numeric result: score, verdict and notes. */
  datatype Report = Report(score: int, verdict: Verdict, notes: string)

  /** `calculate_health_score(attributes, disk_info)` of the graphical program; `disk_info` is never read. */
  function GuiReport(attrs: seq<Attribute>): Report
  {
    var s := ScoreOf(attrs);
    var v := GuiVerdict(s);
    Report(s, v, BandNote(v, Gui) + WarningSection(Warnings(attrs)))
  }

  // ---------------------------------------------------------------------
  // The console scorer and its availability decision.
  // ---------------------------------------------------------------------

  /** The console score: the string `Bilinmiyor` or a number. */
  datatype ConsoleScore = Unknown | Known(value: int)

  /** The console status: a verdict band, or BİLİNMİYOR. */
  datatype ConsoleStatus = Rated(verdict: Verdict) | Undetermined

  datatype ConsoleReport = ConsoleReport(score: ConsoleScore, status: ConsoleStatus, notes: string)

  const UnknownNote: string := "Aygıtın SMART verilerine erişilemediği için sağlık durumu bilinmiyor."

  function ConsoleStatusLabel(s: ConsoleStatus): string {
    match s
    case Rated(v) => StatusLabel(v)
    case Undetermined => "BİLİNMİYOR"
  }

  /** `calculate_health_score(attributes, disk_info, smart_data_available)` of the console program. */
  function ConsoleHealth(attrs: seq<Attribute>, available: bool): ConsoleReport
  {
    if !available then ConsoleReport(Unknown, Undetermined, UnknownNote)
    else
      var s := ScoreOf(attrs);
      var v := ConsoleVerdict(s);
      ConsoleReport(Known(s), Rated(v), BandNote(v, Console) + WarningSection(Warnings(attrs)))
  }

  /** Python truthiness of a `smartctl` output: present and not empty. */
  predicate Fetched(out: Option<string>) {
    out.Some? && out.value != ""
  }

  /** What the console program feeds its scorer: the attribute list and the availability flag. */
  datatype ScorerInput = ScorerInput(attrs: seq<Attribute>, available: bool)

  /**
   The decision in `analyze_disks`: with both outputs fetched, data is
   available iff the info map says SMART support is `Enabled`, and only then
   are the attributes parsed; a failed fetch is scored as unavailable.
   */
  function ConsoleScorerInput(attrsOut: Option<string>, infoOut: Option<string>): (r: ScorerInput)
    ensures !r.available ==> r.attrs == []
  {
    if Fetched(attrsOut) && Fetched(infoOut) then
      var info := ParseSmartInfo(infoOut.value);
      if SmartEnabled(info) then ScorerInput(ParseSmartAttributes(attrsOut.value, Console), true)
      else ScorerInput([], false)
    else ScorerInput([], false)
  }

  /** The console program's result for one disk; a failed fetch is scored as unavailable. */
  function AnalyzeDisk(attrsOut: Option<string>, infoOut: Option<string>): (r: ConsoleReport)
    ensures !(Fetched(attrsOut) && Fetched(infoOut)) ==> r == ConsoleReport(Unknown, Undetermined, UnknownNote)
  {
    var input := ConsoleScorerInput(attrsOut, infoOut);
    ConsoleHealth(input.attrs, input.available)
  }

  /** What the graphical program shows: a report, "could not parse", or "fetch failed". */
  datatype GuiOutcome = Scored(report: Report) | Unparsed | FetchFailed

  /** `display_disk_data`: the scorer runs only on a non-empty attribute list. */
  function GuiAssess(attrsOut: Option<string>, infoOut: Option<string>): GuiOutcome
  {
    if Fetched(attrsOut) && Fetched(infoOut) then
      var attrs := ParseSmartAttributes(attrsOut.value, Gui);
      if attrs != [] then Scored(GuiReport(attrs)) else Unparsed
    else FetchFailed
  }

  // ---------------------------------------------------------------------
  // The loop of `calculate_health_score`.
  // ---------------------------------------------------------------------

  /**
   The scorer's loop: a running score and warning list, one attribute at a
   time, then the clamp.
   */
  method Score(attrs: seq<Attribute>) returns (score: int, warnings: seq<string>)
    ensures score == ScoreOf(attrs) && warnings == Warnings(attrs)
    ensures score == Clamp(100 - Deduction(attrs))
  {
    var running := 100;
    var fs: seq<Finding> := [];
    var i := 0;
    while i < |attrs|
      invariant 0 <= i <= |attrs|
      invariant fs == Findings(attrs[..i])
      invariant running == 100 - TotalCost(fs)
    {
      var step := AttributeFindings(attrs[i]);
      FindingsSnoc(attrs, i);
      TotalCostAppend(fs, step);
      running := running - TotalCost(step);
      fs := fs + step;
      i := i + 1;
    }
    assert attrs[..i] == attrs;
    score := Clamp(running);
    warnings := WarningsOf(fs);
    DeductionIsTotalCost(attrs);
  }

  // ---------------------------------------------------------------------
  // Sums and orders.
  // ---------------------------------------------------------------------

  lemma {:induction false} TotalCostAppend(a: seq<Finding>, b: seq<Finding>)
    ensures TotalCost(a + b) == TotalCost(a) + TotalCost(b)
    decreases |a|
  {
    if a != [] {
      assert (a + b)[0] == a[0];
      assert (a + b)[1..] == a[1..] + b;
      TotalCostAppend(a[1..], b);
    } else {
      assert a + b == b;
    }
  }

  lemma WarningsOfAppend(a: seq<Finding>, b: seq<Finding>)
    ensures WarningsOf(a + b) == WarningsOf(a) + WarningsOf(b)
  {
    var l := WarningsOf(a + b);
    var r := WarningsOf(a) + WarningsOf(b);
    forall i | 0 <= i < |l| ensures l[i] == r[i] {
      if i < |a| {
        assert (a + b)[i] == a[i];
      } else {
        assert (a + b)[i] == b[i - |a|];
      }
    }
  }

  /** The findings of a concatenation are the findings of each part, in order. */
  lemma {:induction false} FindingsAppend(a: seq<Attribute>, b: seq<Attribute>)
    ensures Findings(a + b) == Findings(a) + Findings(b)
    decreases |a|
  {
    if a != [] {
      assert (a + b)[0] == a[0];
      assert (a + b)[1..] == a[1..] + b;
      FindingsAppend(a[1..], b);
    } else {
      assert a + b == b;
    }
  }

  lemma FindingsSnoc(attrs: seq<Attribute>, i: nat)
    requires i < |attrs|
    ensures Findings(attrs[..i + 1]) == Findings(attrs[..i]) + AttributeFindings(attrs[i])
  {
    FindingsAppend(attrs[..i], [attrs[i]]);
    assert attrs[..i + 1] == attrs[..i] + [attrs[i]];
    assert Findings([attrs[i]]) == AttributeFindings(attrs[i]) + Findings([]);
  }

  /** The warnings of a concatenation are the warnings of each part, in order. */
  lemma WarningsAppend(a: seq<Attribute>, b: seq<Attribute>)
    ensures Warnings(a + b) == Warnings(a) + Warnings(b)
  {
    FindingsAppend(a, b);
    WarningsOfAppend(Findings(a), Findings(b));
  }

  /** The total deducted is the sum of the attributes' own costs. */
  lemma {:induction false} DeductionIsTotalCost(attrs: seq<Attribute>)
    ensures TotalCost(Findings(attrs)) == Deduction(attrs)
    ensures ScoreOf(attrs) == Clamp(100 - Deduction(attrs))
    decreases |attrs|
  {
    if attrs != [] {
      var head := AttributeFindings(attrs[0]);
      var tail := Findings(attrs[1..]);
      assert Findings(attrs) == head + tail;
      DeductionIsTotalCost(attrs[1..]);
      TotalCostAppend(head, tail);
    }
  }

  lemma {:induction false} DeductionRemove(attrs: seq<Attribute>, k: nat)
    requires k < |attrs|
    ensures Deduction(attrs) == AttributeCost(attrs[k]) + Deduction(attrs[..k] + attrs[k + 1..])
    decreases |attrs|
  {
    if k > 0 {
      var rest := attrs[1..];
      var r := attrs[..k] + attrs[k + 1..];
      assert r[0] == attrs[0];
      assert r[1..] == rest[..k - 1] + rest[k..];
      assert rest[k - 1] == attrs[k];
      DeductionRemove(rest, k - 1);
      assert Deduction(r) == AttributeCost(attrs[0]) + Deduction(r[1..]);
    } else {
      assert attrs[..k] + attrs[k + 1..] == attrs[1..];
    }
  }

  /** The deduction does not depend on the order of the attributes. */
  lemma {:induction false} DeductionPermutation(a: seq<Attribute>, b: seq<Attribute>)
    requires multiset(a) == multiset(b)
    ensures Deduction(a) == Deduction(b)
    decreases |a|
  {
    if a == [] {
      assert |b| == |multiset(b)| == 0;
    } else {
      assert a[0] in multiset(b);
      var k :| 0 <= k < |b| && b[k] == a[0];
      var rest := b[..k] + b[k + 1..];
      assert b == b[..k] + [b[k]] + b[k + 1..];
      assert a == [a[0]] + a[1..];
      calc {
        multiset(a[1..]);
        multiset(a) - multiset{a[0]};
        multiset(b) - multiset{b[k]};
        multiset(rest);
      }
      DeductionPermutation(a[1..], rest);
      DeductionRemove(b, k);
    }
  }

  /** Reordering the attributes changes neither score nor verdict. */
  lemma ScorePermutation(a: seq<Attribute>, b: seq<Attribute>)
    requires multiset(a) == multiset(b)
    ensures ScoreOf(a) == ScoreOf(b)
    ensures GuiReport(a).verdict == GuiReport(b).verdict
    ensures ConsoleVerdict(ScoreOf(a)) == ConsoleVerdict(ScoreOf(b))
  {
    DeductionPermutation(a, b);
    DeductionIsTotalCost(a);
    DeductionIsTotalCost(b);
  }

  /** More attributes never raise the score. */
  lemma ScoreMonotone(a: seq<Attribute>, b: seq<Attribute>)
    ensures ScoreOf(a + b) <= ScoreOf(a)
    ensures ScoreOf(a + b) <= ScoreOf(b)
  {
    FindingsAppend(a, b);
    TotalCostAppend(Findings(a), Findings(b));
  }

  // ---------------------------------------------------------------------
  // Deductions and warnings.
  // ---------------------------------------------------------------------

  predicate CostsAtLeastFive(fs: seq<Finding>) {
    forall i :: 0 <= i < |fs| ==> Cost(fs[i]) >= 5
  }

  /** Every deduction is at least 5 points. */
  lemma AttributeCostsAtLeastFive(a: Attribute)
    ensures CostsAtLeastFive(AttributeFindings(a))
  {
  }

  lemma {:induction false} FindingsCostAtLeastFive(attrs: seq<Attribute>)
    ensures CostsAtLeastFive(Findings(attrs))
    decreases |attrs|
  {
    if attrs != [] {
      AttributeCostsAtLeastFive(attrs[0]);
      FindingsCostAtLeastFive(attrs[1..]);
    }
  }

  lemma {:induction false} TotalCostAtLeast(fs: seq<Finding>)
    requires CostsAtLeastFive(fs)
    ensures TotalCost(fs) >= 5 * |fs|
    decreases |fs|
  {
    if fs != [] {
      TotalCostAtLeast(fs[1..]);
    }
  }

  /**
   Each warning costs at least 5 points, so the score is 100 exactly when
   there are no warnings, and `n` warnings leave at most `100 - 5n`.
   */
  lemma PerfectIffNoWarnings(attrs: seq<Attribute>)
    ensures ScoreOf(attrs) == 100 <==> Warnings(attrs) == []
    ensures ScoreOf(attrs) <= if 100 - 5 * |Warnings(attrs)| < 0 then 0 else 100 - 5 * |Warnings(attrs)|
  {
    FindingsCostAtLeastFive(attrs);
    TotalCostAtLeast(Findings(attrs));
  }

  /**
   A temperature reading above 50 always costs exactly 5 points, however
   high it is: the critical 15-point warning is never issued.
   */
  lemma TemperatureNeverCritical(a: Attribute)
    ensures TemperatureRule(a).Some? <==> IsTemperature(a) && Reading(a) > 50
    ensures TemperatureRule(a).Some? ==> Cost(TemperatureRule(a).value) == 5
    ensures TemperatureRule(a).Some? ==> Message(TemperatureRule(a).value) == "Disk sıcaklığı yüksek (" + ShowInt(Reading(a)) + "°C)."
    ensures forall t :: TemperatureRule(a) != Some(VeryHot(t))
  {
  }

  /**
   The wear rule: attribute 177 costs 5 above 50000, attribute 233 costs 20
   below 20 and 10 from 20 to 49; no other attribute is charged.
   */
  lemma WearRuleCosts(a: Attribute)
    ensures WearRule(a).Some? ==> a.id in {177, 233}
    ensures a.id == 177 ==> (WearRule(a).Some? <==> a.rawValue > 50000)
    ensures a.id == 177 && WearRule(a).Some? ==> Cost(WearRule(a).value) == 5
    ensures a.id == 233 ==> (WearRule(a).Some? <==> a.rawValue < 50)
    ensures a.id == 233 && a.rawValue < 20 ==> WearRule(a).Some? && Cost(WearRule(a).value) == 20
    ensures a.id == 233 && 20 <= a.rawValue < 50 ==> WearRule(a).Some? && Cost(WearRule(a).value) == 10
  {
  }

  /**
   The cost of one attribute as the scorer's four independent tests add it
   up: 15 below a positive threshold, 10 for a positive error count on IDs 1,
   5, 7 and 196-199, 5 for a temperature above 50, and the SSD wear charge.
   */
  lemma AttributeCostArithmetic(a: Attribute)
    ensures AttributeCost(a)
      == (if a.threshold > 0 && a.current < a.threshold then 15 else 0)
       + (if a.id in {1, 5, 7, 196, 197, 198, 199} && a.rawValue > 0 then 10 else 0)
       + (if (a.id == 194 || Contains(a.name, "Temperature")) && (if a.id == 194 then a.rawValue else a.current) > 50
          then 5 else 0)
       + (if a.id == 177 && a.rawValue > 0 then (if a.rawValue > 50000 then 5 else 0)
          else if a.id == 233 && a.rawValue < 100 then (if a.rawValue < 20 then 20 else if a.rawValue < 50 then 10 else 0)
          else 0)
  {
    var t := Optional(ThresholdRule(a));
    var r := Optional(RawCounterRule(a));
    var h := Optional(TemperatureRule(a));
    var w := Optional(WearRule(a));
    assert AttributeFindings(a) == t + r + h + w;
    TotalCostAppend(t + r + h, w);
    TotalCostAppend(t + r, h);
    TotalCostAppend(t, r);
    OptionalCost(ThresholdRule(a));
    OptionalCost(RawCounterRule(a));
    OptionalCost(TemperatureRule(a));
    OptionalCost(WearRule(a));
  }

  /** The cost of an optional finding: its own cost, or nothing. */
  lemma OptionalCost(o: Option<Finding>)
    ensures TotalCost(Optional(o)) == if o.Some? then Cost(o.value) else 0
  {
    if o.Some? {
      assert Optional(o)[1..] == [];
    }
  }

  /** An attribute costs at most 50 points: 15 + 10 + 5 + 20. */
  lemma AttributeCostBound(a: Attribute)
    ensures AttributeCost(a) <= 50
  {
    AttributeCostArithmetic(a);
  }

  // ---------------------------------------------------------------------
  // Bands.
  // ---------------------------------------------------------------------

  /** Band order, best first. */
  function Severity(v: Verdict): nat {
    match v
    case Excellent => 0
    case Good => 1
    case Fair => 2
    case PoorCritical => 3
  }

  /** A higher score never gets a worse verdict, in either program. */
  lemma VerdictsMonotone(s: int, t: int)
    requires s <= t
    ensures Severity(GuiVerdict(t)) <= Severity(GuiVerdict(s))
    ensures Severity(ConsoleVerdict(t)) <= Severity(ConsoleVerdict(s))
  {
  }

  /**
   The programs disagree only on the band edges 60, 70 and 85, where the
   graphical program gives the better band by one step.
   */
  lemma BandsDifferOnlyAtEdges(s: int)
    ensures GuiVerdict(s) != ConsoleVerdict(s) <==> s in {60, 70, 85}
    ensures s in {60, 70, 85} ==> Severity(ConsoleVerdict(s)) == Severity(GuiVerdict(s)) + 1
  {
  }

  /** The notes start with the band note, and carry a warnings section exactly when there are warnings. */
  lemma GuiNotesShape(attrs: seq<Attribute>)
    ensures var r := GuiReport(attrs);
      var note := BandNote(r.verdict, Gui);
      |note| <= |r.notes| && r.notes[..|note|] == note
      && (Warnings(attrs) == [] <==> r.notes == note)
  {
    var r := GuiReport(attrs);
    var note := BandNote(r.verdict, Gui);
    assert r.notes == note + WarningSection(Warnings(attrs));
    assert r.notes[..|note|] == note;
  }

  /** Each warning as a bullet line. */
  function Dashed(ws: seq<string>): (r: seq<string>)
    ensures |r| == |ws| && forall i :: 0 <= i < |ws| ==> r[i] == "- " + ws[i]
  {
    seq(|ws|, i requires 0 <= i < |ws| => "- " + ws[i])
  }

  /** The bullet list is the bullet lines joined with `\n`. */
  lemma {:induction false} BulletsAreLines(ws: seq<string>)
    requires ws != []
    ensures Bullets(ws) + "\n" == JoinLines(Dashed(ws))
    decreases |ws|
  {
    if |ws| > 1 {
      BulletsAreLines(ws[1..]);
      assert Dashed(ws[1..]) == Dashed(ws)[1..];
    } else {
      assert Dashed(ws)[1..] == [];
    }
  }

  // ---------------------------------------------------------------------
  // The console scorer and the two call sites.
  // ---------------------------------------------------------------------

  /** The console score is `Bilinmiyor` exactly when data is not available, whatever the attributes. */
  lemma ConsoleUnknownIffUnavailable(attrs: seq<Attribute>, available: bool)
    ensures ConsoleHealth(attrs, available).score == Unknown <==> !available
    ensures !available ==> ConsoleHealth(attrs, available) == ConsoleHealth([], false)
    ensures !available ==> ConsoleStatusLabel(ConsoleHealth(attrs, available).status) == "BİLİNMİYOR"
  {
  }

  /** With data available, both programs compute the same number; only the banding differs. */
  lemma ConsoleAgreesWithGui(attrs: seq<Attribute>)
    ensures ConsoleHealth(attrs, true).score == Known(GuiReport(attrs).score)
    ensures ConsoleHealth(attrs, true).status == Rated(ConsoleVerdict(GuiReport(attrs).score))
  {
  }

  /** Available data with no attribute rows rates as a perfect disk. */
  lemma ConsoleEmptyIsPerfect()
    ensures ConsoleHealth([], true)
      == ConsoleReport(Known(100), Rated(Excellent), "Disk durumu MÜKEMMEL. Herhangi bir işlem gerekli değildir.")
  {
    assert Findings([]) == [];
  }

  /**
   With both outputs fetched and line `i` the last line of the info text
   that the label chain sends to SMART support, `analyze_disks` gets a number
   iff that line contains `Enabled`; the number is the score of the console
   parse of the attribute table.
   */
  lemma AnalyzeDiskBySupportLine(attrsOut: Option<string>, infoOut: Option<string>, i: nat)
    requires Fetched(attrsOut) && Fetched(infoOut)
    requires var lines := SplitLines(infoOut.value);
      i < |lines| && FirstLabel(lines[i]) == Some(SmartSupport)
      && forall j :: i < j < |lines| ==> FirstLabel(lines[j]) != Some(SmartSupport)
    ensures AnalyzeDisk(attrsOut, infoOut).score.Known? <==> Contains(SplitLines(infoOut.value)[i], "Enabled")
    ensures AnalyzeDisk(attrsOut, infoOut).score.Known?
      ==> AnalyzeDisk(attrsOut, infoOut).score.value == ScoreOf(ParseSmartAttributes(attrsOut.value, Console))
  {
    SmartEnabledByLastLine(SplitLines(infoOut.value), i);
  }

  /** An info text without a line that the label chain sends to SMART support gives the unknown result. */
  lemma AnalyzeDiskWithoutSupportLine(attrsOut: Option<string>, infoOut: Option<string>)
    requires Fetched(attrsOut) && Fetched(infoOut)
    requires forall j :: 0 <= j < |SplitLines(infoOut.value)| ==> FirstLabel(SplitLines(infoOut.value)[j]) != Some(SmartSupport)
    ensures AnalyzeDisk(attrsOut, infoOut) == ConsoleReport(Unknown, Undetermined, UnknownNote)
  {
    SmartDisabledWithoutLine(SplitLines(infoOut.value));
  }

  /**
   With both outputs fetched and the table's first header at `h` and first
   terminator at `e`, the graphical program scores iff some line strictly
   between them is a row-shaped line that is not a header; the report is the
   scorer's on the records of those lines.
   */
  lemma GuiScoresIffRowInWindow(attrsOut: Option<string>, infoOut: Option<string>, h: nat, e: nat)
    requires Fetched(attrsOut) && Fetched(infoOut)
    requires TableWindow(SplitLines(attrsOut.value), h, e, Gui)
    ensures var lines := SplitLines(attrsOut.value);
      GuiAssess(attrsOut, infoOut).Scored? <==> exists i :: h < i < e && !IsHeader(lines[i]) && IsTokenRow(lines[i])
    ensures GuiAssess(attrsOut, infoOut).Scored?
      ==> GuiAssess(attrsOut, infoOut).report == GuiReport(Rows(SplitLines(attrsOut.value)[h + 1..e]))
  {
    TableHasRowIff(attrsOut.value, h, e, Gui);
  }

  /** A failed fetch is reported as such; a fetched table without a header line as unparsed. */
  lemma GuiUnscored(attrsOut: Option<string>, infoOut: Option<string>)
    ensures !(Fetched(attrsOut) && Fetched(infoOut)) ==> GuiAssess(attrsOut, infoOut) == FetchFailed
    ensures Fetched(attrsOut) && Fetched(infoOut)
      && (forall i :: 0 <= i < |SplitLines(attrsOut.value)| ==> !IsHeader(SplitLines(attrsOut.value)[i]))
      ==> GuiAssess(attrsOut, infoOut) == Unparsed
  {
    if Fetched(attrsOut) && Fetched(infoOut)
       && forall i :: 0 <= i < |SplitLines(attrsOut.value)| ==> !IsHeader(SplitLines(attrsOut.value)[i]) {
      NoHeaderNoRows(SplitLines(attrsOut.value), Gui);
    }
  }

  // ---------------------------------------------------------------------
  // Worked cases.
  // ---------------------------------------------------------------------

  /** An attribute with exactly one finding is scored by that finding alone. */
  lemma SingleFinding(a: Attribute, f: Finding)
    requires AttributeFindings(a) == [f]
    ensures Findings([a]) == [f] && ScoreOf([a]) == 100 - Cost(f) && Warnings([a]) == [Message(f)]
  {
    assert Findings([a]) == AttributeFindings(a) + Findings([a][1..]);
    assert [a][1..] == [];
    assert TotalCost([f]) == Cost(f) + TotalCost([f][1..]);
    assert [f][1..] == [];
    assert WarningsOf([f])[0] == Message(f);
  }

  /** Three reallocated sectors: one 10-point deduction, 90, excellent in both programs. */
  lemma ReallocatedSectorsExample(name: string, kind: string, updated: string)
    requires !Contains(name, "Temperature")
    ensures var attrs := [Attribute(5, name, 100, 100, 0, kind, updated, 3)];
      ScoreOf(attrs) == 90 && GuiVerdict(90) == Excellent && ConsoleVerdict(90) == Excellent
      && Warnings(attrs) == ["'" + name + "' (ID:" + "5" + ") Raw Value'u 0'dan büyük (" + "3" + ")!"]
  {
    var a := Attribute(5, name, 100, 100, 0, kind, updated, 3);
    assert AttributeFindings(a) == [ErrorCount(name, 5, 3)];
    SingleFinding(a, ErrorCount(name, 5, 3));
    assert ShowInt(5) == "5" && ShowInt(3) == "3";
  }

  /** A drive at 65 °C (raw value of attribute 194) loses only the 5 points of the milder warning. */
  lemma HotDriveExample(name: string, kind: string, updated: string)
    ensures var attrs := [Attribute(194, name, 40, 40, 0, kind, updated, 65)];
      ScoreOf(attrs) == 95 && Warnings(attrs) == ["Disk sıcaklığı yüksek (" + "65" + "°C)."]
  {
    var a := Attribute(194, name, 40, 40, 0, kind, updated, 65);
    assert AttributeFindings(a) == [Hot(65)];
    SingleFinding(a, Hot(65));
    assert ShowInt(65) == "65";
  }

  /** A media wear-out of 15 % costs 20 points and nothing else. */
  lemma WornOutSsdExample(name: string, kind: string, updated: string)
    requires !Contains(name, "Temperature")
    ensures var attrs := [Attribute(233, name, 15, 15, 0, kind, updated, 15)];
      ScoreOf(attrs) == 80 && GuiVerdict(80) == Good
      && Warnings(attrs) == ["SSD yıpranma düzeyi kritik: %" + "15" + " (Media_Wearout_Indicator)."]
  {
    var a := Attribute(233, name, 15, 15, 0, kind, updated, 15);
    assert AttributeFindings(a) == [WearoutCritical(15)];
    SingleFinding(a, WearoutCritical(15));
    assert ShowInt(15) == "15";
  }
}
