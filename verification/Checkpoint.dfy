/** The append-only checkpoint log: its records, its text, and the loader that survives a torn tail. */
module Checkpoint {
  import opened Common
  import opened Numerals
  import opened LogLines
  import Codec

  const RESUME_SCHEMA_VERSION := "m6_2_resume.v1"

  /** Latency and segment columns of a measurement row, `wall_p50_ms` to `seg_egress_ms`. */
  const LATENCY_COLUMNS: nat := 10

  datatype Header = Header(
    schemaVersion: string, runId: string, runStartedAt: string, sweepMode: string, nPerPoint: int,
    axis: seq<int>, baseSeed: int, modelIdentifier: string, modalRegion: string, gitSha: string,
    chatCorpusSha: string, embedCorpusSha: string)

  /** One finished block. Latencies are kept as the decimal text the log carries; UTC stamps are
      ordered naturals. */
  datatype Measurement = Measurement(
    cellId: string, cohort: string, maxTokens: int, nRpcs: int, latencies: seq<Option<string>>,
    failedReason: Option<string>, start: nat, end: nat, retryAttempted: bool, clockAnomaly: bool,
    promptSource: string, regime: string, corpusIdx: Option<int>)

  datatype Snapshot = Snapshot(p50: string, p95: string, p99: string, timestamp: nat, hourMark: string)

  datatype Record =
    | HeaderRecord(header: Header)
    | MeasurementRecord(measurement: Measurement)
    | AnchorRecord(cohort: string, snapshot: Snapshot)

  datatype LoadError = FileMissing | HeaderMissing | SchemaMismatch | Malformed

  datatype LoadState = LoadState(
    header: Option<Header>, measurements: seq<Measurement>, anchors: map<string, seq<Snapshot>>)

  const EMPTY := LoadState(None, [], map[])

  // ----- Record text -----

  function OptText(o: Option<string>): string {
    match o
    case None => "null"
    case Some(s) => "=" + s
  }

  function ParseOptText(s: string): Option<string> {
    if s != "" && s[0] == '=' then Some(s[1..]) else None
  }

  function OptIntText(o: Option<int>): string {
    match o
    case None => "null"
    case Some(n) => IntText(n)
  }

  function BoolText(b: bool): string {
    if b then "true" else "false"
  }

  function OptTexts(os: seq<Option<string>>): seq<string> {
    seq(|os|, i requires 0 <= i < |os| => OptText(os[i]))
  }

  function ParseOptTexts(ss: seq<string>): seq<Option<string>> {
    seq(|ss|, i requires 0 <= i < |ss| => ParseOptText(ss[i]))
  }

  function IntTexts(ns: seq<int>): seq<string> {
    seq(|ns|, i requires 0 <= i < |ns| => IntText(ns[i]))
  }

  function ParseInts(ss: seq<string>): Option<seq<int>> {
    if ss == [] then Some([])
    else
      match (ParseInt(ss[0]), ParseInts(ss[1..]))
      case (Some(n), Some(ns)) => Some([n] + ns)
      case (_, _) => None
  }

  function HeaderFields(h: Header): seq<string> {
    ["header", h.schemaVersion, h.runId, h.runStartedAt, h.sweepMode, IntText(h.nPerPoint), IntText(h.baseSeed),
     h.modelIdentifier, h.modalRegion, h.gitSha, h.chatCorpusSha, h.embedCorpusSha] + IntTexts(h.axis)
  }

  function MeasurementFields(m: Measurement): seq<string> {
    ["measurement", m.cellId, m.cohort, IntText(m.maxTokens), IntText(m.nRpcs), OptText(m.failedReason),
     NatText(m.start), NatText(m.end), BoolText(m.retryAttempted), BoolText(m.clockAnomaly),
     m.promptSource, m.regime, OptIntText(m.corpusIdx)] + OptTexts(m.latencies)
  }

  function AnchorFields(cohort: string, s: Snapshot): seq<string> {
    ["anchor", cohort, s.p50, s.p95, s.p99, NatText(s.timestamp), s.hourMark]
  }

  function FieldsOf(r: Record): seq<string> {
    match r
    case HeaderRecord(h) => HeaderFields(h)
    case MeasurementRecord(m) => MeasurementFields(m)
    case AnchorRecord(c, s) => AnchorFields(c, s)
  }

  function RecordText(r: Record): string {
    Codec.Encode(FieldsOf(r))
  }

  /** What `_write_line_fsynced` appends. */
  function LineText(r: Record): string {
    RecordText(r) + "\n"
  }

  function RecordTexts(rs: seq<Record>): (ts: seq<string>)
    ensures |ts| == |rs|
  {
    seq(|rs|, i requires 0 <= i < |rs| => RecordText(rs[i]))
  }

  /** The whole log: every record on a line of its own. */
  function LogText(rs: seq<Record>): string {
    JoinLines(RecordTexts(rs))
  }

  // ----- Parsing a record -----

  function ParseHeader(f: seq<string>): Result<Header, LoadError> {
    if |f| < 2 || f[1] != RESUME_SCHEMA_VERSION then Err(SchemaMismatch)
    else if |f| < 12 then Err(Malformed)
    else
      match (ParseInt(f[5]), ParseInt(f[6]), ParseInts(f[12..]))
      case (Some(n), Some(seed), Some(axis)) =>
        Ok(Header(f[1], f[2], f[3], f[4], n, axis, seed, f[7], f[8], f[9], f[10], f[11]))
      case (_, _, _) => Err(Malformed)
  }

  function ParseMeasurement(f: seq<string>): Result<Measurement, LoadError> {
    if |f| != 13 + LATENCY_COLUMNS then Err(Malformed)
    else
      match (ParseInt(f[3]), ParseInt(f[4]), ParseNat(f[6]), ParseNat(f[7]))
      case (Some(cap), Some(n), Some(start), Some(end)) =>
        if f[12] != "null" && ParseInt(f[12]) == None then Err(Malformed)
        else
          Ok(Measurement(f[1], f[2], cap, n, ParseOptTexts(f[13..]), ParseOptText(f[5]), start, end,
                         f[8] == "true", f[9] == "true", f[10], f[11], ParseInt(f[12])))
      case (_, _, _, _) => Err(Malformed)
  }

  function ParseAnchor(f: seq<string>): Result<Record, LoadError> {
    if |f| != 7 then Err(Malformed)
    else
      match ParseNat(f[5])
      case None => Err(Malformed)
      case Some(t) => Ok(AnchorRecord(f[1], Snapshot(f[2], f[3], f[4], t, f[6])))
  }

  function TrimLeft(s: string): string {
    if s != "" && IsSpace(s[0]) then TrimLeft(s[1..]) else s
  }

  function TrimRight(s: string): (r: string)
    ensures |r| <= |s| && r == s[..|r|]
    ensures s != "" && !IsSpace(s[|s| - 1]) ==> r == s
  {
    if s != "" && IsSpace(s[|s| - 1]) then TrimRight(s[..|s| - 1]) else s
  }

  function Strip(s: string): string {
    TrimRight(TrimLeft(s))
  }

  function AddRecord(st: LoadState, r: Record): LoadState {
    match r
    case HeaderRecord(h) => st.(header := Some(h))
    case MeasurementRecord(m) => st.(measurements := st.measurements + [m])
    case AnchorRecord(c, s) => st.(anchors := st.anchors[c := AnchorsFor(st.anchors, c) + [s]])
  }

  function AnchorsFor(anchors: map<string, seq<Snapshot>>, cohort: string): seq<Snapshot> {
    if cohort in anchors then anchors[cohort] else []
  }

  /** The record a parsed line stands for: none for an unknown kind, an error for a malformed
      record of a known kind. */
  function ParseRecord(f: seq<string>): Result<Option<Record>, LoadError> {
    if f == [] then Ok(None)
    else if f[0] == "header" then
      match ParseHeader(f)
      case Err(e) => Err(e)
      case Ok(h) => Ok(Some(HeaderRecord(h)))
    else if f[0] == "measurement" then
      match ParseMeasurement(f)
      case Err(e) => Err(e)
      case Ok(m) => Ok(Some(MeasurementRecord(m)))
    else if f[0] == "anchor" then
      match ParseAnchor(f)
      case Err(e) => Err(e)
      case Ok(a) => Ok(Some(a))
    else Ok(None)
  }

  /** One iteration of the loader: blank, unparsable and unknown lines are skipped. */
  function LoadLine(st: LoadState, raw: string): Result<LoadState, LoadError> {
    match Codec.Decode(Strip(raw))
    case None => Ok(st)
    case Some(f) =>
      match ParseRecord(f)
      case Err(e) => Err(e)
      case Ok(None) => Ok(st)
      case Ok(Some(r)) => Ok(AddRecord(st, r))
  }

  function FoldLines(lines: seq<string>): Result<LoadState, LoadError> {
    if lines == [] then Ok(EMPTY)
    else
      match FoldLines(lines[..|lines| - 1])
      case Err(e) => Err(e)
      case Ok(st) => LoadLine(st, lines[|lines| - 1])
  }

  function Finish(r: Result<LoadState, LoadError>): Result<LoadState, LoadError> {
    match r
    case Err(e) => Err(e)
    case Ok(st) => if st.header == None then Err(HeaderMissing) else Ok(st)
  }

  function Load(text: string): Result<LoadState, LoadError> {
    Finish(FoldLines(Lines(text)))
  }

  /** `load_checkpoint`: the loop over the lines of the file. */
  method LoadCheckpoint(file: Option<string>) returns (r: Result<LoadState, LoadError>)
    ensures file == None ==> r == Err(FileMissing)
    ensures file != None ==> r == Load(file.value)
  {
    if file == None {
      return Err(FileMissing);
    }
    var lines := Lines(file.value);
    var st := EMPTY;
    for i := 0 to |lines|
      invariant FoldLines(lines[..i]) == Ok(st)
    {
      assert lines[..i + 1][..i] == lines[..i];
      var next := LoadLine(st, lines[i]);
      if next.Err? {
        FoldErrorSticks(lines, i + 1);
        return next;
      }
      st := next.value;
    }
    assert lines[..|lines|] == lines;
    if st.header == None {
      return Err(HeaderMissing);
    }
    return Ok(st);
  }

  lemma {:induction false} FoldErrorSticks(lines: seq<string>, i: nat)
    requires i <= |lines| && FoldLines(lines[..i]).Err?
    ensures FoldLines(lines) == FoldLines(lines[..i])
  {
    if i == |lines| {
      assert lines[..i] == lines;
    } else {
      var front := lines[..|lines| - 1];
      assert front[..i] == lines[..i];
      FoldErrorSticks(front, i);
    }
  }

  // ----- Appending -----

  function MeasurementsOf(rs: seq<Record>): seq<Measurement> {
    if rs == [] then []
    else
      var last := rs[|rs| - 1];
      MeasurementsOf(rs[..|rs| - 1]) + (if last.MeasurementRecord? then [last.measurement] else [])
  }

  /** The state the loader builds from whole records. */
  function StateOf(rs: seq<Record>): (st: LoadState)
    ensures st.measurements == MeasurementsOf(rs)
  {
    if rs == [] then EMPTY else AddRecord(StateOf(rs[..|rs| - 1]), rs[|rs| - 1])
  }

  /** Records the writers produce. */
  predicate WellFormed(r: Record) {
    match r
    case HeaderRecord(h) => h.schemaVersion == RESUME_SCHEMA_VERSION
    case MeasurementRecord(m) => |m.latencies| == LATENCY_COLUMNS
    case AnchorRecord(_, _) => true
  }

  predicate AllWellFormed(rs: seq<Record>) {
    forall i :: 0 <= i < |rs| ==> WellFormed(rs[i])
  }

  lemma {:induction false} ParseIntsRoundTrip(ns: seq<int>)
    ensures ParseInts(IntTexts(ns)) == Some(ns)
  {
    hide IntText, ParseInt;
    if ns != [] {
      IntRoundTrip(ns[0]);
      assert IntTexts(ns)[1..] == IntTexts(ns[1..]);
      ParseIntsRoundTrip(ns[1..]);
      assert [ns[0]] + ns[1..] == ns;
    }
  }

  lemma OptIntTextParse(o: Option<int>)
    ensures ParseInt(OptIntText(o)) == o
    ensures OptIntText(o) == "null" || ParseInt(OptIntText(o)) != None
  {
    match o
    case None =>
      assert !IsDigit("null"[3]);
    case Some(n) =>
      IntRoundTrip(n);
  }

  lemma HeaderRoundTrip(h: Header)
    requires h.schemaVersion == RESUME_SCHEMA_VERSION
    ensures ParseHeader(HeaderFields(h)) == Ok(h)
  {
    IntRoundTrip(h.nPerPoint);
    IntRoundTrip(h.baseSeed);
    ParseIntsRoundTrip(h.axis);
    assert HeaderFields(h)[12..] == IntTexts(h.axis);
  }

  lemma MeasurementRoundTrip(m: Measurement)
    requires |m.latencies| == LATENCY_COLUMNS
    ensures ParseMeasurement(MeasurementFields(m)) == Ok(m)
  {
    IntRoundTrip(m.maxTokens);
    IntRoundTrip(m.nRpcs);
    NatRoundTrip(m.start);
    NatRoundTrip(m.end);
    OptIntTextParse(m.corpusIdx);
    hide ParseInt, ParseNat, IntText, NatText, OptIntText;
    assert MeasurementFields(m)[13..] == OptTexts(m.latencies);
    assert ParseOptTexts(OptTexts(m.latencies)) == m.latencies;
    assert "false"[0] != "true"[0];
  }

  lemma StripBraced(s: string)
    requires s != "" && s[0] == '{'
    ensures Strip(s) != "" && Strip(s) == s[..|Strip(s)|]
    ensures !IsSpace(s[|s| - 1]) ==> Strip(s) == s
  {
    StripBracedNonEmpty(s);
  }

  lemma {:induction false} StripBracedNonEmpty(s: string)
    requires s != "" && s[0] == '{'
    ensures TrimRight(s) != ""
  {
    if IsSpace(s[|s| - 1]) {
      StripBracedNonEmpty(s[..|s| - 1]);
    }
  }

  /** The fields of a record parse back to the record. */
  lemma RecordRoundTrip(r: Record)
    requires WellFormed(r)
    ensures ParseRecord(FieldsOf(r)) == Ok(Some(r))
  {
    hide ParseHeader, ParseMeasurement;
    assert "header"[0] != "measurement"[0] && "header"[0] != "anchor"[0] && "measurement"[0] != "anchor"[0];
    match r
    case HeaderRecord(h) => HeaderRoundTrip(h);
    case MeasurementRecord(m) => MeasurementRoundTrip(m);
    case AnchorRecord(c, s) => NatRoundTrip(s.timestamp);
  }

  lemma KindStartsWithLetter(r: Record)
    ensures Codec.StartsWithLetter(FieldsOf(r))
  {
  }

  /** A complete line adds exactly its record, whether or not its newline reached the disk. */
  lemma LoadWholeRecord(st: LoadState, r: Record)
    requires WellFormed(r)
    ensures LoadLine(st, RecordText(r)) == Ok(AddRecord(st, r))
  {
    hide FieldsOf, Strip, ParseRecord, AddRecord, WellFormed;
    Codec.EncodeShape(FieldsOf(r));
    StripBraced(RecordText(r));
    Codec.RoundTrip(FieldsOf(r));
    RecordRoundTrip(r);
  }

  /** A torn line adds nothing. */
  lemma LoadTornRecord(st: LoadState, r: Record, cut: nat)
    requires cut < |RecordText(r)|
    ensures LoadLine(st, RecordText(r)[..cut]) == Ok(st)
  {
    hide FieldsOf, ParseRecord;
    var torn := RecordText(r)[..cut];
    if cut > 0 {
      StripBraced(torn);
      var kept := |Strip(torn)|;
      assert Strip(torn) == RecordText(r)[..kept];
      Codec.ProperPrefixNeverParses(FieldsOf(r), kept);
    }
  }

  /** A line holding a torn tail and a whole record adds nothing: both are lost. */
  lemma LoadGluedRecord(st: LoadState, torn: Record, cut: nat, next: Record)
    requires 0 < cut <= |RecordText(torn)|
    ensures LoadLine(st, RecordText(torn)[..cut] + RecordText(next)) == Ok(st)
  {
    hide FieldsOf, Strip, ParseRecord;
    var line := RecordText(torn)[..cut] + RecordText(next);
    Codec.EncodeShape(FieldsOf(next));
    StripBraced(line);
    KindStartsWithLetter(next);
    Codec.PieceGlue(FieldsOf(next), |RecordText(next)|, "");
    assert RecordText(next)[..|RecordText(next)|] + "" == RecordText(next);
    Codec.GluedNeverParses(FieldsOf(torn), cut, RecordText(next));
  }

  lemma {:induction false} FoldWholeRecords(rs: seq<Record>)
    requires AllWellFormed(rs)
    ensures FoldLines(RecordTexts(rs)) == Ok(StateOf(rs))
  {
    if rs != [] {
      var front := rs[..|rs| - 1];
      FoldWholeRecords(front);
      assert RecordTexts(rs)[..|rs| - 1] == RecordTexts(front);
      LoadWholeRecord(StateOf(front), rs[|rs| - 1]);
    }
  }

  lemma RecordTextsHaveNoNewline(rs: seq<Record>)
    ensures NoNewlines(RecordTexts(rs))
  {
    forall i | 0 <= i < |rs| ensures '\n' !in RecordTexts(rs)[i] {
      Codec.EncodeShape(FieldsOf(rs[i]));
    }
  }

  lemma FoldOneMore(rs: seq<Record>, line: string)
    requires AllWellFormed(rs)
    ensures FoldLines(RecordTexts(rs) + [line]) == LoadLine(StateOf(rs), line)
  {
    FoldWholeRecords(rs);
    assert (RecordTexts(rs) + [line])[..|rs|] == RecordTexts(rs);
  }

  /** Folding a log that ends in an unterminated tail. */
  lemma FoldWithTail(rs: seq<Record>, tail: string)
    requires AllWellFormed(rs) && '\n' !in tail
    ensures FoldLines(Lines(LogText(rs) + tail)) ==
            if tail == "" then Ok(StateOf(rs)) else LoadLine(StateOf(rs), tail)
  {
    RecordTextsHaveNoNewline(rs);
    LinesOfJoined(RecordTexts(rs), tail);
    if tail == "" {
      FoldWholeRecords(rs);
      assert RecordTexts(rs) + [] == RecordTexts(rs);
    } else {
      FoldOneMore(rs, tail);
    }
  }

  /** Folding a log whose last line was written separately and terminated. */
  lemma FoldWithLine(rs: seq<Record>, line: string)
    requires AllWellFormed(rs) && '\n' !in line
    ensures FoldLines(Lines(LogText(rs) + line + "\n")) == LoadLine(StateOf(rs), line)
  {
    RecordTextsHaveNoNewline(rs);
    JoinLinesSnoc(RecordTexts(rs), line);
    LinesOfJoined(RecordTexts(rs) + [line], "");
    assert LogText(rs) + line + "\n" == JoinLines(RecordTexts(rs) + [line]) + "";
    assert RecordTexts(rs) + [line] + [] == RecordTexts(rs) + [line];
    FoldOneMore(rs, line);
  }

  lemma {:induction false} HeaderSurvives(rs: seq<Record>)
    requires rs != [] && rs[0].HeaderRecord?
    ensures StateOf(rs).header != None
  {
    if |rs| > 1 {
      HeaderSurvives(rs[..|rs| - 1]);
    }
  }

  lemma StateOfAppend(rs: seq<Record>, r: Record)
    ensures StateOf(rs + [r]) == AddRecord(StateOf(rs), r)
    ensures MeasurementsOf(rs + [r]) ==
            MeasurementsOf(rs) + (if r.MeasurementRecord? then [r.measurement] else [])
  {
    assert (rs + [r])[..|rs|] == rs;
  }

  lemma LoadWithoutLast(rs: seq<Record>, next: Record, cut: nat)
    requires rs != [] && rs[0].HeaderRecord? && AllWellFormed(rs)
    requires cut < |RecordText(next)|
    ensures Load(LogText(rs) + RecordText(next)[..cut]) == Ok(StateOf(rs))
  {
    Codec.EncodeShape(FieldsOf(next));
    HeaderSurvives(rs);
    FoldWithTail(rs, RecordText(next)[..cut]);
    LoadTornRecord(StateOf(rs), next, cut);
  }

  lemma LoadUnterminated(rs: seq<Record>, next: Record)
    requires rs != [] && rs[0].HeaderRecord? && AllWellFormed(rs) && WellFormed(next)
    ensures Load(LogText(rs) + RecordText(next)) == Ok(StateOf(rs + [next]))
  {
    Codec.EncodeShape(FieldsOf(next));
    FoldWithTail(rs, RecordText(next));
    LoadWholeRecord(StateOf(rs), next);
    StateOfAppend(rs, next);
    HeaderSurvives(rs + [next]);
  }

  lemma LoadTerminated(rs: seq<Record>, next: Record)
    requires rs != [] && rs[0].HeaderRecord? && AllWellFormed(rs) && WellFormed(next)
    ensures Load(LogText(rs) + LineText(next)) == Ok(StateOf(rs + [next]))
  {
    Codec.EncodeShape(FieldsOf(next));
    assert LogText(rs) + LineText(next) == LogText(rs) + RecordText(next) + "\n";
    FoldWithLine(rs, RecordText(next));
    LoadWholeRecord(StateOf(rs), next);
    StateOfAppend(rs, next);
    HeaderSurvives(rs + [next]);
  }

  /** Crash consistency. On a newline-terminated log with its header, stop the next append after any
      number of characters: the loader returns exactly the records whose text is complete, in order
      and field for field. */
  lemma CrashConsistency(rs: seq<Record>, next: Record, cut: nat)
    requires rs != [] && rs[0].HeaderRecord? && AllWellFormed(rs) && WellFormed(next)
    requires cut <= |LineText(next)|
    ensures Load(LogText(rs) + LineText(next)[..cut]) ==
            Ok(StateOf(if cut < |RecordText(next)| then rs else rs + [next]))
  {
    hide Load, StateOf, LogText, FieldsOf, WellFormed;
    if cut < |RecordText(next)| {
      assert LineText(next)[..cut] == RecordText(next)[..cut];
      LoadWithoutLast(rs, next, cut);
    } else if cut == |RecordText(next)| {
      assert LineText(next)[..cut] == RecordText(next);
      LoadUnterminated(rs, next);
    } else {
      assert LineText(next)[..cut] == LineText(next);
      LoadTerminated(rs, next);
    }
  }

  lemma LoadGlued(rs: seq<Record>, torn: Record, cut: nat, next: Record)
    requires rs != [] && rs[0].HeaderRecord? && AllWellFormed(rs)
    requires 0 < cut <= |RecordText(torn)|
    ensures Load(LogText(rs) + RecordText(torn)[..cut] + LineText(next)) == Ok(StateOf(rs))
  {
    hide FieldsOf, LoadLine, WellFormed, StateOf;
    var tail, text := RecordText(torn)[..cut], RecordText(next);
    Codec.EncodeShape(FieldsOf(torn));
    Codec.EncodeShape(FieldsOf(next));
    HeaderSurvives(rs);
    FoldWithLine(rs, tail + text);
    assert LogText(rs) + tail + LineText(next) == LogText(rs) + (tail + text) + "\n";
    LoadGluedRecord(StateOf(rs), torn, cut, next);
  }

  /** The writer does not repair a torn tail. A record appended after one survives the next load
      exactly when the tail is empty; otherwise it is dropped together with the torn record, even
      when all of that record's text had reached the disk. */
  lemma AppendAfterTornTail(rs: seq<Record>, torn: Record, cut: nat, next: Measurement)
    requires rs != [] && rs[0].HeaderRecord? && AllWellFormed(rs)
    requires WellFormed(MeasurementRecord(next)) && cut <= |RecordText(torn)|
    ensures var reloaded := Load(LogText(rs) + RecordText(torn)[..cut] + LineText(MeasurementRecord(next)));
      && (reloaded == Ok(StateOf(rs + [MeasurementRecord(next)])) <==> cut == 0)
      && (cut > 0 ==> reloaded == Ok(StateOf(rs)))
  {
    hide Load, StateOf, LogText, LineText, FieldsOf, WellFormed;
    StateOfAppend(rs, MeasurementRecord(next));
    if cut == 0 {
      assert LogText(rs) + RecordText(torn)[..cut] == LogText(rs);
      LoadTerminated(rs, MeasurementRecord(next));
    } else {
      LoadGlued(rs, torn, cut, MeasurementRecord(next));
    }
  }

  // ----- What the loader refuses and what it skips -----

  lemma {:induction false} HeaderOf(rs: seq<Record>)
    ensures StateOf(rs).header == None <==> forall i :: 0 <= i < |rs| ==> !rs[i].HeaderRecord?
    ensures rs != [] && rs[|rs| - 1].HeaderRecord? ==> StateOf(rs).header == Some(rs[|rs| - 1].header)
    ensures rs != [] && !rs[|rs| - 1].HeaderRecord? ==> StateOf(rs).header == StateOf(rs[..|rs| - 1]).header
  {
    if rs != [] {
      var front := rs[..|rs| - 1];
      HeaderOf(front);
      assert forall i :: 0 <= i < |front| ==> front[i] == rs[i];
    }
  }

  /** A log without a header does not load, and one with a header does. */
  lemma LoadsIffHeader(rs: seq<Record>)
    requires AllWellFormed(rs)
    ensures Load(LogText(rs)) == if exists i :: 0 <= i < |rs| && rs[i].HeaderRecord? then Ok(StateOf(rs)) else Err(HeaderMissing)
  {
    hide LogText, StateOf, FieldsOf, WellFormed, LoadLine;
    assert LogText(rs) + "" == LogText(rs);
    FoldWithTail(rs, "");
    HeaderOf(rs);
  }

  /** A line the loader refuses ends the load with its error, whatever follows it. */
  lemma RefusedLineEndsLoad(rs: seq<Record>, line: string, rest: string, e: LoadError)
    requires AllWellFormed(rs) && '\n' !in line && LoadLine(StateOf(rs), line) == Err(e)
    ensures Load(LogText(rs) + line + "\n" + rest) == Err(e)
  {
    hide LoadLine, StateOf, FieldsOf, WellFormed, RecordText, Lines;
    var texts := RecordTexts(rs) + [line];
    RecordTextsHaveNoNewline(rs);
    JoinLinesSnoc(RecordTexts(rs), line);
    LinesThenRest(texts, rest);
    FoldOneMore(rs, line);
    var all := texts + Lines(rest);
    assert all[..|texts|] == texts;
    FoldErrorSticks(all, |texts|);
  }

  /** A header of another schema is refused. */
  lemma OtherSchemaRefused(rs: seq<Record>, h: Header, rest: string)
    requires AllWellFormed(rs) && h.schemaVersion != RESUME_SCHEMA_VERSION
    ensures Load(LogText(rs) + LineText(HeaderRecord(h)) + rest) == Err(SchemaMismatch)
  {
    var line := RecordText(HeaderRecord(h));
    hide LoadLine, StateOf, FieldsOf, WellFormed, Load, LogText, RecordText;
    OtherSchemaLine(StateOf(rs), h);
    NoNewlineInRecord(HeaderRecord(h));
    RefusedLineEndsLoad(rs, line, rest, SchemaMismatch);
    assert LogText(rs) + LineText(HeaderRecord(h)) + rest == LogText(rs) + line + "\n" + rest;
  }

  lemma NoNewlineInRecord(r: Record)
    ensures '\n' !in RecordText(r)
  {
    Codec.EncodeShape(FieldsOf(r));
  }

  lemma LoadEncoded(st: LoadState, f: seq<string>)
    ensures LoadLine(st, Codec.Encode(f)) ==
      match ParseRecord(f)
      case Err(e) => Err(e)
      case Ok(None) => Ok(st)
      case Ok(Some(r)) => Ok(AddRecord(st, r))
  {
    hide ParseRecord, AddRecord, Strip;
    Codec.EncodeShape(f);
    StripBraced(Codec.Encode(f));
    Codec.RoundTrip(f);
  }

  lemma OtherSchemaLine(st: LoadState, h: Header)
    requires h.schemaVersion != RESUME_SCHEMA_VERSION
    ensures LoadLine(st, RecordText(HeaderRecord(h))) == Err(SchemaMismatch)
  {
    LoadEncoded(st, HeaderFields(h));
    hide LoadLine, ParseMeasurement, ParseAnchor;
  }

  /** A measurement or anchor line with a field too many or too few is refused. */
  lemma WrongFieldCountRefused(st: LoadState, f: seq<string>)
    requires f != []
    requires (f[0] == "measurement" && |f| != 13 + LATENCY_COLUMNS) || (f[0] == "anchor" && |f| != 7)
    ensures LoadLine(st, Codec.Encode(f)) == Err(Malformed)
  {
    LoadEncoded(st, f);
    hide LoadLine, ParseHeader;
    assert "header"[0] != "measurement"[0] && "header"[0] != "anchor"[0] && "measurement"[0] != "anchor"[0];
  }

  /** A line of another kind is skipped. */
  lemma OtherKindSkipped(st: LoadState, f: seq<string>)
    requires f != [] ==> f[0] != "header" && f[0] != "measurement" && f[0] != "anchor"
    ensures LoadLine(st, Codec.Encode(f)) == Ok(st)
  {
    LoadEncoded(st, f);
    hide LoadLine, ParseHeader, ParseMeasurement, ParseAnchor;
  }
}
