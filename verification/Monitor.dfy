/** The monitor's snapshot of a sweep, folded from its progress events. */
module Monitor {
  import opened Common
  import opened Numerals
  import opened Progress
  import opened Sweep

  datatype Subprobe = Pending | Running | Done

  datatype SweepState = SweepState(
    start: Option<string>, end: Option<string>, mode: Option<string>,
    expectedBlocks: Option<int>, expectedTuples: Option<int>,
    blocksDone: int, tupleIdx: Option<int>,
    currentCell: Option<string>, currentMaxTokens: Option<string>,
    lastTs: Option<string>, subprobe: Subprobe)

  const INITIAL := SweepState(None, None, None, None, None, 0, None, None, None, None, Pending)

  function Get(fields: map<string, string>, k: string): Option<string> {
    if k in fields then Some(fields[k]) else None
  }

  function GetOr(fields: map<string, string>, k: string, default: string): string {
    if k in fields then fields[k] else default
  }

  /** The number before the first slash of an `i/total` field. */
  function Numerator(i: string): Option<int> {
    var front := TakeWhile(NotSlash, i);
    if |front| == |i| then None else ParseInt(front)
  }

  function NonZero(n: int): Option<int> {
    if n == 0 then None else Some(n)
  }

  function UtcOf(e: Event): string {
    var utc := GetOr(e.fields, "utc", "");
    if utc != "" then utc else e.ts
  }

  function OnStart(s: SweepState, e: Event): SweepState {
    var t := s.(start := Some(UtcOf(e)), mode := Get(e.fields, "mode"));
    match ParseInt(GetOr(e.fields, "expected_blocks", "0"))
    case None => t
    case Some(blocks) =>
      match ParseInt(GetOr(e.fields, "expected_tuples", "0"))
      case None => t.(expectedBlocks := NonZero(blocks))
      case Some(tuples) => t.(expectedBlocks := NonZero(blocks), expectedTuples := NonZero(tuples))
  }

  function OnTuple(s: SweepState, e: Event): SweepState {
    var idx := Numerator(GetOr(e.fields, "i", ""));
    s.(tupleIdx := if idx.Some? then idx else s.tupleIdx,
       currentCell := Get(e.fields, "cell"), currentMaxTokens := Get(e.fields, "max_tokens"))
  }

  const BLOCK_DONE: string := "BLOCK_DONE"

  /** The count a `BLOCK_DONE` event reports; other events report none. */
  function Reported(e: Event): int {
    if e.tag != BLOCK_DONE then 0
    else
      match Numerator(GetOr(e.fields, "i", ""))
      case None => 0
      case Some(n) => n
  }

  function Apply(s: SweepState, e: Event): SweepState {
    var t := s.(lastTs := Some(e.ts));
    if e.tag == "SWEEP_START" then OnStart(t, e)
    else if e.tag == "TUPLE_START" then OnTuple(t, e)
    else if e.tag == BLOCK_DONE then t.(blocksDone := if Reported(e) > s.blocksDone then Reported(e) else s.blocksDone)
    else if e.tag == "SUBPROBE_START" then t.(subprobe := Running)
    else if e.tag == "SUBPROBE_END" then t.(subprobe := Done)
    else if e.tag == "SWEEP_END" then t.(end := Some(UtcOf(e)))
    else t
  }

  function StateAfter(events: seq<Event>): SweepState {
    if events == [] then INITIAL else Apply(StateAfter(events[..|events| - 1]), events[|events| - 1])
  }

  /** `derive_sweep_state`. Its block count is the largest one reported, whatever the order, and its last
      timestamp that of the last event. */
  method DeriveSweepState(events: seq<Event>) returns (state: SweepState)
    ensures state == StateAfter(events)
    ensures forall i :: 0 <= i < |events| ==> Reported(events[i]) <= state.blocksDone
    ensures state.blocksDone == 0 || exists i :: 0 <= i < |events| && Reported(events[i]) == state.blocksDone
    ensures state.lastTs == if events == [] then None else Some(events[|events| - 1].ts)
  {
    BlocksDoneIsMax(events);
    LastStamp(events);
    hide Apply;
    state := INITIAL;
    for i := 0 to |events|
      invariant state == StateAfter(events[..i])
    {
      assert events[..i + 1][..i] == events[..i];
      state := Apply(state, events[i]);
    }
    assert events[..|events|] == events;
  }

  lemma LastStamp(events: seq<Event>)
    ensures StateAfter(events).lastTs == if events == [] then None else Some(events[|events| - 1].ts)
  {
    if events != [] {
      ApplyStamps(StateAfter(events[..|events| - 1]), events[|events| - 1]);
    }
  }

  lemma ApplyStamps(s: SweepState, e: Event)
    ensures Apply(s, e).lastTs == Some(e.ts)
  {
    hide UtcOf, Numerator, ParseInt, GetOr;
  }

  /** The latest `TUPLE_START` decides the current cell and cap. */
  lemma {:induction false} LatestTupleCounts(before: seq<Event>, e: Event, after: seq<Event>)
    requires e.tag == "TUPLE_START" && forall i :: 0 <= i < |after| ==> after[i].tag != "TUPLE_START"
    ensures var state := StateAfter(before + [e] + after);
      && state.currentCell == Get(e.fields, "cell") && state.currentMaxTokens == Get(e.fields, "max_tokens")
      && (Numerator(GetOr(e.fields, "i", "")).Some? ==> state.tupleIdx == Numerator(GetOr(e.fields, "i", "")))
  {
    hide Apply;
    var events := before + [e] + after;
    if after == [] {
      assert events == before + [e] && events[..|events| - 1] == before;
      TupleSets(StateAfter(before), e);
    } else {
      var last := after[|after| - 1];
      assert events[..|events| - 1] == before + [e] + after[..|after| - 1];
      LatestTupleCounts(before, e, after[..|after| - 1]);
      OthersLeaveTuple(StateAfter(events[..|events| - 1]), last);
    }
  }

  lemma TupleSets(s: SweepState, e: Event)
    requires e.tag == "TUPLE_START"
    ensures Apply(s, e).currentCell == Get(e.fields, "cell") && Apply(s, e).currentMaxTokens == Get(e.fields, "max_tokens")
    ensures Numerator(GetOr(e.fields, "i", "")).Some? ==> Apply(s, e).tupleIdx == Numerator(GetOr(e.fields, "i", ""))
  {
    hide UtcOf, Numerator, ParseInt, GetOr;
    assert "TUPLE_START"[0] != "SWEEP_START"[0];
  }

  lemma OthersLeaveTuple(s: SweepState, e: Event)
    requires e.tag != "TUPLE_START"
    ensures Apply(s, e).currentCell == s.currentCell && Apply(s, e).currentMaxTokens == s.currentMaxTokens
    ensures Apply(s, e).tupleIdx == s.tupleIdx
  {
    hide UtcOf, Numerator, ParseInt, GetOr;
  }

  // ----- blocks_done -----

  lemma TagsDiffer()
    ensures BLOCK_DONE != "SWEEP_START" && BLOCK_DONE != "TUPLE_START" && BLOCK_DONE != "SUBPROBE_START"
    ensures BLOCK_DONE != "SUBPROBE_END" && BLOCK_DONE != "SWEEP_END"
  {
    assert BLOCK_DONE[0] == 'B';
  }

  lemma ApplyKeepsMax(s: SweepState, e: Event)
    requires s.blocksDone >= 0
    ensures Apply(s, e).blocksDone == if Reported(e) > s.blocksDone then Reported(e) else s.blocksDone
  {
    TagsDiffer();
    hide UtcOf, Numerator, ParseInt, GetOr;
  }

  /** The snapshot's count is the largest one reported, and zero if none is positive. */
  lemma {:induction false} BlocksDoneIsMax(events: seq<Event>)
    ensures var n := StateAfter(events).blocksDone;
      && n >= 0
      && (forall i :: 0 <= i < |events| ==> Reported(events[i]) <= n)
      && (n > 0 ==> exists i :: 0 <= i < |events| && Reported(events[i]) == n)
  {
    hide Apply, Reported;
    if events != [] {
      var k := |events| - 1;
      var front := events[..k];
      BlocksDoneIsMax(front);
      ApplyKeepsMax(StateAfter(front), events[k]);
      forall i | 0 <= i < |events| ensures Reported(events[i]) <= StateAfter(events).blocksDone {
        if i < k {
          assert Reported(front[i]) <= StateAfter(front).blocksDone;
        }
      }
      var n := StateAfter(events).blocksDone;
      if n > 0 && Reported(events[k]) != n {
        var i :| 0 <= i < k && Reported(front[i]) == n;
        assert Reported(events[i]) == n;
      }
    }
  }

  /** Duplicated or reordered lines leave the count as it is: it depends on which events occur only. */
  lemma BlocksDoneOrderFree(events: seq<Event>, others: seq<Event>)
    requires forall e :: e in events <==> e in others
    ensures StateAfter(events).blocksDone == StateAfter(others).blocksDone
  {
    AtMost(events, others);
    AtMost(others, events);
  }

  lemma AtMost(events: seq<Event>, others: seq<Event>)
    requires forall e :: e in events ==> e in others
    ensures StateAfter(events).blocksDone <= StateAfter(others).blocksDone
  {
    BlocksDoneIsMax(events);
    BlocksDoneIsMax(others);
    var n := StateAfter(events).blocksDone;
    if n > 0 {
      var i :| 0 <= i < |events| && Reported(events[i]) == n;
      assert events[i] in others;
      var j :| 0 <= j < |others| && others[j] == events[i];
      assert Reported(others[j]) == n;
    }
  }

  // ----- The log of a sweep -----

  lemma NumeratorOfMark(n: nat, total: nat)
    ensures Numerator(NatText(n) + "/" + NatText(total)) == Some(n)
  {
    var i := NatText(n) + "/" + NatText(total);
    assert i == NatText(n) + ("/" + NatText(total));
    forall k | 0 <= k < |NatText(n)| ensures NotSlash(NatText(n)[k]) {
      assert IsDigit(NatText(n)[k]);
    }
    TakeExactly(NotSlash, NatText(n), "/" + NatText(total));
    hide NatText, ParseNat;
    NatRoundTrip(n);
    FirstIsDigit(n);
  }

  lemma FirstIsDigit(n: nat)
    ensures NatText(n) != "" && NatText(n)[0] != '-'
    ensures ParseInt(NatText(n)) == ParseNat(NatText(n))
  {
    assert IsDigit(NatText(n)[0]);
  }

  /** The events hold the `BLOCK_DONE` marks of a sweep that went from `first` to `last` measurements:
      every mark is reported by some event, and a `BLOCK_DONE` event carries one of the marks. */
  ghost predicate Logs(events: seq<Event>, first: nat, last: nat, expected: nat)
    requires first <= last
  {
    AllReported(events, DoneMarks(first, last, expected)) && OnlyMarks(events, DoneMarks(first, last, expected))
  }

  ghost predicate AllReported(events: seq<Event>, marks: seq<string>) {
    forall m :: 0 <= m < |marks| ==> ReportedMark(events, marks[m])
  }

  ghost predicate ReportedMark(events: seq<Event>, mark: string) {
    exists i :: 0 <= i < |events| && Carries(events[i], mark)
  }

  ghost predicate OnlyMarks(events: seq<Event>, marks: seq<string>) {
    forall i :: 0 <= i < |events| && events[i].tag == BLOCK_DONE ==>
      exists m :: 0 <= m < |marks| && Carries(events[i], marks[m])
  }

  predicate Carries(e: Event, mark: string) {
    e.tag == BLOCK_DONE && Get(e.fields, "i") == Some(mark)
  }

  lemma CarriesReports(e: Event, n: nat, total: nat)
    requires Carries(e, NatText(n) + "/" + NatText(total))
    ensures Reported(e) == n
  {
    NumeratorOfMark(n, total);
  }

  /** For any log of a sweep, in any order and with any repetitions, `blocks_done` is the final number
      of measurements if at least one block was new, and zero otherwise. */
  lemma BlocksDoneOfSweep(events: seq<Event>, first: nat, last: nat, expected: nat)
    requires first <= last && Logs(events, first, last, expected)
    ensures StateAfter(events).blocksDone == if first < last then last else 0
  {
    hide StateAfter, Reported, Carries;
    BlocksDoneIsMax(events);
    var marks := DoneMarks(first, last, expected);
    forall i | 0 <= i < |events| ensures Reported(events[i]) <= (if first < last then last else 0) {
      ReportedInRange(events, first, last, expected, i);
    }
    if first < last {
      var m := last - first - 1;
      assert 0 <= m < |marks| && marks[m] == NatText(last) + "/" + NatText(expected);
      assert ReportedMark(events, marks[m]);
      var i :| 0 <= i < |events| && Carries(events[i], marks[m]);
      CarriesReports(events[i], last, expected);
    }
  }

  lemma OthersReportNothing(e: Event)
    requires e.tag != BLOCK_DONE
    ensures Reported(e) == 0
  {
  }

  lemma ReportedInRange(events: seq<Event>, first: nat, last: nat, expected: nat, i: nat)
    requires first <= last && Logs(events, first, last, expected) && i < |events|
    ensures Reported(events[i]) <= if first < last then last else 0
  {
    hide Reported, Carries, BLOCK_DONE;
    if events[i].tag == BLOCK_DONE {
      var m :| 0 <= m < |DoneMarks(first, last, expected)| && Carries(events[i], DoneMarks(first, last, expected)[m]);
      CarriesReports(events[i], first + m + 1, expected);
    } else {
      OthersReportNothing(events[i]);
    }
  }

  // ----- From the printed lines -----

  lemma {:induction false} ParsedEvents(lines: seq<string>, e: Event)
    ensures e in ParseAll(lines) <==> exists i :: 0 <= i < |lines| && ParseLine(lines[i]) == Some(e)
  {
    hide ParseLine;
    if lines != [] {
      var k := |lines| - 1;
      var front := lines[..k];
      ParsedEvents(front, e);
      forall i | 0 <= i < k ensures front[i] == lines[i] {
      }
      if e in ParseAll(front) {
        var i :| 0 <= i < |front| && ParseLine(front[i]) == Some(e);
        assert ParseLine(lines[i]) == Some(e);
      } else {
        forall i | 0 <= i < k ensures ParseLine(lines[i]) != Some(e) {
          assert ParseLine(front[i]) != Some(e);
        }
      }
    }
  }

  /** One line of a log: a `BLOCK_DONE` line whose first field is `i=n/expected`, with whatever text the
      other fields make, failure texts included; or any other line. A failure text with a line break
      splits a printed line in two of these. */
  datatype LogLine = DoneAt(ts: string, n: nat, tail: string) | Other(text: string)

  function Mark(n: nat, expected: nat): string {
    NatText(n) + "/" + NatText(expected)
  }

  function TextOf(l: LogLine, expected: nat): string {
    match l
    case DoneAt(ts, n, tail) => Line(ts, BLOCK_DONE, " " + ("i=" + Mark(n, expected)) + tail)
    case Other(text) => text
  }

  function TextsOf(ls: seq<LogLine>, expected: nat): (lines: seq<string>)
    ensures |lines| == |ls|
  {
    seq(|ls|, i requires 0 <= i < |ls| => TextOf(ls[i], expected))
  }

  /** The log of a sweep that went from `first` to `last` measurements: every count was printed at least
      once, in any order; the other lines are no `BLOCK_DONE` lines. */
  ghost predicate LogOfSweep(ls: seq<LogLine>, first: nat, last: nat) {
    && (forall n: nat :: first < n <= last ==> Counted(ls, n))
    && forall i :: 0 <= i < |ls| ==> ValidLine(ls[i], first, last)
  }

  ghost predicate Counted(ls: seq<LogLine>, n: nat) {
    exists i :: 0 <= i < |ls| && ls[i].DoneAt? && ls[i].n == n
  }

  ghost predicate ValidLine(l: LogLine, first: nat, last: nat) {
    match l
    case DoneAt(ts, n, tail) => first < n <= last && ValidHead(ts, BLOCK_DONE) && (tail != "" ==> tail[0] == ' ')
    case Other(text) => ParseLine(text) == None || ParseLine(text).value.tag != BLOCK_DONE
  }

  function NumberOf(i: string): int {
    match Numerator(i)
    case None => 0
    case Some(n) => n
  }

  /** The number a later word `i=...` of a `BLOCK_DONE` line puts in place of its count. */
  function Overriding(l: LogLine): Option<int> {
    if !l.DoneAt? then None
    else
      match LastValue("i", Words(l.tail))
      case None => None
      case Some(v) => Some(NumberOf(v))
  }

  lemma FirstWordIsMark(mark: string, tail: string)
    requires NoSpace(mark) && (tail != "" ==> tail[0] == ' ')
    ensures AddWords(map[], Words(" " + ("i=" + mark) + tail)) == AddWords(map["i" := mark], Words(tail))
  {
    hide Words, AddWord;
    var word := "i=" + mark;
    assert NoSpace(word);
    FirstWord(word, tail);
    MarkWord(mark);
    assert ([word] + Words(tail))[1..] == Words(tail);
  }

  lemma MarkWord(mark: string)
    requires NoSpace(mark)
    ensures AddWord(map[], "i=" + mark) == map["i" := mark]
  {
    hide AddWord;
    WordSplit("i", mark, map[]);
    assert "i=" + mark == "i" + "=" + mark;
  }

  lemma MarkHasNoSpace(n: nat, expected: nat)
    ensures NoSpace(Mark(n, expected))
  {
  }

  /** A `BLOCK_DONE` line always parses, and reports its count unless a later word overrides it. */
  lemma DoneLineReports(l: LogLine, first: nat, last: nat, expected: nat)
    requires l.DoneAt? && ValidLine(l, first, last)
    ensures ParseLine(TextOf(l, expected)).Some?
    ensures Reported(ParseLine(TextOf(l, expected)).value) == if Overriding(l).Some? then Overriding(l).value else l.n
  {
    hide ParseLine, Words, AddWords, LastValue, ValidHead, Numerator, Mark;
    var mark := Mark(l.n, expected);
    MarkHasNoSpace(l.n, expected);
    FirstWordIsMark(mark, l.tail);
    LineParses(l.ts, BLOCK_DONE, " " + ("i=" + mark) + l.tail);
    LastWordCounts(map["i" := mark], Words(l.tail), "i");
    NumberOfMark(l.n, expected);
  }

  lemma NumberOfMark(n: nat, expected: nat)
    ensures Numerator(Mark(n, expected)) == Some(n)
  {
    NumeratorOfMark(n, expected);
  }

  lemma OtherLineReports(l: LogLine, first: nat, last: nat, expected: nat)
    requires l.Other? && ValidLine(l, first, last)
    ensures ParseLine(TextOf(l, expected)).Some? ==> Reported(ParseLine(TextOf(l, expected)).value) == 0
  {
    hide ParseLine;
  }

  /** What a line adds to the monitor's view: nothing, its count, or the number in its place. */
  function Shown(l: LogLine): int {
    if l.Other? then 0 else if Overriding(l).Some? then Overriding(l).value else l.n
  }

  /** The count shown is at least what each line shows, and is shown by one of them. */
  lemma ShownIsMax(ls: seq<LogLine>, first: nat, last: nat, expected: nat)
    requires LogOfSweep(ls, first, last)
    ensures var n := StateAfter(ParseAll(TextsOf(ls, expected))).blocksDone;
      && n >= 0
      && (forall i :: 0 <= i < |ls| ==> Shown(ls[i]) <= n)
      && (n > 0 ==> exists i :: 0 <= i < |ls| && Shown(ls[i]) == n)
  {
    hide StateAfter, ParseAll, ParseLine, Reported, TextOf, Overriding, ValidLine;
    var lines := TextsOf(ls, expected);
    var events := ParseAll(lines);
    var n := StateAfter(events).blocksDone;
    BlocksDoneIsMax(events);
    forall i | 0 <= i < |ls| ensures Shown(ls[i]) <= n {
      if ls[i].DoneAt? {
        DoneLineReports(ls[i], first, last, expected);
        var e := ParseLine(lines[i]).value;
        ParsedEvents(lines, e);
        var k :| 0 <= k < |events| && events[k] == e;
        assert Reported(events[k]) <= n;
      }
    }
    if n > 0 {
      var k :| 0 <= k < |events| && Reported(events[k]) == n;
      ParsedEvents(lines, events[k]);
      assert events[k] in events;
      var i :| 0 <= i < |lines| && ParseLine(lines[i]) == Some(events[k]);
      if ls[i].DoneAt? {
        DoneLineReports(ls[i], first, last, expected);
      } else {
        OtherLineReports(ls[i], first, last, expected);
      }
    }
  }

  /** No later word of any line exceeds the final count. */
  ghost predicate NoneAbove(ls: seq<LogLine>, last: nat) {
    forall i :: 0 <= i < |ls| && Overriding(ls[i]).Some? ==> Overriding(ls[i]).value <= last
  }

  /** The final count stands in some line, or a later word restores it. */
  ghost predicate FinalStands(ls: seq<LogLine>, last: nat) {
    exists i :: 0 <= i < |ls| && StandsFor(ls[i], last)
  }

  predicate StandsFor(l: LogLine, last: nat) {
    l.DoneAt? && (Overriding(l) == Some(last) || (l.n == last && Overriding(l) == None))
  }

  /** From the text a sweep printed, failure texts and all, to the number the monitor shows. After at least
      one new block it is the final number of measurements if and only if no later word `i=...` in a
      `BLOCK_DONE` line exceeds that number, and the final line's own count is not overridden everywhere.
      Without a new block it is zero. */
  lemma MonitorShowsMeasurements(ls: seq<LogLine>, first: nat, last: nat, expected: nat)
    requires first <= last && LogOfSweep(ls, first, last)
    ensures var shown := StateAfter(ParseAll(TextsOf(ls, expected))).blocksDone;
      && (first == last ==> shown == 0)
      && (first < last ==> (shown == last <==> NoneAbove(ls, last) && FinalStands(ls, last)))
  {
    hide StateAfter, ParseAll, TextsOf, Overriding, ParseLine;
    ShownIsMax(ls, first, last, expected);
    var shown := StateAfter(ParseAll(TextsOf(ls, expected))).blocksDone;
    forall i | 0 <= i < |ls| && ls[i].DoneAt? ensures first < ls[i].n <= last {
      assert ValidLine(ls[i], first, last);
    }
    if first < last && shown == last {
      var i :| 0 <= i < |ls| && Shown(ls[i]) == last;
      assert StandsFor(ls[i], last);
      OverridesOnlyDone(ls);
    }
    if first < last && NoneAbove(ls, last) && FinalStands(ls, last) {
      var i :| 0 <= i < |ls| && StandsFor(ls[i], last);
      assert Shown(ls[i]) == last;
      forall k | 0 <= k < |ls| ensures Shown(ls[k]) <= last {
      }
    }
  }

  lemma OverridesOnlyDone(ls: seq<LogLine>)
    ensures forall i :: 0 <= i < |ls| && Overriding(ls[i]).Some? ==> ls[i].DoneAt?
  {
  }

  /** In particular it is right for every log without such words, whatever failures it reports. */
  lemma MonitorRightWithoutOverrides(ls: seq<LogLine>, first: nat, last: nat, expected: nat)
    requires first < last && LogOfSweep(ls, first, last)
    requires forall i :: 0 <= i < |ls| ==> Overriding(ls[i]) == None
    ensures StateAfter(ParseAll(TextsOf(ls, expected))).blocksDone == last
  {
    hide StateAfter, ParseAll, TextsOf, Overriding, ParseLine;
    MonitorShowsMeasurements(ls, first, last, expected);
    assert Counted(ls, last);
    var i :| 0 <= i < |ls| && ls[i].DoneAt? && ls[i].n == last;
    assert StandsFor(ls[i], last);
  }

  /** A failure text ending in `i=99/132` overrides the count of its line. */
  function MisleadingTail(word: string): string {
    " " + word + (" " + ("i=" + Mark(99, 132)))
  }

  /** Such an input: the only block of a sweep fails, its text says `i=99/132`, and the monitor shows 99
      blocks done. */
  lemma FailureTextMisleads(ts: string, word: string)
    requires ValidHead(ts, BLOCK_DONE)
    requires word != "" && NoSpace(word)
    ensures var ls := [DoneAt(ts, 1, MisleadingTail(word))];
      LogOfSweep(ls, 0, 1) && StateAfter(ParseAll(TextsOf(ls, 132))).blocksDone == 99
  {
    hide StateAfter, ParseAll, TextsOf, Words, LastValue, ValidHead, Mark;
    var l := DoneAt(ts, 1, MisleadingTail(word));
    var ls := [l];
    assert ls[0] == l;
    assert Counted(ls, 1);
    MisleadingWords(word);
    NumberOfMark(99, 132);
    ShownIsMax(ls, 0, 1, 132);
    assert Shown(ls[0]) == 99;
  }

  lemma MisleadingWords(word: string)
    requires word != "" && NoSpace(word)
    ensures LastValue("i", Words(MisleadingTail(word))) == Some(Mark(99, 132))
  {
    hide Words, Mark, LastValue;
    MarkHasNoSpace(99, 132);
    TwoWords(word, "i=" + Mark(99, 132));
    LastOfTwo(word, Mark(99, 132));
  }

  lemma TwoWords(word: string, last: string)
    requires word != "" && NoSpace(word) && last != "" && NoSpace(last)
    ensures Words(" " + word + (" " + last)) == [word, last]
  {
    FirstWord(word, " " + last);
    FirstWord(last, "");
    NoWords();
    hide Words;
    assert " " + last + "" == " " + last;
    assert [last] + [] == [last];
    assert [word] + [last] == [word, last];
  }

  lemma NoWords()
    ensures Words("") == []
  {
  }

  lemma LastOfTwo(word: string, mark: string)
    ensures LastValue("i", [word, "i=" + mark]) == Some(mark)
  {
    var last := "i=" + mark;
    assert last == "i" + ("=" + mark);
    TakeExactly(NotEquals, "i", "=" + mark);
    assert last[2..] == mark;
    var one: seq<string> := [last];
    assert one[1..] == [];
    assert LastValue("i", one) == Some(mark);
    assert [word, last][1..] == one;
  }

  // ----- The other fields of the snapshot -----

  /** The latest sweep start decides mode, start time and, when they are numbers, the expected counts. */
  lemma {:induction false} LatestStartCounts(before: seq<Event>, e: Event, after: seq<Event>)
    requires e.tag == "SWEEP_START" && forall i :: 0 <= i < |after| ==> after[i].tag != "SWEEP_START"
    ensures var state := StateAfter(before + [e] + after);
      StartedBy(state, e)
  {
    hide Apply, StartedBy;
    var events := before + [e] + after;
    if after == [] {
      assert events == before + [e] && events[..|events| - 1] == before;
      StartSets(StateAfter(before), e);
    } else {
      var last := after[|after| - 1];
      assert events[..|events| - 1] == before + [e] + after[..|after| - 1];
      LatestStartCounts(before, e, after[..|after| - 1]);
      OthersLeaveStart(StateAfter(events[..|events| - 1]), last, e);
    }
  }

  ghost predicate StartedBy(s: SweepState, e: Event) {
    && s.mode == Get(e.fields, "mode")
    && (forall utc :: Get(e.fields, "utc") == Some(utc) && utc != "" ==> s.start == Some(utc))
    && (Get(e.fields, "utc") == None || Get(e.fields, "utc") == Some("") ==> s.start == Some(e.ts))
    && (forall b: nat, t: nat :: b > 0 && t > 0 && ExpectsBlocks(e, b) && ExpectsTuples(e, t) ==>
          s.expectedBlocks == Some(b) && s.expectedTuples == Some(t))
  }

  predicate ExpectsBlocks(e: Event, b: nat) {
    Get(e.fields, "expected_blocks") == Some(NatText(b))
  }

  predicate ExpectsTuples(e: Event, t: nat) {
    Get(e.fields, "expected_tuples") == Some(NatText(t))
  }

  lemma StartSets(s: SweepState, e: Event)
    requires e.tag == "SWEEP_START"
    ensures StartedBy(Apply(s, e), e)
  {
    hide NatText, ParseInt, ParseNat, Numerator, OnTuple, Reported, OnStart;
    var t := s.(lastTs := Some(e.ts));
    assert Apply(s, e) == OnStart(t, e);
    StartReads(t, e);
    forall b: nat, n: nat | b > 0 && n > 0 && ExpectsBlocks(e, b) && ExpectsTuples(e, n)
      ensures OnStart(t, e).expectedBlocks == Some(b) && OnStart(t, e).expectedTuples == Some(n)
    {
      StartExpects(t, e, b, n);
    }
  }

  lemma StartReads(s: SweepState, e: Event)
    ensures var t := OnStart(s, e);
      && t.mode == Get(e.fields, "mode")
      && (forall utc :: Get(e.fields, "utc") == Some(utc) && utc != "" ==> t.start == Some(utc))
      && (Get(e.fields, "utc") == None || Get(e.fields, "utc") == Some("") ==> t.start == Some(e.ts))
  {
    hide ParseInt, NonZero;
  }

  lemma StartExpects(s: SweepState, e: Event, b: nat, n: nat)
    requires b > 0 && n > 0 && ExpectsBlocks(e, b) && ExpectsTuples(e, n)
    ensures OnStart(s, e).expectedBlocks == Some(b) && OnStart(s, e).expectedTuples == Some(n)
  {
    NatRoundTrip(b);
    FirstIsDigit(b);
    NatRoundTrip(n);
    FirstIsDigit(n);
    hide NatText, ParseInt, ParseNat, UtcOf;
  }

  lemma OthersLeaveStart(s: SweepState, e: Event, start: Event)
    requires e.tag != "SWEEP_START" && StartedBy(s, start)
    ensures StartedBy(Apply(s, e), start)
  {
    hide UtcOf, Numerator, ParseInt, GetOr, NatText;
  }

  /** What a sub-probe event says. */
  function SubprobeOf(e: Event): Option<Subprobe> {
    if e.tag == "SUBPROBE_END" then Some(Done) else if e.tag == "SUBPROBE_START" then Some(Running) else None
  }

  /** The sub-probe is pending before its first event; then its latest event decides. */
  lemma {:induction false} SubprobeFollows(events: seq<Event>)
    ensures NoSubprobe(events, 0) ==> StateAfter(events).subprobe == Pending
    ensures forall i: nat :: i < |events| && LatestSubprobe(events, i) ==> SubprobeOf(events[i]) == Some(StateAfter(events).subprobe)
  {
    hide Apply, SubprobeOf, NoSubprobe, LatestSubprobe;
    if events != [] {
      var n := |events| - 1;
      var front := events[..n];
      SubprobeFollows(front);
      SubprobeStep(StateAfter(front), events[n]);
      if NoSubprobe(events, 0) {
        NoSubprobeStep(events, 0);
      }
      forall i: nat | i < |events| && LatestSubprobe(events, i) ensures SubprobeOf(events[i]) == Some(StateAfter(events).subprobe) {
        LatestStep(events, i);
      }
    }
  }

  ghost predicate NoSubprobe(events: seq<Event>, first: nat) {
    forall j :: first <= j < |events| ==> SubprobeOf(events[j]) == None
  }

  ghost predicate LatestSubprobe(events: seq<Event>, i: nat) {
    i < |events| && SubprobeOf(events[i]).Some? && NoSubprobe(events, i + 1)
  }

  lemma NoSubprobeStep(events: seq<Event>, first: nat)
    requires first < |events| && NoSubprobe(events, first)
    ensures NoSubprobe(events[..|events| - 1], first) && SubprobeOf(events[|events| - 1]) == None
  {
    hide SubprobeOf;
  }

  lemma LatestStep(events: seq<Event>, i: nat)
    requires LatestSubprobe(events, i)
    ensures i < |events|
    ensures i == |events| - 1 ==> SubprobeOf(events[i]).Some?
    ensures i < |events| - 1 ==> LatestSubprobe(events[..|events| - 1], i) && SubprobeOf(events[|events| - 1]) == None
  {
    hide SubprobeOf, NoSubprobe;
    if i < |events| - 1 {
      NoSubprobeStep(events, i + 1);
    }
  }

  lemma SubprobeStep(s: SweepState, e: Event)
    ensures Apply(s, e).subprobe == if SubprobeOf(e).Some? then SubprobeOf(e).value else s.subprobe
  {
    hide UtcOf, Numerator, ParseInt, GetOr;
    assert "SUBPROBE_END"[0] != "TUPLE_START"[0] && "SUBPROBE_START"[0] != "TUPLE_START"[0];
    assert "SUBPROBE_END"[1] != "SWEEP_START"[1] && "SUBPROBE_START"[1] != "SWEEP_START"[1];
    assert "SUBPROBE_END"[0] != BLOCK_DONE[0] && "SUBPROBE_START"[0] != BLOCK_DONE[0];
  }

  /** The latest sweep end decides the end time, by its own field or its stamp. */
  lemma {:induction false} LatestEndCounts(before: seq<Event>, e: Event, after: seq<Event>)
    requires e.tag == "SWEEP_END" && forall i :: 0 <= i < |after| ==> after[i].tag != "SWEEP_END"
    ensures EndedBy(StateAfter(before + [e] + after), e)
  {
    hide Apply, EndedBy;
    var events := before + [e] + after;
    if after == [] {
      assert events == before + [e] && events[..|events| - 1] == before;
      EndSets(StateAfter(before), e);
    } else {
      var last := after[|after| - 1];
      assert events[..|events| - 1] == before + [e] + after[..|after| - 1];
      LatestEndCounts(before, e, after[..|after| - 1]);
      OthersLeaveEnd(StateAfter(events[..|events| - 1]), last, e);
    }
  }

  ghost predicate EndedBy(s: SweepState, e: Event) {
    && (forall utc :: Get(e.fields, "utc") == Some(utc) && utc != "" ==> s.end == Some(utc))
    && (Get(e.fields, "utc") == None || Get(e.fields, "utc") == Some("") ==> s.end == Some(e.ts))
  }

  lemma EndSets(s: SweepState, e: Event)
    requires e.tag == "SWEEP_END"
    ensures EndedBy(Apply(s, e), e)
  {
    hide Numerator, ParseInt;
    assert "SWEEP_END"[6] != "SWEEP_START"[6] && "SWEEP_END"[0] != "TUPLE_START"[0] && "SWEEP_END"[0] != BLOCK_DONE[0];
    assert "SWEEP_END"[1] != "SUBPROBE_START"[1] && "SWEEP_END"[1] != "SUBPROBE_END"[1];
  }

  lemma OthersLeaveEnd(s: SweepState, e: Event, end: Event)
    requires e.tag != "SWEEP_END" && EndedBy(s, end)
    ensures EndedBy(Apply(s, e), end)
  {
    hide UtcOf, Numerator, ParseInt, GetOr;
  }
}
