/** Logs after any number of crashes: lines of glued pieces, and an unterminated tail of them. */
module TornLog {
  import opened Common
  import opened LogLines
  import opened Checkpoint
  import Codec
  import opened Sweep
  import opened CrashResume

  /** The first `cut` characters of a record's text. */
  datatype Piece = Piece(record: Record, cut: nat)

  type Pieces = seq<Piece>

  ghost predicate Valid(p: Piece) {
    WellFormed(p.record) && 0 < p.cut <= |RecordText(p.record)|
  }

  ghost predicate AllValid(l: Pieces) {
    forall i :: 0 <= i < |l| ==> Valid(l[i])
  }

  function Whole(r: Record): Piece {
    Piece(r, |RecordText(r)|)
  }

  function PieceText(p: Piece): string {
    if p.cut <= |RecordText(p.record)| then RecordText(p.record)[..p.cut] else RecordText(p.record)
  }

  /** The text of a line. */
  function LineOf(l: Pieces): string {
    if l == [] then "" else PieceText(l[0]) + LineOf(l[1..])
  }

  /** A line counts only when it is one whole record. */
  function RecordOf(l: Pieces): seq<Record> {
    if |l| == 1 && l[0].cut == |RecordText(l[0].record)| then [l[0].record] else []
  }

  function Texts(lines: seq<Pieces>): (ts: seq<string>)
    ensures |ts| == |lines|
  {
    seq(|lines|, i requires 0 <= i < |lines| => LineOf(lines[i]))
  }

  function RecordsOf(lines: seq<Pieces>): seq<Record> {
    if lines == [] then [] else RecordsOf(lines[..|lines| - 1]) + RecordOf(lines[|lines| - 1])
  }

  ghost predicate ValidLines(lines: seq<Pieces>) {
    forall i :: 0 <= i < |lines| ==> lines[i] != [] && AllValid(lines[i])
  }

  function LogOf(lines: seq<Pieces>, tail: Pieces): string {
    JoinLines(Texts(lines)) + LineOf(tail)
  }

  // ----- Loading a line -----

  lemma WholeText(r: Record)
    ensures PieceText(Whole(r)) == RecordText(r)
    ensures |RecordText(r)| > 1
  {
    Codec.EncodeShape(FieldsOf(r));
  }

  lemma PieceOpens(p: Piece)
    requires Valid(p)
    ensures PieceText(p) != "" && PieceText(p)[0] == '{' && '\n' !in PieceText(p)
  {
    hide WellFormed, FieldsOf;
    Codec.EncodeShape(FieldsOf(p.record));
  }

  lemma {:induction false} LineShape(l: Pieces)
    requires AllValid(l)
    ensures '\n' !in LineOf(l)
    ensures l != [] ==> LineOf(l) != "" && LineOf(l)[0] == '{'
    ensures Codec.Glue(LineOf(l))
  {
    hide FieldsOf, PieceText, Codec.Glue, Valid;
    if l == [] {
      EmptyGlue();
    } else {
      LineShape(l[1..]);
      PieceOpens(l[0]);
      GlueInFront(l[0], LineOf(l[1..]));
    }
  }

  lemma EmptyGlue()
    ensures Codec.Glue("")
  {
  }

  lemma GlueInFront(p: Piece, g: string)
    requires Valid(p) && Codec.Glue(g)
    ensures Codec.Glue(PieceText(p) + g)
  {
    hide FieldsOf, Codec.Glue, WellFormed;
    KindStartsWithLetter(p.record);
    Codec.PieceGlue(FieldsOf(p.record), p.cut, g);
  }

  /** Trimming a line of two pieces or more takes nothing but the end of the last ones. */
  lemma {:induction false} TrimKeeps(s: string, i: nat)
    requires i < |s| && !IsSpace(s[i])
    ensures |TrimRight(s)| > i
  {
    if IsSpace(s[|s| - 1]) {
      TrimKeeps(s[..|s| - 1], i);
    }
  }

  lemma GluedLineLost(st: LoadState, p: Piece, g: string)
    requires Valid(p) && g != "" && g[0] == '{' && Codec.Glue(g)
    ensures LoadLine(st, PieceText(p) + g) == Ok(st)
  {
    hide FieldsOf, ParseRecord, Codec.Glue, WellFormed;
    var front := PieceText(p);
    var line := front + g;
    PieceOpens(p);
    StripBraced(line);
    TrimKeeps(line, |front|);
    var kept := |Strip(line)| - |front|;
    assert Strip(line) == front + g[..kept];
    Codec.GlueCut(g, kept);
    Codec.GluedNeverParses(FieldsOf(p.record), p.cut, g[..kept]);
  }

  /** What a line adds to the loaded state. */
  lemma LoadPieces(rs: seq<Record>, l: Pieces)
    requires l != [] && AllValid(l)
    ensures LoadLine(StateOf(rs), LineOf(l)) == Ok(StateOf(rs + RecordOf(l)))
  {
    hide LoadLine, StateOf, FieldsOf, WellFormed, Codec.Glue, RecordText;
    var p := l[0];
    assert rs + [] == rs;
    if |l| == 1 {
      assert l[1..] == [] && LineOf(l) == PieceText(p);
      if p.cut == |RecordText(p.record)| {
        assert PieceText(p) == RecordText(p.record);
        LoadWholeRecord(StateOf(rs), p.record);
        StateOfAppend(rs, p.record);
      } else {
        LoadTornRecord(StateOf(rs), p.record, p.cut);
      }
    } else {
      LineShape(l[1..]);
      GluedLineLost(StateOf(rs), p, LineOf(l[1..]));
    }
  }

  lemma TextsHaveNoNewline(lines: seq<Pieces>)
    requires ValidLines(lines)
    ensures NoNewlines(Texts(lines))
  {
    hide LineOf, AllValid;
    forall i | 0 <= i < |lines| ensures '\n' !in Texts(lines)[i] {
      LineShape(lines[i]);
    }
  }

  lemma {:induction false} FoldTexts(lines: seq<Pieces>)
    requires ValidLines(lines)
    ensures FoldLines(Texts(lines)) == Ok(StateOf(RecordsOf(lines)))
  {
    hide LineOf, AllValid, LoadLine, StateOf, RecordOf;
    if lines == [] {
      EmptyState();
    } else {
      var front, last := lines[..|lines| - 1], lines[|lines| - 1];
      FoldTexts(front);
      assert Texts(lines)[..|lines| - 1] == Texts(front);
      LoadPieces(RecordsOf(front), last);
    }
  }

  lemma EmptyState()
    ensures StateOf([]) == EMPTY
  {
  }

  lemma EmptyLine()
    ensures LineOf([]) == "" && RecordOf([]) == [] && AllValid([])
  {
  }

  /** The records a whole log stands for. */
  function LogRecords(lines: seq<Pieces>, tail: Pieces): seq<Record> {
    RecordsOf(lines) + RecordOf(tail)
  }

  /** Any such log loads as the records that stand alone on a line. */
  lemma FoldLog(lines: seq<Pieces>, tail: Pieces)
    requires ValidLines(lines) && AllValid(tail)
    ensures FoldLines(Lines(LogOf(lines, tail))) == Ok(StateOf(LogRecords(lines, tail)))
  {
    hide LineOf, AllValid, LoadLine, StateOf, RecordOf, RecordsOf, Lines;
    TextsHaveNoNewline(lines);
    LineShape(tail);
    LinesOfJoined(Texts(lines), LineOf(tail));
    FoldTexts(lines);
    if tail == [] {
      EmptyLine();
      assert Texts(lines) + [] == Texts(lines) && RecordsOf(lines) + [] == RecordsOf(lines);
    } else {
      var all := Texts(lines) + [LineOf(tail)];
      assert all[..|lines|] == Texts(lines);
      LoadPieces(RecordsOf(lines), tail);
    }
  }

  /** Header first, on a line of its own. */
  ghost predicate Headed(lines: seq<Pieces>, h: Record) {
    lines != [] && lines[0] == [Whole(h)]
  }

  lemma {:induction false} HeaderFirst(lines: seq<Pieces>, h: Record)
    requires Headed(lines, h)
    ensures RecordsOf(lines) != [] && RecordsOf(lines)[0] == h
  {
    if |lines| > 1 {
      HeaderFirst(lines[..|lines| - 1], h);
    } else {
      assert lines[..0] == [];
      assert RecordOf(lines[0]) == [h];
    }
  }

  lemma LoadLog(lines: seq<Pieces>, tail: Pieces, h: Record)
    requires ValidLines(lines) && AllValid(tail) && Headed(lines, h) && h.HeaderRecord?
    ensures Load(LogOf(lines, tail)) == Ok(StateOf(LogRecords(lines, tail)))
  {
    hide FoldLines, Lines, LogOf, StateOf, RecordOf, RecordsOf;
    FoldLog(lines, tail);
    HeaderFirst(lines, h);
    assert LogRecords(lines, tail)[0] == h;
    HeaderSurvives(LogRecords(lines, tail));
  }

  // ----- Cutting -----

  /** The pieces of the first `n` characters of a line. */
  function CutLine(l: Pieces, n: nat): Pieces {
    if l == [] || n == 0 then []
    else if n <= |PieceText(l[0])| then [Piece(l[0].record, n)]
    else [l[0]] + CutLine(l[1..], n - |PieceText(l[0])|)
  }

  lemma {:induction false} CutLineText(l: Pieces, n: nat)
    requires AllValid(l) && n <= |LineOf(l)|
    ensures AllValid(CutLine(l, n)) && LineOf(CutLine(l, n)) == LineOf(l)[..n]
  {
    hide RecordText, WellFormed;
    if l != [] && n > 0 {
      var first := PieceText(l[0]);
      if n <= |first| {
        OneCutPiece(l[0], n);
        assert LineOf(l)[..n] == first[..n];
      } else {
        CutLineText(l[1..], n - |first|);
        var rest := CutLine(l[1..], n - |first|);
        assert ([l[0]] + rest)[1..] == rest;
        assert LineOf(l)[..n] == first + LineOf(l[1..])[..n - |first|];
      }
    }
  }

  lemma OneCutPiece(p: Piece, n: nat)
    requires Valid(p) && 0 < n <= p.cut
    ensures Valid(Piece(p.record, n)) && LineOf([Piece(p.record, n)]) == PieceText(p)[..n]
  {
    hide RecordText;
    var l := [Piece(p.record, n)];
    assert l[1..] == [];
    assert LineOf(l) == PieceText(l[0]) + "";
    assert RecordText(p.record)[..p.cut][..n] == RecordText(p.record)[..n];
  }

  /** Any cut of a log behind its header line is such a log again. */
  lemma CutLog(lines: seq<Pieces>, tail: Pieces, h: Record, cut: nat) returns (lines': seq<Pieces>, tail': Pieces)
    requires ValidLines(lines) && AllValid(tail) && Headed(lines, h)
    requires |LineText(h)| <= cut <= |LogOf(lines, tail)|
    ensures ValidLines(lines') && AllValid(tail') && Headed(lines', h)
    ensures LogOf(lines', tail') == LogOf(lines, tail)[..cut]
  {
    hide LineOf, AllValid, CutLine, RecordText;
    var joined := JoinLines(Texts(lines));
    if cut >= |joined| {
      CutLineText(tail, cut - |joined|);
      lines', tail' := lines, CutLine(tail, cut - |joined|);
      assert LogOf(lines, tail)[..cut] == joined + LineOf(tail)[..cut - |joined|];
    } else {
      var whole, part := CutOfJoined(Texts(lines), cut);
      FirstLineText(lines, h);
      assert Texts(lines)[..whole] == Texts(lines[..whole]);
      assert LogOf(lines, tail)[..cut] == joined[..cut];
      assert whole == 0 ==> Texts(lines[..whole]) == [];
      var text := LineOf(lines[whole]);
      if part <= |text| {
        CutLineText(lines[whole], part);
        lines', tail' := lines[..whole], CutLine(lines[whole], part);
        assert (text + "\n")[..part] == text[..part];
        if whole == 0 {
          assert false;
        }
      } else {
        lines', tail' := lines[..whole + 1], [];
        EmptyLine();
        JoinOneMore(lines, whole);
        assert (text + "\n")[..part] == text + "\n";
      }
    }
  }

  lemma JoinOneMore(lines: seq<Pieces>, i: nat)
    requires i < |lines|
    ensures JoinLines(Texts(lines[..i + 1])) == JoinLines(Texts(lines[..i])) + (LineOf(lines[i]) + "\n")
  {
    hide LineOf;
    assert Texts(lines[..i + 1]) == Texts(lines[..i]) + [LineOf(lines[i])];
    JoinLinesSnoc(Texts(lines[..i]), LineOf(lines[i]));
  }

  lemma LineOfWhole(r: Record)
    ensures LineOf([Whole(r)]) == RecordText(r)
  {
    hide RecordText;
    WholeText(r);
    var l := [Whole(r)];
    assert l[1..] == [];
    assert LineOf(l) == PieceText(l[0]) + LineOf(l[1..]);
    assert RecordText(r) + "" == RecordText(r);
  }

  lemma FirstLineText(lines: seq<Pieces>, h: Record)
    requires Headed(lines, h)
    ensures LineOf(lines[0]) + "\n" == LineText(h)
  {
    hide RecordText;
    LineOfWhole(h);
  }

  // ----- Appending -----

  function Singles(rs: seq<Record>): (lines: seq<Pieces>)
    ensures |lines| == |rs|
  {
    seq(|rs|, i requires 0 <= i < |rs| => [Whole(rs[i])])
  }

  lemma SinglesTexts(rs: seq<Record>)
    requires AllWellFormed(rs)
    ensures Texts(Singles(rs)) == RecordTexts(rs)
    ensures ValidLines(Singles(rs))
  {
    hide RecordText, WellFormed;
    forall i | 0 <= i < |rs| ensures LineOf(Singles(rs)[i]) == RecordText(rs[i]) && AllValid(Singles(rs)[i]) {
      assert Singles(rs)[i] == [Whole(rs[i])];
      WholeText(rs[i]);
      assert [Whole(rs[i])][1..] == [];
      assert LineOf([Whole(rs[i])]) == PieceText(Whole(rs[i])) + LineOf([]);
    }
  }

  lemma {:induction false} LineOfConcat(l: Pieces, m: Pieces)
    ensures LineOf(l + m) == LineOf(l) + LineOf(m)
  {
    hide PieceText;
    if l == [] {
      assert l + m == m;
    } else {
      assert (l + m)[1..] == l[1..] + m;
      LineOfConcat(l[1..], m);
    }
  }

  lemma {:induction false} RecordsConcat(a: seq<Pieces>, b: seq<Pieces>)
    ensures RecordsOf(a + b) == RecordsOf(a) + RecordsOf(b)
  {
    hide RecordOf;
    if b == [] {
      assert a + b == a;
    } else {
      assert (a + b)[..|a + b| - 1] == a + b[..|b| - 1];
      RecordsConcat(a, b[..|b| - 1]);
    }
  }

  lemma {:induction false} SinglesRecords(rs: seq<Record>)
    ensures RecordsOf(Singles(rs)) == rs
  {
    hide RecordText;
    if rs != [] {
      var front, last := rs[..|rs| - 1], rs[|rs| - 1];
      SinglesRecords(front);
      SinglesSnoc(front, last);
      GluedRecord([], last);
      assert [] + [Whole(last)] == [Whole(last)];
      hide Singles, RecordOf;
      assert (Singles(front) + [[Whole(last)]])[..|front|] == Singles(front);
      assert front + [last] == rs;
    }
  }

  lemma SinglesSnoc(rs: seq<Record>, r: Record)
    ensures Singles(rs + [r]) == Singles(rs) + [[Whole(r)]]
  {
    hide RecordText;
  }

  /** Records appended to a log: the first is glued to the tail, the others get lines of their own. */
  function Appended(lines: seq<Pieces>, tail: Pieces, rs: seq<Record>): seq<Pieces> {
    if rs == [] then lines else lines + [tail + [Whole(rs[0])]] + Singles(rs[1..])
  }

  function TailAfter(tail: Pieces, rs: seq<Record>): Pieces {
    if rs == [] then tail else []
  }

  lemma AppendLog(lines: seq<Pieces>, tail: Pieces, h: Record, rs: seq<Record>)
    requires ValidLines(lines) && AllValid(tail) && Headed(lines, h) && AllWellFormed(rs)
    ensures var lines', tail' := Appended(lines, tail, rs), TailAfter(tail, rs);
      && ValidLines(lines') && AllValid(tail') && Headed(lines', h)
      && LogOf(lines', tail') == LogOf(lines, tail) + LogText(rs)
  {
    hide LineOf, RecordText, WellFormed, AllValid, LogText, LogOf, Singles;
    EmptyLine();
    if rs == [] {
      EmptyLog();
      assert LogOf(lines, tail) + "" == LogOf(lines, tail);
    } else {
      AppendText(lines, tail, rs);
      AppendValid(lines, tail, rs);
    }
  }

  lemma AppendValid(lines: seq<Pieces>, tail: Pieces, rs: seq<Record>)
    requires ValidLines(lines) && AllValid(tail) && AllWellFormed(rs) && rs != []
    ensures ValidLines(Appended(lines, tail, rs))
  {
    hide LineOf, RecordText, WellFormed, AllValid, Singles;
    assert WellFormed(rs[0]);
    GluedValid(tail, rs[0]);
    SinglesTexts(rs[1..]);
  }

  lemma GluedValid(tail: Pieces, r: Record)
    requires AllValid(tail) && WellFormed(r)
    ensures AllValid(tail + [Whole(r)])
  {
    hide RecordText, WellFormed;
    WholeText(r);
  }

  lemma AppendText(lines: seq<Pieces>, tail: Pieces, rs: seq<Record>)
    requires rs != [] && AllWellFormed(rs)
    ensures LogOf(Appended(lines, tail, rs), []) == LogOf(lines, tail) + LogText(rs)
  {
    hide LineOf, RecordText, WellFormed, JoinLines;
    var glued, texts := tail + [Whole(rs[0])], Texts(lines);
    LineOfConcat(tail, [Whole(rs[0])]);
    LineOfWhole(rs[0]);
    SinglesTexts(rs[1..]);
    EmptyLine();
    assert Texts(Appended(lines, tail, rs)) == texts + [LineOf(glued)] + RecordTexts(rs[1..]);
    JoinLinesConcat(texts + [LineOf(glued)], RecordTexts(rs[1..]));
    JoinLinesSnoc(texts, LineOf(glued));
    HeaderThenLog(rs[0], rs[1..]);
    assert [rs[0]] + rs[1..] == rs;
  }

  lemma AppendedRecords(lines: seq<Pieces>, tail: Pieces, rs: seq<Record>)
    requires rs != []
    ensures RecordsOf(Appended(lines, tail, rs)) == RecordsOf(lines) + rs[if tail == [] then 0 else 1..]
  {
    hide RecordsOf, RecordOf, RecordText, Singles;
    var glued := tail + [Whole(rs[0])];
    GluedRecord(tail, rs[0]);
    RecordsConcat(lines + [glued], Singles(rs[1..]));
    RecordsConcat(lines, [glued]);
    OneLineRecords(glued);
    SinglesRecords(rs[1..]);
    assert rs[0..] == [rs[0]] + rs[1..];
    assert RecordsOf(lines) + [] == RecordsOf(lines);
    assert RecordsOf(lines) + [rs[0]] + rs[1..] == RecordsOf(lines) + ([rs[0]] + rs[1..]);
  }

  lemma GluedRecord(tail: Pieces, r: Record)
    ensures RecordOf(tail + [Whole(r)]) == if tail == [] then [r] else []
  {
    hide RecordText;
    assert tail == [] ==> tail + [Whole(r)] == [Whole(r)];
  }

  lemma OneLineRecords(l: Pieces)
    ensures RecordsOf([l]) == RecordOf(l)
  {
    hide RecordOf;
    assert [l][..0] == [];
  }

  /** However much of the appended text reaches the disk, what loads is what stood on whole lines before,
      and a stretch of the appended records. */
  lemma CutAppended(lines: seq<Pieces>, tail: Pieces, h: Record, rs: seq<Record>, n: nat) returns (a: nat, b: nat)
    requires ValidLines(lines) && AllValid(tail) && Headed(lines, h) && h.HeaderRecord? && AllWellFormed(rs)
    requires 0 < n <= |LogText(rs)|
    ensures a <= b <= |rs|
    ensures Load(LogOf(lines, tail) + LogText(rs)[..n]) == Ok(StateOf(RecordsOf(lines) + rs[a..b]))
  {
    hide Load, StateOf, LogText, LogOf, RecordsOf, RecordText, WellFormed, Appended;
    if rs == [] {
      EmptyLog();
      assert false;
    }
    var whole, part := CutAtRecord(rs, n);
    EmptyLog();
    var log, first := LogOf(lines, tail), rs[..whole];
    a := if tail == [] then 0 else 1;
    assert log + LogText(rs)[..n] == log + LogText(first) + LineText(rs[whole])[..part];
    if part == |LineText(rs[whole])| {
      var next := rs[..whole + 1];
      b := whole + 1;
      assert next == first + [rs[whole]];
      LogTextAppend(first, rs[whole]);
      assert log + LogText(first) + LineText(rs[whole])[..part] == log + LogText(next);
      LoadAppended(lines, tail, h, next);
      assert next[a..] == rs[a..b];
    } else if part == 0 {
      assert first != [];
      b := whole;
      assert log + LogText(first) + LineText(rs[whole])[..part] == log + LogText(first);
      LoadAppended(lines, tail, h, first);
      assert first[a..] == rs[a..b];
    } else if first == [] {
      a, b := LoadPart(lines, tail, h, rs[whole], part);
      assert rs[a..b] == [rs[whole]][a..b];
      assert log + LogText(first) == log;
      assert LineText(rs[whole])[..part] == RecordText(rs[whole])[..part];
    } else {
      AppendLog(lines, tail, h, first);
      AppendedRecords(lines, tail, first);
      var lines' := Appended(lines, tail, first);
      var c, d := LoadPart(lines', [], h, rs[whole], part);
      b := whole + d;
      TailIsEmpty(tail, first);
      assert LineText(rs[whole])[..part] == RecordText(rs[whole])[..part];
      assert c == 0;
      assert RecordsOf(lines) + first[a..] + [rs[whole]][c..d] == RecordsOf(lines) + rs[a..b];
    }
  }

  lemma TailIsEmpty(tail: Pieces, rs: seq<Record>)
    requires rs != []
    ensures TailAfter(tail, rs) == []
  {
  }

  lemma LoadAppended(lines: seq<Pieces>, tail: Pieces, h: Record, rs: seq<Record>)
    requires ValidLines(lines) && AllValid(tail) && Headed(lines, h) && h.HeaderRecord? && AllWellFormed(rs)
    requires rs != []
    ensures Load(LogOf(lines, tail) + LogText(rs))
         == Ok(StateOf(RecordsOf(lines) + rs[if tail == [] then 0 else 1..]))
  {
    hide Load, StateOf, LogText, LogOf, RecordsOf, RecordText, WellFormed, Appended;
    AppendLog(lines, tail, h, rs);
    AppendedRecords(lines, tail, rs);
    TailIsEmpty(tail, rs);
    EmptyLine();
    LoadLog(Appended(lines, tail, rs), [], h);
    assert RecordsOf(Appended(lines, tail, rs)) + [] == RecordsOf(Appended(lines, tail, rs));
  }

  /** A log with a further piece at its end. */
  lemma LoadPart(lines: seq<Pieces>, tail: Pieces, h: Record, r: Record, part: nat) returns (a: nat, b: nat)
    requires ValidLines(lines) && AllValid(tail) && Headed(lines, h) && h.HeaderRecord? && WellFormed(r)
    requires 0 < part <= |RecordText(r)|
    ensures a <= b <= 1 && a == 0
    ensures Load(LogOf(lines, tail) + RecordText(r)[..part]) == Ok(StateOf(RecordsOf(lines) + [r][a..b]))
  {
    hide Load, StateOf, RecordsOf, RecordText, WellFormed, LineOf;
    var tail' := tail + [Piece(r, part)];
    a, b := 0, if tail == [] && part == |RecordText(r)| then 1 else 0;
    LineOfConcat(tail, [Piece(r, part)]);
    LineOfPiece(r, part);
    assert LogOf(lines, tail) + RecordText(r)[..part] == LogOf(lines, tail');
    LoadLog(lines, tail', h);
    assert tail == [] ==> tail' == [Piece(r, part)];
    assert RecordOf(tail') == [r][a..b];
  }

  lemma LineOfPiece(r: Record, part: nat)
    requires part <= |RecordText(r)|
    ensures LineOf([Piece(r, part)]) == RecordText(r)[..part]
  {
    hide RecordText;
    var l := [Piece(r, part)];
    assert l[1..] == [];
    assert LineOf(l) == PieceText(l[0]) + LineOf(l[1..]);
    assert RecordText(r)[..part] + "" == RecordText(r)[..part];
  }
}
