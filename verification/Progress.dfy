/** The progress lines a sweep prints and the monitor that reads them back. */
module Progress {
  import opened Common
  import opened LogLines

  type Fields = seq<(string, string)>

  /** One line as parsed: a repeated key keeps its last value. */
  datatype Event = Event(ts: string, tag: string, fields: map<string, string>)

  predicate IsTagChar(c: char) {
    'A' <= c <= 'Z' || c == '_'
  }

  ghost predicate NoSpace(s: string) {
    forall i :: 0 <= i < |s| ==> !IsSpace(s[i])
  }

  // ----- Printing -----

  function FieldsText(fields: Fields): string {
    if fields == [] then ""
    else " " + (fields[0].0 + "=" + fields[0].1) + FieldsText(fields[1..])
  }

  const MARKER: string := "[m6_2"

  /** The head of a line with this text after it. */
  function Line(ts: string, tag: string, text: string): string {
    "[" + ts + "] " + MARKER + " " + tag + "]" + text
  }

  /** `_progress`: `[ts] [m6_2 TAG] k1=v1 k2=v2 ...`. */
  function Render(ts: string, tag: string, fields: Fields): string {
    Line(ts, tag, FieldsText(fields))
  }

  // ----- Parsing -----

  /** The longest front of `s` whose characters satisfy `p`. */
  function TakeWhile(p: char -> bool, s: string): (t: string)
    ensures t <= s
    ensures |t| < |s| ==> !p(s[|t|])
  {
    if s == "" || !p(s[0]) then "" else [s[0]] + TakeWhile(p, s[1..])
  }

  lemma {:induction false} TakeExactly(p: char -> bool, t: string, rest: string)
    requires forall i :: 0 <= i < |t| ==> p(t[i])
    requires rest != "" ==> !p(rest[0])
    ensures TakeWhile(p, t + rest) == t
  {
    if t == "" {
      assert t + rest == rest;
    } else {
      assert (t + rest)[1..] == t[1..] + rest;
      TakeExactly(p, t[1..], rest);
    }
  }

  predicate NotBracket(c: char) { c != ']' }

  predicate NotEquals(c: char) { c != '=' }

  predicate NotSlash(c: char) { c != '/' }

  predicate NotSpace(c: char) { !IsSpace(c) }

  /** Whitespace-separated words. */
  function Words(s: string): seq<string>
    decreases |s|
  {
    if s == "" then []
    else if IsSpace(s[0]) then Words(s[1..])
    else
      var w := TakeWhile(NotSpace, s);
      assert w != "";
      [w] + Words(s[|w|..])
  }

  /** One word into the fields: words without `=` are skipped, the first `=` separates. */
  function AddWord(fields: map<string, string>, word: string): map<string, string> {
    var k := TakeWhile(NotEquals, word);
    if |k| == |word| then fields else fields[k := word[|k| + 1..]]
  }

  function AddWords(fields: map<string, string>, words: seq<string>): map<string, string>
    decreases |words|
  {
    if words == [] then fields else AddWords(AddWord(fields, words[0]), words[1..])
  }

  /** What follows the tag: the closing bracket and the fields. */
  function ParseTail(ts: string, s: string): Option<Event> {
    var tag := TakeWhile(IsTagChar, s);
    if tag == "" || |tag| == |s| || s[|tag|] != ']' then None
    else Some(Event(ts, tag, AddWords(map[], Words(s[|tag| + 1..]))))
  }

  /** What follows the bracketed timestamp. */
  function ParseAfterTs(ts: string, s: string): Option<Event> {
    var gap := TakeWhile(IsSpace, s);
    var t := s[|gap|..];
    if gap == "" || !(MARKER <= t) then None
    else
      var u := t[|MARKER|..];
      var space := TakeWhile(IsSpace, u);
      if space == "" then None else ParseTail(ts, u[|space|..])
  }

  /** A line in the monitor's format, or nothing. */
  function ParseLine(line: string): Option<Event> {
    if line == "" || line[0] != '[' then None
    else
      var ts := TakeWhile(NotBracket, line[1..]);
      if ts == "" || |ts| + 1 == |line| then None
      else ParseAfterTs(ts, line[|ts| + 2..])
  }

  function ParseAll(lines: seq<string>): seq<Event> {
    if lines == [] then []
    else
      var front := ParseAll(lines[..|lines| - 1]);
      match ParseLine(lines[|lines| - 1])
      case None => front
      case Some(e) => front + [e]
  }

  /** `parse_progress_events`: lines in another format are skipped. */
  method ParseProgressEvents(lines: seq<string>) returns (events: seq<Event>)
    ensures events == ParseAll(lines)
    ensures |events| == |Where(Parses, lines)|
    ensures forall c :: 0 <= c < |events| ==>
      Where(Parses, lines)[c] < |lines| && ParseLine(lines[Where(Parses, lines)[c]]) == Some(events[c])
  {
    EventsInOrder(lines);
    hide Where, ParseLine;
    events := [];
    for i := 0 to |lines|
      invariant events == ParseAll(lines[..i])
    {
      assert lines[..i + 1][..i] == lines[..i];
      var m := ParseLine(lines[i]);
      if m == None {
        continue;
      }
      events := events + [m.value];
    }
    assert lines[..|lines|] == lines;
  }

  // ----- Round trip -----

  ghost predicate ValidField(k: string, v: string) {
    k != "" && NoSpace(k) && NoSpace(v) && forall i :: 0 <= i < |k| ==> k[i] != '='
  }

  ghost predicate ValidHead(ts: string, tag: string) {
    && ts != "" && (forall i :: 0 <= i < |ts| ==> ts[i] != ']')
    && tag != "" && (forall i :: 0 <= i < |tag| ==> IsTagChar(tag[i]))
  }

  function MapOf(fields: Fields, m: map<string, string>): map<string, string> {
    if fields == [] then m else MapOf(fields[1..], m[fields[0].0 := fields[0].1])
  }

  lemma WordSplit(k: string, v: string, m: map<string, string>)
    requires ValidField(k, v)
    ensures AddWord(m, k + "=" + v) == m[k := v]
  {
    var word := k + "=" + v;
    assert word == k + ("=" + v);
    TakeExactly(NotEquals, k, "=" + v);
    assert word[|k| + 1..] == v;
  }

  lemma FirstWord(word: string, rest: string)
    requires word != "" && NoSpace(word) && (rest != "" ==> rest[0] == ' ')
    ensures Words(" " + word + rest) == [word] + Words(rest)
  {
    var s := " " + word + rest;
    assert s[1..] == word + rest;
    TakeExactly(NotSpace, word, rest);
    assert (word + rest)[|word|..] == rest;
  }

  lemma FieldsTextStart(fields: Fields)
    ensures FieldsText(fields) != "" ==> FieldsText(fields)[0] == ' '
  {
  }

  lemma {:induction false} FieldsRoundTrip(fields: Fields, m: map<string, string>)
    requires forall i :: 0 <= i < |fields| ==> ValidField(fields[i].0, fields[i].1)
    ensures AddWords(m, Words(FieldsText(fields))) == MapOf(fields, m)
  {
    if fields != [] {
      var (k, v) := fields[0];
      assert ValidField(fields[0].0, fields[0].1);
      var word := k + "=" + v;
      var rest := FieldsText(fields[1..]);
      FieldsTextStart(fields[1..]);
      assert NoSpace(word);
      FirstWord(word, rest);
      WordSplit(k, v, m);
      hide Words, AddWord;
      assert ([word] + Words(rest))[1..] == Words(rest);
      FieldsRoundTrip(fields[1..], m[k := v]);
    }
  }

  /** With distinct keys the map holds exactly the printed fields. */
  lemma {:induction false} MapHasFields(fields: Fields, m: map<string, string>)
    requires forall i, j :: 0 <= i < j < |fields| ==> fields[i].0 != fields[j].0
    ensures forall i :: 0 <= i < |fields| ==> fields[i].0 in MapOf(fields, m) && MapOf(fields, m)[fields[i].0] == fields[i].1
    ensures forall k :: (forall i :: 0 <= i < |fields| ==> fields[i].0 != k) ==>
      (k in MapOf(fields, m) <==> k in m) && (k in m ==> MapOf(fields, m)[k] == m[k])
  {
    if fields != [] {
      var rest, n := fields[1..], m[fields[0].0 := fields[0].1];
      MapHasFields(rest, n);
      assert forall i :: 0 <= i < |rest| ==> rest[i].0 != fields[0].0;
      forall i | 0 <= i < |fields|
        ensures fields[i].0 in MapOf(fields, m) && MapOf(fields, m)[fields[i].0] == fields[i].1
      {
        if i > 0 {
          assert rest[i - 1] == fields[i];
        }
      }
    }
  }

  lemma TailParses(ts: string, tag: string, text: string)
    requires ValidHead(ts, tag)
    ensures ParseTail(ts, tag + "]" + text) == Some(Event(ts, tag, AddWords(map[], Words(text))))
  {
    hide Words, AddWords;
    var s := tag + "]" + text;
    assert s == tag + ("]" + text);
    TakeExactly(IsTagChar, tag, "]" + text);
    assert s[|tag| + 1..] == text;
  }

  lemma AfterTsRoundTrip(ts: string, marker: string, tail: string)
    requires marker == MARKER && tail != "" && !IsSpace(tail[0])
    ensures ParseAfterTs(ts, " " + marker + " " + tail) == ParseTail(ts, tail)
  {
    hide ParseTail;
    var s := " " + marker + " " + tail;
    assert s == " " + (marker + " " + tail);
    assert marker[0] == '[';
    TakeExactly(IsSpace, " ", marker + " " + tail);
    assert s[1..] == marker + (" " + tail);
    TakeExactly(IsSpace, " ", tail);
    assert (" " + tail)[1..] == tail;
  }

  /** Whatever text follows it, a printed head is read back, and the text gives the fields. */
  lemma LineParses(ts: string, tag: string, text: string)
    requires ValidHead(ts, tag)
    ensures ParseLine(Line(ts, tag, text)) == Some(Event(ts, tag, AddWords(map[], Words(text))))
  {
    hide ParseAfterTs, ParseTail, ParseLine, Words, AddWords;
    var tail := tag + "]" + text;
    TailParses(ts, tag, text);
    AfterTsRoundTrip(ts, MARKER, tail);
    HeadRoundTrip(ts, MARKER, tail);
    LineShape(ts, MARKER, tag, text);
  }

  lemma LineShape(ts: string, marker: string, tag: string, text: string)
    ensures "[" + ts + "] " + marker + " " + tag + "]" + text
         == "[" + ts + "]" + (" " + marker + " " + (tag + "]" + text))
  {
    assert "] " == "]" + " ";
  }

  lemma HeadRoundTrip(ts: string, marker: string, tail: string)
    requires ts != "" && forall i :: 0 <= i < |ts| ==> ts[i] != ']'
    ensures ParseLine("[" + ts + "]" + (" " + marker + " " + tail)) == ParseAfterTs(ts, " " + marker + " " + tail)
  {
    hide ParseAfterTs;
    var after := " " + marker + " " + tail;
    var line := "[" + ts + "]" + after;
    assert line[1..] == ts + ("]" + after);
    TakeExactly(NotBracket, ts, "]" + after);
    assert line[|ts| + 2..] == after;
  }

  ghost predicate NoSpaceValues(m: map<string, string>) {
    forall k :: k in m ==> NoSpace(m[k])
  }

  lemma {:induction false} WordsHaveNoSpace(s: string)
    ensures forall i :: 0 <= i < |Words(s)| ==> NoSpace(Words(s)[i])
    decreases |s|
  {
    if s != "" {
      if IsSpace(s[0]) {
        WordsHaveNoSpace(s[1..]);
      } else {
        var w := TakeWhile(NotSpace, s);
        TakenAll(NotSpace, s);
        WordsHaveNoSpace(s[|w|..]);
      }
    }
  }

  lemma {:induction false} TakenAll(p: char -> bool, s: string)
    ensures forall i :: 0 <= i < |TakeWhile(p, s)| ==> p(TakeWhile(p, s)[i])
  {
    if s != "" && p(s[0]) {
      TakenAll(p, s[1..]);
    }
  }

  /** A parsed value never holds white space. */
  lemma {:induction false} ParsedValuesHaveNoSpace(m: map<string, string>, words: seq<string>)
    requires NoSpaceValues(m) && forall i :: 0 <= i < |words| ==> NoSpace(words[i])
    ensures NoSpaceValues(AddWords(m, words))
    decreases |words|
  {
    if words != [] {
      assert NoSpaceValues(AddWord(m, words[0]));
      hide AddWord;
      ParsedValuesHaveNoSpace(AddWord(m, words[0]), words[1..]);
    }
  }

  /** The printer's own keys: words without `=`, each once. */
  ghost predicate ValidKeys(fields: Fields) {
    && (forall i :: 0 <= i < |fields| ==>
          fields[i].0 != "" && NoSpace(fields[i].0) && forall j :: 0 <= j < |fields[i].0| ==> fields[i].0[j] != '=')
    && (forall i, j :: 0 <= i < j < |fields| ==> fields[i].0 != fields[j].0)
  }

  ghost predicate NoSpaceFields(fields: Fields) {
    forall i :: 0 <= i < |fields| ==> NoSpace(fields[i].1)
  }

  /** What `_progress` prints is read back, timestamp, tag and exactly the fields, if and only if no value
      holds white space; timestamp and tag are read back in any case. */
  lemma ProgressRoundTrip(ts: string, tag: string, fields: Fields)
    requires ValidHead(ts, tag) && ValidKeys(fields)
    ensures ParseLine(Render(ts, tag, fields)).Some?
    ensures var e := ParseLine(Render(ts, tag, fields)).value;
      && e.ts == ts && e.tag == tag
      && (e.fields == MapOf(fields, map[]) <==> NoSpaceFields(fields))
    ensures forall i :: 0 <= i < |fields| ==>
      fields[i].0 in MapOf(fields, map[]) && MapOf(fields, map[])[fields[i].0] == fields[i].1
    ensures forall k :: k in MapOf(fields, map[]) ==> exists i :: 0 <= i < |fields| && fields[i].0 == k
  {
    hide ParseLine, Words, AddWords, MapOf, FieldsText, Line;
    MapHasFields(fields, map[]);
    LineParses(ts, tag, FieldsText(fields));
    WordsHaveNoSpace(FieldsText(fields));
    ParsedValuesHaveNoSpace(map[], Words(FieldsText(fields)));
    if NoSpaceFields(fields) {
      FieldsRoundTrip(fields, map[]);
    }
    if AddWords(map[], Words(FieldsText(fields))) == MapOf(fields, map[]) {
      forall i | 0 <= i < |fields| ensures NoSpace(fields[i].1) {
        assert fields[i].0 in MapOf(fields, map[]);
      }
    }
  }

  // ----- A field under later words -----

  /** The value of the last word that sets key `k`, if any does. */
  function LastValue(k: string, words: seq<string>): Option<string>
    decreases |words|
  {
    if words == [] then None
    else
      var later := LastValue(k, words[1..]);
      if later.Some? then later
      else if TakeWhile(NotEquals, words[0]) == k && |k| < |words[0]| then Some(words[0][|k| + 1..]) else None
  }

  /** A field keeps its value if and only if no later word sets it; otherwise the last one counts. */
  lemma {:induction false} LastWordCounts(m: map<string, string>, words: seq<string>, k: string)
    ensures var fields := AddWords(m, words);
      match LastValue(k, words)
      case Some(v) => k in fields && fields[k] == v
      case None => (k in fields <==> k in m) && (k in m ==> fields[k] == m[k])
    decreases |words|
  {
    if words != [] {
      LastWordCounts(AddWord(m, words[0]), words[1..], k);
    }
  }

  predicate Parses(line: string) {
    ParseLine(line).Some?
  }

  /** The events are those of the lines in the format, one each, in their order. */
  lemma {:induction false} EventsInOrder(lines: seq<string>)
    ensures var w, events := Where(Parses, lines), ParseAll(lines);
      |events| == |w| && forall c :: 0 <= c < |w| ==> w[c] < |lines| && ParseLine(lines[w[c]]) == Some(events[c])
  {
    hide ParseLine;
    if lines != [] {
      var front := lines[..|lines| - 1];
      EventsInOrder(front);
      var w := Where(Parses, front);
      forall c | 0 <= c < |w| ensures lines[w[c]] == front[w[c]] {
      }
    }
  }
}
