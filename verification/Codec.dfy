/** One checkpoint record as one line of text: a braced list of quoted, escaped strings.
    It stands in for the JSON object the source prints; what matters is that a record's text
    contains no newline and that no proper prefix of it reads back as a record. */
module Codec {
  import opened Common

  function Escape(c: char): (s: string)
    ensures s != ""
  {
    if c == '"' then "\\\"" else if c == '\\' then "\\\\"
    else if c == '\n' then "\\n" else if c == '\r' then "\\r" else [c]
  }

  function Unescape(c: char): Option<char> {
    if c == '"' || c == '\\' then Some(c)
    else if c == 'n' then Some('\n') else if c == 'r' then Some('\r') else None
  }

  /** The escaped text of a field, with its closing quote. */
  function QuoteBody(s: string): string {
    if s == "" then "\"" else Escape(s[0]) + QuoteBody(s[1..])
  }

  function QuoteAll(fields: seq<string>): string {
    if fields == [] then "}" else "\"" + QuoteBody(fields[0]) + QuoteAll(fields[1..])
  }

  function Encode(fields: seq<string>): string {
    "{" + QuoteAll(fields)
  }

  /** Reads up to the closing quote: the field and the text after it. */
  function ReadBody(s: string): (r: Option<(string, string)>)
    ensures r.Some? ==> |r.value.1| < |s|
  {
    if s == "" || s[0] == '\n' || s[0] == '\r' then None
    else if s[0] == '"' then Some(("", s[1..]))
    else if s[0] == '\\' then
      if |s| < 2 then None
      else
        match Unescape(s[1])
        case None => None
        case Some(c) => Prepend(c, ReadBody(s[2..]))
    else Prepend(s[0], ReadBody(s[1..]))
  }

  function Prepend(c: char, r: Option<(string, string)>): Option<(string, string)> {
    match r
    case None => None
    case Some((x, rest)) => Some(([c] + x, rest))
  }

  function ReadFields(s: string): Option<(seq<string>, string)>
    decreases |s|
  {
    if s == "" then None
    else if s[0] == '}' then Some(([], s[1..]))
    else if s[0] != '"' then None
    else
      match ReadBody(s[1..])
      case None => None
      case Some((f, rest)) =>
        match ReadFields(rest)
        case None => None
        case Some((fs, tail)) => Some(([f] + fs, tail))
  }

  function ReadRecord(s: string): Option<(seq<string>, string)> {
    if s == "" || s[0] != '{' then None else ReadFields(s[1..])
  }

  /** The fields of a line that is exactly one record. */
  function Decode(line: string): Option<seq<string>> {
    match ReadRecord(line)
    case None => None
    case Some((fs, rest)) => if rest == "" then Some(fs) else None
  }

  // ----- Round trip -----

  lemma ReadEscaped(c: char, rest: string)
    ensures ReadBody(Escape(c) + rest) == Prepend(c, ReadBody(rest))
  {
    var s := Escape(c) + rest;
    assert s[|Escape(c)|..] == rest;
  }

  lemma {:induction false} ReadBodyRoundTrip(x: string, t: string)
    ensures ReadBody(QuoteBody(x) + t) == Some((x, t))
  {
    hide ReadBody, Escape;
    if x == "" {
      ReadClosing(t);
    } else {
      var e, body := Escape(x[0]), QuoteBody(x[1..]);
      ReadBodyRoundTrip(x[1..], t);
      ReadEscaped(x[0], body + t);
      assert (e + body) + t == e + (body + t);
      hide QuoteBody;
      assert [x[0]] + x[1..] == x;
    }
  }

  lemma ReadClosing(t: string)
    ensures ReadBody("\"" + t) == Some(("", t))
  {
    assert ("\"" + t)[1..] == t;
  }

  lemma {:induction false} ReadFieldsRoundTrip(fs: seq<string>, t: string)
    ensures ReadFields(QuoteAll(fs) + t) == Some((fs, t))
  {
    var s := QuoteAll(fs) + t;
    if fs == [] {
      assert s[1..] == t;
    } else {
      var rest := QuoteAll(fs[1..]) + t;
      ReadBodyRoundTrip(fs[0], rest);
      assert s[1..] == QuoteBody(fs[0]) + rest;
      ReadFieldsRoundTrip(fs[1..], t);
      assert [fs[0]] + fs[1..] == fs;
    }
  }

  lemma ReadRecordRoundTrip(fs: seq<string>, t: string)
    ensures ReadRecord(Encode(fs) + t) == Some((fs, t))
  {
    assert (Encode(fs) + t)[1..] == QuoteAll(fs) + t;
    ReadFieldsRoundTrip(fs, t);
  }

  /** Every record reads back as itself. */
  lemma RoundTrip(fs: seq<string>)
    ensures Decode(Encode(fs)) == Some(fs)
  {
    ReadRecordRoundTrip(fs, "");
    assert Encode(fs) + "" == Encode(fs);
  }

  // ----- A torn record never parses -----

  lemma {:induction false} ReadBodyExtend(s: string, t: string)
    requires ReadBody(s).Some?
    ensures ReadBody(s + t) == Some((ReadBody(s).value.0, ReadBody(s).value.1 + t))
  {
    if s[0] == '"' {
      assert (s + t)[1..] == s[1..] + t;
    } else if s[0] == '\\' {
      ReadBodyExtend(s[2..], t);
      assert (s + t)[2..] == s[2..] + t;
    } else {
      ReadBodyExtend(s[1..], t);
      assert (s + t)[1..] == s[1..] + t;
    }
  }

  /** What has been read stays read when more text follows. */
  lemma {:induction false} ReadFieldsExtend(s: string, t: string)
    requires ReadFields(s).Some?
    ensures ReadFields(s + t) == Some((ReadFields(s).value.0, ReadFields(s).value.1 + t))
    decreases |s|
  {
    assert (s + t)[1..] == s[1..] + t;
    if s[0] != '}' {
      ReadBodyExtend(s[1..], t);
      ReadFieldsExtend(ReadBody(s[1..]).value.1, t);
    }
  }

  /** A record cut short does not read back as any record. */
  lemma ProperPrefixNeverParses(fs: seq<string>, cut: nat)
    requires cut < |Encode(fs)|
    ensures ReadRecord(Encode(fs)[..cut]) == None
    ensures Decode(Encode(fs)[..cut]) == None
  {
    var whole := Encode(fs);
    hide ReadFields, QuoteAll;
    if cut > 0 {
      assert whole[..cut][1..] + whole[cut..] == QuoteAll(fs);
      TornFields(fs, whole[..cut][1..], whole[cut..]);
    }
  }

  lemma TornFields(fs: seq<string>, p: string, q: string)
    requires p + q == QuoteAll(fs) && q != ""
    ensures ReadFields(p) == None
  {
    hide ReadFields, QuoteAll;
    if ReadFields(p).Some? {
      ReadFieldsExtend(p, q);
      assert QuoteAll(fs) + "" == p + q;
      ReadFieldsRoundTrip(fs, "");
      assert false;
    }
  }

  // ----- Pieces glued together are lost -----

  /** First field begins with a letter, as every `kind` does. */
  predicate StartsWithLetter(fs: seq<string>) {
    fs != [] && fs[0] != "" && 'a' <= fs[0][0] <= 'z'
  }

  /** Text that begins as beginnings of records do: some braces, and if there is more, a quote that
      neither a quote nor a closing brace follows. */
  predicate Glue(g: string) {
    g == "" || (g[0] == '{' && AfterBrace(g[1..]))
  }

  predicate AfterBrace(h: string) {
    h == "" || (h[0] == '"' && NoFieldsIn(h[1..])) || (h[0] == '{' && AfterBrace(h[1..]))
  }

  /** No list of fields starts here. */
  predicate NoFieldsIn(s: string) {
    s == "" || (s[0] != '}' && s[0] != '"')
  }

  lemma NoFieldsAt(s: string)
    requires NoFieldsIn(s)
    ensures ReadFields(s) == None
  {
  }

  lemma {:induction false} AfterBraceCut(h: string, n: nat)
    requires AfterBrace(h) && n <= |h|
    ensures AfterBrace(h[..n])
  {
    if n > 0 {
      assert h[..n][1..] == h[1..][..n - 1];
      if h[0] == '{' {
        AfterBraceCut(h[1..], n - 1);
      }
    }
  }

  lemma GlueCut(g: string, n: nat)
    requires Glue(g) && n <= |g|
    ensures Glue(g[..n])
  {
    if n > 0 {
      assert g[..n][1..] == g[1..][..n - 1];
      AfterBraceCut(g[1..], n - 1);
    }
  }

  /** A beginning of a record in front of such text gives such text again. */
  lemma PieceGlue(fs: seq<string>, cut: nat, g: string)
    requires StartsWithLetter(fs) && 0 < cut <= |Encode(fs)| && Glue(g)
    ensures Glue(Encode(fs)[..cut] + g)
  {
    var piece := Encode(fs)[..cut];
    var text := piece + g;
    EncodeOpens(fs);
    hide Encode;
    if cut == 1 {
      assert text[1..] == g;
    } else if cut == 2 {
      assert text[1..][1..] == g;
    } else {
      assert text[1] == '"' && 'a' <= text[1..][1..][0] <= 'z';
    }
  }

  lemma EncodeOpens(fs: seq<string>)
    requires StartsWithLetter(fs)
    ensures |Encode(fs)| > 2 && Encode(fs)[0] == '{' && Encode(fs)[1] == '"' && 'a' <= Encode(fs)[2] <= 'z'
  {
    var body := QuoteBody(fs[0]);
    assert Encode(fs) == "{" + ("\"" + body + QuoteAll(fs[1..]));
    assert body == Escape(fs[0][0]) + QuoteBody(fs[0][1..]);
    assert body[0] == fs[0][0];
    assert Encode(fs)[2] == body[0];
  }

  /** A torn string either swallows the glued text or is closed by its first quote. */
  lemma {:induction false} ReadAfterBrace(h: string)
    requires AfterBrace(h)
    ensures ReadBody(h).None? || NoFieldsIn(ReadBody(h).value.1)
  {
    if h != "" && h[0] == '{' {
      ReadAfterBrace(h[1..]);
      assert ReadBody(h) == Prepend('{', ReadBody(h[1..]));
    }
  }

  lemma {:induction false} GluedInsideString(x: string, cut: nat, g: string)
    requires cut < |QuoteBody(x)| && Glue(g)
    ensures var r := ReadBody(QuoteBody(x)[..cut] + g); r.None? || NoFieldsIn(r.value.1)
  {
    hide ReadBody, Glue, AfterBrace, NoFieldsIn;
    var p := QuoteBody(x)[..cut];
    if cut == 0 {
      assert p + g == g;
      ReadGlue(g);
    } else {
      var e := Escape(x[0]);
      if cut < |e| {
        assert p == "\\";
        BrokenEscape(g);
      } else {
        var left := QuoteBody(x[1..])[..cut - |e|];
        GluedInsideString(x[1..], cut - |e|, g);
        assert p == e + left;
        hide QuoteBody, Escape;
        assert p + g == e + (left + g);
        ReadEscaped(x[0], left + g);
      }
    }
  }

  lemma ReadGlue(g: string)
    requires Glue(g)
    ensures ReadBody(g).None? || NoFieldsIn(ReadBody(g).value.1)
  {
    if g != "" {
      ReadAfterBrace(g[1..]);
      assert ReadBody(g) == Prepend('{', ReadBody(g[1..]));
    }
  }

  lemma BrokenEscape(g: string)
    requires Glue(g)
    ensures ReadBody("\\" + g) == None
  {
    if g != "" {
      assert |"\\" + g| >= 2 && ("\\" + g)[1] == '{';
      assert Unescape('{') == None;
    }
  }

  lemma {:induction false} GluedFields(fs: seq<string>, cut: nat, g: string)
    requires cut < |QuoteAll(fs)| && Glue(g)
    ensures ReadFields(QuoteAll(fs)[..cut] + g) == None
    decreases |fs|
  {
    hide QuoteBody, ReadBody, ReadFields, AfterBrace;
    if cut == 0 {
      assert QuoteAll(fs)[..cut] + g == g;
      NoFieldsAt(g);
    } else {
      var body := QuoteBody(fs[0]);
      if cut - 1 < |body| {
        var text := body[..cut - 1] + g;
        GluedInsideString(fs[0], cut - 1, g);
        assert QuoteAll(fs)[..cut] + g == "\"" + text;
        if ReadBody(text).Some? {
          NoFieldsAt(ReadBody(text).value.1);
        }
        FieldFirst(text);
      } else {
        var left := cut - 1 - |body|;
        var more := QuoteAll(fs[1..])[..left] + g;
        QuoteAllCut(fs, left);
        assert QuoteAll(fs)[..cut] + g == "\"" + (body + more);
        hide QuoteAll;
        ReadBodyRoundTrip(fs[0], more);
        GluedFields(fs[1..], left, g);
        FieldFirst(body + more);
      }
    }
  }

  lemma QuoteAllCut(fs: seq<string>, left: nat)
    requires fs != [] && left < |QuoteAll(fs[1..])|
    ensures 1 + |QuoteBody(fs[0])| + left < |QuoteAll(fs)|
    ensures QuoteAll(fs)[..1 + |QuoteBody(fs[0])| + left] == "\"" + QuoteBody(fs[0]) + QuoteAll(fs[1..])[..left]
  {
    hide QuoteBody;
  }

  lemma FieldFirst(s: string)
    ensures ReadBody(s) == None ==> ReadFields("\"" + s) == None
    ensures ReadBody(s).Some? && ReadFields(ReadBody(s).value.1) == None ==> ReadFields("\"" + s) == None
  {
    assert ("\"" + s)[1..] == s;
  }

  lemma EncodeCut(fs: seq<string>, cut: nat, t: string)
    requires 0 < cut <= |Encode(fs)|
    ensures ReadRecord(Encode(fs)[..cut] + t) == ReadFields(QuoteAll(fs)[..cut - 1] + t)
  {
    hide ReadFields, QuoteAll;
    assert (Encode(fs)[..cut] + t)[1..] == QuoteAll(fs)[..cut - 1] + t;
  }

  /** A non-empty beginning of a record, even all of it, with beginnings of others behind it on the same
      line reads back as nothing. */
  lemma GluedNeverParses(fs: seq<string>, cut: nat, g: string)
    requires 0 < cut <= |Encode(fs)| && g != "" && Glue(g)
    ensures Decode(Encode(fs)[..cut] + g) == None
  {
    hide ReadFields, QuoteAll, ReadRecord, Glue;
    if cut == |Encode(fs)| {
      ReadRecordRoundTrip(fs, g);
      assert Encode(fs)[..cut] == Encode(fs);
    } else {
      GluedFields(fs, cut - 1, g);
      EncodeCut(fs, cut, g);
    }
  }

  // ----- Shape of an encoded line -----

  lemma {:induction false} QuoteBodyNoNewline(x: string)
    ensures '\n' !in QuoteBody(x)
  {
    if x != "" {
      QuoteBodyNoNewline(x[1..]);
    }
  }

  lemma {:induction false} QuoteAllShape(fs: seq<string>)
    ensures '\n' !in QuoteAll(fs)
    ensures QuoteAll(fs) != "" && QuoteAll(fs)[|QuoteAll(fs)| - 1] == '}'
  {
    if fs != [] {
      QuoteBodyNoNewline(fs[0]);
      QuoteAllShape(fs[1..]);
    }
  }

  lemma EncodeShape(fs: seq<string>)
    ensures '\n' !in Encode(fs)
    ensures |Encode(fs)| > 1 && Encode(fs)[0] == '{' && Encode(fs)[|Encode(fs)| - 1] == '}'
  {
    QuoteAllShape(fs);
  }
}
