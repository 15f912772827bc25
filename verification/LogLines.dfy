/** Text files as newline-terminated lines. */
module LogLines {

  /** ASCII white space. */
  predicate IsSpace(c: char) {
    c == ' ' || c == '\t' || c == '\r' || c == '\n'
  }

  function JoinLines(lines: seq<string>): string {
    if lines == [] then "" else lines[0] + "\n" + JoinLines(lines[1..])
  }

  function NewlineAt(text: string): (i: nat)
    ensures i <= |text| && '\n' !in text[..i]
    ensures i < |text| ==> text[i] == '\n'
  {
    if text == "" || text[0] == '\n' then 0 else 1 + NewlineAt(text[1..])
  }

  /** The lines of a file, an unterminated last one included. */
  function Lines(text: string): seq<string>
    decreases |text|
  {
    if text == "" then []
    else
      var i := NewlineAt(text);
      if i == |text| then [text] else [text[..i]] + Lines(text[i + 1..])
  }

  ghost predicate NoNewlines(lines: seq<string>) {
    forall i :: 0 <= i < |lines| ==> '\n' !in lines[i]
  }

  lemma {:induction false} NewlineAtFirst(a: string, b: string)
    requires '\n' !in a
    ensures NewlineAt(a + "\n" + b) == |a|
  {
    var text := a + "\n" + b;
    if a != "" {
      assert text[1..] == a[1..] + "\n" + b;
      NewlineAtFirst(a[1..], b);
    }
  }

  lemma {:induction false} NewlineAbsent(a: string)
    requires '\n' !in a
    ensures NewlineAt(a) == |a|
  {
    if a != "" {
      NewlineAbsent(a[1..]);
    }
  }

  lemma FirstLine(line: string, rest: string)
    requires '\n' !in line
    ensures Lines(line + "\n" + rest) == [line] + Lines(rest)
  {
    var text := line + "\n" + rest;
    NewlineAtFirst(line, rest);
    hide NewlineAt;
    assert text[..|line|] == line && text[|line| + 1..] == rest;
  }

  /** Splitting joined lines gives them back, followed by the unterminated tail if there is one. */
  lemma {:induction false} LinesOfJoined(lines: seq<string>, tail: string)
    requires NoNewlines(lines) && '\n' !in tail
    ensures Lines(JoinLines(lines) + tail) == lines + (if tail == "" then [] else [tail])
  {
    if lines == [] {
      NewlineAbsent(tail);
      assert JoinLines(lines) + tail == tail;
    } else {
      var rest := JoinLines(lines[1..]) + tail;
      LinesOfJoined(lines[1..], tail);
      FirstLine(lines[0], rest);
      assert JoinLines(lines) + tail == lines[0] + "\n" + rest;
      hide Lines;
      assert [lines[0]] + lines[1..] == lines;
    }
  }

  lemma {:induction false} JoinLinesConcat(a: seq<string>, b: seq<string>)
    ensures JoinLines(a + b) == JoinLines(a) + JoinLines(b)
  {
    if a == [] {
      assert a + b == b;
    } else {
      JoinLinesConcat(a[1..], b);
      assert (a + b)[1..] == a[1..] + b;
    }
  }

  lemma JoinLinesSnoc(a: seq<string>, line: string)
    ensures JoinLines(a + [line]) == JoinLines(a) + line + "\n"
  {
    JoinLinesConcat(a, [line]);
    assert JoinLines([line]) == line + "\n" + "";
  }

  /** Cutting a joined text at any character leaves some whole lines and a cut of the next one. */
  lemma {:induction false} CutOfJoined(lines: seq<string>, cut: nat) returns (whole: nat, part: nat)
    requires cut <= |JoinLines(lines)| && lines != []
    ensures whole < |lines| && part <= |lines[whole]| + 1
    ensures JoinLines(lines)[..cut] == JoinLines(lines[..whole]) + (lines[whole] + "\n")[..part]
    ensures cut == |JoinLines(lines[..whole])| + part
  {
    hide JoinLines;
    var first := lines[0] + "\n";
    NothingJoined("");
    FirstJoined(lines);
    if cut <= |first| {
      whole, part := 0, cut;
      assert lines[..0] == [];
      assert (first + JoinLines(lines[1..]))[..cut] == first[..cut];
      assert "" + first[..cut] == first[..cut];
    } else {
      whole, part := CutOfJoined(lines[1..], cut - |first|);
      FirstBeforeRest(lines, whole);
      CutBehind(first, JoinLines(lines[1..]), cut);
      Regroup(first, JoinLines(lines[1..][..whole]), (lines[1..][whole] + "\n")[..part]);
      whole := whole + 1;
    }
  }

  lemma FirstJoined(lines: seq<string>)
    requires lines != []
    ensures JoinLines(lines) == lines[0] + "\n" + JoinLines(lines[1..])
  {
  }

  lemma CutBehind(first: string, rest: string, cut: nat)
    requires |first| <= cut <= |first| + |rest|
    ensures (first + rest)[..cut] == first + rest[..cut - |first|]
  {
  }

  lemma Regroup(a: string, b: string, c: string)
    ensures a + (b + c) == a + b + c
  {
  }

  lemma FirstBeforeRest(lines: seq<string>, n: nat)
    requires lines != [] && n <= |lines| - 1
    ensures JoinLines(lines[..n + 1]) == lines[0] + "\n" + JoinLines(lines[1..][..n])
  {
    assert lines[..n + 1][1..] == lines[1..][..n];
  }

  /** Whole lines come first, whatever follows them. */
  lemma {:induction false} LinesThenRest(lines: seq<string>, rest: string)
    requires NoNewlines(lines)
    ensures Lines(JoinLines(lines) + rest) == lines + Lines(rest)
  {
    hide Lines, JoinLines;
    if lines == [] {
      NothingJoined(rest);
      assert lines + Lines(rest) == Lines(rest);
    } else {
      LinesThenRest(lines[1..], rest);
      FirstLine(lines[0], JoinLines(lines[1..]) + rest);
      FirstOfJoined(lines, rest);
      Reassociate(lines, Lines(rest));
    }
  }

  lemma Reassociate(lines: seq<string>, more: seq<string>)
    requires lines != []
    ensures [lines[0]] + (lines[1..] + more) == lines + more
  {
  }

  lemma NothingJoined(rest: string)
    ensures JoinLines([]) + rest == rest
    ensures JoinLines([]) == ""
  {
  }

  lemma FirstOfJoined(lines: seq<string>, rest: string)
    requires lines != []
    ensures JoinLines(lines) + rest == lines[0] + "\n" + (JoinLines(lines[1..]) + rest)
  {
  }
}
