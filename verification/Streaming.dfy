/** Cumulative engine outputs cut into stream chunks, and chunks into server-sent events. */
module Streaming {
  import opened Common
  import opened Arithmetic
  import opened Mock

  datatype Chunk = Chunk(delta: string, finish: string, index: nat)

  datatype Response = Response(content: string, finish: string, completionTokens: nat)

  // ----- Requests -----

  /** The parts with a line break between neighbours. */
  function BreakBetween(parts: seq<string>): string {
    if parts == [] then ""
    else if |parts| == 1 then parts[0]
    else parts[0] + "\n" + BreakBetween(parts[1..])
  }

  function NonEmpty(parts: seq<string>): (r: seq<string>)
    ensures forall i :: 0 <= i < |r| ==> r[i] != ""
  {
    if parts == [] then [] else (if parts[0] != "" then [parts[0]] else []) + NonEmpty(parts[1..])
  }

  /** The prompt text of a request: never empty, so the engine's empty-prompt error cannot arise. */
  function PromptText(contents: seq<string>): (prompt: string)
    ensures prompt != ""
  {
    var parts := NonEmpty(contents);
    if parts == [] then "default" else BreakBetween(parts)
  }

  ghost predicate SaysSomething(contents: seq<string>) {
    exists i :: 0 <= i < |contents| && contents[i] != ""
  }

  lemma {:induction false} NonEmptyConcat(a: seq<string>, b: seq<string>)
    ensures NonEmpty(a + b) == NonEmpty(a) + NonEmpty(b)
  {
    if a == [] {
      assert a + b == b;
    } else {
      assert (a + b)[1..] == a[1..] + b;
      NonEmptyConcat(a[1..], b);
    }
  }

  lemma {:induction false} NonEmptyIff(contents: seq<string>)
    ensures NonEmpty(contents) == [] <==> !SaysSomething(contents)
  {
    if contents != [] {
      NonEmptyIff(contents[1..]);
      if SaysSomething(contents[1..]) {
        var i :| 0 <= i < |contents[1..]| && contents[1..][i] != "";
        assert contents[i + 1] != "";
      } else {
        forall i | 1 <= i < |contents| ensures contents[i] == "" {
          assert contents[1..][i - 1] == contents[i];
        }
      }
    }
  }

  lemma {:induction false} BreakBetweenConcat(a: seq<string>, b: seq<string>)
    requires a != [] && b != []
    ensures BreakBetween(a + b) == BreakBetween(a) + "\n" + BreakBetween(b)
  {
    if |a| == 1 {
      assert (a + b)[1..] == b;
    } else {
      assert (a + b)[1..] == a[1..] + b;
      BreakBetweenConcat(a[1..], b);
    }
  }

  /** The prompt text by cases: a stock text when nothing is said; one message's content as it is; and for
      messages that say something before others that do, their texts on lines of their own. Messages that
      say nothing do not show. */
  lemma PromptTextBy(a: seq<string>, b: seq<string>, content: string)
    ensures !SaysSomething(a) ==> PromptText(a) == "default" && PromptText(a + b) == PromptText(b)
    ensures !SaysSomething(b) ==> PromptText(a + b) == PromptText(a)
    ensures content != "" ==> PromptText([content]) == content
    ensures SaysSomething(a) && SaysSomething(b) ==> PromptText(a + b) == PromptText(a) + "\n" + PromptText(b)
  {
    NonEmptyIff(a);
    NonEmptyIff(b);
    NonEmptyConcat(a, b);
    var one := [content];
    assert one[1..] == [] && NonEmpty(one[1..]) == [];
    assert content != "" ==> NonEmpty(one) == one && BreakBetween(one) == content;
    if SaysSomething(a) && SaysSomething(b) {
      BreakBetweenConcat(NonEmpty(a), NonEmpty(b));
    }
    assert NonEmpty(a) + [] == NonEmpty(a) && [] + NonEmpty(b) == NonEmpty(b);
  }

  // ----- Chunks -----

  /** `text[len(prev):]`. */
  function Cut(text: string, prev: string): string {
    if |prev| <= |text| then text[|prev|..] else ""
  }

  /** What one output adds to the stream. */
  function ChunksOf(output: Output, prev: string, index: nat): seq<Chunk> {
    var delta := Cut(output.text, prev);
    var first := if delta != "" then [Chunk(delta, "", index)] else [];
    if output.finish != "" then first + [Chunk("", output.finish, index + |first|)] else first
  }

  /** The stream over a sequence of outputs: it stops at the first finish reason. */
  function Stream(outputs: seq<Output>, prev: string, index: nat): seq<Chunk> {
    if outputs == [] then []
    else
      var chunks := ChunksOf(outputs[0], prev, index);
      if outputs[0].finish != "" then chunks
      else chunks + Stream(outputs[1..], outputs[0].text, index + |chunks|)
  }

  /** How a stream ends for its caller. */
  datatype Ending = Returned | Aborted(details: string)

  /** The frontend's and the bench servicer's `CompleteStream`: `raised` is the engine's exception
      after its outputs, if any. The loop returns at a finish reason and never sees the exception. */
  method CompleteStream(outputs: seq<Output>, raised: Option<string>) returns (chunks: seq<Chunk>, ending: Ending)
    ensures chunks == Stream(outputs, "", 0)
    ensures ending == if Finishes(outputs) || raised == None then Returned else Aborted(raised.value)
  {
    hide Stream, Cut, Finishes, ChunksOf;
    chunks := [];
    NoneFinishes(outputs);
    var prev, index := "", 0;
    assert outputs[0..] == outputs;
    for i := 0 to |outputs|
      invariant index == |chunks|
      invariant forall k :: 0 <= k < i ==> outputs[k].finish == ""
      invariant Stream(outputs, "", 0) == chunks + Stream(outputs[i..], prev, index)
    {
      var output := outputs[i];
      StreamUnfolds(outputs, i, prev, index);
      ghost var before, added := chunks, ChunksOf(output, prev, index);
      ChunksAppended(chunks, output, prev, index);
      var delta := Cut(output.text, prev);
      prev := output.text;
      if delta != "" {
        chunks := chunks + [Chunk(delta, "", index)];
        index := index + 1;
      }
      if output.finish != "" {
        chunks := chunks + [Chunk("", output.finish, index)];
        FinishesIn(outputs, i);
        return chunks, Returned;
      }
      Regroup(before, added, Stream(outputs[i + 1..], prev, index));
    }
    assert outputs[|outputs|..] == [];
    StreamOfNone(prev, index);
    ending := if raised == None then Returned else Aborted(raised.value);
  }

  lemma ChunksAppended(chunks: seq<Chunk>, output: Output, prev: string, index: nat)
    ensures var delta := Cut(output.text, prev);
      var more := if delta != "" then chunks + [Chunk(delta, "", index)] else chunks;
      var next := if delta != "" then index + 1 else index;
      chunks + ChunksOf(output, prev, index)
        == if output.finish != "" then more + [Chunk("", output.finish, next)] else more
  {
    hide Cut;
  }

  lemma Regroup(a: seq<Chunk>, b: seq<Chunk>, c: seq<Chunk>)
    ensures a + (b + c) == a + b + c
  {
  }

  lemma NoneFinishes(outputs: seq<Output>)
    ensures !Finishes(outputs) <==> forall i :: 0 <= i < |outputs| ==> outputs[i].finish == ""
  {
  }

  lemma StreamOfNone(prev: string, index: nat)
    ensures Stream([], prev, index) == []
  {
  }

  lemma StreamUnfolds(outputs: seq<Output>, i: nat, prev: string, index: nat)
    requires i < |outputs|
    ensures var chunks := ChunksOf(outputs[i], prev, index);
      Stream(outputs[i..], prev, index)
      == if outputs[i].finish != "" then chunks
         else chunks + Stream(outputs[i + 1..], outputs[i].text, index + |chunks|)
  {
    assert outputs[i..][1..] == outputs[i + 1..];
  }

  ghost predicate Finishes(outputs: seq<Output>) {
    exists i :: 0 <= i < |outputs| && outputs[i].finish != ""
  }

  lemma FinishesIn(outputs: seq<Output>, i: nat)
    requires i < |outputs|
    ensures outputs[i].finish != "" ==> Finishes(outputs)
  {
  }

  /** The outputs the loop consumes. */
  function Consumed(outputs: seq<Output>): seq<Output> {
    if outputs == [] then []
    else if outputs[0].finish != "" then [outputs[0]]
    else [outputs[0]] + Consumed(outputs[1..])
  }

  /** Each text extends the one before it. */
  ghost predicate PrefixGrowing(outputs: seq<Output>, prev: string) {
    outputs == [] || (prev <= outputs[0].text && PrefixGrowing(outputs[1..], outputs[0].text))
  }

  function LastText(outputs: seq<Output>, prev: string): string {
    if outputs == [] then prev else outputs[|outputs| - 1].text
  }

  function Text(chunks: seq<Chunk>): string {
    if chunks == [] then "" else chunks[0].delta + Text(chunks[1..])
  }

  lemma {:induction false} TextConcat(a: seq<Chunk>, b: seq<Chunk>)
    ensures Text(a + b) == Text(a) + Text(b)
  {
    if a == [] {
      assert a + b == b;
    } else {
      assert (a + b)[1..] == a[1..] + b;
      TextConcat(a[1..], b);
    }
  }

  lemma ChunksOfText(output: Output, prev: string, index: nat)
    ensures Text(ChunksOf(output, prev, index)) == Cut(output.text, prev)
  {
    var delta := Cut(output.text, prev);
    var first := if delta != "" then [Chunk(delta, "", index)] else [];
    assert Text(first) == delta;
    TextConcat(first, [Chunk("", output.finish, index + |first|)]);
  }

  lemma CutExtends(text: string, prev: string)
    ensures prev + Cut(text, prev) == text <==> prev <= text
  {
    if prev <= text {
      assert text == text[..|prev|] + text[|prev|..];
    }
  }

  function NextIndex(output: Output, prev: string, index: nat): nat {
    index + |ChunksOf(output, prev, index)|
  }

  lemma StreamStep(outputs: seq<Output>, prev: string, index: nat)
    requires outputs != []
    ensures Text(Stream(outputs, prev, index)) == Cut(outputs[0].text, prev)
      + if outputs[0].finish != "" then "" else Text(Stream(outputs[1..], outputs[0].text, NextIndex(outputs[0], prev, index)))
  {
    ChunksOfText(outputs[0], prev, index);
    hide ChunksOf, Cut, Text;
    if outputs[0].finish == "" {
      TextConcat(ChunksOf(outputs[0], prev, index), Stream(outputs[1..], outputs[0].text, NextIndex(outputs[0], prev, index)));
    }
  }

  lemma ConsumedStep(outputs: seq<Output>, prev: string)
    requires outputs != []
    ensures LastText(Consumed(outputs), prev)
         == if outputs[0].finish != "" then outputs[0].text else LastText(Consumed(outputs[1..]), outputs[0].text)
  {
  }

  /** The deltas of the whole stream reassemble to the last text consumed. */
  lemma {:induction false} Reassembles(outputs: seq<Output>, prev: string, index: nat)
    requires PrefixGrowing(outputs, prev)
    ensures prev + Text(Stream(outputs, prev, index)) == LastText(Consumed(outputs), prev)
  {
    if outputs != [] {
      StreamStep(outputs, prev, index);
      ConsumedStep(outputs, prev);
      CutExtends(outputs[0].text, prev);
      hide Stream, Text, Cut, Consumed, ChunksOf, LastText;
      if outputs[0].finish == "" {
        Reassembles(outputs[1..], outputs[0].text, NextIndex(outputs[0], prev, index));
      }
    }
  }

  /** Every initial stretch of the outputs is reassembled. */
  ghost predicate ReassembledThroughout(outputs: seq<Output>, prev: string, index: nat) {
    forall k :: 0 <= k <= |outputs| ==> ReassembledAt(outputs, prev, index, k)
  }

  ghost predicate ReassembledAt(outputs: seq<Output>, prev: string, index: nat, k: nat)
    requires k <= |outputs|
  {
    prev + Text(Stream(outputs[..k], prev, index)) == LastText(Consumed(outputs[..k]), prev)
  }

  /** Growing by prefix is exactly what the cut needs: a client that reads any stretch of a stream that
      has not finished holds the engine's text if and only if each text extends the one before. */
  lemma {:induction false} ReassemblyNeedsGrowth(outputs: seq<Output>, prev: string, index: nat)
    requires !Finishes(outputs)
    ensures ReassembledThroughout(outputs, prev, index) <==> PrefixGrowing(outputs, prev)
  {
    if PrefixGrowing(outputs, prev) {
      forall k | 0 <= k <= |outputs| ensures ReassembledAt(outputs, prev, index, k) {
        GrowthOfStretch(outputs, prev, k);
        Reassembles(outputs[..k], prev, index);
      }
    }
    if ReassembledThroughout(outputs, prev, index) && outputs != [] {
      assert ReassembledAt(outputs, prev, index, 1);
      FirstReassembled(outputs, prev, index);
      var rest := outputs[1..];
      forall k | 0 <= k <= |rest| ensures ReassembledAt(rest, outputs[0].text, NextIndex(outputs[0], prev, index), k) {
        assert ReassembledAt(outputs, prev, index, k + 1);
        ShiftReassembled(outputs, prev, index, k);
      }
      assert !Finishes(rest);
      ReassemblyNeedsGrowth(rest, outputs[0].text, NextIndex(outputs[0], prev, index));
    }
  }

  lemma FirstReassembled(outputs: seq<Output>, prev: string, index: nat)
    requires outputs != [] && outputs[0].finish == ""
    requires ReassembledAt(outputs, prev, index, 1)
    ensures prev <= outputs[0].text
  {
    var first := outputs[..1];
    assert first[1..] == [];
    StreamStep(first, prev, index);
    ConsumedStep(first, prev);
    CutExtends(outputs[0].text, prev);
    assert Text(Stream([], outputs[0].text, NextIndex(outputs[0], prev, index))) == "";
    hide Cut, ChunksOf;
  }

  lemma {:induction false} GrowthOfStretch(outputs: seq<Output>, prev: string, k: nat)
    requires PrefixGrowing(outputs, prev) && k <= |outputs|
    ensures PrefixGrowing(outputs[..k], prev)
  {
    if k > 0 {
      assert outputs[..k][1..] == outputs[1..][..k - 1];
      GrowthOfStretch(outputs[1..], outputs[0].text, k - 1);
    }
  }

  lemma ShiftReassembled(outputs: seq<Output>, prev: string, index: nat, k: nat)
    requires outputs != [] && outputs[0].finish == "" && k < |outputs|
    requires prev <= outputs[0].text
    requires ReassembledAt(outputs, prev, index, k + 1)
    ensures ReassembledAt(outputs[1..], outputs[0].text, NextIndex(outputs[0], prev, index), k)
  {
    hide Stream, Text, Cut, Consumed, ChunksOf, LastText, NextIndex;
    var part, rest := outputs[..k + 1], outputs[1..][..k];
    assert part[1..] == rest && part[0] == outputs[0];
    StreamStep(part, prev, index);
    ConsumedStep(part, prev);
    CutExtends(outputs[0].text, prev);
  }

  /** Shape of every stream: gapless indices, content in all chunks but a finishing one, which comes
      last, carries no content, and is there exactly when an output had a finish reason. */
  ghost predicate WellShaped(chunks: seq<Chunk>, index: nat, finished: bool) {
    && (forall i :: 0 <= i < |chunks| ==> chunks[i].index == index + i)
    && (forall i :: 0 <= i < |chunks| - 1 ==> chunks[i].finish == "")
    && (forall i :: 0 <= i < |chunks| ==> (chunks[i].finish == "") == (chunks[i].delta != ""))
    && (finished <==> chunks != [] && chunks[|chunks| - 1].finish != "")
  }

  lemma HeadShape(output: Output, prev: string, index: nat)
    ensures WellShaped(ChunksOf(output, prev, index), index, output.finish != "")
  {
    hide Cut;
  }

  lemma {:induction false} StreamShape(outputs: seq<Output>, prev: string, index: nat)
    ensures WellShaped(Stream(outputs, prev, index), index, Finishes(outputs))
  {
    if outputs != [] {
      HeadShape(outputs[0], prev, index);
    }
    if outputs != [] && outputs[0].finish == "" {
      var chunks := ChunksOf(outputs[0], prev, index);
      hide Cut, ChunksOf, WellShaped, Finishes;
      StreamShape(outputs[1..], outputs[0].text, index + |chunks|);
      FinishesLater(outputs);
      ShapeConcat(chunks, Stream(outputs[1..], outputs[0].text, index + |chunks|), index, Finishes(outputs));
    }
  }

  lemma FinishesLater(outputs: seq<Output>)
    requires outputs != [] && outputs[0].finish == ""
    ensures Finishes(outputs) <==> Finishes(outputs[1..])
  {
    forall i | 0 <= i < |outputs| && outputs[i].finish != "" ensures Finishes(outputs[1..]) {
      assert outputs[1..][i - 1] == outputs[i];
    }
    forall i | 0 <= i < |outputs[1..]| && outputs[1..][i].finish != "" ensures Finishes(outputs) {
      assert outputs[i + 1] == outputs[1..][i];
    }
  }

  lemma ShapeConcat(chunks: seq<Chunk>, more: seq<Chunk>, index: nat, finished: bool)
    requires WellShaped(chunks, index, false) && WellShaped(more, index + |chunks|, finished)
    ensures WellShaped(chunks + more, index, finished)
  {
  }

  // ----- The mock engine behind the servicer -----

  /** `Complete`: overwrites `final` with every output and answers from the last one. */
  method Complete(outputs: seq<Output>) returns (r: Response)
    requires outputs != []
    ensures r == Response(LastText(outputs, ""), Reason(outputs), outputs[|outputs| - 1].tokens)
  {
    var final := outputs[0];
    for i := 0 to |outputs|
      invariant i > 0 ==> final == outputs[i - 1]
    {
      final := outputs[i];
    }
    return Response(final.text, if final.finish != "" then final.finish else "stop", final.tokens);
  }

  function Reason(outputs: seq<Output>): string
    requires outputs != []
  {
    var finish := outputs[|outputs| - 1].finish;
    if finish != "" then finish else "stop"
  }

  lemma {:induction false} ConsumesAll(outputs: seq<Output>)
    requires forall i :: 0 <= i < |outputs| - 1 ==> outputs[i].finish == ""
    ensures Consumed(outputs) == outputs
  {
    if |outputs| > 1 {
      ConsumesAll(outputs[1..]);
    }
  }

  lemma {:induction false} GrowsStepByStep(outputs: seq<Output>, prev: string)
    requires outputs != [] ==> prev <= outputs[0].text
    requires forall i :: 0 <= i < |outputs| - 1 ==> outputs[i].text <= outputs[i + 1].text
    ensures PrefixGrowing(outputs, prev)
  {
    if outputs != [] {
      GrowsStepByStep(outputs[1..], outputs[0].text);
    }
  }

  /** The engine's outputs grow, are all consumed, and only the last has a finish reason. */
  lemma MockOutputs(c: Config, prompt: string, maxTokens: int)
    requires ValidConfig(c)
    ensures var outputs := Outputs(c, prompt, maxTokens);
      && outputs != [] && PrefixGrowing(outputs, "") && Consumed(outputs) == outputs && Finishes(outputs)
      && outputs[|outputs| - 1].finish == Reason(outputs)
  {
    var outputs := Outputs(c, prompt, maxTokens);
    AtLeastOneToken(c, prompt, maxTokens);
    hide Tokens;
    assert |outputs| == Tokens(c, prompt, maxTokens);
    GrowsStepByStep(outputs, "");
    ConsumesAll(outputs);
    assert outputs[|outputs| - 1].finish != "";
  }

  /** The streaming round trip: for every prompt and limit the streamed deltas concatenate to the text
      the unary call returns, with gapless indices, and one finish chunk, last, with the same reason. */
  lemma StreamEqualsUnary(c: Config, prompt: string, maxTokens: int)
    requires ValidConfig(c)
    ensures var outputs := Outputs(c, prompt, maxTokens);
      var chunks := Stream(outputs, "", 0);
      && Text(chunks) == LastText(outputs, "")
      && WellShaped(chunks, 0, true)
      && chunks != [] && chunks[|chunks| - 1].finish == Reason(outputs)
  {
    var outputs := Outputs(c, prompt, maxTokens);
    MockOutputs(c, prompt, maxTokens);
    hide Outputs;
    Reassembles(outputs, "", 0);
    StreamShape(outputs, "", 0);
    FinishChunk(outputs, "", 0);
  }

  /** The last chunk of a finished stream repeats the reason of the last output consumed. */
  lemma {:induction false} FinishChunk(outputs: seq<Output>, prev: string, index: nat)
    requires outputs != [] && Consumed(outputs) == outputs && outputs[|outputs| - 1].finish != ""
    ensures var chunks := Stream(outputs, prev, index);
      chunks != [] && chunks[|chunks| - 1].finish == outputs[|outputs| - 1].finish
  {
    hide Cut;
    if outputs[0].finish == "" {
      assert Consumed(outputs[1..]) == Consumed(outputs)[1..];
      hide Consumed, ChunksOf;
      FinishChunk(outputs[1..], outputs[0].text, index + |ChunksOf(outputs[0], prev, index)|);
    }
  }

  /** Each output adds the next token, and only the last has a finish reason. */
  ghost predicate TokenByToken(outputs: seq<Output>, prev: string, tokens: seq<string>) {
    && |outputs| == |tokens|
    && (outputs != [] ==>
          && tokens[0] != "" && outputs[0].text == prev + tokens[0]
          && (outputs[0].finish != "" <==> |outputs| == 1)
          && TokenByToken(outputs[1..], outputs[0].text, tokens[1..]))
  }

  lemma CutOff(prev: string, more: string)
    ensures Cut(prev + more, prev) == more
  {
    assert |prev + more| == |prev| + |more|;
  }

  lemma {:induction false} ChunkPerToken(outputs: seq<Output>, prev: string, index: nat, tokens: seq<string>)
    requires TokenByToken(outputs, prev, tokens) && outputs != []
    ensures var chunks := Stream(outputs, prev, index);
      |chunks| == |tokens| + 1 && forall i :: 0 <= i < |tokens| ==> chunks[i] == Chunk(tokens[i], "", index + i)
  {
    CutOff(prev, tokens[0]);
    hide Cut;
    if |outputs| > 1 {
      assert ChunksOf(outputs[0], prev, index) == [Chunk(tokens[0], "", index)];
      hide ChunksOf;
      ChunkPerToken(outputs[1..], outputs[0].text, index + 1, tokens[1..]);
    }
  }

  /** The texts of the tokens of a stream. */
  function TokenTexts(c: Config, prompt: string, maxTokens: int): (r: seq<string>) {
    var n := Tokens(c, prompt, maxTokens);
    seq(Max(n, 0), i requires 0 <= i < Max(n, 0) => c.fragment(prompt, n, i))
  }

  lemma {:induction false} MockTokenByToken(c: Config, prompt: string, maxTokens: int, k: nat)
    requires ValidConfig(c) && SolidTokens(c, prompt) && k <= |Outputs(c, prompt, maxTokens)|
    ensures |TokenTexts(c, prompt, maxTokens)| == |Outputs(c, prompt, maxTokens)| == Tokens(c, prompt, maxTokens)
    ensures TokenByToken(Outputs(c, prompt, maxTokens)[k..], TextOf(c, prompt, Tokens(c, prompt, maxTokens), k),
                         TokenTexts(c, prompt, maxTokens)[k..])
    decreases |Outputs(c, prompt, maxTokens)| - k
  {
    AtLeastOneToken(c, prompt, maxTokens);
    hide Tokens;
    var outputs, tokens := Outputs(c, prompt, maxTokens), TokenTexts(c, prompt, maxTokens);
    if k < |outputs| {
      MockTokenByToken(c, prompt, maxTokens, k + 1);
      assert outputs[k..][1..] == outputs[k + 1..] && tokens[k..][1..] == tokens[k + 1..];
    }
  }

  /** One chunk for every token, carrying exactly that token's text under its index, and the finish
      chunk after them. */
  lemma OneChunkPerToken(c: Config, prompt: string, maxTokens: int)
    requires ValidConfig(c) && SolidTokens(c, prompt)
    ensures var n := Tokens(c, prompt, maxTokens);
      var chunks := Stream(Outputs(c, prompt, maxTokens), "", 0);
      && n >= 1 && |chunks| == n + 1
      && forall i :: 0 <= i < n ==> chunks[i] == Chunk(c.fragment(prompt, n, i), "", i)
  {
    var outputs, tokens := Outputs(c, prompt, maxTokens), TokenTexts(c, prompt, maxTokens);
    AtLeastOneToken(c, prompt, maxTokens);
    MockTokenByToken(c, prompt, maxTokens, 0);
    assert outputs[0..] == outputs && tokens[0..] == tokens;
    hide Tokens, Outputs, Stream;
    ChunkPerToken(outputs, "", 0, tokens);
  }
}
