/** The proxy's event stream: one event a chunk between an opening role event and a closing one. */
module ServerSentEvents {
  import opened Common
  import opened Mock
  import opened Streaming

  /** What one `data:` line says. */
  datatype Event = Role | Content(text: string) | Finish(reason: string) | Done | Error(message: string)

  function EventOf(chunk: Chunk): Event {
    if chunk.finish != "" then Finish(chunk.finish) else Content(chunk.delta)
  }

  /** The frontend's stream as the proxy sees it: its chunks, and its RPC error if it fails. */
  datatype Upstream = Upstream(chunks: seq<Chunk>, failure: Option<string>)

  function Closing(up: Upstream): Event {
    match up.failure
    case None => Done
    case Some(details) => Error(if details != "" then details else "Internal error")
  }

  function EventsOf(chunks: seq<Chunk>): (events: seq<Event>)
    ensures |events| == |chunks|
  {
    seq(|chunks|, i requires 0 <= i < |chunks| => EventOf(chunks[i]))
  }

  /** `_stream_sse`: `gone(i)` says that the client has left when chunk `i` arrives. */
  method StreamSse(up: Upstream, gone: nat -> bool) returns (events: seq<Event>)
    ensures (forall i :: 0 <= i < |up.chunks| ==> !gone(i)) ==>
      events == [Role] + EventsOf(up.chunks) + [Closing(up)]
    ensures forall k: nat :: k < |up.chunks| && gone(k) && (forall i :: 0 <= i < k ==> !gone(i)) ==>
      events == [Role] + EventsOf(up.chunks[..k])
  {
    events := [Role];
    for i := 0 to |up.chunks|
      invariant forall j :: 0 <= j < i ==> !gone(j)
      invariant events == [Role] + EventsOf(up.chunks[..i])
    {
      if gone(i) {
        return;
      }
      events := events + [EventOf(up.chunks[i])];
    }
    assert up.chunks[..|up.chunks|] == up.chunks;
    events := events + [Closing(up)];
  }

  /** The text a client puts together. */
  function ClientText(events: seq<Event>): string {
    if events == [] then ""
    else (if events[0].Content? then events[0].text else "") + ClientText(events[1..])
  }

  lemma {:induction false} ClientTextConcat(a: seq<Event>, b: seq<Event>)
    ensures ClientText(a + b) == ClientText(a) + ClientText(b)
  {
    if a == [] {
      assert a + b == b;
    } else {
      assert (a + b)[1..] == a[1..] + b;
      ClientTextConcat(a[1..], b);
    }
  }

  ghost predicate FinishCarriesNothing(chunks: seq<Chunk>) {
    forall i :: 0 <= i < |chunks| && chunks[i].finish != "" ==> chunks[i].delta == ""
  }

  /** Translating a chunk with a finish reason drops its delta, so the text survives if and only if no
      such chunk carries any. */
  lemma {:induction false} TextSurvivesIff(chunks: seq<Chunk>)
    ensures |ClientText(EventsOf(chunks))| <= |Text(chunks)|
    ensures ClientText(EventsOf(chunks)) == Text(chunks) <==> FinishCarriesNothing(chunks)
  {
    if chunks != [] {
      var rest, head := chunks[1..], chunks[0];
      TextSurvivesIff(rest);
      FinishSplit(chunks);
      assert EventsOf(chunks)[1..] == EventsOf(rest);
      var received, sent := ClientText(EventsOf(rest)), Text(rest);
      hide EventsOf, FinishCarriesNothing;
      assert Text(chunks) == head.delta + sent;
      if head.finish != "" {
        assert ClientText(EventsOf(chunks)) == received;
        assert head.delta == "" ==> head.delta + sent == sent;
      } else {
        assert ClientText(EventsOf(chunks)) == head.delta + received;
        assert (head.delta + received)[|head.delta|..] == received && (head.delta + sent)[|head.delta|..] == sent;
      }
    }
  }

  lemma FinishSplit(chunks: seq<Chunk>)
    requires chunks != []
    ensures FinishCarriesNothing(chunks) <==>
      (chunks[0].finish != "" ==> chunks[0].delta == "") && FinishCarriesNothing(chunks[1..])
  {
    if FinishCarriesNothing(chunks[1..]) && (chunks[0].finish != "" ==> chunks[0].delta == "") {
      forall i | 0 <= i < |chunks| && chunks[i].finish != "" ensures chunks[i].delta == "" {
        if i > 0 {
          assert chunks[1..][i - 1] == chunks[i];
        }
      }
    }
  }

  lemma FramedText(chunks: seq<Chunk>, closing: Event)
    requires !closing.Content?
    ensures ClientText([Role] + EventsOf(chunks) + [closing]) == ClientText(EventsOf(chunks))
    ensures ClientText([Role] + EventsOf(chunks)) == ClientText(EventsOf(chunks))
  {
    assert ClientText([closing]) == "";
    assert ClientText([Role]) == "";
    ClientTextConcat([Role], EventsOf(chunks));
    ClientTextConcat([Role] + EventsOf(chunks), [closing]);
  }

  lemma ShapedCarriesNothing(chunks: seq<Chunk>, index: nat, finished: bool)
    requires WellShaped(chunks, index, finished)
    ensures FinishCarriesNothing(chunks)
  {
  }

  /** From a prefix-growing engine to the client: a client that stays holds exactly the last text the
      frontend consumed, whether the engine finished, just stopped, or raised; the closing event is
      `Done` if and only if the frontend did not abort. */
  lemma ClientHoldsEngineText(outputs: seq<Output>, failure: Option<string>)
    requires PrefixGrowing(outputs, "")
    ensures var up := Upstream(Stream(outputs, "", 0), failure);
      && ClientText([Role] + EventsOf(up.chunks) + [Closing(up)]) == LastText(Consumed(outputs), "")
      && (Closing(up) == Done <==> failure == None)
  {
    var chunks := Stream(outputs, "", 0);
    Reassembles(outputs, "", 0);
    StreamShape(outputs, "", 0);
    ShapedCarriesNothing(chunks, 0, Finishes(outputs));
    TextSurvivesIff(chunks);
    FramedText(chunks, Closing(Upstream(chunks, failure)));
  }

  /** A client that leaves early holds a beginning of the text. */
  lemma {:induction false} LeavingClientHoldsBeginning(chunks: seq<Chunk>, k: nat)
    requires FinishCarriesNothing(chunks) && k <= |chunks|
    ensures ClientText([Role] + EventsOf(chunks[..k])) <= Text(chunks)
  {
    TextSurvivesIff(chunks[..k]);
    FramedText(chunks[..k], Done);
    assert chunks == chunks[..k] + chunks[k..];
    TextConcat(chunks[..k], chunks[k..]);
  }

  /** The mock engine end to end: streamed to a client, every prompt yields the text and the finish
      reason of the unary call, one finish event just before `Done`. */
  lemma ClientHoldsUnaryAnswer(c: Config, prompt: string, maxTokens: int)
    requires ValidConfig(c)
    ensures var outputs := Outputs(c, prompt, maxTokens);
      var chunks := Stream(outputs, "", 0);
      var events := [Role] + EventsOf(chunks) + [Done];
      && outputs != [] && chunks != []
      && ClientText(events) == LastText(outputs, "")
      && events[|events| - 2] == Finish(Reason(outputs))
      && forall i :: 0 <= i < |events| && events[i].Finish? ==> i == |events| - 2
  {
    MockOutputs(c, prompt, maxTokens);
    var outputs := Outputs(c, prompt, maxTokens);
    hide Outputs, ValidConfig;
    UnaryAnswer(outputs);
  }

  lemma UnaryAnswer(outputs: seq<Output>)
    requires outputs != [] && PrefixGrowing(outputs, "") && Consumed(outputs) == outputs && Finishes(outputs)
    requires outputs[|outputs| - 1].finish == Reason(outputs)
    ensures var chunks := Stream(outputs, "", 0);
      var events := [Role] + EventsOf(chunks) + [Done];
      && chunks != []
      && ClientText(events) == LastText(outputs, "")
      && events[|events| - 2] == Finish(Reason(outputs))
      && forall i :: 0 <= i < |events| && events[i].Finish? ==> i == |events| - 2
  {
    ClientHoldsEngineText(outputs, None);
    StreamShape(outputs, "", 0);
    FinishChunk(outputs, "", 0);
  }

  /** What the closing event says: `Done` exactly without a failure, otherwise the failure's details, or a
      stock text when it has none. */
  lemma ClosingSays(up: Upstream)
    ensures Closing(up) == Done <==> up.failure == None
    ensures up.failure.Some? && up.failure.value != "" ==> Closing(up) == Error(up.failure.value)
    ensures up.failure == Some("") ==> Closing(up) == Error("Internal error")
  {
  }
}
