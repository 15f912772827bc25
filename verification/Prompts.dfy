/** Where a block's prompt comes from: synthetic at the null-anchor caps, the corpus elsewhere. */
module Prompts {
  import opened Common
  import opened Numerals
  import opened Cells

  datatype Message = Message(role: string, content: string)

  datatype BlockInputs = BlockInputs(
    promptText: Option<string>, embedTensor: Option<string>, promptSource: string,
    corpusIdx: Option<int>, ignoreEos: bool, maxTokens: int)

  datatype PromptError = UnknownCell | UnknownCap | CorpusMissing | CorpusEmpty | NoUserMessage

  /** The corpora of a sweep and the hash behind synthetic prompts. A chat sample is its messages, an
      embed sample its tensor bytes. */
  datatype PromptSources = PromptSources(
    chatCorpus: Option<seq<seq<Message>>>, embedCorpus: Option<seq<string>>, digest: int -> string)

  function BuildChatPrompt(seed: int, digest: int -> string): string {
    "M6 chat probe seed=" + IntText(seed) + " digest=" + digest(seed) + ". Please respond."
  }

  /** `corpus[iter_idx % len(corpus)]`, whatever the cohort. */
  function AssignSymmetricPrompt<T>(iterIdx: nat, corpus: seq<T>): Result<T, PromptError> {
    if corpus == [] then Err(CorpusEmpty) else Ok(corpus[iterIdx % |corpus|])
  }

  function FirstUserContent(messages: seq<Message>): (r: Result<string, PromptError>)
    ensures r.Err? ==> r.error == NoUserMessage
  {
    if messages == [] then Err(NoUserMessage)
    else if messages[0].role == "user" then Ok(messages[0].content)
    else FirstUserContent(messages[1..])
  }

  function ResolveBlockInputs(cell: string, maxTokens: int, iterIdx: nat, cohort: string, baseSeed: int,
                              sources: PromptSources, ignoreEos: bool): Result<BlockInputs, PromptError>
  {
    var chat := CHAT_STREAM <= cell;
    if !chat && !(EMBED <= cell) then Err(UnknownCell)
    else if maxTokens !in NULL_ANCHOR_MAX_TOKENS && maxTokens !in INTERIOR_CAP_MAX_TOKENS then Err(UnknownCap)
    else if maxTokens in NULL_ANCHOR_MAX_TOKENS && !ignoreEos then
      if chat then
        Ok(BlockInputs(Some(BuildChatPrompt(baseSeed + iterIdx, sources.digest)), None,
                       "synthetic_seed_derived", None, false, maxTokens))
      else Ok(BlockInputs(None, None, "synthetic_random_tensor", None, false, maxTokens))
    else if chat then
      match sources.chatCorpus
      case None => Err(CorpusMissing)
      case Some(corpus) =>
        match AssignSymmetricPrompt(iterIdx, corpus)
        case Err(e) => Err(e)
        case Ok(sample) =>
          match FirstUserContent(sample)
          case Err(e) => Err(e)
          case Ok(text) =>
            Ok(BlockInputs(Some(text), None, "corpus_sharegpt", Some(iterIdx), ignoreEos, maxTokens))
    else
      match sources.embedCorpus
      case None => Err(CorpusMissing)
      case Some(corpus) =>
        match AssignSymmetricPrompt(iterIdx, corpus)
        case Err(e) => Err(e)
        case Ok(bytes) =>
          Ok(BlockInputs(None, Some(bytes), "corpus_sharegpt_embed", Some(iterIdx), ignoreEos, maxTokens))
  }

  ghost predicate GoodCorpora(sources: PromptSources) {
    && sources.chatCorpus.Some? && sources.chatCorpus.value != []
    && (forall i :: 0 <= i < |sources.chatCorpus.value| ==> FirstUserContent(sources.chatCorpus.value[i]).Ok?)
    && sources.embedCorpus.Some? && sources.embedCorpus.value != []
  }

  /** With loaded corpora, inputs resolve for exactly the published caps of the matrix's cells. */
  lemma ResolvesExactlyPublishedCaps(c: nat, maxTokens: int, iterIdx: nat, cohort: string, baseSeed: int,
                                     sources: PromptSources, ignoreEos: bool)
    requires c < |CELLS| && GoodCorpora(sources)
    ensures ResolveBlockInputs(CellId(CELLS[c]), maxTokens, iterIdx, cohort, baseSeed, sources, ignoreEos).Ok?
            <==> maxTokens in MAX_TOKENS_AXIS
  {
    CellIdTexts();
    assert CELLS[c].path == EMBED || CELLS[c].path == CHAT_STREAM;
    assert CELLS[c].path <= CellId(CELLS[c]);
    var chat, embed := sources.chatCorpus.value, sources.embedCorpus.value;
    assert 0 <= iterIdx % |chat| < |chat|;
    assert FirstUserContent(chat[iterIdx % |chat|]).Ok?;
    assert maxTokens in MAX_TOKENS_AXIS <==>
           maxTokens in NULL_ANCHOR_MAX_TOKENS || maxTokens in INTERIOR_CAP_MAX_TOKENS;
  }

  /** What a resolved block is given: a synthetic prompt seeded by the iteration at the null-anchor
      caps, otherwise the corpus entry of the iteration, counted round and recorded unreduced; the cap
      as asked; and the same for every cohort. */
  lemma PromptRegimes(cell: string, maxTokens: int, iterIdx: nat, cohort: string, other: string, baseSeed: int,
                      sources: PromptSources, ignoreEos: bool)
    ensures var r := ResolveBlockInputs(cell, maxTokens, iterIdx, cohort, baseSeed, sources, ignoreEos);
      && r == ResolveBlockInputs(cell, maxTokens, iterIdx, other, baseSeed, sources, ignoreEos)
      && (r.Ok? ==>
            var b := r.value;
            && b.maxTokens == maxTokens && b.ignoreEos == (b.corpusIdx.Some? && ignoreEos)
            && b.corpusIdx == (if maxTokens in NULL_ANCHOR_MAX_TOKENS && !ignoreEos then None else Some(iterIdx))
            && (b.corpusIdx == None && b.promptText.Some? ==> b.promptText.value == BuildChatPrompt(baseSeed + iterIdx, sources.digest))
            && (b.corpusIdx.Some? && b.promptText.Some? ==>
                  sources.chatCorpus.Some? && sources.chatCorpus.value != []
                  && FirstUserContent(sources.chatCorpus.value[iterIdx % |sources.chatCorpus.value|]) == Ok(b.promptText.value))
            && (b.embedTensor.Some? ==>
                  sources.embedCorpus.Some? && sources.embedCorpus.value != []
                  && sources.embedCorpus.value[iterIdx % |sources.embedCorpus.value|] == b.embedTensor.value))
  {
  }

  /** The kind of a cell decides the kind of its inputs: a chat block always has a prompt and never a
      tensor, an embed block never a prompt and a tensor exactly in the corpus regime; and the source says
      which of the four cases it is. */
  lemma InputsByKind(cell: string, maxTokens: int, iterIdx: nat, cohort: string, baseSeed: int,
                     sources: PromptSources, ignoreEos: bool)
    ensures var r := ResolveBlockInputs(cell, maxTokens, iterIdx, cohort, baseSeed, sources, ignoreEos);
      var synthetic := maxTokens in [10, 50] && !ignoreEos;
      && (r == Err(UnknownCell) <==> !("chat_stream" <= cell) && !("embed" <= cell))
      && (r == Err(UnknownCap) <==> r != Err(UnknownCell) && maxTokens !in [10, 50, 256, 512, 1024, 2048])
      && (r == Err(CorpusMissing) <==>
            r != Err(UnknownCell) && r != Err(UnknownCap) && !synthetic
            && if "chat_stream" <= cell then sources.chatCorpus == None else sources.embedCorpus == None)
      && (r.Ok? && "chat_stream" <= cell ==>
            && r.value.promptText.Some? && r.value.embedTensor == None
            && r.value.promptSource == if synthetic then "synthetic_seed_derived" else "corpus_sharegpt")
      && (r.Ok? && "embed" <= cell ==>
            && r.value.promptText == None && (r.value.embedTensor.Some? <==> !synthetic)
            && r.value.promptSource == if synthetic then "synthetic_random_tensor" else "corpus_sharegpt_embed")
  {
    hide BuildChatPrompt;
    if "embed" <= cell {
      assert cell[0] == 'e';
    }
    assert CHAT_STREAM[0] == 'c';
  }

  // ----- Synthetic prompts differ -----

  /** Text up to the first blank is fixed by the text. */
  lemma BeforeBlank(a: string, b: string, x: string, y: string)
    requires ' ' !in a && ' ' !in b && a + " " + x == b + " " + y
    ensures a == b
  {
    var s := a + " " + x;
    BlankFirstAt(a, x);
    BlankFirstAt(b, y);
    assert s[..|a|] == a && (b + " " + y)[..|b|] == b;
  }

  lemma BlankFirstAt(a: string, x: string)
    requires ' ' !in a
    ensures var s := a + " " + x;
      s[|a|] == ' ' && forall i :: 0 <= i < |a| ==> s[i] != ' '
  {
    forall i | 0 <= i < |a| ensures (a + " " + x)[i] != ' ' {
      assert (a + " " + x)[i] == a[i] && a[i] in a;
    }
  }

  lemma NoBlankInNumber(n: int)
    ensures ' ' !in IntText(n)
  {
  }

  /** Different seeds give different prompts, whatever the digest: no two synthetic blocks of a sweep share
      one, because they run at different iterations. */
  lemma PromptsDiffer(a: int, b: int, digest: int -> string)
    requires BuildChatPrompt(a, digest) == BuildChatPrompt(b, digest)
    ensures a == b
  {
    NoBlankInNumber(a);
    NoBlankInNumber(b);
    IntRoundTrip(a);
    IntRoundTrip(b);
    hide IntText, ParseInt;
    var head := "M6 chat probe seed=";
    SplitPrompt(a, digest, head);
    SplitPrompt(b, digest, head);
    var x, y := "digest=" + digest(a) + ". Please respond.", "digest=" + digest(b) + ". Please respond.";
    assert (head + (IntText(a) + " " + x))[|head|..] == IntText(a) + " " + x;
    assert (head + (IntText(b) + " " + y))[|head|..] == IntText(b) + " " + y;
    BeforeBlank(IntText(a), IntText(b), x, y);
  }

  lemma SplitPrompt(seed: int, digest: int -> string, head: string)
    requires head == "M6 chat probe seed="
    ensures BuildChatPrompt(seed, digest)
         == head + (IntText(seed) + " " + ("digest=" + digest(seed) + ". Please respond."))
  {
    hide IntText;
    assert " digest=" == " " + "digest=";
  }

  /** The content of the first user message, and an error if and only if there is none. */
  lemma {:induction false} FirstUserIs(messages: seq<Message>)
    ensures var r := FirstUserContent(messages);
      && (r.Err? <==> forall i :: 0 <= i < |messages| ==> messages[i].role != "user")
      && (r.Ok? ==> exists i :: 0 <= i < |messages| && FirstUserAt(messages, i) && messages[i].content == r.value)
  {
    if messages != [] && messages[0].role != "user" {
      FirstUserIs(messages[1..]);
      var rest := messages[1..];
      if FirstUserContent(rest).Ok? {
        var i :| 0 <= i < |rest| && FirstUserAt(rest, i) && rest[i].content == FirstUserContent(rest).value;
        assert FirstUserAt(messages, i + 1);
      } else {
        forall i | 0 <= i < |messages| ensures messages[i].role != "user" {
          assert i > 0 ==> rest[i - 1] == messages[i];
        }
      }
    } else if messages != [] {
      assert FirstUserAt(messages, 0);
    }
  }

  predicate FirstUserAt(messages: seq<Message>, i: nat)
    requires i < |messages|
  {
    messages[i].role == "user" && forall j :: 0 <= j < i ==> messages[j].role != "user"
  }
}
