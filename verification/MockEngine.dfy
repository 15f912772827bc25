/** The mock engine: deterministic token streams with cumulative text. */
module Mock {
  import opened Common
  import opened Arithmetic
  import opened Numerals

  /** One yielded output: the text so far, the finish reason ("" while running), the tokens so far. */
  datatype Output = Output(text: string, finish: string, tokens: nat)

  datatype EngineError = EmptyPrompt | DuplicateRequest(id: string)

  /** `fragment(prompt, n, i)` is the text of the i-th of `n` tokens: the seeded draw from the
      vocabulary. */
  datatype Config = Config(maxTokensPerStream: nat, fragment: (string, int, nat) -> string)

  ghost predicate ValidConfig(c: Config) {
    c.maxTokensPerStream >= 1
  }

  /** No token of the vocabulary is empty. */
  ghost predicate SolidTokens(c: Config, prompt: string) {
    forall n: int, i: nat :: c.fragment(prompt, n, i) != ""
  }

  // ----- Token count -----

  const NEEDLE: string := "min_tokens="

  /** Position of the first occurrence. */
  function Find(s: string, part: string): (r: Option<nat>)
    ensures r.Some? ==> r.value + |part| <= |s| && part <= s[r.value..]
  {
    if part <= s then Some(0)
    else if s == "" then None
    else
      match Find(s[1..], part)
      case None => None
      case Some(i) => Some(i + 1)
  }

  /** The longest run of digits at the front. */
  function LeadingDigits(s: string): (d: string)
    ensures d <= s
    ensures forall i :: 0 <= i < |d| ==> IsDigit(d[i])
    ensures |d| < |s| ==> !IsDigit(s[|d|])
  {
    if s == "" || !IsDigit(s[0]) then "" else [s[0]] + LeadingDigits(s[1..])
  }

  lemma {:induction false} DigitsParse(d: string)
    requires d != "" && forall i :: 0 <= i < |d| ==> IsDigit(d[i])
    ensures ParseNat(d).Some?
  {
    if |d| > 1 {
      DigitsParse(d[..|d| - 1]);
    }
  }

  /** The number after the first hint of the prompt, if there is one. */
  function Hint(prompt: string, needle: string): Option<nat> {
    match Find(prompt, needle)
    case None => None
    case Some(i) => ParseNat(LeadingDigits(prompt[i + |needle|..]))
  }

  function TokenCount(prompt: string, requestedMax: int, cap: int): int {
    match Hint(prompt, NEEDLE)
    case None => Min(requestedMax, cap)
    case Some(hint) => Min(Max(requestedMax, hint), cap)
  }

  /** The source's scan. */
  method DeriveTokenCount(prompt: string, requestedMax: int, cap: int) returns (n: int)
    ensures n == TokenCount(prompt, requestedMax, cap)
  {
    var needle := NEEDLE;
    match Find(prompt, needle)
    case None =>
      return Min(requestedMax, cap);
    case Some(idx) =>
      var digits := ScanDigits(prompt[idx + |needle|..]);
      if digits == "" {
        return Min(requestedMax, cap);
      }
      DigitsParse(digits);
      return Min(Max(requestedMax, ParseNat(digits).value), cap);
  }

  method ScanDigits(rest: string) returns (digits: string)
    ensures digits == LeadingDigits(rest)
  {
    hide LeadingDigits;
    digits := "";
    var i := 0;
    assert rest[0..] == rest;
    DigitsUnfold(rest, 0);
    while i < |rest| && IsDigit(rest[i])
      invariant i <= |rest|
      invariant LeadingDigits(rest) == digits + LeadingDigits(rest[i..])
    {
      DigitsUnfold(rest, i);
      digits := digits + [rest[i]];
      i := i + 1;
    }
    DigitsUnfold(rest, i);
  }

  lemma DigitsUnfold(s: string, i: nat)
    requires i <= |s|
    ensures LeadingDigits(s[i..]) == if i < |s| && IsDigit(s[i]) then [s[i]] + LeadingDigits(s[i + 1..]) else ""
  {
    if i < |s| {
      assert s[i..][1..] == s[i + 1..];
    }
  }

  lemma HintFound(before: string, needle: string, tail: string)
    requires forall i :: 0 <= i < |before| ==> !(needle <= (before + needle + tail)[i..])
    ensures Hint(before + needle + tail, needle) == ParseNat(LeadingDigits(tail))
  {
    hide ParseNat, LeadingDigits;
    var prompt := before + needle + tail;
    assert prompt[|before|..] == needle + tail;
    FindFirst(prompt, needle, |before|);
    assert prompt[|before| + |needle|..] == tail;
  }

  /** A hint written into a prompt is read back. */
  lemma HintHonoured(before: string, needle: string, n: nat, rest: string)
    requires forall i :: 0 <= i < |before| ==> !(needle <= (before + needle + (NatText(n) + rest))[i..])
    requires rest != "" ==> !IsDigit(rest[0])
    ensures Hint(before + needle + (NatText(n) + rest), needle) == Some(n)
  {
    hide NatText, ParseNat, Hint;
    HintFound(before, needle, NatText(n) + rest);
    DigitsThenRest(NatText(n), rest);
    NatRoundTrip(n);
  }

  /** The count is what was asked for, raised to the hint if there is one, and never above the cap. */
  lemma CountFollowsHint(prompt: string, requestedMax: int, cap: int)
    ensures var n, hint := TokenCount(prompt, requestedMax, cap), Hint(prompt, "min_tokens=");
      && n <= cap
      && (hint == None ==> n == requestedMax || (n == cap && cap < requestedMax))
      && (hint.Some? && requestedMax <= hint.value <= cap ==> n == hint.value)
      && (hint.Some? && hint.value <= requestedMax <= cap ==> n == requestedMax)
      && (hint.Some? && (cap < hint.value || cap < requestedMax) ==> n == cap)
  {
    hide Hint;
  }

  /** Without the hint's marker there is no hint. */
  lemma {:induction false} NoHintWithoutMarker(prompt: string, needle: string)
    ensures Find(prompt, needle) == None <==> forall i :: 0 <= i <= |prompt| ==> !(needle <= prompt[i..])
  {
    assert prompt[0..] == prompt;
    if prompt != "" {
      NoHintWithoutMarker(prompt[1..], needle);
      forall i | 1 <= i <= |prompt| ensures prompt[i..] == prompt[1..][i - 1..] {
      }
      if Find(prompt, needle) != None && !(needle <= prompt) {
        var j :| 0 <= j <= |prompt| - 1 && needle <= prompt[1..][j..];
        assert prompt[1..][j..] == prompt[j + 1..];
      }
    }
  }

  lemma {:induction false} FindFirst(s: string, part: string, at: nat)
    requires at <= |s| && part <= s[at..]
    requires forall i :: 0 <= i < at ==> !(part <= s[i..])
    ensures Find(s, part) == Some(at)
  {
    assert s[0..] == s;
    if at > 0 {
      assert s[1..][at - 1..] == s[at..];
      forall i | 0 <= i < at - 1 ensures !(part <= s[1..][i..]) {
        assert s[1..][i..] == s[i + 1..];
      }
      FindFirst(s[1..], part, at - 1);
    }
  }

  lemma {:induction false} DigitsThenRest(d: string, rest: string)
    requires forall i :: 0 <= i < |d| ==> IsDigit(d[i])
    requires rest != "" ==> !IsDigit(rest[0])
    ensures LeadingDigits(d + rest) == d
  {
    if d == "" {
      assert d + rest == rest;
    } else {
      assert (d + rest)[1..] == d[1..] + rest;
      DigitsThenRest(d[1..], rest);
    }
  }

  // ----- Generation -----

  /** The limit a request runs under: its own when positive, otherwise the engine's. */
  function Requested(c: Config, maxTokens: int): int {
    if maxTokens <= 0 then c.maxTokensPerStream else maxTokens
  }

  function Tokens(c: Config, prompt: string, maxTokens: int): int {
    TokenCount(prompt, Requested(c, maxTokens), c.maxTokensPerStream * 64)
  }

  /** Every stream has at least one token and at most 64 times the configured length. */
  lemma AtLeastOneToken(c: Config, prompt: string, maxTokens: int)
    requires ValidConfig(c)
    ensures 1 <= Tokens(c, prompt, maxTokens) <= c.maxTokensPerStream * 64
  {
    assert Requested(c, maxTokens) >= 1;
  }

  /** The concatenation of the first `k` of `n` tokens. */
  function TextOf(c: Config, prompt: string, n: int, k: nat): string {
    if k == 0 then "" else TextOf(c, prompt, n, k - 1) + c.fragment(prompt, n, k - 1)
  }

  function FinishReason(c: Config, i: int, n: int): string {
    if i != n - 1 then "" else if n >= c.maxTokensPerStream then "length" else "stop"
  }

  function OutputAt(c: Config, prompt: string, n: int, i: nat): Output {
    Output(TextOf(c, prompt, n, i + 1), FinishReason(c, i, n), i + 1)
  }

  /** All outputs of one stream. */
  function Outputs(c: Config, prompt: string, maxTokens: int): (r: seq<Output>) {
    var n := Tokens(c, prompt, maxTokens);
    seq(Max(n, 0), i requires 0 <= i < Max(n, 0) => OutputAt(c, prompt, n, i))
  }

  class MockEngine {
    const config: Config
    var inflight: set<string>

    constructor (config: Config)
      requires ValidConfig(config)
      ensures this.config == config && inflight == {}
    {
      this.config := config;
      inflight := {};
    }

    /** The entry of the generator, up to its `try`: a refused request changes nothing, in particular
        not the registration of the request that holds the id. */
    method Begin(prompt: string, id: string) returns (error: Option<EngineError>)
      modifies this
      ensures prompt == "" ==> error == Some(EmptyPrompt)
      ensures prompt != "" && id in old(inflight) ==> error == Some(DuplicateRequest(id))
      ensures error == None <==> prompt != "" && id !in old(inflight)
      ensures inflight == if error == None then old(inflight) + {id} else old(inflight)
    {
      if prompt == "" {
        return Some(EmptyPrompt);
      }
      if id in inflight {
        return Some(DuplicateRequest(id));
      }
      inflight := inflight + {id};
      return None;
    }

    /** The `finally`: reached when the stream ends and when its consumer gives up. */
    method End(id: string)
      modifies this
      ensures inflight == old(inflight) - {id}
    {
      inflight := inflight - {id};
    }

    /** The token loop. */
    method Run(prompt: string, maxTokens: int) returns (outputs: seq<Output>)
      requires ValidConfig(config)
      ensures outputs == Outputs(config, prompt, maxTokens)
    {
      var requestedMax := maxTokens;
      if requestedMax <= 0 {
        requestedMax := config.maxTokensPerStream;
      }
      var n := DeriveTokenCount(prompt, requestedMax, config.maxTokensPerStream * 64);
      AtLeastOneToken(config, prompt, maxTokens);
      var parts: seq<string> := [];
      outputs := [];
      for i := 0 to n
        invariant |parts| == i && Join(parts) == TextOf(config, prompt, n, i)
        invariant outputs == seq(i, k requires 0 <= k < i => OutputAt(config, prompt, n, k))
      {
        JoinSnoc(parts, config.fragment(prompt, n, i));
        parts := parts + [config.fragment(prompt, n, i)];
        var finish := "";
        if i == n - 1 {
          finish := if n >= config.maxTokensPerStream then "length" else "stop";
        }
        outputs := outputs + [Output(Join(parts), finish, |parts|)];
      }
    }

    /** One stream run to its end: the same outputs for the same prompt and limit whatever else is in
        flight, and the id free again. */
    method Generate(prompt: string, maxTokens: int, id: string) returns (r: Result<seq<Output>, EngineError>)
      requires ValidConfig(config)
      modifies this
      ensures prompt == "" ==> r == Err(EmptyPrompt)
      ensures prompt != "" && id in old(inflight) ==> r == Err(DuplicateRequest(id))
      ensures prompt != "" && id !in old(inflight) ==> r == Ok(Outputs(config, prompt, maxTokens))
      ensures inflight == old(inflight)
    {
      var error := Begin(prompt, id);
      if error != None {
        return Err(error.value);
      }
      var outputs := Run(prompt, maxTokens);
      End(id);
      return Ok(outputs);
    }
  }

  function Join(parts: seq<string>): string {
    if parts == [] then "" else parts[0] + Join(parts[1..])
  }

  lemma {:induction false} JoinSnoc(parts: seq<string>, last: string)
    ensures Join(parts + [last]) == Join(parts) + last
  {
    if parts != [] {
      assert (parts + [last])[1..] == parts[1..] + [last];
      JoinSnoc(parts[1..], last);
    }
  }

  /** What a stream says about itself: its last output counts every token and finishes for length exactly
      when the stream is as long as the configured one; no output before it finishes. */
  lemma StreamEnds(c: Config, prompt: string, maxTokens: int)
    requires ValidConfig(c)
    ensures var outputs, n := Outputs(c, prompt, maxTokens), Tokens(c, prompt, maxTokens);
      && |outputs| == n >= 1
      && (forall i :: 0 <= i < n ==> outputs[i].tokens == i + 1 && (outputs[i].finish != "" <==> i == n - 1))
      && (outputs[n - 1].finish == "length" <==> n >= c.maxTokensPerStream)
      && (outputs[n - 1].finish == "stop" <==> n < c.maxTokensPerStream)
  {
    AtLeastOneToken(c, prompt, maxTokens);
    hide Tokens;
    assert "length"[0] != "stop"[0];
  }

  /** The limit a request runs under. */
  lemma LimitOfRequest(c: Config, maxTokens: int)
    ensures maxTokens > 0 ==> Requested(c, maxTokens) == maxTokens
    ensures maxTokens <= 0 ==> Requested(c, maxTokens) == c.maxTokensPerStream
  {
  }
}
