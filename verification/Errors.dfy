/** Exceptions the harness meets, and the predicates that classify them. */
module Errors {
  import opened Common

  datatype GrpcCode =
    | OK | Cancelled | Unknown | InvalidArgument | DeadlineExceeded | NotFound | AlreadyExists
    | PermissionDenied | ResourceExhausted | FailedPrecondition | Aborted | OutOfRange | Unimplemented
    | Internal | Unavailable | DataLoss | Unauthenticated

  datatype ExnKind =
    | GrpcRpc(code: Option<GrpcCode>, details: string)  // no code: the source's AttributeError branch
    | HttpxConnect
    | HttpxRead
    | HttpxTimeout
    | HttpxTransport   // every other httpx.TransportError
    | HttpxOther       // an httpx.HTTPError that is not a transport error
    | Plain

  /** An exception: its class as far as the classifiers look, its type name, and its text. */
  datatype Exn = Exn(kind: ExnKind, name: string, message: string)

  function LowerChar(c: char): char {
    if 'A' <= c <= 'Z' then (c as int + 32) as char else c
  }

  /** ASCII lower case. */
  function Lower(s: string): string {
    seq(|s|, i requires 0 <= i < |s| => LowerChar(s[i]))
  }

  predicate Contains(s: string, part: string) {
    part <= s || (s != "" && Contains(s[1..], part))
  }

  const ENDPOINT_DEATH_MESSAGE_FRAGMENTS: seq<string> := [
    "failed to connect to all addresses", "all connection attempts failed",
    "nodename nor servname provided", "name or service not known", "connection refused",
    "connection reset by peer", "no route to host", "broken pipe"
  ]

  predicate HasDeathFragment(text: string) {
    exists i :: 0 <= i < |ENDPOINT_DEATH_MESSAGE_FRAGMENTS|
      && Contains(Lower(text), ENDPOINT_DEATH_MESSAGE_FRAGMENTS[i])
  }

  predicate IsTransient(e: Exn) {
    match e.kind
    case GrpcRpc(code, _) =>
      && code.Some?
      && (code.value.Unavailable? || code.value.DeadlineExceeded? || code.value.Aborted?
          || code.value.Internal? || code.value.ResourceExhausted?)
    case HttpxConnect => true
    case HttpxRead => true
    case HttpxTimeout => true
    case HttpxTransport => true
    case HttpxOther => false
    case Plain => false
  }

  predicate IsEndpointDeath(e: Exn) {
    match e.kind
    case GrpcRpc(code, details) =>
      code.Some? && (code.value.Unavailable? || code.value.Cancelled?) && HasDeathFragment(details)
    case HttpxConnect => true
    case HttpxRead => HasDeathFragment(e.message)
    case HttpxTimeout => false
    case HttpxTransport => false
    case HttpxOther => false
    case Plain => false
  }

  predicate IsEndpointDeathReason(reason: Option<string>) {
    reason.Some? && reason.value != "" && HasDeathFragment(reason.value)
  }

  /** The retry wrapper's label for an exception that escaped the dispatcher. */
  function ClassifyException(e: Exn): string {
    var msg := Lower(e.message);
    if Contains(msg, "deadline") || Contains(e.name, "TimeoutError") then "grpc_deadline_exceeded"
    else if Contains(msg, "unavailable") then "grpc_unavailable"
    else if Contains(msg, "resource_exhausted") || Contains(msg, "out of memory") || Contains(msg, "oom")
    then "single_rpc_engine_oom"
    else if Contains(Lower(e.name), "rpcerror") then "grpc_internal"
    else if Contains(Lower(e.name), "httpx") || Contains(msg, "connection") then "rest_transient"
    else "unexpected_" + e.name
  }

  /** A status's name in lower case, as the label carries it. */
  function CodeName(c: GrpcCode): string {
    match c
    case OK => "ok"
    case Cancelled => "cancelled"
    case Unknown => "unknown"
    case InvalidArgument => "invalid_argument"
    case DeadlineExceeded => "deadline_exceeded"
    case NotFound => "not_found"
    case AlreadyExists => "already_exists"
    case PermissionDenied => "permission_denied"
    case ResourceExhausted => "resource_exhausted"
    case FailedPrecondition => "failed_precondition"
    case Aborted => "aborted"
    case OutOfRange => "out_of_range"
    case Unimplemented => "unimplemented"
    case Internal => "internal"
    case Unavailable => "unavailable"
    case DataLoss => "data_loss"
    case Unauthenticated => "unauthenticated"
  }

  /** The dispatcher's label for one RPC's exception. */
  function ClassifyDispatcherExn(e: Exn): string {
    match e.kind
    case GrpcRpc(code, _) => "grpc_" + (if code.Some? then CodeName(code.value) else "unknown")
    case HttpxTimeout => "httpx_timeout"
    case HttpxConnect => "httpx_" + Lower(e.name)
    case HttpxRead => "httpx_" + Lower(e.name)
    case HttpxTransport => "httpx_" + Lower(e.name)
    case HttpxOther => "httpx_" + Lower(e.name)
    case Plain => Lower(e.name)
  }

  // ----- What the predicates decide -----

  /** Being contained is standing somewhere. */
  lemma {:induction false} ContainsIff(s: string, part: string)
    ensures Contains(s, part) <==> exists i :: 0 <= i <= |s| && part <= s[i..]
  {
    assert s[0..] == s;
    if s != "" {
      ContainsIff(s[1..], part);
      if Contains(s[1..], part) {
        var i :| 0 <= i <= |s| - 1 && part <= s[1..][i..];
        assert s[1..][i..] == s[i + 1..];
      } else {
        forall i | 0 < i <= |s| ensures !(part <= s[i..]) {
          assert s[1..][i - 1..] == s[i..];
        }
      }
    }
  }

  /** One of the fragments stands somewhere in the text, upper and lower case apart. */
  ghost predicate FragmentStands(text: string) {
    exists f, i :: 0 <= f < |ENDPOINT_DEATH_MESSAGE_FRAGMENTS| && 0 <= i <= |text|
      && ENDPOINT_DEATH_MESSAGE_FRAGMENTS[f] <= Lower(text)[i..]
  }

  lemma DeathFragmentIff(text: string)
    ensures HasDeathFragment(text) <==> FragmentStands(text)
    ensures HasDeathFragment("") == false
  {
    hide ENDPOINT_DEATH_MESSAGE_FRAGMENTS;
    forall f | 0 <= f < |ENDPOINT_DEATH_MESSAGE_FRAGMENTS|
      ensures Contains(Lower(text), ENDPOINT_DEATH_MESSAGE_FRAGMENTS[f])
        <==> exists i :: 0 <= i <= |text| && ENDPOINT_DEATH_MESSAGE_FRAGMENTS[f] <= Lower(text)[i..]
    {
      ContainsIff(Lower(text), ENDPOINT_DEATH_MESSAGE_FRAGMENTS[f]);
    }
    NoFragmentInNothing();
  }

  lemma NoFragmentInNothing()
    ensures HasDeathFragment("") == false
  {
    assert Lower("") == "";
  }

  /** A text that holds a fragment in any case of letters reports a death. */
  lemma FragmentReports(before: string, part: string, rest: string, f: nat)
    requires f < |ENDPOINT_DEATH_MESSAGE_FRAGMENTS| && Lower(part) == ENDPOINT_DEATH_MESSAGE_FRAGMENTS[f]
    ensures HasDeathFragment(before + part + rest)
  {
    hide ENDPOINT_DEATH_MESSAGE_FRAGMENTS;
    var text := before + part + rest;
    assert Lower(text)[|before|..] == Lower(part) + Lower(rest);
    ContainsIff(Lower(text), ENDPOINT_DEATH_MESSAGE_FRAGMENTS[f]);
  }

  /** The exceptions that mean a dead endpoint: a connect error always; a read error, and a call that was
      unavailable or cancelled, with a fragment in the text; nothing else. */
  lemma DeathExactly(e: Exn)
    ensures IsEndpointDeath(e) <==>
      || e.kind == HttpxConnect
      || (e.kind == HttpxRead && HasDeathFragment(e.message))
      || (e.kind.GrpcRpc? && e.kind.code in {Some(Unavailable), Some(Cancelled)} && HasDeathFragment(e.kind.details))
  {
  }

  /** The exceptions worth a retry: five gRPC statuses and every httpx transport error. */
  lemma TransientExactly(e: Exn)
    ensures IsTransient(e) <==>
      || e.kind in {HttpxConnect, HttpxRead, HttpxTimeout, HttpxTransport}
      || (e.kind.GrpcRpc? && e.kind.code in
            {Some(Unavailable), Some(DeadlineExceeded), Some(Aborted), Some(Internal), Some(ResourceExhausted)})
  {
  }

  predicate SaysDeadline(e: Exn) {
    Contains(Lower(e.message), "deadline") || Contains(e.name, "TimeoutError")
  }

  predicate SaysOutOfMemory(e: Exn) {
    var msg := Lower(e.message);
    Contains(msg, "resource_exhausted") || Contains(msg, "out of memory") || Contains(msg, "oom")
  }

  /** The labels of escaped exceptions, the first sign that applies deciding. */
  lemma EscapedLabels(e: Exn)
    ensures var msg, label_ := Lower(e.message), ClassifyException(e);
      && (SaysDeadline(e) <==> label_ == "grpc_deadline_exceeded")
      && (!SaysDeadline(e) && Contains(msg, "unavailable") <==> label_ == "grpc_unavailable")
      && (!SaysDeadline(e) && !Contains(msg, "unavailable") && SaysOutOfMemory(e) <==> label_ == "single_rpc_engine_oom")
      && (label_ == "grpc_internal" ==> Contains(Lower(e.name), "rpcerror"))
      && (label_ == "rest_transient" ==> Contains(Lower(e.name), "httpx") || Contains(msg, "connection"))
      && (!SaysDeadline(e) && !Contains(msg, "unavailable") && !SaysOutOfMemory(e)
          && !Contains(Lower(e.name), "rpcerror") && !Contains(Lower(e.name), "httpx") && !Contains(msg, "connection")
          <==> label_ == "unexpected_" + e.name)
  {
    hide Contains, Lower;
    assert "grpc_deadline_exceeded"[5] == 'd' && "grpc_unavailable"[5] == 'u' && "grpc_internal"[5] == 'i';
    assert "single_rpc_engine_oom"[0] == 's' && "rest_transient"[0] == 'r' && ("unexpected_" + e.name)[0] == 'u';
  }
}
