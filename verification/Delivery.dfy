/** The shell's proxy: how often one call reaches the server. */
module Proxy {
  import opened Wrappers

  /** What one HTTP attempt meets: no answer, or a status whose body arrives or
      breaks off. */
  datatype Reply = Unreached(timeout: bool) | Started(status: nat, body: Option<string>, timeout: bool)

  datatype Response = Answered(status: nat, body: string) | NoAnswer(code: string)

  function FailureCode(timeout: bool): string { if timeout then "timeout" else "transport" }

  /** The answer one attempt stands for. */
  function AnswerTo(reply: Reply): Response {
    match reply
    case Unreached(timeout) => NoAnswer(FailureCode(timeout))
    case Started(status, Some(body), _) => Answered(status, body)
    case Started(_, None, timeout) => NoAnswer(FailureCode(timeout))
  }

  /** A POST is sent once. A GET is sent twice exactly when the first attempt
      never got through, and not for lack of time. */
  method Forward(get: bool, refusal: Option<string>, replies: nat -> Reply) returns (r: Response, sends: nat)
    ensures sends == if refusal.Some? then 0 else if get && replies(0) == Unreached(false) then 2 else 1
    ensures r == if refusal.Some? then NoAnswer(refusal.value) else AnswerTo(replies(sends - 1))
    ensures refusal == None ==>
              match replies(sends - 1)
              case Started(status, Some(body), _) => r == Answered(status, body)
              case Started(_, None, timeout) => r == NoAnswer(if timeout then "timeout" else "transport")
              case Unreached(timeout) => r == NoAnswer(if timeout then "timeout" else "transport")
  {
    sends := 0;
    if refusal.Some? {
      return NoAnswer(refusal.value), 0;
    }
    var attempts := if get then 2 else 1;
    var last: Option<Response> := None;
    for attempt := 0 to attempts
      invariant sends == attempt && (attempt > 0 ==> replies(0) == Unreached(false) && get)
      invariant attempt < attempts
    {
      var reply := replies(attempt);
      sends := sends + 1;
      match reply {
        case Started(status, body, timeout) =>
          if body.Some? {
            return Answered(status, body.value), sends;
          }
          last := Some(NoAnswer(FailureCode(timeout)));
          break;
        case Unreached(timeout) =>
          if !timeout && attempt + 1 < attempts {
            last := Some(NoAnswer(FailureCode(timeout)));
            continue;
          }
          return NoAnswer(FailureCode(timeout)), sends;
      }
    }
    return if last.Some? then last.value else NoAnswer("transport"), sends;
  }
}

/** Handing one mail to the mail server, with a retry that must not send twice. */
module SmtpDelivery {
  import opened Wrappers

  datatype Phase = Auth | PreData | PostData

  /** A command's reply: its code, or a connection that breaks. */
  datatype Reply = Code(code: nat) | Broken

  datatype Failure = Failure(retryable: bool, badCredentials: bool)

  /** What one session meets: the connection, then reply after reply; whether
      writing the mail itself breaks. */
  datatype Session = Session(connects: bool, replies: nat -> Reply, dataBreaks: bool)

  datatype Address = Address(valid: bool)

  function TransportFailure(phase: Phase): Failure { Failure(phase != PostData, false) }

  predicate Temporary(code: nat) { 400 <= code <= 499 }

  function FailureForCode(code: nat, phase: Phase): Failure {
    match phase
    case Auth => Failure(Temporary(code), !Temporary(code))
    case PostData => Failure(false, false)
    case PreData => Failure(Temporary(code), false)
  }

  function Expect(reply: Reply, expected: nat, phase: Phase): Option<Failure> {
    match reply
    case Broken => Some(TransportFailure(phase))
    case Code(code) => if code == expected then None else Some(FailureForCode(code, phase))
  }

  /** The reply to the i-th recipient, after greeting, EHLO, AUTH and MAIL. */
  function ToRecipient(replies: nat -> Reply, i: nat): Reply { replies(4 + i) }

  predicate Passable(reply: Reply) { reply.Code? && !Temporary(reply.code) }

  ghost predicate Anyone(replies: nat -> Reply, n: nat) {
    exists i :: 0 <= i < n && ToRecipient(replies, i) == Code(250)
  }

  /** Every recipient was answered, none with a temporary error, at least one
      accepted. */
  ghost predicate Recipients(addresses: seq<Address>, replies: nat -> Reply) {
    && (forall i :: 0 <= i < |addresses| ==> addresses[i].valid && Passable(ToRecipient(replies, i)))
    && Anyone(replies, |addresses|)
  }

  /** The session gets as far as writing the mail. */
  ghost predicate ReachesData(from: Address, addresses: seq<Address>, s: Session) {
    && from.valid && s.connects
    && s.replies(0) == Code(220) && s.replies(1) == Code(250) && s.replies(2) == Code(235) && s.replies(3) == Code(250)
    && Recipients(addresses, s.replies) && s.replies(4 + |addresses|) == Code(354)
  }

  /** The mail is written whole, and the server takes it. */
  ghost predicate Accepts(from: Address, addresses: seq<Address>, s: Session) {
    ReachesData(from, addresses, s) && !s.dataBreaks && s.replies(5 + |addresses|) == Code(250)
  }

  /** A reply after which trying again may help: none, or a temporary error. */
  predicate Soft(reply: Reply) { reply.Broken? || 400 <= reply.code <= 499 }

  const GREETING: seq<nat> := [220, 250, 235, 250]

  /** The first `n` of greeting, EHLO, AUTH and MAIL went well. */
  ghost predicate Greeted(s: Session, n: nat)
    requires n <= 4
  {
    forall j :: 0 <= j < n ==> s.replies(j) == Code(GREETING[j])
  }

  ghost predicate GreetedSoftly(s: Session) {
    exists k :: 0 <= k < 4 && Greeted(s, k) && Soft(s.replies(k))
  }

  /** Some recipient is answered softly, all before it being acceptable. */
  ghost predicate RecipientsSoftly(addresses: seq<Address>, replies: nat -> Reply) {
    exists i :: 0 <= i < |addresses| && addresses[i].valid && Soft(ToRecipient(replies, i))
      && forall j :: 0 <= j < i ==> addresses[j].valid && Passable(ToRecipient(replies, j))
  }

  /** The mail is not written, and the first thing that goes wrong is an invalid
      sender, a refused connection, or a reply after which trying again may
      help. */
  ghost predicate WorthRetrying(from: Address, addresses: seq<Address>, s: Session) {
    || !from.valid || !s.connects || GreetedSoftly(s)
    || (Greeted(s, 4) && RecipientsSoftly(addresses, s.replies))
    || (Greeted(s, 4) && Recipients(addresses, s.replies) && Soft(s.replies(4 + |addresses|)))
  }

  method AcceptRecipients(addresses: seq<Address>, replies: nat -> Reply) returns (failure: Option<Failure>)
    ensures failure == None <==> Recipients(addresses, replies)
    ensures failure.Some? ==> !failure.value.badCredentials
    ensures failure.Some? && failure.value.retryable <==> RecipientsSoftly(addresses, replies)
  {
    if addresses == [] {
      return Some(Failure(false, false));
    }
    var accepted, lastRejection := 0, 550;
    for i := 0 to |addresses|
      invariant forall k :: 0 <= k < i ==> addresses[k].valid && Passable(ToRecipient(replies, k))
      invariant accepted > 0 <==> Anyone(replies, i)
      invariant !Temporary(lastRejection)
    {
      if !addresses[i].valid {
        return Some(Failure(false, false));
      }
      match ToRecipient(replies, i) {
        case Broken => return Some(TransportFailure(PreData));
        case Code(code) =>
          if code == 250 {
            accepted := accepted + 1;
          } else if Temporary(code) {
            return Some(FailureForCode(code, PreData));
          } else {
            lastRejection := code;
          }
      }
    }
    if accepted == 0 {
      return Some(FailureForCode(lastRejection, PreData));
    }
    return None;
  }

  /** The server answered AUTH, and turned it down for good. */
  ghost predicate TurnedDown(from: Address, s: Session) {
    && from.valid && s.connects && s.replies(0) == Code(220) && s.replies(1) == Code(250)
    && s.replies(2).Code? && s.replies(2) != Code(235) && !Temporary(s.replies(2).code)
  }

  /** One session. A failure that allows a retry never wrote the mail. */
  method RunSession(from: Address, addresses: seq<Address>, s: Session) returns (failure: Option<Failure>, wrote: bool)
    ensures wrote <==> ReachesData(from, addresses, s)
    ensures failure == None <==> Accepts(from, addresses, s)
    ensures failure.Some? && failure.value.retryable <==> WorthRetrying(from, addresses, s)
    ensures WorthRetrying(from, addresses, s) ==> !wrote
    ensures failure.Some? && failure.value.badCredentials <==> TurnedDown(from, s)
  {
    wrote := false;
    if !from.valid {
      return Some(Failure(true, false)), false;
    }
    if !s.connects {
      return Some(TransportFailure(PreData)), false;
    }
    failure := Expect(s.replies(0), 220, PreData);
    if failure.Some? { return; }
    failure := Expect(s.replies(1), 250, PreData);
    if failure.Some? { return; }
    failure := Expect(s.replies(2), 235, Auth);
    if failure.Some? { return; }
    failure := Expect(s.replies(3), 250, PreData);
    if failure.Some? { return; }
    failure := AcceptRecipients(addresses, s.replies);
    if failure.Some? { return; }
    failure := Expect(s.replies(4 + |addresses|), 354, PreData);
    if failure.Some? { return; }
    wrote := true;
    if s.dataBreaks {
      return Some(TransportFailure(PostData)), wrote;
    }
    failure := Expect(s.replies(5 + |addresses|), 250, PostData);
  }

  /** At most two sessions, and the mail is written in at most one of them: in
      the first or in a second one that follows a failure before the mail. */
  method SendRaw(from: Address, addresses: seq<Address>, sessions: nat -> Session)
    returns (failure: Option<Failure>, used: nat, ghost writes: nat)
    ensures 1 <= used <= 2
    ensures writes == if ReachesData(from, addresses, sessions(used - 1)) then 1 else 0
    ensures used == 2 <==> WorthRetrying(from, addresses, sessions(0))
    ensures used == 2 ==> !ReachesData(from, addresses, sessions(0))
    ensures failure == None <==> Accepts(from, addresses, sessions(used - 1))
  {
    var attempt := 0;
    writes := 0;
    while true
      invariant 0 <= attempt <= 1 && writes == 0
      invariant attempt == 1 ==> !ReachesData(from, addresses, sessions(0)) && WorthRetrying(from, addresses, sessions(0))
      decreases 2 - attempt
    {
      var session := sessions(attempt);
      attempt := attempt + 1;
      var wrote;
      failure, wrote := RunSession(from, addresses, session);
      writes := writes + if wrote then 1 else 0;
      if failure == None {
        return None, attempt, writes;
      }
      if failure.value.retryable && attempt == 1 {
        continue;
      }
      return failure, attempt, writes;
    }
  }
}
