/** The transports under the send protocol: what the proxy and the SMTP client do
    with one attempt is one of the protocol's steps. */
module SendChain {
  import opened Wrappers
  import opened SendClient
  import opened SendProtocol
  import Proxy
  import Smtp = SmtpDelivery

  /** A submit's POST through the proxy puts one request on its way, or none when
      the proxy turns the call down itself. */
  method PostThroughProxy(ghost s: System, refusal: Option<string>, replies: nat -> Proxy.Reply)
    returns (r: Proxy.Response, sends: nat, ghost s1: System)
    requires Submits(s.client, true)
    ensures s1 == var submitted := Next(s, Submit(true));
                  if sends == 1 then submitted else Next(submitted, Lose(|s.exchanges|))
    ensures sends <= 1 && |s1.exchanges| == |s.exchanges| + 1 && s1.exchanges[..|s.exchanges|] == s.exchanges
    ensures AtStage(s1, |s.exchanges|, Queued) <==> sends == 1
    ensures sends == 0 <==> refusal.Some?
  {
    r, sends := Proxy.Forward(false, refusal, replies);
    s1 := Next(s, Submit(true));
    if sends == 0 {
      s1 := Next(s1, Lose(|s.exchanges|));
    }
  }

  /** What a session may have done to the mail: `took` only if it was written;
      taken for sure on 250, not taken on any other verdict. */
  ghost predicate Honest(from: Smtp.Address, addresses: seq<Smtp.Address>, s: Smtp.Session, took: bool) {
    var wrote, verdict := Smtp.ReachesData(from, addresses, s), s.replies(5 + |addresses|);
    && (took ==> wrote)
    && (wrote && !s.dataBreaks && verdict.Code? ==> (took <==> verdict == Smtp.Code(250)))
  }

  /** The mail was written, and no verdict on it came back. */
  ghost predicate VerdictLost(from: Smtp.Address, addresses: seq<Smtp.Address>, s: Smtp.Session) {
    Smtp.ReachesData(from, addresses, s) && (s.dataBreaks || s.replies(5 + |addresses|) == Smtp.Broken)
  }

  /** The owner's call to the mail server is one Deliver or one Bounce of its
      exchange: the mail counts as delivered exactly when the server took it, no
      earlier session can have taken it, and it goes out behind a reported
      failure only when its verdict was lost. */
  method DeliverOnWire(ghost s: System, k: nat, from: Smtp.Address, addresses: seq<Smtp.Address>,
                       sessions: nat -> Smtp.Session, ghost took: nat -> bool, messageId: string)
    returns (failure: Option<Smtp.Failure>, used: nat, ghost step: Step)
    requires AtStage(s, k, OnWire)
    requires forall i: nat :: Honest(from, addresses, sessions(i), took(i))
    ensures 1 <= used <= 2 && Enabled(s, step)
    ensures step == if failure == None then Deliver(k, Some(messageId)) else Bounce(k, took(used - 1))
    ensures Next(s, step).exchanges[k].delivered <==> took(used - 1)
    ensures used == 2 ==> !took(0)
    ensures IsLostAck(step) ==> VerdictLost(from, addresses, sessions(used - 1))
  {
    ghost var writes;
    failure, used, writes := Smtp.SendRaw(from, addresses, sessions);
    assert Honest(from, addresses, sessions(used - 1), took(used - 1)) && Honest(from, addresses, sessions(0), took(0));
    step := if failure == None then Deliver(k, Some(messageId)) else Bounce(k, took(used - 1));
  }
}
