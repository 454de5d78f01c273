/** The composer's half of sending: which request id an attempt uses, and what
    each answer does to the composer. */
module SendClient {
  import opened Wrappers

  type RequestId = nat
  type Fingerprint = string

  datatype Outcome = Refused | Unknown | InFlight

  datatype Attempt = Attempt(requestId: RequestId, fingerprint: Fingerprint, outcome: Outcome)

  /** What the proxy hands back: an HTTP success, an HTTP error with its code, or
      no answer at all. */
  datatype CallResult = Fine | Http(code: Option<string>) | Fail

  const IN_FLIGHT := "send-in-flight"

  predicate Refuses(result: CallResult) { result.Http? && result.code != Some(IN_FLIGHT) }

  predicate Uncertain(last: Option<Attempt>) { last.Some? && last.value.outcome != Refused }

  /** The id an attempt uses, and whether to warn that the previous mail may
      still arrive. */
  function RequestIdFor(last: Option<Attempt>, fingerprint: Fingerprint, minted: RequestId): (RequestId, bool) {
    if last.Some? && last.value.fingerprint == fingerprint then
      (if Uncertain(last) then last.value.requestId else minted, false)
    else (minted, Uncertain(last))
  }

  datatype Phase = Editing | Sending | Ended(outcome: Outcome)

  /** The composer. After a delivered mail the phase stays `Sending`, so it never
      submits again; its parent unmounts it. */
  datatype Client = Client(attempt: Option<Attempt>, phase: Phase, draft: Fingerprint)

  predicate Submits(c: Client, valid: bool) { c.phase != Sending && valid }

  function BeginSubmit(c: Client, valid: bool): Client {
    if Submits(c, valid) then c.(phase := Sending) else c
  }

  function EndSubmit(c: Client, requestId: RequestId, fingerprint: Fingerprint, result: CallResult): Client {
    match result
    case Fine => c.(attempt := None)
    case _ =>
      var outcome := if result.Fail? then Unknown else if Refuses(result) then Refused else InFlight;
      c.(attempt := Some(Attempt(requestId, fingerprint, outcome)), phase := Ended(outcome))
  }

  /** The composer as it runs: component state set across an awaited call. */
  class Composer {
    var attempt: Option<Attempt>
    var phase: Phase
    var draft: Fingerprint

    constructor (fingerprint: Fingerprint)
      ensures View() == Client(None, Editing, fingerprint)
    {
      attempt, phase, draft := None, Editing, fingerprint;
    }

    function View(): Client
      reads this
    {
      Client(attempt, phase, draft)
    }

    method Edit(fingerprint: Fingerprint)
      modifies this
      ensures View() == old(View()).(draft := fingerprint)
    {
      draft := fingerprint;
    }

    /** `submit` up to the awaited call; the id to send with, when it sends. */
    method Submit(valid: bool, minted: RequestId) returns (id: Option<RequestId>)
      modifies this
      ensures View() == BeginSubmit(old(View()), valid)
      ensures id == if Submits(old(View()), valid) then Some(RequestIdFor(old(attempt), draft, minted).0) else None
      ensures !valid || old(phase) == Sending ==> id == None && View() == old(View())
      ensures valid && old(phase) != Sending ==> id.Some? && phase == Sending
    {
      if phase == Sending || !valid {
        return None;
      }
      var (requestId, _) := RequestIdFor(attempt, draft, minted);
      phase := Sending;
      return Some(requestId);
    }

    /** `submit` after the awaited call, for the fingerprint it captured. */
    method Answer(requestId: RequestId, fingerprint: Fingerprint, result: CallResult) returns (sent: bool)
      modifies this
      ensures View() == EndSubmit(old(View()), requestId, fingerprint, result)
      ensures sent <==> result == Fine
      ensures sent ==> attempt == None && phase == old(phase)
      ensures result == Fail ==> attempt == Some(Attempt(requestId, fingerprint, Unknown))
      ensures result.Http? ==>
                var outcome := if result.code == Some("send-in-flight") then InFlight else Refused;
                attempt == Some(Attempt(requestId, fingerprint, outcome))
      ensures !sent ==> phase == Ended(attempt.value.outcome)
    {
      if result.Fine? {
        attempt := None;
        return true;
      }
      if result.Fail? {
        attempt := Some(Attempt(requestId, fingerprint, Unknown));
        phase := Ended(Unknown);
      } else if result.code == Some(IN_FLIGHT) {
        attempt := Some(Attempt(requestId, fingerprint, InFlight));
        phase := Ended(InFlight);
      } else {
        attempt := Some(Attempt(requestId, fingerprint, Refused));
        phase := Ended(Refused);
      }
      return false;
    }
  }

  /** The live warning: the last mail may still arrive, and the draft differs
      from it. */
  predicate DuplicateRisk(c: Client) {
    Uncertain(c.attempt) && c.attempt.value.fingerprint != c.draft
  }

  /** The live warning is exactly the warning the next submit computes. */
  lemma WarningsAgree(c: Client, minted: RequestId)
    ensures DuplicateRisk(c) <==> RequestIdFor(c.attempt, c.draft, minted).1
  {
  }

  /** An id is used again exactly for the same content after an unclear end. */
  lemma ReusedExactlyWhenUnclear(last: Option<Attempt>, fingerprint: Fingerprint, minted: RequestId)
    requires last.Some? ==> last.value.requestId != minted
    ensures RequestIdFor(last, fingerprint, minted).0 != minted <==> Uncertain(last) && last.value.fingerprint == fingerprint
    ensures var id := RequestIdFor(last, fingerprint, minted).0;
            id != minted ==> id == last.value.requestId
  {
  }
}

/** The server's half: one row per request id, claimed before the mail goes out. */
module SendStore {
  import opened Wrappers
  import opened SendClient

  datatype Status = Unmarked | Pending | Sent | Failed

  datatype SendRow = SendRow(status: Status, claimedAt: Option<int>, messageId: Option<string>, error: Option<string>)

  const LEASE_MS := 5 * 60 * 1000

  datatype Claim = Claimed | Busy | Completed(messageId: Option<string>) | FailedWith(code: string)

  predicate Stale(row: SendRow, now: int) {
    row.status == Pending && row.claimedAt.Some? && now - row.claimedAt.value > LEASE_MS
  }

  function ClaimSend(rows: map<RequestId, SendRow>, id: RequestId, now: int): (Claim, map<RequestId, SendRow>) {
    var mine := SendRow(Pending, Some(now), None, None);
    if id !in rows then (Claimed, rows[id := mine])
    else
      var row := rows[id];
      if row.status == Sent then (Completed(row.messageId), rows)
      else if row.status == Failed then (FailedWith(if row.error.Some? then row.error.value else "smtp-send-failed"), rows)
      else if row.status == Unmarked && row.messageId.Some? then (Completed(row.messageId), rows)
      else if Stale(row, now) then (Claimed, rows[id := row.(claimedAt := Some(now))])
      else (Busy, rows)
  }

  function CompleteSend(rows: map<RequestId, SendRow>, id: RequestId, messageId: string): map<RequestId, SendRow> {
    if id in rows then rows[id := rows[id].(status := Sent, messageId := Some(messageId))] else rows
  }

  function FailSend(rows: map<RequestId, SendRow>, id: RequestId, code: string): map<RequestId, SendRow> {
    if id in rows then rows[id := rows[id].(status := Failed, error := Some(code))] else rows
  }

  /** The send rows of the audit table, updated in place. */
  class Store {
    var rows: map<RequestId, SendRow>

    /** INSERT first; on the unique index's violation, read what is there. */
    method Claim(id: RequestId, now: int) returns (c: Claim)
      modifies this
      ensures (c, rows) == ClaimSend(old(rows), id, now)
    {
      if id !in rows {
        rows := rows[id := SendRow(Pending, Some(now), None, None)];
        return Claimed;
      }
      var row := rows[id];
      match row.status {
        case Sent => return Completed(row.messageId);
        case Failed => return FailedWith(if row.error.Some? then row.error.value else "smtp-send-failed");
        case Unmarked =>
          if row.messageId.Some? {
            return Completed(row.messageId);
          }
        case Pending =>
      }
      var stale := row.claimedAt.Some? && now - row.claimedAt.value > LEASE_MS;
      if stale && row.status == Pending {
        rows := rows[id := row.(claimedAt := Some(now))];
        return Claimed;
      }
      return Busy;
    }

    method Complete(id: RequestId, messageId: string)
      modifies this
      ensures rows == CompleteSend(old(rows), id, messageId)
    {
      if id in rows {
        rows := rows[id := rows[id].(status := Sent, messageId := Some(messageId))];
      }
    }

    method Fail(id: RequestId, code: string)
      modifies this
      ensures rows == FailSend(old(rows), id, code)
    {
      if id in rows {
        rows := rows[id := rows[id].(status := Failed, error := Some(code))];
      }
    }
  }

  /** A claim is granted exactly for a new id, or for one whose claim has gone
      stale, and touches no other id. */
  lemma ClaimIsExclusive(rows: map<RequestId, SendRow>, id: RequestId, now: int)
    ensures var (c, rows1) := ClaimSend(rows, id, now);
            && (c == Claimed <==> id !in rows || Stale(rows[id], now))
            && (c != Claimed ==> rows1 == rows)
            && rows1.Keys == rows.Keys + (if c == Claimed then {id} else {})
            && (forall other | other in rows && other != id :: rows1[other] == rows[other])
            && (c == Claimed ==> rows1[id].status == Pending && !Stale(rows1[id], now))
  {
  }

  /** A row without a status is never taken over: it replays its message id, or
      stays in flight. */
  lemma UnmarkedIsNeverTaken(rows: map<RequestId, SendRow>, id: RequestId, now: int)
    requires id in rows && rows[id].status == Unmarked
    ensures ClaimSend(rows, id, now) == (if rows[id].messageId.Some? then Completed(rows[id].messageId) else Busy, rows)
  {
  }

  /** Two requests with one id inside the lease: only the first is granted. */
  lemma SecondClaimWaits(rows: map<RequestId, SendRow>, id: RequestId, now: int, later: int)
    requires ClaimSend(rows, id, now).0 == Claimed && later - now <= 300_000
    ensures ClaimSend(ClaimSend(rows, id, now).1, id, later) == (Busy, ClaimSend(rows, id, now).1)
  {
  }

  /** What was recorded first is what every later request with the id is told. */
  lemma AnswersAreReplayed(rows: map<RequestId, SendRow>, id: RequestId, messageId: string, code: string, now: int)
    requires id in rows
    ensures ClaimSend(CompleteSend(rows, id, messageId), id, now)
         == (Completed(Some(messageId)), CompleteSend(rows, id, messageId))
    ensures ClaimSend(FailSend(rows, id, code), id, now) == (FailedWith(code), FailSend(rows, id, code))
  {
  }
}
