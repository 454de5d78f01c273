/** Sending a mail over a channel that loses, delays and reorders: the composer,
    any number of server handlers, the send rows and the mail server. */
module SendProtocol {
  import opened Wrappers
  import opened SendClient
  import opened SendStore

  /** Where one POST is: on its way, owning the send, past the mail server, or
      answered. */
  datatype Stage =
    | Queued
    | OnWire
    | Accepted(messageId: Option<string>)
    | Rejected
    | Answered(answer: CallResult)
    | Gone

  /** `owner`: it was granted the claim. `delivered`: its mail went out. */
  datatype Exchange = Exchange(id: RequestId, stage: Stage, owner: bool, delivered: bool)

  /** `minted[i]` is the content the composer first used id i for; `waiting` is
      the exchange it awaits. */
  datatype System = System(minted: seq<Fingerprint>, client: Client, waiting: Option<nat>,
                           exchanges: seq<Exchange>, rows: map<RequestId, SendRow>, clock: int)

  function Start(draft: Fingerprint): System {
    System([], Client(None, Editing, draft), None, [], map[], 0)
  }

  datatype Step =
    | Edit(draft: Fingerprint)
    | Submit(valid: bool)
    | GiveUp
    | Receive
    | Lose(k: nat)
    | Refuse(k: nat, reason: Option<string>)
    | TakeClaim(k: nat)
    | Deliver(k: nat, messageId: Option<string>)
    | Bounce(k: nat, wentOut: bool)
    | Record(k: nat, written: bool, code: string)
    | Die(k: nat)
    | Tick(now: int)

  predicate AtStage(s: System, k: nat, stage: Stage) { k < |s.exchanges| && s.exchanges[k].stage == stage }

  predicate AfterSmtp(e: Exchange) { e.stage.Accepted? || e.stage.Rejected? }

  predicate Enabled(s: System, step: Step) {
    match step
    case Edit(_) | Submit(_) | Tick(_) => true
    case GiveUp => s.waiting.Some?
    case Receive => s.waiting.Some? && s.waiting.value < |s.exchanges| && s.exchanges[s.waiting.value].stage.Answered?
    case Lose(k) => AtStage(s, k, Queued)
    case Refuse(k, reason) => AtStage(s, k, Queued) && reason != Some(IN_FLIGHT)
    case TakeClaim(k) => AtStage(s, k, Queued)
    case Deliver(k, _) => AtStage(s, k, OnWire)
    case Bounce(k, _) => AtStage(s, k, OnWire)
    case Record(k, _, code) => k < |s.exchanges| && AfterSmtp(s.exchanges[k]) && code != IN_FLIGHT
    case Die(k) => k < |s.exchanges| && (s.exchanges[k].stage == OnWire || AfterSmtp(s.exchanges[k]))
  }

  /** What the composer hears, for the content it submitted. */
  function Heard(s: System, result: CallResult): System {
    if s.minted == [] then s
    else
      var id := |s.minted| - 1;
      s.(client := EndSubmit(s.client, id, s.minted[id], result), waiting := None)
  }

  function With(s: System, k: nat, e: Exchange): System
    requires k < |s.exchanges|
  {
    s.(exchanges := s.exchanges[k := e])
  }

  function Submitted(s: System, valid: bool): System {
    if !Submits(s.client, valid) then s
    else
      var id := RequestIdFor(s.client.attempt, s.client.draft, |s.minted|).0;
      s.(minted := if id == |s.minted| then s.minted + [s.client.draft] else s.minted,
         client := BeginSubmit(s.client, valid),
         waiting := Some(|s.exchanges|),
         exchanges := s.exchanges + [Exchange(id, Queued, false, false)])
  }

  function ClaimAnswer(c: Claim): Stage {
    match c
    case Claimed => OnWire
    case Busy => Answered(Http(Some(IN_FLIGHT)))
    case Completed(_) => Answered(Fine)
    case FailedWith(_) => Answered(Http(None))
  }

  function Next(s: System, step: Step): System
    requires Enabled(s, step)
  {
    match step
    case Edit(draft) => s.(client := s.client.(draft := draft))
    case Tick(now) => s.(clock := now)
    case Submit(valid) => Submitted(s, valid)
    case GiveUp => Heard(s, Fail)
    case Receive => Heard(s, s.exchanges[s.waiting.value].stage.answer)
    case Lose(k) => With(s, k, s.exchanges[k].(stage := Gone))
    case Die(k) => With(s, k, s.exchanges[k].(stage := Gone))
    case Refuse(k, reason) => With(s, k, s.exchanges[k].(stage := Answered(Http(reason))))
    case TakeClaim(k) =>
      var e := s.exchanges[k];
      var (c, rows) := ClaimSend(s.rows, e.id, s.clock);
      With(s, k, e.(stage := ClaimAnswer(c), owner := c == Claimed)).(rows := rows)
    case Deliver(k, messageId) => With(s, k, s.exchanges[k].(stage := Accepted(messageId), delivered := true))
    case Bounce(k, wentOut) => With(s, k, s.exchanges[k].(stage := Rejected, delivered := wentOut))
    case Record(k, written, code) =>
      var e := s.exchanges[k];
      if e.stage.Accepted? then
        With(s, k, e.(stage := Answered(Fine))).(
          rows := if written && e.stage.messageId.Some? then CompleteSend(s.rows, e.id, e.stage.messageId.value) else s.rows)
      else
        With(s, k, e.(stage := Answered(Http(Some(code))))).(rows := if written then FailSend(s.rows, e.id, code) else s.rows)
  }

  // ---------------------------------------------------- what can go wrong --

  /** A handler that owned the send and was killed before its mail went out. */
  predicate Killed(e: Exchange) { e.owner && e.stage == Gone && !e.delivered }

  /** An owner of the send that was not: it is sending, has sent, or has
      answered. */
  predicate Live(e: Exchange) { e.owner && !Killed(e) }

  predicate HasLive(s: System, id: RequestId) {
    exists l | 0 <= l < |s.exchanges| :: s.exchanges[l].id == id && Live(s.exchanges[l])
  }

  /** No later request with this id can be granted the send: its row is failed,
      or an owner has answered. */
  predicate Blocked(s: System, id: RequestId) {
    id in s.rows
    && (s.rows[id].status == Failed
        || exists l | 0 <= l < |s.exchanges| ::
             s.exchanges[l].id == id && s.exchanges[l].owner && s.exchanges[l].stage.Answered?)
  }

  /** The mail of this exchange has gone out or still may. */
  predicate MaySend(s: System, e: Exchange) {
    e.delivered || e.stage == OnWire || (e.stage == Queued && !Blocked(s, e.id))
  }

  /** No mail of this id went out, and none ever will. */
  predicate Dead(s: System, id: RequestId) {
    forall k | 0 <= k < |s.exchanges| && s.exchanges[k].id == id :: !MaySend(s, s.exchanges[k])
  }

  /** A handler takes over a claim older than the lease whose owner was not
      killed before its mail went out. */
  predicate IsTakeover(s: System, step: Step) {
    step.TakeClaim? && AtStage(s, step.k, Queued) && s.exchanges[step.k].id in s.rows
    && Stale(s.rows[s.exchanges[step.k].id], s.clock) && HasLive(s, s.exchanges[step.k].id)
  }

  /** The mail server took the mail and its acknowledgement was lost. */
  predicate IsLostAck(step: Step) { step.Bounce? && step.wentOut }

  /** The awaited request is refused before its claim, so nothing records the
      refusal, while another request with its id has sent the mail or still may. */
  predicate IsUnrecorded(s: System, step: Step) {
    step.Refuse? && s.waiting == Some(step.k) && AtStage(s, step.k, Queued)
    && exists l | 0 <= l < |s.exchanges| ::
         l != step.k && s.exchanges[l].id == s.exchanges[step.k].id && MaySend(s, s.exchanges[l])
  }

  /** The user goes back to content submitted before the last one, a mail of
      which has gone out or still may. */
  predicate IsRevisit(s: System, step: Step) {
    step.Submit? && Submits(s.client, step.valid) && s.client.attempt.Some?
    && s.client.attempt.value.fingerprint != s.client.draft
    && exists i | 0 <= i < |s.minted| :: s.minted[i] == s.client.draft && !Dead(s, i)
  }

  datatype Permits = Permits(takeover: bool, lostAck: bool, unrecorded: bool, revisit: bool)

  const NOTHING := Permits(false, false, false, false)

  predicate Allowed(p: Permits, s: System, step: Step) {
    && Enabled(s, step)
    && (IsTakeover(s, step) ==> p.takeover) && (IsLostAck(step) ==> p.lostAck)
    && (IsUnrecorded(s, step) ==> p.unrecorded) && (IsRevisit(s, step) ==> p.revisit)
  }

  ghost predicate Runs(p: Permits, s: System, steps: seq<Step>, last: System)
    decreases |steps|
  {
    if steps == [] then last == s
    else Allowed(p, s, steps[0]) && Runs(p, Next(s, steps[0]), steps[1..], last)
  }

  // --------------------------------------------------- what the user cares --

  predicate WentOut(s: System, k: nat, content: Fingerprint) {
    k < |s.exchanges| && s.exchanges[k].delivered && s.exchanges[k].id < |s.minted| && s.minted[s.exchanges[k].id] == content
  }

  ghost predicate ContentOut(s: System, content: Fingerprint) {
    exists k: nat :: WentOut(s, k, content)
  }

  ghost predicate NoDouble(s: System) {
    forall k: nat, l: nat, content :: WentOut(s, k, content) && WentOut(s, l, content) ==> k == l
  }

  ghost predicate DeliveredId(s: System, id: RequestId) {
    exists k :: 0 <= k < |s.exchanges| && s.exchanges[k].delivered && s.exchanges[k].id == id
  }

  /** The composer has heard `sent`: it awaits nothing and is still sending. */
  predicate SentSeen(s: System) { s.client.phase == Sending && s.waiting == None }

  // ----------------------------------------- what holds whatever goes wrong --

  ghost predicate ClientFits(s: System) {
    && (s.waiting.Some? ==> s.client.phase == Sending && s.minted != []
                            && s.waiting.value < |s.exchanges| && s.exchanges[s.waiting.value].id == |s.minted| - 1)
    && (s.client.phase != Sending && s.minted != [] ==> s.client.attempt.Some?)
    && (s.client.phase != Sending && s.client.attempt.Some? ==>
          s.minted != [] && s.client.attempt.value.requestId == |s.minted| - 1
          && s.client.attempt.value.fingerprint == s.minted[|s.minted| - 1])
    && (SentSeen(s) ==> s.minted != [] && DeliveredId(s, |s.minted| - 1))
  }

  ghost predicate ExchangeFits(s: System, e: Exchange) {
    && e.id < |s.minted|
    && (e.stage.Accepted? ==> e.delivered)
    && (e.stage == Queued || e.stage == OnWire ==> !e.delivered)
    && (e.stage == Answered(Fine) ==> DeliveredId(s, e.id))
  }

  ghost predicate RowsFit(s: System) {
    forall id :: id in s.rows ==> s.rows[id].status != Unmarked && (s.rows[id].status == Sent ==> DeliveredId(s, id))
  }

  ghost predicate Fits(s: System) {
    ClientFits(s) && RowsFit(s) && forall k :: 0 <= k < |s.exchanges| ==> ExchangeFits(s, s.exchanges[k])
  }

  /** Deliveries are never taken back. */
  lemma DeliveredStays(s: System, step: Step, id: RequestId)
    requires Fits(s) && Enabled(s, step) && DeliveredId(s, id)
    ensures DeliveredId(Next(s, step), id)
  {
    var k :| 0 <= k < |s.exchanges| && s.exchanges[k].delivered && s.exchanges[k].id == id;
    assert ExchangeFits(s, s.exchanges[k]);
    var s1 := Next(s, step);
    assert s1.exchanges[k].delivered && s1.exchanges[k].id == id;
  }

  lemma RowsStep(s: System, step: Step)
    requires Fits(s) && Enabled(s, step)
    requires forall id :: DeliveredId(s, id) ==> DeliveredId(Next(s, step), id)
    ensures RowsFit(Next(s, step))
  {
    assert step.Record? && s.exchanges[step.k].stage.Accepted? ==> DeliveredId(s, s.exchanges[step.k].id);
    hide DeliveredId, ClientFits;
  }

  lemma ExchangesStep(s: System, step: Step, k: nat)
    requires Fits(s) && Enabled(s, step) && k < |Next(s, step).exchanges|
    requires forall id :: DeliveredId(s, id) ==> DeliveredId(Next(s, step), id)
    ensures ExchangeFits(Next(s, step), Next(s, step).exchanges[k])
  {
    var s1 := Next(s, step);
    assert s1.exchanges[k].delivered ==> DeliveredId(s1, s1.exchanges[k].id);
    assert k < |s.exchanges| ==> ExchangeFits(s, s.exchanges[k]);
    hide DeliveredId;
  }

  lemma ClientStep(s: System, step: Step)
    requires Fits(s) && Enabled(s, step)
    requires forall id :: DeliveredId(s, id) ==> DeliveredId(Next(s, step), id)
    ensures ClientFits(Next(s, step))
  {
    hide DeliveredId, RowsFit;
  }

  lemma FitsStep(s: System, step: Step)
    requires Fits(s) && Enabled(s, step)
    ensures Fits(Next(s, step))
  {
    var s1 := Next(s, step);
    hide ClientFits, RowsFit, ExchangeFits, DeliveredId, Next;
    forall id | DeliveredId(s, id) ensures DeliveredId(s1, id) {
      DeliveredStays(s, step, id);
    }
    ClientStep(s, step);
    RowsStep(s, step);
    forall k | 0 <= k < |s1.exchanges| ensures ExchangeFits(s1, s1.exchanges[k]) {
      ExchangesStep(s, step, k);
    }
  }

  lemma {:induction false} RunsFit(p: Permits, s: System, steps: seq<Step>, last: System)
    requires Fits(s) && Runs(p, s, steps, last)
    ensures Fits(last)
    decreases |steps|
  {
    if steps != [] {
      hide Fits, Next;
      FitsStep(s, steps[0]);
      RunsFit(p, Next(s, steps[0]), steps[1..], last);
    }
  }

  /** Whatever goes wrong: a composer that heard `sent` has had its mail go out. */
  lemma SentWasDelivered(p: Permits, draft: Fingerprint, steps: seq<Step>, last: System)
    requires Runs(p, Start(draft), steps, last) && SentSeen(last)
    ensures last.minted != [] && ContentOut(last, last.minted[|last.minted| - 1])
  {
    RunsFit(p, Start(draft), steps, last);
    var k :| 0 <= k < |last.exchanges| && last.exchanges[k].delivered && last.exchanges[k].id == |last.minted| - 1;
    assert WentOut(last, k, last.minted[|last.minted| - 1]);
  }

  // ------------------------------------------------- what holds otherwise --

  ghost predicate OwnerFits(s: System, e: Exchange) {
    && (e.delivered || e.stage == OnWire || e.stage == Rejected ==> e.owner)
    && (e.owner ==> e.id in s.rows && e.stage != Queued)
    && (e.stage == Rejected ==> !e.delivered)
  }

  ghost predicate OneOwner(s: System) {
    forall k, l :: 0 <= k < l < |s.exchanges| && Live(s.exchanges[k]) && Live(s.exchanges[l]) ==>
      s.exchanges[k].id != s.exchanges[l].id
  }

  ghost predicate FailedAreDead(s: System) {
    forall id :: id in s.rows && s.rows[id].status == Failed ==> Dead(s, id)
  }

  /** Every id but the last of a content is dead. */
  ghost predicate OldIdsAreDead(s: System) {
    forall i, j :: 0 <= i < j < |s.minted| && s.minted[i] == s.minted[j] ==> Dead(s, i)
  }

  predicate AwaitsRefusal(s: System) {
    s.waiting.Some? && s.waiting.value < |s.exchanges| && s.exchanges[s.waiting.value].stage.Answered?
    && Refuses(s.exchanges[s.waiting.value].stage.answer)
  }

  /** A refusal the composer heard, or is about to hear, means a dead id. */
  ghost predicate RefusalIsFinal(s: System) {
    && (s.client.phase == Ended(Refused) ==> s.minted != [] && Dead(s, |s.minted| - 1))
    && (AwaitsRefusal(s) ==> Dead(s, s.exchanges[s.waiting.value].id))
  }

  ghost predicate AttemptFits(s: System) {
    s.client.phase.Ended? ==> s.client.attempt.Some? && s.client.attempt.value.outcome == s.client.phase.outcome
  }

  ghost predicate Safe(s: System) {
    && Fits(s) && OneOwner(s) && FailedAreDead(s) && OldIdsAreDead(s) && RefusalIsFinal(s) && AttemptFits(s)
    && (s.client.phase == Editing ==> s.minted == [])
    && (forall k :: 0 <= k < |s.exchanges| ==> OwnerFits(s, s.exchanges[k]))
  }

  lemma SafeMeansNoDouble(s: System)
    requires Safe(s)
    ensures NoDouble(s)
  {
    forall k: nat, l: nat, content | WentOut(s, k, content) && WentOut(s, l, content) ensures k == l {
      var a, b := s.exchanges[k], s.exchanges[l];
      assert OwnerFits(s, a) && OwnerFits(s, b);
      assert (a.id < b.id ==> Dead(s, a.id)) && (b.id < a.id ==> Dead(s, b.id));
    }
  }

  /** Blocked ids of undelivered mails stay blocked. */
  lemma BlockedStays(s: System, step: Step, id: RequestId)
    requires Safe(s) && Enabled(s, step) && Dead(s, id) && Blocked(s, id)
    ensures Blocked(Next(s, step), id)
  {
    var s1 := Next(s, step);
    if s.rows[id].status == Failed {
      assert step.Record? && s.exchanges[step.k].id == id ==>
          !MaySend(s, s.exchanges[step.k]) && ExchangeFits(s, s.exchanges[step.k]);
    } else {
      var l :| 0 <= l < |s.exchanges| && s.exchanges[l].id == id && s.exchanges[l].owner && s.exchanges[l].stage.Answered?;
      hide Safe;
      assert s1.exchanges[l] == s.exchanges[l] && id in s1.rows;
    }
  }

  /** A dead id stays dead, unless the composer submits it again unblocked. */
  lemma DeadStays(s: System, step: Step, id: RequestId)
    requires Safe(s) && Allowed(NOTHING, s, step) && Dead(s, id)
    requires step.Submit? && Submits(s.client, step.valid) ==>
               Blocked(s, id) || id != RequestIdFor(s.client.attempt, s.client.draft, |s.minted|).0
    ensures Dead(Next(s, step), id)
  {
    var s1 := Next(s, step);
    if Blocked(s, id) {
      BlockedStays(s, step, id);
    }
    forall k | 0 <= k < |s1.exchanges| && s1.exchanges[k].id == id ensures !MaySend(s1, s1.exchanges[k]) {
      ExchangeStaysDead(s, step, id, k);
    }
  }

  lemma ExchangeStaysDead(s: System, step: Step, id: RequestId, k: nat)
    requires Allowed(NOTHING, s, step) && Dead(s, id) && (Blocked(s, id) ==> Blocked(Next(s, step), id))
    requires step.Submit? && Submits(s.client, step.valid) ==>
               Blocked(s, id) || id != RequestIdFor(s.client.attempt, s.client.draft, |s.minted|).0
    requires k < |Next(s, step).exchanges| && Next(s, step).exchanges[k].id == id
    ensures !MaySend(Next(s, step), Next(s, step).exchanges[k])
  {
    var s1 := Next(s, step);
    assert k < |s.exchanges| ==> !MaySend(s, s.exchanges[k]) && s.exchanges[k].id == id;
    if step == TakeClaim(k) {
      BlockedIsRefused(s, k);
    }
    hide ClaimSend, Blocked;
  }

  /** A request with a blocked id is not granted the send. */
  lemma BlockedIsRefused(s: System, k: nat)
    requires AtStage(s, k, Queued) && Blocked(s, s.exchanges[k].id) && !IsTakeover(s, TakeClaim(k))
    ensures ClaimSend(s.rows, s.exchanges[k].id, s.clock).0 != Claimed
  {
    var id := s.exchanges[k].id;
    ClaimIsExclusive(s.rows, id, s.clock);
    if s.rows[id].status != Failed {
      var l :| 0 <= l < |s.exchanges| && s.exchanges[l].id == id && s.exchanges[l].owner && s.exchanges[l].stage.Answered?;
      assert Live(s.exchanges[l]);
    }
  }

  lemma OneOwnerStep(s: System, step: Step)
    requires Safe(s) && Allowed(NOTHING, s, step)
    ensures OneOwner(Next(s, step))
  {
    hide Fits, FailedAreDead, OldIdsAreDead, RefusalIsFinal, AttemptFits;
    if step.TakeClaim? {
      ClaimIsExclusive(s.rows, s.exchanges[step.k].id, s.clock);
      hide ClaimSend;
      assert forall l :: 0 <= l < |s.exchanges| ==> OwnerFits(s, s.exchanges[l]);
    }
  }

  lemma OwnerFitsStep(s: System, step: Step, k: nat)
    requires Safe(s) && Allowed(NOTHING, s, step) && k < |Next(s, step).exchanges|
    ensures OwnerFits(Next(s, step), Next(s, step).exchanges[k])
  {
    hide Fits, FailedAreDead, OldIdsAreDead, RefusalIsFinal, AttemptFits, OneOwner;
    assert k < |s.exchanges| ==> OwnerFits(s, s.exchanges[k]);
  }

  lemma FailedStep(s: System, step: Step)
    requires Safe(s) && Allowed(NOTHING, s, step)
    ensures FailedAreDead(Next(s, step))
  {
    var s1 := Next(s, step);
    forall id | id in s1.rows && s1.rows[id].status == Failed ensures Dead(s1, id) {
      if id in s.rows && s.rows[id].status == Failed {
        DeadStays(s, step, id);
      } else {
        RejectedIsDead(s, step, id);
      }
    }
  }

  /** A row turns failed only when its owner's mail was rejected. */
  lemma RejectedIsDead(s: System, step: Step, id: RequestId)
    requires Safe(s) && Allowed(NOTHING, s, step)
    requires id in Next(s, step).rows && Next(s, step).rows[id].status == Failed
    requires !(id in s.rows && s.rows[id].status == Failed)
    ensures Dead(Next(s, step), id)
  {
    hide OneOwner, FailedAreDead, OldIdsAreDead, RefusalIsFinal, AttemptFits, OwnerFits;
    assert step.Record? && s.exchanges[step.k].id == id && s.exchanges[step.k].stage == Rejected;
    RecordedIsDead(s, step);
  }

  lemma OldIdsStep(s: System, step: Step)
    requires Safe(s) && Allowed(NOTHING, s, step)
    ensures OldIdsAreDead(Next(s, step))
  {
    var s1 := Next(s, step);
    forall i, j | 0 <= i < j < |s1.minted| && s1.minted[i] == s1.minted[j] ensures Dead(s1, i) {
      if j < |s.minted| {
        assert Dead(s, i);
      } else {
        NewIdIsAlone(s, step, i);
      }
      DeadStays(s, step, i);
    }
  }

  /** A new id for a content submitted before: its earlier ids are all dead. */
  lemma NewIdIsAlone(s: System, step: Step, i: nat)
    requires Safe(s) && Allowed(NOTHING, s, step)
    requires i < |s.minted| < |Next(s, step).minted| && s.minted[i] == Next(s, step).minted[|s.minted|]
    ensures Dead(s, i)
  {
    hide FailedAreDead, OneOwner, Dead;
    if i < |s.minted| - 1 && s.client.attempt.value.fingerprint == s.client.draft {
      assert s.minted[i] == s.minted[|s.minted| - 1];
    }
  }

  /** Refusing before the claim leaves a dead id when no other request with it
      has sent the mail or may. */
  lemma RefusedIsDead(s: System, step: Step)
    requires Allowed(NOTHING, s, step) && step.Refuse? && s.waiting == Some(step.k)
    requires ExchangeFits(s, s.exchanges[step.k])
    ensures Dead(Next(s, step), s.exchanges[step.k].id)
  {
    var s1, id := Next(s, step), s.exchanges[step.k].id;
    assert Blocked(s, id) ==> Blocked(s1, id) by {
      if l :| 0 <= l < |s.exchanges| && s.exchanges[l].id == id && s.exchanges[l].owner && s.exchanges[l].stage.Answered? {
        assert s1.exchanges[l] == s.exchanges[l];
      }
    }
    hide Blocked, DeliveredId;
  }

  /** The owner's rejected mail leaves a dead id, recorded or not. */
  lemma RecordedIsDead(s: System, step: Step)
    requires Safe(s) && Allowed(NOTHING, s, step) && step.Record? && s.exchanges[step.k].stage == Rejected
    ensures Dead(Next(s, step), s.exchanges[step.k].id)
  {
    hide Fits, FailedAreDead, OldIdsAreDead, RefusalIsFinal, AttemptFits;
    var s1, k := Next(s, step), step.k;
    assert OwnerFits(s, s.exchanges[k]);
    assert s1.exchanges[k].owner && s1.exchanges[k].stage.Answered?;
    assert Blocked(s1, s.exchanges[k].id);
    forall l | 0 <= l < |s.exchanges| && l != k && s.exchanges[l].id == s.exchanges[k].id
      ensures !s.exchanges[l].delivered && s.exchanges[l].stage != OnWire
    {
      assert OwnerFits(s, s.exchanges[l]);
    }
  }

  lemma RefusalStep(s: System, step: Step)
    requires Safe(s) && Allowed(NOTHING, s, step)
    ensures RefusalIsFinal(Next(s, step)) && AttemptFits(Next(s, step))
  {
    hide OneOwner, OldIdsAreDead, OwnerFits, RowsFit;
    var s1 := Next(s, step);
    if AwaitsRefusal(s1) {
      AwaitedIsDead(s, step);
    }
    if s1.client.phase == Ended(Refused) {
      assert s.minted != [] && Dead(s, |s.minted| - 1) && s1.minted == s.minted;
      hide Safe;
      DeadStays(s, step, |s.minted| - 1);
    }
  }

  lemma AwaitedIsDead(s: System, step: Step)
    requires Safe(s) && Allowed(NOTHING, s, step) && AwaitsRefusal(Next(s, step))
    ensures Dead(Next(s, step), Next(s, step).exchanges[Next(s, step).waiting.value].id)
  {
    hide OneOwner, OldIdsAreDead, OwnerFits, RowsFit;
    if AwaitsRefusal(s) {
      DeadStays(s, step, s.exchanges[s.waiting.value].id);
    } else {
      match step
      case Refuse(k, _) =>
        assert ExchangeFits(s, s.exchanges[k]);
        RefusedIsDead(s, step);
      case Record(_, _, _) => RecordedIsDead(s, step);
      case TakeClaim(k) => DeadStays(s, step, s.exchanges[k].id);
      case _ =>
    }
  }

  lemma {:induction false} SafeStep(s: System, step: Step)
    requires Safe(s) && Allowed(NOTHING, s, step)
    ensures Safe(Next(s, step))
  {
    FitsStep(s, step);
    OneOwnerStep(s, step);
    forall k | 0 <= k < |Next(s, step).exchanges| ensures OwnerFits(Next(s, step), Next(s, step).exchanges[k]) {
      OwnerFitsStep(s, step, k);
    }
    FailedStep(s, step);
    OldIdsStep(s, step);
    RefusalStep(s, step);
    hide Fits, OneOwner, FailedAreDead, OldIdsAreDead, RefusalIsFinal, AttemptFits, OwnerFits;
  }

  lemma {:induction false} RunsSafe(s: System, steps: seq<Step>, last: System)
    requires Safe(s) && Runs(NOTHING, s, steps, last)
    ensures Safe(last)
    decreases |steps|
  {
    if steps != [] {
      hide Safe, Next, Allowed;
      SafeStep(s, steps[0]);
      RunsSafe(Next(s, steps[0]), steps[1..], last);
    }
  }

  // -------------------------------------------------------- main results --

  ghost predicate Reaches(p: Permits, s: System, last: System) {
    exists steps :: Runs(p, s, steps, last)
  }

  /** The same content never goes out twice, in any run these permits allow. */
  ghost predicate AtMostOnce(p: Permits) {
    forall draft, last :: Reaches(p, Start(draft), last) ==> NoDouble(last)
  }

  ghost predicate OutOnce(s: System, content: Fingerprint) {
    exists k: nat :: WentOut(s, k, content) && forall l: nat :: WentOut(s, l, content) ==> l == k
  }

  /** A composer that heard `sent` has had its mail go out exactly once. */
  lemma SentExactlyOnce(draft: Fingerprint, steps: seq<Step>, last: System)
    requires Runs(NOTHING, Start(draft), steps, last) && SentSeen(last)
    ensures last.minted != [] && OutOnce(last, last.minted[|last.minted| - 1])
  {
    SentWasDelivered(NOTHING, draft, steps, last);
    RunsSafe(Start(draft), steps, last);
    SafeMeansNoDouble(last);
  }

  /** A mail the composer was told is refused never goes out under that id,
      whatever is retried later. */
  lemma {:induction false} RefusedStaysUnsent(s: System, steps: seq<Step>, last: System, id: RequestId)
    requires Safe(s) && Runs(NOTHING, s, steps, last)
    requires id < |s.minted| && Dead(s, id) && (id == |s.minted| - 1 ==> s.client.phase == Ended(Refused))
    ensures !DeliveredId(last, id)
    decreases |steps|
  {
    if steps != [] {
      var s1 := Next(s, steps[0]);
      SafeStep(s, steps[0]);
      DeadStays(s, steps[0], id);
      RefusedStaysUnsent(s1, steps[1..], last, id);
    }
  }

  /** No live warning, and a fresh id: the last mail has not gone out and never
      will. */
  lemma NoWarningMeansSettled(s: System)
    requires Safe(s) && s.client.phase != Sending && s.minted != [] && !DuplicateRisk(s.client)
    requires RequestIdFor(s.client.attempt, s.client.draft, |s.minted|).0 == |s.minted|
    ensures Dead(s, |s.minted| - 1)
  {
  }

  lemma ReachStart(p: Permits, s: System)
    ensures Reaches(p, s, s)
  {
    assert Runs(p, s, [], s);
  }

  lemma {:induction false} RunsMore(p: Permits, s: System, steps: seq<Step>, last: System, step: Step)
    requires Runs(p, s, steps, last) && Allowed(p, last, step)
    ensures Runs(p, s, steps + [step], Next(last, step))
    decreases |steps|
  {
    if steps == [] {
      assert steps + [step] == [step];
      assert Runs(p, Next(last, step), [], Next(last, step));
    } else {
      RunsMore(p, Next(s, steps[0]), steps[1..], last, step);
      assert (steps + [step])[1..] == steps[1..] + [step];
    }
  }

  lemma Then(p: Permits, first: System, s: System, step: Step, s1: System)
    requires Reaches(p, first, s) && Allowed(p, s, step) && s1 == Next(s, step)
    ensures Reaches(p, first, s1)
  {
    var steps :| Runs(p, first, steps, s);
    RunsMore(p, first, steps, s, step);
  }

  function Held(now: int): SendRow { SendRow(Pending, Some(now), None, None) }

  function Unsure(id: RequestId, content: Fingerprint, draft: Fingerprint): Client {
    Client(Some(Attempt(id, content, Unknown)), Ended(Unknown), draft)
  }

  function Turned(id: RequestId, content: Fingerprint): Client {
    Client(Some(Attempt(id, content, Refused)), Ended(Refused), content)
  }

  function Way(id: RequestId): Exchange { Exchange(id, Queued, false, false) }
  function Wire(id: RequestId): Exchange { Exchange(id, OnWire, true, false) }
  function Out(id: RequestId): Exchange { Exchange(id, Accepted(None), true, true) }

  /** What the lease is for: with the earlier owner killed before its mail went
      out, a retry past the lease takes the claim over, and its mail can go out
      and be heard as sent, none of the four faults happening. */
  lemma RetryRecovers(s: System, k: nat, messageId: string) returns (last: System)
    requires Fits(s) && s.waiting == Some(k) && AtStage(s, k, Queued)
    requires s.exchanges[k].id in s.rows ==> Stale(s.rows[s.exchanges[k].id], s.clock) && !HasLive(s, s.exchanges[k].id)
    ensures Reaches(NOTHING, s, last) && SentSeen(last) && last.minted == s.minted
    ensures WentOut(last, k, s.minted[|s.minted| - 1])
    ensures |last.exchanges| == |s.exchanges|
    ensures forall l :: 0 <= l < |s.exchanges| && l != k ==> last.exchanges[l] == s.exchanges[l]
  {
    var id := s.exchanges[k].id;
    ClaimIsExclusive(s.rows, id, s.clock);
    ReachStart(NOTHING, s);
    hide Reaches, HasLive, Fits, ClaimSend, CompleteSend;
    var s1 := Next(s, TakeClaim(k));
    assert Reaches(NOTHING, s, s1) by { Then(NOTHING, s, s, TakeClaim(k), s1); }
    assert AtStage(s1, k, OnWire);
    var s2 := Next(s1, Deliver(k, Some(messageId)));
    assert Reaches(NOTHING, s, s2) by { Then(NOTHING, s, s1, Deliver(k, Some(messageId)), s2); }
    var s3 := Next(s2, Record(k, true, ""));
    assert Reaches(NOTHING, s, s3) by { Then(NOTHING, s, s2, Record(k, true, ""), s3); }
    assert AtStage(s3, k, Answered(Fine));
    last := Next(s3, Receive);
    assert Reaches(NOTHING, s, last) by { Then(NOTHING, s, s3, Receive, last); }
  }

  function LeftKilled(): System {
    System(["mail"], Unsure(0, "mail", "mail"), None, [Exchange(0, Gone, true, false)], map[0 := Held(0)], LEASE_MS + 1)
  }

  lemma LeavingKilled(p: Permits)
    ensures Reaches(p, Start("mail"), LeftKilled())
  {
    hide Reaches;
    var s := Start("mail");
    ReachStart(p, s);
    var c, killed := Client(None, Sending, "mail"), Exchange(0, Gone, true, false);
    var s1 := System(["mail"], c, Some(0), [Way(0)], map[], 0);
    assert Reaches(p, s, s1) by { Then(p, s, s, Submit(true), s1); }
    var s2 := System(["mail"], c, Some(0), [Wire(0)], map[0 := Held(0)], 0);
    assert Reaches(p, s, s2) by { Then(p, s, s1, TakeClaim(0), s2); }
    var s3 := System(["mail"], c, Some(0), [killed], map[0 := Held(0)], 0);
    assert Reaches(p, s, s3) by { Then(p, s, s2, Die(0), s3); }
    var s4 := System(["mail"], Unsure(0, "mail", "mail"), None, [killed], map[0 := Held(0)], 0);
    assert Reaches(p, s, s4) by { Then(p, s, s3, GiveUp, s4); }
    assert Reaches(p, s, LeftKilled()) by { Then(p, s, s4, Tick(LEASE_MS + 1), LeftKilled()); }
  }

  lemma ReachThrough(p: Permits, a: System, b: System, c: System)
    requires Reaches(p, a, b) && Reaches(p, b, c)
    ensures Reaches(p, a, c)
  {
    var first :| Runs(p, a, first, b);
    var rest :| Runs(p, b, rest, c);
    RunsThrough(p, a, first, b, rest, c);
  }

  lemma {:induction false} RunsThrough(p: Permits, a: System, first: seq<Step>, b: System, rest: seq<Step>, c: System)
    requires Runs(p, a, first, b) && Runs(p, b, rest, c)
    ensures Runs(p, a, first + rest, c)
    decreases |first|
  {
    hide Next, Enabled;
    if first == [] {
      assert first + rest == rest;
    } else {
      RunsThrough(p, Next(a, first[0]), first[1..], b, rest, c);
      assert (first + rest)[1..] == first[1..] + rest;
    }
  }

  /** A handler is killed after its claim; the lease runs out, the retry is sent
      and heard: such a run needs none of the four faults, so the results below
      cover it. */
  lemma KilledHandlerRecovers() returns (last: System)
    ensures Reaches(NOTHING, Start("mail"), last) && SentSeen(last)
    ensures |last.exchanges| == 2 && Killed(last.exchanges[0]) && WentOut(last, 1, "mail")
  {
    hide Reaches;
    var s := LeftKilled();
    LeavingKilled(NOTHING);
    var again := System(["mail"], Unsure(0, "mail", "mail").(phase := Sending), Some(1),
                        [Exchange(0, Gone, true, false), Way(0)], map[0 := Held(0)], LEASE_MS + 1);
    assert Reaches(NOTHING, Start("mail"), again) by { Then(NOTHING, Start("mail"), s, Submit(true), again); }
    last := RetryRecovers(again, 1, "id");
    ReachThrough(NOTHING, Start("mail"), again, last);
  }

  lemma Twice(p: Permits, draft: Fingerprint, s: System, k: nat, l: nat, content: Fingerprint)
    requires Reaches(p, Start(draft), s) && k != l && WentOut(s, k, content) && WentOut(s, l, content)
    ensures !AtMostOnce(p)
  {
    assert !NoDouble(s);
    assert AtMostOnce(p) ==> NoDouble(s);
  }

  function LeftClaimed(): System {
    System(["mail"], Unsure(0, "mail", "mail"), None, [Wire(0)], map[0 := Held(0)], LEASE_MS + 1)
  }

  lemma LeavingClaimed(p: Permits)
    ensures Reaches(p, Start("mail"), LeftClaimed())
  {
    hide Reaches, WentOut;
    var s := Start("mail");
    ReachStart(p, s);
    var c, late := Client(None, Sending, "mail"), LEASE_MS + 1;
    var s1 := System(["mail"], c, Some(0), [Way(0)], map[], 0);
    assert Reaches(p, s, s1) by { Then(p, s, s, Submit(true), s1); }
    var s2 := System(["mail"], c, Some(0), [Wire(0)], map[0 := Held(0)], 0);
    assert Reaches(p, s, s2) by { Then(p, s, s1, TakeClaim(0), s2); }
    var s3 := System(["mail"], Unsure(0, "mail", "mail"), None, [Wire(0)], map[0 := Held(0)], 0);
    assert Reaches(p, s, s3) by { Then(p, s, s2, GiveUp, s3); }
    var s4 := LeftClaimed();
    assert Reaches(p, s, s4) by { Then(p, s, s3, Tick(late), s4); }
  }

  /** A claim older than the lease is taken over while its owner still sends. */
  lemma TakeoverDoubles(p: Permits)
    requires p.takeover
    ensures !AtMostOnce(p)
  {
    hide Reaches, WentOut;
    var s, s4 := Start("mail"), LeftClaimed();
    LeavingClaimed(p);
    var late := LEASE_MS + 1;
    var c5 := Unsure(0, "mail", "mail").(phase := Sending);
    var s5 := System(["mail"], c5, Some(1), [Wire(0), Way(0)], map[0 := Held(0)], late);
    assert Reaches(p, s, s5) by { Then(p, s, s4, Submit(true), s5); }
    var s6 := System(["mail"], c5, Some(1), [Wire(0), Wire(0)], map[0 := Held(late)], late);
    assert Reaches(p, s, s6) by { Then(p, s, s5, TakeClaim(1), s6); }
    var s7 := System(["mail"], c5, Some(1), [Out(0), Wire(0)], map[0 := Held(late)], late);
    assert Reaches(p, s, s7) by { Then(p, s, s6, Deliver(0, None), s7); }
    var s8 := System(["mail"], c5, Some(1), [Out(0), Out(0)], map[0 := Held(late)], late);
    assert Reaches(p, s, s8) by { Then(p, s, s7, Deliver(1, None), s8); }
    Twice(p, "mail", s8, 0, 1, "mail");
  }

  function Bounced(): Exchange { Exchange(0, Answered(Http(Some("smtp-send-failed"))), true, true) }

  function FailedRow(): SendRow { Held(0).(status := Failed, error := Some("smtp-send-failed")) }

  function ToldRefused(): System {
    System(["mail"], Turned(0, "mail"), None, [Bounced()], map[0 := FailedRow()], 0)
  }

  lemma TellingRefused(p: Permits)
    requires p.lostAck
    ensures Reaches(p, Start("mail"), ToldRefused())
  {
    hide Reaches, WentOut;
    var s := Start("mail");
    ReachStart(p, s);
    var c := Client(None, Sending, "mail");
    var s1 := System(["mail"], c, Some(0), [Way(0)], map[], 0);
    assert Reaches(p, s, s1) by { Then(p, s, s, Submit(true), s1); }
    var s2 := System(["mail"], c, Some(0), [Wire(0)], map[0 := Held(0)], 0);
    assert Reaches(p, s, s2) by { Then(p, s, s1, TakeClaim(0), s2); }
    var s3 := System(["mail"], c, Some(0), [Exchange(0, Rejected, true, true)], map[0 := Held(0)], 0);
    assert Reaches(p, s, s3) by { Then(p, s, s2, Bounce(0, true), s3); }
    var s4 := System(["mail"], c, Some(0), [Bounced()], map[0 := FailedRow()], 0);
    assert Reaches(p, s, s4) by { Then(p, s, s3, Record(0, true, "smtp-send-failed"), s4); }
    var s5 := ToldRefused();
    assert Reaches(p, s, s5) by { Then(p, s, s4, Receive, s5); }
  }

  /** The mail server's acknowledgement is lost: the user is told the mail was
      refused, and the retry is a new mail. */
  lemma LostAckDoubles(p: Permits)
    requires p.lostAck
    ensures !AtMostOnce(p)
  {
    hide Reaches, WentOut;
    var s, s5 := Start("mail"), ToldRefused();
    TellingRefused(p);
    var c6 := Turned(0, "mail").(phase := Sending);
    var s6 := System(["mail", "mail"], c6, Some(1), [Bounced(), Way(1)], map[0 := FailedRow()], 0);
    assert Reaches(p, s, s6) by { Then(p, s, s5, Submit(true), s6); }
    var s7 := System(["mail", "mail"], c6, Some(1), [Bounced(), Wire(1)], map[0 := FailedRow(), 1 := Held(0)], 0);
    assert Reaches(p, s, s7) by { Then(p, s, s6, TakeClaim(1), s7); }
    var s8 := System(["mail", "mail"], c6, Some(1), [Bounced(), Out(1)], map[0 := FailedRow(), 1 := Held(0)], 0);
    assert Reaches(p, s, s8) by { Then(p, s, s7, Deliver(1, None), s8); }
    Twice(p, "mail", s8, 0, 1, "mail");
  }

  function RefusedEarly(): Exchange { Exchange(0, Answered(Http(Some("internal-error"))), false, false) }

  function RetryRefused(): System {
    System(["mail"], Turned(0, "mail"), None, [Way(0), RefusedEarly()], map[], 0)
  }

  lemma RefusingRetry(p: Permits)
    requires p.unrecorded
    ensures Reaches(p, Start("mail"), RetryRefused())
  {
    hide Reaches, WentOut;
    var s := Start("mail");
    ReachStart(p, s);
    var c := Client(None, Sending, "mail");
    var s1 := System(["mail"], c, Some(0), [Way(0)], map[], 0);
    assert Reaches(p, s, s1) by { Then(p, s, s, Submit(true), s1); }
    var s2 := System(["mail"], Unsure(0, "mail", "mail"), None, [Way(0)], map[], 0);
    assert Reaches(p, s, s2) by { Then(p, s, s1, GiveUp, s2); }
    var c3 := Unsure(0, "mail", "mail").(phase := Sending);
    var s3 := System(["mail"], c3, Some(1), [Way(0), Way(0)], map[], 0);
    assert Reaches(p, s, s3) by { Then(p, s, s2, Submit(true), s3); }
    var s4 := System(["mail"], c3, Some(1), [Way(0), RefusedEarly()], map[], 0);
    assert Reaches(p, s, s4) by { Then(p, s, s3, Refuse(1, Some("internal-error")), s4); }
    var s5 := RetryRefused();
    assert Reaches(p, s, s5) by { Then(p, s, s4, Receive, s5); }
  }

  /** A retry is refused before its claim while the first request is still on
      its way: the next attempt uses a new id, and both arrive. */
  lemma UnrecordedDoubles(p: Permits)
    requires p.unrecorded
    ensures !AtMostOnce(p)
  {
    hide Reaches, WentOut;
    var s, s5 := Start("mail"), RetryRefused();
    RefusingRetry(p);
    var c6 := Turned(0, "mail").(phase := Sending);
    var s6 := System(["mail", "mail"], c6, Some(2), [Way(0), RefusedEarly(), Way(1)], map[], 0);
    assert Reaches(p, s, s6) by { Then(p, s, s5, Submit(true), s6); }
    var s7 := System(["mail", "mail"], c6, Some(2), [Way(0), RefusedEarly(), Wire(1)], map[1 := Held(0)], 0);
    assert Reaches(p, s, s7) by { Then(p, s, s6, TakeClaim(2), s7); }
    var s8 := System(["mail", "mail"], c6, Some(2), [Wire(0), RefusedEarly(), Wire(1)], map[0 := Held(0), 1 := Held(0)], 0);
    assert Reaches(p, s, s8) by { Then(p, s, s7, TakeClaim(0), s8); }
    var s9 := System(["mail", "mail"], c6, Some(2), [Out(0), RefusedEarly(), Wire(1)], map[0 := Held(0), 1 := Held(0)], 0);
    assert Reaches(p, s, s9) by { Then(p, s, s8, Deliver(0, None), s9); }
    var s10 := System(["mail", "mail"], c6, Some(2), [Out(0), RefusedEarly(), Out(1)], map[0 := Held(0), 1 := Held(0)], 0);
    assert Reaches(p, s, s10) by { Then(p, s, s9, Deliver(2, None), s10); }
    Twice(p, "mail", s10, 0, 2, "mail");
  }

  /** Two unclear attempts, with an edit away and back. */
  function EditedBack(): System {
    System(["mail", "other"], Unsure(1, "other", "mail"), None, [Way(0), Way(1)], map[], 0)
  }

  lemma EditingBack(p: Permits)
    ensures Reaches(p, Start("mail"), EditedBack())
  {
    hide Reaches, WentOut;
    var s := Start("mail");
    ReachStart(p, s);
    var s1 := System(["mail"], Client(None, Sending, "mail"), Some(0), [Way(0)], map[], 0);
    assert Reaches(p, s, s1) by { Then(p, s, s, Submit(true), s1); }
    var s2 := System(["mail"], Unsure(0, "mail", "mail"), None, [Way(0)], map[], 0);
    assert Reaches(p, s, s2) by { Then(p, s, s1, GiveUp, s2); }
    var s3 := System(["mail"], Unsure(0, "mail", "other"), None, [Way(0)], map[], 0);
    assert Reaches(p, s, s3) by { Then(p, s, s2, Edit("other"), s3); }
    var s4 := System(["mail", "other"], Unsure(0, "mail", "other").(phase := Sending), Some(1), [Way(0), Way(1)], map[], 0);
    assert Reaches(p, s, s4) by { Then(p, s, s3, Submit(true), s4); }
    var s5 := System(["mail", "other"], Unsure(1, "other", "other"), None, [Way(0), Way(1)], map[], 0);
    assert Reaches(p, s, s5) by { Then(p, s, s4, GiveUp, s5); }
    var s6 := EditedBack();
    assert Reaches(p, s, s6) by { Then(p, s, s5, Edit("mail"), s6); }
  }

  /** Editing away and back: the composer remembers only its last attempt. */
  lemma RevisitDoubles(p: Permits)
    requires p.revisit
    ensures !AtMostOnce(p)
  {
    hide Reaches, WentOut;
    var s, s6 := Start("mail"), EditedBack();
    EditingBack(p);
    var ids, c7 := ["mail", "other", "mail"], Unsure(1, "other", "mail").(phase := Sending);
    var s7 := System(ids, c7, Some(2), [Way(0), Way(1), Way(2)], map[], 0);
    assert Reaches(p, s, s7) by { Then(p, s, s6, Submit(true), s7); }
    var s8 := System(ids, c7, Some(2), [Wire(0), Way(1), Way(2)], map[0 := Held(0)], 0);
    assert Reaches(p, s, s8) by { Then(p, s, s7, TakeClaim(0), s8); }
    var s9 := System(ids, c7, Some(2), [Wire(0), Way(1), Wire(2)], map[0 := Held(0), 2 := Held(0)], 0);
    assert Reaches(p, s, s9) by { Then(p, s, s8, TakeClaim(2), s9); }
    var s10 := System(ids, c7, Some(2), [Out(0), Way(1), Wire(2)], map[0 := Held(0), 2 := Held(0)], 0);
    assert Reaches(p, s, s10) by { Then(p, s, s9, Deliver(0, None), s10); }
    var s11 := System(ids, c7, Some(2), [Out(0), Way(1), Out(2)], map[0 := Held(0), 2 := Held(0)], 0);
    assert Reaches(p, s, s11) by { Then(p, s, s10, Deliver(2, None), s11); }
    Twice(p, "mail", s11, 0, 2, "mail");
  }

  /** At most one delivery of each content over every run, exactly when none of
      the four may happen. */
  lemma AtMostOnceIff(p: Permits)
    ensures AtMostOnce(p) <==> p == NOTHING
  {
    if p.takeover {
      TakeoverDoubles(p);
    } else if p.lostAck {
      LostAckDoubles(p);
    } else if p.unrecorded {
      UnrecordedDoubles(p);
    } else if p.revisit {
      RevisitDoubles(p);
    } else {
      forall draft, last | Reaches(p, Start(draft), last) ensures NoDouble(last) {
        var steps :| Runs(p, Start(draft), steps, last);
        RunsSafe(Start(draft), steps, last);
        SafeMeansNoDouble(last);
      }
    }
  }
}
