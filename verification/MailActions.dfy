/** Message actions, their audit log and their undo: three stores that change
    one step at a time, with a failure possible at every step. */
module MailActions {
  import opened Wrappers
  import opened TextOrder

  type RemoteId = string

  datatype Flags = Flags(archived: bool, deleted: bool, read: bool)

  datatype Verb =
    | Archive
    | Unarchive
    | Trash
    | Restore
    | PermanentDelete
    | SetRead(isRead: bool)
    | SetPinned(pinned: bool)
    | EmptyTrash

  datatype ProviderError = AuthFailed | Unreachable | NotConfigured | Protocol | MessageGone | NotFound | TooLarge

  /** Negotiated folder roles; None means never negotiated. */
  datatype Capabilities = Capabilities(archiveFolder: Option<bool>, trashFolder: Option<bool>, uidplus: Option<bool>)

  /** The JSON object of an audit row; every value is a string. */
  datatype Payload = Payload(remoteId: Option<string>, remoteWrite: Option<string>, previousIsRead: Option<string>,
                             undoOf: Option<nat>)

  datatype Row = Row(id: nat, kind: string, payload: Payload, expiresAt: Option<string>)

  /** One call to the remote mailbox, and whether it succeeded. */
  datatype Call = Call(verb: Verb, id: RemoteId, ok: bool)

  /** One account: its message rows and pins, the calls its mailbox has seen, and
      its audit log with the next row id. */
  datatype World = World(headers: map<RemoteId, Flags>, pins: set<RemoteId>, remote: seq<Call>, audit: seq<Row>, nextId: nat)

  // ---------------------------------------------------------------- verbs --

  predicate CapabilityAllowed(value: Option<bool>) { value != Some(false) }

  function Gate(verb: Verb, caps: Capabilities): Option<(nat, string)> {
    match verb
    case Archive | Unarchive =>
      if CapabilityAllowed(caps.archiveFolder) then None else Some((409, "archive-unavailable"))
    case Trash | Restore =>
      if CapabilityAllowed(caps.trashFolder) then None else Some((409, "delete-unavailable"))
    case PermanentDelete | EmptyTrash =>
      if CapabilityAllowed(caps.uidplus) then None else Some((409, "uidplus-missing"))
    case _ => None
  }

  function AuditKind(verb: Verb): Option<string> {
    match verb
    case Archive => Some("archive")
    case Unarchive => Some("unarchive")
    case Trash => Some("delete")
    case Restore => Some("restore")
    case SetRead(_) => Some("markRead")
    case _ => None
  }

  function BoolText(b: bool): string { if b then "true" else "false" }

  function AuditPayload(verb: Verb, id: RemoteId, remoteWrite: bool, previous: Option<bool>): Payload {
    Payload(Some(id), Some(BoolText(remoteWrite)),
            if verb.SetRead? && previous.Some? then Some(BoolText(previous.value)) else None, None)
  }

  predicate TouchesRemote(verb: Verb) { !verb.SetPinned? }

  function Inverse(verb: Verb): Verb {
    match verb
    case Archive => Unarchive
    case Unarchive => Archive
    case Trash => Restore
    case Restore => Trash
    case SetRead(isRead) => SetRead(!isRead)
    case SetPinned(pinned) => SetPinned(!pinned)
    case other => other
  }

  // ---------------------------------------------------------- atomic steps --

  /** A provider call, always on record. Pinning and emptying are no calls. */
  function Remote(w: World, verb: Verb, id: RemoteId, error: Option<ProviderError>): (Option<ProviderError>, World) {
    if verb.SetPinned? || verb.EmptyTrash? then (None, w)
    else (error, w.(remote := w.remote + [Call(verb, id, error == None)]))
  }

  /** UPDATE of one message row; no row, no change. */
  function UpdateFlags(w: World, id: RemoteId, flags: Flags): World {
    if id in w.headers then w.(headers := w.headers[id := flags]) else w
  }

  /** A successful local write, and the read flag it replaced. */
  function Local(w: World, verb: Verb, id: RemoteId): (World, Option<bool>) {
    var was := if id in w.headers then w.headers[id] else Flags(false, false, false);
    match verb
    case Archive => (UpdateFlags(w, id, was.(archived := true)), None)
    case Unarchive => (UpdateFlags(w, id, was.(archived := false)), None)
    case Trash => (UpdateFlags(w, id, was.(deleted := true)), None)
    case Restore => (UpdateFlags(w, id, was.(deleted := false)), None)
    case SetRead(isRead) =>
      (UpdateFlags(w, id, was.(read := isRead)), if id in w.headers then Some(was.read) else None)
    case SetPinned(pinned) => (w.(pins := if pinned then w.pins + {id} else w.pins - {id}), None)
    case PermanentDelete => (w.(headers := w.headers - {id}), None)
    case EmptyTrash => (w, None)
  }

  function Record(w: World, kind: string, payload: Payload, expiresAt: Option<string>): World {
    w.(audit := w.audit + [Row(w.nextId, kind, payload, expiresAt)], nextId := w.nextId + 1)
  }

  // --------------------------------------------------------- one request --

  /** What the environment does to a request: the provider's error, and whether
      the local write or the audit insert fails; `expires` is the audit row's
      default expiry. */
  datatype Faults = Faults(remote: Option<ProviderError>, local: bool, audit: bool, expires: Option<string>)

  datatype Context = UnknownAccount | StoreClosed | CredentialsUnreadable | Ready(caps: Capabilities, configured: bool)

  datatype Answer = Answer(status: nat, code: string, actionId: Option<nat>)

  function Refuse(status: nat, code: string): Answer { Answer(status, code, None) }

  function ProviderErrorAnswer(error: ProviderError): Answer {
    match error
    case AuthFailed => Refuse(401, "imap-auth-failed")
    case NotConfigured => Refuse(503, "provider-not-configured")
    case MessageGone => Refuse(410, "message-gone")
    case _ => Refuse(502, "provider-unreachable")
  }

  /** The answer before any write, when there is one. */
  function Preflight(ctx: Context, verb: Verb): Option<Answer> {
    match ctx
    case UnknownAccount => Some(Refuse(404, "unknown-account"))
    case StoreClosed => Some(Refuse(500, "internal-error"))
    case CredentialsUnreadable => Some(Refuse(500, "internal-error"))
    case Ready(caps, configured) =>
      match Gate(verb, caps)
      case Some((status, code)) => Some(Refuse(status, code))
      case None => if configured then None else Some(Refuse(503, "provider-not-configured"))
  }

  /** Remote, then local, then audit, each only if the one before succeeded. */
  function Perform(w: World, verb: Verb, id: RemoteId, f: Faults): (Answer, World) {
    var (error, w1) := if TouchesRemote(verb) then Remote(w, verb, id, f.remote) else (None, w);
    if error.Some? then (ProviderErrorAnswer(error.value), w1)
    else if f.local then (Refuse(500, "internal-error"), w1)
    else
      var (w2, previous) := Local(w1, verb, id);
      match AuditKind(verb)
      case None => (Answer(200, "ok", None), w2)
      case Some(kind) =>
        if f.audit then (Refuse(500, "internal-error"), w2)
        else (Answer(200, "ok", Some(w2.nextId)),
              Record(w2, kind, AuditPayload(verb, id, TouchesRemote(verb), previous), f.expires))
  }

  function MessageAction(w: World, ctx: Context, verb: Verb, id: RemoteId, f: Faults): (Answer, World) {
    match Preflight(ctx, verb)
    case Some(answer) => (answer, w)
    case None => Perform(w, verb, id, f)
  }

  /** Mark read: local first and recorded on request; the remote call is best
      effort and its failure is not surfaced. */
  function MarkRead(w: World, ctx: Context, id: RemoteId, isRead: bool, record: bool, f: Faults): (Answer, World) {
    match ctx
    case UnknownAccount => (Refuse(404, "unknown-account"), w)
    case StoreClosed => (Refuse(500, "internal-error"), w)
    case CredentialsUnreadable => (Refuse(500, "internal-error"), w)
    case Ready(_, configured) =>
      if f.local then (Refuse(500, "internal-error"), w)
      else
        var (w1, previous) := Local(w, SetRead(isRead), id);
        var recorded := record && previous.Some?;
        if recorded && f.audit then (Refuse(500, "internal-error"), w1)
        else
          var w2 := if recorded then Record(w1, "markRead", AuditPayload(SetRead(isRead), id, true, previous), f.expires) else w1;
          var w3 := if configured then Remote(w2, SetRead(isRead), id, f.remote).1 else w2;
          (if recorded then Answer(200, "ok", Some(w1.nextId)) else Answer(204, "", None), w3)
  }

  /** Pin: local only and always recorded. */
  function Pin(w: World, ctx: Context, id: RemoteId, pinned: bool, f: Faults): (Answer, World) {
    match ctx
    case UnknownAccount => (Refuse(404, "unknown-account"), w)
    case StoreClosed => (Refuse(500, "internal-error"), w)
    case CredentialsUnreadable => (Refuse(500, "internal-error"), w)
    case Ready(_, _) =>
      if f.local then (Refuse(500, "internal-error"), w)
      else
        var (w1, _) := Local(w, SetPinned(pinned), id);
        if f.audit then (Refuse(500, "internal-error"), w1)
        else (Answer(200, "ok", Some(w1.nextId)),
              Record(w1, if pinned then "pin" else "unpin", Payload(Some(id), None, None, None), f.expires))
  }

  // ----------------------------------------------------------------- bulk --

  datatype Item = Item(id: RemoteId, ok: bool, errorCode: string, actionId: Option<nat>)

  function BulkErrorCode(error: ProviderError): string {
    match error
    case AuthFailed => "imap-auth-failed"
    case MessageGone => "message-gone"
    case _ => "provider-unreachable"
  }

  /** A store error on a bulk item: it ends the whole request with a 500. */
  predicate StoreFails(verb: Verb, f: Faults) {
    (f.remote == None || verb.SetPinned? || verb.EmptyTrash?) && (f.local || (AuditKind(verb).Some? && f.audit))
  }

  function BulkItem(w: World, verb: Verb, id: RemoteId, f: Faults): (Option<Item>, World) {
    var (error, w1) := Remote(w, verb, id, f.remote);
    if error.Some? then (Some(Item(id, false, BulkErrorCode(error.value), None)), w1)
    else if f.local then (None, w1)
    else
      var (w2, previous) := Local(w1, verb, id);
      match AuditKind(verb)
      case None => (Some(Item(id, true, "", None)), w2)
      case Some(kind) =>
        if f.audit then (None, w2)
        else (Some(Item(id, true, "", Some(w2.nextId))), Record(w2, kind, AuditPayload(verb, id, true, previous), f.expires))
  }

  /** The items in order; None when a store error cut the request short. */
  function BulkItems(w: World, verb: Verb, ids: seq<RemoteId>, faults: seq<Faults>): (Option<seq<Item>>, World)
    requires |faults| == |ids|
    decreases |ids|
  {
    if ids == [] then (Some([]), w)
    else
      match BulkItem(w, verb, ids[0], faults[0])
      case (None, w1) => (None, w1)
      case (Some(item), w1) =>
        match BulkItems(w1, verb, ids[1..], faults[1..])
        case (None, w2) => (None, w2)
        case (Some(rest), w2) => (Some([item] + rest), w2)
  }

  datatype BulkAnswer = Items(items: seq<Item>) | NoItems(answer: Answer)

  function Bulk(w: World, ctx: Context, verb: Verb, ids: seq<RemoteId>, faults: seq<Faults>): (BulkAnswer, World)
    requires |faults| == |ids|
  {
    match Preflight(ctx, verb)
    case Some(answer) => (NoItems(answer), w)
    case None =>
      match BulkItems(w, verb, ids, faults)
      case (None, w1) => (NoItems(Refuse(500, "internal-error")), w1)
      case (Some(items), w1) => (Items(items), w1)
  }

  // ----------------------------------------------------------------- undo --

  datatype UndoOutcome = Undone | NotUndoable | Rejected(status: nat, code: string) | Failed

  /** Where a database error can strike inside the claim transaction. */
  datatype ClaimStep = Begin | Find | CheckUndone | InsertUndo | Commit

  datatype Claim = Refused(outcome: UndoOutcome) | Claimed(verb: Verb, remoteWrite: bool, id: RemoteId, row: nat)

  predicate IsUndone(audit: seq<Row>, actionId: nat) {
    exists i | 0 <= i < |audit| :: audit[i].kind == "undo" && audit[i].payload.undoOf == Some(actionId)
  }

  function FindAction(audit: seq<Row>, actionId: nat): (r: Option<Row>)
    ensures r.Some? ==> r.value in audit && r.value.id == actionId
  {
    if audit == [] then None
    else if audit[0].id == actionId then Some(audit[0])
    else FindAction(audit[1..], actionId)
  }

  /** The verb that undoes an audit row, by its kind. */
  function UndoVerb(row: Row): Option<Verb> {
    if row.kind == "archive" then Some(Inverse(Archive))
    else if row.kind == "unarchive" then Some(Inverse(Unarchive))
    else if row.kind == "delete" then Some(Inverse(Trash))
    else if row.kind == "restore" then Some(Inverse(Restore))
    else if row.kind == "markRead" then Some(SetRead(row.payload.previousIsRead == Some("true")))
    else if row.kind == "pin" then Some(SetPinned(false))
    else if row.kind == "unpin" then Some(SetPinned(true))
    else None
  }

  predicate Expired(row: Row, now: string) { row.expiresAt.Some? && AtMost(row.expiresAt.value, now) }

  function UndoPayload(actionId: nat): Payload { Payload(None, None, None, Some(actionId)) }

  /** The claim transaction: find, expired?, already undone?, insert the undo
      row. Anything but a commit rolls back. */
  function TakeClaim(w: World, actionId: nat, now: string, error: Option<ClaimStep>, expires: Option<string>): (Claim, World) {
    if error == Some(Begin) || error == Some(Find) then (Refused(Failed), w)
    else
      match FindAction(w.audit, actionId)
      case None => (Refused(Rejected(404, "unknown-action")), w)
      case Some(row) =>
        if Expired(row, now) then (Refused(Rejected(410, "action-expired")), w)
        else if error == Some(CheckUndone) then (Refused(Failed), w)
        else if IsUndone(w.audit, actionId) then (Refused(Rejected(409, "already-undone")), w)
        else
          match UndoVerb(row)
          case None => (Refused(NotUndoable), w)
          case Some(verb) =>
            if error == Some(InsertUndo) || error == Some(Commit) then (Refused(Failed), w)
            else
              (Claimed(verb, row.payload.remoteWrite == Some("true"),
                       if row.payload.remoteId.Some? then row.payload.remoteId.value else "", w.nextId),
               Record(w, "undo", UndoPayload(actionId), expires))
  }

  function Without(audit: seq<Row>, id: nat): seq<Row> {
    if audit == [] then []
    else (if audit[0].id == id then [] else [audit[0]]) + Without(audit[1..], id)
  }

  /** Deleting the claim row; its own failure is ignored by the caller. */
  function Retract(w: World, row: nat, fails: bool): World {
    if fails then w else w.(audit := Without(w.audit, row))
  }

  datatype UndoFaults = UndoFaults(closed: bool, claim: Option<ClaimStep>, configured: bool,
                                   remote: Option<ProviderError>, local: bool, retract: bool,
                                   expires: Option<string>)

  /** The inverse after a claim, remote first; a failure retracts the claim. */
  function FinishUndo(w: World, c: Claim, f: UndoFaults): (UndoOutcome, World)
    requires c.Claimed?
  {
    if !f.configured then (Failed, Retract(w, c.row, f.retract))
    else
      var (error, w1) := if c.remoteWrite && TouchesRemote(c.verb) then Remote(w, c.verb, c.id, f.remote) else (None, w);
      if error.Some? || f.local then (Failed, Retract(w1, c.row, f.retract))
      else (Undone, Local(w1, c.verb, c.id).0)
  }

  function UndoOne(w: World, actionId: nat, now: string, f: UndoFaults): (UndoOutcome, World) {
    if f.closed then (Failed, w)
    else
      match TakeClaim(w, actionId, now, f.claim, f.expires)
      case (Refused(outcome), w1) => (outcome, w1)
      case (Claimed(verb, remoteWrite, id, row), w1) => FinishUndo(w1, Claimed(verb, remoteWrite, id, row), f)
  }
}
