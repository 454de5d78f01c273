/** What a request leaves in the store: the flag, pin or row its verb names, and
    nothing else. */
module MailEffects {
  import opened Wrappers
  import opened MailActions
  import opened MailSafety

  /** What the verb asks for holds of the message. A message the store does not
      know has no flags to set. */
  predicate Holds(verb: Verb, w: World, id: RemoteId) {
    match verb
    case Archive => id in w.headers ==> w.headers[id].archived
    case Unarchive => id in w.headers ==> !w.headers[id].archived
    case Trash => id in w.headers ==> w.headers[id].deleted
    case Restore => id in w.headers ==> !w.headers[id].deleted
    case SetRead(isRead) => id in w.headers ==> w.headers[id].read == isRead
    case SetPinned(pinned) => (id in w.pins) == pinned
    case PermanentDelete => id !in w.headers
    case EmptyTrash => true
  }

  /** Whatever the verb does not name is as it was; `written` says whether the
      verb wrote this message at all. */
  predicate Spares(verb: Verb, w: World, w1: World, id: RemoteId, written: bool) {
    && (id in w1.headers <==> id in w.headers && !(written && verb.PermanentDelete?))
    && (id in w1.headers && id in w.headers ==>
          && (w1.headers[id].archived == w.headers[id].archived || (written && (verb.Archive? || verb.Unarchive?)))
          && (w1.headers[id].deleted == w.headers[id].deleted || (written && (verb.Trash? || verb.Restore?)))
          && (w1.headers[id].read == w.headers[id].read || (written && verb.SetRead?)))
    && ((id in w1.pins <==> id in w.pins) || (written && verb.SetPinned?))
  }

  /** The verb was written for exactly these messages. */
  ghost predicate Wrote(verb: Verb, ids: set<RemoteId>, w: World, w1: World) {
    && (forall id :: id in ids ==> Holds(verb, w1, id))
    && (forall id :: Spares(verb, w, w1, id, id in ids))
  }

  lemma LocalWrites(w: World, w1: World, verb: Verb, id: RemoteId)
    requires w1.headers == Local(w, verb, id).0.headers && w1.pins == Local(w, verb, id).0.pins
    ensures Wrote(verb, {id}, w, w1)
  {
  }

  lemma NothingWritten(verb: Verb, w: World, w1: World)
    requires w1.headers == w.headers && w1.pins == w.pins
    ensures Wrote(verb, {}, w, w1)
  {
  }

  /** The request got past its gate and the mailbox, and the local write did not
      fail. */
  predicate Written(ctx: Context, verb: Verb, f: Faults) {
    Preflight(ctx, verb) == None && (f.remote == None || verb.SetPinned? || verb.EmptyTrash?) && !f.local
  }

  /** A single request leaves its message as the verb names it, and everything
      else alone; when it does not get that far, all is as it was. It answers 200
      only if it got that far, and always then unless its audit row fails. */
  lemma ActionWrites(w: World, ctx: Context, verb: Verb, id: RemoteId, f: Faults)
    ensures var (answer, w1) := MessageAction(w, ctx, verb, id, f);
            && Wrote(verb, if Written(ctx, verb, f) then {id} else {}, w, w1)
            && (answer.status == 200 <==> Written(ctx, verb, f) && !(AuditKind(verb).Some? && f.audit))
  {
    var w1 := MessageAction(w, ctx, verb, id, f).1;
    if Written(ctx, verb, f) {
      assert w1.headers == Local(w, verb, id).0.headers && w1.pins == Local(w, verb, id).0.pins by { hide AuditPayload; }
      LocalWrites(w, w1, verb, id);
    } else {
      NothingWritten(verb, w, w1);
    }
    hide Wrote, Local, Gate;
  }

  /** Marking read or unread sets the read flag, with or without a record, and
      whatever the mailbox answers. */
  lemma MarkReadWrites(w: World, ctx: Context, id: RemoteId, isRead: bool, record: bool, f: Faults)
    ensures var (answer, w1) := MarkRead(w, ctx, id, isRead, record, f);
            var recorded := record && id in w.headers;
            && Wrote(SetRead(isRead), if ctx.Ready? && !f.local then {id} else {}, w, w1)
            && (answer.status == 204 <==> ctx.Ready? && !f.local && !recorded)
            && (answer.status == 200 <==> ctx.Ready? && !f.local && recorded && !f.audit)
            && (|w1.audit| == |w.audit| + 1 <==> answer.status == 200)
            && w1.remote == (if (answer.status == 200 || answer.status == 204) && ctx.configured
                             then w.remote + [Call(SetRead(isRead), id, f.remote == None)] else w.remote)
            && (answer.status == 200 ==>
                  var row := w1.audit[|w.audit|];
                  row.kind == "markRead" && row.payload.previousIsRead == Some(if w.headers[id].read then "true" else "false"))
  {
    var w1 := MarkRead(w, ctx, id, isRead, record, f).1;
    if ctx.Ready? && !f.local {
      LocalWrites(w, w1, SetRead(isRead), id);
    } else {
      NothingWritten(SetRead(isRead), w, w1);
    }
    hide Wrote;
  }

  lemma PinWrites(w: World, ctx: Context, id: RemoteId, pinned: bool, f: Faults)
    ensures var (answer, w1) := Pin(w, ctx, id, pinned, f);
            && Wrote(SetPinned(pinned), if ctx.Ready? && !f.local then {id} else {}, w, w1)
            && (answer.status == 200 <==> ctx.Ready? && !f.local && !f.audit)
            && w1.remote == w.remote
  {
    var w1 := Pin(w, ctx, id, pinned, f).1;
    if ctx.Ready? && !f.local {
      LocalWrites(w, w1, SetPinned(pinned), id);
    } else {
      NothingWritten(SetPinned(pinned), w, w1);
    }
    hide Wrote;
  }

  // ----------------------------------------------------------------- bulk --

  predicate RemoteFails(verb: Verb, f: Faults) { f.remote.Some? && !verb.SetPinned? && !verb.EmptyTrash? }

  /** The messages a bulk request writes: those whose remote call succeeds, up to
      the first store error. */
  function BulkWritten(verb: Verb, ids: seq<RemoteId>, faults: seq<Faults>): set<RemoteId>
    requires |faults| == |ids|
    decreases |ids|
  {
    if ids == [] then {}
    else if RemoteFails(verb, faults[0]) then BulkWritten(verb, ids[1..], faults[1..])
    else if faults[0].local then {}
    else if AuditKind(verb).Some? && faults[0].audit then {ids[0]}
    else {ids[0]} + BulkWritten(verb, ids[1..], faults[1..])
  }

  lemma WroteThrough(verb: Verb, a: set<RemoteId>, b: set<RemoteId>, w: World, w1: World, w2: World)
    requires Wrote(verb, a, w, w1) && Wrote(verb, b, w1, w2)
    ensures Wrote(verb, a + b, w, w2)
  {
    forall id | id in a + b ensures Holds(verb, w2, id) {
      assert Spares(verb, w, w1, id, id in a) && Spares(verb, w1, w2, id, id in b);
      assert id in a ==> Holds(verb, w1, id);
    }
    forall id ensures Spares(verb, w, w2, id, id in a + b) {
      assert Spares(verb, w, w1, id, id in a) && Spares(verb, w1, w2, id, id in b);
    }
  }

  lemma ItemWrites(w: World, verb: Verb, id: RemoteId, f: Faults)
    ensures var (item, w1) := BulkItem(w, verb, id, f);
            && Wrote(verb, if RemoteFails(verb, f) || f.local then {} else {id}, w, w1)
            && (item == None <==> !RemoteFails(verb, f) && (f.local || (AuditKind(verb).Some? && f.audit)))
            && (item.Some? ==> item.value.id == id && (item.value.ok <==> !RemoteFails(verb, f)))
  {
    var w1 := BulkItem(w, verb, id, f).1;
    if RemoteFails(verb, f) || f.local {
      NothingWritten(verb, w, w1);
    } else {
      LocalWrites(w, w1, verb, id);
    }
    hide Wrote, Local;
  }

  /** A bulk request leaves every message it writes as the verb names it, and
      everything else alone; the messages it writes are those of its ok items. */
  lemma {:induction false} BulkWrites(w: World, verb: Verb, ids: seq<RemoteId>, faults: seq<Faults>)
    requires |faults| == |ids|
    ensures var (items, w1) := BulkItems(w, verb, ids, faults);
            && Wrote(verb, BulkWritten(verb, ids, faults), w, w1)
            && (items.Some? ==>
                  |items.value| == |ids| && BulkWritten(verb, ids, faults) == OkIds(ids, items.value))
    decreases |ids|
  {
    hide Wrote, BulkItem;
    if ids == [] {
      NothingWritten(verb, w, w);
    } else {
      var f := faults[0];
      var (item, w1) := BulkItem(w, verb, ids[0], f);
      ItemWrites(w, verb, ids[0], f);
      if item.Some? {
        BulkWrites(w1, verb, ids[1..], faults[1..]);
        var (rest, w2) := BulkItems(w1, verb, ids[1..], faults[1..]);
        var first := if RemoteFails(verb, f) then {} else {ids[0]};
        WroteThrough(verb, first, BulkWritten(verb, ids[1..], faults[1..]), w, w1, w2);
        assert first + BulkWritten(verb, ids[1..], faults[1..]) == BulkWritten(verb, ids, faults);
        if rest.Some? {
          OkFirst(ids, [item.value] + rest.value);
        }
      }
    }
  }

  function OkIds(ids: seq<RemoteId>, items: seq<Item>): set<RemoteId>
    requires |items| == |ids|
  {
    set i | 0 <= i < |ids| && items[i].ok :: ids[i]
  }

  lemma OkFirst(ids: seq<RemoteId>, items: seq<Item>)
    requires ids != [] && |items| == |ids|
    ensures OkIds(ids, items) == (if items[0].ok then {ids[0]} else {}) + OkIds(ids[1..], items[1..])
  {
    var all, tail := OkIds(ids, items), OkIds(ids[1..], items[1..]);
    forall x | x in all ensures x in (if items[0].ok then {ids[0]} else {}) + tail {
      var i :| 0 <= i < |ids| && items[i].ok && ids[i] == x;
      if i > 0 {
        assert ids[1..][i - 1] == x && items[1..][i - 1].ok;
      }
    }
    forall x | x in tail ensures x in all {
      var i :| 0 <= i < |ids[1..]| && items[1..][i].ok && ids[1..][i] == x;
      assert ids[i + 1] == x && items[i + 1].ok;
    }
  }

  lemma FinishWrites(w: World, c: Claim, f: UndoFaults)
    requires c.Claimed?
    ensures var (outcome, w1) := FinishUndo(w, c, f);
            && Wrote(c.verb, if outcome == Undone then {c.id} else {}, w, w1)
            && (outcome != Undone ==> w1.headers == w.headers && w1.pins == w.pins)
  {
    var (outcome, w1) := FinishUndo(w, c, f);
    if outcome == Undone {
      LocalWrites(w, w1, c.verb, c.id);
    } else {
      NothingWritten(c.verb, w, w1);
    }
    hide Wrote, Local, Without;
  }

  /** The message an audit row is about. */
  function About(row: Row): RemoteId { if row.payload.remoteId.Some? then row.payload.remoteId.value else "" }

  predicate UndoableKind(kind: string) {
    kind in ["archive", "unarchive", "delete", "restore", "markRead", "pin", "unpin"]
  }

  /** What undoing a row of this kind must leave, by the row alone. */
  predicate Undid(row: Row, w: World, id: RemoteId) {
    && (row.kind == "archive" && id in w.headers ==> !w.headers[id].archived)
    && (row.kind == "unarchive" && id in w.headers ==> w.headers[id].archived)
    && (row.kind == "delete" && id in w.headers ==> !w.headers[id].deleted)
    && (row.kind == "restore" && id in w.headers ==> w.headers[id].deleted)
    && (row.kind == "markRead" && id in w.headers ==> (w.headers[id].read <==> row.payload.previousIsRead == Some("true")))
    && (row.kind == "pin" ==> id !in w.pins)
    && (row.kind == "unpin" ==> id in w.pins)
  }

  lemma {:induction false} FoundIff(audit: seq<Row>, actionId: nat)
    ensures FindAction(audit, actionId) == None <==> forall i :: 0 <= i < |audit| ==> audit[i].id != actionId
    decreases |audit|
  {
    if audit != [] {
      FoundIff(audit[1..], actionId);
      assert forall i :: 0 < i < |audit| ==> audit[i] == audit[1..][i - 1];
      assert (forall i :: 0 <= i < |audit| ==> audit[i].id != actionId) ==> forall i :: 0 <= i < |audit[1..]| ==> audit[1..][i].id != actionId;
    }
  }

  /** Each refusal of a claim, when no statement of it fails: no such action, an
      expired one, one undone before, one of a kind that cannot be undone. */
  lemma ClaimRefusals(w: World, actionId: nat, now: string, expires: Option<string>)
    ensures var c := TakeClaim(w, actionId, now, None, expires).0;
            var found := FindAction(w.audit, actionId);
            && (c == Refused(Rejected(404, "unknown-action")) <==> forall i :: 0 <= i < |w.audit| ==> w.audit[i].id != actionId)
            && (c == Refused(Rejected(410, "action-expired")) <==> found.Some? && Expired(found.value, now))
            && (c == Refused(Rejected(409, "already-undone")) <==>
                  found.Some? && !Expired(found.value, now) && IsUndone(w.audit, actionId))
            && (c == Refused(NotUndoable) <==>
                  found.Some? && !Expired(found.value, now) && !IsUndone(w.audit, actionId) && !UndoableKind(found.value.kind))
            && (c.Claimed? <==>
                  found.Some? && !Expired(found.value, now) && !IsUndone(w.audit, actionId) && UndoableKind(found.value.kind))
  {
    FoundIff(w.audit, actionId);
    hide FindAction, IsUndone, Expired;
  }

  lemma ClaimedVerb(w: World, actionId: nat, now: string, fault: Option<ClaimStep>, expires: Option<string>)
    ensures var c := TakeClaim(w, actionId, now, fault, expires).0;
            var found := FindAction(w.audit, actionId);
            c.Claimed? ==> found.Some? && c.id == About(found.value)
                           && (c.remoteWrite <==> found.value.payload.remoteWrite == Some("true"))
                           && UndoVerb(found.value) == Some(c.verb)
  {
    hide FindAction, IsUndone, Expired, UndoVerb;
  }

  lemma VerbUndoes(row: Row, verb: Verb, w: World, id: RemoteId)
    requires UndoVerb(row) == Some(verb) && Holds(verb, w, id)
    ensures Undid(row, w, id)
  {
  }

  /** An undo that answers `Undone` leaves the action's message as its row says,
      and everything else alone; any other undo leaves flags, pins and rows
      alone. */
  lemma UndoWrites(w: World, actionId: nat, now: string, f: UndoFaults)
    ensures var (outcome, w1) := UndoOne(w, actionId, now, f);
            && (outcome != Undone ==> w1.headers == w.headers && w1.pins == w.pins)
            && (outcome == Undone ==>
                  var found := FindAction(w.audit, actionId);
                  && found.Some? && UndoVerb(found.value).Some? && Undid(found.value, w1, About(found.value))
                  && Wrote(UndoVerb(found.value).value, {About(found.value)}, w, w1))
  {
    var (c, w1) := TakeClaim(w, actionId, now, f.claim, f.expires);
    ClaimLeavesFlags(w, actionId, now, f.claim, f.expires);
    ClaimedVerb(w, actionId, now, f.claim, f.expires);
    hide TakeClaim, FinishUndo, FindAction, UndoVerb, Wrote, Undid, About;
    if !f.closed && c.Claimed? {
      FinishWrites(w1, c, f);
      var (outcome, w2) := FinishUndo(w1, c, f);
      if outcome == Undone {
        WroteSince(c.verb, c.id, w, w1, w2);
        VerbUndoes(FindAction(w.audit, actionId).value, c.verb, w2, c.id);
      }
    }
  }

  lemma WroteSince(verb: Verb, id: RemoteId, w: World, w1: World, w2: World)
    requires w1.headers == w.headers && w1.pins == w.pins && Wrote(verb, {id}, w1, w2)
    ensures Wrote(verb, {id}, w, w2) && Holds(verb, w2, id)
  {
    var ids := {id};
    forall x ensures Spares(verb, w, w2, x, x in ids) {
      assert Spares(verb, w1, w2, x, x in ids);
    }
    assert id in ids;
  }

  lemma ClaimLeavesFlags(w: World, actionId: nat, now: string, fault: Option<ClaimStep>, expires: Option<string>)
    ensures var (c, w1) := TakeClaim(w, actionId, now, fault, expires);
            w1.headers == w.headers && w1.pins == w.pins && c != Refused(Undone)
  {
    hide FindAction, IsUndone, Expired, UndoVerb;
  }

  // -------------------------------------------------------------- answers --

  /** The mailbox has said it lacks what the verb needs. */
  predicate Unavailable(caps: Capabilities, verb: Verb) {
    || ((verb.Archive? || verb.Unarchive?) && caps.archiveFolder == Some(false))
    || ((verb.Trash? || verb.Restore?) && caps.trashFolder == Some(false))
    || ((verb.PermanentDelete? || verb.EmptyTrash?) && caps.uidplus == Some(false))
  }

  predicate Opened(ctx: Context, verb: Verb) { ctx.Ready? && !Unavailable(ctx.caps, verb) && ctx.configured }

  /** The request reached the mailbox, which answered this error. */
  predicate Met(ctx: Context, verb: Verb, f: Faults, error: ProviderError) {
    Opened(ctx, verb) && !verb.SetPinned? && !verb.EmptyTrash? && f.remote == Some(error)
  }

  /** Every status a single request can answer, and exactly when: before the
      mailbox, from the mailbox, from the store. */
  lemma GateAnswers(w: World, ctx: Context, verb: Verb, id: RemoteId, f: Faults)
    ensures var answer := MessageAction(w, ctx, verb, id, f).0;
            && (answer.status == 404 <==> ctx.UnknownAccount?)
            && (answer.status == 409 <==> ctx.Ready? && Unavailable(ctx.caps, verb))
            && (answer.status == 503 <==>
                  (ctx.Ready? && !Unavailable(ctx.caps, verb) && !ctx.configured) || Met(ctx, verb, f, NotConfigured))
  {
    hide Local, AuditPayload;
  }

  lemma MailboxAnswers(w: World, ctx: Context, verb: Verb, id: RemoteId, f: Faults)
    ensures var answer := MessageAction(w, ctx, verb, id, f).0;
            && (answer.status == 401 <==> Met(ctx, verb, f, AuthFailed))
            && (answer.status == 410 <==> Met(ctx, verb, f, MessageGone))
            && (answer.status == 502 <==> Met(ctx, verb, f, Unreachable) || Met(ctx, verb, f, Protocol)
                                          || Met(ctx, verb, f, NotFound) || Met(ctx, verb, f, TooLarge))
  {
    hide Local, AuditPayload;
  }

  lemma ActionStoreAnswers(w: World, ctx: Context, verb: Verb, id: RemoteId, f: Faults)
    ensures var answer := MessageAction(w, ctx, verb, id, f).0;
            var past := Opened(ctx, verb) && !RemoteFails(verb, f);
            && (answer.status == 500 <==> ctx.StoreClosed? || ctx.CredentialsUnreadable?
                                          || (past && (f.local || (AuditKind(verb).Some? && f.audit))))
            && (answer.status == 200 <==> past && !f.local && !(AuditKind(verb).Some? && f.audit))
  {
    hide Local, AuditPayload;
  }

  /** The mailbox sees one call, of this verb for this message, exactly when the
      request is let through and its verb is a remote one. */
  lemma ActionCalls(w: World, ctx: Context, verb: Verb, id: RemoteId, f: Faults)
    ensures var called := Opened(ctx, verb) && !verb.SetPinned? && !verb.EmptyTrash?;
            MessageAction(w, ctx, verb, id, f).1.remote ==
              if called then w.remote + [Call(verb, id, f.remote == None)] else w.remote
  {
    hide AuditPayload;
  }

  /** The code of each refusal. */
  lemma RefusalCodes(w: World, ctx: Context, verb: Verb, id: RemoteId, f: Faults)
    ensures var answer := MessageAction(w, ctx, verb, id, f).0;
            && (answer.status == 404 ==> answer.code == "unknown-account")
            && (answer.status == 409 ==> answer.code == (if verb.Archive? || verb.Unarchive? then "archive-unavailable"
                                                         else if verb.Trash? || verb.Restore? then "delete-unavailable"
                                                         else "uidplus-missing"))
            && (answer.status == 401 ==> answer.code == "imap-auth-failed")
            && (answer.status == 410 ==> answer.code == "message-gone")
            && (answer.status == 503 ==> answer.code == "provider-not-configured")
            && (answer.status == 502 ==> answer.code == "provider-unreachable")
            && (answer.status == 500 ==> answer.code == "internal-error")
  {
    hide Local, AuditPayload;
  }

  /** A bulk item's error code, by the mailbox's error. */
  lemma ItemCodes(w: World, verb: Verb, id: RemoteId, f: Faults)
    ensures var item := BulkItem(w, verb, id, f).0;
            item.Some? ==>
              && (item.value.errorCode == "" <==> item.value.ok)
              && (item.value.errorCode == "imap-auth-failed" <==> RemoteFails(verb, f) && f.remote == Some(AuthFailed))
              && (item.value.errorCode == "message-gone" <==> RemoteFails(verb, f) && f.remote == Some(MessageGone))
              && (item.value.errorCode in ["", "imap-auth-failed", "message-gone", "provider-unreachable"])
  {
    hide Local, AuditPayload;
  }
}
