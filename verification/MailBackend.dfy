/** The action routes as they run: handlers that update the stores in place. */
module MailBackend {
  import opened Wrappers
  import opened TextOrder
  import opened MailActions

  class Backend {
    var headers: map<RemoteId, Flags>
    var pins: set<RemoteId>
    var remote: seq<Call>
    var audit: seq<Row>
    var nextId: nat

    function View(): World
      reads this
    {
      World(headers, pins, remote, audit, nextId)
    }

    /** The provider's verb, recorded with its outcome. */
    method CallRemote(verb: Verb, id: RemoteId, failure: Option<ProviderError>) returns (error: Option<ProviderError>)
      modifies this`remote
      ensures (error, View()) == Remote(old(View()), verb, id, failure)
    {
      match verb {
        case SetPinned(_) => error := None;
        case EmptyTrash => error := None;
        case _ =>
          error := failure;
          remote := remote + [Call(verb, id, failure == None)];
      }
    }

    /** The local half of a verb. */
    method WriteLocal(verb: Verb, id: RemoteId) returns (previous: Option<bool>)
      modifies this`headers, this`pins
      ensures (View(), previous) == Local(old(View()), verb, id)
    {
      previous := None;
      match verb {
        case SetPinned(pinned) =>
          pins := if pinned then pins + {id} else pins - {id};
        case PermanentDelete =>
          headers := headers - {id};
        case EmptyTrash =>
        case _ =>
          if id in headers {
            var row := headers[id];
            match verb {
              case Archive => row := row.(archived := true);
              case Unarchive => row := row.(archived := false);
              case Trash => row := row.(deleted := true);
              case Restore => row := row.(deleted := false);
              case SetRead(isRead) =>
                previous := Some(row.read);
                row := row.(read := isRead);
              case _ =>
            }
            headers := headers[id := row];
          }
      }
    }

    method RecordAction(kind: string, payload: Payload, expires: Option<string>) returns (id: nat)
      modifies this`audit, this`nextId
      ensures id == old(nextId) && View() == Record(old(View()), kind, payload, expires)
    {
      id := nextId;
      audit := audit + [Row(id, kind, payload, expires)];
      nextId := nextId + 1;
    }

    method RunMessageAction(ctx: Context, verb: Verb, id: RemoteId, f: Faults) returns (answer: Answer)
      modifies this
      ensures (answer, View()) == MessageAction(old(View()), ctx, verb, id, f)
    {
      var preflight := Preflight(ctx, verb);
      if preflight.Some? {
        return preflight.value;
      }
      if TouchesRemote(verb) {
        var error := CallRemote(verb, id, f.remote);
        if error.Some? {
          return ProviderErrorAnswer(error.value);
        }
      }
      if f.local {
        return Refuse(500, "internal-error");
      }
      var previous := WriteLocal(verb, id);
      var actionId := None;
      var kind := AuditKind(verb);
      if kind.Some? {
        if f.audit {
          return Refuse(500, "internal-error");
        }
        var payload := AuditPayload(verb, id, TouchesRemote(verb), previous);
        var row := RecordAction(kind.value, payload, f.expires);
        actionId := Some(row);
      }
      return Answer(200, "ok", actionId);
    }

    method RunMarkRead(ctx: Context, id: RemoteId, isRead: bool, record: bool, f: Faults) returns (answer: Answer)
      modifies this
      ensures (answer, View()) == MarkRead(old(View()), ctx, id, isRead, record, f)
    {
      match ctx {
        case UnknownAccount => return Refuse(404, "unknown-account");
        case StoreClosed => return Refuse(500, "internal-error");
        case CredentialsUnreadable => return Refuse(500, "internal-error");
        case Ready(_, _) =>
      }
      if f.local {
        return Refuse(500, "internal-error");
      }
      var previous := WriteLocal(SetRead(isRead), id);
      var actionId := None;
      if record && previous.Some? {
        if f.audit {
          return Refuse(500, "internal-error");
        }
        var row := RecordAction("markRead", AuditPayload(SetRead(isRead), id, true, previous), f.expires);
        actionId := Some(row);
      }
      if ctx.configured {
        var ignored := CallRemote(SetRead(isRead), id, f.remote);
      }
      return if actionId == None then Answer(204, "", None) else Answer(200, "ok", actionId);
    }

    method RunPin(ctx: Context, id: RemoteId, pinned: bool, f: Faults) returns (answer: Answer)
      modifies this
      ensures (answer, View()) == Pin(old(View()), ctx, id, pinned, f)
    {
      match ctx {
        case UnknownAccount => return Refuse(404, "unknown-account");
        case StoreClosed => return Refuse(500, "internal-error");
        case CredentialsUnreadable => return Refuse(500, "internal-error");
        case Ready(_, _) =>
      }
      if f.local {
        return Refuse(500, "internal-error");
      }
      var previous := WriteLocal(SetPinned(pinned), id);
      if f.audit {
        return Refuse(500, "internal-error");
      }
      var row := RecordAction(if pinned then "pin" else "unpin", Payload(Some(id), None, None, None), f.expires);
      return Answer(200, "ok", Some(row));
    }

    /** Gate once, then every item remote, local, audit; a failed remote call is
        that item's failure, a store error ends the request. */
    method RunBulk(ctx: Context, verb: Verb, ids: seq<RemoteId>, faults: seq<Faults>) returns (answer: BulkAnswer)
      requires |faults| == |ids|
      modifies this
      ensures (answer, View()) == Bulk(old(View()), ctx, verb, ids, faults)
    {
      var preflight := Preflight(ctx, verb);
      if preflight.Some? {
        return NoItems(preflight.value);
      }
      var items: seq<Item> := [];
      assert ids[0..] == ids && faults[0..] == faults;
      assert forall rest: seq<Item> :: items + rest == rest;
      for i := 0 to |ids|
        invariant BulkItems(old(View()), verb, ids, faults) == Continued(items, BulkItems(View(), verb, ids[i..], faults[i..]))
      {
        assert ids[i..][1..] == ids[i + 1..] && faults[i..][1..] == faults[i + 1..];
        BulkStep(items, View(), verb, ids[i..], faults[i..]);
        var f := faults[i];
        var error := CallRemote(verb, ids[i], f.remote);
        if error.Some? {
          items := items + [Item(ids[i], false, BulkErrorCode(error.value), None)];
          continue;
        }
        if f.local {
          return NoItems(Refuse(500, "internal-error"));
        }
        var previous := WriteLocal(verb, ids[i]);
        var item := Item(ids[i], true, "", None);
        var kind := AuditKind(verb);
        if kind.Some? {
          if f.audit {
            return NoItems(Refuse(500, "internal-error"));
          }
          var row := RecordAction(kind.value, AuditPayload(verb, ids[i], true, previous), f.expires);
          item := item.(actionId := Some(row));
        }
        items := items + [item];
      }
      assert items + [] == items;
      return Items(items);
    }

    method ClaimUndo(actionId: nat, now: string, error: Option<ClaimStep>, expires: Option<string>) returns (c: Claim)
      modifies this`audit, this`nextId
      ensures (c, View()) == TakeClaim(old(View()), actionId, now, error, expires)
    {
      if error == Some(Begin) || error == Some(Find) {
        return Refused(Failed);
      }
      var action := FindAction(audit, actionId);
      if action == None {
        return Refused(Rejected(404, "unknown-action"));
      }
      if action.value.expiresAt.Some? && AtMost(action.value.expiresAt.value, now) {
        return Refused(Rejected(410, "action-expired"));
      }
      if error == Some(CheckUndone) {
        return Refused(Failed);
      }
      if IsUndone(audit, actionId) {
        return Refused(Rejected(409, "already-undone"));
      }
      var payload := action.value.payload;
      var verb := UndoVerb(action.value);
      if verb == None {
        return Refused(NotUndoable);
      }
      if error == Some(InsertUndo) || error == Some(Commit) {
        return Refused(Failed);
      }
      var row := RecordAction("undo", UndoPayload(actionId), expires);
      var id := if payload.remoteId.Some? then payload.remoteId.value else "";
      return Claimed(verb.value, payload.remoteWrite == Some("true"), id, row);
    }

    method DeleteActionRow(row: nat, fails: bool)
      modifies this`audit
      ensures View() == Retract(old(View()), row, fails)
    {
      if !fails {
        audit := Without(audit, row);
      }
    }

    method RunUndo(actionId: nat, now: string, f: UndoFaults) returns (outcome: UndoOutcome)
      modifies this
      ensures (outcome, View()) == UndoOne(old(View()), actionId, now, f)
    {
      if f.closed {
        return Failed;
      }
      var c := ClaimUndo(actionId, now, f.claim, f.expires);
      if c.Refused? {
        return c.outcome;
      }
      if !f.configured {
        DeleteActionRow(c.row, f.retract);
        return Failed;
      }
      var error := None;
      if c.remoteWrite && TouchesRemote(c.verb) {
        error := CallRemote(c.verb, c.id, f.remote);
      }
      if error.Some? || f.local {
        DeleteActionRow(c.row, f.retract);
        return Failed;
      }
      var previous := WriteLocal(c.verb, c.id);
      return Undone;
    }

    /** Per-item undo over ids already made distinct; every item gets its own
        outcome and the count is of the undone ones. */
    method RunUndoBulk(ids: seq<nat>, now: string, faults: seq<UndoFaults>) returns (outcomes: seq<UndoOutcome>, undone: nat)
      requires |faults| == |ids|
      modifies this
      ensures (outcomes, View()) == UndoMany(old(View()), ids, now, faults)
      ensures undone == multiset(outcomes)[Undone]
    {
      outcomes, undone := [], 0;
      assert ids[0..] == ids && faults[0..] == faults;
      assert forall rest: seq<UndoOutcome> :: outcomes + rest == rest;
      for i := 0 to |ids|
        invariant UndoMany(old(View()), ids, now, faults)
               == var (rest, w) := UndoMany(View(), ids[i..], now, faults[i..]); (outcomes + rest, w)
        invariant undone == multiset(outcomes)[Undone]
      {
        assert ids[i..][1..] == ids[i + 1..] && faults[i..][1..] == faults[i + 1..];
        ghost var before := UndoMany(View(), ids[i..], now, faults[i..]).0;
        var outcome := RunUndo(ids[i], now, faults[i]);
        assert outcomes + before == outcomes + [outcome] + before[1..];
        outcomes := outcomes + [outcome];
        if outcome == Undone {
          undone := undone + 1;
        }
      }
      assert outcomes + [] == outcomes;
    }
  }

  function UndoMany(w: World, ids: seq<nat>, now: string, faults: seq<UndoFaults>): (seq<UndoOutcome>, World)
    requires |faults| == |ids|
    decreases |ids|
  {
    if ids == [] then ([], w)
    else
      var (outcome, w1) := UndoOne(w, ids[0], now, faults[0]);
      var (rest, w2) := UndoMany(w1, ids[1..], now, faults[1..]);
      ([outcome] + rest, w2)
  }

  /** Items already answered, before what is still to come. */
  function Continued(items: seq<Item>, rest: (Option<seq<Item>>, World)): (Option<seq<Item>>, World) {
    (if rest.0.Some? then Some(items + rest.0.value) else None, rest.1)
  }

  lemma BulkStep(items: seq<Item>, w: World, verb: Verb, ids: seq<RemoteId>, faults: seq<Faults>)
    requires |faults| == |ids| > 0
    ensures Continued(items, BulkItems(w, verb, ids, faults)) ==
            match BulkItem(w, verb, ids[0], faults[0])
            case (None, w1) => (None, w1)
            case (Some(item), w1) => Continued(items + [item], BulkItems(w1, verb, ids[1..], faults[1..]))
  {
    var (item, w1) := BulkItem(w, verb, ids[0], faults[0]);
    if item.Some? {
      var rest := BulkItems(w1, verb, ids[1..], faults[1..]).0;
      if rest.Some? {
        assert items + ([item.value] + rest.value) == items + [item.value] + rest.value;
      }
    }
  }
}
