/** What the audited mailbox actions keep over whole runs. */
module MailSafety {
  import opened Wrappers
  import opened TextOrder
  import opened MailActions

  // ------------------------------------------- bulk refines single calls --

  /** The same verb on every id, one request each. */
  function Singles(w: World, ctx: Context, verb: Verb, ids: seq<RemoteId>, faults: seq<Faults>): (seq<Answer>, World)
    requires |faults| == |ids|
    decreases |ids|
  {
    if ids == [] then ([], w)
    else
      var (answer, w1) := MessageAction(w, ctx, verb, ids[0], faults[0]);
      var (rest, w2) := Singles(w1, ctx, verb, ids[1..], faults[1..]);
      ([answer] + rest, w2)
  }

  /** How many items a bulk request gets to: through the first store error. */
  function Reached(verb: Verb, faults: seq<Faults>): (n: nat)
    ensures n <= |faults|
    ensures forall i :: 0 <= i < n - 1 ==> !StoreFails(verb, faults[i])
    ensures n < |faults| ==> n > 0 && StoreFails(verb, faults[n - 1])
  {
    if faults == [] then 0 else if StoreFails(verb, faults[0]) then 1 else 1 + Reached(verb, faults[1..])
  }

  predicate CutShort(verb: Verb, faults: seq<Faults>) {
    var n := Reached(verb, faults);
    n > 0 && StoreFails(verb, faults[n - 1])
  }

  /** Item by item, ok is a 200 and the audit row is the same. */
  predicate SameAnswers(ids: seq<RemoteId>, items: seq<Item>, answers: seq<Answer>) {
    && |items| == |answers| == |ids|
    && forall i :: 0 <= i < |ids| ==>
         items[i].id == ids[i] && (items[i].ok <==> answers[i].status == 200) && items[i].actionId == answers[i].actionId
  }

  lemma BulkItemIsSingle(w: World, ctx: Context, verb: Verb, id: RemoteId, f: Faults)
    requires Preflight(ctx, verb) == None
    ensures BulkItem(w, verb, id, f).1 == MessageAction(w, ctx, verb, id, f).1
    ensures BulkItem(w, verb, id, f).0 == None <==> StoreFails(verb, f)
    ensures StoreFails(verb, f) ==> MessageAction(w, ctx, verb, id, f).0.status == 500
    ensures !StoreFails(verb, f) ==>
              var item, answer := BulkItem(w, verb, id, f).0.value, MessageAction(w, ctx, verb, id, f).0;
              item.id == id && (item.ok <==> answer.status == 200) && item.actionId == answer.actionId
  {
  }

  /** The single requests a bulk request amounts to. */
  function Amounts(w: World, ctx: Context, verb: Verb, ids: seq<RemoteId>, faults: seq<Faults>): (seq<Answer>, World)
    requires |faults| == |ids|
  {
    Singles(w, ctx, verb, ids[..Reached(verb, faults)], faults[..Reached(verb, faults)])
  }

  lemma AmountsFirst(w: World, ctx: Context, verb: Verb, ids: seq<RemoteId>, faults: seq<Faults>)
    requires |faults| == |ids| > 0
    ensures var (answer, w1) := MessageAction(w, ctx, verb, ids[0], faults[0]);
            if StoreFails(verb, faults[0]) then
              Reached(verb, faults) == 1 && Amounts(w, ctx, verb, ids, faults) == ([answer], w1)
            else
              var (rest, w2) := Amounts(w1, ctx, verb, ids[1..], faults[1..]);
              Amounts(w, ctx, verb, ids, faults) == ([answer] + rest, w2)
  {
    hide MessageAction, StoreFails;
    var n := Reached(verb, faults);
    assert ids[..n][1..] == ids[1..][..n - 1] && faults[..n][1..] == faults[1..][..n - 1];
    var (answer, w1) := MessageAction(w, ctx, verb, ids[0], faults[0]);
    if StoreFails(verb, faults[0]) {
      assert ids[..n][1..] == [] && faults[..n][1..] == [];
      assert Singles(w1, ctx, verb, [], []) == ([], w1) && [answer] + [] == [answer];
    }
  }

  lemma SameAnswersFirst(ids: seq<RemoteId>, item: Item, items: seq<Item>, answer: Answer, answers: seq<Answer>)
    requires ids != [] && SameAnswers(ids[1..], items, answers)
    requires item.id == ids[0] && (item.ok <==> answer.status == 200) && item.actionId == answer.actionId
    ensures SameAnswers(ids, [item] + items, [answer] + answers)
  {
  }

  /** Past the gate, a bulk request leaves the flags, the remote calls and the
      audit rows that single requests over the items it reached would leave;
      it answers items exactly when no store error cut it short, and then each
      item is ok exactly when its single call would answer 200. */
  lemma {:induction false} BulkRefinesSingles(w: World, ctx: Context, verb: Verb, ids: seq<RemoteId>, faults: seq<Faults>)
    requires |faults| == |ids| && Preflight(ctx, verb) == None
    ensures var (items, after) := BulkItems(w, verb, ids, faults);
            var (answers, single) := Amounts(w, ctx, verb, ids, faults);
            && after == single
            && |answers| == Reached(verb, faults)
            && (items == None <==> CutShort(verb, faults))
            && (items == None ==> answers[|answers| - 1].status == 500)
            && (items.Some? ==> SameAnswers(ids, items.value, answers))
    decreases |ids|
  {
    hide MessageAction, BulkItem, StoreFails, Preflight, Amounts, SameAnswers;
    if ids == [] {
      NothingAmounts(w, ctx, verb);
    } else {
      BulkItemIsSingle(w, ctx, verb, ids[0], faults[0]);
      AmountsFirst(w, ctx, verb, ids, faults);
      if !StoreFails(verb, faults[0]) {
        var (item, w1) := BulkItem(w, verb, ids[0], faults[0]);
        BulkRefinesSingles(w1, ctx, verb, ids[1..], faults[1..]);
        var items := BulkItems(w1, verb, ids[1..], faults[1..]).0;
        if items.Some? {
          SameAnswersFirst(ids, item.value, items.value, MessageAction(w, ctx, verb, ids[0], faults[0]).0,
                           Amounts(w1, ctx, verb, ids[1..], faults[1..]).0);
        }
      }
    }
  }

  lemma NothingAmounts(w: World, ctx: Context, verb: Verb)
    ensures Amounts(w, ctx, verb, [], []) == ([], w)
    ensures SameAnswers([], [], [])
  {
  }

  // ------------------------------------------------ remote-first safety --

  datatype Axis = ArchiveFlag | TrashFlag

  /** The flag a verb sets on the server and locally, and to what. */
  function Sets(verb: Verb): Option<(Axis, bool)> {
    match verb
    case Archive => Some((ArchiveFlag, true))
    case Unarchive => Some((ArchiveFlag, false))
    case Trash => Some((TrashFlag, true))
    case Restore => Some((TrashFlag, false))
    case _ => None
  }

  function FlagOn(flags: Flags, axis: Axis): bool { if axis.ArchiveFlag? then flags.archived else flags.deleted }

  /** What the last successful remote call said about a message's flag. */
  function LastWord(remote: seq<Call>, axis: Axis, id: RemoteId): Option<bool> {
    if remote == [] then None
    else
      var c := remote[|remote| - 1];
      if c.ok && c.id == id && Sets(c.verb).Some? && Sets(c.verb).value.0 == axis then Some(Sets(c.verb).value.1)
      else LastWord(remote[..|remote| - 1], axis, id)
  }

  /** The local row agrees with the last successful remote call. */
  predicate InStep(w: World, id: RemoteId) {
    id in w.headers ==>
      forall axis :: LastWord(w.remote, axis, id).Some? ==> FlagOn(w.headers[id], axis) == LastWord(w.remote, axis, id).value
  }

  /** Rows of remote verbs say so, as every row this server writes does. */
  predicate WellAudited(w: World) {
    forall i :: 0 <= i < |w.audit| && w.audit[i].kind in {"archive", "unarchive", "delete", "restore"} ==>
      w.audit[i].payload.remoteWrite == Some("true")
  }

  datatype Request =
    | Act(ctx: Context, verb: Verb, id: RemoteId, f: Faults)
    | ManyOf(ctx: Context, verb: Verb, ids: seq<RemoteId>, faults: seq<Faults>)
    | Reading(ctx: Context, id: RemoteId, isRead: bool, record: bool, f: Faults)
    | Pinning(ctx: Context, id: RemoteId, pinned: bool, f: Faults)
    | Undoing(actionId: nat, now: string, u: UndoFaults)

  predicate WellFormed(r: Request) { r.ManyOf? ==> |r.faults| == |r.ids| }

  function Handle(w: World, r: Request): World
    requires WellFormed(r)
  {
    match r
    case Act(ctx, verb, id, f) => MessageAction(w, ctx, verb, id, f).1
    case ManyOf(ctx, verb, ids, faults) => Bulk(w, ctx, verb, ids, faults).1
    case Reading(ctx, id, isRead, record, f) => MarkRead(w, ctx, id, isRead, record, f).1
    case Pinning(ctx, id, pinned, f) => Pin(w, ctx, id, pinned, f).1
    case Undoing(actionId, now, u) => UndoOne(w, actionId, now, u).1
  }

  function IdOf(row: Row): RemoteId { if row.payload.remoteId.Some? then row.payload.remoteId.value else "" }

  /** The messages of a request reported as failed by an internal error: 500
      for an action or a whole bulk, a failed undo. */
  function ReportedFailed(w: World, r: Request): set<RemoteId>
    requires WellFormed(r)
  {
    match r
    case Act(ctx, verb, id, f) => if MessageAction(w, ctx, verb, id, f).0.status == 500 then {id} else {}
    case ManyOf(ctx, verb, ids, faults) =>
      (match Bulk(w, ctx, verb, ids, faults).0
       case Items(_) => {}
       case NoItems(answer) => if answer.status == 500 then set i | 0 <= i < |ids| :: ids[i] else {})
    case Undoing(actionId, now, u) =>
      var row := FindAction(w.audit, actionId);
      if UndoOne(w, actionId, now, u).0 == Failed && row.Some? then {IdOf(row.value)} else {}
    case _ => {}
  }

  function Run(w: World, rs: seq<Request>): World
    requires forall r :: r in rs ==> WellFormed(r)
    decreases |rs|
  {
    if rs == [] then w else Run(Handle(w, rs[0]), rs[1..])
  }

  function Suspects(w: World, rs: seq<Request>): set<RemoteId>
    requires forall r :: r in rs ==> WellFormed(r)
    decreases |rs|
  {
    if rs == [] then {} else ReportedFailed(w, rs[0]) + Suspects(Handle(w, rs[0]), rs[1..])
  }

  lemma OneCall(remote: seq<Call>, c: Call, axis: Axis, id: RemoteId)
    ensures LastWord(remote + [c], axis, id) ==
            if c.ok && c.id == id && Sets(c.verb).Some? && Sets(c.verb).value.0 == axis then Some(Sets(c.verb).value.1)
            else LastWord(remote, axis, id)
  {
    assert (remote + [c])[..|remote|] == remote;
  }

  /** A remote call and the local write of the same verb keep every message in
      step; a remote call alone disturbs at most its own message. */
  lemma CallKeepsStep(w: World, verb: Verb, target: RemoteId, error: Option<ProviderError>, id: RemoteId)
    requires InStep(w, id)
    ensures var w1 := Remote(w, verb, target, error).1;
            && (id != target || error.Some? ==> InStep(w1, id))
            && (Remote(w, verb, target, error).0 == None ==> InStep(Local(w1, verb, target).0, id))
  {
    var c := Call(verb, target, error == None);
    OneCall(w.remote, c, ArchiveFlag, id);
    OneCall(w.remote, c, TrashFlag, id);
    hide LastWord;
  }

  lemma LocalKeepsStep(w: World, verb: Verb, target: RemoteId, id: RemoteId)
    requires InStep(w, id) && Sets(verb) == None
    ensures InStep(Local(w, verb, target).0, id)
  {
    hide LastWord;
  }

  lemma RecordKeepsStep(w: World, kind: string, payload: Payload, expires: Option<string>, id: RemoteId)
    ensures InStep(Record(w, kind, payload, expires), id) <==> InStep(w, id)
    ensures WellAudited(w) && payload.remoteWrite == Some("true") ==> WellAudited(Record(w, kind, payload, expires))
    ensures WellAudited(w) && kind !in {"archive", "unarchive", "delete", "restore"} ==>
              WellAudited(Record(w, kind, payload, expires))
  {
    hide LastWord;
  }

  lemma ActKeepsStep(w: World, ctx: Context, verb: Verb, target: RemoteId, f: Faults, id: RemoteId)
    requires InStep(w, id) && WellAudited(w)
    ensures var (answer, w1) := MessageAction(w, ctx, verb, target, f);
            WellAudited(w1) && ((id == target && answer.status == 500) || InStep(w1, id))
  {
    if Preflight(ctx, verb) == None {
      CallKeepsStep(w, verb, target, f.remote, id);
      var w1 := Remote(w, verb, target, f.remote).1;
      if verb.SetPinned? {
        LocalKeepsStep(w, verb, target, id);
      }
      var (w2, previous) := Local(w1, verb, target);
      hide InStep, LastWord;
      if AuditKind(verb).Some? {
        RecordKeepsStep(w2, AuditKind(verb).value, AuditPayload(verb, target, TouchesRemote(verb), previous), f.expires, id);
      }
    }
  }

  lemma BulkItemKeepsStep(w: World, ctx: Context, verb: Verb, target: RemoteId, f: Faults, id: RemoteId)
    requires InStep(w, id) && WellAudited(w) && Preflight(ctx, verb) == None
    ensures var (item, w1) := BulkItem(w, verb, target, f);
            WellAudited(w1) && ((id == target && item == None) || InStep(w1, id))
  {
    BulkItemIsSingle(w, ctx, verb, target, f);
    ActKeepsStep(w, ctx, verb, target, f, id);
    CallKeepsStep(w, verb, target, f.remote, id);
  }

  lemma {:induction false} BulkKeepsStep(w: World, ctx: Context, verb: Verb, ids: seq<RemoteId>, faults: seq<Faults>, id: RemoteId)
    requires |faults| == |ids| && InStep(w, id) && WellAudited(w) && Preflight(ctx, verb) == None
    ensures var (items, w1) := BulkItems(w, verb, ids, faults);
            WellAudited(w1) && ((items == None && id in ids) || InStep(w1, id))
    decreases |ids|
  {
    hide InStep, WellAudited, BulkItem, Preflight;
    if ids != [] {
      BulkItemKeepsStep(w, ctx, verb, ids[0], faults[0], id);
      var (item, w1) := BulkItem(w, verb, ids[0], faults[0]);
      if item.Some? {
        BulkKeepsStep(w1, ctx, verb, ids[1..], faults[1..], id);
      }
    }
  }

  lemma WithoutIsSubset(audit: seq<Row>, id: nat)
    ensures forall r :: r in Without(audit, id) ==> r in audit
  {
  }

  lemma RetractKeepsStep(w: World, row: nat, fails: bool, id: RemoteId)
    ensures InStep(Retract(w, row, fails), id) <==> InStep(w, id)
    ensures WellAudited(w) ==> WellAudited(Retract(w, row, fails))
  {
    hide LastWord;
    WithoutIsSubset(w.audit, row);
    var w1 := Retract(w, row, fails);
    if WellAudited(w) {
      forall i | 0 <= i < |w1.audit| && w1.audit[i].kind in {"archive", "unarchive", "delete", "restore"}
        ensures w1.audit[i].payload.remoteWrite == Some("true")
      {
        assert w1.audit[i] in w.audit;
      }
    }
  }

  lemma {:induction false} UndoKeepsStep(w: World, actionId: nat, now: string, u: UndoFaults, id: RemoteId)
    requires InStep(w, id) && WellAudited(w)
    ensures var (outcome, w1) := UndoOne(w, actionId, now, u);
            && WellAudited(w1)
            && (InStep(w1, id)
                || (outcome == Failed && FindAction(w.audit, actionId).Some? && id == IdOf(FindAction(w.audit, actionId).value)))
  {
    var (c, w1) := TakeClaim(w, actionId, now, u.claim, u.expires);
    if !u.closed && c.Claimed? {
      var row := FindAction(w.audit, actionId).value;
      RecordKeepsStep(w, "undo", UndoPayload(actionId), u.expires, id);
      ClaimedRemotely(w, row);
      FinishKeepsStep(w1, c, u, id);
    }
  }

  lemma ClaimedRemotely(w: World, row: Row)
    requires WellAudited(w) && row in w.audit && UndoVerb(row).Some?
    ensures row.payload.remoteWrite == Some("true") || Sets(UndoVerb(row).value) == None
  {
    var i :| 0 <= i < |w.audit| && w.audit[i] == row;
  }

  lemma FinishKeepsStep(w: World, c: Claim, u: UndoFaults, id: RemoteId)
    requires InStep(w, id) && WellAudited(w) && c.Claimed? && (c.remoteWrite || Sets(c.verb) == None)
    ensures var (outcome, w1) := FinishUndo(w, c, u);
            WellAudited(w1) && (InStep(w1, id) || (outcome == Failed && id == c.id))
  {
    RetractKeepsStep(w, c.row, u.retract, id);
    var w1 := if c.remoteWrite && TouchesRemote(c.verb) then Remote(w, c.verb, c.id, u.remote).1 else w;
    RetractKeepsStep(w1, c.row, u.retract, id);
    CallKeepsStep(w, c.verb, c.id, u.remote, id);
    if Sets(c.verb) == None {
      LocalKeepsStep(w, c.verb, c.id, id);
    }
    hide LastWord, InStep;
  }

  lemma ReadKeepsStep(w: World, ctx: Context, target: RemoteId, isRead: bool, record: bool, f: Faults, id: RemoteId)
    requires InStep(w, id) && WellAudited(w)
    ensures InStep(MarkRead(w, ctx, target, isRead, record, f).1, id)
    ensures WellAudited(MarkRead(w, ctx, target, isRead, record, f).1)
  {
    var (w1, previous) := Local(w, SetRead(isRead), target);
    LocalKeepsStep(w, SetRead(isRead), target, id);
    var payload := AuditPayload(SetRead(isRead), target, true, previous);
    RecordKeepsStep(w1, "markRead", payload, f.expires, id);
    ReadCallKeepsStep(w1, target, isRead, f.remote, id);
    ReadCallKeepsStep(Record(w1, "markRead", payload, f.expires), target, isRead, f.remote, id);
    hide LastWord, InStep;
  }

  lemma ReadCallKeepsStep(w: World, target: RemoteId, isRead: bool, error: Option<ProviderError>, id: RemoteId)
    ensures InStep(w, id) ==> InStep(Remote(w, SetRead(isRead), target, error).1, id)
  {
    var c := Call(SetRead(isRead), target, error == None);
    OneCall(w.remote, c, ArchiveFlag, id);
    OneCall(w.remote, c, TrashFlag, id);
    hide LastWord;
  }

  lemma PinKeepsStep(w: World, ctx: Context, target: RemoteId, pinned: bool, f: Faults, id: RemoteId)
    requires InStep(w, id) && WellAudited(w)
    ensures InStep(Pin(w, ctx, target, pinned, f).1, id) && WellAudited(Pin(w, ctx, target, pinned, f).1)
  {
    var w1 := Local(w, SetPinned(pinned), target).0;
    LocalKeepsStep(w, SetPinned(pinned), target, id);
    RecordKeepsStep(w1, if pinned then "pin" else "unpin", Payload(Some(target), None, None, None), f.expires, id);
    hide LastWord, InStep;
  }

  /** One request, whatever fails in it: a message leaves step only when that
      very request reported an internal error for it. */
  lemma RequestKeepsStep(w: World, r: Request, id: RemoteId)
    requires WellFormed(r) && InStep(w, id) && WellAudited(w)
    ensures WellAudited(Handle(w, r))
    ensures id !in ReportedFailed(w, r) ==> InStep(Handle(w, r), id)
  {
    match r
    case Act(ctx, verb, target, f) => ActKeepsStep(w, ctx, verb, target, f, id);
    case ManyOf(ctx, verb, ids, faults) =>
      if Preflight(ctx, verb) == None {
        BulkKeepsStep(w, ctx, verb, ids, faults, id);
      }
    case Reading(ctx, target, isRead, record, f) => ReadKeepsStep(w, ctx, target, isRead, record, f, id);
    case Pinning(ctx, target, pinned, f) => PinKeepsStep(w, ctx, target, pinned, f, id);
    case Undoing(actionId, now, u) => UndoKeepsStep(w, actionId, now, u, id);
  }

  /** Over every sequence of requests with failures injected at any step, the
      local archived and deleted flags of a message agree with the last
      successful remote call, unless some request in the run reported a failure
      for that message. */
  lemma {:induction false} RunKeepsStep(w: World, rs: seq<Request>, id: RemoteId)
    requires forall r :: r in rs ==> WellFormed(r)
    requires InStep(w, id) && WellAudited(w)
    ensures id !in Suspects(w, rs) ==> InStep(Run(w, rs), id)
    decreases |rs|
  {
    hide InStep, WellAudited, Handle, ReportedFailed;
    if rs != [] {
      RequestKeepsStep(w, rs[0], id);
      if id !in ReportedFailed(w, rs[0]) {
        RunKeepsStep(Handle(w, rs[0]), rs[1..], id);
      }
    }
  }

  // ------------------------------------- a flag changes after its call --

  /** Every changed flag is the one a successful remote call for the same
      message set, made in between. */
  ghost predicate Explained(w: World, w1: World, id: RemoteId) {
    && w.remote <= w1.remote
    && w1.headers.Keys <= w.headers.Keys
    && (id in w1.headers ==>
          forall axis :: FlagOn(w1.headers[id], axis) == FlagOn(w.headers[id], axis) || Called(w, w1, id, axis, FlagOn(w1.headers[id], axis)))
  }

  ghost predicate Called(w: World, w1: World, id: RemoteId, axis: Axis, value: bool) {
    exists i :: |w.remote| <= i < |w1.remote| && w1.remote[i].ok && w1.remote[i].id == id
                && Sets(w1.remote[i].verb) == Some((axis, value))
  }

  lemma ExplainedThrough(w: World, w1: World, w2: World, id: RemoteId)
    requires Explained(w, w1, id) && Explained(w1, w2, id)
    ensures Explained(w, w2, id)
  {
    hide FlagOn, Sets;
    if id in w2.headers {
      forall axis ensures FlagOn(w2.headers[id], axis) == FlagOn(w.headers[id], axis)
                          || Called(w, w2, id, axis, FlagOn(w2.headers[id], axis))
      {
        if FlagOn(w2.headers[id], axis) != FlagOn(w1.headers[id], axis) {
          assert Called(w1, w2, id, axis, FlagOn(w2.headers[id], axis));
          var i :| |w1.remote| <= i < |w2.remote| && w2.remote[i].ok && w2.remote[i].id == id
                   && Sets(w2.remote[i].verb) == Some((axis, FlagOn(w2.headers[id], axis)));
        } else if FlagOn(w1.headers[id], axis) != FlagOn(w.headers[id], axis) {
          assert Called(w, w1, id, axis, FlagOn(w1.headers[id], axis));
          var i :| |w.remote| <= i < |w1.remote| && w1.remote[i].ok && w1.remote[i].id == id
                   && Sets(w1.remote[i].verb) == Some((axis, FlagOn(w1.headers[id], axis)));
          assert w2.remote[i] == w1.remote[i];
        }
      }
    }
  }

  lemma CallThenLocalIsExplained(w: World, verb: Verb, target: RemoteId, error: Option<ProviderError>, id: RemoteId)
    ensures Explained(w, Remote(w, verb, target, error).1, id)
    ensures Remote(w, verb, target, error).0 == None ==> Explained(w, Local(Remote(w, verb, target, error).1, verb, target).0, id)
    ensures Sets(verb) == None ==> Explained(w, Local(w, verb, target).0, id)
  {
    var w1 := Remote(w, verb, target, error).1;
    if Sets(verb).Some? {
      assert w1.remote[|w.remote|] == Call(verb, target, error == None);
    }
  }

  lemma RecordIsExplained(w: World, w1: World, kind: string, payload: Payload, expires: Option<string>, id: RemoteId)
    requires Explained(w, w1, id)
    ensures Explained(w, Record(w1, kind, payload, expires), id)
  {
    hide FlagOn, Sets;
    forall axis, value | Called(w, w1, id, axis, value) ensures Called(w, Record(w1, kind, payload, expires), id, axis, value) {
      var i :| |w.remote| <= i < |w1.remote| && w1.remote[i].ok && w1.remote[i].id == id
               && Sets(w1.remote[i].verb) == Some((axis, value));
    }
  }

  lemma NothingIsExplained(w: World, id: RemoteId)
    ensures Explained(w, w, id)
  {
  }

  lemma ActIsExplained(w: World, ctx: Context, verb: Verb, target: RemoteId, f: Faults, id: RemoteId)
    ensures Explained(w, MessageAction(w, ctx, verb, target, f).1, id)
  {
    NothingIsExplained(w, id);
    CallThenLocalIsExplained(w, verb, target, f.remote, id);
    var w1 := Remote(w, verb, target, f.remote).1;
    var (w2, previous) := Local(w1, verb, target);
    hide Explained;
    if Remote(w, verb, target, f.remote).0 == None && AuditKind(verb).Some? {
      RecordIsExplained(w, w2, AuditKind(verb).value, AuditPayload(verb, target, TouchesRemote(verb), previous), f.expires, id);
    }
  }

  lemma {:induction false} BulkIsExplained(w: World, ctx: Context, verb: Verb, ids: seq<RemoteId>, faults: seq<Faults>, id: RemoteId)
    requires |faults| == |ids| && Preflight(ctx, verb) == None
    ensures Explained(w, BulkItems(w, verb, ids, faults).1, id)
    decreases |ids|
  {
    hide Explained, BulkItem, MessageAction, Preflight;
    NothingIsExplained(w, id);
    if ids != [] {
      BulkItemIsSingle(w, ctx, verb, ids[0], faults[0]);
      ActIsExplained(w, ctx, verb, ids[0], faults[0], id);
      var (item, w1) := BulkItem(w, verb, ids[0], faults[0]);
      if item.Some? {
        BulkIsExplained(w1, ctx, verb, ids[1..], faults[1..], id);
        ExplainedThrough(w, w1, BulkItems(w1, verb, ids[1..], faults[1..]).1, id);
      }
    }
  }

  lemma RetractIsExplained(w: World, w1: World, row: nat, fails: bool, id: RemoteId)
    requires Explained(w, w1, id)
    ensures Explained(w, Retract(w1, row, fails), id)
  {
    hide FlagOn, Sets;
    forall axis, value | Called(w, w1, id, axis, value) ensures Called(w, Retract(w1, row, fails), id, axis, value) {
      var i :| |w.remote| <= i < |w1.remote| && w1.remote[i].ok && w1.remote[i].id == id
               && Sets(w1.remote[i].verb) == Some((axis, value));
    }
  }

  lemma FinishIsExplained(w: World, c: Claim, u: UndoFaults, id: RemoteId)
    requires c.Claimed? && (c.remoteWrite || Sets(c.verb) == None)
    ensures Explained(w, FinishUndo(w, c, u).1, id)
  {
    NothingIsExplained(w, id);
    CallThenLocalIsExplained(w, c.verb, c.id, u.remote, id);
    var w1 := if c.remoteWrite && TouchesRemote(c.verb) then Remote(w, c.verb, c.id, u.remote).1 else w;
    hide Explained;
    RetractIsExplained(w, w, c.row, u.retract, id);
    RetractIsExplained(w, w1, c.row, u.retract, id);
  }

  lemma UndoIsExplained(w: World, actionId: nat, now: string, u: UndoFaults, id: RemoteId)
    requires WellAudited(w)
    ensures Explained(w, UndoOne(w, actionId, now, u).1, id)
  {
    NothingIsExplained(w, id);
    hide Explained;
    var (c, w1) := TakeClaim(w, actionId, now, u.claim, u.expires);
    if !u.closed && c.Claimed? {
      ClaimedRemotely(w, FindAction(w.audit, actionId).value);
      RecordIsExplained(w, w, "undo", UndoPayload(actionId), u.expires, id);
      FinishIsExplained(w1, c, u, id);
      ExplainedThrough(w, w1, FinishUndo(w1, c, u).1, id);
    }
  }

  lemma ReadIsExplained(w: World, ctx: Context, target: RemoteId, isRead: bool, record: bool, f: Faults, id: RemoteId)
    ensures Explained(w, MarkRead(w, ctx, target, isRead, record, f).1, id)
  {
    NothingIsExplained(w, id);
    CallThenLocalIsExplained(w, SetRead(isRead), target, f.remote, id);
    var (w1, previous) := Local(w, SetRead(isRead), target);
    var payload := AuditPayload(SetRead(isRead), target, true, previous);
    var w2 := Record(w1, "markRead", payload, f.expires);
    CallThenLocalIsExplained(w1, SetRead(isRead), target, f.remote, id);
    CallThenLocalIsExplained(w2, SetRead(isRead), target, f.remote, id);
    hide Explained;
    RecordIsExplained(w, w1, "markRead", payload, f.expires, id);
    ExplainedThrough(w, w1, Remote(w1, SetRead(isRead), target, f.remote).1, id);
    ExplainedThrough(w, w2, Remote(w2, SetRead(isRead), target, f.remote).1, id);
  }

  /** In any request, whatever fails, a local archived or deleted flag changes
      only to the value a successful remote call for the same message set in
      that same request. */
  lemma FlagChangeNeedsCall(w: World, r: Request, id: RemoteId)
    requires WellFormed(r) && WellAudited(w)
    ensures Explained(w, Handle(w, r), id)
  {
    NothingIsExplained(w, id);
    match r
    case Act(ctx, verb, target, f) => ActIsExplained(w, ctx, verb, target, f, id);
    case ManyOf(ctx, verb, ids, faults) =>
      if Preflight(ctx, verb) == None {
        BulkIsExplained(w, ctx, verb, ids, faults, id);
      }
    case Reading(ctx, target, isRead, record, f) => ReadIsExplained(w, ctx, target, isRead, record, f, id);
    case Pinning(ctx, target, pinned, f) =>
      CallThenLocalIsExplained(w, SetPinned(pinned), target, None, id);
    case Undoing(actionId, now, u) => UndoIsExplained(w, actionId, now, u, id);
  }
}
