/** Undo as the inverse of the audited actions, one at a time and newest first. */
module UndoStack {
  import opened Wrappers
  import opened TextOrder
  import opened MailActions
  import opened MailSafety

  /** A user action that leaves an audit row. */
  datatype Deed =
    | Folder(verb: Verb, id: RemoteId)
    | Mark(isRead: bool, id: RemoteId)
    | PinTo(pinned: bool, id: RemoteId)

  /** What the whole session shares: an open gate, and expiries after `now`. */
  datatype Session = Session(ctx: Context, expires: Option<string>, now: string) {
    predicate Valid() {
      && ctx.Ready? && ctx.configured
      && (forall v :: v in {Archive, Unarchive, Trash, Restore} ==> Gate(v, ctx.caps) == None)
      && !(expires.Some? && AtMost(expires.value, now))
    }

    function NoFaults(): Faults { Faults(None, false, false, expires) }

    function NoUndoFaults(): UndoFaults { UndoFaults(false, None, true, None, false, false, expires) }
  }

  predicate ValidDeed(w: World, d: Deed) {
    match d
    case Folder(verb, _) => Sets(verb).Some?
    case Mark(_, id) => id in w.headers
    case PinTo(_, _) => true
  }

  function Do(w: World, s: Session, d: Deed): (Answer, World) {
    match d
    case Folder(verb, id) => MessageAction(w, s.ctx, verb, id, s.NoFaults())
    case Mark(isRead, id) => MarkRead(w, s.ctx, id, isRead, true, s.NoFaults())
    case PinTo(pinned, id) => Pin(w, s.ctx, id, pinned, s.NoFaults())
  }

  function UndoNow(w: World, s: Session, actionId: nat): (UndoOutcome, World) {
    UndoOne(w, actionId, s.now, s.NoUndoFaults())
  }

  /** The action really changes the flag it sets; marking as read always
      remembers what it replaced. */
  predicate Flips(w: World, d: Deed) {
    match d
    case Folder(verb, id) =>
      Sets(verb).Some? && (id in w.headers ==> FlagOn(w.headers[id], Sets(verb).value.0) != Sets(verb).value.1)
    case Mark(_, _) => true
    case PinTo(pinned, id) => (id in w.pins) != pinned
  }

  /** Row ids are issued in order, and no undo refers to one not yet issued. */
  predicate Numbered(w: World) {
    forall i :: 0 <= i < |w.audit| ==>
      w.audit[i].id < w.nextId && (w.audit[i].payload.undoOf.Some? ==> w.audit[i].payload.undoOf.value < w.nextId)
  }

  /** The remote call an action makes, and the one its undo makes. */
  function Calls(w: World, d: Deed): seq<Call> {
    match d
    case Folder(verb, id) => [Call(verb, id, true)]
    case Mark(isRead, id) => [Call(SetRead(isRead), id, true)]
    case PinTo(_, _) => []
  }

  function UndoCalls(w: World, d: Deed): seq<Call>
    requires ValidDeed(w, d)
  {
    match d
    case Folder(verb, id) => [Call(Inverse(verb), id, true)]
    case Mark(_, id) => [Call(SetRead(w.headers[id].read), id, true)]
    case PinTo(_, _) => []
  }

  // ----------------------------------------------------------- one action --

  /** The audit row an action leaves. */
  function RowOf(w: World, s: Session, d: Deed): Row
    requires ValidDeed(w, d)
  {
    match d
    case Folder(verb, id) => Row(w.nextId, AuditKind(verb).value, AuditPayload(verb, id, true, None), s.expires)
    case Mark(isRead, id) =>
      Row(w.nextId, "markRead", AuditPayload(SetRead(isRead), id, true, Some(w.headers[id].read)), s.expires)
    case PinTo(pinned, id) => Row(w.nextId, if pinned then "pin" else "unpin", Payload(Some(id), None, None, None), s.expires)
  }

  function DeedVerb(d: Deed): Verb {
    match d
    case Folder(verb, _) => verb
    case Mark(isRead, _) => SetRead(isRead)
    case PinTo(pinned, _) => SetPinned(pinned)
  }

  function BackVerb(w: World, d: Deed): Verb
    requires ValidDeed(w, d)
  {
    match d
    case Folder(verb, _) => Inverse(verb)
    case Mark(_, id) => SetRead(w.headers[id].read)
    case PinTo(pinned, _) => SetPinned(!pinned)
  }

  lemma DoLeavesRow(w: World, s: Session, d: Deed)
    requires s.Valid() && ValidDeed(w, d)
    ensures var (answer, w1) := Do(w, s, d);
            && answer == Answer(200, "ok", Some(w.nextId))
            && w1 == World(Local(w, DeedVerb(d), d.id).0.headers, Local(w, DeedVerb(d), d.id).0.pins,
                           w.remote + Calls(w, d), w.audit + [RowOf(w, s, d)], w.nextId + 1)
  {
    hide AtMost, BoolText;
    match d
    case Folder(_, _) => hide MarkRead, Pin;
    case Mark(_, _) => hide MessageAction, Pin;
    case PinTo(_, _) => hide MessageAction, MarkRead;
  }

  lemma RowUndoes(w: World, s: Session, d: Deed)
    requires ValidDeed(w, d)
    ensures var row := RowOf(w, s, d);
            && row.id == w.nextId && row.payload.undoOf == None && IdOf(row) == d.id && row.expiresAt == s.expires
            && row.payload.remoteId == Some(d.id)
            && UndoVerb(row) == Some(BackVerb(w, d))
            && (row.payload.remoteWrite == Some("true") <==> !d.PinTo?)
  {
  }

  lemma {:induction false} FindAmong(a: seq<Row>, row: Row, b: seq<Row>)
    requires forall i :: 0 <= i < |a| ==> a[i].id != row.id
    ensures FindAction(a + [row] + b, row.id) == Some(row)
  {
    var s := a + [row] + b;
    if a != [] {
      assert s[1..] == a[1..] + [row] + b;
      FindAmong(a[1..], row, b);
    }
  }

  /** A live, unexpired row is undone in one step. */
  lemma UndoRuns(w: World, s: Session, row: Row)
    requires s.Valid() && row.expiresAt == s.expires && row.payload.remoteId.Some? && UndoVerb(row).Some?
    requires FindAction(w.audit, row.id) == Some(row) && !IsUndone(w.audit, row.id)
    ensures var verb, id := UndoVerb(row).value, row.payload.remoteId.value;
            var calls := if row.payload.remoteWrite == Some("true") && TouchesRemote(verb) && !verb.EmptyTrash?
                         then [Call(verb, id, true)] else [];
            UndoNow(w, s, row.id) ==
            (Undone, World(Local(w, verb, id).0.headers, Local(w, verb, id).0.pins, w.remote + calls,
                           w.audit + [Row(w.nextId, "undo", UndoPayload(row.id), s.expires)], w.nextId + 1))
  {
    assert w.remote + [] == w.remote;
  }

  /** Local writes depend on, and change, the flags and pins alone. */
  lemma LocalIsLocal(w: World, w1: World, verb: Verb, id: RemoteId)
    requires w.headers == w1.headers && w.pins == w1.pins
    ensures Local(w, verb, id).0.headers == Local(w1, verb, id).0.headers
    ensures Local(w, verb, id).0.pins == Local(w1, verb, id).0.pins
  {
  }

  /** The inverse verb restores the flags and pins exactly when the action
      flipped its flag. */
  lemma BackRestores(w: World, d: Deed)
    requires ValidDeed(w, d)
    ensures var w1 := Local(w, DeedVerb(d), d.id).0;
            var w2 := Local(w1, BackVerb(w, d), d.id).0;
            w2.headers == w.headers && w2.pins == w.pins <==> Flips(w, d)
  {
    var id := d.id;
    var w1 := Local(w, DeedVerb(d), id).0;
    var w2 := Local(w1, BackVerb(w, d), id).0;
    assert w2.headers.Keys == w.headers.Keys;
    if id in w.headers {
      assert w2.headers == w.headers <==> w2.headers[id] == w.headers[id];
    }
    assert id in w2.pins <==> match d case PinTo(pinned, _) => !pinned case _ => id in w.pins;
  }

  /** Undoing an action at once answers `Undone`, makes the inverse remote call,
      and restores flags and pins exactly when the action flipped its flag. */
  lemma UndoRestoresIffFlipped(w: World, s: Session, d: Deed)
    requires s.Valid() && ValidDeed(w, d) && Numbered(w)
    ensures var w1 := Do(w, s, d).1;
            var (outcome, w2) := UndoNow(w1, s, w.nextId);
            && outcome == Undone
            && w2.remote == w.remote + Calls(w, d) + UndoCalls(w, d)
            && (w2.headers == w.headers && w2.pins == w.pins <==> Flips(w, d))
  {
    var w1 := Do(w, s, d).1;
    UndoLater(w, s, d, w1);
    BackRestores(w, d);
    LocalIsLocal(w1, Local(w, DeedVerb(d), d.id).0, BackVerb(w, d), d.id) by { DoLeavesRow(w, s, d); }
    DoLeavesRow(w, s, d);
  }

  /** An action's own row is found, and not undone, as long as later activity
      only extends the log. */
  lemma RowIsOpen(w: World, row: Row, w1: World, later: World)
    requires Numbered(w) && row.id == w.nextId && row.payload.undoOf == None
    requires w1.audit == w.audit + [row] && w1.nextId == w.nextId + 1 && Extends(w1, later)
    ensures FindAction(later.audit, row.id) == Some(row) && !IsUndone(later.audit, row.id)
  {
    var more := later.audit[|w.audit| + 1..];
    assert later.audit == w.audit + [row] + more;
    assert forall i :: 0 <= i < |w.audit| ==> later.audit[i] == w.audit[i];
    assert later.audit[|w.audit|] == row;
    hide FindAction;
    FindAmong(w.audit, row, more);
  }

  /** The same after any later activity that left the flags, the pins and the
      row alone: `later` extends the log past the action. */
  lemma UndoLater(w: World, s: Session, d: Deed, later: World)
    requires s.Valid() && ValidDeed(w, d) && Numbered(w)
    requires Extends(Do(w, s, d).1, later)
    ensures UndoNow(later, s, w.nextId) ==
            (Undone, World(Local(later, BackVerb(w, d), d.id).0.headers, Local(later, BackVerb(w, d), d.id).0.pins,
                           later.remote + UndoCalls(w, d),
                           later.audit + [Row(later.nextId, "undo", UndoPayload(w.nextId), s.expires)], later.nextId + 1))
  {
    hide Do, Local, RowOf, UndoNow, FindAction, Calls, UndoVerb, IdOf, Session.Valid, IsUndone, Extends, Numbered;
    DoLeavesRow(w, s, d);
    RowUndoes(w, s, d);
    var row := RowOf(w, s, d);
    RowIsOpen(w, row, Do(w, s, d).1, later);
    UndoRuns(later, s, row);
  }

  /** The log grew, and every undo row added refers to a later action. */
  predicate Extends(w: World, later: World) {
    && w.audit <= later.audit && w.nextId <= later.nextId
    && forall i :: |w.audit| <= i < |later.audit| ==>
         later.audit[i].payload.undoOf.Some? ==> later.audit[i].payload.undoOf.value >= w.nextId
  }

  // ----------------------------------------------------------- the stack --

  function DoAll(w: World, s: Session, deeds: seq<Deed>): World
    decreases |deeds|
  {
    if deeds == [] then w else DoAll(Do(w, s, deeds[0]).1, s, deeds[1..])
  }

  /** Undo the actions with ids from `first` on, newest first. */
  function UndoAll(w: World, s: Session, first: nat, count: nat): (seq<UndoOutcome>, World)
    decreases count
  {
    if count == 0 then ([], w)
    else
      var (later, w1) := UndoAll(w, s, first + 1, count - 1);
      var (outcome, w2) := UndoNow(w1, s, first);
      (later + [outcome], w2)
  }

  /** Each action is possible, and flips its flag, when its turn comes. */
  predicate AllFlip(w: World, s: Session, deeds: seq<Deed>)
    decreases |deeds|
  {
    deeds == []
    || (ValidDeed(w, deeds[0]) && Flips(w, deeds[0]) && AllFlip(Do(w, s, deeds[0]).1, s, deeds[1..]))
  }

  function AllCalls(w: World, s: Session, deeds: seq<Deed>): seq<Call>
    decreases |deeds|
  {
    if deeds == [] then [] else Calls(w, deeds[0]) + AllCalls(Do(w, s, deeds[0]).1, s, deeds[1..])
  }

  /** The inverse calls, last action first. */
  function AllUndoCalls(w: World, s: Session, deeds: seq<Deed>): seq<Call>
    requires AllFlip(w, s, deeds)
    decreases |deeds|
  {
    if deeds == [] then [] else AllUndoCalls(Do(w, s, deeds[0]).1, s, deeds[1..]) + UndoCalls(w, deeds[0])
  }

  lemma DoKeepsNumbers(w: World, s: Session, d: Deed)
    requires s.Valid() && ValidDeed(w, d) && Numbered(w)
    ensures Numbered(Do(w, s, d).1)
  {
    DoLeavesRow(w, s, d);
    RowUndoes(w, s, d);
  }

  lemma ExtendsThrough(w: World, w1: World, later: World, row: Row)
    requires w1.audit == w.audit + [row] && w1.nextId == w.nextId + 1 && row.payload.undoOf == None && Extends(w1, later)
    ensures Extends(w, later)
  {
    assert later.audit[|w.audit|] == w1.audit[|w.audit|];
  }

  lemma ExtendsByUndo(w: World, w1: World, later: World, row: Row)
    requires Extends(w, w1) && later.audit == w1.audit + [row] && later.nextId == w1.nextId + 1
    requires row.payload.undoOf == Some(w.nextId)
    ensures Extends(w, later)
  {
  }

  /** Everything is back: outcomes, flags, pins and the remote calls made. */
  predicate Restored(w: World, s: Session, deeds: seq<Deed>, outcomes: seq<UndoOutcome>, last: World)
    requires AllFlip(w, s, deeds)
  {
    && |outcomes| == |deeds| && (forall i :: 0 <= i < |outcomes| ==> outcomes[i] == Undone)
    && last.headers == w.headers && last.pins == w.pins
    && last.remote == w.remote + AllCalls(w, s, deeds) + AllUndoCalls(w, s, deeds)
  }

  lemma RestoredFirst(w: World, s: Session, deeds: seq<Deed>, w1: World, outcomes: seq<UndoOutcome>, later: World, last: World)
    requires deeds != [] && AllFlip(w, s, deeds) && w1 == Do(w, s, deeds[0]).1
    requires w1.remote == w.remote + Calls(w, deeds[0])
    requires Restored(w1, s, deeds[1..], outcomes, later)
    requires last.headers == w.headers && last.pins == w.pins && last.remote == later.remote + UndoCalls(w, deeds[0])
    ensures Restored(w, s, deeds, outcomes + [Undone], last)
  {
    hide Do, Calls, UndoCalls, Flips;
    var rest, restUndo := AllCalls(w1, s, deeds[1..]), AllUndoCalls(w1, s, deeds[1..]);
    assert w.remote + Calls(w, deeds[0]) + rest + restUndo + UndoCalls(w, deeds[0])
        == w.remote + (Calls(w, deeds[0]) + rest) + (restUndo + UndoCalls(w, deeds[0]));
  }

  lemma RestoredNothing(w: World, s: Session)
    ensures Restored(w, s, [], [], w) && Extends(w, w)
  {
    assert w.remote + [] + [] == w.remote;
  }

  /** After any run of successful audited actions that each flipped their flag,
      undoing them newest first answers `Undone` every time, restores every
      local flag and pin, and calls the remote inverses in reverse order. */
  lemma {:induction false} UndoIsAStack(w: World, s: Session, deeds: seq<Deed>)
    requires s.Valid() && Numbered(w) && AllFlip(w, s, deeds)
    ensures var (outcomes, last) := UndoAll(DoAll(w, s, deeds), s, w.nextId, |deeds|);
            Restored(w, s, deeds, outcomes, last) && Extends(w, last)
    decreases |deeds|
  {
    hide Do, UndoNow, Calls, UndoCalls, Extends, Restored, Numbered, Session.Valid, Flips, ValidDeed, RowOf;
    if deeds == [] {
      RestoredNothing(w, s);
    } else {
      var d := deeds[0];
      var w1 := Do(w, s, d).1;
      DoLeavesRow(w, s, d);
      DoKeepsNumbers(w, s, d);
      RowUndoes(w, s, d);
      UndoIsAStack(w1, s, deeds[1..]);
      var (outcomes, later) := UndoAll(DoAll(w1, s, deeds[1..]), s, w1.nextId, |deeds| - 1);
      RestoredKeeps(w1, s, deeds[1..], outcomes, later);
      UndoFirst(w, s, d, w1, later);
      var last := UndoNow(later, s, w.nextId).1;
      RestoredFirst(w, s, deeds, w1, outcomes, later, last);
      ExtendsThrough(w, w1, later, RowOf(w, s, d));
      ExtendsByUndo(w, later, last, Row(later.nextId, "undo", UndoPayload(w.nextId), s.expires));
    }
  }

  lemma RestoredKeeps(w: World, s: Session, deeds: seq<Deed>, outcomes: seq<UndoOutcome>, last: World)
    requires AllFlip(w, s, deeds) && Restored(w, s, deeds, outcomes, last)
    ensures last.headers == w.headers && last.pins == w.pins
  {
  }

  /** The oldest action's undo, once everything after it has been undone. */
  lemma UndoFirst(w: World, s: Session, d: Deed, w1: World, later: World)
    requires s.Valid() && ValidDeed(w, d) && Flips(w, d) && Numbered(w)
    requires w1 == Do(w, s, d).1 && Extends(w1, later) && later.headers == w1.headers && later.pins == w1.pins
    ensures var (outcome, last) := UndoNow(later, s, w.nextId);
            && outcome == Undone && last.headers == w.headers && last.pins == w.pins
            && last.remote == later.remote + UndoCalls(w, d)
            && last.audit == later.audit + [Row(later.nextId, "undo", UndoPayload(w.nextId), s.expires)]
            && last.nextId == later.nextId + 1
  {
    UndoLater(w, s, d, later);
    DoLeavesRow(w, s, d);
    BackRestores(w, d);
    LocalIsLocal(later, Local(w, DeedVerb(d), d.id).0, BackVerb(w, d), d.id);
  }

  function Reverse<T>(s: seq<T>): seq<T> { if s == [] then [] else Reverse(s[1..]) + [s[0]] }

  function InverseCalls(calls: seq<Call>): seq<Call> {
    if calls == [] then [] else [calls[0].(verb := Inverse(calls[0].verb))] + InverseCalls(calls[1..])
  }

  /** The folder calls of a run: archive, unarchive, trash and restore. */
  function FolderCalls(calls: seq<Call>): seq<Call> {
    if calls == [] then []
    else (if Sets(calls[0].verb).Some? then [calls[0]] else []) + FolderCalls(calls[1..])
  }

  lemma {:induction false} FolderCallsConcat(a: seq<Call>, b: seq<Call>)
    ensures FolderCalls(a + b) == FolderCalls(a) + FolderCalls(b)
  {
    if a == [] {
      assert a + b == b;
    } else {
      assert (a + b)[1..] == a[1..] + b;
      FolderCallsConcat(a[1..], b);
      hide Sets;
      var first := if Sets(a[0].verb).Some? then [a[0]] else [];
      assert first + (FolderCalls(a[1..]) + FolderCalls(b)) == first + FolderCalls(a[1..]) + FolderCalls(b);
    }
  }

  lemma FolderCallsOfDeed(w: World, d: Deed)
    requires ValidDeed(w, d)
    ensures FolderCalls(UndoCalls(w, d)) == InverseCalls(FolderCalls(Calls(w, d)))
    ensures |FolderCalls(Calls(w, d))| <= 1
  {
    match d
    case Folder(verb, id) =>
      assert FolderCalls([Call(verb, id, true)]) == [Call(verb, id, true)];
      assert FolderCalls([Call(Inverse(verb), id, true)]) == [Call(Inverse(verb), id, true)];
      assert InverseCalls([Call(verb, id, true)]) == [Call(Inverse(verb), id, true)];
    case _ =>
  }

  lemma ReverseFirst(a: seq<Call>, b: seq<Call>)
    requires |a| <= 1
    ensures Reverse(InverseCalls(a + b)) == Reverse(InverseCalls(b)) + InverseCalls(a)
  {
    if a == [] {
      assert a + b == b && Reverse(InverseCalls(b)) + [] == Reverse(InverseCalls(b));
    } else {
      assert (a + b)[1..] == b && a[1..] == [];
      var inverse := a[0].(verb := Inverse(a[0].verb));
      assert InverseCalls(a + b) == [inverse] + InverseCalls(b);
      assert ([inverse] + InverseCalls(b))[1..] == InverseCalls(b);
      assert InverseCalls(a) == [inverse];
    }
  }

  /** The folder calls the undo makes are the inverses of those the run made, in
      reverse order. */
  lemma {:induction false} UndoCallsAreReversedInverses(w: World, s: Session, deeds: seq<Deed>)
    requires AllFlip(w, s, deeds)
    ensures FolderCalls(AllUndoCalls(w, s, deeds)) == Reverse(InverseCalls(FolderCalls(AllCalls(w, s, deeds))))
    decreases |deeds|
  {
    if deeds != [] {
      var d := deeds[0];
      var w1 := Do(w, s, d).1;
      hide Do, Calls, UndoCalls, ValidDeed, Flips;
      UndoCallsAreReversedInverses(w1, s, deeds[1..]);
      FolderCallsOfDeed(w, d);
      FolderCallsConcat(Calls(w, d), AllCalls(w1, s, deeds[1..]));
      FolderCallsConcat(AllUndoCalls(w1, s, deeds[1..]), UndoCalls(w, d));
      ReverseFirst(FolderCalls(Calls(w, d)), FolderCalls(AllCalls(w1, s, deeds[1..])));
    }
  }
}
