/** Undo requests racing each other: any number of them, any interleaving of
    their steps and of other requests, a failure possible at every step. */
module UndoRace {
  import opened Wrappers
  import opened TextOrder
  import opened MailActions

  /** What a committed claim gives its request: the inverse verb, and the undo
      row that marks the action as taken. */
  datatype Grant = Grant(verb: Verb, remoteWrite: bool, id: RemoteId, row: nat)

  datatype Stage = Claiming | Inverted | Retracting

  /** Where a request stands. `kept` is the undo row a finished request leaves
      behind. */
  datatype Task =
    | Waiting(actionId: nat)
    | Owning(actionId: nat, grant: Grant, stage: Stage)
    | Ended(actionId: nat, outcome: UndoOutcome, kept: Option<nat>)

  datatype Race = Race(world: World, tasks: seq<Task>)

  datatype Entry = Entry(kind: string, payload: Payload, expires: Option<string>)

  /** One atomic step. `Elsewhere` is any other request of the server: it may
      change flags, pins and mailbox, and append a row that is no undo. */
  datatype Step =
    | TryClaim(task: nat, now: string, fault: Option<ClaimStep>, expires: Option<string>)
    | NoProvider(task: nat)
    | CallRemote(task: nat, failure: Option<ProviderError>)
    | WriteLocal(task: nat, fails: bool)
    | DropClaim(task: nat, fails: bool)
    | Elsewhere(headers: map<RemoteId, Flags>, pins: set<RemoteId>, remote: seq<Call>, entry: Option<Entry>)

  predicate GoesRemote(g: Grant) { g.remoteWrite && TouchesRemote(g.verb) }

  predicate At(r: Race, task: nat, stage: Stage) {
    task < |r.tasks| && r.tasks[task].Owning? && r.tasks[task].stage == stage
  }

  predicate Enabled(r: Race, s: Step) {
    match s
    case TryClaim(t, _, _, _) => t < |r.tasks| && r.tasks[t].Waiting?
    case NoProvider(t) => At(r, t, Claiming)
    case CallRemote(t, _) => At(r, t, Claiming) && GoesRemote(r.tasks[t].grant)
    case WriteLocal(t, _) => At(r, t, Inverted) || (At(r, t, Claiming) && !GoesRemote(r.tasks[t].grant))
    case DropClaim(t, _) => At(r, t, Retracting)
    case Elsewhere(_, _, _, entry) => entry.Some? ==> entry.value.kind != "undo"
  }

  function AfterClaim(actionId: nat, c: Claim): Task {
    match c
    case Refused(outcome) => Ended(actionId, outcome, None)
    case Claimed(verb, remoteWrite, id, row) => Owning(actionId, Grant(verb, remoteWrite, id, row), Claiming)
  }

  function Next(r: Race, s: Step): Race
    requires Enabled(r, s)
  {
    match s
    case TryClaim(t, now, fault, expires) =>
      var (c, w1) := TakeClaim(r.world, r.tasks[t].actionId, now, fault, expires);
      Race(w1, r.tasks[t := AfterClaim(r.tasks[t].actionId, c)])
    case NoProvider(t) =>
      r.(tasks := r.tasks[t := r.tasks[t].(stage := Retracting)])
    case CallRemote(t, failure) =>
      var (error, w1) := Remote(r.world, r.tasks[t].grant.verb, r.tasks[t].grant.id, failure);
      Race(w1, r.tasks[t := r.tasks[t].(stage := if error == None then Inverted else Retracting)])
    case WriteLocal(t, fails) =>
      var task := r.tasks[t];
      if fails then r.(tasks := r.tasks[t := task.(stage := Retracting)])
      else
        Race(Local(r.world, task.grant.verb, task.grant.id).0,
             r.tasks[t := Ended(task.actionId, Undone, Some(task.grant.row))])
    case DropClaim(t, fails) =>
      var task := r.tasks[t];
      Race(Retract(r.world, task.grant.row, fails),
           r.tasks[t := Ended(task.actionId, Failed, if fails then Some(task.grant.row) else None)])
    case Elsewhere(headers, pins, remote, entry) =>
      var w := r.world.(headers := headers, pins := pins, remote := remote);
      r.(world := if entry.Some? then Record(w, entry.value.kind, entry.value.payload, entry.value.expires) else w)
  }

  /** `last` is reached from `first` by these steps. */
  ghost predicate Runs(first: Race, steps: seq<Step>, last: Race)
    decreases |steps|
  {
    if steps == [] then last == first
    else Enabled(first, steps[0]) && Runs(Next(first, steps[0]), steps[1..], last)
  }

  // ------------------------------------------------------------ invariant --

  function Held(t: Task): Option<nat> {
    match t
    case Waiting(_) => None
    case Owning(_, grant, _) => Some(grant.row)
    case Ended(_, _, kept) => kept
  }

  predicate IsUndoOf(row: Row, actionId: nat) { row.kind == "undo" && row.payload.undoOf == Some(actionId) }

  ghost predicate Sorted(w: World) {
    && (forall i :: 0 <= i < |w.audit| ==> w.audit[i].id < w.nextId)
    && (forall i, j :: 0 <= i < j < |w.audit| ==> w.audit[i].id < w.audit[j].id)
  }

  ghost predicate SingleUse(audit: seq<Row>) {
    forall i, j, a :: 0 <= i < |audit| && 0 <= j < |audit| && IsUndoOf(audit[i], a) && IsUndoOf(audit[j], a) ==> i == j
  }

  ghost predicate HasRow(audit: seq<Row>, row: nat, actionId: nat) {
    exists i :: 0 <= i < |audit| && audit[i].id == row && IsUndoOf(audit[i], actionId)
  }

  ghost predicate HeldBy(tasks: seq<Task>, row: Row) {
    exists k :: 0 <= k < |tasks| && Held(tasks[k]) == Some(row.id) && IsUndoOf(row, tasks[k].actionId)
  }

  ghost predicate TasksHold(start: World, r: Race) {
    forall k :: 0 <= k < |r.tasks| && Held(r.tasks[k]).Some? ==>
      Held(r.tasks[k]).value >= start.nextId && HasRow(r.world.audit, Held(r.tasks[k]).value, r.tasks[k].actionId)
  }

  ghost predicate RowsHeld(start: World, r: Race) {
    && Sorted(start) && start.nextId <= r.world.nextId
    && start.audit <= r.world.audit
    && (forall i :: |start.audit| <= i < |r.world.audit| && r.world.audit[i].kind == "undo" ==> HeldBy(r.tasks, r.world.audit[i]))
  }

  /** Outcome and kept row of every finished request agree, up to a retraction
      that failed. */
  ghost predicate Settled(t: Task) {
    t.Ended? ==> (t.outcome == Undone ==> t.kept.Some?) && (t.kept.Some? ==> t.outcome == Undone || t.outcome == Failed)
  }

  ghost predicate Distinct(tasks: seq<Task>) {
    forall k, l :: 0 <= k < l < |tasks| && Held(tasks[k]).Some? && Held(tasks[l]).Some? ==>
      tasks[k].actionId != tasks[l].actionId
  }

  ghost predicate Inv(start: World, r: Race) {
    && Sorted(r.world) && SingleUse(r.world.audit)
    && RowsHeld(start, r) && TasksHold(start, r) && Distinct(r.tasks)
    && (forall k :: 0 <= k < |r.tasks| ==> Settled(r.tasks[k]))
  }

  /** A fresh set of requests on a store whose actions were undone at most once. */
  ghost predicate Starts(r: Race) {
    && Sorted(r.world) && SingleUse(r.world.audit)
    && (forall k :: 0 <= k < |r.tasks| ==> r.tasks[k].Waiting?)
  }

  lemma StartIsSafe(r: Race)
    requires Starts(r)
    ensures Inv(r.world, r)
  {
  }

  // ------------------------------------------------------- single steps --

  /** A claim is refused without a trace, or commits one undo row for an action
      that had none. */
  lemma ClaimIsAllOrNothing(w: World, actionId: nat, now: string, fault: Option<ClaimStep>, expires: Option<string>)
    ensures var (c, w1) := TakeClaim(w, actionId, now, fault, expires);
            && (c.Refused? ==> w1 == w)
            && (c.Claimed? ==> c.row == w.nextId && !IsUndone(w.audit, actionId)
                               && w1 == Record(w, "undo", UndoPayload(actionId), expires))
  {
  }

  lemma {:induction false} WithoutKeeps(audit: seq<Row>, id: nat, p: nat)
    requires p < |audit| && audit[p].id == id
    requires forall i, j :: 0 <= i < j < |audit| ==> audit[i].id < audit[j].id
    ensures Without(audit, id) == audit[..p] + audit[p + 1..]
    decreases |audit|
  {
    if p == 0 {
      WithoutNone(audit[1..], id);
      assert audit[..0] + audit[1..] == audit[1..];
    } else {
      WithoutKeeps(audit[1..], id, p - 1);
      assert [audit[0]] + (audit[1..][..p - 1] + audit[1..][p..]) == audit[..p] + audit[p + 1..];
    }
  }

  lemma {:induction false} WithoutNone(audit: seq<Row>, id: nat)
    requires forall i :: 0 <= i < |audit| ==> audit[i].id != id
    ensures Without(audit, id) == audit
    decreases |audit|
  {
    if audit != [] {
      WithoutNone(audit[1..], id);
    }
  }

  /** Appending a row that is no undo, or nothing, whatever else changes. */
  lemma ElsewhereKeeps(start: World, r: Race, s: Step)
    requires Inv(start, r) && s.Elsewhere? && Enabled(r, s)
    ensures Inv(start, Next(r, s))
  {
    var w1 := Next(r, s).world;
    if s.entry.Some? {
      assert w1.audit[..|r.world.audit|] == r.world.audit;
      forall row, a | HasRow(r.world.audit, row, a) ensures HasRow(w1.audit, row, a) {
        var i :| 0 <= i < |r.world.audit| && r.world.audit[i].id == row && IsUndoOf(r.world.audit[i], a);
        assert w1.audit[i] == r.world.audit[i];
      }
    }
  }

  /** A step that only moves one request on, or changes flags and mailbox. */
  lemma MoveKeeps(start: World, r: Race, r1: Race, t: nat, task: Task)
    requires Inv(start, r) && t < |r.tasks|
    requires r1.world.audit == r.world.audit && r1.world.nextId == r.world.nextId && r1.tasks == r.tasks[t := task]
    requires task.actionId == r.tasks[t].actionId && Held(task) == Held(r.tasks[t]) && Settled(task)
    ensures Inv(start, r1)
  {
    forall row | HeldBy(r.tasks, row) ensures HeldBy(r1.tasks, row) {
      var k :| 0 <= k < |r.tasks| && Held(r.tasks[k]) == Some(row.id) && IsUndoOf(row, r.tasks[k].actionId);
      assert Held(r1.tasks[k]) == Some(row.id);
    }
  }

  /** What a granted claim does: one more undo row, held by its request. */
  ghost predicate Grants(r: Race, r1: Race, t: nat, task: Task, row: Row) {
    && t < |r.tasks| && r.tasks[t].Waiting? && !IsUndone(r.world.audit, r.tasks[t].actionId)
    && row.id == r.world.nextId && IsUndoOf(row, r.tasks[t].actionId)
    && r1.world.audit == r.world.audit + [row] && r1.world.nextId == r.world.nextId + 1
    && r1.tasks == r.tasks[t := task] && task.Owning? && task.grant.row == row.id && task.actionId == r.tasks[t].actionId
  }

  lemma GrantKeepsLog(start: World, r: Race, r1: Race, t: nat, task: Task, row: Row)
    requires Inv(start, r) && Grants(r, r1, t, task, row)
    ensures Sorted(r1.world) && SingleUse(r1.world.audit) && RowsHeld(start, r1)
  {
    var n := |r.world.audit|;
    assert r1.world.audit[..n] == r.world.audit && r1.world.audit[n] == row;
    forall x | HeldBy(r.tasks, x) ensures HeldBy(r1.tasks, x) {
      var k :| 0 <= k < |r.tasks| && Held(r.tasks[k]) == Some(x.id) && IsUndoOf(x, r.tasks[k].actionId);
      assert Held(r1.tasks[k]) == Some(x.id);
    }
    assert Held(r1.tasks[t]) == Some(row.id);
    assert HeldBy(r1.tasks, row);
    hide TasksHold, Distinct, HeldBy;
  }

  lemma GrantKeepsTasks(start: World, r: Race, r1: Race, t: nat, task: Task, row: Row)
    requires Inv(start, r) && Grants(r, r1, t, task, row)
    ensures TasksHold(start, r1) && Distinct(r1.tasks)
  {
    var n := |r.world.audit|;
    assert r1.world.audit[n] == row;
    assert HasRow(r1.world.audit, row.id, task.actionId);
    forall x, a | HasRow(r.world.audit, x, a) ensures HasRow(r1.world.audit, x, a) && a != task.actionId {
      var i :| 0 <= i < n && r.world.audit[i].id == x && IsUndoOf(r.world.audit[i], a);
      assert r1.world.audit[i] == r.world.audit[i];
    }
    hide HasRow, Sorted, SingleUse;
  }

  lemma GrantKeeps(start: World, r: Race, r1: Race, t: nat, task: Task, row: Row)
    requires Inv(start, r) && Grants(r, r1, t, task, row)
    ensures Inv(start, r1)
  {
    GrantKeepsLog(start, r, r1, t, task, row);
    GrantKeepsTasks(start, r, r1, t, task, row);
    hide Sorted, SingleUse, RowsHeld, TasksHold, Distinct, IsUndone, IsUndoOf;
  }

  lemma ClaimKeeps(start: World, r: Race, s: Step)
    requires Inv(start, r) && s.TryClaim? && Enabled(r, s)
    ensures Inv(start, Next(r, s))
  {
    hide Inv, TakeClaim, IsUndone;
    var t, a := s.task, r.tasks[s.task].actionId;
    ClaimIsAllOrNothing(r.world, a, s.now, s.fault, s.expires);
    var c := TakeClaim(r.world, a, s.now, s.fault, s.expires).0;
    if c.Claimed? {
      GrantKeeps(start, r, Next(r, s), t, AfterClaim(a, c), Row(r.world.nextId, "undo", UndoPayload(a), s.expires));
    } else {
      RefusedIsNeverUndone(r.world, a, s.now, s.fault, s.expires);
      MoveKeeps(start, r, Next(r, s), t, AfterClaim(a, c));
    }
  }

  lemma RefusedIsNeverUndone(w: World, actionId: nat, now: string, fault: Option<ClaimStep>, expires: Option<string>)
    ensures TakeClaim(w, actionId, now, fault, expires).0 != Refused(Undone)
  {
  }

  /** The index of a request's own undo row. */
  ghost predicate OwnsRow(r: Race, t: nat, p: nat) {
    && t < |r.tasks| && r.tasks[t].Owning?
    && p < |r.world.audit| && r.world.audit[p].id == r.tasks[t].grant.row && IsUndoOf(r.world.audit[p], r.tasks[t].actionId)
  }

  /** Without it, every other request still holds its row. */
  lemma OthersKeepRows(start: World, r: Race, r1: Race, t: nat, p: nat, k: nat)
    requires Inv(start, r) && OwnsRow(r, t, p)
    requires r1.world.audit == r.world.audit[..p] + r.world.audit[p + 1..]
    requires k < |r.tasks| && k != t && Held(r.tasks[k]).Some?
    ensures HasRow(r1.world.audit, Held(r.tasks[k]).value, r.tasks[k].actionId)
  {
    var audit := r.world.audit;
    assert Held(r.tasks[t]).Some? && r.tasks[k].actionId != r.tasks[t].actionId;
    var i :| 0 <= i < |audit| && audit[i].id == Held(r.tasks[k]).value && IsUndoOf(audit[i], r.tasks[k].actionId);
    assert i != p;
    assert r1.world.audit[if i < p then i else i - 1] == audit[i];
  }

  /** And every other undo row is still held. */
  lemma OtherRowsHeld(start: World, r: Race, r1: Race, t: nat, p: nat, i: nat)
    requires Inv(start, r) && OwnsRow(r, t, p)
    requires |start.audit| <= i < |r.world.audit| && i != p && r.world.audit[i].kind == "undo"
    requires r1.tasks == r.tasks[t := Ended(r.tasks[t].actionId, Failed, None)]
    ensures HeldBy(r1.tasks, r.world.audit[i])
  {
    var row := r.world.audit[i];
    var k :| 0 <= k < |r.tasks| && Held(r.tasks[k]) == Some(row.id) && IsUndoOf(row, r.tasks[k].actionId);
    assert row.id != r.world.audit[p].id;
    assert Held(r1.tasks[k]) == Some(row.id);
  }

  /** A retracted claim takes its own row away and no other. */
  lemma RetractKeeps(start: World, r: Race, r1: Race, t: nat)
    requires Inv(start, r) && t < |r.tasks| && r.tasks[t].Owning?
    requires r1.world.audit == Without(r.world.audit, r.tasks[t].grant.row) && r1.world.nextId == r.world.nextId
    requires r1.tasks == r.tasks[t := Ended(r.tasks[t].actionId, Failed, None)]
    ensures Inv(start, r1)
  {
    hide Without, HeldBy, HasRow;
    var audit := r.world.audit;
    assert Held(r.tasks[t]).Some?;
    var p := OwnRow(start, r, t);
    WithoutKeeps(audit, r.tasks[t].grant.row, p);
    assert forall i :: 0 <= i < |r1.world.audit| ==> r1.world.audit[i] == audit[if i < p then i else i + 1];
    assert Sorted(r1.world) && SingleUse(r1.world.audit);
    forall k | 0 <= k < |r1.tasks| && Held(r1.tasks[k]).Some?
      ensures HasRow(r1.world.audit, Held(r1.tasks[k]).value, r1.tasks[k].actionId)
    {
      OthersKeepRows(start, r, r1, t, p, k);
    }
    forall i | |start.audit| <= i < |r1.world.audit| && r1.world.audit[i].kind == "undo"
      ensures HeldBy(r1.tasks, r1.world.audit[i])
    {
      OtherRowsHeld(start, r, r1, t, p, if i < p then i else i + 1);
    }
  }

  lemma OwnRow(start: World, r: Race, t: nat) returns (p: nat)
    requires Inv(start, r) && t < |r.tasks| && r.tasks[t].Owning?
    ensures OwnsRow(r, t, p) && |start.audit| <= p
  {
    assert Held(r.tasks[t]).Some?;
    p :| 0 <= p < |r.world.audit| && r.world.audit[p].id == r.tasks[t].grant.row
         && IsUndoOf(r.world.audit[p], r.tasks[t].actionId);
  }

  lemma StepKeeps(start: World, r: Race, s: Step)
    requires Inv(start, r) && Enabled(r, s)
    ensures Inv(start, Next(r, s))
  {
    hide Inv;
    match s
    case TryClaim(_, _, _, _) => ClaimKeeps(start, r, s);
    case Elsewhere(_, _, _, _) => ElsewhereKeeps(start, r, s);
    case DropClaim(t, fails) =>
      if fails { MoveKeeps(start, r, Next(r, s), t, Next(r, s).tasks[t]); } else { RetractKeeps(start, r, Next(r, s), t); }
    case _ => MoveKeeps(start, r, Next(r, s), s.task, Next(r, s).tasks[s.task]);
  }

  lemma {:induction false} RunsKeep(start: World, r: Race, steps: seq<Step>, last: Race)
    requires Inv(start, r) && Runs(r, steps, last)
    ensures Inv(start, last)
    decreases |steps|
  {
    if steps != [] {
      hide Inv, Next;
      StepKeeps(start, r, steps[0]);
      RunsKeep(start, Next(r, steps[0]), steps[1..], last);
    }
  }

  // -------------------------------------------------------- main results --

  ghost predicate EndedWith(t: Task, outcome: UndoOutcome) { t.Ended? && t.outcome == outcome }

  /** In every run, from any store: an action never has two undo rows, no two
      requests for one action both answer `Undone`, and none answers `Undone`
      for an action that was undone before. */
  lemma UndoIsSingleUse(first: Race, steps: seq<Step>, last: Race, k: nat, l: nat)
    requires Starts(first) && Runs(first, steps, last)
    requires k < |last.tasks| && EndedWith(last.tasks[k], Undone)
    requires l < |last.tasks| && l != k && last.tasks[l].actionId == last.tasks[k].actionId
    ensures SingleUse(last.world.audit)
    ensures !EndedWith(last.tasks[l], Undone)
    ensures !IsUndone(first.world.audit, last.tasks[k].actionId) && IsUndone(last.world.audit, last.tasks[k].actionId)
  {
    StartIsSafe(first);
    RunsKeep(first.world, first, steps, last);
    HeldRowIsNew(first.world, last, k);
  }

  /** The row a request holds is in the log, and was not there at the start. */
  lemma HeldRowIsNew(start: World, r: Race, k: nat)
    requires Inv(start, r) && k < |r.tasks| && Held(r.tasks[k]).Some?
    ensures IsUndone(r.world.audit, r.tasks[k].actionId) && !IsUndone(start.audit, r.tasks[k].actionId)
  {
    var a := r.tasks[k].actionId;
    var i :| 0 <= i < |r.world.audit| && r.world.audit[i].id == Held(r.tasks[k]).value && IsUndoOf(r.world.audit[i], a);
    assert r.world.audit[i].id >= start.nextId;
    forall j | 0 <= j < |start.audit| ensures !IsUndoOf(start.audit[j], a) {
      assert r.world.audit[j] == start.audit[j];
    }
  }

  /** When every request has ended, the log has gained exactly their kept rows:
      an action is undone iff it was before, or one of them kept its row. */
  lemma UndoneAtTheEnd(first: Race, steps: seq<Step>, last: Race, actionId: nat)
    requires Starts(first) && Runs(first, steps, last)
    requires forall k :: 0 <= k < |last.tasks| ==> last.tasks[k].Ended?
    ensures IsUndone(last.world.audit, actionId)
       <==> IsUndone(first.world.audit, actionId) || Keeper(last.tasks, actionId)
  {
    StartIsSafe(first);
    RunsKeep(first.world, first, steps, last);
    if i :| 0 <= i < |last.world.audit| && IsUndoOf(last.world.audit[i], actionId) {
      if i < |first.world.audit| {
        assert first.world.audit[i] == last.world.audit[i];
      } else {
        assert HeldBy(last.tasks, last.world.audit[i]);
      }
    }
    if i :| 0 <= i < |first.world.audit| && IsUndoOf(first.world.audit[i], actionId) {
      assert first.world.audit[i] == last.world.audit[i];
    }
    if k :| 0 <= k < |last.tasks| && last.tasks[k].actionId == actionId && Held(last.tasks[k]).Some? {
      HeldRowIsNew(first.world, last, k);
    }
  }

  ghost predicate Keeper(tasks: seq<Task>, actionId: nat) {
    exists k :: 0 <= k < |tasks| && tasks[k].actionId == actionId && Held(tasks[k]).Some?
  }

  // A claim is left behind only by a retraction that fails: the caller drops
  // that error.

  ghost predicate Faithful(t: Task) { t.Ended? ==> (t.kept.Some? <==> t.outcome == Undone) }

  ghost predicate AllFaithful(tasks: seq<Task>) { forall k :: 0 <= k < |tasks| ==> Faithful(tasks[k]) }

  predicate LosesRetraction(steps: seq<Step>) { exists i | 0 <= i < |steps| :: steps[i].DropClaim? && steps[i].fails }

  lemma FaithfulStep(r: Race, s: Step)
    requires Enabled(r, s) && AllFaithful(r.tasks)
    ensures AllFaithful(Next(r, s).tasks) <==> !(s.DropClaim? && s.fails)
  {
    match s
    case TryClaim(t, now, fault, expires) => RefusedIsNeverUndone(r.world, r.tasks[t].actionId, now, fault, expires);
    case DropClaim(t, fails) => assert Next(r, s).tasks[t].Ended?;
    case _ =>
  }

  /** An ended request stays as it ended. */
  lemma {:induction false} EndedStays(r: Race, steps: seq<Step>, last: Race, k: nat)
    requires Runs(r, steps, last) && k < |r.tasks| && r.tasks[k].Ended?
    ensures k < |last.tasks| && last.tasks[k] == r.tasks[k]
    decreases |steps|
  {
    if steps != [] {
      EndedStays(Next(r, steps[0]), steps[1..], last, k);
    }
  }

  /** The requests' own books agree with their answers in all and only the runs
      where no retraction fails. */
  lemma {:induction false} BooksAgree(first: Race, steps: seq<Step>, last: Race)
    requires AllFaithful(first.tasks) && Runs(first, steps, last)
    ensures AllFaithful(last.tasks) <==> !LosesRetraction(steps)
    decreases |steps|
  {
    if steps != [] {
      var r1 := Next(first, steps[0]);
      FaithfulStep(first, steps[0]);
      assert forall i :: 0 <= i < |steps[1..]| ==> steps[1..][i] == steps[i + 1];
      if AllFaithful(r1.tasks) {
        BooksAgree(r1, steps[1..], last);
        if LosesRetraction(steps) {
          var i :| 0 <= i < |steps| && steps[i].DropClaim? && steps[i].fails;
          assert steps[1..][i - 1] == steps[i];
        }
      } else {
        var k :| 0 <= k < |r1.tasks| && !Faithful(r1.tasks[k]);
        EndedStays(r1, steps[1..], last, k);
        assert steps[0].DropClaim? && steps[0].fails;
      }
    }
  }

  /** The log has an undo row for the action that was not there at the start. */
  ghost predicate Gained(start: World, w: World, actionId: nat) {
    exists i :: |start.audit| <= i < |w.audit| && IsUndoOf(w.audit[i], actionId)
  }

  /** Some request for the action has answered `Undone`, or holds its claim and
      has not ended. */
  ghost predicate Claims(tasks: seq<Task>, actionId: nat) {
    exists k :: 0 <= k < |tasks| && tasks[k].actionId == actionId && (tasks[k].Owning? || EndedWith(tasks[k], Undone))
  }

  ghost predicate Answered(tasks: seq<Task>, actionId: nat) {
    exists k :: 0 <= k < |tasks| && tasks[k].actionId == actionId && EndedWith(tasks[k], Undone)
  }

  /** The rows gained are those the requests hold. */
  lemma GainedIsHeld(start: World, r: Race, actionId: nat)
    requires Inv(start, r)
    ensures Gained(start, r.world, actionId) <==> Keeper(r.tasks, actionId)
  {
    if i :| |start.audit| <= i < |r.world.audit| && IsUndoOf(r.world.audit[i], actionId) {
      assert HeldBy(r.tasks, r.world.audit[i]);
    }
    if k :| 0 <= k < |r.tasks| && r.tasks[k].actionId == actionId && Held(r.tasks[k]).Some? {
      HeldRowIsNew(start, r, k);
      assert forall j :: 0 <= j < |start.audit| ==> r.world.audit[j] == start.audit[j];
      var i :| 0 <= i < |r.world.audit| && IsUndoOf(r.world.audit[i], actionId);
    }
  }

  /** Faithful books: a request holds a row exactly when it still works on its
      claim or has answered `Undone`. */
  lemma FaithfulHolders(tasks: seq<Task>, actionId: nat)
    requires AllFaithful(tasks)
    ensures Keeper(tasks, actionId) <==> Claims(tasks, actionId)
  {
    if k :| 0 <= k < |tasks| && tasks[k].actionId == actionId && Held(tasks[k]).Some? {
      assert Faithful(tasks[k]);
    }
    if k :| 0 <= k < |tasks| && tasks[k].actionId == actionId && (tasks[k].Owning? || EndedWith(tasks[k], Undone)) {
      assert Faithful(tasks[k]) && Held(tasks[k]).Some?;
    }
  }

  /** A request with unfaithful books holds a row nobody answers for. */
  lemma LostRowShows(start: World, r: Race, k: nat)
    requires Inv(start, r) && k < |r.tasks| && !Faithful(r.tasks[k])
    ensures Keeper(r.tasks, r.tasks[k].actionId) && !Claims(r.tasks, r.tasks[k].actionId)
  {
    assert Settled(r.tasks[k]) && Held(r.tasks[k]).Some?;
    forall l | 0 <= l < |r.tasks| && r.tasks[l].actionId == r.tasks[k].actionId
      ensures !r.tasks[l].Owning? && !EndedWith(r.tasks[l], Undone)
    {
      assert Settled(r.tasks[l]);
    }
  }

  /** At every point of every run: the log has gained an undo row for exactly the
      actions some request is working on or has answered `Undone` for, in all and
      only the runs where no retraction has failed. */
  lemma LogMatchesAnswers(first: Race, steps: seq<Step>, last: Race)
    requires Starts(first) && Runs(first, steps, last)
    ensures (forall a :: Gained(first.world, last.world, a) <==> Claims(last.tasks, a)) <==> !LosesRetraction(steps)
  {
    StartIsSafe(first);
    RunsKeep(first.world, first, steps, last);
    BooksAgree(first, steps, last);
    forall a ensures Gained(first.world, last.world, a) <==> Keeper(last.tasks, a) {
      GainedIsHeld(first.world, last, a);
    }
    hide Inv, Gained, Keeper, Claims, LosesRetraction;
    if AllFaithful(last.tasks) {
      forall a ensures Keeper(last.tasks, a) <==> Claims(last.tasks, a) {
        FaithfulHolders(last.tasks, a);
      }
    } else {
      var k :| 0 <= k < |last.tasks| && !Faithful(last.tasks[k]);
      LostRowShows(first.world, last, k);
    }
  }

  /** Once every request has ended: a new undo row is in the log for exactly the
      actions answered `Undone`, in all and only the runs where no retraction
      fails. */
  lemma RowPersistsIffUndone(first: Race, steps: seq<Step>, last: Race)
    requires Starts(first) && Runs(first, steps, last)
    requires forall k :: 0 <= k < |last.tasks| ==> last.tasks[k].Ended?
    ensures (forall a :: Gained(first.world, last.world, a) <==> Answered(last.tasks, a)) <==> !LosesRetraction(steps)
  {
    LogMatchesAnswers(first, steps, last);
    forall a ensures Claims(last.tasks, a) <==> Answered(last.tasks, a) {
    }
    hide Claims, Answered, Gained;
  }

  // ----------------------------------------------- one request on its own --

  function WriteSteps(f: UndoFaults): seq<Step> {
    if f.local then [WriteLocal(0, true), DropClaim(0, f.retract)] else [WriteLocal(0, false)]
  }

  /** The steps a request takes after its claim, when nothing comes between. */
  function FinishSteps(g: Grant, f: UndoFaults): seq<Step> {
    var drop := DropClaim(0, f.retract);
    if !f.configured then [NoProvider(0), drop]
    else if !GoesRemote(g) then WriteSteps(f)
    else [CallRemote(0, f.remote)] + (if f.remote.Some? && !g.verb.EmptyTrash? then [drop] else WriteSteps(f))
  }

  function StepsOf(w: World, actionId: nat, now: string, f: UndoFaults): seq<Step> {
    if f.closed then [TryClaim(0, now, Some(Begin), f.expires)]
    else
      [TryClaim(0, now, f.claim, f.expires)]
      + match TakeClaim(w, actionId, now, f.claim, f.expires).0
        case Refused(_) => []
        case Claimed(verb, remoteWrite, id, row) => FinishSteps(Grant(verb, remoteWrite, id, row), f)
  }

  function KeptBy(outcome: UndoOutcome, row: nat, f: UndoFaults): Option<nat> {
    if outcome == Undone || f.retract then Some(row) else None
  }

  lemma RunsFirst(r: Race, s: Step, rest: seq<Step>, last: Race)
    requires Enabled(r, s) && Runs(Next(r, s), rest, last)
    ensures Runs(r, [s] + rest, last)
  {
    assert ([s] + rest)[1..] == rest;
  }

  function Alone(w: World, t: Task): Race { Race(w, [t]) }

  lemma RunsOne(r: Race, s: Step, last: Race)
    requires Enabled(r, s) && last == Next(r, s)
    ensures Runs(r, [s], last)
  {
  }

  lemma RunsTwo(r: Race, s: Step, s1: Step, last: Race)
    requires Enabled(r, s) && Enabled(Next(r, s), s1) && last == Next(Next(r, s), s1)
    ensures Runs(r, [s, s1], last) && [s] + [s1] == [s, s1]
  {
    RunsOne(Next(r, s), s1, last);
    RunsFirst(r, s, [s1], last);
    assert [s] + [s1] == [s, s1];
  }

  lemma AloneMoves(w: World, t: Task, t1: Task)
    ensures Alone(w, t).tasks[0 := t1] == Alone(w, t1).tasks
  {
  }

  /** Where a request is after its local write, and the retraction if it fails. */
  function Written(w: World, actionId: nat, g: Grant, f: UndoFaults): Race {
    if f.local then Alone(Retract(w, g.row, f.retract), Ended(actionId, Failed, KeptBy(Failed, g.row, f)))
    else Alone(Local(w, g.verb, g.id).0, Ended(actionId, Undone, Some(g.row)))
  }

  lemma WriteRuns(w: World, actionId: nat, g: Grant, stage: Stage, f: UndoFaults)
    requires stage == Inverted || (stage == Claiming && !GoesRemote(g))
    ensures Runs(Alone(w, Owning(actionId, g, stage)), WriteSteps(f), Written(w, actionId, g, f))
  {
    hide Retract, Local, Runs;
    var mine := Owning(actionId, g, stage);
    var r := Alone(w, mine);
    if f.local {
      AloneMoves(w, mine, mine.(stage := Retracting));
      AloneMoves(w, mine.(stage := Retracting), Ended(actionId, Failed, KeptBy(Failed, g.row, f)));
      assert Next(r, WriteLocal(0, true)) == Alone(w, mine.(stage := Retracting));
      RunsTwo(r, WriteLocal(0, true), DropClaim(0, f.retract), Written(w, actionId, g, f));
    } else {
      AloneMoves(w, mine, Ended(actionId, Undone, Some(g.row)));
      RunsOne(r, WriteLocal(0, false), Written(w, actionId, g, f));
    }
  }

  function Finished(w: World, actionId: nat, g: Grant, f: UndoFaults): Race {
    var (outcome, w1) := FinishUndo(w, Claimed(g.verb, g.remoteWrite, g.id, g.row), f);
    Alone(w1, Ended(actionId, outcome, KeptBy(outcome, g.row, f)))
  }

  lemma FinishRuns(w: World, actionId: nat, g: Grant, f: UndoFaults)
    ensures Runs(Alone(w, Owning(actionId, g, Claiming)), FinishSteps(g, f), Finished(w, actionId, g, f))
  {
    hide Retract, Local, Runs, WriteSteps;
    var mine := Owning(actionId, g, Claiming);
    var r := Alone(w, mine);
    var drop := DropClaim(0, f.retract);
    AloneMoves(w, mine, mine.(stage := Retracting));
    if !f.configured {
      assert Next(r, NoProvider(0)) == Alone(w, mine.(stage := Retracting));
      AloneMoves(w, mine.(stage := Retracting), Ended(actionId, Failed, KeptBy(Failed, g.row, f)));
      RunsTwo(r, NoProvider(0), drop, Finished(w, actionId, g, f));
    } else if !GoesRemote(g) {
      WriteRuns(w, actionId, g, Claiming, f);
      assert Written(w, actionId, g, f) == Finished(w, actionId, g, f);
    } else {
      CallRuns(w, actionId, g, f);
    }
  }

  lemma CallRuns(w: World, actionId: nat, g: Grant, f: UndoFaults)
    requires f.configured && GoesRemote(g)
    ensures Runs(Alone(w, Owning(actionId, g, Claiming)), FinishSteps(g, f), Finished(w, actionId, g, f))
  {
    hide Retract, Local, Runs, WriteSteps;
    var mine := Owning(actionId, g, Claiming);
    var r := Alone(w, mine);
    var drop := DropClaim(0, f.retract);
    var call := CallRemote(0, f.remote);
    var (error, w1) := Remote(w, g.verb, g.id, f.remote);
    if error.Some? {
      AloneMoves(w1, mine, mine.(stage := Retracting));
      assert Next(r, call) == Alone(w1, mine.(stage := Retracting));
      AloneMoves(w1, mine.(stage := Retracting), Ended(actionId, Failed, KeptBy(Failed, g.row, f)));
      RunsTwo(r, call, drop, Finished(w, actionId, g, f));
    } else {
      AloneMoves(w1, mine, mine.(stage := Inverted));
      assert Next(r, call) == Alone(w1, mine.(stage := Inverted));
      WriteRuns(w1, actionId, g, Inverted, f);
      assert Written(w1, actionId, g, f) == Finished(w, actionId, g, f);
      RunsFirst(r, call, WriteSteps(f), Finished(w, actionId, g, f));
    }
  }

  ghost predicate RunsAlone(w: World, actionId: nat, steps: seq<Step>, outcome: UndoOutcome, w1: World) {
    exists kept :: Runs(Alone(w, Waiting(actionId)), steps, Alone(w1, Ended(actionId, outcome, kept)))
  }

  /** The sequential undo is one of the runs above: the request on its own. */
  lemma SequentialIsARun(w: World, actionId: nat, now: string, f: UndoFaults)
    ensures var (outcome, w1) := UndoOne(w, actionId, now, f);
            RunsAlone(w, actionId, StepsOf(w, actionId, now, f), outcome, w1)
  {
    var fault := if f.closed then Some(Begin) else f.claim;
    var claim := TryClaim(0, now, fault, f.expires);
    var (c, w1) := TakeClaim(w, actionId, now, fault, f.expires);
    var r := Alone(w, Waiting(actionId));
    AloneMoves(w, Waiting(actionId), AfterClaim(actionId, c));
    assert f.closed ==> (c, w1) == (Refused(Failed), w);
    hide Runs, FinishUndo, FinishSteps, TakeClaim;
    assert Next(r, claim) == Alone(w1, AfterClaim(actionId, c));
    match c
    case Refused(outcome) =>
      ClaimIsAllOrNothing(w, actionId, now, fault, f.expires);
      RunsOne(r, claim, Alone(w1, Ended(actionId, outcome, None)));
      assert [claim] + [] == [claim];
    case Claimed(verb, remoteWrite, id, row) =>
      var g := Grant(verb, remoteWrite, id, row);
      FinishRuns(w1, actionId, g, f);
      RunsFirst(r, claim, FinishSteps(g, f), Finished(w1, actionId, g, f));
  }

  /** After a claim: a failure that retracts leaves the log and the flags as
      they were before the claim. */
  lemma FinishRestores(w: World, w1: World, c: Claim, row: Row, f: UndoFaults)
    requires Sorted(w) && row.id == w.nextId && w1 == w.(audit := w.audit + [row], nextId := w.nextId + 1)
    requires c.Claimed? && c.row == row.id
    ensures var (outcome, last) := FinishUndo(w1, c, f);
            && (outcome == Undone || outcome == Failed)
            && (outcome == Undone ==> last.audit == w1.audit)
            && (outcome == Failed && !f.retract ==> last.audit == w.audit && last.headers == w.headers && last.pins == w.pins)
  {
    WithoutKeeps(w1.audit, row.id, |w.audit|);
    assert w1.audit[..|w.audit|] + w1.audit[|w.audit| + 1..] == w.audit;
    hide Without, Sorted;
  }

  /** A request on its own changes the audit log exactly when it answers
      `Undone` or loses its retraction; a refused one changes nothing at all. */
  lemma AloneChangesOnlyWhenUndone(w: World, actionId: nat, now: string, f: UndoFaults)
    requires Sorted(w)
    ensures var (outcome, w1) := UndoOne(w, actionId, now, f);
            && (outcome.Rejected? || outcome.NotUndoable? ==> w1 == w)
            && (outcome == Undone ==> w1.audit == w.audit + [Row(w.nextId, "undo", UndoPayload(actionId), f.expires)])
            && (outcome == Failed && !f.retract ==> w1.audit == w.audit && w1.headers == w.headers && w1.pins == w.pins)
  {
    hide TakeClaim, FinishUndo, Sorted, IsUndone;
    var (c, w1) := TakeClaim(w, actionId, now, f.claim, f.expires);
    ClaimIsAllOrNothing(w, actionId, now, f.claim, f.expires);
    if c.Claimed? {
      FinishRestores(w, w1, c, Row(w.nextId, "undo", UndoPayload(actionId), f.expires), f);
    } else {
      RefusedIsNeverUndone(w, actionId, now, f.claim, f.expires);
    }
  }
}

/** The undo expiry test, which compares two stored timestamps as text. */
module UndoExpiry {
  import opened Wrappers
  import opened TextOrder
  import opened MailActions
  import opened Timestamps

  /** Past the reads, the claim answers 410 exactly when the text comparison says
      so. */
  lemma ExpiredByText(w: World, actionId: nat, now: string, fault: Option<ClaimStep>, expires: Option<string>)
    requires FindAction(w.audit, actionId).Some? && fault != Some(Begin) && fault != Some(Find)
    ensures TakeClaim(w, actionId, now, fault, expires).0 == Refused(Rejected(410, "action-expired"))
       <==> Expired(FindAction(w.audit, actionId).value, now)
  {
    hide FindAction, Expired, IsUndone;
  }

  /** In the years 0000 to 9999 an undo is answered 410 exactly when the action's
      expiry is not after now. */
  lemma ExpiredExactlyWhenPast(w: World, actionId: nat, expiresAt: Instant, now: Instant, fault: Option<ClaimStep>,
                               expires: Option<string>)
    requires FindAction(w.audit, actionId).Some?
    requires FindAction(w.audit, actionId).value.expiresAt == Some(ToStored(expiresAt))
    requires fault != Some(Begin) && fault != Some(Find)
    requires 0 <= YearOf(expiresAt) <= 9999 && 0 <= YearOf(now) <= 9999
    ensures TakeClaim(w, actionId, ToStored(now), fault, expires).0 == Refused(Rejected(410, "action-expired"))
       <==> expiresAt <= now
  {
    hide ToStored, YearOf, AtMost, FindAction, TakeClaim;
    StoredOrder(expiresAt, now);
    ExpiredByText(w, actionId, ToStored(now), fault, expires);
  }
}
