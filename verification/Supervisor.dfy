/** Supervising the backend process: any number of supervise, restart and
    shutdown calls, interleaved, over shared flags and one child slot. */
module Supervisor {
  import opened Wrappers

  type Pid = nat

  datatype Status = Starting | Ready(port: nat, pid: Pid) | Failed

  /** What a terminated child's caller goes on with. */
  datatype Resume = ThenRetry(left: nat) | ThenAwait | ThenFinish

  /** Where a call stands. `left` is how many restarts its run still has. */
  datatype Pc =
    | Enter
    | Load
    | Top(left: nat)
    | Announce(left: nat)
    | Pick(left: nat)
    | Launch(left: nat, fixed: nat)
    | Keep(left: nat, fixed: nat, pid: Pid)
    | Handshake(left: nat, fixed: nat, pid: Pid)
    | Greet(left: nat, port: nat, pid: Pid)
    | Watch(left: nat, pid: Pid)
    | Peek(left: nat, pid: Pid)
    | Over(left: nat, exited: bool)
    | StartFailed(left: nat)
    | GiveUp
    | Leave
    | Flag(restart: bool)
    | Take(next: Resume)
    | Reap(next: Resume, victim: Pid)
    | Await
    | Unflag
    | Reannounce
    | Finished

  /** `starts` counts the backend starts of the current run. */
  datatype Task = Task(pc: Pc, starts: nat)

  /** The shared flags, the child slot, the published status and the reported
      port, over the processes alive. `rust`: the backend reports its port. */
  datatype Shared = Shared(rust: bool, supervising: bool, shutdown: bool, child: Option<Pid>, status: Status, slot: nat,
                           alive: set<Pid>, nextPid: Pid)

  datatype System = System(shared: Shared, tasks: seq<Task>)

  datatype Entry = Supervise | Restart | ShutDown

  /** One atomic action of a call, with the choice its environment makes. */
  datatype Action =
    | Go
    | Try(works: bool, port: nat)
    | Healthy
    | Look(errs: bool)
    | Deadline

  datatype Step =
    | Call(entry: Entry)
    | Act(k: nat, action: Action)
    | Exits(pid: Pid)
    | Prints(port: nat)

  function Start(rust: bool): System { System(Shared(rust, false, false, None, Starting, 0, {}, 0), []) }

  function First(entry: Entry): Pc {
    match entry
    case Supervise => Enter
    case Restart => Flag(true)
    case ShutDown => Flag(false)
  }

  function PortOf(sh: Shared, fixed: nat): nat { if sh.rust then sh.slot else fixed }

  predicate CanAct(sh: Shared, pc: Pc, a: Action) {
    match a
    case Go =>
      !pc.Load? && !pc.Launch? && !pc.Handshake? && !pc.Peek? && !pc.Reap? && !pc.Finished?
      && (pc.Pick? ==> sh.rust) && (pc.Await? ==> !sh.supervising)
    case Try(_, _) => pc.Load? || pc.Launch? || (pc.Pick? && !sh.rust)
    case Healthy => pc.Handshake? && PortOf(sh, pc.fixed) != 0
    case Look(_) => pc.Handshake? || pc.Peek? || pc.Reap?
    case Deadline => pc.Handshake? || pc.Reap? || pc.Await?
  }

  function Resumed(next: Resume): Pc {
    match next
    case ThenRetry(left) => StartFailed(left)
    case ThenAwait => Await
    case ThenFinish => Finished
  }

  function Again(left: nat): Pc { if left > 0 then Top(left - 1) else GiveUp }

  /** A step with no choice in it. */
  function Going(sh: Shared, pc: Pc): (Shared, Pc) {
    match pc
    case Enter => if sh.supervising then (sh, Finished) else (sh.(supervising := true), Load)
    case Top(left) => (sh, if sh.shutdown then Leave else Announce(left))
    case Announce(left) => (sh.(status := Starting), Pick(left))
    case Pick(left) => (sh.(slot := 0), Launch(left, 0))
    case Keep(left, fixed, pid) => (sh.(child := Some(pid)), Handshake(left, fixed, pid))
    case Greet(left, port, pid) => (sh.(status := Ready(port, pid)), Watch(left, pid))
    case Watch(left, pid) => (sh, if sh.shutdown then Over(left, false) else Peek(left, pid))
    case Over(left, exited) => (sh, if sh.shutdown || !exited then Leave else Again(left))
    case StartFailed(left) => (sh, Again(left))
    case GiveUp => (sh.(status := Failed), Leave)
    case Leave => (sh.(supervising := false), Finished)
    case Flag(restart) => (sh.(shutdown := true), Take(if restart then ThenAwait else ThenFinish))
    case Take(next) => (sh.(child := None), if sh.child.Some? then Reap(next, sh.child.value) else Resumed(next))
    case Await => (sh, Unflag)
    case Unflag => (sh.(shutdown := false), Reannounce)
    case Reannounce => (sh.(status := Starting), Enter)
    case _ => (sh, pc)
  }

  /** Loading the context, picking a port and starting the process can fail. */
  function Trying(sh: Shared, pc: Pc, works: bool, port: nat): (Shared, Pc) {
    match pc
    case Load => (sh, if works then Top(1) else GiveUp)
    case Pick(left) => (sh, if works then Launch(left, port) else StartFailed(left))
    case Launch(left, fixed) =>
      if works then (sh.(alive := sh.alive + {sh.nextPid}, nextPid := sh.nextPid + 1), Keep(left, fixed, sh.nextPid))
      else (sh, StartFailed(left))
    case _ => (sh, pc)
  }

  /** A look at the child: the one in the slot, or the one being reaped. */
  function Looking(sh: Shared, pc: Pc, errs: bool): Pc {
    match pc
    case Handshake(left, _, _) => if sh.child.Some? && (errs || sh.child.value !in sh.alive) then Take(ThenRetry(left)) else pc
    case Peek(left, pid) =>
      if sh.child == None || errs || sh.child.value !in sh.alive then Over(left, true) else Watch(left, pid)
    case Reap(next, victim) => if errs || victim !in sh.alive then Resumed(next) else pc
    case _ => pc
  }

  /** Time is up: the handshake failed, the child is killed, or the old run is
      not waited for any longer. */
  function TimedOut(sh: Shared, pc: Pc): (Shared, Pc) {
    match pc
    case Handshake(left, _, _) => (sh, Take(ThenRetry(left)))
    case Reap(next, victim) => (sh.(alive := sh.alive - {victim}), Resumed(next))
    case Await => (sh, Unflag)
    case _ => (sh, pc)
  }

  function Acted(sh: Shared, pc: Pc, a: Action): (Shared, Pc)
    requires CanAct(sh, pc, a)
  {
    match a
    case Go => Going(sh, pc)
    case Try(works, port) => Trying(sh, pc, works, port)
    case Healthy => (sh, Greet(pc.left, PortOf(sh, pc.fixed), pc.pid))
    case Look(errs) => (sh, Looking(sh, pc, errs))
    case Deadline => TimedOut(sh, pc)
  }

  function Starts(t: Task, a: Action): nat {
    if t.pc.Enter? then 0 else if t.pc.Launch? && a.Try? then t.starts + 1 else t.starts
  }

  predicate Enabled(s: System, step: Step) {
    match step
    case Call(_) => true
    case Act(k, a) => k < |s.tasks| && CanAct(s.shared, s.tasks[k].pc, a)
    case Exits(pid) => pid in s.shared.alive
    case Prints(port) => port != 0
  }

  function Next(s: System, step: Step): System
    requires Enabled(s, step)
  {
    match step
    case Call(entry) => s.(tasks := s.tasks + [Task(First(entry), 0)])
    case Act(k, a) =>
      var (sh, pc) := Acted(s.shared, s.tasks[k].pc, a);
      System(sh, s.tasks[k := Task(pc, Starts(s.tasks[k], a))])
    case Exits(pid) => s.(shared := s.shared.(alive := s.shared.alive - {pid}))
    case Prints(port) => if s.shared.slot == 0 then s.(shared := s.shared.(slot := port)) else s
  }

  /** What the environment may do: fail a look at the child, call restart, call
      shutdown. */
  datatype Permits = Permits(errors: bool, restarts: bool, shutdowns: bool)

  const NOTHING := Permits(false, false, false)

  predicate Allowed(p: Permits, s: System, step: Step) {
    && Enabled(s, step)
    && (step.Act? && step.action == Look(true) ==> p.errors)
    && (step == Call(Restart) ==> p.restarts) && (step == Call(ShutDown) ==> p.shutdowns)
  }

  ghost predicate Runs(p: Permits, s: System, steps: seq<Step>, last: System)
    decreases |steps|
  {
    if steps == [] then last == s
    else Allowed(p, s, steps[0]) && Runs(p, Next(s, steps[0]), steps[1..], last)
  }

  // ------------------------------------------------ one body, two starts --

  /** Between winning the flag and giving it back. */
  predicate Inside(pc: Pc) {
    match pc
    case Enter | Flag(_) | Await | Unflag | Reannounce | Finished => false
    case Take(next) => next.ThenRetry?
    case Reap(next, _) => next.ThenRetry?
    case _ => true
  }

  ghost predicate OneBody(s: System) {
    && (forall k, l :: 0 <= k < l < |s.tasks| && Inside(s.tasks[k].pc) ==> !Inside(s.tasks[l].pc))
    && (!s.shared.supervising ==> forall k :: 0 <= k < |s.tasks| ==> !Inside(s.tasks[k].pc))
  }

  /** Starts plus restarts left never exceed this, at each place. */
  function Quota(pc: Pc): Option<(nat, nat)> {
    match pc
    case Load => Some((0, 0))
    case Top(left) => Some((left, 1))
    case Announce(left) => Some((left, 1))
    case Pick(left) => Some((left, 1))
    case Launch(left, _) => Some((left, 1))
    case Keep(left, _, _) => Some((left, 2))
    case Handshake(left, _, _) => Some((left, 2))
    case Greet(left, _, _) => Some((left, 2))
    case Watch(left, _) => Some((left, 2))
    case Peek(left, _) => Some((left, 2))
    case Over(left, _) => Some((left, 2))
    case StartFailed(left) => Some((left, 2))
    case Take(ThenRetry(left)) => Some((left, 2))
    case Reap(ThenRetry(left), _) => Some((left, 2))
    case _ => None
  }

  predicate StartsFit(t: Task) {
    t.starts <= 2 && (Quota(t.pc).Some? ==> t.starts + Quota(t.pc).value.0 <= Quota(t.pc).value.1)
  }

  predicate PortFits(sh: Shared) { sh.status.Ready? ==> sh.status.port != 0 }

  predicate GreetFits(pc: Pc) { pc.Greet? ==> pc.port != 0 }

  ghost predicate Orderly(s: System) {
    && OneBody(s) && PortFits(s.shared)
    && forall k :: 0 <= k < |s.tasks| ==> StartsFit(s.tasks[k]) && GreetFits(s.tasks[k].pc)
  }

  /** A call enters the body only by winning the flag, and gives the flag back
      only on leaving it. */
  lemma FlagIsKept(sh: Shared, pc: Pc, a: Action)
    requires CanAct(sh, pc, a) && (Inside(pc) ==> sh.supervising)
    ensures var (sh1, pc1) := Acted(sh, pc, a);
            && (Inside(pc1) ==> sh1.supervising) && (Inside(pc1) && !Inside(pc) ==> !sh.supervising)
            && (sh1.supervising != sh.supervising ==> Inside(pc1) || Inside(pc))
  {
  }

  lemma StartsAreKept(sh: Shared, t: Task, a: Action)
    requires CanAct(sh, t.pc, a) && StartsFit(t)
    ensures StartsFit(Task(Acted(sh, t.pc, a).1, Starts(t, a)))
  {
  }

  lemma PortIsKept(sh: Shared, pc: Pc, a: Action)
    requires CanAct(sh, pc, a) && PortFits(sh) && GreetFits(pc)
    ensures PortFits(Acted(sh, pc, a).0) && GreetFits(Acted(sh, pc, a).1)
  {
  }

  lemma OrderlyStep(s: System, step: Step)
    requires Orderly(s) && Enabled(s, step)
    ensures Orderly(Next(s, step))
  {
    if step.Act? {
      FlagIsKept(s.shared, s.tasks[step.k].pc, step.action);
      StartsAreKept(s.shared, s.tasks[step.k], step.action);
      PortIsKept(s.shared, s.tasks[step.k].pc, step.action);
      hide Acted, Starts, Inside, Quota, StartsFit, PortFits, GreetFits, CanAct;
    }
  }

  lemma {:induction false} RunsAreOrderly(p: Permits, s: System, steps: seq<Step>, last: System)
    requires Orderly(s) && Runs(p, s, steps, last)
    ensures Orderly(last)
    decreases |steps|
  {
    if steps != [] {
      hide Next, Orderly, Enabled;
      OrderlyStep(s, steps[0]);
      RunsAreOrderly(p, Next(s, steps[0]), steps[1..], last);
    }
  }

  /** In every run: one body at most, no run of it starts the backend more than
      twice, and a ready status carries a port. */
  lemma AlwaysOrderly(p: Permits, rust: bool, steps: seq<Step>, last: System)
    requires Runs(p, Start(rust), steps, last)
    ensures forall k, l :: 0 <= k < l < |last.tasks| && Inside(last.tasks[k].pc) ==> !Inside(last.tasks[l].pc)
    ensures forall k :: 0 <= k < |last.tasks| ==> last.tasks[k].starts <= 2
    ensures last.shared.status.Ready? ==> last.shared.status.port != 0
  {
    RunsAreOrderly(p, Start(rust), steps, last);
  }

  /** A context that does not load ends the run with `failed` and no start. */
  lemma LoadFailureFails(sh: Shared, t: Task)
    requires t.pc == Load
    ensures var (sh1, pc1) := Acted(sh, t.pc, Try(false, 0));
            && CanAct(sh1, pc1, Go) && Acted(sh1, pc1, Go) == (sh.(status := Failed), Leave)
            && Starts(t, Try(false, 0)) == t.starts
  {
  }

  /** A run of the backend that cannot report its port is ready at the port that
      was picked for it; the other at the port it reported. */
  lemma ReadyAtItsPort(sh: Shared, left: nat, fixed: nat, pid: Pid)
    requires CanAct(sh, Handshake(left, fixed, pid), Healthy)
    ensures var (sh1, pc1) := Acted(sh, Handshake(left, fixed, pid), Healthy);
            && CanAct(sh1, pc1, Go)
            && Acted(sh1, pc1, Go).0.status == Ready(if sh.rust then sh.slot else fixed, pid)
  {
  }

  // ------------------------------------------------- one process at a time --

  /** What the processes alive can be, by where the body stands. */
  predicate Accounted(sh: Shared, pc: Pc) {
    match pc
    case Enter | Finished => true
    case Load | Top(_) | Announce(_) | StartFailed(_) | GiveUp | Leave => sh.alive == {}
    case Over(_, exited) => exited && sh.alive == {}
    case Pick(_) => sh.alive == {} && sh.status != Failed
    case Launch(_, _) => sh.alive == {} && sh.status != Failed
    case Keep(_, _, pid) => sh.alive <= {pid} && sh.status != Failed
    case Handshake(_, _, pid) => sh.alive <= {pid} && sh.child == Some(pid) && sh.status != Failed
    case Greet(_, _, pid) => sh.alive <= {pid} && sh.child == Some(pid) && sh.status != Failed
    case Watch(_, pid) => sh.alive <= {pid} && sh.child == Some(pid) && sh.status != Failed
    case Peek(_, pid) => sh.alive <= {pid} && sh.child == Some(pid) && sh.status != Failed
    case Take(ThenRetry(_)) => sh.child.Some? && sh.alive <= {sh.child.value} && sh.status != Failed
    case Reap(ThenRetry(_), victim) => sh.alive <= {victim} && sh.status != Failed
    case _ => false
  }

  predicate Quiet(sh: Shared) {
    && !sh.shutdown
    && (!sh.supervising ==> sh.alive == {})
    && (sh.status == Failed ==> sh.alive == {})
    && (forall a, b :: a in sh.alive && b in sh.alive ==> a == b)
  }

  ghost predicate Calm(s: System) {
    && OneBody(s) && Quiet(s.shared)
    && forall k :: 0 <= k < |s.tasks| ==> Accounted(s.shared, s.tasks[k].pc)
  }

  /** The body's own action keeps its processes accounted for. */
  lemma ActionIsAccounted(sh: Shared, pc: Pc, a: Action)
    requires CanAct(sh, pc, a) && a != Look(true) && Quiet(sh) && Accounted(sh, pc) && (Inside(pc) ==> sh.supervising)
    ensures Quiet(Acted(sh, pc, a).0) && Accounted(Acted(sh, pc, a).0, Acted(sh, pc, a).1)
    ensures !Inside(pc) ==> Acted(sh, pc, a).0.(supervising := sh.supervising) == sh
  {
  }

  lemma OutsideIsAccounted(sh: Shared, sh1: Shared, pc: Pc)
    requires Accounted(sh, pc) && !Inside(pc)
    ensures Accounted(sh1, pc)
  {
  }

  lemma ShrinkIsAccounted(sh: Shared, sh1: Shared, pc: Pc)
    requires Accounted(sh, pc) && sh1.alive <= sh.alive && sh1.status == sh.status && sh1.child == sh.child
    ensures Accounted(sh1, pc)
  {
  }

  lemma CalmStep(s: System, step: Step)
    requires Calm(s) && Allowed(NOTHING, s, step)
    ensures Calm(Next(s, step))
  {
    var s1 := Next(s, step);
    if step.Act? {
      var k, pc := step.k, s.tasks[step.k].pc;
      FlagIsKept(s.shared, pc, step.action);
      assert Accounted(s.shared, pc) && (Inside(pc) ==> s.shared.supervising);
      ActionIsAccounted(s.shared, pc, step.action);
      forall l | 0 <= l < |s1.tasks| && l != k ensures Accounted(s1.shared, s1.tasks[l].pc) {
        OthersAreAccounted(s, step, l);
      }
      hide Acted, Starts, Inside, CanAct, Accounted, Quiet;
    } else {
      forall l | 0 <= l < |s.tasks| ensures Accounted(s1.shared, s.tasks[l].pc) {
        ShrinkIsAccounted(s.shared, s1.shared, s.tasks[l].pc);
      }
    }
  }

  /** The other calls are outside the body, or the acting one is. */
  lemma OthersAreAccounted(s: System, step: Step, l: nat)
    requires Calm(s) && Allowed(NOTHING, s, step) && step.Act? && l < |s.tasks| && l != step.k
    ensures Accounted(Next(s, step).shared, s.tasks[l].pc)
  {
    var sh, pc := s.shared, s.tasks[step.k].pc;
    assert Accounted(sh, pc) && Accounted(sh, s.tasks[l].pc) && (Inside(pc) ==> sh.supervising);
    ActionIsAccounted(sh, pc, step.action);
    hide Acted, CanAct;
    if Inside(s.tasks[l].pc) {
      assert !Inside(pc);
      hide Quiet, Inside;
      ShrinkIsAccounted(sh, Next(s, step).shared, s.tasks[l].pc);
    } else {
      OutsideIsAccounted(sh, Next(s, step).shared, s.tasks[l].pc);
    }
  }

  lemma {:induction false} RunsAreCalm(s: System, steps: seq<Step>, last: System)
    requires Calm(s) && Runs(NOTHING, s, steps, last)
    ensures Calm(last)
    decreases |steps|
  {
    if steps != [] {
      hide Next, Calm, Enabled, Allowed;
      assert Enabled(s, steps[0]);
      CalmStep(s, steps[0]);
      RunsAreCalm(Next(s, steps[0]), steps[1..], last);
    }
  }

  /** At most one process is alive, and none once `failed` is published. */
  predicate OneProcess(sh: Shared) {
    && (forall a, b :: a in sh.alive && b in sh.alive ==> a == b)
    && (sh.status == Failed ==> sh.alive == {})
  }

  ghost predicate Reaches(p: Permits, first: System, last: System) {
    exists steps :: Runs(p, first, steps, last)
  }

  ghost predicate AlwaysOneProcess(p: Permits) {
    forall rust, last :: Reaches(p, Start(rust), last) ==> OneProcess(last.shared)
  }

  lemma {:induction false} RunsMore(p: Permits, s: System, steps: seq<Step>, last: System, step: Step)
    requires Runs(p, s, steps, last) && Allowed(p, last, step)
    ensures Runs(p, s, steps + [step], Next(last, step))
    decreases |steps|
  {
    hide Next, Enabled;
    if steps == [] {
      assert steps + [step] == [step];
      assert Runs(p, Next(last, step), [], Next(last, step));
    } else {
      RunsMore(p, Next(s, steps[0]), steps[1..], last, step);
      assert (steps + [step])[1..] == steps[1..] + [step];
    }
  }

  lemma Then(p: Permits, first: System, s: System, step: Step, s1: System)
    requires Reaches(p, first, s) && Allowed(p, s, step) && s1 == Next(s, step)
    ensures Reaches(p, first, s1)
  {
    var steps :| Runs(p, first, steps, s);
    RunsMore(p, first, steps, s, step);
  }

  /** The system with one call moved on. */
  function Moved(s: System, k: nat, sh: Shared, t: Task): System
    requires k < |s.tasks|
  {
    System(sh, s.tasks[k := t])
  }

  /** One action of call k, from (sh, t) to (sh1, t1). */
  lemma Then1(p: Permits, first: System, s: System, k: nat, sh: Shared, t: Task, a: Action, sh1: Shared, t1: Task)
    requires k < |s.tasks| && Reaches(p, first, Moved(s, k, sh, t))
    requires CanAct(sh, t.pc, a) && (a == Look(true) ==> p.errors)
    requires (sh1, t1.pc) == Acted(sh, t.pc, a) && t1.starts == Starts(t, a)
    ensures Reaches(p, first, Moved(s, k, sh1, t1))
  {
    hide Acted, CanAct, Starts, Reaches;
    assert s.tasks[k := t][k := t1] == s.tasks[k := t1];
    Then(p, first, Moved(s, k, sh, t), Act(k, a), Moved(s, k, sh1, t1));
  }

  /** The shared state once a run has started the backend. */
  function Launched(sh: Shared): Shared {
    sh.(status := Starting, slot := 0, alive := sh.alive + {sh.nextPid}, nextPid := sh.nextPid + 1)
  }

  lemma Launches(p: Permits, first: System, s: System, k: nat, sh: Shared, left: nat, n: nat)
    requires k < |s.tasks| && Reaches(p, first, Moved(s, k, sh, Task(Top(left), n))) && sh.rust && !sh.shutdown
    ensures Reaches(p, first, Moved(s, k, Launched(sh), Task(Keep(left, 0, sh.nextPid), n + 1)))
  {
    hide Reaches;
    var again := sh.(status := Starting);
    Then1(p, first, s, k, sh, Task(Top(left), n), Go, sh, Task(Announce(left), n));
    Then1(p, first, s, k, sh, Task(Announce(left), n), Go, again, Task(Pick(left), n));
    Then1(p, first, s, k, again, Task(Pick(left), n), Go, again.(slot := 0), Task(Launch(left, 0), n));
    Then1(p, first, s, k, again.(slot := 0), Task(Launch(left, 0), n), Try(true, 0),
          Launched(sh), Task(Keep(left, 0, sh.nextPid), n + 1));
  }

  /** The shared state once the backend has reported its port and answered. */
  function Greeted(sh: Shared, pid: Pid): Shared {
    sh.(child := Some(pid), slot := 8080, status := Ready(8080, pid))
  }

  lemma Greets(p: Permits, first: System, s: System, k: nat, sh: Shared, left: nat, pid: Pid, n: nat)
    requires k < |s.tasks| && Reaches(p, first, Moved(s, k, sh, Task(Keep(left, 0, pid), n))) && sh.rust && sh.slot == 0
    ensures Reaches(p, first, Moved(s, k, Greeted(sh, pid), Task(Watch(left, pid), n)))
  {
    hide Reaches;
    var kept := sh.(child := Some(pid));
    Then1(p, first, s, k, sh, Task(Keep(left, 0, pid), n), Go, kept, Task(Handshake(left, 0, pid), n));
    var s1 := Moved(s, k, kept, Task(Handshake(left, 0, pid), n));
    Then(p, first, s1, Prints(8080), Moved(s, k, kept.(slot := 8080), Task(Handshake(left, 0, pid), n)));
    Then1(p, first, s, k, kept.(slot := 8080), Task(Handshake(left, 0, pid), n), Healthy,
          kept.(slot := 8080), Task(Greet(left, 8080, pid), n));
    Then1(p, first, s, k, kept.(slot := 8080), Task(Greet(left, 8080, pid), n), Go, Greeted(sh, pid), Task(Watch(left, pid), n));
  }

  /** The first call has started its backend. */
  function Base(): Shared { Shared(true, true, false, None, Starting, 0, {}, 0) }

  function One(): System { System(Base(), [Task(Enter, 0)]) }

  lemma FirstLaunch(p: Permits)
    ensures Reaches(p, Start(true), Moved(One(), 0, Launched(Base()), Task(Keep(1, 0, 0), 1)))
  {
    hide Reaches;
    var first, idle := Start(true), Base().(supervising := false);
    StaysThere(p, first);
    assert Moved(One(), 0, idle, Task(Enter, 0)) == System(idle, [Task(Enter, 0)]);
    Then(p, first, first, Call(Supervise), System(idle, [Task(Enter, 0)]));
    Then1(p, first, One(), 0, idle, Task(Enter, 0), Go, Base(), Task(Load, 0));
    Then1(p, first, One(), 0, Base(), Task(Load, 0), Try(true, 0), Base(), Task(Top(1), 0));
    Launches(p, first, One(), 0, Base(), 1, 0);
  }

  /** A look at the child fails while it lives: the run starts another one. */
  lemma ErrorsDouble(p: Permits)
    requires p.errors
    ensures !AlwaysOneProcess(p)
  {
    FirstLaunch(p);
    hide Reaches;
    var first, sh := Start(true), Greeted(Launched(Base()), 0);
    Greets(p, first, One(), 0, Launched(Base()), 1, 0, 1);
    Then1(p, first, One(), 0, sh, Task(Watch(1, 0), 1), Go, sh, Task(Peek(1, 0), 1));
    Then1(p, first, One(), 0, sh, Task(Peek(1, 0), 1), Look(true), sh, Task(Over(1, true), 1));
    Then1(p, first, One(), 0, sh, Task(Over(1, true), 1), Go, sh, Task(Top(0), 1));
    Launches(p, first, One(), 0, sh, 0, 1);
    TwoAlive(p, Moved(One(), 0, Launched(sh), Task(Keep(0, 0, 1), 2)));
  }

  lemma TwoAlive(p: Permits, last: System)
    requires Reaches(p, Start(true), last) && 0 in last.shared.alive && 1 in last.shared.alive
    ensures !AlwaysOneProcess(p)
  {
    assert !OneProcess(last.shared);
    assert AlwaysOneProcess(p) ==> OneProcess(last.shared);
  }

  /** A restart between the start of the process and its handle's storing: the
      old process lives on, and the new run starts another one. */
  lemma RestartDoubles(p: Permits)
    requires p.restarts
    ensures !AlwaysOneProcess(p)
  {
    FirstLaunch(p);
    hide Reaches;
    var first, sh := Start(true), Launched(Base());
    var flagged := sh.(shutdown := true);
    var greeted := Greeted(flagged, 0);
    // The restart call joins, and finds no child to stop.
    var two := System(sh, [Task(Keep(1, 0, 0), 1), Task(Flag(true), 0)]);
    Then(p, first, Moved(One(), 0, sh, Task(Keep(1, 0, 0), 1)), Call(Restart), two);
    assert Moved(two, 1, sh, Task(Flag(true), 0)) == two;
    Then1(p, first, two, 1, sh, Task(Flag(true), 0), Go, flagged, Task(Take(ThenAwait), 0));
    Then1(p, first, two, 1, flagged, Task(Take(ThenAwait), 0), Go, flagged, Task(Await, 0));
    // The first run goes on to ready, then leaves because of the flag.
    var waits := Moved(two, 1, flagged, Task(Await, 0));
    assert Moved(waits, 0, flagged, Task(Keep(1, 0, 0), 1)) == waits;
    Greets(p, first, waits, 0, flagged, 1, 0, 1);
    Leaves(p, first, waits, greeted);
    // The restart goes on with a run of its own.
    var free := greeted.(supervising := false);
    var left := Moved(waits, 0, free, Task(Finished, 1));
    assert Moved(left, 1, free, Task(Await, 0)) == left;
    Reruns(p, first, left, free);
    var running := free.(shutdown := false, status := Starting, supervising := true);
    TwoAlive(p, Moved(left, 1, Launched(running), Task(Keep(1, 0, 1), 1)));
  }

  lemma Leaves(p: Permits, first: System, s: System, sh: Shared)
    requires |s.tasks| == 2 && Reaches(p, first, Moved(s, 0, sh, Task(Watch(1, 0), 1))) && sh.shutdown
    ensures Reaches(p, first, Moved(s, 0, sh.(supervising := false), Task(Finished, 1)))
  {
    hide Reaches;
    Then1(p, first, s, 0, sh, Task(Watch(1, 0), 1), Go, sh, Task(Over(1, false), 1));
    Then1(p, first, s, 0, sh, Task(Over(1, false), 1), Go, sh, Task(Leave, 1));
    Then1(p, first, s, 0, sh, Task(Leave, 1), Go, sh.(supervising := false), Task(Finished, 1));
  }

  lemma Reruns(p: Permits, first: System, s: System, sh: Shared)
    requires |s.tasks| == 2 && Reaches(p, first, Moved(s, 1, sh, Task(Await, 0))) && !sh.supervising && sh.rust
    ensures var running := sh.(shutdown := false, status := Starting, supervising := true);
            Reaches(p, first, Moved(s, 1, Launched(running), Task(Keep(1, 0, sh.nextPid), 1)))
  {
    hide Reaches;
    var clear := sh.(shutdown := false);
    var starting := clear.(status := Starting);
    var running := starting.(supervising := true);
    Then1(p, first, s, 1, sh, Task(Await, 0), Go, sh, Task(Unflag, 0));
    Then1(p, first, s, 1, sh, Task(Unflag, 0), Go, clear, Task(Reannounce, 0));
    Then1(p, first, s, 1, clear, Task(Reannounce, 0), Go, starting, Task(Enter, 0));
    Then1(p, first, s, 1, starting, Task(Enter, 0), Go, running, Task(Load, 0));
    Then1(p, first, s, 1, running, Task(Load, 0), Try(true, 0), running, Task(Top(1), 0));
    Launches(p, first, s, 1, running, 1, 0);
  }

  /** The first start fails, the second waits for its handshake: no restart is
      left. */
  lemma LastHandshake(p: Permits)
    ensures var sh := Launched(Base()).(child := Some(0));
            Reaches(p, Start(true), Moved(One(), 0, sh, Task(Handshake(0, 0, 0), 2)))
  {
    hide Reaches;
    var first, idle, base := Start(true), Base().(supervising := false), Base();
    StaysThere(p, first);
    assert Moved(One(), 0, idle, Task(Enter, 0)) == System(idle, [Task(Enter, 0)]);
    Then(p, first, first, Call(Supervise), System(idle, [Task(Enter, 0)]));
    Then1(p, first, One(), 0, idle, Task(Enter, 0), Go, base, Task(Load, 0));
    Then1(p, first, One(), 0, base, Task(Load, 0), Try(true, 0), base, Task(Top(1), 0));
    Then1(p, first, One(), 0, base, Task(Top(1), 0), Go, base, Task(Announce(1), 0));
    Then1(p, first, One(), 0, base, Task(Announce(1), 0), Go, base, Task(Pick(1), 0));
    Then1(p, first, One(), 0, base, Task(Pick(1), 0), Go, base, Task(Launch(1, 0), 0));
    Then1(p, first, One(), 0, base, Task(Launch(1, 0), 0), Try(false, 0), base, Task(StartFailed(1), 1));
    Then1(p, first, One(), 0, base, Task(StartFailed(1), 1), Go, base, Task(Top(0), 1));
    Launches(p, first, One(), 0, base, 0, 1);
    var sh := Launched(base);
    Then1(p, first, One(), 0, sh, Task(Keep(0, 0, 0), 2), Go, sh.(child := Some(0)), Task(Handshake(0, 0, 0), 2));
  }

  lemma StaysThere(p: Permits, s: System)
    ensures Reaches(p, s, s)
  {
    assert Runs(p, s, [], s);
  }

  /** A shutdown takes the child of a handshake that then runs out of time: the
      run gives up and publishes `failed` while the child is still alive. */
  lemma ShutdownFailsAlive(p: Permits)
    requires p.shutdowns
    ensures !AlwaysOneProcess(p)
  {
    LastHandshake(p);
    hide Reaches;
    var first, sh := Start(true), Launched(Base()).(child := Some(0));
    var mine := Task(Handshake(0, 0, 0), 2);
    var flagged := sh.(shutdown := true);
    var taken := flagged.(child := None);
    var two := System(sh, [mine, Task(Flag(false), 0)]);
    Then(p, first, Moved(One(), 0, sh, mine), Call(ShutDown), two);
    assert Moved(two, 1, sh, Task(Flag(false), 0)) == two;
    Then1(p, first, two, 1, sh, Task(Flag(false), 0), Go, flagged, Task(Take(ThenFinish), 0));
    Then1(p, first, two, 1, flagged, Task(Take(ThenFinish), 0), Go, taken, Task(Reap(ThenFinish, 0), 0));
    var reaping := Moved(two, 1, taken, Task(Reap(ThenFinish, 0), 0));
    assert Moved(reaping, 0, taken, mine) == reaping;
    GivesUp(p, first, reaping, taken);
    FailedAlive(p, Moved(reaping, 0, taken.(status := Failed), Task(Leave, 2)));
  }

  lemma GivesUp(p: Permits, first: System, s: System, sh: Shared)
    requires |s.tasks| == 2 && Reaches(p, first, Moved(s, 0, sh, Task(Handshake(0, 0, 0), 2))) && sh.child == None
    ensures Reaches(p, first, Moved(s, 0, sh.(status := Failed), Task(Leave, 2)))
  {
    hide Reaches;
    Then1(p, first, s, 0, sh, Task(Handshake(0, 0, 0), 2), Deadline, sh, Task(Take(ThenRetry(0)), 2));
    Then1(p, first, s, 0, sh, Task(Take(ThenRetry(0)), 2), Go, sh, Task(StartFailed(0), 2));
    Then1(p, first, s, 0, sh, Task(StartFailed(0), 2), Go, sh, Task(GiveUp, 2));
    Then1(p, first, s, 0, sh, Task(GiveUp, 2), Go, sh.(status := Failed), Task(Leave, 2));
  }

  lemma FailedAlive(p: Permits, last: System)
    requires Reaches(p, Start(true), last) && last.shared.status == Failed && 0 in last.shared.alive
    ensures !AlwaysOneProcess(p)
  {
    assert !OneProcess(last.shared);
    assert AlwaysOneProcess(p) ==> OneProcess(last.shared);
  }

  /** At most one process at every step, and none once `failed` is published,
      exactly when no look at the child fails and nobody restarts or shuts down. */
  lemma AlwaysOneProcessIff(p: Permits)
    ensures AlwaysOneProcess(p) <==> p == NOTHING
  {
    if p.errors {
      ErrorsDouble(p);
    } else if p.restarts {
      RestartDoubles(p);
    } else if p.shutdowns {
      ShutdownFailsAlive(p);
    } else {
      forall rust, last | Reaches(p, Start(rust), last) ensures OneProcess(last.shared) {
        var steps :| Runs(p, Start(rust), steps, last);
        RunsAreCalm(Start(rust), steps, last);
      }
    }
  }

  // ------------------------------------------------------- the child slot --

  /** One look at a child being stopped, and how the stopping ended. */
  datatype Seen = Exited | Running | LookFailed

  datatype End = NoChild | ExitedItself | Killed | Unknown

  class State {
    var status: Status
    var token: Option<string>
    var child: Option<Pid>

    constructor ()
      ensures status == Starting && token == None && child == None
    {
      status, token, child := Starting, None, None;
    }

    method TakeChild() returns (taken: Option<Pid>)
      modifies this`child
      ensures taken == old(child) && child == None
    {
      taken := child;
      child := None;
    }

    /** Where requests go, only while ready and with a token. */
    method ReadyEndpoint() returns (endpoint: Option<(nat, string)>)
      ensures endpoint.Some? <==> status.Ready? && token.Some?
      ensures endpoint.Some? ==> endpoint.value == (status.port, token.value)
    {
      if !status.Ready? || token == None {
        return None;
      }
      return Some((status.port, token.value));
    }

    /** Ask the child to stop, look at it until the grace is over, then kill it.
        A look that fails ends this with the child's fate unknown. */
    method TerminateChild(looks: nat -> Seen, grace: nat) returns (end: End)
      modifies this`child
      ensures child == None && (end == NoChild <==> old(child) == None)
      ensures end == Killed ==> forall i: nat :: i <= grace ==> looks(i) == Running
      ensures end == ExitedItself || end == Unknown ==>
                exists i: nat :: i <= grace && looks(i) == (if end == Unknown then LookFailed else Exited)
                          && forall j: nat :: j < i ==> looks(j) == Running
    {
      var taken := TakeChild();
      if taken == None {
        return NoChild;
      }
      var look := 0;
      while look <= grace
        invariant 0 <= look <= grace + 1
        invariant forall j: nat :: j < look ==> looks(j) == Running
      {
        match looks(look) {
          case Exited => return ExitedItself;
          case LookFailed => return Unknown;
          case Running => look := look + 1;
        }
      }
      return Killed;
    }
  }
}
