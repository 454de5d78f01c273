/** What a model call costs: rounded up to whole micro-dollars, per call. */
module Cost {

  /** Dollars per thousand tokens. */
  datatype Prices = Prices(prompt: real, completion: real)

  datatype Usage = Usage(prices: Prices, promptTokens: nat, completionTokens: nat)

  /** The exact bill in micro-dollars. */
  function Bill(u: Usage): real {
    (u.promptTokens as real / 1000.0 * u.prices.prompt + u.completionTokens as real / 1000.0 * u.prices.completion) * 1000000.0
  }

  function Ceiling(x: real): int { -(-x).Floor }

  function CostMicroUsd(u: Usage): (cost: nat)
    ensures Bill(u) <= cost as real
    ensures cost as real < Bill(u) + 1.0 <==> Bill(u) > -1.0
  {
    if Bill(u) <= 0.0 then 0 else Ceiling(Bill(u))
  }

  function Ledger(calls: seq<Usage>): nat { if calls == [] then 0 else CostMicroUsd(calls[0]) + Ledger(calls[1..]) }

  function Bills(calls: seq<Usage>): real { if calls == [] then 0.0 else Bill(calls[0]) + Bills(calls[1..]) }

  /** Each price goes with its own count: a thousand prompt tokens cost the prompt
      price, a thousand completion tokens the completion price, and both add up. */
  lemma BillIsPerKind(p: Prices, prompt: nat, completion: nat)
    ensures Bill(Usage(p, 1000, 0)) == p.prompt * 1000000.0
    ensures Bill(Usage(p, 0, 1000)) == p.completion * 1000000.0
    ensures Bill(Usage(p, prompt, completion)) * 1000.0
         == prompt as real * Bill(Usage(p, 1000, 0)) + completion as real * Bill(Usage(p, 0, 1000))
  {
    assert prompt as real / 1000.0 * 1000.0 == prompt as real;
    assert completion as real / 1000.0 * 1000.0 == completion as real;
    PerThousand(prompt as real, p.prompt, completion as real, p.completion);
  }

  lemma PerThousand(a: real, p: real, b: real, q: real)
    ensures (a / 1000.0 * p + b / 1000.0 * q) * 1000000.0 * 1000.0 == a * (p * 1000000.0) + b * (q * 1000000.0)
  {
    assert a / 1000.0 * p == a * p / 1000.0 && b / 1000.0 * q == b * q / 1000.0;
  }

  /** The ledger never under-charges, and over-charges by less than one
      micro-dollar a call. */
  lemma {:induction false} LedgerBracketsBills(calls: seq<Usage>)
    ensures Bills(calls) <= Ledger(calls) as real
    ensures calls != [] && (forall u :: u in calls ==> Bill(u) > -1.0) ==> Ledger(calls) as real < Bills(calls) + |calls| as real
    decreases |calls|
  {
    if |calls| > 0 {
      LedgerBracketsBills(calls[1..]);
    }
  }
}

/** The one door to a model: the monthly budget, then the circuit breaker, then
    the call; its outcome is recorded when it arrives. */
module Gateway {
  import opened Wrappers

  const FAILURE_THRESHOLD := 3
  const COOLDOWN_MS := 60 * 1000

  datatype TransportError = Rejected(credit: bool) | Unreachable | Malformed

  datatype State = State(failures: nat, openedAt: Option<nat>, creditExhausted: bool)

  const HEALTHY := State(0, None, false)

  datatype Budget = Budget(spent: int, cap: int)

  predicate IsSpent(b: Budget) { b.cap > 0 && b.spent >= b.cap }

  predicate CircuitOpen(s: State, now: nat) { s.openedAt.Some? && now - s.openedAt.value < COOLDOWN_MS }

  predicate IsCredit(e: TransportError) { e.Rejected? && e.credit }

  function RecordFailure(s: State, e: TransportError, now: nat): State {
    if IsCredit(e) then s.(creditExhausted := true)
    else
      var n := s.failures + 1;
      var opens := e.Unreachable? && n >= FAILURE_THRESHOLD && s.openedAt == None;
      s.(failures := n, openedAt := if opens then Some(now) else s.openedAt)
  }

  datatype Refusal = NotConfigured | BudgetExceeded | CircuitIsOpen

  /** The checks before a call; a probe skips the breaker. */
  function Check(s: State, probe: bool, configured: bool, b: Budget, now: nat): Option<Refusal> {
    if !configured then Some(NotConfigured)
    else if IsSpent(b) then Some(BudgetExceeded)
    else if !probe && CircuitOpen(s, now) then Some(CircuitIsOpen)
    else None
  }

  /** The gateway's degraded state, updated by every outcome. */
  class Gate {
    var failures: nat
    var openedAt: Option<nat>
    var creditExhausted: bool

    constructor ()
      ensures View() == HEALTHY
    {
      failures, openedAt, creditExhausted := 0, None, false;
    }

    function View(): State
      reads this
    {
      State(failures, openedAt, creditExhausted)
    }

    method Reload()
      modifies this
      ensures View() == HEALTHY
    {
      failures, openedAt, creditExhausted := 0, None, false;
    }

    method Success()
      modifies this
      ensures View() == HEALTHY
    {
      failures, openedAt, creditExhausted := 0, None, false;
    }

    method Failure(e: TransportError, now: nat)
      modifies this
      ensures View() == RecordFailure(old(View()), e, now)
    {
      match e {
        case Rejected(credit) =>
          if credit {
            creditExhausted := true;
            return;
          }
          failures := failures + 1;
        case Unreachable =>
          failures := failures + 1;
          if failures >= FAILURE_THRESHOLD && openedAt == None {
            openedAt := Some(now);
          }
        case Malformed =>
          failures := failures + 1;
      }
    }

    /** What stands in the way of a call, if anything. */
    method Admit(probe: bool, configured: bool, b: Budget, now: nat) returns (refusal: Option<Refusal>)
      ensures refusal == Check(View(), probe, configured, b, now)
    {
      if !configured {
        return Some(NotConfigured);
      }
      if IsSpent(b) {
        return Some(BudgetExceeded);
      }
      if !probe && openedAt.Some? && now - openedAt.value < COOLDOWN_MS {
        return Some(CircuitIsOpen);
      }
      return None;
    }
  }

  // ------------------------------------------------- runs of the gateway --

  datatype Call = Flying | Owed(cost: nat) | Closed

  /** `ledger` is this month's spend as recorded so far. */
  datatype System = System(gate: State, clock: nat, calls: seq<Call>, ledger: nat, cap: nat)

  datatype Step =
    | Ask(probe: bool, configured: bool)
    | Succeed(k: nat, cost: nat)
    | Fail(k: nat, error: TransportError)
    | RecordUsage(k: nat)
    | Reload
    | Wait(ms: nat)

  predicate Enabled(s: System, step: Step) {
    match step
    case Succeed(k, _) => k < |s.calls| && s.calls[k].Flying?
    case Fail(k, _) => k < |s.calls| && s.calls[k].Flying?
    case RecordUsage(k) => k < |s.calls| && s.calls[k].Owed?
    case _ => true
  }

  function Refused(s: System, step: Step): Option<Refusal>
    requires step.Ask?
  {
    Check(s.gate, step.probe, step.configured, Budget(s.ledger, s.cap), s.clock)
  }

  /** The step makes a call to the provider. */
  predicate Calls(s: System, step: Step) { step.Ask? && Refused(s, step) == None }

  function Next(s: System, step: Step): System
    requires Enabled(s, step)
  {
    match step
    case Ask(_, _) => if Calls(s, step) then s.(calls := s.calls + [Flying]) else s
    case Succeed(k, cost) => s.(gate := HEALTHY, calls := s.calls[k := Owed(cost)])
    case Fail(k, error) => s.(gate := RecordFailure(s.gate, error, s.clock), calls := s.calls[k := Closed])
    case RecordUsage(k) => s.(ledger := s.ledger + s.calls[k].cost, calls := s.calls[k := Closed])
    case Reload => s.(gate := HEALTHY)
    case Wait(ms) => s.(clock := s.clock + ms)
  }

  predicate Resets(step: Step) { step.Succeed? || step.Reload? }

  ghost predicate Runs(s: System, steps: seq<Step>, last: System)
    decreases |steps|
  {
    if steps == [] then last == s else Enabled(s, steps[0]) && Runs(Next(s, steps[0]), steps[1..], last)
  }

  // -------------------------------------------------------------- breaker --

  /** A failure and when it was recorded. */
  datatype Note = Note(error: TransportError, at: nat)

  /** The failures of a run since its last success or reload. */
  function Log(clock: nat, steps: seq<Step>, notes: seq<Note>): seq<Note>
    decreases |steps|
  {
    if steps == [] then notes
    else
      var rest := steps[1..];
      match steps[0]
      case Wait(ms) => Log(clock + ms, rest, notes)
      case Fail(_, error) => Log(clock, rest, notes + [Note(error, clock)])
      case Succeed(_, _) => Log(clock, rest, [])
      case Reload => Log(clock, rest, [])
      case _ => Log(clock, rest, notes)
  }

  function Count(notes: seq<Note>): nat {
    if notes == [] then 0
    else Count(notes[..|notes| - 1]) + if IsCredit(notes[|notes| - 1].error) then 0 else 1
  }

  /** The i-th failure may open the circuit: unreachable, and the third or later
      that is not about credit. */
  predicate MayOpen(notes: seq<Note>, i: nat)
    requires i < |notes|
  {
    notes[i].error.Unreachable? && Count(notes[..i + 1]) >= FAILURE_THRESHOLD
  }

  ghost predicate NeverOpened(notes: seq<Note>) { forall i :: 0 <= i < |notes| ==> !MayOpen(notes, i) }

  /** The circuit opened at `at`: the first failure that may open it came then. */
  ghost predicate OpenedAt(notes: seq<Note>, at: nat) {
    exists i :: 0 <= i < |notes| && MayOpen(notes, i) && notes[i].at == at && NeverOpened(notes[..i])
  }

  ghost predicate Remembers(g: State, notes: seq<Note>) {
    && g.failures == Count(notes)
    && (g.openedAt == None ==> NeverOpened(notes))
    && (g.openedAt.Some? ==> OpenedAt(notes, g.openedAt.value))
    && (g.creditExhausted <==> exists i :: 0 <= i < |notes| && IsCredit(notes[i].error))
  }

  lemma PrefixMayOpen(notes: seq<Note>, n: nat, i: nat)
    requires i < n <= |notes|
    ensures MayOpen(notes[..n], i) <==> MayOpen(notes, i)
  {
    assert notes[..n][..i + 1] == notes[..i + 1];
  }

  lemma RemembersFailure(g: State, notes: seq<Note>, e: TransportError, now: nat)
    requires Remembers(g, notes)
    ensures Remembers(RecordFailure(g, e, now), notes + [Note(e, now)])
  {
    var n, more := |notes|, notes + [Note(e, now)];
    assert more[..n] == notes && more[..n + 1] == more;
    forall i | 0 <= i < n ensures MayOpen(more, i) <==> MayOpen(notes, i) {
      PrefixMayOpen(more, n, i);
    }
    if g.openedAt.Some? {
      var i :| 0 <= i < n && MayOpen(notes, i) && notes[i].at == g.openedAt.value && NeverOpened(notes[..i]);
      assert more[..i] == notes[..i] && MayOpen(more, i);
    } else {
      assert MayOpen(more, n) ==> OpenedAt(more, now);
    }
    assert more[n] == Note(e, now);
  }

  /** After any run the gate holds exactly what its failures since the last
      success or reload say: their number without those about credit, when the
      first that may open the circuit came, and whether any was about credit. */
  lemma {:induction false} GateRemembers(s: System, steps: seq<Step>, last: System, notes: seq<Note>)
    requires Runs(s, steps, last) && Remembers(s.gate, notes)
    ensures Remembers(last.gate, Log(s.clock, steps, notes))
    decreases |steps|
  {
    if steps != [] {
      var s1 := Next(s, steps[0]);
      hide Remembers;
      match steps[0]
      case Fail(_, e) =>
        RemembersFailure(s.gate, notes, e, s.clock);
        GateRemembers(s1, steps[1..], last, notes + [Note(e, s.clock)]);
      case Succeed(_, _) =>
        RemembersNothing();
        GateRemembers(s1, steps[1..], last, []);
      case Reload =>
        RemembersNothing();
        GateRemembers(s1, steps[1..], last, []);
      case _ =>
        GateRemembers(s1, steps[1..], last, notes);
    }
  }

  lemma RemembersNothing()
    ensures Remembers(HEALTHY, [])
  {
  }

  lemma {:induction false} CountGrows(notes: seq<Note>, n: nat)
    requires n <= |notes|
    ensures Count(notes[..n]) <= Count(notes)
    decreases |notes|
  {
    if n == |notes| {
      assert notes[..n] == notes;
    } else {
      CountGrows(notes[..|notes| - 1], n);
      assert notes[..|notes| - 1][..n] == notes[..n];
    }
  }

  /** An open circuit has seen at least three failures that count. */
  lemma OpenMeansThree(s: System, steps: seq<Step>, last: System)
    requires Runs(s, steps, last) && s.gate == HEALTHY
    ensures last.gate.openedAt.Some? ==> last.gate.failures >= FAILURE_THRESHOLD
  {
    RemembersNothing();
    GateRemembers(s, steps, last, []);
    var notes := Log(s.clock, steps, []);
    if i :| last.gate.openedAt.Some? && 0 <= i < |notes| && MayOpen(notes, i) {
      CountGrows(notes, i + 1);
    }
  }

  /** Until a success or a reload, an opened circuit keeps its opening time: no
      further failure closes it, extends it or arms it again. */
  lemma {:induction false} OpeningStays(s: System, steps: seq<Step>, last: System)
    requires Runs(s, steps, last) && s.gate.openedAt.Some?
    requires forall i :: 0 <= i < |steps| ==> !Resets(steps[i])
    ensures last.gate.openedAt == s.gate.openedAt && last.clock >= s.clock
    decreases |steps|
  {
    if steps != [] {
      OpeningStays(Next(s, steps[0]), steps[1..], last);
    }
  }

  /** The step that opens the circuit is an unreachable provider's. */
  lemma OnlyUnreachableOpens(s: System, step: Step)
    requires Enabled(s, step) && s.gate.openedAt == None && Next(s, step).gate.openedAt.Some?
    ensures step.Fail? && step.error.Unreachable? && s.gate.failures + 1 >= FAILURE_THRESHOLD
    ensures Next(s, step).gate.openedAt == Some(s.clock)
  {
  }

  /** From the opening until a success or reload, a configured completion within
      budget reaches the provider exactly when 60 s have passed; then every one
      does, whatever failed in between. */
  lemma CallsExactlyAfterCooldown(s: System, opening: Step, steps: seq<Step>, last: System)
    requires Enabled(s, opening) && s.gate.openedAt == None && Next(s, opening).gate.openedAt.Some?
    requires Runs(Next(s, opening), steps, last) && forall i :: 0 <= i < |steps| ==> !Resets(steps[i])
    ensures forall configured :: Calls(last, Ask(false, configured))
              <==> configured && (last.cap == 0 || last.ledger < last.cap) && last.clock - s.clock >= 60_000
  {
    OnlyUnreachableOpens(s, opening);
    OpeningStays(Next(s, opening), steps, last);
  }

  /** The failures since the last success or reload leave the circuit open. */
  ghost predicate StillOpen(notes: seq<Note>, clock: nat) {
    exists at: nat :: OpenedAt(notes, at) && clock - at < 60_000
  }

  lemma {:induction false} OpenedOnce(notes: seq<Note>, a: nat, b: nat)
    requires OpenedAt(notes, a) && OpenedAt(notes, b)
    ensures a == b
  {
    var i :| 0 <= i < |notes| && MayOpen(notes, i) && notes[i].at == a && NeverOpened(notes[..i]);
    var j :| 0 <= j < |notes| && MayOpen(notes, j) && notes[j].at == b && NeverOpened(notes[..j]);
    if i < j {
      PrefixMayOpen(notes, j, i);
    } else if j < i {
      PrefixMayOpen(notes, i, j);
    }
  }

  /** After any run from a healthy start: a question is asked of the provider
      exactly when one is configured, the month has no cap or is below it, and,
      unless it is a probe, the failures so far do not keep the circuit open. What
      refuses it is the first of these that fails. */
  lemma AsksExactly(s: System, steps: seq<Step>, last: System, probe: bool, configured: bool)
    requires Runs(s, steps, last) && s.gate == HEALTHY
    ensures var refusal := Refused(last, Ask(probe, configured));
            var below := last.cap == 0 || last.ledger < last.cap;
            var open := StillOpen(Log(s.clock, steps, []), last.clock);
            && (Calls(last, Ask(probe, configured)) <==> configured && below && (probe || !open))
            && (refusal == Some(NotConfigured) <==> !configured)
            && (refusal == Some(BudgetExceeded) <==> configured && !below)
            && (refusal == Some(CircuitIsOpen) <==> configured && below && !probe && open)
  {
    var notes := Log(s.clock, steps, []);
    RemembersNothing();
    GateRemembers(s, steps, last, []);
    if last.gate.openedAt == None {
      forall at: nat ensures !OpenedAt(notes, at) {
      }
    } else {
      forall at: nat | OpenedAt(notes, at) ensures at == last.gate.openedAt.value {
        OpenedOnce(notes, at, last.gate.openedAt.value);
      }
    }
    hide MayOpen, NeverOpened, Log, OpenedAt;
  }

  /** Without a cap no question is ever refused over money, whatever has been
      spent. */
  lemma {:induction false} UncappedIsNeverSpent(s: System, steps: seq<Step>, last: System, probe: bool, configured: bool)
    requires Runs(s, steps, last) && s.cap == 0
    ensures last.cap == 0 && Refused(last, Ask(probe, configured)) != Some(BudgetExceeded)
    decreases |steps|
  {
    if steps != [] {
      UncappedIsNeverSpent(Next(s, steps[0]), steps[1..], last, probe, configured);
    }
  }

  lemma {:induction false} RunsThrough(a: System, first: seq<Step>, b: System, rest: seq<Step>, c: System)
    requires Runs(a, first, b) && Runs(b, rest, c)
    ensures Runs(a, first + rest, c)
    decreases |first|
  {
    hide Next;
    if first == [] {
      assert first + rest == rest;
    } else {
      RunsThrough(Next(a, first[0]), first[1..], b, rest, c);
      assert (first + rest)[1..] == first[1..] + rest;
    }
  }

  /** n configured completions asked for, one after the other. */
  function Asks(n: nat): seq<Step> { seq(n, i => Ask(false, true)) }

  function InFlight(n: nat): seq<Call> { seq(n, i => Flying) }

  /** With the circuit opened, the cooldown over and no success or reload, not
      one but any number of completions reach the provider. */
  lemma {:induction false} AllGoThrough(s: System, n: nat)
    requires s.gate.openedAt.Some? && s.clock - s.gate.openedAt.value >= COOLDOWN_MS
    requires !IsSpent(Budget(s.ledger, s.cap))
    ensures Runs(s, Asks(n), s.(calls := s.calls + InFlight(n)))
    decreases n
  {
    if n == 0 {
      assert s.calls + InFlight(0) == s.calls;
    } else {
      var s1 := Next(s, Ask(false, true));
      AllGoThrough(s1, n - 1);
      assert Asks(n)[1..] == Asks(n - 1);
      assert s.calls + [Flying] + InFlight(n - 1) == s.calls + InFlight(n);
    }
  }

  /** Three calls to a provider that cannot be reached. */
  function Opening(): seq<Step> {
    [Ask(false, true), Ask(false, true), Ask(false, true), Fail(0, Unreachable), Fail(1, Unreachable), Fail(2, Unreachable)]
  }

  function Failing(n: nat): System
    requires n <= 3
  {
    System(State(n, if n == 3 then Some(0) else None, false), 0, [Closed, Closed, Closed][..n] + [Flying, Flying, Flying][n..], 0, 0)
  }

  lemma FailsOnce(n: nat)
    requires n < 3
    ensures Runs(Failing(n), [Fail(n, Unreachable)], Failing(n + 1))
  {
    assert Next(Failing(n), Fail(n, Unreachable)).calls == Failing(n + 1).calls;
  }

  lemma Opens()
    ensures Runs(System(HEALTHY, 0, [], 0, 0), Opening(), Failing(3))
  {
    var first := System(HEALTHY, 0, [], 0, 0);
    assert Runs(first, Asks(3), Failing(0)) by {
      var s1 := System(HEALTHY, 0, [Flying], 0, 0);
      var s2 := System(HEALTHY, 0, [Flying, Flying], 0, 0);
      assert Runs(s2, Asks(1), Failing(0));
      assert Asks(2)[1..] == Asks(1) && Asks(3)[1..] == Asks(2);
    }
    hide Next, Enabled;
    FailsOnce(0);
    FailsOnce(1);
    FailsOnce(2);
    RunsThrough(Failing(1), [Fail(1, Unreachable)], Failing(2), [Fail(2, Unreachable)], Failing(3));
    RunsThrough(Failing(0), [Fail(0, Unreachable)], Failing(1),
                [Fail(1, Unreachable)] + [Fail(2, Unreachable)], Failing(3));
    var fails := [Fail(0, Unreachable)] + ([Fail(1, Unreachable)] + [Fail(2, Unreachable)]);
    RunsThrough(first, Asks(3), Failing(0), fails, Failing(3));
    assert Asks(3) + fails == Opening();
  }

  /** From a healthy start: three unreachable answers open the circuit, no
      completion is let through; 60 s later any number of them is. */
  lemma CooldownLetsAllThrough(n: nat)
    ensures var first, tripped := System(HEALTHY, 0, [], 0, 0), Failing(3);
            && Runs(first, Opening(), tripped) && !Calls(tripped, Ask(false, true))
            && Runs(first, Opening() + ([Wait(COOLDOWN_MS)] + Asks(n)),
                    tripped.(clock := COOLDOWN_MS, calls := tripped.calls + InFlight(n)))
  {
    var first, tripped := System(HEALTHY, 0, [], 0, 0), Failing(3);
    var cooled := tripped.(clock := COOLDOWN_MS);
    Opens();
    AllGoThrough(cooled, n);
    hide Next, Failing;
    assert Runs(tripped, [Wait(COOLDOWN_MS)], cooled) by { Waits(tripped, COOLDOWN_MS); }
    RunsThrough(tripped, [Wait(COOLDOWN_MS)], cooled, Asks(n), cooled.(calls := cooled.calls + InFlight(n)));
    RunsThrough(first, Opening(), tripped, [Wait(COOLDOWN_MS)] + Asks(n), cooled.(calls := cooled.calls + InFlight(n)));
  }

  lemma Waits(s: System, ms: nat)
    ensures Runs(s, [Wait(ms)], s.(clock := s.clock + ms))
  {
  }

  // --------------------------------------------------------------- budget --

  /** What the open calls have cost or may still cost, at most `c` each. */
  function Exposure(calls: seq<Call>, c: nat): nat {
    if calls == [] then 0
    else Exposure(calls[..|calls| - 1], c) + CallExposure(calls[|calls| - 1], c)
  }

  function CallExposure(call: Call, c: nat): nat {
    match call
    case Flying => c
    case Owed(cost) => cost
    case Closed => 0
  }

  function Open(calls: seq<Call>): nat {
    if calls == [] then 0
    else Open(calls[..|calls| - 1]) + if calls[|calls| - 1].Closed? then 0 else 1
  }

  /** At most `k` calls are ever open at once, and none costs more than `c`. */
  predicate Within(s: System, step: Step, k: nat, c: nat) {
    (Calls(s, step) ==> Open(s.calls) < k) && (step.Succeed? ==> step.cost <= c)
  }

  ghost predicate RunsWithin(s: System, steps: seq<Step>, last: System, k: nat, c: nat)
    decreases |steps|
  {
    if steps == [] then last == s
    else Enabled(s, steps[0]) && Within(s, steps[0], k, c) && RunsWithin(Next(s, steps[0]), steps[1..], last, k, c)
  }

  ghost predicate CostsAtMost(calls: seq<Call>, c: nat) {
    forall i :: 0 <= i < |calls| && calls[i].Owed? ==> calls[i].cost <= c
  }

  lemma {:induction false} ExposureSet(calls: seq<Call>, i: nat, call: Call, c: nat)
    requires i < |calls|
    ensures Exposure(calls[i := call], c) == Exposure(calls, c) - CallExposure(calls[i], c) + CallExposure(call, c)
    ensures Open(calls[i := call]) == Open(calls) - (if calls[i].Closed? then 0 else 1) + (if call.Closed? then 0 else 1)
    decreases |calls|
  {
    var n := |calls| - 1;
    if i == n {
      assert calls[i := call][..n] == calls[..n];
    } else {
      assert calls[i := call][..n] == calls[..n][i := call];
      ExposureSet(calls[..n], i, call, c);
    }
  }

  lemma {:induction false} ExposureOfOpen(calls: seq<Call>, c: nat)
    requires CostsAtMost(calls, c)
    ensures Exposure(calls, c) <= Open(calls) * c
    decreases |calls|
  {
    if calls != [] {
      ExposureOfOpen(calls[..|calls| - 1], c);
    }
  }

  function Limit(start: nat, cap: nat, k: nat, c: nat): int {
    if start > cap - 1 + k * c then start else cap - 1 + k * c
  }

  /** A call let through: the ledger was below the cap, and fewer than `k` calls
      were open. */
  lemma AdmissionFits(s: System, start: nat, k: nat, c: nat)
    requires s.ledger < s.cap && Open(s.calls) < k && CostsAtMost(s.calls, c)
    ensures s.ledger + Exposure(s.calls, c) + c <= Limit(start, s.cap, k, c)
  {
    hide Exposure, Open, CostsAtMost;
    ExposureOfOpen(s.calls, c);
    OneMoreCall(Open(s.calls), k, c);
  }

  lemma OneMoreCall(n: nat, k: nat, c: nat)
    requires n < k
    ensures n * c + c <= k * c
  {
    assert k * c == (n + 1) * c + (k - n - 1) * c;
  }

  lemma BudgetStep(s: System, step: Step, start: nat, k: nat, c: nat)
    requires Enabled(s, step) && Within(s, step, k, c) && s.cap > 0 && CostsAtMost(s.calls, c)
    requires s.ledger + Exposure(s.calls, c) <= Limit(start, s.cap, k, c)
    ensures var s1 := Next(s, step);
            CostsAtMost(s1.calls, c) && s1.cap == s.cap && s1.ledger + Exposure(s1.calls, c) <= Limit(start, s.cap, k, c)
  {
    hide Limit, RecordFailure;
    match step
    case Ask(_, _) =>
      if Calls(s, step) {
        assert (s.calls + [Flying])[..|s.calls|] == s.calls;
        AdmissionFits(s, start, k, c);
      }
    case Succeed(i, cost) => ExposureSet(s.calls, i, Owed(cost), c);
    case Fail(i, _) => ExposureSet(s.calls, i, Closed, c);
    case RecordUsage(i) => ExposureSet(s.calls, i, Closed, c);
    case _ =>
  }

  /** However the calls interleave, what is recorded and what is still owed
      together never exceed the cap by more than `k` calls, less one. */
  lemma {:induction false} OvershootIsBounded(s: System, steps: seq<Step>, last: System, start: nat, k: nat, c: nat)
    requires RunsWithin(s, steps, last, k, c) && s.cap > 0 && CostsAtMost(s.calls, c)
    requires s.ledger + Exposure(s.calls, c) <= Limit(start, s.cap, k, c)
    ensures last.ledger <= last.ledger + Exposure(last.calls, c) <= Limit(start, s.cap, k, c)
    decreases |steps|
  {
    if steps != [] {
      hide Limit, Next, Within;
      BudgetStep(s, steps[0], start, k, c);
      OvershootIsBounded(Next(s, steps[0]), steps[1..], last, start, k, c);
    }
  }

  // The bound is met: some run spends exactly that much.

  ghost predicate Reaches(s: System, last: System, k: nat, c: nat) {
    exists steps :: RunsWithin(s, steps, last, k, c)
  }

  lemma {:induction false} RunsMore(s: System, steps: seq<Step>, last: System, step: Step, k: nat, c: nat)
    requires RunsWithin(s, steps, last, k, c) && Enabled(last, step) && Within(last, step, k, c)
    ensures RunsWithin(s, steps + [step], Next(last, step), k, c)
    decreases |steps|
  {
    hide Next, Within;
    if steps == [] {
      assert steps + [step] == [step];
      assert RunsWithin(Next(last, step), [], Next(last, step), k, c);
    } else {
      RunsMore(Next(s, steps[0]), steps[1..], last, step, k, c);
      assert (steps + [step])[1..] == steps[1..] + [step];
    }
  }

  lemma Then(first: System, s: System, step: Step, s1: System, k: nat, c: nat)
    requires Reaches(first, s, k, c) && Enabled(s, step) && Within(s, step, k, c) && s1 == Next(s, step)
    ensures Reaches(first, s1, k, c)
  {
    var steps :| RunsWithin(first, steps, s, k, c);
    RunsMore(first, steps, s, step, k, c);
  }

  /** `done` finished calls, then `flying` open ones. */
  function DoneAndFlying(done: nat, flying: nat): seq<Call> { seq(done, i => Closed) + seq(flying, i => Flying) }

  function Quiet(cap: nat, done: nat, flying: nat, ledger: nat): System {
    System(HEALTHY, 0, DoneAndFlying(done, flying), ledger, cap)
  }

  lemma {:induction false} OpenOf(done: nat, flying: nat)
    ensures Open(DoneAndFlying(done, flying)) == flying
    decreases done + flying
  {
    var calls := DoneAndFlying(done, flying);
    if flying > 0 {
      assert calls[..|calls| - 1] == DoneAndFlying(done, flying - 1);
      OpenOf(done, flying - 1);
    } else if done > 0 {
      assert calls[..|calls| - 1] == DoneAndFlying(done - 1, 0);
      OpenOf(done - 1, 0);
    }
  }

  /** One more call let through, while the ledger is below the cap. */
  lemma AskOne(first: System, cap: nat, done: nat, flying: nat, ledger: nat, k: nat, c: nat)
    requires Reaches(first, Quiet(cap, done, flying, ledger), k, c) && ledger < cap && flying < k
    ensures Reaches(first, Quiet(cap, done, flying + 1, ledger), k, c)
  {
    var s := Quiet(cap, done, flying, ledger);
    OpenOf(done, flying);
    assert DoneAndFlying(done, flying) + [Flying] == DoneAndFlying(done, flying + 1);
    hide Reaches, Open;
    Then(first, s, Ask(false, true), Quiet(cap, done, flying + 1, ledger), k, c);
  }

  /** One open call answered and recorded. */
  lemma SettleOne(first: System, cap: nat, done: nat, flying: nat, ledger: nat, cost: nat, k: nat, c: nat)
    requires Reaches(first, Quiet(cap, done, flying + 1, ledger), k, c) && cost <= c
    ensures Reaches(first, Quiet(cap, done + 1, flying, ledger + cost), k, c)
  {
    hide Reaches, Open;
    var s := Quiet(cap, done, flying + 1, ledger);
    var owed := s.(calls := s.calls[done := Owed(cost)]);
    Then(first, s, Succeed(done, cost), owed, k, c);
    assert owed.calls[done := Closed] == DoneAndFlying(done + 1, flying);
    Then(first, owed, RecordUsage(done), Quiet(cap, done + 1, flying, ledger + cost), k, c);
  }

  lemma {:induction false} SpendUpTo(cap: nat, n: nat, k: nat, c: nat)
    requires n < cap && k >= 1 && c >= 1
    ensures Reaches(Quiet(cap, 0, 0, 0), Quiet(cap, n, 0, n), k, c)
  {
    var first := Quiet(cap, 0, 0, 0);
    if n == 0 {
      assert RunsWithin(first, [], first, k, c);
    } else {
      hide Reaches;
      SpendUpTo(cap, n - 1, k, c);
      AskOne(first, cap, n - 1, 0, n - 1, k, c);
      SettleOne(first, cap, n - 1, 0, n - 1, 1, k, c);
    }
  }

  lemma {:induction false} AskMany(cap: nat, n: nat, k: nat, c: nat)
    requires cap > 0 && n <= k && k >= 1 && c >= 1
    ensures Reaches(Quiet(cap, 0, 0, 0), Quiet(cap, cap - 1, n, cap - 1), k, c)
  {
    hide Reaches;
    if n == 0 {
      SpendUpTo(cap, cap - 1, k, c);
    } else {
      AskMany(cap, n - 1, k, c);
      AskOne(Quiet(cap, 0, 0, 0), cap, cap - 1, n - 1, cap - 1, k, c);
    }
  }

  lemma {:induction false} SettleMany(cap: nat, n: nat, k: nat, c: nat)
    requires cap > 0 && n <= k && k >= 1 && c >= 1
    ensures Reaches(Quiet(cap, 0, 0, 0), Quiet(cap, cap - 1 + n, k - n, cap - 1 + n * c), k, c)
  {
    hide Reaches;
    if n == 0 {
      AskMany(cap, k, k, c);
    } else {
      SettleMany(cap, n - 1, k, c);
      SettleOne(Quiet(cap, 0, 0, 0), cap, cap - 1 + n - 1, k - n, cap - 1 + (n - 1) * c, c, k, c);
      assert (n - 1) * c + c == n * c;
    }
  }

  /** A gateway that has done nothing yet can end with its ledger exactly at the
      bound. */
  lemma OvershootIsReached(cap: nat, k: nat, c: nat)
    requires cap > 0 && k >= 1 && c >= 1
    ensures exists last :: Reaches(System(HEALTHY, 0, [], 0, cap), last, k, c) && last.ledger == cap - 1 + k * c
  {
    SettleMany(cap, k, k, c);
    assert Quiet(cap, 0, 0, 0) == System(HEALTHY, 0, [], 0, cap);
  }
}
