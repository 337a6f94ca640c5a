/**
  The etcd client pool: a buffered channel of idle clients and a channel of permits to open more.
  Callers of Get and Return interleave at every channel operation, so the pool is a transition
  system whose steps are those operations.
 */
module EtcdPool {
  import opened Common

  const RETRIES: nat := 3
  const MAX_CACHED: nat := 5
  const MAX_OPEN: nat := 10

  type Client = nat
  type Caller = nat
  type Endpoints = seq<string>

  /**
    Where a caller stands. The number counts the attempts of the loop in Get; `Trying` is the top
    of an attempt and `Starved` the wait for a permit after the idle channel was found empty.
   */
  datatype Position =
    | Idle
    | Trying(attempt: nat, desired: Endpoints)
    | Starved(attempt: nat, desired: Endpoints)
    | Creating(attempt: nat, desired: Endpoints)
    | Checking(attempt: nat, desired: Endpoints, client: Client)
    | ClosingUnhealthy(attempt: nat, desired: Endpoints, client: Client)
    | Leasing(desired: Endpoints, client: Client)
    | ClosingSurplus(client: Client)

  /** `endpoints` holds every client created so far with its configuration. */
  datatype Pool = Pool(
    permits: nat,
    idle: seq<Client>,
    callers: map<Caller, Position>,
    endpoints: map<Client, Endpoints>,
    healthy: set<Client>)

  // ---- the steps ----

  datatype Step =
    | Begin(desired: Endpoints)
    | EndpointsFail
    | TakeIdle
    | FindEmpty
    | AcquirePermit
    | AcquireTimeout
    | Create(client: Client, initial: Endpoints)
    | CreateFails
    | PassHealth
    | FailHealth
    | Close
    | GiveUp
    | Return

  /** The non-blocking send that hands a permit back; it is dropped when the channel is full. */
  function ReleasePermit(permits: nat): nat {
    if permits < MAX_OPEN then permits + 1 else permits
  }

  /** The endpoints a client has after the comparison up to order in Get. */
  function Configured(current: Endpoints, desired: Endpoints): Endpoints {
    if multiset(current) == multiset(desired) then current else desired
  }

  function At(pool: Pool, caller: Caller): Position {
    if caller in pool.callers then pool.callers[caller] else Idle
  }

  function Move(pool: Pool, caller: Caller, position: Position): Pool {
    pool.(callers := pool.callers[caller := position])
  }

  ghost predicate Next(before: Pool, caller: Caller, step: Step, after: Pool) {
    match (step, At(before, caller))
    case (Begin(desired), Idle) => after == Move(before, caller, Trying(0, desired))
    case (EndpointsFail, Idle) => after == before
    case (TakeIdle, Trying(attempt, desired)) =>
      attempt < RETRIES && before.idle != []
      && after == Move(before.(idle := before.idle[1..]), caller, Checking(attempt, desired, before.idle[0]))
    case (FindEmpty, Trying(attempt, desired)) =>
      attempt < RETRIES && before.idle == [] && after == Move(before, caller, Starved(attempt, desired))
    case (AcquirePermit, Starved(attempt, desired)) =>
      before.permits > 0
      && after == Move(before.(permits := before.permits - 1), caller, Creating(attempt, desired))
    case (AcquireTimeout, Starved(_, _)) => after == Move(before, caller, Idle)
    case (Create(client, initial), Creating(attempt, desired)) =>
      client !in before.endpoints
      && after == Move(before.(endpoints := before.endpoints[client := initial]), caller,
          Checking(attempt, desired, client))
    case (CreateFails, Creating(attempt, desired)) =>
      after == Move(before.(permits := ReleasePermit(before.permits)), caller, Trying(attempt + 1, desired))
    case (PassHealth, Checking(attempt, desired, client)) =>
      client in before.endpoints
      && after == Move(before.(endpoints := before.endpoints[client := Configured(before.endpoints[client], desired)],
                               healthy := before.healthy + {client}),
                       caller, Leasing(desired, client))
    case (FailHealth, Checking(attempt, desired, client)) =>
      client in before.endpoints
      && after == Move(before.(endpoints := before.endpoints[client := Configured(before.endpoints[client], desired)],
                               healthy := before.healthy - {client},
                               permits := ReleasePermit(before.permits)),
                       caller, ClosingUnhealthy(attempt, desired, client))
    case (Close, ClosingUnhealthy(attempt, desired, _)) => after == Move(before, caller, Trying(attempt + 1, desired))
    case (Close, ClosingSurplus(_)) => after == Move(before, caller, Idle)
    case (GiveUp, Trying(attempt, _)) => attempt >= RETRIES && after == Move(before, caller, Idle)
    case (Return, Leasing(_, client)) =>
      if |before.idle| < MAX_CACHED
      then after == Move(before.(idle := before.idle + [client], healthy := before.healthy - {client}), caller, Idle)
      else after == Move(before.(permits := ReleasePermit(before.permits), healthy := before.healthy - {client}),
                         caller, ClosingSurplus(client))
    case _ => false
  }

  /** A new pool: all permits, no client. The loop of the constructor fills the permit channel. */
  method NewPool() returns (pool: Pool)
    ensures Initial(pool)
  {
    var permits := 0;
    for i := 0 to MAX_OPEN
      invariant permits == i
    {
      permits := permits + 1;
    }
    pool := Pool(permits, [], map[], map[], {});
  }

  predicate Initial(pool: Pool) {
    pool == Pool(10, [], map[], map[], {})
  }

  // ---- counting ----

  /** The caller has used a permit or a client of the pool and not given it back. */
  predicate Occupies(position: Position) {
    position.Creating? || position.Checking? || position.Leasing?
  }

  function Occupants(pool: Pool): set<Caller> {
    set caller | caller in pool.callers && Occupies(pool.callers[caller])
  }

  predicate HasClient(position: Position) {
    position.Checking? || position.ClosingUnhealthy? || position.Leasing? || position.ClosingSurplus?
  }

  predicate Distinct(clients: seq<Client>) {
    forall i, j :: 0 <= i < j < |clients| ==> clients[i] != clients[j]
  }

  ghost predicate Invariant(pool: Pool) {
    && pool.permits + |pool.idle| + |Occupants(pool)| == 10
    && |pool.idle| <= 5
    && Exclusive(pool)
    && Leased(pool)
  }

  /** No client is in two places: idle twice, with two callers, or idle and with a caller. */
  ghost predicate Exclusive(pool: Pool) {
    && Distinct(pool.idle)
    && (forall client :: client in pool.idle ==> client in pool.endpoints)
    && (forall a :: a in pool.callers && HasClient(pool.callers[a]) ==>
          pool.callers[a].client in pool.endpoints && pool.callers[a].client !in pool.idle)
    && (forall a, b :: a in pool.callers && b in pool.callers && a != b
          && HasClient(pool.callers[a]) && HasClient(pool.callers[b])
          ==> pool.callers[a].client != pool.callers[b].client)
  }

  /** Every client handed out passed its health check with the endpoints the caller asked for. */
  ghost predicate Leased(pool: Pool) {
    forall a :: a in pool.callers && pool.callers[a].Leasing? ==>
      var client := pool.callers[a].client;
      client in pool.healthy && client in pool.endpoints
      && multiset(pool.endpoints[client]) == multiset(pool.callers[a].desired)
  }

  lemma OccupantsAfterMove(pool: Pool, caller: Caller, position: Position)
    ensures Occupants(Move(pool, caller, position))
         == if Occupies(position) then Occupants(pool) + {caller} else Occupants(pool) - {caller}
    ensures caller in Occupants(pool) <==> Occupies(At(pool, caller))
  {
  }

  lemma OccupantCountAfterMove(pool: Pool, caller: Caller, position: Position)
    ensures |Occupants(Move(pool, caller, position))|
         == |Occupants(pool)| + (if Occupies(position) then 1 else 0) - (if Occupies(At(pool, caller)) then 1 else 0)
  {
    OccupantsAfterMove(pool, caller, position);
    var before := Occupants(pool);
    if caller in before {
      assert before + {caller} == before;
    } else {
      assert before - {caller} == before;
    }
  }

  /** Only the callers decide who occupies the pool. */
  lemma OccupantsReadCallers(a: Pool, b: Pool)
    requires a.callers == b.callers
    ensures Occupants(a) == Occupants(b)
  {
  }

  /** The books balance after every step, and a permit handed back always finds room. */
  lemma CountKept(before: Pool, caller: Caller, step: Step, after: Pool)
    requires Invariant(before) && Next(before, caller, step, after)
    ensures after.permits + |after.idle| + |Occupants(after)| == 10
    ensures |after.idle| <= 5
    ensures step.CreateFails? || step.FailHealth? || (step.Return? && |before.idle| == 5)
            ==> after.permits == before.permits + 1
  {
    if step != EndpointsFail {
      var moved := Move(before, caller, after.callers[caller]);
      OccupantCountAfterMove(before, caller, after.callers[caller]);
      OccupantsReadCallers(moved, after);
      if Occupies(At(before, caller)) {
        OccupantsAfterMove(before, caller, after.callers[caller]);
        assert |Occupants(before)| >= 1;
      }
    }
  }

  /** Moving a caller keeps clients apart if its new client, if any, is its own old one or nobody's. */
  lemma MoveKeepsExclusive(pool: Pool, caller: Caller, position: Position)
    requires Exclusive(pool)
    requires HasClient(position) ==>
               position.client in pool.endpoints && position.client !in pool.idle
    requires HasClient(position) ==>
               forall other :: other in pool.callers && other != caller && HasClient(pool.callers[other])
                 ==> pool.callers[other].client != position.client
    ensures Exclusive(Move(pool, caller, position))
  {
  }

  lemma TakeKeepsExclusive(before: Pool, caller: Caller, after: Pool)
    requires Exclusive(before) && Next(before, caller, TakeIdle, after)
    ensures Exclusive(after)
  {
    var client := before.idle[0];
    var taken := before.(idle := before.idle[1..]);
    assert before.idle == [client] + taken.idle;
    MoveKeepsExclusive(taken, caller, after.callers[caller]);
  }

  lemma ReturnKeepsExclusive(before: Pool, caller: Caller, after: Pool)
    requires Exclusive(before) && Next(before, caller, Return, after)
    ensures Exclusive(after)
  {
    var client := At(before, caller).client;
    if |before.idle| < MAX_CACHED {
      MoveKeepsExclusive(before, caller, Idle);
      assert forall other :: other in before.idle + [client] <==> other in before.idle || other == client;
    } else {
      MoveKeepsExclusive(before, caller, ClosingSurplus(client));
    }
  }

  lemma CreateKeepsExclusive(before: Pool, caller: Caller, step: Step, after: Pool)
    requires Exclusive(before) && step.Create? && Next(before, caller, step, after)
    ensures Exclusive(after)
  {
    var created := before.(endpoints := before.endpoints[step.client := step.initial]);
    assert Exclusive(created);
    MoveKeepsExclusive(created, caller, after.callers[caller]);
  }

  lemma ExclusiveKept(before: Pool, caller: Caller, step: Step, after: Pool)
    requires Exclusive(before) && Next(before, caller, step, after)
    ensures Exclusive(after)
  {
    match step
    case TakeIdle => TakeKeepsExclusive(before, caller, after);
    case Return => ReturnKeepsExclusive(before, caller, after);
    case Create(_, _) => CreateKeepsExclusive(before, caller, step, after);
    case EndpointsFail =>
    case _ => MoveKeepsExclusive(before, caller, after.callers[caller]);
  }

  lemma LeasedKept(before: Pool, caller: Caller, step: Step, after: Pool)
    requires Invariant(before) && Next(before, caller, step, after)
    ensures Leased(after)
  {
  }

  ghost predicate IsRun(pools: seq<Pool>, callers: seq<Caller>, steps: seq<Step>) {
    && |steps| == |callers| && |pools| == |steps| + 1
    && Initial(pools[0])
    && forall i {:trigger steps[i]} :: 0 <= i < |steps| ==> Next(pools[i], callers[i], steps[i], pools[i + 1])
  }

  /**
    For every interleaving: permits, idle clients and callers holding either add up to ten, no
    client is held twice, and every leased client is healthy with the endpoints asked for.
   */
  lemma {:induction false} RunKeepsInvariant(pools: seq<Pool>, callers: seq<Caller>, steps: seq<Step>, i: nat)
    requires IsRun(pools, callers, steps) && i < |pools|
    ensures Invariant(pools[i])
  {
    if i == 0 {
    } else {
      RunKeepsInvariant(pools, callers, steps, i - 1);
      assert Next(pools[i - 1], callers[i - 1], steps[i - 1], pools[i]);
      CountKept(pools[i - 1], callers[i - 1], steps[i - 1], pools[i]);
      ExclusiveKept(pools[i - 1], callers[i - 1], steps[i - 1], pools[i]);
      LeasedKept(pools[i - 1], callers[i - 1], steps[i - 1], pools[i]);
    }
  }

  /** No path leaks: with every caller idle again, each permit is back or stands for an idle client. */
  lemma NothingLeaks(pools: seq<Pool>, callers: seq<Caller>, steps: seq<Step>, i: nat)
    requires IsRun(pools, callers, steps) && i < |pools|
    requires forall caller :: caller in pools[i].callers ==> pools[i].callers[caller].Idle?
    ensures pools[i].permits + |pools[i].idle| == 10
  {
    RunKeepsInvariant(pools, callers, steps, i);
    assert Occupants(pools[i]) == {};
  }

  function WithClient(pool: Pool): set<Caller> {
    set caller | caller in pool.callers && HasClient(pool.callers[caller])
  }

  function Closing(pool: Pool): set<Caller> {
    set caller | caller in pool.callers
                 && (pool.callers[caller].ClosingUnhealthy? || pool.callers[caller].ClosingSurplus?)
  }

  /**
    The permit is handed back before the client is closed, so the clients open at one time are
    bounded by ten plus the clients being closed, not by ten.
   */
  lemma OpenClientsBound(pools: seq<Pool>, callers: seq<Caller>, steps: seq<Step>, i: nat)
    requires IsRun(pools, callers, steps) && i < |pools|
    ensures |pools[i].idle| + |WithClient(pools[i])| <= 10 + |Closing(pools[i])|
  {
    RunKeepsInvariant(pools, callers, steps, i);
    var pool := pools[i];
    assert WithClient(pool) <= Occupants(pool) + Closing(pool);
    assert Occupants(pool) * Closing(pool) == {};
    assert |Occupants(pool) + Closing(pool)| == |Occupants(pool)| + |Closing(pool)|;
    SubsetSize(WithClient(pool), Occupants(pool) + Closing(pool));
  }

  /** A permit is never dropped, and at most ten callers ever hold a permit or a client. */
  lemma PermitsNeverDropped(pools: seq<Pool>, callers: seq<Caller>, steps: seq<Step>, i: nat)
    requires IsRun(pools, callers, steps) && i < |steps|
    ensures steps[i].CreateFails? || steps[i].FailHealth? || (steps[i].Return? && |pools[i].idle| == 5)
            ==> pools[i].permits < 10 && pools[i + 1].permits == pools[i].permits + 1
    ensures |Occupants(pools[i])| <= 10
  {
    RunKeepsInvariant(pools, callers, steps, i);
    assert Next(pools[i], callers[i], steps[i], pools[i + 1]);
    CountKept(pools[i], callers[i], steps[i], pools[i + 1]);
  }

  // ---- a lease ends with its client's health ----

  predicate IsLeased(pool: Pool, client: Client) {
    exists caller :: caller in pool.callers && pool.callers[caller].Leasing? && pool.callers[caller].client == client
  }

  /** A client counts as healthy only while it is leased, so every lease begins with a check of its own. */
  ghost predicate HealthIsLeased(pool: Pool) {
    forall client :: client in pool.healthy ==> IsLeased(pool, client)
  }

  lemma HealthIsLeasedKept(before: Pool, caller: Caller, step: Step, after: Pool)
    requires Exclusive(before) && HealthIsLeased(before) && Next(before, caller, step, after)
    ensures HealthIsLeased(after)
  {
    forall client | client in after.healthy
      ensures IsLeased(after, client)
    {
      if client in before.healthy {
        var other :|
          other in before.callers && before.callers[other].Leasing? && before.callers[other].client == client;
        if other != caller {
          assert other in after.callers && after.callers[other] == before.callers[other];
        }
      } else {
        assert caller in after.callers && after.callers[caller].Leasing?;
      }
    }
  }

  lemma {:induction false} CheckedAtEveryLease(pools: seq<Pool>, callers: seq<Caller>, steps: seq<Step>, i: nat)
    requires IsRun(pools, callers, steps) && i < |pools|
    ensures HealthIsLeased(pools[i])
  {
    if i == 0 {
    } else {
      CheckedAtEveryLease(pools, callers, steps, i - 1);
      RunKeepsInvariant(pools, callers, steps, i - 1);
      assert Next(pools[i - 1], callers[i - 1], steps[i - 1], pools[i]);
      HealthIsLeasedKept(pools[i - 1], callers[i - 1], steps[i - 1], pools[i]);
    }
  }

  // ---- attempts ----

  /** Three attempts at most: a fourth is never begun. */
  ghost predicate AttemptsBounded(pool: Pool) {
    forall caller :: caller in pool.callers ==>
      match pool.callers[caller]
      case Trying(attempt, _) => attempt <= 3
      case Starved(attempt, _) => attempt < 3
      case Creating(attempt, _) => attempt < 3
      case Checking(attempt, _, _) => attempt < 3
      case ClosingUnhealthy(attempt, _, _) => attempt < 3
      case _ => true
  }

  lemma {:induction false} AtMostThreeAttempts(pools: seq<Pool>, callers: seq<Caller>, steps: seq<Step>, i: nat)
    requires IsRun(pools, callers, steps) && i < |pools|
    ensures AttemptsBounded(pools[i])
  {
    if i == 0 {
    } else {
      AtMostThreeAttempts(pools, callers, steps, i - 1);
      assert Next(pools[i - 1], callers[i - 1], steps[i - 1], pools[i]);
    }
  }

  /** The step that fails an attempt: no client could be created, or an unhealthy one has been closed. */
  predicate FailsAttempt(pool: Pool, caller: Caller, step: Step) {
    step.CreateFails? || (step.Close? && At(pool, caller).ClosingUnhealthy?)
  }

  /** The failed attempts of the caller from step i up to step j. */
  function FailedAttempts(
      pools: seq<Pool>, callers: seq<Caller>, steps: seq<Step>, i: nat, j: nat, caller: Caller): nat
    requires |steps| == |callers| && |pools| == |steps| + 1 && j <= |steps|
  {
    if j <= i then 0
    else FailedAttempts(pools, callers, steps, i, j - 1, caller)
         + if callers[j - 1] == caller && FailsAttempt(pools[j - 1], caller, steps[j - 1]) then 1 else 0
  }

  predicate IsInside(position: Position) {
    !position.Idle? && !position.Leasing? && !position.ClosingSurplus?
  }

  /** Inside one call from step i on. */
  ghost predicate InOneCall(pools: seq<Pool>, callers: seq<Caller>, steps: seq<Step>, i: nat, j: nat, caller: Caller)
    requires IsRun(pools, callers, steps) && i < j < |pools|
  {
    && callers[i] == caller && steps[i].Begin?
    && forall k :: i < k <= j ==> IsInside(At(pools[k], caller))
  }

  /** A caller's count is that of the attempts that have failed since its call began. */
  lemma {:induction false} AttemptsAreFailures(
      pools: seq<Pool>, callers: seq<Caller>, steps: seq<Step>, i: nat, j: nat, caller: Caller)
    requires IsRun(pools, callers, steps) && i < j < |pools| && InOneCall(pools, callers, steps, i, j, caller)
    ensures At(pools[j], caller).attempt == FailedAttempts(pools, callers, steps, i, j, caller)
  {
    assert Next(pools[j - 1], callers[j - 1], steps[j - 1], pools[j]);
    if j == i + 1 {
    } else {
      AttemptsAreFailures(pools, callers, steps, i, j - 1, caller);
      assert IsInside(At(pools[j - 1], caller)) && IsInside(At(pools[j], caller));
    }
  }

  /** A call gives up exactly after three failed attempts. */
  lemma GivesUpAfterThree(
      pools: seq<Pool>, callers: seq<Caller>, steps: seq<Step>, i: nat, j: nat, caller: Caller)
    requires IsRun(pools, callers, steps) && i < j < |steps| && InOneCall(pools, callers, steps, i, j, caller)
    requires callers[j] == caller && steps[j].GiveUp?
    ensures FailedAttempts(pools, callers, steps, i, j, caller) == 3
  {
    AttemptsAreFailures(pools, callers, steps, i, j, caller);
    AtMostThreeAttempts(pools, callers, steps, j);
    assert Next(pools[j], callers[j], steps[j], pools[j + 1]);
  }

  // ---- nobody is stuck ----

  /** A step the caller can take; a health check or a creation may turn out either way. */
  function NextStep(pool: Pool, caller: Caller): Step {
    match At(pool, caller)
    case Idle => EndpointsFail
    case Trying(attempt, _) => if attempt >= 3 then GiveUp else if pool.idle == [] then FindEmpty else TakeIdle
    case Starved(_, _) => if pool.permits > 0 then AcquirePermit else AcquireTimeout
    case Creating(_, _) => CreateFails
    case Checking(_, _, _) => PassHealth
    case ClosingUnhealthy(_, _, _) => Close
    case Leasing(_, _) => Return
    case ClosingSurplus(_) => Close
  }

  /** In every run each caller can always take a step, and one that waits for a permit gets it if there is one. */
  lemma NeverStuck(pools: seq<Pool>, callers: seq<Caller>, steps: seq<Step>, i: nat, caller: Caller)
    returns (after: Pool)
    requires IsRun(pools, callers, steps) && i < |pools|
    ensures Next(pools[i], caller, NextStep(pools[i], caller), after)
  {
    RunKeepsInvariant(pools, callers, steps, i);
    AtMostThreeAttempts(pools, callers, steps, i);
    var pool := pools[i];
    match At(pool, caller)
    case Idle => after := pool;
    case Trying(attempt, desired) =>
      after := if attempt >= 3 then Move(pool, caller, Idle)
               else if pool.idle == [] then Move(pool, caller, Starved(attempt, desired))
               else Move(pool.(idle := pool.idle[1..]), caller, Checking(attempt, desired, pool.idle[0]));
    case Starved(attempt, desired) =>
      after := if pool.permits > 0 then Move(pool.(permits := pool.permits - 1), caller, Creating(attempt, desired))
               else Move(pool, caller, Idle);
    case Creating(attempt, desired) =>
      after := Move(pool.(permits := ReleasePermit(pool.permits)), caller, Trying(attempt + 1, desired));
    case Checking(attempt, desired, client) =>
      after := Move(pool.(endpoints := pool.endpoints[client := Configured(pool.endpoints[client], desired)],
                          healthy := pool.healthy + {client}),
                    caller, Leasing(desired, client));
    case ClosingUnhealthy(attempt, desired, _) => after := Move(pool, caller, Trying(attempt + 1, desired));
    case Leasing(_, client) =>
      after := if |pool.idle| < 5
               then Move(pool.(idle := pool.idle + [client], healthy := pool.healthy - {client}), caller, Idle)
               else Move(pool.(permits := ReleasePermit(pool.permits), healthy := pool.healthy - {client}), caller,
                         ClosingSurplus(client));
    case ClosingSurplus(_) => after := Move(pool, caller, Idle);
  }

  // ---- an eleventh open client ----

  lemma ExtendRun(pools: seq<Pool>, callers: seq<Caller>, steps: seq<Step>, caller: Caller, step: Step, after: Pool)
    requires IsRun(pools, callers, steps) && Next(pools[|steps|], caller, step, after)
    ensures IsRun(pools + [after], callers + [caller], steps + [step])
  {
    var longer, who, more := pools + [after], callers + [caller], steps + [step];
    forall i {:trigger more[i]} | 0 <= i < |more|
      ensures Next(longer[i], who[i], more[i], longer[i + 1])
    {
      if i < |steps| {
        assert more[i] == steps[i];
      }
    }
  }

  /** The first n callers have a client each, and the first of them has handed back its permit. */
  ghost predicate Crowded(pool: Pool, n: nat) {
    && pool.permits + n == 11 && pool.idle == []
    && (forall c :: c in pool.callers <==> 0 <= c < n)
    && (forall c :: c in pool.callers ==> HasClient(pool.callers[c]))
    && (forall client :: client in pool.endpoints <==> 0 <= client < n)
  }

  /** A new caller gets as far as a client of its own. */
  lemma Arrive(pools: seq<Pool>, callers: seq<Caller>, steps: seq<Step>, caller: Caller)
    returns (longer: seq<Pool>, who: seq<Caller>, more: seq<Step>)
    requires IsRun(pools, callers, steps)
    requires var pool := pools[|steps|];
             caller !in pool.callers && pool.permits > 0 && pool.idle == [] && caller !in pool.endpoints
    ensures IsRun(longer, who, more)
    ensures var pool := pools[|steps|];
            longer[|more|] == pool.(permits := pool.permits - 1, endpoints := pool.endpoints[caller := []],
                                    callers := pool.callers[caller := Checking(0, [], caller)])
  {
    longer, who, more := pools, callers, steps;
    var pool := pools[|steps|];
    var next := Move(pool, caller, Trying(0, []));
    ExtendRun(longer, who, more, caller, Begin([]), next);
    longer, who, more := longer + [next], who + [caller], more + [Begin([])];
    pool, next := next, Move(next, caller, Starved(0, []));
    ExtendRun(longer, who, more, caller, FindEmpty, next);
    longer, who, more := longer + [next], who + [caller], more + [FindEmpty];
    pool, next := next, Move(next.(permits := next.permits - 1), caller, Creating(0, []));
    ExtendRun(longer, who, more, caller, AcquirePermit, next);
    longer, who, more := longer + [next], who + [caller], more + [AcquirePermit];
    pool, next := next, Move(next.(endpoints := next.endpoints[caller := []]), caller, Checking(0, [], caller));
    ExtendRun(longer, who, more, caller, Create(caller, []), next);
    longer, who, more := longer + [next], who + [caller], more + [Create(caller, [])];
  }

  lemma {:induction false} Crowd(n: nat) returns (pools: seq<Pool>, callers: seq<Caller>, steps: seq<Step>)
    requires 1 <= n <= 11
    ensures IsRun(pools, callers, steps) && Crowded(pools[|steps|], n)
  {
    if n == 1 {
      var empty := Pool(10, [], map[], map[], {});
      pools, callers, steps := Arrive([empty], [], [], 0);
      var pool := pools[|steps|];
      var after := Move(pool.(endpoints := pool.endpoints[0 := []], healthy := pool.healthy - {0},
          permits := ReleasePermit(pool.permits)),
                        0, ClosingUnhealthy(0, [], 0));
      ExtendRun(pools, callers, steps, 0, FailHealth, after);
      pools, callers, steps := pools + [after], callers + [0], steps + [FailHealth];
    } else {
      pools, callers, steps := Crowd(n - 1);
      pools, callers, steps := Arrive(pools, callers, steps, n - 1);
    }
  }

  function FirstCallers(n: nat): (s: set<Caller>)
    ensures |s| == n && forall c :: c in s <==> 0 <= c < n
  {
    if n == 0 then {} else FirstCallers(n - 1) + {n - 1}
  }

  /** While an unhealthy client is being closed, ten more can be open. */
  lemma ElevenOpen() returns (pools: seq<Pool>, callers: seq<Caller>, steps: seq<Step>)
    ensures IsRun(pools, callers, steps)
    ensures |pools[|steps|].idle| + |WithClient(pools[|steps|])| == 11
  {
    pools, callers, steps := Crowd(11);
    assert WithClient(pools[|steps|]) == FirstCallers(11);
  }
}
