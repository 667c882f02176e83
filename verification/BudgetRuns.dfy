/** The Claude budget gate under concurrency: every load, add and store of a counter is one step.

    A request takes the window lock, loads the global counter, loads its tenant's counter, is
    answered by the model, and then adds its tokens to the global and to the tenant counter.  */
module BudgetRuns {
  import opened Outcomes
  import opened Records
  import opened Sums
  import opened Budget

  type RequestId = nat

  datatype Phase =
    | Waiting
    | Entered
    | SawGlobal
    | Admitted
    | Refused
    | Charged(tokens: nat)
    | Done

  datatype Request = Request(tenant: string, phase: Phase)

  // A reset in progress: who holds the window lock, and which counters are still to be zeroed.
  datatype Reset = Reset(holder: RequestId, pending: set<string>)

  datatype Gate = Gate(
    globalLimit: nat,
    perTenantLimit: nat,
    globalUsed: nat,
    tenantUsed: map<string, nat>,
    requests: map<RequestId, Request>,
    reset: Option<Reset>)

  datatype Action =
    | Arrive(r: RequestId, tenant: string)
    | Enter(r: RequestId)
    | BeginReset(r: RequestId)
    | ZeroTenant(tenant: string)
    | EndReset
    | LoadGlobal(r: RequestId)
    | LoadTenant(r: RequestId)
    | AddGlobal(r: RequestId, tokens: nat)
    | AddTenant(r: RequestId)

  predicate At(g: Gate, r: RequestId, phase: Phase) {
    r in g.requests && g.requests[r].phase == phase
  }

  function Move(g: Gate, r: RequestId, phase: Phase): Gate
    requires r in g.requests
  {
    g.(requests := g.requests[r := g.requests[r].(phase := phase)])
  }

  predicate TenantHasCapacity(g: Gate, tenant: string) {
    tenant in g.tenantUsed ==> g.tenantUsed[tenant] < g.perTenantLimit
  }

  function Step(g: Gate, a: Action): Gate {
    match a
    case Arrive(r, tenant) =>
      if r in g.requests then g else g.(requests := g.requests[r := Request(tenant, Waiting)])
    // The lock is free and the window is not over.
    case Enter(r) =>
      if At(g, r, Waiting) && g.reset.None? then Move(g, r, Entered) else g
    // The lock is free and the window is over: the global counter goes first.
    case BeginReset(r) =>
      if At(g, r, Waiting) && g.reset.None? then
        g.(globalUsed := 0, reset := Some(Reset(r, g.tenantUsed.Keys)))
      else g
    // The loop may also meet a counter inserted since it began; meeting one twice is allowed here too.
    case ZeroTenant(tenant) =>
      if g.reset.Some? && tenant in g.tenantUsed then
        g.(tenantUsed := g.tenantUsed[tenant := 0],
           reset := Some(g.reset.value.(pending := g.reset.value.pending - {tenant})))
      else g
    case EndReset =>
      if g.reset.Some? && g.reset.value.pending == {} && At(g, g.reset.value.holder, Waiting) then
        Move(g, g.reset.value.holder, Entered).(reset := None)
      else g
    case LoadGlobal(r) =>
      if At(g, r, Entered) then Move(g, r, if g.globalUsed < g.globalLimit then SawGlobal else Refused) else g
    case LoadTenant(r) =>
      if At(g, r, SawGlobal) then
        Move(g, r, if TenantHasCapacity(g, g.requests[r].tenant) then Admitted else Refused)
      else g
    case AddGlobal(r, tokens) =>
      if At(g, r, Admitted) then Move(g, r, Charged(tokens)).(globalUsed := Wrap(g.globalUsed + tokens)) else g
    case AddTenant(r) =>
      if r in g.requests && g.requests[r].phase.Charged? then
        var tenant := g.requests[r].tenant;
        Move(g, r, Done).(tenantUsed :=
          g.tenantUsed[tenant := Wrap(Used(g.tenantUsed, tenant) + g.requests[r].phase.tokens)])
      else g
  }

  function Run(g: Gate, actions: seq<Action>): Gate
    decreases |actions|
  {
    if actions == [] then g else Run(Step(g, actions[0]), actions[1..])
  }

  ghost predicate Fresh(g: Gate) {
    g.globalUsed == 0 && g.tenantUsed == map[] && g.requests == map[] && g.reset.None?
  }

  /******* Whole calls *******/

  // has_capacity with nothing in between, in a window that is not over.
  lemma WholeCheck(g: Gate, r: RequestId)
    requires At(g, r, Waiting) && g.reset.None?
    ensures var d := Run(g, [Enter(r), LoadGlobal(r), LoadTenant(r)]);
            && d == Move(g, r, if At(d, r, Admitted) then Admitted else Refused)
            && (At(d, r, Admitted) <==>
                  g.globalUsed < g.globalLimit
                  && (g.requests[r].tenant in g.tenantUsed ==> g.tenantUsed[g.requests[r].tenant] < g.perTenantLimit))
  {
    var actions := [Enter(r), LoadGlobal(r), LoadTenant(r)];
    var g1 := Step(g, Enter(r));
    var g2 := Step(g1, LoadGlobal(r));
    var d := Step(g2, LoadTenant(r));
    assert actions[1..][1..] == [LoadTenant(r)] && actions[1..][1..][1..] == [];
    assert Run(g, actions) == Run(g1, actions[1..]) == Run(g2, [LoadTenant(r)]) == Run(d, []);
    assert d == Move(g, r, d.requests[r].phase);
  }

  // record_usage with nothing in between.
  lemma WholeRecord(g: Gate, r: RequestId, tokens: nat)
    requires At(g, r, Admitted)
    ensures var tenant := g.requests[r].tenant;
            Run(g, [AddGlobal(r, tokens), AddTenant(r)]) ==
            Move(g, r, Done).(globalUsed := Wrap(g.globalUsed + tokens),
                              tenantUsed := g.tenantUsed[tenant := Wrap(Used(g.tenantUsed, tenant) + tokens)])
  {
    var actions := [AddGlobal(r, tokens), AddTenant(r)];
    var g1 := Step(g, AddGlobal(r, tokens));
    var d := Step(g1, AddTenant(r));
    assert actions[1..] == [AddTenant(r)] && actions[1..][1..] == [];
    assert Run(g, actions) == Run(g1, [AddTenant(r)]) == Run(d, []);
    assert d.requests == Move(g, r, Done).requests;
  }

  // The window lock: while a reset is going on no waiting request gets in.
  lemma {:induction false} ResetKeepsOthersOut(g: Gate, actions: seq<Action>)
    requires g.reset.Some? && forall i | 0 <= i < |actions| :: !actions[i].EndReset?
    ensures Run(g, actions).reset.Some? && Run(g, actions).reset.value.holder == g.reset.value.holder
    ensures forall r | r in g.requests :: At(g, r, Waiting) ==> At(Run(g, actions), r, Waiting)
    decreases |actions|
  {
    if actions != [] {
      var d := Step(g, actions[0]);
      assert d.reset.Some? && d.reset.value.holder == g.reset.value.holder;
      assert forall r | r in g.requests :: At(g, r, Waiting) ==> At(d, r, Waiting);
      ResetKeepsOthersOut(d, actions[1..]);
    }
  }

  /******* Counting requests *******/

  // Between the load that showed global capacity and the global add.
  const Flying: Request -> nat :=
    (q: Request) => if q.phase == SawGlobal || q.phase == Admitted then 1 else 0

  // Between has_capacity answering yes and record_usage.
  const OnlyAdmitted: Request -> nat :=
    (q: Request) => if q.phase == Admitted then 1 else 0

  // Between the load that showed this tenant's capacity and this tenant's add.
  function FlyingFor(tenant: string): Request -> nat {
    (q: Request) => if q.tenant == tenant && (q.phase == Admitted || q.phase.Charged?) then 1 else 0
  }

  // At most n requests are counted at any time, and each records at most m tokens.
  ghost predicate Bounded(g: Gate, actions: seq<Action>, weight: Request -> nat, n: nat, m: nat)
    decreases |actions|
  {
    && Total(g.requests, weight) <= n
    && (actions != [] ==>
          && (actions[0].AddGlobal? ==> actions[0].tokens <= m)
          && Bounded(Step(g, actions[0]), actions[1..], weight, n, m))
  }

  // The highest counter value that still shows capacity.
  function Cap(limit: nat): nat {
    if limit == 0 then 0 else limit - 1
  }

  /******* Bounded overshoot *******/

  lemma MoveTotal(g: Gate, r: RequestId, phase: Phase, weight: Request -> nat)
    requires r in g.requests
    ensures Total(Move(g, r, phase).requests, weight) ==
            Total(g.requests, weight) - weight(g.requests[r]) + weight(g.requests[r].(phase := phase))
  {
    TotalUpdate(g.requests, r, g.requests[r].(phase := phase), weight);
  }

  lemma TimesMonotone(k: nat, n: nat, m: nat)
    requires k <= n
    ensures m * k <= n * m
  {
  }

  lemma TimesLess(k: nat, m: nat)
    requires k > 0
    ensures m * (k - 1) == m * k - m
  {
  }

  // How a step changes the number of requests in flight.
  lemma StepFlying(g: Gate, a: Action)
    ensures var k, k' := Total(g.requests, Flying), Total(Step(g, a).requests, Flying);
            && (k' > k ==> a.LoadGlobal? && g.globalUsed < g.globalLimit)
            && (a.AddGlobal? && At(g, a.r, Admitted) ==> k' == k - 1)
  {
    var d := Step(g, a);
    match a
    case Arrive(r, tenant) => TotalUpdate(g.requests, r, Request(tenant, Waiting), Flying);
    case EndReset => if d != g { MoveTotal(g, g.reset.value.holder, Entered, Flying); }
    case BeginReset(_) =>
    case ZeroTenant(_) =>
    case Enter(r) => if d != g { MoveTotal(g, r, d.requests[r].phase, Flying); }
    case LoadGlobal(r) => if d != g { MoveTotal(g, r, d.requests[r].phase, Flying); }
    case LoadTenant(r) => if d != g { MoveTotal(g, r, d.requests[r].phase, Flying); }
    case AddGlobal(r, tokens) => if d != g { MoveTotal(g, r, d.requests[r].phase, Flying); }
    case AddTenant(r) => if d != g { MoveTotal(g, r, d.requests[r].phase, Flying); }
  }

  lemma StepKeepsGlobalBound(g: Gate, a: Action, n: nat, m: nat)
    requires Total(g.requests, Flying) <= n && Total(Step(g, a).requests, Flying) <= n
    requires a.AddGlobal? ==> a.tokens <= m
    requires Cap(g.globalLimit) + n * m < U64_LIMIT
    requires g.globalUsed + m * Total(g.requests, Flying) <= Cap(g.globalLimit) + n * m
    ensures var d := Step(g, a);
            d.globalLimit == g.globalLimit && d.globalUsed + m * Total(d.requests, Flying) <= Cap(g.globalLimit) + n * m
  {
    var d := Step(g, a);
    var k, k' := Total(g.requests, Flying), Total(d.requests, Flying);
    StepFlying(g, a);
    TimesMonotone(k', n, m);
    if a.AddGlobal? && At(g, a.r, Admitted) {
      TimesLess(k, m);
    } else if k' <= k {
      TimesMonotone(k', k, m);
      assert d.globalUsed <= g.globalUsed;
    }
  }

  // In every interleaving, across window resets, and with the add wrapping at 64 bits: if at most
  // n requests are ever in flight and each records at most m tokens, the counter exceeds the last
  // value that showed capacity by at most n * m.
  lemma {:induction false} GlobalOvershoot(g: Gate, actions: seq<Action>, n: nat, m: nat)
    requires Bounded(g, actions, Flying, n, m)
    requires Cap(g.globalLimit) + n * m < U64_LIMIT
    requires g.globalUsed + m * Total(g.requests, Flying) <= Cap(g.globalLimit) + n * m
    ensures Run(g, actions).globalUsed <= Cap(g.globalLimit) + n * m
    decreases |actions|
  {
    if actions != [] {
      StepKeepsGlobalBound(g, actions[0], n, m);
      GlobalOvershoot(Step(g, actions[0]), actions[1..], n, m);
    }
  }

  lemma FreshGlobalOvershoot(g: Gate, actions: seq<Action>, n: nat, m: nat)
    requires Fresh(g) && Bounded(g, actions, Flying, n, m) && Cap(g.globalLimit) + n * m < U64_LIMIT
    ensures Run(g, actions).globalUsed <= Cap(g.globalLimit) + n * m
  {
    SumOfZeros(map r | r in g.requests :: Flying(g.requests[r]));
    GlobalOvershoot(g, actions, n, m);
  }

  /******* Per tenant *******/

  ghost predicate ChargesAtMost(g: Gate, m: nat) {
    forall r :: r in g.requests && g.requests[r].phase.Charged? ==> g.requests[r].phase.tokens <= m
  }

  lemma StepFlyingFor(g: Gate, a: Action, t: string)
    ensures var w := FlyingFor(t);
            var k, k' := Total(g.requests, w), Total(Step(g, a).requests, w);
            && (k' > k ==> a.LoadTenant? && Used(g.tenantUsed, t) <= Cap(g.perTenantLimit))
            && (a.AddTenant? && a.r in g.requests && g.requests[a.r].phase.Charged? && g.requests[a.r].tenant == t ==>
                  k' == k - 1)
  {
    var d := Step(g, a);
    var w := FlyingFor(t);
    match a
    case Arrive(r, tenant) => TotalUpdate(g.requests, r, Request(tenant, Waiting), w);
    case EndReset => if d != g { MoveTotal(g, g.reset.value.holder, Entered, w); }
    case BeginReset(_) =>
    case ZeroTenant(_) =>
    case Enter(r) => if d != g { MoveTotal(g, r, d.requests[r].phase, w); }
    case LoadGlobal(r) => if d != g { MoveTotal(g, r, d.requests[r].phase, w); }
    case LoadTenant(r) => if d != g { MoveTotal(g, r, d.requests[r].phase, w); }
    case AddGlobal(r, tokens) => if d != g { MoveTotal(g, r, d.requests[r].phase, w); }
    case AddTenant(r) => if d != g { MoveTotal(g, r, d.requests[r].phase, w); }
  }

  lemma StepKeepsTenantBound(g: Gate, a: Action, t: string, n: nat, m: nat)
    requires Total(Step(g, a).requests, FlyingFor(t)) <= n
    requires a.AddGlobal? ==> a.tokens <= m
    requires ChargesAtMost(g, m) && Cap(g.perTenantLimit) + n * m < U64_LIMIT
    requires Used(g.tenantUsed, t) + m * Total(g.requests, FlyingFor(t)) <= Cap(g.perTenantLimit) + n * m
    ensures var d := Step(g, a);
            && d.perTenantLimit == g.perTenantLimit && ChargesAtMost(d, m)
            && Used(d.tenantUsed, t) + m * Total(d.requests, FlyingFor(t)) <= Cap(g.perTenantLimit) + n * m
  {
    var d := Step(g, a);
    var k, k' := Total(g.requests, FlyingFor(t)), Total(d.requests, FlyingFor(t));
    StepFlyingFor(g, a, t);
    TimesMonotone(k', n, m);
    if a.AddTenant? && a.r in g.requests && g.requests[a.r].phase.Charged? && g.requests[a.r].tenant == t {
      TimesLess(k, m);
    } else if k' <= k {
      TimesMonotone(k', k, m);
      assert Used(d.tenantUsed, t) <= Used(g.tenantUsed, t);
    }
  }

  // The same bound for one tenant, counting that tenant's requests from tenant load to tenant add.
  lemma {:induction false} TenantOvershoot(g: Gate, actions: seq<Action>, t: string, n: nat, m: nat)
    requires Bounded(g, actions, FlyingFor(t), n, m)
    requires ChargesAtMost(g, m) && Cap(g.perTenantLimit) + n * m < U64_LIMIT
    requires Used(g.tenantUsed, t) + m * Total(g.requests, FlyingFor(t)) <= Cap(g.perTenantLimit) + n * m
    ensures Used(Run(g, actions).tenantUsed, t) <= Cap(g.perTenantLimit) + n * m
    decreases |actions|
  {
    if actions != [] {
      StepKeepsTenantBound(g, actions[0], t, n, m);
      TenantOvershoot(Step(g, actions[0]), actions[1..], t, n, m);
    }
  }

  lemma FreshTenantOvershoot(g: Gate, actions: seq<Action>, t: string, n: nat, m: nat)
    requires Fresh(g) && Bounded(g, actions, FlyingFor(t), n, m) && Cap(g.perTenantLimit) + n * m < U64_LIMIT
    ensures Used(Run(g, actions).tenantUsed, t) <= Cap(g.perTenantLimit) + n * m
  {
    SumOfZeros(map r | r in g.requests :: FlyingFor(t)(g.requests[r]));
    TenantOvershoot(g, actions, t, n, m);
  }
}
