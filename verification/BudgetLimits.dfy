/** How good the overshoot bound is, and what interleaving does to the accounts. */
module BudgetLimits {
  import opened Outcomes
  import opened Records
  import opened Sums
  import opened Budget
  import opened BudgetRuns

  lemma {:induction false} Concat(g: Gate, first: seq<Action>, second: seq<Action>, weight: Request -> nat, n: nat, m: nat)
    ensures Run(g, first + second) == Run(Run(g, first), second)
    ensures Bounded(g, first, weight, n, m) && Bounded(Run(g, first), second, weight, n, m) ==>
              Bounded(g, first + second, weight, n, m)
    decreases |first|
  {
    if first == [] {
      assert first + second == second;
    } else {
      assert (first + second)[1..] == first[1..] + second;
      Concat(Step(g, first[0]), first[1..], second, weight, n, m);
    }
  }

  /******* Runs built from whole requests *******/

  // Where a run holds its requests back: after the global load only, or after has_capacity.
  function HeldAt(early: bool): Phase {
    if early then SawGlobal else Admitted
  }

  function Weight(early: bool): Request -> nat {
    if early then OnlyAdmitted else Flying
  }

  // Requests below lo have charged, those from lo to hi are held back, and no others have arrived.
  ghost predicate Held(g: Gate, early: bool, lo: nat, hi: nat, used: nat) {
    && lo <= hi && g.reset.None? && g.tenantUsed == map[] && g.globalUsed == used
    && (forall i: nat :: i in g.requests <==> i < hi)
    && (forall i: nat :: lo <= i < hi ==> g.requests[i].phase == HeldAt(early))
    && (forall i: nat :: i < lo ==> g.requests[i].phase.Charged?)
    && Total(g.requests, Weight(early)) == (if early then 0 else hi - lo)
  }

  lemma Cons(g: Gate, a: Action, rest: seq<Action>, weight: Request -> nat, n: nat, m: nat)
    requires Total(g.requests, weight) <= n && (a.AddGlobal? ==> a.tokens <= m)
    ensures Run(g, [a] + rest) == Run(Step(g, a), rest)
    ensures Bounded(g, [a] + rest, weight, n, m) == Bounded(Step(g, a), rest, weight, n, m)
  {
  }

  // A request that has come as far as `phase`.
  function With(g: Gate, i: nat, phase: Phase): Gate {
    g.(requests := g.requests[i := Request("", phase)])
  }

  // The first three steps of a request, none of which is counted before the global load.
  lemma LoadRuns(g: Gate, i: nat, weight: Request -> nat, n: nat, m: nat) returns (actions: seq<Action>)
    requires i !in g.requests && g.reset.None? && g.globalUsed < g.globalLimit
    requires weight(Request("", Waiting)) == 0 && weight(Request("", Entered)) == 0
    requires Total(g.requests, weight) + weight(Request("", SawGlobal)) <= n
    ensures Run(g, actions) == With(g, i, SawGlobal)
    ensures Bounded(g, actions, weight, n, m)
  {
    var g1, g2, g3 := With(g, i, Waiting), With(g, i, Entered), With(g, i, SawGlobal);
    TotalUpdate(g.requests, i, Request("", Waiting), weight);
    TotalUpdate(g.requests, i, Request("", Entered), weight);
    TotalUpdate(g.requests, i, Request("", SawGlobal), weight);
    assert Step(g, Arrive(i, "")) == g1 && Step(g1, Enter(i)) == g2 && Step(g2, LoadGlobal(i)) == g3;
    Cons(g2, LoadGlobal(i), [], weight, n, m);
    Cons(g1, Enter(i), [LoadGlobal(i)] + [], weight, n, m);
    Cons(g, Arrive(i, ""), [Enter(i)] + ([LoadGlobal(i)] + []), weight, n, m);
    actions := [Arrive(i, "")] + ([Enter(i)] + ([LoadGlobal(i)] + []));
  }

  // A tenant without a counter has capacity.
  lemma TenantLoaded(g: Gate, i: nat)
    requires At(g, i, SawGlobal) && g.tenantUsed == map[]
    ensures Step(g, LoadTenant(i)) == Move(g, i, Admitted)
  {
  }

  lemma HoldRuns(g: Gate, early: bool, i: nat, n: nat, m: nat) returns (actions: seq<Action>)
    requires i !in g.requests && g.reset.None? && g.tenantUsed == map[] && g.globalUsed < g.globalLimit
    requires Total(g.requests, Weight(early)) + (if early then 0 else 1) <= n
    ensures Run(g, actions) == With(g, i, HeldAt(early))
    ensures Bounded(g, actions, Weight(early), n, m)
  {
    var w := Weight(early);
    actions := LoadRuns(g, i, w, n, m);
    if !early {
      var g3 := With(g, i, SawGlobal);
      TotalUpdate(g.requests, i, Request("", SawGlobal), w);
      TotalUpdate(g.requests, i, Request("", Admitted), w);
      TenantLoaded(g3, i);
      assert Move(g3, i, Admitted) == With(g, i, Admitted);
      Cons(g3, LoadTenant(i), [], w, n, m);
      Concat(g, actions, [LoadTenant(i)] + [], w, n, m);
      actions := actions + ([LoadTenant(i)] + []);
    }
  }

  lemma HoldOneMore(g: Gate, early: bool, lo: nat, hi: nat, used: nat, n: nat, m: nat) returns (actions: seq<Action>)
    requires Held(g, early, lo, hi, used) && used < g.globalLimit && (if early then n >= 1 else hi - lo < n)
    ensures Held(Run(g, actions), early, lo, hi + 1, used) && Run(g, actions).globalLimit == g.globalLimit
    ensures Bounded(g, actions, Weight(early), n, m)
  {
    actions := HoldRuns(g, early, hi, n, m);
    TotalUpdate(g.requests, hi, Request("", HeldAt(early)), Weight(early));
  }

  lemma ReleaseRuns(g: Gate, early: bool, i: nat, tokens: nat, n: nat, m: nat) returns (actions: seq<Action>)
    requires At(g, i, HeldAt(early)) && g.tenantUsed == map[]
    requires Total(g.requests, Weight(early)) + (if early then 1 else 0) <= n && tokens <= m
    ensures Run(g, actions) == Move(g, i, Charged(tokens)).(globalUsed := Wrap(g.globalUsed + tokens))
    ensures Bounded(g, actions, Weight(early), n, m)
  {
    var w := Weight(early);
    var g1 := Move(g, i, Admitted);
    MoveTotal(g, i, Admitted, w);
    actions := ChargeRuns(g1, i, w, tokens, n, m);
    assert Move(g1, i, Charged(tokens)) == Move(g, i, Charged(tokens));
    if early {
      TenantLoaded(g, i);
      Cons(g, LoadTenant(i), actions, w, n, m);
      actions := [LoadTenant(i)] + actions;
    } else {
      assert g1 == g;
    }
  }

  lemma ChargeRuns(g: Gate, i: nat, weight: Request -> nat, tokens: nat, n: nat, m: nat) returns (actions: seq<Action>)
    requires At(g, i, Admitted) && Total(g.requests, weight) <= n && tokens <= m
    requires weight(g.requests[i].(phase := Charged(tokens))) == 0
    ensures Run(g, actions) == Move(g, i, Charged(tokens)).(globalUsed := Wrap(g.globalUsed + tokens))
    ensures Bounded(g, actions, weight, n, m)
  {
    MoveTotal(g, i, Charged(tokens), weight);
    var d := Move(g, i, Charged(tokens)).(globalUsed := Wrap(g.globalUsed + tokens));
    assert Step(g, AddGlobal(i, tokens)) == d;
    Cons(g, AddGlobal(i, tokens), [], weight, n, m);
    actions := [AddGlobal(i, tokens)] + [];
  }

  lemma ReleaseNext(g: Gate, early: bool, lo: nat, hi: nat, used: nat, tokens: nat, n: nat, m: nat)
    returns (actions: seq<Action>)
    requires Held(g, early, lo, hi, used) && lo < hi && tokens <= m && n >= 1 && used + tokens < U64_LIMIT
    requires !early ==> hi - lo <= n
    ensures Held(Run(g, actions), early, lo + 1, hi, used + tokens) && Run(g, actions).globalLimit == g.globalLimit
    ensures Bounded(g, actions, Weight(early), n, m)
  {
    actions := ReleaseRuns(g, early, lo, tokens, n, m);
    ReleasedIsHeld(g, early, lo, hi, used, tokens);
  }

  lemma ReleasedIsHeld(g: Gate, early: bool, lo: nat, hi: nat, used: nat, tokens: nat)
    requires Held(g, early, lo, hi, used) && lo < hi && used + tokens < U64_LIMIT
    ensures Held(Move(g, lo, Charged(tokens)).(globalUsed := Wrap(g.globalUsed + tokens)),
                 early, lo + 1, hi, used + tokens)
  {
    MoveTotal(g, lo, Charged(tokens), Weight(early));
  }

  lemma {:induction false} HoldMany(g: Gate, early: bool, lo: nat, hi: nat, used: nat, count: nat, n: nat, m: nat)
    returns (actions: seq<Action>)
    requires Held(g, early, lo, hi, used) && used < g.globalLimit
    requires if early then n >= 1 else hi - lo + count <= n
    ensures Held(Run(g, actions), early, lo, hi + count, used)
    ensures Bounded(g, actions, Weight(early), n, m)
    decreases count
  {
    actions := [];
    if count > 0 {
      var first := HoldOneMore(g, early, lo, hi, used, n, m);
      var rest := HoldMany(Run(g, first), early, lo, hi + 1, used, count - 1, n, m);
      Concat(g, first, rest, Weight(early), n, m);
      actions := first + rest;
    }
  }

  lemma {:induction false} ReleaseMany(g: Gate, early: bool, lo: nat, hi: nat, used: nat, count: nat, tokens: nat,
                                       n: nat, m: nat)
    returns (actions: seq<Action>)
    requires Held(g, early, lo, hi, used) && count == hi - lo && tokens <= m && n >= 1
    requires used + count * tokens < U64_LIMIT
    requires !early ==> count <= n
    ensures Held(Run(g, actions), early, hi, hi, used + count * tokens)
    ensures Bounded(g, actions, Weight(early), n, m)
    decreases count
  {
    actions := [];
    if count > 0 {
      assert count * tokens == tokens + (count - 1) * tokens;
      var first := ReleaseNext(g, early, lo, hi, used, tokens, n, m);
      var rest := ReleaseMany(Run(g, first), early, lo + 1, hi, used + tokens, count - 1, tokens, n, m);
      Concat(g, first, rest, Weight(early), n, m);
      actions := first + rest;
    }
  }

  // `count` requests, one after the other, of one token each.
  lemma {:induction false} WarmUp(g: Gate, i: nat, used: nat, count: nat, n: nat, m: nat)
    returns (actions: seq<Action>)
    requires Held(g, false, i, i, used) && used + count < g.globalLimit && used + count < U64_LIMIT
    requires n >= 1 && m >= 1
    ensures Held(Run(g, actions), false, i + count, i + count, used + count)
    ensures Run(g, actions).globalLimit == g.globalLimit
    ensures Bounded(g, actions, Flying, n, m)
    decreases count
  {
    actions := [];
    if count > 0 {
      var hold := HoldOneMore(g, false, i, i, used, n, m);
      var release := ReleaseNext(Run(g, hold), false, i, i + 1, used, 1, n, m);
      Concat(g, hold, release, Flying, n, m);
      var one := hold + release;
      var rest := WarmUp(Run(g, one), i + 1, used + 1, count - 1, n, m);
      Concat(g, one, rest, Flying, n, m);
      actions := one + rest;
    }
  }

  lemma FreshIsHeld(g: Gate, early: bool)
    requires Fresh(g)
    ensures Held(g, early, 0, 0, 0)
  {
  }

  // The overshoot bound is attained, for every limit, every n and every m.
  lemma OvershootIsAttained(g: Gate, n: nat, m: nat) returns (actions: seq<Action>)
    requires Fresh(g) && g.globalLimit >= 1 && n >= 1 && m >= 1
    requires g.globalLimit - 1 + n * m < U64_LIMIT
    ensures Bounded(g, actions, Flying, n, m)
    ensures Run(g, actions).globalUsed == g.globalLimit - 1 + n * m
  {
    FreshIsHeld(g, false);
    var k := g.globalLimit - 1;
    assert n * m >= 0;
    var first := WarmUp(g, 0, 0, k, n, m);
    var g1 := Run(g, first);
    var hold := HoldMany(g1, false, k, k, k, n, n, m);
    var release := ReleaseMany(Run(g1, hold), false, k, k + n, k, n, m, n, m);
    Concat(g1, hold, release, Flying, n, m);
    Concat(g, first, hold + release, Flying, n, m);
    actions := first + (hold + release);
  }

  // Requests have to be counted from the global load on.  Counted only from the moment
  // has_capacity has answered, one request at a time already allows any overshoot at all.
  lemma CountingAdmittedIsNotEnough(g: Gate, k: nat, m: nat) returns (actions: seq<Action>)
    requires Fresh(g) && g.globalLimit >= 1 && k * m < U64_LIMIT
    ensures Bounded(g, actions, OnlyAdmitted, 1, m)
    ensures Run(g, actions).globalUsed == k * m
  {
    FreshIsHeld(g, true);
    var hold := HoldMany(g, true, 0, 0, 0, k, 1, m);
    var release := ReleaseMany(Run(g, hold), true, 0, k, 0, k, m, 1, m);
    Concat(g, hold, release, OnlyAdmitted, 1, m);
    actions := hold + release;
  }

  /******* Conservation *******/

  // Tokens of calls between their two adds.
  const HalfRecorded: Request -> nat :=
    (q: Request) => if q.phase.Charged? then q.phase.tokens else 0

  // What the global counter has too much, after allowing for half-recorded calls.
  ghost function Drift(g: Gate): int {
    g.globalUsed - Sum(g.tenantUsed) - Total(g.requests, HalfRecorded)
  }

  predicate IsReset(a: Action) {
    a.BeginReset? || a.ZeroTenant?
  }

  // Only the stores of a reset change the drift (modulo the width of the counters).
  lemma StepKeepsDrift(g: Gate, a: Action)
    requires !IsReset(a)
    ensures Drift(Step(g, a)) % U64_LIMIT == Drift(g) % U64_LIMIT
  {
    var d := Step(g, a);
    var w := HalfRecorded;
    match a
    case Arrive(r, tenant) => TotalUpdate(g.requests, r, Request(tenant, Waiting), w);
    case EndReset => if d != g { MoveTotal(g, g.reset.value.holder, Entered, w); }
    case Enter(r) => if d != g { MoveTotal(g, r, d.requests[r].phase, w); }
    case LoadGlobal(r) => if d != g { MoveTotal(g, r, d.requests[r].phase, w); }
    case LoadTenant(r) => if d != g { MoveTotal(g, r, d.requests[r].phase, w); }
    case AddGlobal(r, tokens) =>
      if d != g { AddGlobalKeepsDrift(g, r, tokens); }
    case AddTenant(r) =>
      if d != g { AddTenantKeepsDrift(g, r); }
  }

  lemma AddGlobalKeepsDrift(g: Gate, r: RequestId, tokens: nat)
    requires At(g, r, Admitted)
    ensures Drift(Step(g, AddGlobal(r, tokens))) % U64_LIMIT == Drift(g) % U64_LIMIT
  {
    MoveTotal(g, r, Charged(tokens), HalfRecorded);
    var q := WrapParts(g.globalUsed + tokens);
    SameModulo(Drift(g), Drift(Step(g, AddGlobal(r, tokens))), q);
  }

  lemma AddTenantKeepsDrift(g: Gate, r: RequestId)
    requires r in g.requests && g.requests[r].phase.Charged?
    ensures Drift(Step(g, AddTenant(r))) % U64_LIMIT == Drift(g) % U64_LIMIT
  {
    var tenant, tokens := g.requests[r].tenant, g.requests[r].phase.tokens;
    MoveTotal(g, r, Done, HalfRecorded);
    SumUpdate(g.tenantUsed, tenant, Wrap(Used(g.tenantUsed, tenant) + tokens));
    var q := WrapParts(Used(g.tenantUsed, tenant) + tokens);
    SameModulo(Drift(Step(g, AddTenant(r))), Drift(g), q);
  }

  // Without resets, the global counter exceeds the sum of the tenant counters by exactly the
  // tokens of the calls that are between their two adds, in every interleaving.
  lemma {:induction false} UsageConserved(g: Gate, actions: seq<Action>)
    requires forall i | 0 <= i < |actions| :: !IsReset(actions[i])
    ensures Drift(Run(g, actions)) % U64_LIMIT == Drift(g) % U64_LIMIT
    decreases |actions|
  {
    if actions != [] {
      StepKeepsDrift(g, actions[0]);
      UsageConserved(Step(g, actions[0]), actions[1..]);
    }
  }

  function ZeroAll(tenants: seq<string>): seq<Action> {
    seq(|tenants|, i requires 0 <= i < |tenants| => ZeroTenant(tenants[i]))
  }

  lemma {:induction false} ZeroAllRuns(g: Gate, tenants: seq<string>)
    requires g.reset.Some? && forall t :: t in tenants ==> t in g.tenantUsed
    ensures var d := Run(g, ZeroAll(tenants));
            && d.globalUsed == g.globalUsed && d.requests == g.requests
            && d.reset.Some? && d.reset.value.holder == g.reset.value.holder
            && d.reset.value.pending == g.reset.value.pending - (set t | t in tenants)
            && d.tenantUsed.Keys == g.tenantUsed.Keys
            && forall t :: t in d.tenantUsed ==> d.tenantUsed[t] == if t in tenants then 0 else g.tenantUsed[t]
    decreases |tenants|
  {
    if tenants == [] {
      assert ZeroAll(tenants) == [];
    } else {
      assert ZeroAll(tenants)[1..] == ZeroAll(tenants[1..]);
      ZeroAllRuns(Step(g, ZeroTenant(tenants[0])), tenants[1..]);
      assert tenants == [tenants[0]] + tenants[1..];
    }
  }

  // A reset with nothing in between, its loop visiting every counter.
  lemma WholeReset(g: Gate, r: RequestId, tenants: seq<string>)
    requires At(g, r, Waiting) && g.reset.None? && (set t | t in tenants) == g.tenantUsed.Keys
    ensures Run(g, [BeginReset(r)] + ZeroAll(tenants) + [EndReset]) ==
            Move(g, r, Entered).(globalUsed := 0, tenantUsed := Zeroed(g.tenantUsed))
  {
    var g1 := Step(g, BeginReset(r));
    forall t
      ensures t in tenants <==> t in g1.tenantUsed
    {
      assert t in (set u | u in tenants) <==> t in tenants;
    }
    ZeroAllRuns(g1, tenants);
    var g2 := Run(g1, ZeroAll(tenants));
    RunEndReset(g1, ZeroAll(tenants));
    var all := [BeginReset(r)] + ZeroAll(tenants) + [EndReset];
    assert all[1..] == ZeroAll(tenants) + [EndReset];
    assert g2.tenantUsed == Zeroed(g.tenantUsed);
    KeepsLimits(g1, ZeroAll(tenants));
  }

  lemma RunEndReset(g: Gate, actions: seq<Action>)
    ensures Run(g, actions + [EndReset]) == Step(Run(g, actions), EndReset)
  {
    Concat(g, actions, [EndReset], Flying, 0, 0);
    var d := Run(g, actions);
    assert [EndReset][1..] == [] && Run(Step(d, EndReset), []) == Step(d, EndReset);
  }

  lemma {:induction false} KeepsLimits(g: Gate, actions: seq<Action>)
    ensures Run(g, actions).globalLimit == g.globalLimit && Run(g, actions).perTenantLimit == g.perTenantLimit
    decreases |actions|
  {
    if actions != [] { KeepsLimits(Step(g, actions[0]), actions[1..]); }
  }

  lemma SubsetWithNothingLeft(s: set<string>, all: set<string>)
    requires s <= all
    ensures all - s == {} <==> s == all
  {
    forall x | x in all && all - s == {}
      ensures x in s
    {
      assert x !in all - s;
    }
  }

  // A reset ends, and lets its caller through, only when every counter there was has been visited.
  lemma ResetVisitsEveryCounter(g: Gate, r: RequestId, tenants: seq<string>)
    requires At(g, r, Waiting) && g.reset.None? && (set t | t in tenants) <= g.tenantUsed.Keys
    ensures var d := Run(g, [BeginReset(r)] + ZeroAll(tenants) + [EndReset]);
            (At(d, r, Entered) <==> (set t | t in tenants) == g.tenantUsed.Keys)
            && (d.reset.None? <==> (set t | t in tenants) == g.tenantUsed.Keys)
  {
    var g1 := Step(g, BeginReset(r));
    forall t | t in tenants
      ensures t in g1.tenantUsed
    {
      assert t in (set u | u in tenants);
    }
    ZeroAllRuns(g1, tenants);
    RunEndReset(g1, ZeroAll(tenants));
    var all := [BeginReset(r)] + ZeroAll(tenants) + [EndReset];
    assert all[1..] == ZeroAll(tenants) + [EndReset];
    SubsetWithNothingLeft((set t | t in tenants), g.tenantUsed.Keys);
  }

  // Such a reset wipes the global share of every half-recorded call, whose tenant share is still to
  // come: afterwards the accounts agree exactly when those calls hold no tokens.
  lemma ResetForgetsHalfRecorded(g: Gate, r: RequestId, tenants: seq<string>)
    requires At(g, r, Waiting) && g.reset.None? && (set t | t in tenants) == g.tenantUsed.Keys
    ensures var d := Run(g, [BeginReset(r)] + ZeroAll(tenants) + [EndReset]);
            && Total(d.requests, HalfRecorded) == Total(g.requests, HalfRecorded)
            && Drift(d) + Total(g.requests, HalfRecorded) == 0
  {
    WholeReset(g, r, tenants);
    MoveTotal(g, r, Entered, HalfRecorded);
    SumOfZeros(Zeroed(g.tenantUsed));
  }
}
