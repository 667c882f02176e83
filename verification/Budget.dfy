/** The Claude budget gate, one call at a time: counters, limits and the hourly window. */
module Budget {
  import opened Records
  import opened Sums

  // A 64-bit atomic add.
  function Wrap(n: nat): nat {
    n % U64_LIMIT
  }

  function Used(tenantUsed: map<string, nat>, tenant: string): nat {
    if tenant in tenantUsed then tenantUsed[tenant] else 0
  }

  // Every counter kept, every value zero.
  function Zeroed(tenantUsed: map<string, nat>): map<string, nat> {
    map t | t in tenantUsed :: 0
  }

  function Elapsed(windowStart: nat, now: nat): nat {
    if now < windowStart then 0 else now - windowStart
  }

  // The global counter agrees with the tenant counters, up to 64-bit wrap-around.
  ghost predicate Balanced(globalUsed: nat, tenantUsed: map<string, nat>) {
    globalUsed == Sum(tenantUsed) % U64_LIMIT
  }

  // Numbers that differ by a multiple of 2^64 agree modulo 2^64.
  lemma SameModulo(a: int, b: int, q: int)
    requires a == b + U64_LIMIT * q
    ensures a % U64_LIMIT == b % U64_LIMIT
  {
  }

  lemma WrapParts(n: nat) returns (q: int)
    ensures n == Wrap(n) + U64_LIMIT * q
  {
    q := n / U64_LIMIT;
  }

  lemma AddKeepsBalance(globalUsed: nat, tenantUsed: map<string, nat>, tenant: string, tokens: nat)
    ensures Balanced(globalUsed, tenantUsed) ==>
            Balanced(Wrap(globalUsed + tokens), tenantUsed[tenant := Wrap(Used(tenantUsed, tenant) + tokens)])
  {
    var u := Used(tenantUsed, tenant);
    SumUpdate(tenantUsed, tenant, Wrap(u + tokens));
    var q := WrapParts(u + tokens);
    var p := WrapParts(Sum(tenantUsed));
    SameModulo(Sum(tenantUsed) + tokens, Sum(tenantUsed) - u + Wrap(u + tokens), q);
    SameModulo(Sum(tenantUsed) + tokens, Wrap(Sum(tenantUsed)) + tokens, p);
  }

  /** The gate.  An exhausted counter refuses until the window is over and, with positive limits, the
      first question from then on is answered yes: that is the last clause of HasCapacity.  */
  class ClaudeBudgetGate {
    var globalUsed: nat
    const globalLimit: nat
    var tenantUsed: map<string, nat>
    const perTenantLimit: nat
    var windowStart: nat
    const windowDurationSecs: nat := 3600

    constructor (globalHourlyLimit: nat, perTenantHourlyLimit: nat, now: nat)
      ensures globalLimit == globalHourlyLimit && perTenantLimit == perTenantHourlyLimit
      ensures globalUsed == 0 && tenantUsed == map[] && windowStart == now
      ensures Balanced(globalUsed, tenantUsed)
    {
      globalUsed, globalLimit := 0, globalHourlyLimit;
      tenantUsed, perTenantLimit := map[], perTenantHourlyLimit;
      windowStart := now;
    }

    // Resets the counters first if the window is over; a tenant without a counter has capacity.
    method HasCapacity(tenant: string, now: nat) returns (ok: bool)
      modifies this
      ensures now >= old(windowStart) + 3600 ==>
                && globalUsed == 0 && windowStart == now
                && tenantUsed.Keys == old(tenantUsed).Keys && forall t :: t in tenantUsed ==> tenantUsed[t] == 0
      ensures now < old(windowStart) + 3600 ==>
                globalUsed == old(globalUsed) && tenantUsed == old(tenantUsed) && windowStart == old(windowStart)
      ensures ok <==>
              if now >= old(windowStart) + 3600
              then globalLimit > 0 && (tenant in old(tenantUsed) ==> perTenantLimit > 0)
              else old(globalUsed) < globalLimit
                   && (tenant in old(tenantUsed) ==> old(tenantUsed)[tenant] < perTenantLimit)
      ensures old(Balanced(globalUsed, tenantUsed)) ==> Balanced(globalUsed, tenantUsed)
    {
      MaybeResetWindow(now);
      if globalUsed >= globalLimit {
        return false;
      }
      if tenant in tenantUsed {
        return tenantUsed[tenant] < perTenantLimit;
      }
      return true;
    }

    method RecordUsage(tenant: string, tokens: nat)
      modifies `globalUsed, `tenantUsed
      ensures globalUsed == (old(globalUsed) + tokens) % 0x1_0000_0000_0000_0000
      ensures tenant in old(tenantUsed) ==>
                tenantUsed == old(tenantUsed)[tenant := (old(tenantUsed)[tenant] + tokens) % 0x1_0000_0000_0000_0000]
      ensures tenant !in old(tenantUsed) ==>
                tenantUsed == old(tenantUsed)[tenant := tokens % 0x1_0000_0000_0000_0000]
      ensures old(Balanced(globalUsed, tenantUsed)) ==> Balanced(globalUsed, tenantUsed)
    {
      AddKeepsBalance(globalUsed, tenantUsed, tenant, tokens);
      globalUsed := Wrap(globalUsed + tokens);
      if tenant !in tenantUsed {
        tenantUsed := tenantUsed[tenant := 0];
      }
      tenantUsed := tenantUsed[tenant := Wrap(tenantUsed[tenant] + tokens)];
    }

    method MaybeResetWindow(now: nat)
      modifies this
      ensures now >= old(windowStart) + 3600 ==>
                && globalUsed == 0 && windowStart == now
                && tenantUsed.Keys == old(tenantUsed).Keys && forall t :: t in tenantUsed ==> tenantUsed[t] == 0
      ensures now < old(windowStart) + 3600 ==>
                globalUsed == old(globalUsed) && tenantUsed == old(tenantUsed) && windowStart == old(windowStart)
      ensures old(Balanced(globalUsed, tenantUsed)) ==> Balanced(globalUsed, tenantUsed)
    {
      if Elapsed(windowStart, now) >= windowDurationSecs {
        globalUsed := 0;
        var rest := tenantUsed.Keys;
        while rest != {}
          invariant globalUsed == 0 && windowStart == old(windowStart)
          invariant rest <= old(tenantUsed).Keys && tenantUsed.Keys == old(tenantUsed).Keys
          invariant forall t :: t in tenantUsed ==>
                      tenantUsed[t] == if t in rest then old(tenantUsed)[t] else 0
          decreases |rest|
        {
          var t :| t in rest;
          tenantUsed := tenantUsed[t := 0];
          rest := rest - {t};
        }
        windowStart := now;
        SumOfZeros(tenantUsed);
      }
    }
  }
}
