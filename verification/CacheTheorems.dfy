/** What the eviction plan promises, for every input and every tie-breaking of the sort. */
module CacheTheorems {
  import opened Basics
  import opened CachePlan

  lemma FreedByMonotone(d: seq<Unit>, j: nat, k: nat)
    requires j <= k <= |d|
    ensures FreedBy(d, j) <= FreedBy(d, k)
  {
    assert d[..k] == d[..j] + d[j..k];
    TotalBytesAppend(d[..j], d[j..k]);
  }

  /** Once the pressure is over, freeing more does not bring it back. */
  lemma PressureOnlyFalls(d: seq<Unit>, j: nat, k: nat, p: Policy, used: int, free: int)
    requires j <= k <= |d| && PressedAfter(d, k, p, used, free)
    ensures PressedAfter(d, j, p, used, free)
  {
    FreedByMonotone(d, j, k);
  }

  lemma DisposableMembers(ordered: seq<Unit>, p: Policy)
    ensures forall u :: u in Disposables(ordered, p) <==> u in ordered && !Protected(u, p)
  {
    FilterMembers(IsDisposable(p), ordered);
  }

  lemma PlannedAreUnique(ordered: seq<Unit>, p: Policy, used: int, free: int)
    requires UniqueNames(ordered)
    ensures UniqueNames(UnitsOf(Plan(ordered, p, used, free)))
  {
    FilterUnique(ordered, IsDisposable(p));
  }

  lemma PlannedAreUnprotected(ordered: seq<Unit>, p: Policy, used: int, free: int)
    ensures forall u :: u in UnitsOf(Plan(ordered, p, used, free)) ==> u in ordered && !Protected(u, p)
  {
    DisposableMembers(ordered, p);
    var d := Disposables(ordered, p);
    assert UnitsOf(Plan(ordered, p, used, free)) == d[..PlannedCount(ordered, p, used, free)];
  }

  lemma ExpiredArePlanned(ordered: seq<Unit>, p: Policy, used: int, free: int)
    requires LruSorted(ordered)
    ensures forall u :: u in ordered && Expired(u, p) ==> u in UnitsOf(Plan(ordered, p, used, free))
  {
    var d := Disposables(ordered, p);
    var expired := Filter(IsExpired(p), ordered);
    DisposablesSplit(ordered, p);
    FilterMembers(IsExpired(p), ordered);
    assert UnitsOf(Plan(ordered, p, used, free))[..|expired|] == expired;
  }

  lemma PlanIsLruClosed(ordered: seq<Unit>, p: Policy, used: int, free: int)
    requires LruSorted(ordered)
    ensures var planned := UnitsOf(Plan(ordered, p, used, free));
      forall u, v :: u in planned && v in ordered && !Protected(v, p) && v !in planned ==> u.lastUse <= v.lastUse
  {
    var d := Disposables(ordered, p);
    var planned := UnitsOf(Plan(ordered, p, used, free));
    DisposableMembers(ordered, p);
    FilterSorted(ordered, IsDisposable(p));
    assert planned == d[..|planned|];
    forall u, v | u in planned && v in ordered && !Protected(v, p) && v !in planned
      ensures u.lastUse <= v.lastUse
    {
      var i :| 0 <= i < |planned| && planned[i] == u;
      assert d == planned + d[|planned|..];
      var j :| |planned| <= j < |d| && d[j] == v;
    }
  }

  /** The plan spares what is protected, names nothing twice, leaves no expired unit
      behind, and never passes over an older unprotected unit for a newer one. */
  lemma PlanSafety(ordered: seq<Unit>, p: Policy, used: int, free: int)
    requires LruSorted(ordered) && UniqueNames(ordered)
    ensures var planned := UnitsOf(Plan(ordered, p, used, free));
      && UniqueNames(planned)
      && (forall u :: u in planned ==> u in ordered && !Protected(u, p))
      && (forall u :: u in ordered && Expired(u, p) ==> u in planned)
      && (forall u, v :: u in planned && v in ordered && !Protected(v, p) && v !in planned ==> u.lastUse <= v.lastUse)
  {
    PlannedAreUnique(ordered, p, used, free);
    PlannedAreUnprotected(ordered, p, used, free);
    ExpiredArePlanned(ordered, p, used, free);
    PlanIsLruClosed(ordered, p, used, free);
  }

  /** Each decision carries the reason that holds when its turn comes: retention for the
      expired units and only those, the budget before the reserve for the rest. */
  lemma ReasonsAreTrue(ordered: seq<Unit>, p: Policy, used: int, free: int, k: nat)
    requires LruSorted(ordered) && k < |Plan(ordered, p, used, free)|
    ensures var plan := Plan(ordered, p, used, free);
            var freed := TotalBytes(UnitsOf(plan[..k]));
      && (plan[k].reason == Retention <==> Expired(plan[k].unit, p))
      && (plan[k].reason == Budget <==> !Expired(plan[k].unit, p) && OverBudget(used - freed, p))
      && (plan[k].reason == Reserve <==>
           !Expired(plan[k].unit, p) && !OverBudget(used - freed, p) && UnderReserve(Refill(free, freed), p))
  {
    var d := Disposables(ordered, p);
    ExpiredComeFirst(ordered, p, k);
    assert UnitsOf(Plan(ordered, p, used, free)[..k]) == d[..k];
    if k >= ExpiredCount(ordered, p) {
      assert PressedAfter(d, k, p, used, free);
    }
  }

  lemma ExpiredComeFirst(ordered: seq<Unit>, p: Policy, k: nat)
    requires LruSorted(ordered) && k < |Disposables(ordered, p)|
    ensures Expired(Disposables(ordered, p)[k], p) <==> k < ExpiredCount(ordered, p)
  {
    var expired, lingering := Filter(IsExpired(p), ordered), Filter(IsLingering(p), ordered);
    DisposablesSplit(ordered, p);
    FilterMembers(IsExpired(p), ordered);
    FilterMembers(IsLingering(p), ordered);
    if k < |expired| {
      assert expired[k] in expired;
    } else {
      assert lingering[k - |expired|] in lingering;
    }
  }

  /** The plan reaches its goal with nothing to spare: afterwards no rule presses or no
      unprotected unit is left, and without its last pressure decision a rule still pressed. */
  lemma PlanEndsPressureTightly(ordered: seq<Unit>, p: Policy, used: int, free: int)
    requires LruSorted(ordered) && UniqueNames(ordered)
    ensures var plan := Plan(ordered, p, used, free);
            var freed := TotalBytes(UnitsOf(plan));
      && (Pressed(used - freed, Refill(free, freed), p) ==>
           forall u :: u in ordered && !Protected(u, p) ==> u in UnitsOf(plan))
      && (plan != [] && plan[|plan| - 1].reason != Retention ==>
           var less := TotalBytes(UnitsOf(plan[..|plan| - 1]));
           Pressed(used - less, Refill(free, less), p))
  {
    var d := Disposables(ordered, p);
    var plan := Plan(ordered, p, used, free);
    assert UnitsOf(plan) == d[..|plan|];
    DisposableMembers(ordered, p);
    if plan != [] {
      var k := |plan| - 1;
      assert UnitsOf(plan[..k]) == d[..k];
      if plan[k].reason != Retention {
        assert PressedAfter(d, k, p, used, free);
      }
    }
  }

  /** The two passes together take the larger of two prefixes: what retention asks for,
      and the shortest prefix that would have eased the pressure on its own. */
  lemma PlanIsTheLargerPrefix(ordered: seq<Unit>, p: Policy, used: int, free: int)
    requires LruSorted(ordered)
    ensures var d := Disposables(ordered, p);
            var eased := EasedFrom(d, 0, p, used, free);
      && UnitsOf(Plan(ordered, p, used, free)) == d[..Max(ExpiredCount(ordered, p), eased)]
      && (forall k :: 0 <= k <= |d| && !PressedAfter(d, k, p, used, free) ==> eased <= k)
  {
    var d := Disposables(ordered, p);
    var e := ExpiredCount(ordered, p);
    var eased := EasedFrom(d, 0, p, used, free);
    var m := PlannedCount(ordered, p, used, free);
    if eased < m && e < m {
      assert PressedAfter(d, m - 1, p, used, free);
      PressureOnlyFalls(d, eased, m - 1, p, used, free);
    }
    assert UnitsOf(Plan(ordered, p, used, free)) == d[..m];
  }

  // ---------- the plan in plain numbers ----------

  /** Somebody reads it, or its last use is inside the grace period. A duration of more than 64 bits
      covers every last use. */
  predicate Kept(u: Unit, p: Policy) {
    u.readers > 0 || p.now - u.lastUse < p.grace || p.now < u.lastUse || p.grace > 0x7fff_ffff_ffff_ffff
  }

  /** Neither kept nor used within the retention period. */
  predicate LongUnused(u: Unit, p: Policy) {
    && p.retain > 0 && !Kept(u, p)
    && p.now - u.lastUse > p.retain && p.retain < 0x7fff_ffff_ffff_ffff
  }

  /** What a plan comes to, in bytes: with `freed` of its bytes gone the cache is within its budget and
      the volume outside its reserve, or only what is read or in its grace is left. */
  lemma PlanReachesItsGoal(ordered: seq<Unit>, p: Policy, used: int, free: int)
    requires LruSorted(ordered) && UniqueNames(ordered)
    ensures var plan := Plan(ordered, p, used, free);
            var freed := TotalBytes(UnitsOf(plan));
      || ((p.budget > 0 ==> used - freed <= p.budget) && (p.reserve > 0 && free >= 0 ==> free + freed >= p.reserve))
      || forall u :: u in ordered && u !in UnitsOf(plan) ==> Kept(u, p)
  {
    PlanEndsPressureTightly(ordered, p, used, free);
  }

  /** Why each unit goes, in bytes, `less` being the bytes of the decisions before it: it is not kept,
      and either long unused, or the cache was still over its budget, or the volume still inside its
      reserve, free space that could not be read counting as enough. */
  lemma EachDecisionIsDue(ordered: seq<Unit>, p: Policy, used: int, free: int, k: nat)
    requires LruSorted(ordered) && k < |Plan(ordered, p, used, free)|
    ensures var plan := Plan(ordered, p, used, free);
            var u, less := plan[k].unit, TotalBytes(UnitsOf(plan[..k]));
      && u in ordered && !Kept(u, p)
      && (plan[k].reason == Retention <==> LongUnused(u, p))
      && (plan[k].reason == Budget <==> !LongUnused(u, p) && 0 < p.budget < used - less)
      && (plan[k].reason == Reserve ==> p.reserve > 0 && 0 <= free && free + less < p.reserve)
  {
    ReasonsAreTrue(ordered, p, used, free, k);
    PlannedAreUnprotected(ordered, p, used, free);
    assert UnitsOf(Plan(ordered, p, used, free))[k] in UnitsOf(Plan(ordered, p, used, free));
  }

  /** Retention takes exactly the long unused. */
  lemma RetentionTakesTheLongUnused(ordered: seq<Unit>, p: Policy, used: int, free: int, u: Unit)
    requires LruSorted(ordered)
    ensures Decision(u, Retention) in Plan(ordered, p, used, free) <==> u in ordered && LongUnused(u, p)
  {
    var plan := Plan(ordered, p, used, free);
    if u in ordered && LongUnused(u, p) {
      ExpiredArePlanned(ordered, p, used, free);
      var k :| 0 <= k < |plan| && UnitsOf(plan)[k] == u;
      EachDecisionIsDue(ordered, p, used, free, k);
      assert plan[k] == Decision(u, Retention);
    }
    if k :| 0 <= k < |plan| && plan[k] == Decision(u, Retention) {
      EachDecisionIsDue(ordered, p, used, free, k);
    }
  }

  /** The bytes of some units, listed in any order, are the sum of their bytes. */
  lemma BytesAddUp(a: seq<Unit>, u: Unit, b: seq<Unit>)
    ensures TotalBytes([]) == 0 && TotalBytes(a + [u] + b) == TotalBytes(a) + u.entry.bytes + TotalBytes(b)
  {
    TakenNext(a, u);
    TotalBytesAppend(a + [u], b);
  }

  // ---------- a looser policy evicts a prefix of what a stricter one evicts ----------

  /** Every rule of `q` is at most as demanding as the same rule of `p`; zero switches a
      rule off, so an unlimited budget is looser than any limit. */
  predicate Looser(q: Policy, p: Policy) {
    && q.now == p.now
    && (q.budget <= 0 || 0 < p.budget <= q.budget)
    && (q.reserve <= 0 || q.reserve <= p.reserve)
    && Max(0, p.grace) <= Max(0, q.grace)
    && (q.retain <= 0 || 0 < p.retain <= q.retain)
  }

  lemma LooserProtectsMore(u: Unit, q: Policy, p: Policy)
    requires Looser(q, p)
    ensures Protected(u, p) ==> Protected(u, q)
    ensures Expired(u, q) ==> Expired(u, p)
  {
  }

  /** On an LRU order, raising the grace shortens the disposable list at its newer end. */
  lemma LooserDisposablesArePrefix(ordered: seq<Unit>, q: Policy, p: Policy)
    requires LruSorted(ordered) && Looser(q, p)
    ensures Disposables(ordered, q) <= Disposables(ordered, p)
    ensures ExpiredCount(ordered, q) <= ExpiredCount(ordered, p)
  {
    if ordered != [] {
      var n := |ordered| - 1;
      var last := ordered[n];
      LooserDisposablesArePrefix(ordered[..n], q, p);
      LooserProtectsMore(last, q, p);
      if !Protected(last, q) {
        SameDisposablesBelow(ordered[..n], last, q, p);
      }
    }
  }

  lemma SameDisposablesBelow(us: seq<Unit>, last: Unit, q: Policy, p: Policy)
    requires Looser(q, p) && !Protected(last, q)
    requires forall i :: 0 <= i < |us| ==> us[i].lastUse <= last.lastUse
    ensures Disposables(us, q) == Disposables(us, p)
  {
    if us != [] {
      SameDisposablesBelow(us[..|us| - 1], last, q, p);
      assert us[|us| - 1].lastUse <= last.lastUse;
    }
  }

  /** Raising the budget, lowering the reserve, lengthening the grace or the retention
      only ever shortens the sequence of evicted units from its newer end. */
  lemma LooserPlanIsPrefix(ordered: seq<Unit>, q: Policy, p: Policy, used: int, free: int)
    requires LruSorted(ordered) && Looser(q, p)
    ensures UnitsOf(Plan(ordered, q, used, free)) <= UnitsOf(Plan(ordered, p, used, free))
  {
    var dq, dp := Disposables(ordered, q), Disposables(ordered, p);
    LooserDisposablesArePrefix(ordered, q, p);
    PlanIsTheLargerPrefix(ordered, q, used, free);
    PlanIsTheLargerPrefix(ordered, p, used, free);
    var k := EasedFrom(dp, 0, p, used, free);
    if k <= |dq| {
      assert dq[..k] == dp[..k];
      if k < |dq| {
        assert !PressedAfter(dq, k, q, used, free);
      }
    }
  }

  // ---------- planning again right after a sweep finds nothing to do ----------

  function IsSpared(plan: seq<Decision>): Unit -> bool {
    (u: Unit) => u.entry.name !in NamesOf(UnitsOf(plan))
  }

  function Survivors(units: seq<Unit>, plan: seq<Decision>): seq<Unit> {
    Filter(IsSpared(plan), units)
  }

  /** Whatever order the first sort produced and whatever order the second sort produces,
      a second planning pass over the survivors at the same instant is empty. */
  lemma SweepFixedPoint(units: seq<Unit>, first: seq<Unit>, second: seq<Unit>, p: Policy,
                        used: int, free: int, plan: seq<Decision>, freed: nat)
    requires UniqueNames(units) && LruOrder(first, units)
    requires plan == Plan(first, p, used, free) && freed == TotalBytes(UnitsOf(plan))
    requires LruOrder(second, Survivors(units, plan))
    ensures Plan(second, p, used - freed, Refill(free, freed)) == []
  {
    SurvivorsAreSettled(units, first, second, p, used, free);
    NothingToPlan(second, p, used - freed, Refill(free, freed));
  }

  lemma SurvivorsAreSettled(units: seq<Unit>, first: seq<Unit>, second: seq<Unit>, p: Policy, used: int, free: int)
    requires UniqueNames(units) && LruOrder(first, units)
    requires LruOrder(second, Survivors(units, Plan(first, p, used, free)))
    ensures var freed := TotalBytes(UnitsOf(Plan(first, p, used, free)));
            Settled(second, p, used - freed, Refill(free, freed))
  {
    var plan := Plan(first, p, used, free);
    PermutationUnique(first, units);
    SurvivorMembers(units, first, second, plan);
    ExpiredArePlanned(first, p, used, free);
    PlanEndsPressureTightly(first, p, used, free);
  }

  /** Nothing is expired, and no rule presses or nothing may go. */
  ghost predicate Settled(us: seq<Unit>, p: Policy, used: int, free: int) {
    && (forall u :: u in us ==> !Expired(u, p))
    && (Pressed(used, free, p) ==> forall u :: u in us ==> Protected(u, p))
  }

  lemma NothingToPlan(us: seq<Unit>, p: Policy, used: int, free: int)
    requires Settled(us, p, used, free)
    ensures Plan(us, p, used, free) == []
  {
    NothingExpiresAmong(us, p);
    var d := Disposables(us, p);
    DisposableMembers(us, p);
    if d != [] {
      assert d[0] in us;
      assert d[..0] == [];
      assert !PressedAfter(d, 0, p, used, free);
    }
  }

  lemma SurvivorMembers(units: seq<Unit>, first: seq<Unit>, second: seq<Unit>, plan: seq<Decision>)
    requires multiset(first) == multiset(units)
    requires multiset(second) == multiset(Survivors(units, plan))
    ensures forall u :: u in second ==> u in first && u !in UnitsOf(plan)
  {
    FilterMembers(IsSpared(plan), units);
    forall u | u in second ensures u in first && u !in UnitsOf(plan) {
      assert u in multiset(second);
      assert u in multiset(Filter(IsSpared(plan), units));
      assert u in Filter(IsSpared(plan), units);
      assert IsSpared(plan)(u);
      assert u in multiset(first);
    }
  }

  lemma NothingExpiresAmong(us: seq<Unit>, p: Policy)
    requires forall u :: u in us ==> !Expired(u, p)
    ensures ExpiredCount(us, p) == 0
  {
    FilterMembers(IsExpired(p), us);
    if Filter(IsExpired(p), us) != [] {
      assert Filter(IsExpired(p), us)[0] in us;
    }
  }
}
