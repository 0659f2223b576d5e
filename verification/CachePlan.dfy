/** The cache eviction policy (cache.go): which entries of the data directory go,
    in which order, and for which reason.

    Instants and durations are integers in nanoseconds, byte totals are unbounded. */
module CachePlan {
  import opened Basics

  const MAX_DURATION := 0x7fff_ffff_ffff_ffff
  const MIN_DURATION := -0x8000_0000_0000_0000

  /** One top-level item of the data directory. */
  datatype Entry = Entry(name: string, bytes: nat, mod: int, partial: bool)

  /** An entry plus what the engine knows about its torrent. */
  datatype Unit = Unit(entry: Entry, infohash: string, loaded: bool, readers: int, lastUse: int)

  datatype Reason = Retention | Budget | Reserve

  datatype Decision = Decision(unit: Unit, reason: Reason)

  /** The rules one planning pass runs under. A budget, reserve or retention of zero or
      less switches that rule off. */
  datatype Policy = Policy(budget: int, reserve: int, grace: int, retain: int, now: int)

  /** `now.Sub(last)`: saturates at the ends of the 64-bit duration range. */
  function Since(now: int, last: int): int {
    var d := now - last;
    if d > MAX_DURATION then MAX_DURATION else if d < MIN_DURATION then MIN_DURATION else d
  }

  predicate Protected(u: Unit, p: Policy) {
    u.readers > 0 || Since(p.now, u.lastUse) < (if p.grace < 0 then 0 else p.grace)
  }

  predicate Expired(u: Unit, p: Policy) {
    p.retain > 0 && !Protected(u, p) && Since(p.now, u.lastUse) > p.retain
  }

  predicate OverBudget(used: int, p: Policy) {
    p.budget > 0 && used > p.budget
  }

  predicate UnderReserve(free: int, p: Policy) {
    p.reserve > 0 && free >= 0 && free < p.reserve
  }

  predicate Pressed(used: int, free: int, p: Policy) {
    OverBudget(used, p) || UnderReserve(free, p)
  }

  /** Free space after `bytes` more are reclaimed; a failed probe (negative) stays failed. */
  function Refill(free: int, bytes: nat): int {
    if free >= 0 then free + bytes else free
  }

  // ---------- sequences of units ----------

  function TotalBytes(us: seq<Unit>): (total: nat) {
    if us == [] then 0 else TotalBytes(us[..|us| - 1]) + us[|us| - 1].entry.bytes
  }

  function IsDisposable(p: Policy): Unit -> bool { u => !Protected(u, p) }

  function IsExpired(p: Policy): Unit -> bool { u => Expired(u, p) }

  function IsLingering(p: Policy): Unit -> bool { u => !Protected(u, p) && !Expired(u, p) }

  ghost predicate LruSorted(us: seq<Unit>) {
    forall i, j :: 0 <= i < j < |us| ==> us[i].lastUse <= us[j].lastUse
  }

  /** Any result `sort.Slice` may leave: the sort is unstable, so equal last-use times
      come out in an arbitrary order. */
  ghost predicate LruOrder(ordered: seq<Unit>, units: seq<Unit>) {
    LruSorted(ordered) && multiset(ordered) == multiset(units)
  }

  ghost predicate UniqueNames(us: seq<Unit>) {
    forall i, j :: 0 <= i < j < |us| ==> us[i].entry.name != us[j].entry.name
  }

  lemma FilterSorted(us: seq<Unit>, f: Unit -> bool)
    requires LruSorted(us)
    ensures LruSorted(Filter(f, us))
  {
    if us != [] {
      var n := |us| - 1;
      var init := Filter(f, us[..n]);
      FilterSorted(us[..n], f);
      FilterMembers(f, us[..n]);
      forall i | 0 <= i < |init| ensures init[i].lastUse <= us[n].lastUse {
        assert init[i] in us[..n];
      }
    }
  }

  lemma FilterUnique(us: seq<Unit>, f: Unit -> bool)
    requires UniqueNames(us)
    ensures UniqueNames(Filter(f, us))
  {
    if us != [] {
      var n := |us| - 1;
      var init := Filter(f, us[..n]);
      FilterUnique(us[..n], f);
      FilterMembers(f, us[..n]);
      forall i | 0 <= i < |init| ensures init[i].entry.name != us[n].entry.name {
        assert init[i] in us[..n];
      }
    }
  }

  // ---------- the plan, stated without loops ----------

  /** The unprotected units, least recently used first. */
  function Disposables(ordered: seq<Unit>, p: Policy): seq<Unit> {
    Filter(IsDisposable(p), ordered)
  }

  function ExpiredCount(ordered: seq<Unit>, p: Policy): nat {
    |Filter(IsExpired(p), ordered)|
  }

  /** The bytes of the first `j` units of `d`. */
  function FreedBy(d: seq<Unit>, j: nat): nat
    requires j <= |d|
  {
    TotalBytes(d[..j])
  }

  /** Is there still pressure once the first `j` disposable units are gone? */
  predicate PressedAfter(d: seq<Unit>, j: nat, p: Policy, used: int, free: int)
    requires j <= |d|
  {
    Pressed(used - FreedBy(d, j), Refill(free, FreedBy(d, j)), p)
  }

  /** The first length from `j` on at which the pressure is over, or all of `d`. */
  function EasedFrom(d: seq<Unit>, j: nat, p: Policy, used: int, free: int): (k: nat)
    requires j <= |d|
    ensures j <= k <= |d|
    ensures k < |d| ==> !PressedAfter(d, k, p, used, free)
    ensures forall i :: j <= i < k ==> PressedAfter(d, i, p, used, free)
    decreases |d| - j
  {
    if j == |d| || !PressedAfter(d, j, p, used, free) then j else EasedFrom(d, j + 1, p, used, free)
  }

  function ReasonAt(d: seq<Unit>, j: nat, expired: nat, p: Policy, used: int): Reason
    requires j < |d|
  {
    if j < expired then Retention
    else if OverBudget(used - FreedBy(d, j), p) then Budget
    else Reserve
  }

  lemma ExpiredAreDisposable(ordered: seq<Unit>, p: Policy)
    ensures ExpiredCount(ordered, p) <= |Disposables(ordered, p)|
  {
    if ordered != [] {
      ExpiredAreDisposable(ordered[..|ordered| - 1], p);
    }
  }

  /** How many disposable units the plan takes. */
  function PlannedCount(ordered: seq<Unit>, p: Policy, used: int, free: int): (m: nat)
    ensures m <= |Disposables(ordered, p)|
  {
    ExpiredAreDisposable(ordered, p);
    EasedFrom(Disposables(ordered, p), ExpiredCount(ordered, p), p, used, free)
  }

  /** The plan for one LRU order: a prefix of the disposable units. */
  function Plan(ordered: seq<Unit>, p: Policy, used: int, free: int): (plan: seq<Decision>)
    ensures |plan| == PlannedCount(ordered, p, used, free)
  {
    var d := Disposables(ordered, p);
    seq(PlannedCount(ordered, p, used, free),
        j requires 0 <= j < |d| => Decision(d[j], ReasonAt(d, j, ExpiredCount(ordered, p), p, used)))
  }

  function UnitsOf(plan: seq<Decision>): (us: seq<Unit>)
    ensures |us| == |plan|
    ensures forall i :: 0 <= i < |us| ==> us[i] == plan[i].unit
  {
    seq(|plan|, i requires 0 <= i < |plan| => plan[i].unit)
  }

  function NamesOf(us: seq<Unit>): (names: set<string>) {
    set u | u in us :: u.entry.name
  }

  // ---------- planCache ----------

  lemma InsertKeepsOrder(sorted: seq<Unit>, u: Unit, k: nat)
    requires LruSorted(sorted) && k <= |sorted|
    requires k > 0 ==> sorted[k - 1].lastUse <= u.lastUse
    requires k < |sorted| ==> u.lastUse <= sorted[k].lastUse
    ensures LruSorted(sorted[..k] + [u] + sorted[k..])
  {
    var r := sorted[..k] + [u] + sorted[k..];
    forall i, j | 0 <= i < j < |r| ensures r[i].lastUse <= r[j].lastUse {
      assert k > 0 && i < k ==> sorted[i].lastUse <= sorted[k - 1].lastUse;
      assert k < |sorted| && j > k ==> sorted[k].lastUse <= sorted[j - 1].lastUse;
    }
  }

  lemma InsertKeepsUnits(sorted: seq<Unit>, u: Unit, k: nat)
    requires k <= |sorted|
    ensures multiset(sorted[..k] + [u] + sorted[k..]) == multiset(sorted) + multiset{u}
  {
    assert sorted == sorted[..k] + sorted[k..];
  }

  lemma InsertNext(sorted: seq<Unit>, units: seq<Unit>, i: nat, k: nat)
    requires i < |units| && LruOrder(sorted, units[..i]) && k <= |sorted|
    requires k > 0 ==> sorted[k - 1].lastUse <= units[i].lastUse
    requires k < |sorted| ==> units[i].lastUse <= sorted[k].lastUse
    ensures LruOrder(sorted[..k] + [units[i]] + sorted[k..], units[..i + 1])
  {
    InsertKeepsOrder(sorted, units[i], k);
    InsertKeepsUnits(sorted, units[i], k);
    assert units[..i + 1] == units[..i] + [units[i]];
  }

  /** Stands for `sort.Slice` by last use: callers may rely on the contract only. */
  method SortByLastUse(units: seq<Unit>) returns (ordered: seq<Unit>)
    ensures LruOrder(ordered, units)
  {
    ordered := [];
    for i := 0 to |units|
      invariant LruOrder(ordered, units[..i])
    {
      var k := PlaceFor(ordered, units[i]);
      InsertNext(ordered, units, i, k);
      ordered := ordered[..k] + [units[i]] + ordered[k..];
    }
    assert units[..|units|] == units;
  }

  /** A place for one more unit in an ordered list. */
  method PlaceFor(ordered: seq<Unit>, u: Unit) returns (k: nat)
    ensures k <= |ordered|
    ensures k > 0 ==> ordered[k - 1].lastUse <= u.lastUse
    ensures k < |ordered| ==> u.lastUse <= ordered[k].lastUse
  {
    k := |ordered|;
    while k > 0 && u.lastUse < ordered[k - 1].lastUse
      invariant k <= |ordered|
      invariant k < |ordered| ==> u.lastUse <= ordered[k].lastUse
    {
      k := k - 1;
    }
  }

  /** Once a unit has expired, so has every disposable unit used no later. */
  lemma {:induction false} NothingLingersBefore(us: seq<Unit>, last: Unit, p: Policy)
    requires Expired(last, p)
    requires forall i :: 0 <= i < |us| ==> us[i].lastUse <= last.lastUse
    ensures Filter(IsLingering(p), us) == []
  {
    if us != [] {
      var n := |us| - 1;
      NothingLingersBefore(us[..n], last, p);
      assert us[n].lastUse <= last.lastUse;
    }
  }

  /** On an LRU order the expired units come first among the disposable ones. */
  lemma {:induction false} DisposablesSplit(ordered: seq<Unit>, p: Policy)
    requires LruSorted(ordered)
    ensures Disposables(ordered, p) == Filter(IsExpired(p), ordered) + Filter(IsLingering(p), ordered)
  {
    if ordered != [] {
      var n := |ordered| - 1;
      var init, last := ordered[..n], ordered[n];
      DisposablesSplit(init, p);
      if Expired(last, p) {
        NothingLingersBefore(init, last, p);
      }
    }
  }

  lemma TotalBytesAppend(a: seq<Unit>, b: seq<Unit>)
    ensures TotalBytes(a + b) == TotalBytes(a) + TotalBytes(b)
  {
    if b == [] {
      assert a + b == a;
    } else {
      assert (a + b)[..|a + b| - 1] == a + b[..|b| - 1];
      TotalBytesAppend(a, b[..|b| - 1]);
    }
  }

  lemma FreedByNext(d: seq<Unit>, n: nat)
    requires n < |d|
    ensures FreedBy(d, n + 1) == FreedBy(d, n) + d[n].entry.bytes
  {
    assert d[..n + 1][..n] == d[..n];
  }

  lemma UnitsOfNext(plan: seq<Decision>, next: Decision)
    ensures UnitsOf(plan + [next]) == UnitsOf(plan) + [next.unit]
  {
  }

  lemma Reassociate(a: seq<Unit>, b: seq<Unit>, u: Unit)
    ensures (a + b) + [u] == a + (b + [u])
  {
  }

  /** Skipping one step of EasedFrom. */
  lemma EasedStep(d: seq<Unit>, j: nat, p: Policy, used: int, free: int)
    requires j < |d| && Pressed(used - FreedBy(d, j), Refill(free, FreedBy(d, j)), p)
    ensures EasedFrom(d, j, p, used, free) == EasedFrom(d, j + 1, p, used, free)
  {
  }

  lemma NothingExpires(ordered: seq<Unit>, p: Policy)
    requires p.retain <= 0
    ensures Filter(IsExpired(p), ordered) == []
  {
  }

  lemma PermutationUnique(ordered: seq<Unit>, units: seq<Unit>)
    requires multiset(ordered) == multiset(units) && UniqueNames(units)
    ensures UniqueNames(ordered)
  {
    forall i, j | 0 <= i < j < |ordered|
      ensures ordered[i].entry.name != ordered[j].entry.name
    {
      var a, b := ordered[i], ordered[j];
      assert a in multiset(units) && b in multiset(units);
      UniqueOccurrence(units, a);
      if a == b {
        TwiceCountsTwice(ordered, i, j);
      }
    }
  }

  lemma UniqueOccurrence(units: seq<Unit>, a: Unit)
    requires UniqueNames(units)
    ensures multiset(units)[a] <= 1
  {
    if units != [] {
      var n := |units| - 1;
      assert units == units[..n] + [units[n]];
      UniqueOccurrence(units[..n], a);
    }
  }

  /** With unique names, the `taken` map of the first pass holds the expired units exactly. */
  lemma TakenExactlyExpired(order: seq<Unit>, p: Policy, u: Unit)
    requires UniqueNames(order) && u in order
    ensures u.entry.name in NamesOf(Filter(IsExpired(p), order)) <==> Expired(u, p)
  {
    FilterMembers(IsExpired(p), order);
  }

  lemma FilterPrefix(us: seq<Unit>, f: Unit -> bool, i: nat)
    requires i <= |us|
    ensures |Filter(f, us[..i])| <= |Filter(f, us)|
    ensures Filter(f, us)[..|Filter(f, us[..i])|] == Filter(f, us[..i])
  {
    if i == |us| {
      assert us[..i] == us;
    } else {
      assert us[..|us| - 1][..i] == us[..i];
      FilterPrefix(us[..|us| - 1], f, i);
    }
  }

  /** The next lingering unit of the order is the next disposable unit of the plan. */
  lemma NextLingering(order: seq<Unit>, p: Policy, i: nat)
    requires LruSorted(order) && i < |order| && IsLingering(p)(order[i])
    ensures var n := ExpiredCount(order, p) + |Filter(IsLingering(p), order[..i])|;
            n < |Disposables(order, p)| && Disposables(order, p)[n] == order[i]
  {
    DisposablesSplit(order, p);
    assert order[..i + 1][..i] == order[..i];
    FilterPrefix(order, IsLingering(p), i + 1);
  }

  /** What the first pass of planCache has established over a prefix of the order. */
  ghost predicate RetentionPass(done: seq<Unit>, p: Policy, plan: seq<Decision>, taken: set<string>, freed: int) {
    && UnitsOf(plan) == Filter(IsExpired(p), done)
    && taken == NamesOf(UnitsOf(plan))
    && freed == TotalBytes(UnitsOf(plan))
    && forall k :: 0 <= k < |plan| ==> plan[k].reason == Retention
  }

  lemma TakenNext(us: seq<Unit>, u: Unit)
    ensures TotalBytes(us + [u]) == TotalBytes(us) + u.entry.bytes
  {
    assert (us + [u])[..|us|] == us;
  }

  lemma NamesNext(us: seq<Unit>, u: Unit)
    ensures NamesOf(us + [u]) == NamesOf(us) + {u.entry.name}
  {
    forall name ensures name in NamesOf(us + [u]) <==> name in NamesOf(us) + {u.entry.name} {
      assert (us + [u])[|us|] == u;
      assert forall v :: v in us + [u] <==> v in us || v == u;
    }
  }

  lemma RetentionSkip(order: seq<Unit>, p: Policy, i: nat, plan: seq<Decision>, taken: set<string>, freed: int)
    requires i < |order| && RetentionPass(order[..i], p, plan, taken, freed) && !Expired(order[i], p)
    ensures RetentionPass(order[..i + 1], p, plan, taken, freed)
  {
    FilterNext(IsExpired(p), order, i);
  }

  lemma RetentionTake(order: seq<Unit>, p: Policy, i: nat, plan: seq<Decision>, taken: set<string>, freed: int)
    requires i < |order| && RetentionPass(order[..i], p, plan, taken, freed) && Expired(order[i], p)
    ensures RetentionPass(order[..i + 1], p, plan + [Decision(order[i], Retention)],
                          taken + {order[i].entry.name}, freed + order[i].entry.bytes)
  {
    var u := order[i];
    FilterNext(IsExpired(p), order, i);
    UnitsOfNext(plan, Decision(u, Retention));
    TakenNext(UnitsOf(plan), u);
    NamesNext(UnitsOf(plan), u);
  }

  /** Every decision takes the unit of `d` at its own place, for the reason due there. */
  ghost predicate Justified(plan: seq<Decision>, d: seq<Unit>, e: nat, p: Policy, used0: int)
    requires |plan| <= |d|
  {
    forall k :: 0 <= k < |plan| ==> plan[k] == Decision(d[k], ReasonAt(d, k, e, p, used0))
  }

  lemma JustifiedExtends(plan: seq<Decision>, next: Decision, d: seq<Unit>, e: nat, p: Policy, used0: int)
    requires |plan| < |d| && Justified(plan, d, e, p, used0)
    requires next == Decision(d[|plan|], ReasonAt(d, |plan|, e, p, used0))
    ensures Justified(plan + [next], d, e, p, used0)
  {
    forall k | 0 <= k < |plan + [next]|
      ensures (plan + [next])[k] == Decision(d[k], ReasonAt(d, k, e, p, used0))
    {
      if k < |plan| {
        assert (plan + [next])[k] == plan[k];
      }
    }
  }

  /** What the second pass of planCache has established after `i` units of the order. */
  ghost predicate PressurePass(order: seq<Unit>, p: Policy, used0: int, free0: int,
                               i: nat, plan: seq<Decision>, used: int, free: int)
    requires i <= |order|
  {
    var d := Disposables(order, p);
    var e := ExpiredCount(order, p);
    && UnitsOf(plan) == Filter(IsExpired(p), order) + Filter(IsLingering(p), order[..i])
    && e <= |plan| <= |d|
    && used == used0 - FreedBy(d, |plan|)
    && free == Refill(free0, FreedBy(d, |plan|))
    && EasedFrom(d, e, p, used0, free0) == EasedFrom(d, |plan|, p, used0, free0)
    && Justified(plan, d, e, p, used0)
  }

  lemma PressureSkip(order: seq<Unit>, p: Policy, used0: int, free0: int,
                     i: nat, plan: seq<Decision>, used: int, free: int)
    requires i < |order| && PressurePass(order, p, used0, free0, i, plan, used, free)
    requires !IsLingering(p)(order[i])
    ensures PressurePass(order, p, used0, free0, i + 1, plan, used, free)
  {
    FilterNext(IsLingering(p), order, i);
  }

  lemma PressureTake(order: seq<Unit>, p: Policy, used0: int, free0: int,
                     i: nat, plan: seq<Decision>, used: int, free: int, reason: Reason)
    requires LruSorted(order)
    requires i < |order| && PressurePass(order, p, used0, free0, i, plan, used, free)
    requires IsLingering(p)(order[i]) && Pressed(used, free, p)
    requires reason == if OverBudget(used, p) then Budget else Reserve
    ensures PressurePass(order, p, used0, free0, i + 1, plan + [Decision(order[i], reason)],
                         used - order[i].entry.bytes, Refill(free, order[i].entry.bytes))
  {
    var d := Disposables(order, p);
    var n := |plan|;
    var next := Decision(order[i], reason);
    PressureUnits(order, p, i, plan, next);
    NextLingering(order, p, i);
    PressureNumbers(d, n, p, used0, free0, used, free);
    JustifiedExtends(plan, next, d, ExpiredCount(order, p), p, used0);
  }

  lemma PressureNumbers(d: seq<Unit>, n: nat, p: Policy, used0: int, free0: int, used: int, free: int)
    requires n < |d| && used == used0 - FreedBy(d, n) && free == Refill(free0, FreedBy(d, n)) && Pressed(used, free, p)
    ensures used - d[n].entry.bytes == used0 - FreedBy(d, n + 1)
    ensures Refill(free, d[n].entry.bytes) == Refill(free0, FreedBy(d, n + 1))
    ensures EasedFrom(d, n, p, used0, free0) == EasedFrom(d, n + 1, p, used0, free0)
  {
    FreedByNext(d, n);
    EasedStep(d, n, p, used0, free0);
  }

  lemma PressureUnits(order: seq<Unit>, p: Policy, i: nat, plan: seq<Decision>, next: Decision)
    requires i < |order| && IsLingering(p)(order[i]) && next.unit == order[i]
    requires UnitsOf(plan) == Filter(IsExpired(p), order) + Filter(IsLingering(p), order[..i])
    ensures UnitsOf(plan + [next]) == Filter(IsExpired(p), order) + Filter(IsLingering(p), order[..i + 1])
  {
    FilterNext(IsLingering(p), order, i);
    UnitsOfNext(plan, next);
    Reassociate(Filter(IsExpired(p), order), Filter(IsLingering(p), order[..i]), order[i]);
  }

  lemma PressureStart(order: seq<Unit>, p: Policy, used0: int, free0: int, plan: seq<Decision>)
    requires LruSorted(order)
    requires UnitsOf(plan) == Filter(IsExpired(p), order)
    requires forall k :: 0 <= k < |plan| ==> plan[k].reason == Retention
    ensures PressurePass(order, p, used0, free0, 0, plan, used0 - TotalBytes(UnitsOf(plan)),
                         Refill(free0, TotalBytes(UnitsOf(plan))))
  {
    DisposablesSplit(order, p);
    assert Disposables(order, p)[..|plan|] == UnitsOf(plan);
  }

  lemma PressureEnd(order: seq<Unit>, p: Policy, used0: int, free0: int,
                    i: nat, plan: seq<Decision>, used: int, free: int)
    requires LruSorted(order)
    requires i <= |order| && PressurePass(order, p, used0, free0, i, plan, used, free)
    requires i == |order| || !Pressed(used, free, p)
    ensures plan == Plan(order, p, used0, free0)
  {
    if i == |order| {
      assert order[..i] == order;
      DisposablesSplit(order, p);
    }
  }

  /** The retention pass of `planCache`. */
  method PlanRetention(order: seq<Unit>, p: Policy) returns (plan: seq<Decision>, taken: set<string>, freed: nat)
    ensures RetentionPass(order, p, plan, taken, freed)
  {
    plan, taken, freed := [], {}, 0;
    if p.retain > 0 {
      for i := 0 to |order|
        invariant RetentionPass(order[..i], p, plan, taken, freed)
      {
        var u := order[i];
        if Protected(u, p) || Since(p.now, u.lastUse) <= p.retain {
          RetentionSkip(order, p, i, plan, taken, freed);
          continue;
        }
        RetentionTake(order, p, i, plan, taken, freed);
        plan := plan + [Decision(u, Retention)];
        taken := taken + {u.entry.name};
        freed := freed + u.entry.bytes;
      }
      assert order[..|order|] == order;
    } else {
      NothingExpires(order, p);
    }
  }

  /** `planCache`: two passes over one LRU order, the second one stopping as soon as
      nothing presses any more. */
  method PlanCache(units: seq<Unit>, used0: int, free0: int, p: Policy)
    returns (plan: seq<Decision>, ordered: seq<Unit>)
    requires UniqueNames(units)
    ensures LruOrder(ordered, units)
    ensures plan == Plan(ordered, p, used0, free0)
  {
    var order := SortByLastUse(units);
    ordered := order;
    PermutationUnique(order, units);
    var taken, freed;
    plan, taken, freed := PlanRetention(order, p);
    PressureStart(order, p, used0, free0, plan);
    var used := used0 - freed;
    var free := free0;
    if free >= 0 {
      free := free + freed;
    }

    var i := 0;
    while i < |order|
      invariant 0 <= i <= |order|
      invariant PressurePass(order, p, used0, free0, i, plan, used, free)
    {
      var u := order[i];
      TakenExactlyExpired(order, p, u);
      if u.entry.name in taken || Protected(u, p) {
        PressureSkip(order, p, used0, free0, i, plan, used, free);
        i := i + 1;
        continue;
      }
      var overBudget := OverBudget(used, p);
      var underReserve := UnderReserve(free, p);
      if !overBudget && !underReserve {
        break;
      }
      var reason := Budget;
      if !overBudget && underReserve {
        reason := Reserve;
      }
      PressureTake(order, p, used0, free0, i, plan, used, free, reason);
      plan := plan + [Decision(u, reason)];
      used := used - u.entry.bytes;
      if free >= 0 {
        free := free + u.entry.bytes;
      }
      i := i + 1;
    }
    PressureEnd(order, p, used0, free0, i, plan, used, free);
  }
}
