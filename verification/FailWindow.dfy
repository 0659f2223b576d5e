/** The sliding window of failed sign-ins (admin.go). Times are in nanoseconds. */
module FailWindow {
  import opened Basics

  const WINDOW: int := 600_000_000_000
  const LIMIT: nat := 10
  const MAP_CAP: nat := 10_000

  type Hits = map<string, seq<int>>

  function Get(hits: Hits, ip: string): seq<int> {
    if ip in hits then hits[ip] else []
  }

  function IsAfter(cut: int): int -> bool {
    (t: int) => t > cut
  }

  /** The times after the cut. */
  function Recent(ts: seq<int>, cut: int): seq<int> {
    Filter(IsAfter(cut), ts)
  }

  // ---------- what the operations do to the map ----------

  /** `blocked` prunes the address it looks at, and leaves no empty entry behind. */
  function Pruned(hits: Hits, ip: string, now: int): Hits {
    var keep := Recent(Get(hits, ip), now - WINDOW);
    if keep == [] then hits - {ip} else hits[ip := keep]
  }

  predicate Stale(ts: seq<int>, cut: int) {
    |ts| == 0 || ts[|ts| - 1] < cut
  }

  function WithoutStale(hits: Hits, cut: int): Hits {
    map ip | ip in hits && !Stale(hits[ip], cut) :: hits[ip]
  }

  /** Too many addresses have failed lately: `fail` drops them all. */
  predicate Overrun(hits: Hits, now: int) {
    |hits| > MAP_CAP && |WithoutStale(hits, now - WINDOW)| > MAP_CAP
  }

  function Swept(hits: Hits, now: int): Hits {
    if |hits| <= MAP_CAP then hits
    else if Overrun(hits, now) then map[]
    else WithoutStale(hits, now - WINDOW)
  }

  /** `fail` reads the clock twice: for the sweep and for the failure it records. */
  function Failed(hits: Hits, ip: string, sweepAt: int, now: int): Hits {
    var h := Swept(hits, sweepAt);
    h[ip := Get(h, ip) + [now]]
  }

  // ---------- the window and the full history ----------

  /** Beside the map: `history` is every failure of an address since it was last reset, and `since`
      those of them that came after the map was last dropped wholesale. */
  datatype State = State(hits: Hits, since: Hits, history: Hits, clock: int)

  datatype Event = Blocked(ip: string, now: int) | Fail(ip: string, sweepAt: int, now: int) | Reset(ip: string)

  predicate InOrder(s: State, e: Event) {
    match e
    case Blocked(_, now) => s.clock <= now
    case Fail(_, sweepAt, now) => s.clock <= sweepAt <= now
    case Reset(_) => true
  }

  function Appended(h: Hits, ip: string, now: int): Hits {
    h[ip := Get(h, ip) + [now]]
  }

  function Next(s: State, e: Event): State {
    match e
    case Blocked(ip, now) => State(Pruned(s.hits, ip, now), s.since, s.history, now)
    case Fail(ip, sweepAt, now) =>
      State(Failed(s.hits, ip, sweepAt, now), Appended(Past(s, sweepAt), ip, now), Appended(s.history, ip, now), now)
    case Reset(ip) => State(s.hits - {ip}, s.since - {ip}, s.history - {ip}, s.clock)
  }

  /** What `blocked` answers, from the map. */
  predicate Answer(hits: Hits, ip: string, now: int) {
    |Recent(Get(hits, ip), now - WINDOW)| >= LIMIT
  }

  predicate Ordered(ts: seq<int>) {
    forall i, j :: 0 <= i < j < |ts| ==> ts[i] <= ts[j]
  }

  predicate NoneAfter(ts: seq<int>, t: int) {
    forall i :: 0 <= i < |ts| ==> ts[i] <= t
  }

  /** An entry and a history: the entry is in order and not in the future, and the two agree on
      what the window still covers. */
  predicate Agree(entry: seq<int>, past: seq<int>, clock: int) {
    && Recent(entry, clock - WINDOW) == Recent(past, clock - WINDOW)
    && Ordered(entry) && NoneAfter(entry, clock)
  }

  predicate EndsIn(full: seq<int>, part: seq<int>) {
    |part| <= |full| && full[|full| - |part|..] == part
  }

  ghost predicate Agrees(s: State, ip: string) {
    Agree(Get(s.hits, ip), Get(s.since, ip), s.clock) && EndsIn(Get(s.history, ip), Get(s.since, ip))
  }

  ghost predicate Inv(s: State) {
    |s.hits| <= MAP_CAP + 1 && forall ip {:trigger Agrees(s, ip)} :: Agrees(s, ip)
  }

  lemma RecentSnoc(ts: seq<int>, t: int, cut: int)
    ensures Recent(ts + [t], cut) == Recent(ts, cut) + if t > cut then [t] else []
  {
    assert (ts + [t])[..|ts|] == ts;
  }

  lemma {:induction false} RecentTwice(ts: seq<int>, cut: int, later: int)
    requires cut <= later
    ensures Recent(Recent(ts, cut), later) == Recent(ts, later)
  {
    if ts != [] {
      var n := |ts| - 1;
      var r := Recent(ts[..n], cut);
      RecentTwice(ts[..n], cut, later);
      RecentSnoc(r, ts[n], later);
      assert Recent(ts, cut) == if ts[n] > cut then r + [ts[n]] else r;
    }
  }

  lemma {:induction false} RecentIsOrdered(ts: seq<int>, cut: int, clock: int)
    requires Ordered(ts) && NoneAfter(ts, clock)
    ensures Ordered(Recent(ts, cut)) && NoneAfter(Recent(ts, cut), clock)
    ensures ts != [] ==> NoneAfter(Recent(ts, cut), ts[|ts| - 1])
  {
    if ts != [] {
      var n := |ts| - 1;
      var r := Recent(ts[..n], cut);
      RecentIsOrdered(ts[..n], cut, clock);
      assert Recent(ts, cut) == if ts[n] > cut then r + [ts[n]] else r;
      assert n > 0 ==> ts[..n][n - 1] <= ts[n];
    }
  }

  lemma {:induction false} NoneRecent(ts: seq<int>, cut: int)
    requires NoneAfter(ts, cut)
    ensures Recent(ts, cut) == []
  {
    if ts != [] {
      var n := |ts| - 1;
      assert NoneAfter(ts[..n], cut);
      NoneRecent(ts[..n], cut);
    }
  }

  /** What agrees on a window agrees on every later one. */
  lemma AgreeLater(a: seq<int>, b: seq<int>, clock: int, later: int)
    requires Agree(a, b, clock) && clock <= later
    ensures Agree(a, b, later)
  {
    RecentTwice(a, clock - WINDOW, later - WINDOW);
    RecentTwice(b, clock - WINDOW, later - WINDOW);
  }

  lemma AgreePruned(a: seq<int>, b: seq<int>, clock: int)
    requires Agree(a, b, clock)
    ensures Agree(Recent(a, clock - WINDOW), b, clock)
  {
    RecentTwice(a, clock - WINDOW, clock - WINDOW);
    RecentIsOrdered(a, clock - WINDOW, clock);
  }

  lemma AgreeDropped(a: seq<int>, b: seq<int>, clock: int)
    requires Agree(a, b, clock) && Stale(a, clock - WINDOW)
    ensures Agree([], b, clock)
  {
    if a != [] {
      assert NoneAfter(a, clock - WINDOW);
    }
    NoneRecent(a, clock - WINDOW);
  }

  lemma AgreeAppended(a: seq<int>, b: seq<int>, clock: int)
    requires Agree(a, b, clock)
    ensures Agree(a + [clock], b + [clock], clock)
  {
    RecentSnoc(a, clock, clock - WINDOW);
    RecentSnoc(b, clock, clock - WINDOW);
  }

  lemma BlockedAgrees(s: State, ip: string, now: int, a: string)
    requires Agrees(s, a) && s.clock <= now
    ensures Agrees(Next(s, Blocked(ip, now)), a)
  {
    AgreeLater(Get(s.hits, a), Get(s.since, a), s.clock, now);
    AgreePruned(Get(s.hits, a), Get(s.since, a), now);
    assert Get(Pruned(s.hits, ip, now), a)
        == if a == ip then Recent(Get(s.hits, ip), now - WINDOW) else Get(s.hits, a);
  }

  function Past(s: State, sweepAt: int): Hits {
    if Overrun(s.hits, sweepAt) then map[] else s.since
  }

  /** The sweep keeps what an address needs, unless it drops everything. */
  lemma SweptAgree(hits: Hits, past: seq<int>, clock: int, sweepAt: int, a: string)
    requires Agree(Get(hits, a), past, clock) && clock <= sweepAt
    ensures Agree(Get(Swept(hits, sweepAt), a), if Overrun(hits, sweepAt) then [] else past, sweepAt)
  {
    var ts := Get(hits, a);
    AgreeLater(ts, past, clock, sweepAt);
    if Stale(ts, sweepAt - WINDOW) {
      AgreeDropped(ts, past, sweepAt);
    }
  }

  /** A failure of anyone, as one address sees it. */
  lemma FailedAgree(hits: Hits, past: seq<int>, clock: int, ip: string, sweepAt: int, now: int, a: string)
    requires Agree(Get(hits, a), past, clock) && clock <= sweepAt <= now
    ensures var kept := if Overrun(hits, sweepAt) then [] else past;
      Agree(Get(Failed(hits, ip, sweepAt, now), a), if a == ip then kept + [now] else kept, now)
  {
    SweptAgree(hits, past, clock, sweepAt, a);
    var h, kept := Swept(hits, sweepAt), if Overrun(hits, sweepAt) then [] else past;
    AgreeLater(Get(h, a), kept, sweepAt, now);
    AgreeAppended(Get(h, a), kept, now);
  }

  lemma FailAgrees(s: State, ip: string, sweepAt: int, now: int, a: string)
    requires Agrees(s, a) && s.clock <= sweepAt <= now
    ensures Agrees(Next(s, Fail(ip, sweepAt, now)), a)
  {
    FailedAgree(s.hits, Get(s.since, a), s.clock, ip, sweepAt, now, a);
    EndGrows(Get(s.history, a), Get(s.since, a), now);
    EndGrows(Get(s.history, a), [], now);
  }

  lemma EndGrows(full: seq<int>, part: seq<int>, t: int)
    requires EndsIn(full, part)
    ensures EndsIn(full + [t], part + [t]) && EndsIn(full, [])
  {
    assert (full + [t])[|full| - |part|..] == full[|full| - |part|..] + [t];
  }

  lemma ResetAgrees(s: State, ip: string, a: string)
    requires Agrees(s, a)
    ensures Agrees(Next(s, Reset(ip)), a)
  {
  }

  lemma FailSize(hits: Hits, ip: string, sweepAt: int, now: int)
    requires |hits| <= MAP_CAP + 1
    ensures |Failed(hits, ip, sweepAt, now)| <= MAP_CAP + 1
  {
    var h := Swept(hits, sweepAt);
    assert Failed(hits, ip, sweepAt, now).Keys == h.Keys + {ip};
  }

  lemma PruneSize(hits: Hits, ip: string, now: int)
    ensures |Pruned(hits, ip, now)| <= |hits| && |hits - {ip}| <= |hits|
  {
    var keep := Recent(Get(hits, ip), now - WINDOW);
    assert (hits - {ip}).Keys == hits.Keys - {ip};
    if keep != [] {
      assert hits[ip := keep].Keys == hits.Keys;
    }
  }

  lemma NextKeepsInv(s: State, e: Event)
    requires Inv(s) && InOrder(s, e)
    ensures Inv(Next(s, e))
  {
    match e
    case Blocked(ip, now) =>
      PruneSize(s.hits, ip, now);
      forall a ensures Agrees(Next(s, e), a) {
        BlockedAgrees(s, ip, now, a);
      }
    case Fail(ip, sweepAt, now) =>
      FailSize(s.hits, ip, sweepAt, now);
      forall a ensures Agrees(Next(s, e), a) {
        FailAgrees(s, ip, sweepAt, now, a);
      }
    case Reset(ip) =>
      PruneSize(s.hits, ip, s.clock);
      forall a ensures Agrees(Next(s, e), a) {
        ResetAgrees(s, ip, a);
      }
  }

  // ---------- runs ----------

  const START := State(map[], map[], map[], 0)

  function After(start: int, log: seq<Event>): State {
    if log == [] then START.(clock := start) else Next(After(start, log[..|log| - 1]), log[|log| - 1])
  }

  predicate StepInOrder(start: int, log: seq<Event>, i: nat)
    requires i < |log|
  {
    InOrder(After(start, log[..i]), log[i])
  }

  /** The clock never goes back. */
  ghost predicate Monotone(start: int, log: seq<Event>) {
    forall i: nat {:trigger StepInOrder(start, log, i)} :: i < |log| ==> StepInOrder(start, log, i)
  }

  predicate StepOverruns(start: int, log: seq<Event>, i: nat)
    requires i < |log|
  {
    log[i].Fail? && Overrun(After(start, log[..i]).hits, log[i].sweepAt)
  }

  /** The map is never dropped wholesale. */
  ghost predicate NeverOverruns(start: int, log: seq<Event>) {
    forall i: nat {:trigger StepOverruns(start, log, i)} :: i < |log| ==> !StepOverruns(start, log, i)
  }

  lemma MonotoneInit(start: int, log: seq<Event>)
    requires log != [] && Monotone(start, log)
    ensures Monotone(start, log[..|log| - 1]) && InOrder(After(start, log[..|log| - 1]), log[|log| - 1])
  {
    var n := |log| - 1;
    forall i: nat | i < n ensures StepInOrder(start, log[..n], i) {
      assert log[..n][..i] == log[..i];
      assert StepInOrder(start, log, i);
    }
    assert StepInOrder(start, log, n);
  }

  lemma NeverOverrunsInit(start: int, log: seq<Event>)
    requires log != [] && NeverOverruns(start, log)
    ensures NeverOverruns(start, log[..|log| - 1])
    ensures var e := log[|log| - 1]; e.Fail? ==> !Overrun(After(start, log[..|log| - 1]).hits, e.sweepAt)
  {
    var n := |log| - 1;
    forall i: nat | i < n ensures !StepOverruns(start, log[..n], i) {
      assert log[..n][..i] == log[..i];
      assert !StepOverruns(start, log, i);
    }
    assert !StepOverruns(start, log, n);
  }

  lemma OneMoreEvent(start: int, log: seq<Event>, e: Event)
    requires Monotone(start, log) && NeverOverruns(start, log) && InOrder(After(start, log), e)
    requires e.Fail? ==> !Overrun(After(start, log).hits, e.sweepAt)
    ensures Monotone(start, log + [e]) && NeverOverruns(start, log + [e])
    ensures After(start, log + [e]) == Next(After(start, log), e)
  {
    var more := log + [e];
    assert more[..|log|] == log;
    forall i: nat | i < |more| ensures StepInOrder(start, more, i) && !StepOverruns(start, more, i) {
      if i < |log| {
        assert more[..i] == log[..i];
        assert StepInOrder(start, log, i) && !StepOverruns(start, log, i);
      }
    }
  }

  lemma {:induction false} RunKeepsInv(start: int, log: seq<Event>)
    requires Monotone(start, log)
    ensures Inv(After(start, log))
  {
    if log != [] {
      var n := |log| - 1;
      MonotoneInit(start, log);
      RunKeepsInv(start, log[..n]);
      NextKeepsInv(After(start, log[..n]), log[n]);
    }
  }

  lemma {:induction false} NothingDropped(start: int, log: seq<Event>)
    requires NeverOverruns(start, log)
    ensures After(start, log).since == After(start, log).history
  {
    if log != [] {
      NeverOverrunsInit(start, log);
      NothingDropped(start, log[..|log| - 1]);
    }
  }

  lemma AnswersAgree(s: State, ip: string, now: int)
    requires Inv(s) && s.clock <= now
    ensures Recent(Get(s.hits, ip), now - WINDOW) == Recent(Get(s.since, ip), now - WINDOW)
    ensures Answer(s.hits, ip, now) ==> Answer(s.history, ip, now)
  {
    assert Agrees(s, ip);
    AgreeLater(Get(s.hits, ip), Get(s.since, ip), s.clock, now);
    RecentOfEnd(Get(s.history, ip), Get(s.since, ip), now - WINDOW);
  }

  lemma RecentOfEnd(full: seq<int>, part: seq<int>, cut: int)
    requires EndsIn(full, part)
    ensures |Recent(part, cut)| <= |Recent(full, cut)|
  {
    var k := |full| - |part|;
    assert full == full[..k] + part;
    FilterConcat(IsAfter(cut), full[..k], part);
  }

  /** However the map has been pruned: an address is blocked exactly when it has ten failures in the
      last ten minutes since its reset and the last wholesale drop; so never without ten in its full
      history, and, as long as nothing has been dropped, exactly with them. The map never holds more
      than 10,001 addresses. */
  lemma BlockedAsTheFullHistory(start: int, log: seq<Event>, ip: string, now: int)
    requires Monotone(start, log) && After(start, log).clock <= now
    ensures var s := After(start, log);
      && (Answer(s.hits, ip, now) <==> Answer(s.since, ip, now))
      && (Answer(s.hits, ip, now) ==> Answer(s.history, ip, now))
      && (NeverOverruns(start, log) ==> (Answer(s.hits, ip, now) <==> Answer(s.history, ip, now)))
      && |s.hits| <= MAP_CAP + 1
  {
    RunKeepsInv(start, log);
    AnswersAgree(After(start, log), ip, now);
    if NeverOverruns(start, log) {
      NothingDropped(start, log);
    }
  }

  // ---------- the log in plain terms ----------

  /** The times at which an address has failed behind its last reset, read off the log. */
  function FailuresOf(log: seq<Event>, ip: string): seq<int> {
    if log == [] then []
    else
      var before := FailuresOf(log[..|log| - 1], ip);
      match log[|log| - 1]
      case Fail(a, _, now) => if a == ip then before + [now] else before
      case Reset(a) => if a == ip then [] else before
      case Blocked(_, _) => before
  }

  /** The same, leaving out what came before the last wholesale drop of the map. */
  function FailuresKept(start: int, log: seq<Event>, ip: string): seq<int> {
    if log == [] then []
    else
      var n := |log| - 1;
      var before := if StepOverruns(start, log, n) then [] else FailuresKept(start, log[..n], ip);
      match log[n]
      case Fail(a, _, now) => if a == ip then before + [now] else before
      case Reset(a) => if a == ip then [] else before
      case Blocked(_, _) => before
  }

  /** The two histories are those of the log. */
  lemma {:induction false} HistoryIsTheLog(start: int, log: seq<Event>, ip: string)
    ensures Get(After(start, log).history, ip) == FailuresOf(log, ip)
    ensures Get(After(start, log).since, ip) == FailuresKept(start, log, ip)
  {
    if log != [] {
      var n := |log| - 1;
      HistoryIsTheLog(start, log[..n], ip);
      assert StepOverruns(start, log, n) <==> log[n].Fail? && Overrun(After(start, log[..n]).hits, log[n].sweepAt);
    }
  }

  lemma SameFilter<T>(p: T -> bool, q: T -> bool, s: seq<T>)
    requires forall x :: p(x) <==> q(x)
    ensures Filter(p, s) == Filter(q, s)
  {
  }

  /** Ten failures of an address behind its last reset and less than ten minutes ago block it, and
      nothing else does, as long as the map has not been dropped wholesale. */
  lemma BlockedByTenIn600Seconds(start: int, log: seq<Event>, ip: string, now: int)
    requires Monotone(start, log) && NeverOverruns(start, log) && After(start, log).clock <= now
    ensures Answer(After(start, log).hits, ip, now) <==>
      |Filter((t: int) => now - t < 600_000_000_000, FailuresOf(log, ip))| >= 10
  {
    BlockedAsTheFullHistory(start, log, ip, now);
    HistoryIsTheLog(start, log, ip);
    SameFilter((t: int) => now - t < 600_000_000_000, IsAfter(now - WINDOW), FailuresOf(log, ip));
  }

  /** A reset lets its address in at any time after it, and changes no other answer. */
  lemma ResetLetsIn(s: State, ip: string, now: int, a: string)
    ensures var t := Next(s, Reset(ip));
      !Answer(t.hits, ip, now) && (a != ip ==> (Answer(t.hits, a, now) <==> Answer(s.hits, a, now)))
  {
    assert Recent([], now - WINDOW) == [];
  }

  /** Looking an address up changes no later answer, its own included, and leaves nothing behind in the
      map that has left the window. */
  lemma LookingChangesNothing(s: State, ip: string, now: int, later: int, a: string)
    requires now <= later
    ensures var t := Next(s, Blocked(ip, now));
      && (Answer(t.hits, a, later) <==> Answer(s.hits, a, later))
      && t.hits - {ip} == s.hits - {ip}
      && (ip in t.hits ==> t.hits[ip] != [] && forall x :: x in t.hits[ip] ==> now - x < 600_000_000_000)
  {
    FilterMembers(IsAfter(now - WINDOW), Get(s.hits, ip));
    RecentTwice(Get(s.hits, ip), now - WINDOW, later - WINDOW);
    assert Get(Pruned(s.hits, ip, now), ip) == Recent(Get(s.hits, ip), now - WINDOW);
  }

  /** Some failure of the address is at most ten minutes old. */
  predicate FailedLately(hits: Hits, ip: string, now: int) {
    ip in hits && exists i :: 0 <= i < |hits[ip]| && now - hits[ip][i] <= 600_000_000_000
  }

  /** A failure drops the whole map exactly when more than ten thousand addresses have failed lately. */
  lemma OverrunIff(start: int, log: seq<Event>, sweepAt: int)
    requires Monotone(start, log)
    ensures var hits := After(start, log).hits;
      Overrun(hits, sweepAt) <==> |set ip | ip in hits && FailedLately(hits, ip, sweepAt)| > 10_000
  {
    var hits := After(start, log).hits;
    var lately := set ip | ip in hits && FailedLately(hits, ip, sweepAt);
    RunKeepsInv(start, log);
    forall ip | ip in hits ensures FailedLately(hits, ip, sweepAt) <==> !Stale(hits[ip], sweepAt - WINDOW) {
      assert Agrees(After(start, log), ip);
      LatelyIsNotStale(hits, ip, sweepAt);
    }
    KeptAre(hits, lately, sweepAt);
  }

  lemma LatelyIsNotStale(hits: Hits, ip: string, sweepAt: int)
    requires ip in hits && Ordered(hits[ip])
    ensures FailedLately(hits, ip, sweepAt) <==> !Stale(hits[ip], sweepAt - WINDOW)
  {
    var ts := hits[ip];
    if !Stale(ts, sweepAt - WINDOW) {
      assert sweepAt - ts[|ts| - 1] <= 600_000_000_000;
    }
  }

  lemma KeptAre(hits: Hits, kept: set<string>, sweepAt: int)
    requires forall ip :: ip in kept <==> ip in hits && !Stale(hits[ip], sweepAt - WINDOW)
    ensures Overrun(hits, sweepAt) <==> |kept| > 10_000
  {
    assert WithoutStale(hits, sweepAt - WINDOW).Keys == kept;
    SubsetSize(kept, hits.Keys);
  }

  // ---------- the wholesale drop ----------

  /** After a wholesale drop nobody is blocked. */
  lemma OverrunUnblocks(hits: Hits, ip: string, sweepAt: int, now: int, later: int, a: string)
    requires Overrun(hits, sweepAt)
    ensures !Answer(Failed(hits, ip, sweepAt, now), a, later)
  {
    if a == ip {
      OneElement(now, later - WINDOW);
    }
  }

  lemma OneElement(t: int, cut: int)
    ensures |Recent([t], cut)| <= 1
  {
    FilterOne(IsAfter(cut), t);
  }

  /** The map agrees with the full history, address by address, on what the window covers. */
  ghost predicate Faithful(s: State) {
    forall a {:trigger Get(s.history, a)} :: Agree(Get(s.hits, a), Get(s.history, a), s.clock)
  }

  ghost predicate AnswersAsHistory(s: State, now: int) {
    forall a :: Answer(s.hits, a, now) <==> Answer(s.history, a, now)
  }

  ghost predicate NobodyBlocked(h: Hits, now: int) {
    forall a :: !Answer(h, a, now)
  }

  lemma FailureAnswers(s: State, ip: string, sweepAt: int, now: int, a: string)
    requires Faithful(s) && s.clock <= sweepAt <= now && !Overrun(s.hits, sweepAt)
    ensures var t := Next(s, Fail(ip, sweepAt, now)); Answer(t.hits, a, now) <==> Answer(t.history, a, now)
  {
    var t := Next(s, Fail(ip, sweepAt, now));
    var past := Get(s.history, a);
    FailedAgree(s.hits, past, s.clock, ip, sweepAt, now, a);
    assert Get(t.history, a) == if a == ip then past + [now] else past;
  }

  /** From a faithful map, the answers after one more failure are those of the full history for all
      addresses exactly when the failure finds no overrun, or the full history blocks nobody. */
  lemma FailureKeepsAnswersIff(s: State, ip: string, sweepAt: int, now: int)
    requires Faithful(s) && s.clock <= sweepAt <= now
    ensures var t := Next(s, Fail(ip, sweepAt, now));
      AnswersAsHistory(t, now) <==> !Overrun(s.hits, sweepAt) || NobodyBlocked(t.history, now)
  {
    var t := Next(s, Fail(ip, sweepAt, now));
    if Overrun(s.hits, sweepAt) {
      forall a ensures !Answer(t.hits, a, now) {
        OverrunUnblocks(s.hits, ip, sweepAt, now, now, a);
      }
    } else {
      forall a ensures Answer(t.hits, a, now) <==> Answer(t.history, a, now) {
        FailureAnswers(s, ip, sweepAt, now, a);
      }
    }
  }

  /** Every run without a drop leaves the map faithful. */
  lemma RunIsFaithful(start: int, log: seq<Event>)
    requires Monotone(start, log) && NeverOverruns(start, log)
    ensures Faithful(After(start, log))
  {
    RunKeepsInv(start, log);
    NothingDropped(start, log);
    var s := After(start, log);
    forall a ensures Agree(Get(s.hits, a), Get(s.history, a), s.clock) {
      assert Agrees(s, a);
    }
  }

  // ---------- a run that overruns the map ----------

  /** The `n`-th of any number of different addresses. */
  function Addr(n: nat): string {
    seq(n, i => 'x')
  }

  /** A run without a drop whose map and histories are all `h`. */
  ghost predicate Leads(log: seq<Event>, h: Hits) {
    Monotone(0, log) && NeverOverruns(0, log) && After(0, log) == State(h, h, h, 0)
  }

  lemma QuietFail(log: seq<Event>, h: Hits, ip: string)
    requires Leads(log, h) && |h| <= MAP_CAP
    ensures Leads(log + [Fail(ip, 0, 0)], Appended(h, ip, 0))
  {
    OneMoreEvent(0, log, Fail(ip, 0, 0));
  }

  ghost predicate NoneStale(h: Hits) {
    forall ip :: ip in h ==> !Stale(h[ip], -WINDOW)
  }

  /** `n` addresses beside the first, none of them stale, and `k` recent failures of the first. */
  ghost predicate Flooded(h: Hits, k: nat, n: nat) {
    && |h| == n + 1 && NoneStale(h) && (forall ip :: ip in h ==> |ip| <= n)
    && |Recent(Get(h, Addr(0)), -WINDOW)| == k
  }

  lemma OneMoreTry(h: Hits, k: nat)
    requires if k == 0 then h == map[] else Flooded(h, k, 0)
    ensures Flooded(Appended(h, Addr(0), 0), k + 1, 0)
  {
    var more := Appended(h, Addr(0), 0);
    RecentSnoc(Get(h, Addr(0)), 0, -WINDOW);
    forall ip | ip in h ensures ip == Addr(0) {
      assert |ip| == 0;
    }
    assert more.Keys == {Addr(0)};
    assert |more.Keys| == 1;
  }

  lemma OneMoreAddress(h: Hits, k: nat, n: nat)
    requires Flooded(h, k, n)
    ensures Flooded(Appended(h, Addr(n + 1), 0), k, n + 1)
  {
    var ip := Addr(n + 1);
    assert |ip| == n + 1 && ip !in h && |Addr(0)| == 0;
    assert Appended(h, ip, 0).Keys == h.Keys + {ip};
  }

  /** Address 0 fails `k` times at one instant. */
  lemma {:induction false} TriesRun(k: nat) returns (log: seq<Event>, h: Hits)
    ensures Leads(log, h) && (if k == 0 then h == map[] else Flooded(h, k, 0))
  {
    if k == 0 {
      log, h := [], map[];
    } else {
      var before, was := TriesRun(k - 1);
      OneMoreTry(was, k - 1);
      QuietFail(before, was, Addr(0));
      log, h := before + [Fail(Addr(0), 0, 0)], Appended(was, Addr(0), 0);
    }
  }

  /** Then addresses 1 to `n` fail once each. */
  lemma {:induction false} FloodRun(k: nat, n: nat) returns (log: seq<Event>, h: Hits)
    requires 0 < k && n <= MAP_CAP
    ensures Leads(log, h) && Flooded(h, k, n)
  {
    if n == 0 {
      log, h := TriesRun(k);
    } else {
      var before, was := FloodRun(k, n - 1);
      OneMoreAddress(was, k, n - 1);
      QuietFail(before, was, Addr(n));
      log, h := before + [Fail(Addr(n), 0, 0)], Appended(was, Addr(n), 0);
    }
  }

  lemma FullMapOverruns(h: Hits, k: nat, n: nat)
    requires Flooded(h, k, n) && n == MAP_CAP
    ensures Overrun(h, 0)
  {
    assert WithoutStale(h, -WINDOW) == h;
  }

  lemma MoreStaysBlocked(h: Hits, ip: string)
    requires Answer(h, Addr(0), 0)
    ensures Answer(Appended(h, ip, 0), Addr(0), 0)
  {
    RecentSnoc(Get(h, Addr(0)), 0, -WINDOW);
  }

  /** An overrun is reached, with an address blocked until then: 10,001 addresses that fail at one
      instant, one of them ten times. The next failure of anyone lets that one in, against its full
      history. */
  lemma OverrunHappens(ip: string) returns (log: seq<Event>)
    ensures Monotone(0, log) && NeverOverruns(0, log) && Overrun(After(0, log).hits, 0)
    ensures Answer(After(0, log).hits, Addr(0), 0)
    ensures var t := Next(After(0, log), Fail(ip, 0, 0)); !Answer(t.hits, Addr(0), 0) && Answer(t.history, Addr(0), 0)
  {
    var h;
    log, h := FloodRun(LIMIT, MAP_CAP);
    FullMapOverruns(h, LIMIT, MAP_CAP);
    OverrunUnblocks(h, ip, 0, 0, 0, Addr(0));
    MoreStaysBlocked(h, ip);
  }

  // ---------- the class ----------

  class Window {
    var hits: Hits
    ghost var since: Hits
    ghost var history: Hits
    ghost var clock: int

    ghost function Snap(): State
      reads this
    {
      State(hits, since, history, clock)
    }

    ghost predicate Valid()
      reads this
    {
      Inv(Snap())
    }

    constructor (ghost start: int)
      ensures Valid() && Snap() == START.(clock := start)
    {
      hits, since, history, clock := map[], map[], map[], start;
    }

    method IsBlocked(ip: string, now: int) returns (b: bool)
      requires Valid() && clock <= now
      modifies this
      ensures Valid() && Snap() == Next(old(Snap()), Blocked(ip, now))
      ensures b == Answer(old(since), ip, now)
      ensures b ==> Answer(old(history), ip, now)
      ensures old(since) == old(history) ==> b == Answer(old(history), ip, now)
    {
      var cut := now - WINDOW;
      var all := Get(hits, ip);
      var keep := [];
      for i := 0 to |all|
        invariant keep == Recent(all[..i], cut)
      {
        assert all[..i + 1][..i] == all[..i];
        if all[i] > cut {
          keep := keep + [all[i]];
        }
      }
      assert all[..|all|] == all;
      AnswersAgree(Snap(), ip, now);
      NextKeepsInv(Snap(), Blocked(ip, now));
      if |keep| == 0 {
        hits := hits - {ip};
      } else {
        hits := hits[ip := keep];
      }
      clock := now;
      return |keep| >= LIMIT;
    }

    method DropStale(cut: int)
      modifies this`hits
      ensures hits == WithoutStale(old(hits), cut)
    {
      var keys := hits.Keys;
      ghost var was := hits;
      while keys != {}
        invariant keys <= was.Keys
        invariant hits == map k | k in was && (k in keys || !Stale(was[k], cut)) :: was[k]
        decreases |keys|
      {
        var k :| k in keys;
        keys := keys - {k};
        if Stale(hits[k], cut) {
          hits := hits - {k};
        }
      }
    }

    method Fail(ip: string, sweepAt: int, now: int)
      requires Valid() && clock <= sweepAt <= now
      modifies this
      ensures Valid() && Snap() == Next(old(Snap()), Event.Fail(ip, sweepAt, now))
    {
      NextKeepsInv(Snap(), Event.Fail(ip, sweepAt, now));
      if |hits| > MAP_CAP {
        DropStale(sweepAt - WINDOW);
        if |hits| > MAP_CAP {
          hits := map[];
          since := map[];
        }
      }
      hits := hits[ip := Get(hits, ip) + [now]];
      since := Appended(since, ip, now);
      history := Appended(history, ip, now);
      clock := now;
    }

    method Reset(ip: string)
      requires Valid()
      modifies this
      ensures Valid() && Snap() == Next(old(Snap()), Event.Reset(ip))
    {
      NextKeepsInv(Snap(), Event.Reset(ip));
      hits := hits - {ip};
      since := since - {ip};
      history := history - {ip};
    }
  }
}
