/** Two-factor sign-in: one-use codes and recovery codes (security.go). */
module SecondFactor {
  import opened Basics

  /** The functions that read and compute codes. `totp` takes a secret and a counter and fails when
      the secret cannot be decoded. */
  datatype Codes = Codes(
    totp: (string, int) -> Option<string>,
    hash: string -> string,
    trim: string -> string,
    upper: string -> string,
    dashless: string -> string)

  const PERIOD: int := 30
  const DIGITS: nat := 6
  const DRIFT: int := 1

  /** The settings kept in the store. An absent step reads as 0. */
  datatype Settings = Settings(secret: string, enabled: bool, pending: string, lastStep: int, recovery: seq<string>)

  /** Which of the settings a handler asks for can be read. */
  datatype Reads = Reads(secret: bool, lastStep: bool, enabled: bool, pending: bool, recovery: bool)

  const ALL_READ := Reads(true, true, true, true, true)

  /** The settings as read: one that cannot be read shows its default. */
  function Seen(s: Settings, r: Reads): Settings {
    Settings(
      if r.secret then s.secret else "",
      s.enabled && r.enabled,
      if r.pending then s.pending else "",
      if r.lastStep then s.lastStep else 0,
      if r.recovery then s.recovery else [])
  }

  predicate TwoFactorEnabled(s: Settings) {
    s.enabled && s.secret != ""
  }

  /** What a check came to: nothing, the step of a code, or the place of a recovery code. */
  datatype Factor = Refused | ByStep(step: int) | ByRecovery(idx: nat)

  // ---------- checking a code ----------

  /** Division as the source's integers do it, towards zero. */
  function Steps(seconds: int): int {
    if seconds >= 0 then seconds / PERIOD else -(-seconds / PERIOD)
  }

  function Counter(now: nat, i: int): int {
    Steps(now + i * PERIOD)
  }

  /** The first step from `i` on, within the drift, whose code this is. */
  function StepFrom(x: Codes, secret: string, code: string, now: nat, i: int): Option<int>
    decreases DRIFT + 1 - i
  {
    if i > DRIFT then None
    else
      var want := x.totp(secret, Counter(now, i));
      if want.None? then None
      else if want.value == code then Some(Steps(now) + i)
      else StepFrom(x, secret, code, now, i + 1)
  }

  function VerifiedStep(x: Codes, secret: string, code: string, now: nat): Option<int> {
    if x.trim(secret) == "" || |x.trim(code)| != DIGITS then None
    else StepFrom(x, secret, x.trim(code), now, -DRIFT)
  }

  /** `verifyTOTPStep` */
  method VerifyTOTPStep(x: Codes, secret: string, code0: string, now: nat) returns (r: Option<int>)
    ensures r == VerifiedStep(x, secret, code0, now)
    ensures r.Some? ==> Steps(now) - DRIFT <= r.value <= Steps(now) + DRIFT
  {
    if x.trim(secret) == "" {
      return None;
    }
    var code := x.trim(code0);
    if |code| != DIGITS {
      return None;
    }
    var i := -DRIFT;
    while i <= DRIFT
      invariant -DRIFT <= i <= DRIFT + 1
      invariant StepFrom(x, secret, code, now, -DRIFT) == StepFrom(x, secret, code, now, i)
    {
      var want := x.totp(secret, Counter(now, i));
      if want.None? {
        return None;
      }
      if want.value == code {
        return Some(Steps(now) + i);
      }
      i := i + 1;
    }
    return None;
  }

  /** Where a hash first is in a list, or the length of the list. */
  function IndexOf(hashes: seq<string>, h: string): (i: nat)
    ensures i <= |hashes|
    ensures i < |hashes| ==> hashes[i] == h
    ensures forall k :: 0 <= k < i ==> hashes[k] != h
  {
    if hashes == [] then 0
    else if hashes[0] == h then 0
    else 1 + IndexOf(hashes[1..], h)
  }

  function Without<T>(s: seq<T>, i: nat): seq<T>
    requires i < |s|
  {
    s[..i] + s[i + 1..]
  }

  /** The place of a recovery code among the stored hashes. */
  function RecoveryPlace(x: Codes, s: Settings, code: string): Option<nat> {
    var norm := x.upper(x.trim(code));
    var i := IndexOf(s.recovery, x.hash(norm));
    if |x.dashless(norm)| < 8 || i == |s.recovery| then None else Some(i)
  }

  /** What `checkSecondFactor` decides on the settings it reads; `ok` says whether the write it needs
      succeeds. */
  function Decision(x: Codes, s: Settings, code0: string, now: nat, ok: bool): Factor {
    var code := x.trim(code0);
    if code == "" then Refused
    else
      var step := VerifiedStep(x, s.secret, code, now);
      if step.Some? then
        if step.value <= s.lastStep || !ok then Refused else ByStep(step.value)
      else
        var place := RecoveryPlace(x, s, code);
        if place.None? || !ok then Refused else ByRecovery(place.value)
  }

  function Spend(s: Settings, f: Factor): Settings {
    match f
    case Refused => s
    case ByStep(step) => s.(lastStep := step)
    case ByRecovery(i) => if i < |s.recovery| then s.(recovery := Without(s.recovery, i)) else s
  }

  // ---------- the transitions ----------

  /** Which of the writes of a handler succeed. */
  datatype Writes = Writes(secret: bool, lastStep: bool, enabled: bool, pending: bool, recovery: bool)

  datatype Event =
    | Begin(newSecret: string, r: Reads, ok: bool)
    | Check(code: string, now: nat, r: Reads, ok: bool)
    | Enable(code: string, now: nat, issued: seq<string>, r: Reads, w: Writes)
    | Disable(code: string, now: nat, r: Reads, ok: bool, w: Writes)

  function Enrolled(s: Settings, step: int, issued: seq<string>, w: Writes): Settings {
    Settings(
      if w.secret then s.pending else s.secret,
      s.enabled || w.enabled,
      if w.pending then "" else s.pending,
      if w.lastStep then step else s.lastStep,
      if w.recovery then issued else s.recovery)
  }

  function Cleared(s: Settings, w: Writes): Settings {
    Settings(
      if w.secret then "" else s.secret,
      s.enabled && !w.enabled,
      if w.pending then "" else s.pending,
      if w.lastStep then 0 else s.lastStep,
      if w.recovery then [] else s.recovery)
  }

  /** The settings after an event; the password has been checked. */
  function Next(x: Codes, s: Settings, e: Event): Settings {
    match e
    case Begin(secret, r, ok) => if TwoFactorEnabled(Seen(s, r)) || !ok then s else s.(pending := secret)
    case Check(code, now, r, ok) => Spend(s, Decision(x, Seen(s, r), code, now, ok))
    case Enable(code, now, issued, r, w) =>
      var pending := Seen(s, r).pending;
      var step := VerifiedStep(x, pending, code, now);
      if pending == "" || step.None? then s else Enrolled(s, step.value, issued, w)
    case Disable(code, now, r, ok, w) =>
      var f := Decision(x, Seen(s, r), code, now, ok);
      if f.Refused? then s else Cleared(Spend(s, f), w)
  }

  class Server {
    var secret: string
    var enabled: bool
    var pending: string
    var lastStep: int
    var recovery: seq<string>

    ghost function Store(): Settings
      reads this
    {
      Settings(secret, enabled, pending, lastStep, recovery)
    }

    constructor ()
      ensures Store() == Settings("", false, "", 0, [])
    {
      secret, enabled, pending, lastStep, recovery := "", false, "", 0, [];
    }

    /** `checkSecondFactor`: accepts a code once, or a recovery code once, or nothing. */
    method CheckSecondFactor(x: Codes, code0: string, now: nat, r: Reads, ok: bool) returns (f: Factor)
      modifies this`lastStep, this`recovery
      ensures f == Decision(x, Seen(old(Store()), r), code0, now, ok)
      ensures Store() == Spend(old(Store()), f)
    {
      var code := x.trim(code0);
      if code == "" {
        return Refused;
      }
      var step := VerifyTOTPStep(x, if r.secret then secret else "", code, now);
      if step.Some? {
        var last := if r.lastStep then lastStep else 0;
        if step.value <= last {
          return Refused;
        }
        if !ok {
          return Refused;
        }
        lastStep := step.value;
        return ByStep(step.value);
      }
      var norm := x.upper(x.trim(code));
      if |x.dashless(norm)| < 8 {
        return Refused;
      }
      f := SpendRecovery(x.hash(norm), r.recovery, ok);
    }

    method SpendRecovery(want: string, read: bool, ok: bool) returns (f: Factor)
      modifies this`recovery
      ensures var hashes := if read then old(recovery) else [];
        f == if IndexOf(hashes, want) == |hashes| || !ok then Refused else ByRecovery(IndexOf(hashes, want))
      ensures Store() == Spend(old(Store()), f)
    {
      var hashes := if read then recovery else [];
      for i := 0 to |hashes|
        invariant recovery == old(recovery)
        invariant forall k :: 0 <= k < i ==> hashes[k] != want
      {
        if hashes[i] == want {
          if !ok {
            return Refused;
          }
          recovery := Without(hashes, i);
          return ByRecovery(i);
        }
      }
      return Refused;
    }

    method BeginSetup(x: Codes, newSecret: string, r: Reads, ok: bool) returns (started: bool)
      modifies this`pending
      ensures started == !TwoFactorEnabled(Seen(old(Store()), r))
      ensures Store() == Next(x, old(Store()), Begin(newSecret, r, ok))
    {
      if enabled && r.enabled && secret != "" && r.secret {
        return false;
      }
      if ok {
        pending := newSecret;
      }
      return true;
    }

    /** The handler goes on whatever becomes of its writes. */
    method EnableTwoFactor(x: Codes, code: string, now: nat, issued: seq<string>, r: Reads, w: Writes)
      returns (done: bool)
      modifies this
      ensures var seen := Seen(old(Store()), r).pending;
        done <==> seen != "" && VerifiedStep(x, seen, code, now).Some?
      ensures Store() == Next(x, old(Store()), Enable(code, now, issued, r, w))
    {
      var seen := if r.pending then pending else "";
      if seen == "" {
        return false;
      }
      var step := VerifyTOTPStep(x, seen, code, now);
      if step.None? {
        return false;
      }
      WriteEnrolment(seen, step.value, issued, w);
      return true;
    }

    method WriteEnrolment(newSecret: string, step: int, issued: seq<string>, w: Writes)
      requires newSecret == pending
      modifies this
      ensures Store() == Enrolled(old(Store()), step, issued, w)
    {
      if w.secret {
        secret := newSecret;
      }
      if w.lastStep {
        lastStep := step;
      }
      if w.enabled {
        enabled := true;
      }
      if w.pending {
        pending := "";
      }
      if w.recovery {
        recovery := issued;
      }
    }

    method DisableTwoFactor(x: Codes, code: string, now: nat, r: Reads, ok: bool, w: Writes) returns (done: bool)
      modifies this
      ensures done <==> !Decision(x, Seen(old(Store()), r), code, now, ok).Refused?
      ensures Store() == Next(x, old(Store()), Disable(code, now, r, ok, w))
    {
      var f := CheckSecondFactor(x, code, now, r, ok);
      if f.Refused? {
        return false;
      }
      WriteCleared(w);
      return true;
    }

    method WriteCleared(w: Writes)
      modifies this
      ensures Store() == Cleared(old(Store()), w)
    {
      if w.secret {
        secret := "";
      }
      if w.enabled {
        enabled := false;
      }
      if w.pending {
        pending := "";
      }
      if w.recovery {
        recovery := [];
      }
      if w.lastStep {
        lastStep := 0;
      }
    }
  }

  // ---------- which codes are accepted ----------

  /** The counter `i` periods from now: 30-second steps, counted towards zero in the first period. */
  predicate IsCounter(now: nat, i: int, n: int) {
    n == if now >= 30 || i >= 0 then now / 30 + i else if now == 0 then i else i + 1
  }

  /** Six characters that are the code of the secret for the step `i` periods from now, and not the code
      of an earlier one, reading on only as long as the secret yields codes. */
  ghost predicate IsCodeAt(x: Codes, secret: string, code: string, now: nat, i: int) {
    && x.trim(secret) != "" && |x.trim(code)| == 6 && -1 <= i <= 1
    && (forall n :: IsCounter(now, i, n) ==> x.totp(secret, n) == Some(x.trim(code)))
    && (forall j, n :: -1 <= j < i && IsCounter(now, j, n) ==>
          x.totp(secret, n).Some? && x.totp(secret, n) != Some(x.trim(code)))
  }

  lemma CounterIs(now: nat, i: int)
    requires -1 <= i <= 1
    ensures IsCounter(now, i, Counter(now, i))
  {
  }

  /** The step reported is that of the earliest code within one step of the clock, and there is one
      exactly when some code is. */
  lemma VerifiedIff(x: Codes, secret: string, code: string, now: nat, t: int)
    ensures VerifiedStep(x, secret, code, now) == Some(t) <==>
      exists i :: IsCodeAt(x, secret, code, now, i) && t == now / 30 + i
  {
    CounterIs(now, -1);
    CounterIs(now, 0);
    CounterIs(now, 1);
    var c := x.trim(code);
    assert StepFrom(x, secret, c, now, 2) == None;
    if VerifiedStep(x, secret, code, now) == Some(t) {
      assert IsCodeAt(x, secret, code, now, t - now / 30);
    }
    if i :| IsCodeAt(x, secret, code, now, i) && t == now / 30 + i {
      VerifiedAt(x, secret, code, now, i);
    }
  }

  lemma VerifiedAt(x: Codes, secret: string, code: string, now: nat, i: int)
    requires IsCodeAt(x, secret, code, now, i)
    ensures VerifiedStep(x, secret, code, now) == Some(now / 30 + i)
  {
    CounterIs(now, -1);
    CounterIs(now, 0);
    CounterIs(now, 1);
    assert x.totp(secret, Counter(now, i)) == Some(x.trim(code));
    assert StepFrom(x, secret, x.trim(code), now, i) == Some(now / 30 + i);
  }

  lemma NoCodeIff(x: Codes, secret: string, code: string, now: nat)
    ensures VerifiedStep(x, secret, code, now).None? <==> forall j :: !IsCodeAt(x, secret, code, now, j)
  {
    forall j | IsCodeAt(x, secret, code, now, j) ensures VerifiedStep(x, secret, code, now).Some? {
      VerifiedAt(x, secret, code, now, j);
    }
    if VerifiedStep(x, secret, code, now).Some? {
      VerifiedIff(x, secret, code, now, VerifiedStep(x, secret, code, now).value);
    }
  }

  /** The code, in capitals and at least eight characters without its dashes, hashes to the stored hash
      `i` and to none before it. */
  ghost predicate IsRecoveryCode(x: Codes, hashes: seq<string>, code: string, i: int) {
    var norm := x.upper(x.trim(code));
    && |x.dashless(norm)| >= 8
    && 0 <= i < |hashes| && hashes[i] == x.hash(norm) && forall k :: 0 <= k < i ==> hashes[k] != x.hash(norm)
  }

  /** A sign-in passes by step `t` exactly with a code for that step, later than the stored one, that can
      be written. What cannot be read counts as absent. */
  lemma PassesByStepIff(x: Codes, s: Settings, r: Reads, code: string, now: nat, ok: bool, t: int)
    ensures var c, secret := x.trim(code), if r.secret then s.secret else "";
      Decision(x, Seen(s, r), code, now, ok) == ByStep(t) <==>
        && c != "" && ok && t > (if r.lastStep then s.lastStep else 0)
        && exists i :: IsCodeAt(x, secret, c, now, i) && t == now / 30 + i
  {
    VerifiedIff(x, if r.secret then s.secret else "", x.trim(code), now, t);
  }

  /** And by the recovery code at place `i` exactly when it is no code for a step, its own hash is stored
      there and nowhere before, and the list without it can be written. */
  lemma PassesByRecoveryIff(x: Codes, s: Settings, r: Reads, code: string, now: nat, ok: bool, i: nat)
    ensures var c, secret := x.trim(code), if r.secret then s.secret else "";
      Decision(x, Seen(s, r), code, now, ok) == ByRecovery(i) <==>
        && c != "" && ok && r.recovery && IsRecoveryCode(x, s.recovery, c, i)
        && forall j :: !IsCodeAt(x, secret, c, now, j)
  {
    NoCodeIff(x, if r.secret then s.secret else "", x.trim(code), now);
  }

  // ---------- between enabling and disabling ----------

  /** Setting up, enabling and disabling aside, what happens is that codes are checked, also by a
      request to disable that is refused. */
  predicate BetweenSwitches(x: Codes, s: Settings, e: Event) {
    match e
    case Begin(_, _, _) => true
    case Check(_, _, _, _) => true
    case Enable(code, now, _, r, _) =>
      Seen(s, r).pending == "" || VerifiedStep(x, Seen(s, r).pending, code, now).None?
    case Disable(code, now, r, ok, _) => Decision(x, Seen(s, r), code, now, ok).Refused?
  }

  function After(x: Codes, s: Settings, log: seq<Event>): Settings {
    if log == [] then s else Next(x, After(x, s, log[..|log| - 1]), log[|log| - 1])
  }

  ghost predicate Between(x: Codes, s: Settings, log: seq<Event>) {
    forall i :: 0 <= i < |log| ==> BetweenSwitches(x, After(x, s, log[..i]), log[i])
  }

  function Accepted(x: Codes, s: Settings, e: Event): Factor {
    if e.Check? then Decision(x, Seen(s, e.r), e.code, e.now, e.ok) else Refused
  }

  /** The steps accepted over a log, in order. */
  function AcceptedSteps(x: Codes, s: Settings, log: seq<Event>): seq<int> {
    if log == [] then []
    else
      var n := |log| - 1;
      var f := Accepted(x, After(x, s, log[..n]), log[n]);
      AcceptedSteps(x, s, log[..n]) + (if f.ByStep? then [f.step] else [])
  }

  /** The hashes of the recovery codes accepted over a log, in order. */
  function SpentHashes(x: Codes, s: Settings, log: seq<Event>): seq<string> {
    if log == [] then []
    else
      var n := |log| - 1;
      var t := After(x, s, log[..n]);
      var f := Accepted(x, t, log[n]);
      SpentHashes(x, s, log[..n]) + (if f.ByRecovery? && f.idx < |t.recovery| then [t.recovery[f.idx]] else [])
  }

  predicate Increasing(ts: seq<int>) {
    forall i, j :: 0 <= i < j < |ts| ==> ts[i] < ts[j]
  }

  predicate Within(ts: seq<int>, low: int, high: int) {
    low <= high && forall i :: 0 <= i < |ts| ==> low < ts[i] <= high
  }

  lemma BetweenInit(x: Codes, s: Settings, log: seq<Event>)
    requires log != [] && Between(x, s, log)
    ensures Between(x, s, log[..|log| - 1])
    ensures BetweenSwitches(x, After(x, s, log[..|log| - 1]), log[|log| - 1])
  {
    var n := |log| - 1;
    forall i | 0 <= i < n ensures BetweenSwitches(x, After(x, s, log[..n][..i]), log[..n][i]) {
      assert log[..n][..i] == log[..i];
    }
  }

  lemma StepKeeps(x: Codes, s: Settings, e: Event)
    requires BetweenSwitches(x, s, e)
    ensures var t, f := Next(x, s, e), Accepted(x, s, e);
      && t.secret == s.secret && t.enabled == s.enabled
      && t.lastStep == (if f.ByStep? then f.step else s.lastStep)
      && (f.ByStep? ==> if e.r.lastStep then s.lastStep < f.step else 0 < f.step)
      && (f.ByRecovery? ==> f.idx < |s.recovery|)
      && t.recovery == (if f.ByRecovery? then Without(s.recovery, f.idx) else s.recovery)
  {
  }

  /** Every code that was accepted was compared with the stored step, not with its default. */
  ghost predicate StepsRead(x: Codes, s: Settings, log: seq<Event>) {
    forall i :: 0 <= i < |log| ==> StepRead(x, After(x, s, log[..i]), log[i])
  }

  predicate StepRead(x: Codes, s: Settings, e: Event) {
    Accepted(x, s, e).ByStep? ==> e.r.lastStep
  }

  lemma StepsReadInit(x: Codes, s: Settings, log: seq<Event>)
    requires log != [] && StepsRead(x, s, log)
    ensures StepsRead(x, s, log[..|log| - 1]) && StepRead(x, After(x, s, log[..|log| - 1]), log[|log| - 1])
  {
    var n := |log| - 1;
    forall i | 0 <= i < n ensures StepRead(x, After(x, s, log[..n][..i]), log[..n][i]) {
      assert log[..n][..i] == log[..i];
    }
  }

  /** Codes are one-use, whatever is tried and whichever writes fail: as long as the stored step can be
      read when a code is accepted, the accepted steps strictly increase, from above the step stored
      at the start. */
  lemma {:induction false} StepsIncrease(x: Codes, s: Settings, log: seq<Event>)
    requires Between(x, s, log) && StepsRead(x, s, log)
    ensures Increasing(AcceptedSteps(x, s, log))
    ensures Within(AcceptedSteps(x, s, log), s.lastStep, After(x, s, log).lastStep)
    ensures After(x, s, log).secret == s.secret
  {
    if log != [] {
      var n := |log| - 1;
      BetweenInit(x, s, log);
      StepsReadInit(x, s, log);
      StepsIncrease(x, s, log[..n]);
      StepKeeps(x, After(x, s, log[..n]), log[n]);
      var before := AcceptedSteps(x, s, log[..n]);
      var f := Accepted(x, After(x, s, log[..n]), log[n]);
      assert AcceptedSteps(x, s, log) == before + if f.ByStep? then [f.step] else [];
    }
  }

  lemma WithoutCounts<T>(s: seq<T>, i: nat)
    requires i < |s|
    ensures multiset(Without(s, i)) + multiset{s[i]} == multiset(s)
  {
    assert s == s[..i] + [s[i]] + s[i + 1..];
  }

  /** Recovery codes are one-use: what is stored and what has been spent are together what was
      issued, so there are never more acceptances than codes. */
  lemma {:induction false} RecoveryIsConserved(x: Codes, s: Settings, log: seq<Event>)
    requires Between(x, s, log)
    ensures multiset(After(x, s, log).recovery) + multiset(SpentHashes(x, s, log)) == multiset(s.recovery)
    ensures |After(x, s, log).recovery| + |SpentHashes(x, s, log)| == |s.recovery|
  {
    if log != [] {
      var n := |log| - 1;
      BetweenInit(x, s, log);
      RecoveryIsConserved(x, s, log[..n]);
      SpendOne(x, After(x, s, log[..n]), log[n], SpentHashes(x, s, log[..n]));
    }
  }

  lemma SpendOne(x: Codes, t: Settings, e: Event, spent: seq<string>)
    requires BetweenSwitches(x, t, e)
    ensures var u, f := Next(x, t, e), Accepted(x, t, e);
      var more := spent + (if f.ByRecovery? && f.idx < |t.recovery| then [t.recovery[f.idx]] else []);
      && multiset(u.recovery) + multiset(more) == multiset(t.recovery) + multiset(spent)
      && |u.recovery| + |more| == |t.recovery| + |spent|
  {
    StepKeeps(x, t, e);
    var f := Accepted(x, t, e);
    if f.ByRecovery? {
      WithoutCounts(t.recovery, f.idx);
      assert multiset(spent + [t.recovery[f.idx]]) == multiset(spent) + multiset{t.recovery[f.idx]};
    }
  }

  /** The hashes of the codes presented when a recovery code was accepted, in order. */
  function PresentedHashes(x: Codes, s: Settings, log: seq<Event>): seq<string> {
    if log == [] then []
    else
      var n := |log| - 1;
      PresentedHashes(x, s, log[..n])
      + if Accepted(x, After(x, s, log[..n]), log[n]).ByRecovery? then [x.hash(x.upper(x.trim(x.trim(log[n].code))))]
        else []
  }

  lemma {:induction false} SpentArePresented(x: Codes, s: Settings, log: seq<Event>)
    ensures SpentHashes(x, s, log) == PresentedHashes(x, s, log)
  {
    if log != [] {
      var n := |log| - 1;
      SpentArePresented(x, s, log[..n]);
      var t, e := After(x, s, log[..n]), log[n];
      if e.Check? {
        var f := Accepted(x, t, e);
        if f.ByRecovery? {
          PassesByRecoveryIff(x, t, e.r, e.code, e.now, e.ok, f.idx);
        }
      }
    }
  }

  /** A recovery code is accepted at most as often as its own hash was issued. */
  lemma RecoveryCodesPassOnce(x: Codes, s: Settings, log: seq<Event>, h: string)
    requires Between(x, s, log)
    ensures multiset(PresentedHashes(x, s, log))[h] <= multiset(s.recovery)[h]
  {
    RecoveryIsConserved(x, s, log);
    SpentArePresented(x, s, log);
    assert multiset(s.recovery)[h] == multiset(After(x, s, log).recovery)[h] + multiset(SpentHashes(x, s, log))[h];
  }

  // ---------- the switches and failing writes ----------

  /** Setting up replaces what was pending exactly while two-factor is off, as far as can be read. */
  lemma BeginReplacesIff(x: Codes, s: Settings, newSecret: string, r: Reads, ok: bool)
    requires newSecret != s.pending
    ensures var t := Next(x, s, Begin(newSecret, r, ok));
      && (t.pending == newSecret <==> ok && !(r.enabled && r.secret && s.enabled && s.secret != ""))
      && t == s.(pending := t.pending)
  {
  }

  /** An enrolment whose writes succeed is in force: two-factor is on with the new secret, nothing is
      pending, codes later than the enrolment's pass, and so does every recovery code issued. */
  lemma EnrolmentTakesEffect(x: Codes, s: Settings, code: string, now: nat, issued: seq<string>, later: string,
                             at: nat)
    requires s.pending != "" && VerifiedStep(x, s.pending, code, now).Some?
    requires x.trim("") == "" && x.trim(x.trim(later)) == x.trim(later) && x.trim(later) != ""
    ensures var t := Next(x, s, Enable(code, now, issued, ALL_READ, Writes(true, true, true, true, true)));
      var step, again := VerifiedStep(x, s.pending, code, now).value, VerifiedStep(x, s.pending, later, at);
      && TwoFactorEnabled(t) && t.pending == ""
      && (again.Some? ==> (Decision(x, t, later, at, true).ByStep? <==> step < again.value))
      && (again.None? ==>
           (Decision(x, t, later, at, true).ByRecovery? <==> exists i :: IsRecoveryCode(x, issued, later, i)))
  {
    var t := Next(x, s, Enable(code, now, issued, ALL_READ, Writes(true, true, true, true, true)));
    VerifiedIff(x, s.pending, code, now, VerifiedStep(x, s.pending, code, now).value);
    var i := IndexOf(issued, x.hash(x.upper(x.trim(later))));
    assert RecoveryPlace(x, t, x.trim(later)).Some? ==> IsRecoveryCode(x, issued, later, i);
  }

  /** Each write of an enrolment that fails leaves the old value in force, the old recovery codes among
      them; and a pending secret that cannot be read enrols nobody. */
  lemma FailedWritesKeepTheOld(x: Codes, s: Settings, code: string, now: nat, issued: seq<string>, r: Reads, w: Writes)
    ensures var t := Next(x, s, Enable(code, now, issued, r, w));
      && (!r.pending ==> t == s)
      && (!w.secret ==> t.secret == s.secret) && (!w.enabled ==> t.enabled == s.enabled)
      && (!w.pending ==> t.pending == s.pending) && (!w.lastStep ==> t.lastStep == s.lastStep)
      && (!w.recovery ==> t.recovery == s.recovery)
  {
  }

  /** The same for a disable, which has spent its code by then. */
  lemma FailedWritesKeepTheRest(x: Codes, s: Settings, code: string, now: nat, w: Writes)
    requires !Decision(x, s, code, now, true).Refused?
    ensures var t, u := Next(x, s, Disable(code, now, ALL_READ, true, w)), Next(x, s, Check(code, now, ALL_READ, true));
      && t.secret == (if w.secret then "" else s.secret) && t.enabled == (s.enabled && !w.enabled)
      && (!w.pending ==> t.pending == s.pending) && (!w.recovery ==> t.recovery == u.recovery)
      && (!w.lastStep ==> t.lastStep == u.lastStep)
  {
  }

  /** After a disable whose writes succeed no code at all is accepted, and setting up can begin. */
  lemma DisablingTakesEffect(x: Codes, s: Settings, code: string, now: nat, later: string, at: nat)
    requires x.trim("") == "" && !Decision(x, s, code, now, true).Refused?
    ensures var t := Next(x, s, Disable(code, now, ALL_READ, true, Writes(true, true, true, true, true)));
      && !TwoFactorEnabled(t) && t.pending == "" && Decision(x, t, later, at, true).Refused?
  {
  }

  /** A code that has just been accepted is accepted again exactly when the stored step cannot be
      read: its default lets any step through. */
  lemma UsedCodeReplaysIff(x: Codes, s: Settings, code: string, now: nat, r: Reads)
    requires x.trim("") == "" && x.trim(x.trim(code)) == x.trim(code)
    requires VerifiedStep(x, s.secret, code, now) == Some(s.lastStep) && s.lastStep > 0
    ensures Decision(x, Seen(s, r), code, now, true).ByStep? <==> r.secret && !r.lastStep
  {
    VerifiedCode(x, s.secret, code, now);
  }

  lemma VerifiedCode(x: Codes, secret: string, code: string, now: nat)
    requires VerifiedStep(x, secret, code, now).Some? && x.trim(x.trim(code)) == x.trim(code)
    ensures x.trim(code) != "" && VerifiedStep(x, secret, x.trim(code), now) == VerifiedStep(x, secret, code, now)
  {
  }

  function EnableEvent(code: string, now: nat, issued: seq<string>, w: Writes): Event {
    Enable(code, now, issued, ALL_READ, w)
  }

  /** When enrolling leaves its code good for a sign-in. With the new secret stored: exactly when the
      write of the step failed and no old step was as late; the handler does not look at the outcome
      of that write. With the write of the secret failed the old secret is in force, and the code
      passes only if it is also a code of that one, for a step later than the one now stored. */
  lemma EnrolmentCodeIsSpentIff(x: Codes, s: Settings, code: string, now: nat, issued: seq<string>, w: Writes)
    requires s.pending != "" && VerifiedStep(x, s.pending, code, now).Some?
    requires x.trim(x.trim(code)) == x.trim(code)
    ensures var step := VerifiedStep(x, s.pending, code, now).value;
      var before := VerifiedStep(x, s.secret, code, now);
      var t := Next(x, s, EnableEvent(code, now, issued, w));
      Decision(x, Seen(t, ALL_READ), code, now, true).ByStep? <==>
        if w.secret then !w.lastStep && s.lastStep < step
        else before.Some? && before.value > if w.lastStep then step else s.lastStep
  {
    VerifiedCode(x, s.pending, code, now);
  }

  /** After enrolling with the step stored, only later steps are ever accepted. */
  lemma AcceptedAfterEnrolment(x: Codes, s: Settings, code: string, now: nat, issued: seq<string>, w: Writes,
                               log: seq<Event>)
    requires s.pending != "" && VerifiedStep(x, s.pending, code, now).Some?
    requires var step := VerifiedStep(x, s.pending, code, now).value; w.lastStep || step <= s.lastStep
    requires var t := Next(x, s, EnableEvent(code, now, issued, w)); Between(x, t, log) && StepsRead(x, t, log)
    ensures var step := VerifiedStep(x, s.pending, code, now).value;
      var steps := AcceptedSteps(x, Next(x, s, EnableEvent(code, now, issued, w)), log);
      Increasing(steps) && forall i :: 0 <= i < |steps| ==> step < steps[i]
  {
    StepsIncrease(x, Next(x, s, EnableEvent(code, now, issued, w)), log);
  }

  /** A first enrolment whose step is not stored leaves its own code good for one more sign-in. */
  lemma UnstoredEnrolmentReplays(x: Codes, s: Settings, code: string, now: nat, issued: seq<string>, w: Writes)
    requires s.pending != "" && s.lastStep == 0 && w.secret && !w.lastStep
    requires x.trim(x.trim(code)) == x.trim(code) && VerifiedStep(x, s.pending, code, now).Some?
    requires now >= 60
    ensures Decision(x, Next(x, s, EnableEvent(code, now, issued, w)), code, now, true).ByStep?
  {
    VerifiedCode(x, s.pending, code, now);
    StepIsNear(x, s.pending, code, now);
  }

  lemma StepIsNear(x: Codes, secret: string, code: string, now: nat)
    requires VerifiedStep(x, secret, code, now).Some?
    ensures Steps(now) - DRIFT <= VerifiedStep(x, secret, code, now).value <= Steps(now) + DRIFT
  {
    var c := x.trim(code);
    assert StepFrom(x, secret, c, now, 2) == None;
    assert StepFrom(x, secret, c, now, 1).Some? ==> StepFrom(x, secret, c, now, 1).value == Steps(now) + 1;
    assert StepFrom(x, secret, c, now, 0).Some? ==>
        Steps(now) <= StepFrom(x, secret, c, now, 0).value <= Steps(now) + 1;
  }

  /** Disabling with a code ends its use exactly when the secret goes, or at least the stored step
      stays: a disable that loses the step but keeps the secret lets the same code in again. */
  lemma DisablingCodeIsSpentIff(x: Codes, s: Settings, code: string, now: nat, w: Writes)
    requires x.trim(x.trim(code)) == x.trim(code) && Decision(x, s, code, now, true).ByStep? && s.lastStep >= 0
    requires x.trim("") == ""
    ensures var t := Next(x, s, Disable(code, now, ALL_READ, true, w));
      Decision(x, t, code, now, true).ByStep? <==> !w.secret && w.lastStep
  {
  }
}
