/** The connections of the shared port and the steps that move them (portmux.go). */
module MuxState {
  import opened Basics
  import Sniffer

  const QUEUE_CAP: nat := 64

  datatype Side = Web | Torrent

  /** One side: the connections it has been given so far in order, those of them already taken by
      its `Accept` and those still queued, and whether it has been closed. */
  datatype Lane = Lane(entered: seq<nat>, taken: seq<nat>, queue: seq<nat>, done: bool)

  /** Connections are numbered as they are accepted. */
  datatype State = State(next: nat, sniffing: set<nat>, waiting: map<nat, Side>, web: Lane, torrent: Lane,
                         closed: set<nat>, open: bool, serving: bool, backoff: nat)

  const EMPTY_LANE := Lane([], [], [], false)

  const START := State(0, {}, map[], EMPTY_LANE, EMPTY_LANE, {}, true, true, 0)

  function LaneOf(s: State, side: Side): Lane {
    if side == Web then s.web else s.torrent
  }

  function WithLane(s: State, side: Side, l: Lane): State {
    if side == Web then s.(web := l) else s.(torrent := l)
  }

  function Pushed(l: Lane, c: nat): Lane {
    l.(entered := l.entered + [c], queue := l.queue + [c])
  }

  function Popped(l: Lane): Lane
    requires l.queue != []
  {
    l.(taken := l.taken + [l.queue[0]], queue := l.queue[1..])
  }

  /** The pause after one more failed accept, in milliseconds. */
  function Backoff(b: nat): nat {
    if b == 0 then 5 else if b < 1000 then b * 2 else b
  }

  // ---------- the steps ----------

  /** One round of `Serve`. */
  function Accepted(s: State): State {
    s.(next := s.next + 1, sniffing := s.sniffing + {s.next}, backoff := 0)
  }

  function AcceptFailed(s: State): State {
    s.(backoff := Backoff(s.backoff))
  }

  function Stopped(s: State): State {
    s.(web := s.web.(done := true), torrent := s.torrent.(done := true), open := false, serving := false)
  }

  /** `dispatch` of one connection, up to its select: it is dropped, or waits for its side. */
  function Classified(s: State, c: nat, v: Sniffer.Verdict): State {
    var t := s.(sniffing := s.sniffing - {c});
    match v
    case Reject => t.(closed := t.closed + {c})
    case Web => t.(waiting := t.waiting[c := Web])
    case Torrent => t.(waiting := t.waiting[c := Torrent])
  }

  function Queued(s: State, c: nat, side: Side): State {
    WithLane(s.(waiting := s.waiting - {c}), side, Pushed(LaneOf(s, side), c))
  }

  function GivenUp(s: State, c: nat): State {
    s.(waiting := s.waiting - {c}, closed := s.closed + {c})
  }

  /** `Accept` of one side takes the head of its queue. */
  function Taken(s: State, side: Side): State
    requires LaneOf(s, side).queue != []
  {
    WithLane(s, side, Popped(LaneOf(s, side)))
  }

  function SideClosed(s: State, side: Side): State {
    WithLane(s, side, LaneOf(s, side).(done := true)).(open := false)
  }

  function RootClosed(s: State): State {
    s.(open := false)
  }

  datatype Event =
    | Accept
    | AcceptFails
    | AcceptClosed
    | Classify(conn: nat)
    | Enqueue(conn: nat)
    | GiveUp(conn: nat)
    | Take(side: Side)
    | CloseSide(side: Side)
    | CloseRoot

  /** The rounds of `Serve`. */
  predicate ServeRound(e: Event) {
    e.Accept? || e.AcceptFails? || e.AcceptClosed?
  }

  /** When an event can happen. A select that could go either way may go either way: a side that is
      closed can still be handed a connection while its queue has room, and can still hand one out. */
  predicate Enabled(s: State, e: Event) {
    match e
    case Accept => s.serving && s.open
    case AcceptFails => s.serving && s.open
    case AcceptClosed => s.serving && !s.open
    case Classify(c) => c in s.sniffing
    case Enqueue(c) => c in s.waiting && |LaneOf(s, s.waiting[c]).queue| < QUEUE_CAP
    case GiveUp(c) => c in s.waiting && LaneOf(s, s.waiting[c]).done
    case Take(side) => LaneOf(s, side).queue != []
    case CloseSide(_) => true
    case CloseRoot => true
  }

  /** `verdict` is what the sniffer makes of each connection. */
  function Next(s: State, e: Event, verdict: nat -> Sniffer.Verdict): State
    requires Enabled(s, e)
  {
    match e
    case Accept => Accepted(s)
    case AcceptFails => AcceptFailed(s)
    case AcceptClosed => Stopped(s)
    case Classify(c) => Classified(s, c, verdict(c))
    case Enqueue(c) => Queued(s, c, s.waiting[c])
    case GiveUp(c) => GivenUp(s, c)
    case Take(side) => Taken(s, side)
    case CloseSide(side) => SideClosed(s, side)
    case CloseRoot => RootClosed(s)
  }

  // ---------- what every state keeps ----------

  function One(b: bool): nat {
    if b then 1 else 0
  }

  /** In how many places a connection is: with the sniffer, waiting, in a queue or handed out of
      it, or closed. */
  function Places(s: State, c: nat): nat {
    One(c in s.sniffing) + One(c in s.waiting) + One(c in s.closed) + InLane(s.web, c) + InLane(s.torrent, c)
  }

  function InLane(l: Lane, c: nat): nat {
    multiset(l.queue)[c] + multiset(l.taken)[c]
  }

  function VerdictOf(side: Side): Sniffer.Verdict {
    if side == Web then Sniffer.Web else Sniffer.Torrent
  }

  ghost predicate LaneInv(l: Lane, side: Side, verdict: nat -> Sniffer.Verdict) {
    && l.entered == l.taken + l.queue
    && |l.queue| <= QUEUE_CAP
    && forall c :: c in l.entered ==> verdict(c) == VerdictOf(side)
  }

  ghost predicate PlacedOnce(s: State) {
    forall c: nat {:trigger Places(s, c)} :: Places(s, c) == One(c < s.next)
  }

  ghost predicate Inv(s: State, verdict: nat -> Sniffer.Verdict) {
    PlacedOnce(s) && Orderly(s, verdict)
  }

  ghost predicate Orderly(s: State, verdict: nat -> Sniffer.Verdict) {
    && LaneInv(s.web, Web, verdict) && LaneInv(s.torrent, Torrent, verdict)
    && (forall c :: c in s.waiting ==> verdict(c) == VerdictOf(s.waiting[c]))
    && (s.web.done || s.torrent.done ==> !s.open)
    && (!s.serving ==> s.web.done && s.torrent.done)
  }

  lemma StartInv(verdict: nat -> Sniffer.Verdict)
    ensures Inv(START, verdict)
  {
  }

  lemma PushedKeeps(l: Lane, c: nat, side: Side, verdict: nat -> Sniffer.Verdict)
    requires LaneInv(l, side, verdict) && |l.queue| < QUEUE_CAP && verdict(c) == VerdictOf(side)
    ensures LaneInv(Pushed(l, c), side, verdict)
  {
    assert l.entered + [c] == l.taken + (l.queue + [c]);
  }

  lemma PoppedKeeps(l: Lane, side: Side, verdict: nat -> Sniffer.Verdict)
    requires LaneInv(l, side, verdict) && l.queue != []
    ensures LaneInv(Popped(l), side, verdict)
  {
    assert l.entered == (l.taken + [l.queue[0]]) + l.queue[1..];
  }

  lemma PushedHolds(l: Lane, c: nat, d: nat)
    ensures InLane(Pushed(l, c), d) == InLane(l, d) + One(d == c)
  {
    assert multiset(l.queue + [c]) == multiset(l.queue) + multiset{c};
  }

  lemma PoppedHolds(l: Lane, d: nat)
    requires l.queue != []
    ensures InLane(Popped(l), d) == InLane(l, d)
  {
    var c := l.queue[0];
    assert l.queue == [c] + l.queue[1..];
    assert multiset(l.taken + [c]) == multiset(l.taken) + multiset{c};
  }

  lemma AcceptPlaces(s: State)
    requires PlacedOnce(s)
    ensures PlacedOnce(Accepted(s))
  {
    assert Places(s, s.next) == 0;
    forall d: nat ensures Places(Accepted(s), d) == One(d < s.next + 1) {
      assert Places(s, d) == One(d < s.next);
    }
  }

  lemma ClassifyPlaces(s: State, c: nat, v: Sniffer.Verdict)
    requires PlacedOnce(s) && c in s.sniffing
    ensures PlacedOnce(Classified(s, c, v))
  {
    assert Places(s, c) == One(c < s.next);
    forall d: nat ensures Places(Classified(s, c, v), d) == One(d < s.next) {
      assert Places(s, d) == One(d < s.next);
    }
  }

  lemma GiveUpPlaces(s: State, c: nat)
    requires PlacedOnce(s) && c in s.waiting
    ensures PlacedOnce(GivenUp(s, c))
  {
    assert Places(s, c) == One(c < s.next);
    forall d: nat ensures Places(GivenUp(s, c), d) == One(d < s.next) {
      assert Places(s, d) == One(d < s.next);
    }
  }

  lemma EnqueuePlaces(s: State, c: nat, side: Side)
    requires PlacedOnce(s) && c in s.waiting
    ensures PlacedOnce(Queued(s, c, side))
  {
    forall d: nat ensures Places(Queued(s, c, side), d) == One(d < s.next) {
      assert Places(s, d) == One(d < s.next);
      PushedHolds(LaneOf(s, side), c, d);
    }
  }

  lemma TakePlaces(s: State, side: Side)
    requires PlacedOnce(s) && LaneOf(s, side).queue != []
    ensures PlacedOnce(Taken(s, side))
  {
    forall d: nat ensures Places(Taken(s, side), d) == One(d < s.next) {
      assert Places(s, d) == One(d < s.next);
      PoppedHolds(LaneOf(s, side), d);
    }
  }

  lemma SamePlaces(s: State, t: State)
    requires PlacedOnce(s) && t.next == s.next && t.sniffing == s.sniffing
    requires t.waiting == s.waiting && t.closed == s.closed
    requires t.web.(done := s.web.done) == s.web && t.torrent.(done := s.torrent.done) == s.torrent
    ensures PlacedOnce(t)
  {
    forall d: nat ensures Places(t, d) == One(d < t.next) {
      assert Places(s, d) == One(d < s.next);
      assert InLane(t.web, d) == InLane(s.web, d);
      assert InLane(t.torrent, d) == InLane(s.torrent, d);
    }
  }

  lemma NextKeepsPlaces(s: State, e: Event, verdict: nat -> Sniffer.Verdict)
    requires PlacedOnce(s) && Enabled(s, e)
    ensures PlacedOnce(Next(s, e, verdict))
  {
    match e
    case Accept => AcceptPlaces(s);
    case Classify(c) => ClassifyPlaces(s, c, verdict(c));
    case Enqueue(c) => EnqueuePlaces(s, c, s.waiting[c]);
    case GiveUp(c) => GiveUpPlaces(s, c);
    case Take(side) => TakePlaces(s, side);
    case _ => SamePlaces(s, Next(s, e, verdict));
  }

  lemma NextKeepsOrder(s: State, e: Event, verdict: nat -> Sniffer.Verdict)
    requires Orderly(s, verdict) && Enabled(s, e)
    ensures Orderly(Next(s, e, verdict), verdict)
  {
    match e
    case Classify(c) => ClassifyKeepsOrder(s, c, verdict);
    case Enqueue(c) => EnqueueKeepsOrder(s, c, verdict);
    case GiveUp(c) => GiveUpKeepsOrder(s, c, verdict);
    case Take(side) => TakeKeepsOrder(s, side, verdict);
    case AcceptClosed =>
      ClosedKeeps(s.web, Web, verdict);
      ClosedKeeps(s.torrent, Torrent, verdict);
    case CloseSide(side) => ClosedKeeps(LaneOf(s, side), side, verdict);
    case _ =>
  }

  lemma ClosedKeeps(l: Lane, side: Side, verdict: nat -> Sniffer.Verdict)
    requires LaneInv(l, side, verdict)
    ensures LaneInv(l.(done := true), side, verdict)
  {
  }

  lemma ClassifyKeepsOrder(s: State, c: nat, verdict: nat -> Sniffer.Verdict)
    requires Orderly(s, verdict) && c in s.sniffing
    ensures Orderly(Classified(s, c, verdict(c)), verdict)
  {
  }

  lemma GiveUpKeepsOrder(s: State, c: nat, verdict: nat -> Sniffer.Verdict)
    requires Orderly(s, verdict) && c in s.waiting
    ensures Orderly(GivenUp(s, c), verdict)
  {
  }

  lemma EnqueueKeepsOrder(s: State, c: nat, verdict: nat -> Sniffer.Verdict)
    requires Orderly(s, verdict) && Enabled(s, Enqueue(c))
    ensures Orderly(Queued(s, c, s.waiting[c]), verdict)
  {
    PushedKeeps(LaneOf(s, s.waiting[c]), c, s.waiting[c], verdict);
  }

  lemma TakeKeepsOrder(s: State, side: Side, verdict: nat -> Sniffer.Verdict)
    requires Orderly(s, verdict) && LaneOf(s, side).queue != []
    ensures Orderly(Taken(s, side), verdict)
  {
    PoppedKeeps(LaneOf(s, side), side, verdict);
  }

  lemma NextKeepsInv(s: State, e: Event, verdict: nat -> Sniffer.Verdict)
    requires Inv(s, verdict) && Enabled(s, e)
    ensures Inv(Next(s, e, verdict), verdict)
  {
    NextKeepsPlaces(s, e, verdict);
    NextKeepsOrder(s, e, verdict);
  }

  // ---------- runs ----------

  ghost predicate IsRun(run: seq<State>, events: seq<Event>, verdict: nat -> Sniffer.Verdict) {
    run != [] && run[0] == START && Steps(run, events, verdict)
  }

  ghost predicate Steps(run: seq<State>, events: seq<Event>, verdict: nat -> Sniffer.Verdict) {
    && |run| == |events| + 1
    && forall i :: 0 <= i < |events| ==> Stepped(run[i], events[i], run[i + 1], verdict)
  }

  ghost predicate Stepped(s: State, e: Event, t: State, verdict: nat -> Sniffer.Verdict) {
    Enabled(s, e) && t == Next(s, e, verdict)
  }

  /** In every state of every run each accepted connection is in exactly one place, never on the
      side it was not meant for, and each side takes connections in the order it was given them. */
  lemma {:induction false} RunKeepsInv(run: seq<State>, events: seq<Event>, verdict: nat -> Sniffer.Verdict, i: nat)
    requires IsRun(run, events, verdict) && i < |run|
    ensures Inv(run[i], verdict)
  {
    if i == 0 {
      StartInv(verdict);
    } else {
      RunKeepsInv(run, events, verdict, i - 1);
      assert Stepped(run[i - 1], events[i - 1], run[i], verdict);
      NextKeepsInv(run[i - 1], events[i - 1], verdict);
    }
  }

  /** Nothing is ever taken back: what a side has handed out stays the front of what it hands out,
      and what is closed stays closed. */
  ghost predicate Later(s: State, t: State) {
    && s.next <= t.next && s.closed <= t.closed
    && LaneLater(s.web, t.web) && LaneLater(s.torrent, t.torrent)
    && (!s.open ==> !t.open && t.next == s.next) && (!s.serving ==> !t.serving)
  }

  ghost predicate LaneLater(l: Lane, m: Lane) {
    l.taken <= m.taken && l.entered <= m.entered && (l.done ==> m.done)
  }

  lemma {:induction false} RunOnlyGrows(run: seq<State>, events: seq<Event>, verdict: nat -> Sniffer.Verdict,
                                        i: nat, j: nat)
    requires IsRun(run, events, verdict) && i <= j < |run|
    ensures Later(run[i], run[j])
    decreases j
  {
    if i < j {
      RunOnlyGrows(run, events, verdict, i, j - 1);
      StepOnlyGrows(run[j - 1], events[j - 1], run[j], verdict);
      LaterLater(run[i], run[j - 1], run[j]);
    }
  }

  lemma LanesOnlyGrow(s: State, e: Event, t: State, verdict: nat -> Sniffer.Verdict)
    requires Stepped(s, e, t, verdict)
    ensures LaneLater(s.web, t.web) && LaneLater(s.torrent, t.torrent)
  {
    match e
    case Enqueue(c) => assert LaneLater(LaneOf(s, s.waiting[c]), Pushed(LaneOf(s, s.waiting[c]), c));
    case Take(side) => assert LaneLater(LaneOf(s, side), Popped(LaneOf(s, side)));
    case _ =>
  }

  lemma StepOnlyGrows(s: State, e: Event, t: State, verdict: nat -> Sniffer.Verdict)
    requires Stepped(s, e, t, verdict)
    ensures Later(s, t)
  {
    LanesOnlyGrow(s, e, t, verdict);
    assert s.closed <= t.closed;
  }

  lemma LaterLater(s: State, t: State, u: State)
    requires Later(s, t) && Later(t, u)
    ensures Later(s, u)
  {
  }

  /** Closing either side ends the other: no connection is accepted after it, and the next round of
      `Serve` closes both sides for good and is the last. */
  lemma ClosingOneSideEndsBoth(run: seq<State>, events: seq<Event>, verdict: nat -> Sniffer.Verdict,
                               i: nat, j: nat, k: nat)
    requires IsRun(run, events, verdict) && i < j < k < |run|
    requires events[i].CloseSide? && ServeRound(events[j])
    ensures events[j] == AcceptClosed
    ensures run[k].next == run[i].next
    ensures run[k].web.done && run[k].torrent.done && !run[k].serving
    ensures k < |events| ==> !ServeRound(events[k])
  {
    assert Stepped(run[i], events[i], run[i + 1], verdict) && Stepped(run[j], events[j], run[j + 1], verdict);
    assert k < |events| ==> Stepped(run[k], events[k], run[k + 1], verdict);
    RunOnlyGrows(run, events, verdict, i + 1, j);
    RunOnlyGrows(run, events, verdict, i + 1, k);
    RunOnlyGrows(run, events, verdict, j + 1, k);
  }

  /** Once `Serve` has ended no dispatch is stuck: a connection still waiting for its side can be
      given up. */
  lemma NobodyWaitsAfterTheEnd(run: seq<State>, events: seq<Event>, verdict: nat -> Sniffer.Verdict, i: nat, c: nat)
    requires IsRun(run, events, verdict) && i < |run|
    requires !run[i].serving && c in run[i].waiting
    ensures Enabled(run[i], GiveUp(c))
  {
    RunKeepsInv(run, events, verdict, i);
  }

  // ---------- what is handed out ----------

  /** The connections a side has been handed over the first `i` steps, each the head of its queue. */
  function HandedOut(run: seq<State>, events: seq<Event>, side: Side, i: nat): seq<nat>
    requires i <= |events| < |run|
  {
    if i == 0 then []
    else
      var queue := LaneOf(run[i - 1], side).queue;
      HandedOut(run, events, side, i - 1) + if events[i - 1] == Take(side) && queue != [] then [queue[0]] else []
  }

  /** They are what the side is recorded to have taken, so by `SidesAreFifo` none is handed out twice. */
  lemma {:induction false} TakenAreHandedOut(run: seq<State>, events: seq<Event>, verdict: nat -> Sniffer.Verdict,
                                             i: nat, side: Side)
    requires IsRun(run, events, verdict) && i < |run|
    ensures LaneOf(run[i], side).taken == HandedOut(run, events, side, i)
  {
    if i > 0 {
      TakenAreHandedOut(run, events, verdict, i - 1, side);
      StepHandsOut(run[i - 1], events[i - 1], run[i], verdict, side);
    }
  }

  lemma StepHandsOut(s: State, e: Event, t: State, verdict: nat -> Sniffer.Verdict, side: Side)
    requires Stepped(s, e, t, verdict)
    ensures LaneOf(t, side).taken == LaneOf(s, side).taken + if e == Take(side) then [LaneOf(s, side).queue[0]] else []
  {
  }

  /** Each step moves one connection: into the sniffer; from there to its side's waiting, or out when
      rejected; from waiting to the end of the side's queue, or out; and from the head of a queue to the
      side. */
  lemma EachStepMovesOne(s: State, e: Event, t: State, verdict: nat -> Sniffer.Verdict)
    requires Stepped(s, e, t, verdict)
    ensures e.Accept? ==> t.sniffing == s.sniffing + {s.next} && t.next == s.next + 1
    ensures e.Classify? ==>
      && t.sniffing == s.sniffing - {e.conn}
      && (if verdict(e.conn) == Sniffer.Reject then e.conn in t.closed && t.waiting == s.waiting
          else t.waiting == s.waiting[e.conn := if verdict(e.conn) == Sniffer.Web then Web else Torrent])
    ensures e.Enqueue? ==>
      && t.waiting == s.waiting - {e.conn}
      && LaneOf(t, s.waiting[e.conn]).queue == LaneOf(s, s.waiting[e.conn]).queue + [e.conn]
    ensures e.GiveUp? ==> t.waiting == s.waiting - {e.conn} && t.closed == s.closed + {e.conn}
    ensures e.Take? ==> LaneOf(s, e.side).queue == [LaneOf(s, e.side).queue[0]] + LaneOf(t, e.side).queue
  {
  }

  // ---------- connections that are dropped ----------

  /** A connection is closed only because the sniffer rejected it, or because its side had been closed
      by then. */
  ghost predicate ClosedForCause(s: State, verdict: nat -> Sniffer.Verdict) {
    forall c :: c in s.closed ==>
      || verdict(c) == Sniffer.Reject
      || (verdict(c) == Sniffer.Web && s.web.done) || (verdict(c) == Sniffer.Torrent && s.torrent.done)
  }

  /** The sockets and sides are closed by nobody but their owners: a side is open until it is closed or
      the accept loop ends, and the socket until somebody closes it or a side. */
  ghost predicate OpenUntilClosed(events: seq<Event>, s: State) {
    && (s.web.done <==> CloseSide(Web) in events || AcceptClosed in events)
    && (s.torrent.done <==> CloseSide(Torrent) in events || AcceptClosed in events)
    && (s.open <==> CloseRoot !in events && CloseSide(Web) !in events && CloseSide(Torrent) !in events)
    && (s.serving <==> AcceptClosed !in events)
  }

  lemma {:induction false} NothingIsClosedWithoutCause(run: seq<State>, events: seq<Event>,
                                                       verdict: nat -> Sniffer.Verdict, i: nat)
    requires IsRun(run, events, verdict) && i < |run|
    ensures ClosedForCause(run[i], verdict)
  {
    if i > 0 {
      NothingIsClosedWithoutCause(run, events, verdict, i - 1);
      RunKeepsInv(run, events, verdict, i - 1);
      assert Stepped(run[i - 1], events[i - 1], run[i], verdict);
      StepClosesForCause(run[i - 1], events[i - 1], run[i], verdict);
    }
  }

  lemma StepClosesForCause(s: State, e: Event, t: State, verdict: nat -> Sniffer.Verdict)
    requires Stepped(s, e, t, verdict) && Inv(s, verdict) && ClosedForCause(s, verdict)
    ensures ClosedForCause(t, verdict)
  {
    if e.GiveUp? {
      assert verdict(e.conn) == VerdictOf(s.waiting[e.conn]);
    }
  }

  lemma {:induction false} OpenUntilSomebodyCloses(run: seq<State>, events: seq<Event>,
                                                   verdict: nat -> Sniffer.Verdict, i: nat)
    requires IsRun(run, events, verdict) && i < |run|
    ensures OpenUntilClosed(events[..i], run[i])
  {
    if i > 0 {
      OpenUntilSomebodyCloses(run, events, verdict, i - 1);
      assert Stepped(run[i - 1], events[i - 1], run[i], verdict);
      assert events[..i] == events[..i - 1] + [events[i - 1]];
      StepClosesOnPurpose(run[i - 1], events[..i - 1], events[i - 1], run[i], verdict);
    }
  }

  lemma StepClosesOnPurpose(s: State, before: seq<Event>, e: Event, t: State, verdict: nat -> Sniffer.Verdict)
    requires Stepped(s, e, t, verdict) && OpenUntilClosed(before, s)
    ensures OpenUntilClosed(before + [e], t)
  {
    assert forall d :: d in before + [e] <==> d in before || d == e;
  }

  /** Every accepted connection can go on: it is classified, and then queued while its side has room, or
      dropped once its side is closed; so it waits only for a full queue of an open side. */
  lemma WaitsOnlyForRoom(s: State, c: nat)
    requires c in s.waiting
    ensures var side := s.waiting[c];
      Enabled(s, Enqueue(c)) || Enabled(s, GiveUp(c)) <==> |LaneOf(s, side).queue| < 64 || LaneOf(s, side).done
  {
  }

  // ---------- connections nobody takes ----------

  /** A way on from `s` on which this side takes nothing more and ends with something queued. */
  ghost predicate Strands(s: State, run: seq<State>, events: seq<Event>, side: Side, verdict: nat -> Sniffer.Verdict) {
    && run != [] && run[0] == s && Steps(run, events, verdict)
    && Take(side) !in events
    && LaneOf(run[|run| - 1], side).queue != []
  }

  ghost predicate CanStrand(s: State, side: Side, verdict: nat -> Sniffer.Verdict) {
    exists run, events :: Strands(s, run, events, side, verdict)
  }

  ghost predicate WaitsFor(s: State, side: Side) {
    exists c :: c in s.waiting && s.waiting[c] == side
  }

  ghost predicate SniffedFor(s: State, side: Side, verdict: nat -> Sniffer.Verdict) {
    exists c :: c in s.sniffing && verdict(c) == VerdictOf(side)
  }

  /** Something is queued for the side, or on its way there. */
  ghost predicate Heading(s: State, side: Side, verdict: nat -> Sniffer.Verdict) {
    LaneOf(s, side).queue != [] || WaitsFor(s, side) || SniffedFor(s, side, verdict)
  }

  /** With the socket closed nothing new heads for a side. */
  lemma NothingHeadsStays(s: State, e: Event, t: State, side: Side, verdict: nat -> Sniffer.Verdict)
    requires Stepped(s, e, t, verdict) && !s.open && !Heading(s, side, verdict)
    ensures !t.open && !Heading(t, side, verdict)
  {
    match e
    case Classify(c) =>
      assert verdict(c) != VerdictOf(side);
    case Enqueue(c) =>
      assert s.waiting[c] != side;
    case _ =>
  }

  lemma {:induction false} NothingHeadsEver(run: seq<State>, events: seq<Event>, side: Side,
                                            verdict: nat -> Sniffer.Verdict, i: nat)
    requires run != [] && Steps(run, events, verdict) && i < |run|
    requires !run[0].open && !Heading(run[0], side, verdict)
    ensures !run[i].open && !Heading(run[i], side, verdict)
  {
    if i > 0 {
      NothingHeadsEver(run, events, side, verdict, i - 1);
      assert Stepped(run[i - 1], events[i - 1], run[i], verdict);
      NothingHeadsStays(run[i - 1], events[i - 1], run[i], side, verdict);
    }
  }

  /** What is queued stays, what waits can still be queued, and what is being sniffed can be
      classified and then queued, all without the side taking anything. */
  lemma HeadingStrands(s: State, side: Side, verdict: nat -> Sniffer.Verdict)
    returns (run: seq<State>, events: seq<Event>)
    requires Heading(s, side, verdict)
    ensures Strands(s, run, events, side, verdict)
  {
    if LaneOf(s, side).queue != [] {
      run, events := [s], [];
    } else if WaitsFor(s, side) {
      var c :| c in s.waiting && s.waiting[c] == side;
      run, events := [s, Queued(s, c, side)], [Enqueue(c)];
      assert Stepped(run[0], events[0], run[1], verdict);
    } else {
      var c :| c in s.sniffing && verdict(c) == VerdictOf(side);
      var t := Classified(s, c, verdict(c));
      run, events := [s, t, Queued(t, c, side)], [Classify(c), Enqueue(c)];
      assert Stepped(run[0], events[0], run[1], verdict) && Stepped(run[1], events[1], run[2], verdict);
    }
  }

  /** Once the socket is closed, a connection can be left in the queue of a side that takes nothing
      more exactly when one is queued for it, waiting for it, or being sniffed and meant for it. */
  lemma StrandsIffHeading(s: State, side: Side, verdict: nat -> Sniffer.Verdict)
    requires !s.open
    ensures CanStrand(s, side, verdict) <==> Heading(s, side, verdict)
  {
    if Heading(s, side, verdict) {
      var run, events := HeadingStrands(s, side, verdict);
    }
    forall run, events | Strands(s, run, events, side, verdict) ensures Heading(s, side, verdict) {
      if !Heading(s, side, verdict) {
        NothingHeadsEver(run, events, side, verdict, |run| - 1);
      }
    }
  }

  /** It does happen: a select may prefer the room in the queue, and the side's `Accept` may prefer
      to report that it is closed. */
  lemma ClosedSideCanKeepAConnection(verdict: nat -> Sniffer.Verdict) returns (run: seq<State>, events: seq<Event>)
    requires verdict(0) == Sniffer.Web
    ensures IsRun(run, events, verdict)
    ensures var last := run[|run| - 1]; last.web.done && last.torrent.done && !last.serving && last.web.queue == [0]
  {
    events := [Accept, Classify(0), CloseSide(Web), AcceptClosed, Enqueue(0)];
    var a := Accepted(START);
    var b := Classified(a, 0, Sniffer.Web);
    var c := SideClosed(b, Web);
    var d := Stopped(c);
    run := [START, a, b, c, d, Queued(d, 0, Web)];
  }

  function Pow2(n: nat): nat {
    if n == 0 then 1 else 2 * Pow2(n - 1)
  }

  /** The pause after the `k`-th failed accept in a row, in milliseconds. */
  function Pause(k: nat): nat {
    if k == 0 then 0 else if k >= 9 then 1280 else 5 * Pow2(k - 1)
  }

  lemma PauseNext(k: nat)
    ensures Backoff(Pause(k)) == Pause(k + 1)
  {
    if 0 < k < 9 {
      assert Pow2(k) == 2 * Pow2(k - 1);
      PauseBelow(k);
    }
  }

  lemma PauseBelow(k: nat)
    requires 0 < k < 9
    ensures 5 * Pow2(k - 1) < 1000
    ensures k == 8 ==> 5 * Pow2(k) == 1280
  {
    assert Pow2(0) == 1 && Pow2(1) == 2 && Pow2(2) == 4 && Pow2(3) == 8;
    assert Pow2(4) == 16 && Pow2(5) == 32;
    assert Pow2(6) == 64 && Pow2(7) == 128 && Pow2(8) == 256;
  }

  /** How many accepts have failed since the last that did not. */
  function FailuresInARow(events: seq<Event>): nat {
    if events == [] then 0
    else match events[|events| - 1]
      case Accept => 0
      case AcceptFails => FailuresInARow(events[..|events| - 1]) + 1
      case _ => FailuresInARow(events[..|events| - 1])
  }

  function PauseStep(e: Event, b: nat): nat {
    if e.Accept? then 0 else if e.AcceptFails? then Backoff(b) else b
  }

  lemma BackoffFollows(s: State, e: Event, t: State, verdict: nat -> Sniffer.Verdict)
    requires Stepped(s, e, t, verdict)
    ensures t.backoff == PauseStep(e, s.backoff)
  {
  }

  lemma PauseFollows(events: seq<Event>, i: nat)
    requires i < |events|
    ensures Pause(FailuresInARow(events[..i + 1])) == PauseStep(events[i], Pause(FailuresInARow(events[..i])))
  {
    assert events[..i + 1][..i] == events[..i];
    PauseNext(FailuresInARow(events[..i]));
  }

  /** Whatever else goes on, the pause is 5 ms after a first failed accept, doubles with each further
      one up to 1280 ms and stays there, and starts over after a success. */
  lemma {:induction false} PauseDoubles(run: seq<State>, events: seq<Event>, verdict: nat -> Sniffer.Verdict, i: nat)
    requires IsRun(run, events, verdict) && i < |run|
    ensures run[i].backoff == Pause(FailuresInARow(events[..i]))
  {
    if i > 0 {
      PauseDoubles(run, events, verdict, i - 1);
      assert Stepped(run[i - 1], events[i - 1], run[i], verdict);
      BackoffFollows(run[i - 1], events[i - 1], run[i], verdict);
      PauseFollows(events, i - 1);
    }
  }

  /** A queue read in order: what a side has taken and what is left for it are what it was given. */
  lemma SidesAreFifo(run: seq<State>, events: seq<Event>, verdict: nat -> Sniffer.Verdict, i: nat, side: Side)
    requires IsRun(run, events, verdict) && i < |run|
    ensures var l := LaneOf(run[i], side);
      && l.taken <= l.entered && l.queue == l.entered[|l.taken|..] && |l.queue| <= QUEUE_CAP
      && (forall c :: c in l.entered ==> verdict(c) == VerdictOf(side))
      && (forall k, m :: 0 <= k < m < |l.entered| ==> l.entered[k] != l.entered[m])
  {
    RunKeepsInv(run, events, verdict, i);
    var l := LaneOf(run[i], side);
    forall k, m | 0 <= k < m < |l.entered| ensures l.entered[k] != l.entered[m] {
      var c := l.entered[k];
      assert multiset(l.entered) == multiset(l.taken) + multiset(l.queue);
      assert Places(run[i], c) == One(c < run[i].next);
      if c == l.entered[m] {
        TwiceCountsTwice(l.entered, k, m);
      }
    }
  }
}
