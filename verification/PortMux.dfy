/** The shared port: one listener, two sides fed through bounded queues (portmux.go). */
module PortMux {
  import opened Basics
  import opened MuxState
  import Sniffer

  /** The shared socket. */
  class Root {
    var open: bool

    constructor ()
      ensures open
    {
      open := true;
    }

    method Close()
      modifies this
      ensures !open
    {
      open := false;
    }
  }

  /** A side's listener. Connections are known by the number they were accepted with. */
  class ChanListener {
    const root: Root
    var queue: seq<nat>
    var done: bool
    ghost var entered: seq<nat>
    ghost var taken: seq<nat>

    ghost function View(): Lane
      reads this
    {
      Lane(entered, taken, queue, done)
    }

    constructor (root: Root)
      ensures this.root == root && View() == EMPTY_LANE
    {
      this.root := root;
      queue, done, entered, taken := [], false, [], [];
    }

    /** The send of `dispatch`: into the queue, or not at all once the side is closed. When both are
        possible either may happen. */
    method Offer(c: nat, preferDone: bool) returns (sent: bool)
      requires |queue| < QUEUE_CAP || done
      modifies this
      ensures sent <==> |old(queue)| < QUEUE_CAP && !(old(done) && preferDone)
      ensures View() == if sent then Pushed(old(View()), c) else old(View())
    {
      if |queue| < QUEUE_CAP && !(done && preferDone) {
        queue := queue + [c];
        entered := entered + [c];
        return true;
      }
      return false;
    }

    /** The next connection, or none: the side is closed. */
    method Accept(preferDone: bool) returns (c: Option<nat>)
      requires queue != [] || done
      modifies this
      ensures c.Some? <==> old(queue) != [] && !(old(done) && preferDone)
      ensures c.Some? ==> c.value == old(queue)[0] && View() == Popped(old(View()))
      ensures c.None? ==> done && View() == old(View())
    {
      if |queue| > 0 && !(done && preferDone) {
        c := Some(queue[0]);
        taken := taken + [queue[0]];
        queue := queue[1..];
      } else {
        c := None;
      }
    }

    method Close()
      modifies this, root
      ensures View() == old(View()).(done := true) && !root.open
    {
      if !done {
        done := true;
      }
      root.Close();
    }
  }

  class Mux {
    const root: Root
    const web: ChanListener
    const torrent: ChanListener
    var next: nat
    var sniffing: set<nat>
    var waiting: map<nat, Side>
    var closed: set<nat>
    var serving: bool
    var backoff: nat

    ghost const verdict: nat -> Sniffer.Verdict

    ghost predicate Linked()
      reads this
    {
      web != torrent && web.root == root && torrent.root == root
    }

    ghost function Snap(): State
      reads this, root, web, torrent
    {
      State(next, sniffing, waiting, web.View(), torrent.View(), closed, root.open, serving, backoff)
    }

    ghost predicate Valid()
      reads this, root, web, torrent
    {
      Linked() && Inv(Snap(), verdict)
    }

    constructor (root: Root, ghost verdict: nat -> Sniffer.Verdict)
      requires root.open
      ensures Valid() && fresh(web) && fresh(torrent) && this.root == root && this.verdict == verdict
      ensures Snap() == START
    {
      this.root := root;
      web := new ChanListener(root);
      torrent := new ChanListener(root);
      next, sniffing, waiting, closed, serving, backoff := 0, {}, map[], {}, true, 0;
      this.verdict := verdict;
      new;
      StartInv(verdict);
    }

    /** One round of `Serve`: `fails` says whether the accept of an open socket fails for now. */
    method Serve(fails: bool) returns (ghost e: Event)
      requires Valid() && serving
      modifies this, root, web, torrent
      ensures e == if !old(root.open) then AcceptClosed else if fails then AcceptFails else Accept
      ensures Valid() && Stepped(old(Snap()), e, Snap(), verdict)
    {
      if !root.open {
        e := AcceptClosed;
        web.Close();
        torrent.Close();
        serving := false;
      } else if fails {
        e := AcceptFails;
        if backoff == 0 {
          backoff := 5;
        } else if backoff < 1000 {
          backoff := backoff * 2;
        }
      } else {
        e := Accept;
        backoff := 0;
        sniffing := sniffing + {next};
        next := next + 1;
      }
      NextKeepsInv(old(Snap()), e, verdict);
    }

    /** The first half of `dispatch`: `v` is what the sniffer returned for the connection. */
    method Classify(c: nat, v: Sniffer.Verdict)
      requires Valid() && c in sniffing && v == verdict(c)
      modifies this
      ensures Valid() && Stepped(old(Snap()), MuxState.Classify(c), Snap(), verdict)
    {
      sniffing := sniffing - {c};
      if v.Reject? {
        closed := closed + {c};
      } else {
        waiting := waiting[c := if v.Web? then Web else Torrent];
      }
      NextKeepsInv(old(Snap()), MuxState.Classify(c), verdict);
    }

    /** The second half of `dispatch`, when its select can go one way or the other. */
    method HandOver(c: nat, preferDone: bool) returns (ghost e: Event)
      requires Valid() && c in waiting
      requires Enabled(Snap(), Enqueue(c)) || Enabled(Snap(), GiveUp(c))
      modifies this, web, torrent
      ensures e == Enqueue(c) || e == GiveUp(c)
      ensures Valid() && Stepped(old(Snap()), e, Snap(), verdict)
    {
      var side := waiting[c];
      var sent;
      if side == Web {
        sent := web.Offer(c, preferDone);
      } else {
        sent := torrent.Offer(c, preferDone);
      }
      waiting := waiting - {c};
      if !sent {
        closed := closed + {c};
      }
      e := if sent then Enqueue(c) else GiveUp(c);
      NextKeepsInv(old(Snap()), e, verdict);
    }

    /** `Accept` of one side, when it does not have to wait. */
    method AcceptOn(side: Side, preferDone: bool) returns (c: Option<nat>)
      requires Valid() && (LaneOf(Snap(), side).queue != [] || LaneOf(Snap(), side).done)
      modifies web, torrent
      ensures Valid()
      ensures c.None? ==> LaneOf(Snap(), side).done && Snap() == old(Snap())
      ensures c.Some? ==>
        && Stepped(old(Snap()), Take(side), Snap(), verdict)
        && c.value == LaneOf(old(Snap()), side).queue[0]
        && verdict(c.value) == VerdictOf(side)
    {
      if side == Web {
        c := web.Accept(preferDone);
      } else {
        c := torrent.Accept(preferDone);
      }
      if c.Some? {
        assert c.value in LaneOf(old(Snap()), side).entered;
        NextKeepsInv(old(Snap()), Take(side), verdict);
      }
    }

    method CloseOn(side: Side)
      requires Valid()
      modifies root, web, torrent
      ensures Valid() && Stepped(old(Snap()), CloseSide(side), Snap(), verdict)
    {
      if side == Web {
        web.Close();
      } else {
        torrent.Close();
      }
      NextKeepsInv(old(Snap()), CloseSide(side), verdict);
    }

    method Close()
      requires Valid()
      modifies root
      ensures Valid() && Stepped(old(Snap()), CloseRoot, Snap(), verdict)
    {
      root.Close();
      NextKeepsInv(old(Snap()), CloseRoot, verdict);
    }
  }
}
