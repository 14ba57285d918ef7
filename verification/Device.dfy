/**
 * The node with its poller and its API calls, whose operations are the steps of the delivery machine: each method calls
 * the node's own and is proved to be the step.
 */
module Device {
  import opened Wrappers
  import opened Posting
  import opened Outbox
  import opened InFlight

  /** `job` and `results` are the poller's; the calls' own sends and what the network took are history. */
  class Device {
    const node: Node
    var job: seq<Outbound>
    var results: seq<Delivery>
    ghost var calls: set<ApiCall>
    ghost var delivered: seq<Outbound>
    ghost var sealed: set<Frame>

    ghost function View(): System
      reads this, node
    {
      System(node.View(), job, results, calls, delivered, sealed)
    }

    constructor (me: Contact, routes: Routes)
      ensures fresh(node)
      ensures View() == System(State(me, map[], routes, [], [], [], map[], false, [], []), [], [], {}, [], {})
    {
      node := new Node(me, routes);
      job, results, calls, delivered, sealed := [], [], {}, [], {};
    }

    method Hold(c: Contact, msg: Option<MsgId>, bytes: Frame)
      requires |results| <= |job| && Enabled(View(), HoldNew(c, msg, bytes))
      modifies this`sealed, node
      ensures View() == Do(old(View()), HoldNew(c, msg, bytes))
    {
      node.HoldMessage(c, msg, bytes);
      sealed := sealed + {bytes};
    }

    method Deliver(address: string, c: Contact, bytes: Frame, fresh_: bool, done: Done)
      requires |results| <= |job| && Enabled(View(), DeliverNew(address, c, bytes, fresh_, done))
      modifies this`sealed, node
      ensures View() == Do(old(View()), DeliverNew(address, c, bytes, fresh_, done))
    {
      node.DeliverWith(address, c, bytes, fresh_, done);
      sealed := sealed + {bytes};
    }

    method QueueControl(p: PendingControl, route: Route)
      requires |results| <= |job| && Enabled(View(), ControlNew(p, route))
      modifies this`sealed, node
      ensures View() == Do(old(View()), ControlNew(p, route))
    {
      node.QueuePendingControl(p, route);
      sealed := sealed + {p.bytes};
    }

    method QueueOther(send: DetachedSend, route: Route, done: Done)
      requires |results| <= |job| && Enabled(View(), OtherNew(send, route, done))
      modifies this`sealed, node
      ensures View() == Do(old(View()), OtherNew(send, route, done))
    {
      node.SendOrQueue(send, route, done);
      sealed := sealed + {send.bytes};
    }

    method FlushHeld(only: Option<Contact>, directFirst: bool, now: nat)
      requires |results| <= |job|
      modifies node
      ensures View() == Do(old(View()), FlushHeldNow(only, directFirst, now))
    {
      node.FlushHeldFor(only, directFirst, now);
    }

    method FlushControl(only: Option<Contact>, now: nat)
      requires |results| <= |job|
      modifies node
      ensures View() == Do(old(View()), FlushControlNow(only, now))
    {
      node.FlushPendingControlFor(only, now);
    }

    method HeardFrom(c: Contact, now: nat)
      requires |results| <= |job|
      modifies node
      ensures View() == Do(old(View()), HeardFromNow(c, now))
    {
      node.HeardFrom(c, now);
    }

    /** The poller takes a round. */
    method TakeRound()
      requires job == [] && results == []
      modifies this`job, this`results, node
      ensures View() == Do(old(View()), TakeAll)
    {
      job := node.TakeOutbox();
      results := [];
    }

    /** An API call takes what it waits for. */
    method TakeForCaller() returns (mine: seq<Outbound>)
      requires |results| <= |job|
      modifies this`calls, node
      ensures View() == Do(old(View()), TakeCallers)
    {
      mine := node.TakeCallerOutbox();
      calls := calls + Waiting(mine);
    }

    /** The next send of the round is over. */
    method Ran(delivery: Delivery)
      requires |results| <= |job| && Enabled(View(), RunNext(delivery))
      modifies this`results, this`delivered
      ensures View() == Do(old(View()), RunNext(delivery))
    {
      delivered := Took(job[|results|], delivery, delivered);
      results := results + [delivery];
    }

    /** A finished round is recorded. */
    method ApplyRound(now: nat)
      requires job != [] && |results| == |job|
      modifies this`job, this`results, node
      ensures View() == Do(old(View()), InFlight.ApplyRound(now))
    {
      node.ApplyOutbound(Finishes(job, results), now);
      job, results := [], [];
    }

    /** The sends of an API call are over, and recorded one by one. */
    method ApplyForCaller(call: ApiCall, now: nat)
      requires |results| <= |job| && Enabled(View(), ApplyCall(call, now))
      modifies this`calls, node
      ensures View() == Do(old(View()), ApplyCall(call, now))
    {
      var f := Finish(call.out, call.delivery.value);
      assert [f][1..] == [];
      node.ApplyOutbound([f], now);
      calls := calls - {call};
    }

    /** The poller ends: what never went out is recorded as failed. */
    method Abandon(now: nat)
      requires job == [] && results == []
      modifies node
      ensures View() == Do(old(View()), AbandonRest(now))
    {
      var unsent := node.TakeOutbox();
      node.ApplyOutbound(Finishes(unsent, AllFailed(|unsent|)), now);
    }
  }
}
