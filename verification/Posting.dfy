/** Where a sealed frame goes, how it is fanned out over relays, and how its copies are recalled. */
module Posting {
  import opened Wrappers
  import opened RelayList

  type Blob(==, 0, !new)
  type Contact(==, !new)
  type Frame(==, !new)

  // ---------------------------------------------------------------- routes

  /** A client dials one endpoint; it may or may not know that endpoint's address. */
  datatype RelayClient = RelayClient(endpoint: string, named: bool)

  /** The part of a node that decides relay routes: its own list, the Night Drop client, the signed directory. */
  datatype Routes = Routes(own: seq<RelayEntry>, relay: Option<RelayClient>, discovered: seq<string>)

  type Targets = (Option<RelayClient>, seq<string>)

  const NOWHERE: Targets := (None, [])

  function ExpandRelaySet(routes: Routes, peer: RelaySet): Targets {
    var onions := if |peer.relays| <= MAX_RELAYS then peer.relays else peer.relays[..MAX_RELAYS];
    var nightdrop := if peer.nightdrop then routes.discovered else [];
    (if peer.nightdrop then routes.relay else None, Dedup(onions + nightdrop))
  }

  /** The targets gathered one by one, each address once. */
  method ExpandRelays(routes: Routes, peer: RelaySet) returns (targets: Targets)
    ensures targets == ExpandRelaySet(routes, peer)
  {
    var primary := if peer.nightdrop then routes.relay else None;
    var onions := if |peer.relays| <= MAX_RELAYS then peer.relays else peer.relays[..MAX_RELAYS];
    var all := onions + if peer.nightdrop then routes.discovered else [];
    var once: seq<string> := [];
    for i := 0 to |all|
      invariant once == Dedup(all[..i])
    {
      assert all[..i + 1][..i] == all[..i];
      if all[i] !in once {
        once := once + [all[i]];
      }
    }
    assert all[..|all|] == all;
    return (primary, once);
  }

  function PostRoute(routes: Routes, peer: RelaySet): Targets {
    if routes.own == [] then NOWHERE else ExpandRelaySet(routes, peer)
  }

  /** `mailbox` is the pair's posting handle once agreed; `peer` the set the contact told us. */
  function RouteTo(routes: Routes, mailbox: Option<string>, peer: Option<RelaySet>): Targets {
    if mailbox.None? || peer.None? then NOWHERE else PostRoute(routes, peer.value)
  }

  /** One of the peer's first four onions, or one of the directory's relays when the peer uses the Night Drop relay. */
  predicate Reaches(routes: Routes, peer: RelaySet, addr: string) {
    (exists i :: 0 <= i < |peer.relays| && i < MAX_RELAYS && peer.relays[i] == addr)
    || (peer.nightdrop && addr in routes.discovered)
  }

  /**
   * Nowhere without a list of our own, an agreed mailbox and the peer's set; else exactly the relays both sides
   * reach.
   */
  lemma RouteExact(routes: Routes, mailbox: Option<string>, peer: Option<RelaySet>)
    ensures var (primary, targets) := RouteTo(routes, mailbox, peer);
      if mailbox.None? || peer.None? || routes.own == [] then primary.None? && targets == []
      else
        && primary == (if peer.value.nightdrop then routes.relay else None)
        && Distinct(targets)
        && forall addr :: addr in targets <==> Reaches(routes, peer.value, addr)
  {
    if mailbox.Some? && peer.Some? && routes.own != [] {
      var relays := peer.value.relays;
      var onions := if |relays| <= MAX_RELAYS then relays else relays[..MAX_RELAYS];
      DedupKeepsElements(onions + if peer.value.nightdrop then routes.discovered else []);
      forall addr ensures addr in onions <==> exists i :: 0 <= i < |relays| && i < MAX_RELAYS && relays[i] == addr {
        if i :| 0 <= i < |relays| && i < MAX_RELAYS && relays[i] == addr {
          assert onions[i] == addr;
        }
      }
    }
  }

  /** One sealed frame with everything its delivery needs, snapshotted under the lock. */
  datatype DetachedSend = DetachedSend(
    primary: Option<RelayClient>,
    peerRelays: seq<string>,
    recipient: Option<Contact>,
    handle: string,
    peerAddress: string,
    bytes: Frame,
    fresh_: bool)
  {
    predicate Relayless() {
      primary.None? && peerRelays == []
    }

    predicate MayPost() {
      !Relayless() && handle != ""
    }
  }

  function Detach(routes: Routes, mailbox: Option<string>, peer: Option<RelaySet>, recipient: Contact,
                  peerAddress: string, bytes: Frame, fresh_: bool): DetachedSend {
    var (primary, peerRelays) := RouteTo(routes, mailbox, peer);
    DetachedSend(primary, peerRelays, Some(recipient), if mailbox.Some? then mailbox.value else "",
                 peerAddress, bytes, fresh_)
  }

  // ---------------------------------------------------------------- which addresses a post tries

  function Extras(posted: seq<string>, peers: seq<string>): seq<string>
    decreases |peers|
  {
    if peers == [] then []
    else if peers[0] in posted then Extras(posted, peers[1..])
    else [peers[0]] + Extras(posted + [peers[0]], peers[1..])
  }

  function KnownPrimary(primary: Option<RelayClient>): seq<string> {
    if primary.Some? && primary.value.named then [primary.value.endpoint] else []
  }

  function Attempts(primary: Option<RelayClient>, peers: seq<string>): seq<string> {
    (if primary.Some? then [primary.value.endpoint] else []) + Extras(KnownPrimary(primary), peers)
  }

  lemma {:induction false} ExtrasExact(posted: seq<string>, peers: seq<string>)
    ensures Distinct(Extras(posted, peers))
    ensures forall a :: a in Extras(posted, peers) <==> a in peers && a !in posted
    ensures |Extras(posted, peers)| <= |peers|
    decreases |peers|
  {
    if peers != [] {
      ExtrasExact(posted, peers[1..]);
      ExtrasExact(posted + [peers[0]], peers[1..]);
    }
  }

  /** Exactly the addressed relays are tried, and none twice unless the primary hides its address. */
  lemma AttemptsExact(primary: Option<RelayClient>, peers: seq<string>)
    ensures forall a :: a in Attempts(primary, peers) <==> a in peers || (primary.Some? && a == primary.value.endpoint)
    ensures Distinct(Attempts(primary, peers))
       <==> !(primary.Some? && !primary.value.named && primary.value.endpoint in peers)
    ensures |Attempts(primary, peers)| <= 1 + |peers|
  {
    var extras := Extras(KnownPrimary(primary), peers);
    ExtrasExact(KnownPrimary(primary), peers);
    var all := Attempts(primary, peers);
    if primary.Some? {
      var e := primary.value.endpoint;
      assert all == [e] + extras;
      assert all[0] == e;
      if !primary.value.named && e in peers {
        var i :| 0 <= i < |extras| && extras[i] == e;
        assert all[i + 1] == all[0];
      } else {
        assert e !in extras;
        assert forall i :: 0 <= i < |extras| ==> all[i + 1] == extras[i];
      }
    } else {
      assert all == extras;
    }
  }

  /** One such input: a primary that does not know its own address, which the peer names. */
  lemma PostedToTwice()
    ensures var primary := Some(RelayClient("relay.onion", false));
      Attempts(primary, ["relay.onion"]) == ["relay.onion", "relay.onion"]
  {
    assert ["relay.onion"][1..] == [];
    assert Extras([], ["relay.onion"]) == ["relay.onion"] + Extras([] + ["relay.onion"], []);
  }

  /** A frame we detach is tried on at most the primary, four onions of the peer and the directory. */
  lemma AttemptsBounded(routes: Routes, mailbox: Option<string>, peer: Option<RelaySet>, c: Contact,
                        address: string, bytes: Frame, fresh_: bool)
    ensures var send := Detach(routes, mailbox, peer, c, address, bytes, fresh_);
      |Attempts(send.primary, send.peerRelays)| <= 1 + MAX_RELAYS + |routes.discovered|
  {
    var send := Detach(routes, mailbox, peer, c, address, bytes, fresh_);
    AttemptsExact(send.primary, send.peerRelays);
    if mailbox.Some? && peer.Some? && routes.own != [] {
      var onions := if |peer.value.relays| <= MAX_RELAYS then peer.value.relays else peer.value.relays[..MAX_RELAYS];
      var nightdrop := if peer.value.nightdrop then routes.discovered else [];
      DedupKeepsElements(onions + nightdrop);
    }
  }

  /** With our own list empty, the peer's set unknown or no mailbox agreed, there is nothing to post to. */
  lemma NoRouteNoPost(routes: Routes, mailbox: Option<string>, peer: Option<RelaySet>, c: Contact,
                      address: string, bytes: Frame, fresh_: bool)
    ensures var send := Detach(routes, mailbox, peer, c, address, bytes, fresh_);
      (routes.own == [] || peer.None? || mailbox.None? ==> send.Relayless())
      && (!send.Relayless() ==> mailbox.Some? && peer.Some? && routes.own != [] && send.handle == mailbox.value)
  {
  }

  // ---------------------------------------------------------------- relays as a place copies live

  datatype Token = NoToken | Token(n: nat)

  /** A relay's id for a stored blob and the secret that deletes it. */
  datatype PostReceipt = PostReceipt(msgId: Token, deleteToken: Token)

  datatype Copy = Copy(endpoint: string, handle: string, receipt: PostReceipt, blob: Blob)

  /** One recall asked of a relay, and whether it said it had dropped the copy. */
  datatype Asked = Asked(endpoint: string, handle: string, receipt: PostReceipt, dropped: bool)

  datatype Call = Call(endpoint: string, handle: string, reply: Option<PostReceipt>)

  /** The relays, as our posts and recalls see them. A request that fails stores nothing. */
  class RelayNet {
    var stored: set<Copy>
    var taken: set<Copy>
    var minted: nat
    var calls: seq<Call>
    ghost var asked: seq<Asked>

    /** Receipts are random, so each names one copy, stored or taken, never both. */
    ghost predicate Valid()
      reads this
    {
      && stored !! taken
      && (forall c :: c in stored + taken ==> c.receipt.msgId.Token? && c.receipt.msgId.n < minted)
      && (forall c, d :: c in stored + taken && d in stored + taken && c.receipt == d.receipt ==> c == d)
    }

    constructor ()
      ensures Valid() && stored == {} && taken == {} && calls == [] && asked == []
    {
      stored, taken, minted, calls, asked := {}, {}, 0, [], [];
    }

    method Post(endpoint: string, handle: string, blob: Blob) returns (reply: Option<PostReceipt>)
      requires Valid()
      modifies this`stored, this`minted, this`calls
      ensures Valid() && taken == old(taken)
      ensures calls == old(calls) + [Call(endpoint, handle, reply)]
      ensures reply.None? ==> stored == old(stored)
      ensures reply.Some? ==> stored == old(stored) + {Copy(endpoint, handle, reply.value, blob)}
      ensures reply.Some? ==> forall c :: c in old(stored + taken) ==> c.receipt != reply.value
    {
      reply := None;
      var answered: bool := *;
      if answered {
        reply := Some(PostReceipt(Token(minted), Token(minted)));
        stored := stored + {Copy(endpoint, handle, reply.value, blob)};
        minted := minted + 1;
      }
      calls := calls + [Call(endpoint, handle, reply)];
    }

    /** True only if the relay held the copy and dropped it now. */
    method Recall(endpoint: string, handle: string, receipt: PostReceipt) returns (recalled: bool)
      requires Valid()
      modifies this`stored, this`asked
      ensures Valid() && stored <= old(stored)
      ensures asked == old(asked) + [Asked(endpoint, handle, receipt, recalled)]
      ensures forall c :: c in old(stored) - stored ==> c.receipt == receipt
      ensures recalled ==> exists c :: c in old(stored) && c.receipt == receipt
      ensures recalled ==> forall c :: c in stored + taken ==> c.receipt != receipt
    {
      recalled := false;
      var reached: bool := *;
      if reached {
        var hit := set c | c in stored && c.endpoint == endpoint && c.handle == handle && c.receipt == receipt;
        stored := stored - hit;
        var heard: bool := *;
        recalled := hit != {} && heard;
        if hit != {} {
          var c :| c in hit;
        }
      }
      asked := asked + [Asked(endpoint, handle, receipt, recalled)];
    }

    /** Anything the rest of the world does to copies: takes, expiry, and posts of other blobs. */
    method Meanwhile(blob: Blob)
      requires Valid()
      modifies this
      ensures Valid() && old(taken) <= taken
      ensures forall c :: c in stored + taken && c.blob == blob ==> c in old(stored + taken)
    {
      var read: set<Copy> := *;
      var expired: set<Copy> := *;
      taken := taken + stored * read;
      stored := stored - read - expired;
      var endpoint, handle, other := *, *, *;
      if other != blob {
        var _ := Post(endpoint, handle, other);
      }
    }
  }

  // ---------------------------------------------------------------- fan-out

  /** One recorded copy: `relayAddr` is `None` for the primary. */
  datatype QueuedReceipt = QueuedReceipt(relayAddr: Option<string>, handle: string, msgId: Token, deleteToken: Token) {
    function Receipt(): PostReceipt {
      PostReceipt(msgId, deleteToken)
    }
  }

  const HANDED_DIRECTLY := QueuedReceipt(None, "", NoToken, NoToken)

  /** The receipts a fan-out's calls amount to: one for every call a relay accepted, in order. */
  function ReceiptsOf(calls: seq<Call>, primaryFirst: bool): seq<QueuedReceipt> {
    if calls == [] then []
    else
      var front, last := ReceiptsOf(calls[..|calls| - 1], primaryFirst), calls[|calls| - 1];
      if last.reply.None? then front
      else
        var addr := if primaryFirst && |calls| == 1 then None else Some(last.endpoint);
        front + [QueuedReceipt(addr, last.handle, last.reply.value.msgId, last.reply.value.deleteToken)]
  }

  function Endpoints(calls: seq<Call>): seq<string> {
    seq(|calls|, i requires 0 <= i < |calls| => calls[i].endpoint)
  }

  lemma ReceiptsOfStep(calls: seq<Call>, call: Call, primaryFirst: bool)
    ensures ReceiptsOf(calls + [call], primaryFirst)
         == ReceiptsOf(calls, primaryFirst)
          + (if call.reply.None? then []
             else [QueuedReceipt(if primaryFirst && calls == [] then None else Some(call.endpoint),
                                 call.handle, call.reply.value.msgId, call.reply.value.deleteToken)])
  {
    assert (calls + [call])[..|calls|] == calls;
  }

  function ReceiptFor(call: Call, primary: bool): QueuedReceipt
    requires call.reply.Some?
  {
    QueuedReceipt(if primary then None else Some(call.endpoint), call.handle, call.reply.value.msgId,
                  call.reply.value.deleteToken)
  }

  ghost predicate Accepted(calls: seq<Call>, primaryFirst: bool, r: QueuedReceipt, i: int) {
    0 <= i < |calls| && calls[i].reply.Some? && r == ReceiptFor(calls[i], primaryFirst && i == 0)
  }

  /** The receipts name exactly the relays that accepted a copy: each call that was answered, and nothing else. */
  lemma {:induction false} ReceiptsNameAcceptors(calls: seq<Call>, primaryFirst: bool, r: QueuedReceipt)
    ensures r in ReceiptsOf(calls, primaryFirst) <==> exists i :: Accepted(calls, primaryFirst, r, i)
  {
    if calls != [] {
      var n := |calls| - 1;
      var front, last := calls[..n], calls[n];
      ReceiptsNameAcceptors(front, primaryFirst, r);
      forall i | 0 <= i < n ensures Accepted(front, primaryFirst, r, i) == Accepted(calls, primaryFirst, r, i) {
      }
      if exists i :: Accepted(front, primaryFirst, r, i) {
        var i :| Accepted(front, primaryFirst, r, i);
        assert Accepted(calls, primaryFirst, r, i);
      } else if Accepted(calls, primaryFirst, r, n) {
        assert r == ReceiptFor(last, primaryFirst && n == 0);
      }
    }
  }

  /** Every copy of `blob` anywhere is one the receipts name. */
  ghost predicate CopiesKnown(net: RelayNet, blob: Blob, receipts: seq<QueuedReceipt>)
    reads net
  {
    forall c :: c in net.stored + net.taken && c.blob == blob ==> exists r :: r in receipts && r.Receipt() == c.receipt
  }

  ghost predicate NoCopy(net: RelayNet, blob: Blob)
    reads net
  {
    forall c :: c in net.stored + net.taken ==> c.blob != blob
  }

  /** One post of a fan-out: the reply joins the calls made, and an accepted copy the receipts. */
  method PostCopy(net: RelayNet, endpoint: string, handle: string, sealed: Blob, copies: seq<QueuedReceipt>,
                  addr: Option<string>, ghost made: seq<Call>, ghost primaryFirst: bool)
    returns (copies': seq<QueuedReceipt>, ghost made': seq<Call>)
    requires net.Valid() && copies == ReceiptsOf(made, primaryFirst)
    requires addr == if primaryFirst && made == [] then None else Some(endpoint)
    modifies net
    ensures net.Valid() && net.taken == old(net.taken)
    ensures |made'| == |made| + 1 && made'[..|made|] == made && net.calls == old(net.calls) + made'[|made|..]
    ensures made'[|made|].handle == handle && Endpoints(made') == Endpoints(made) + [endpoint]
    ensures copies' == ReceiptsOf(made', primaryFirst)
    ensures old(CopiesKnown(net, sealed, copies)) ==> CopiesKnown(net, sealed, copies')
  {
    var reply := net.Post(endpoint, handle, sealed);
    ghost var call := Call(endpoint, handle, reply);
    ReceiptsOfStep(made, call, primaryFirst);
    made' := made + [call];
    copies' := copies;
    if reply.Some? {
      var copy := QueuedReceipt(addr, handle, reply.value.msgId, reply.value.deleteToken);
      copies' := copies + [copy];
      assert copy in copies' && copy.Receipt() == reply.value;
    }
    if old(CopiesKnown(net, sealed, copies)) {
      forall c | c in net.stored + net.taken && c.blob == sealed
        ensures exists r :: r in copies' && r.Receipt() == c.receipt
      {
        if c in old(net.stored) + old(net.taken) {
          var r :| r in copies && r.Receipt() == c.receipt;
          assert r in copies';
        }
      }
    }
  }

  /** The peer relays of a fan-out, each not posted to yet, in order. */
  method PostPeers(net: RelayNet, peers: seq<string>, known: seq<string>, handle: string, sealed: Blob,
                   copies: seq<QueuedReceipt>, ghost made: seq<Call>, ghost primaryFirst: bool)
    returns (copies': seq<QueuedReceipt>, ghost made': seq<Call>)
    requires net.Valid() && copies == ReceiptsOf(made, primaryFirst) && (primaryFirst ==> made != [])
    modifies net
    ensures net.Valid() && net.taken == old(net.taken)
    ensures made <= made' && net.calls == old(net.calls) + made'[|made|..]
    ensures Endpoints(made') == Endpoints(made) + Extras(known, peers)
    ensures forall j :: |made| <= j < |made'| ==> made'[j].handle == handle
    ensures copies' == ReceiptsOf(made', primaryFirst)
    ensures old(CopiesKnown(net, sealed, copies)) ==> CopiesKnown(net, sealed, copies')
  {
    copies', made' := copies, made;
    var posted := known;
    for i := 0 to |peers|
      invariant net.Valid() && net.taken == old(net.taken)
      invariant made <= made' && net.calls == old(net.calls) + made'[|made|..]
      invariant forall j :: |made| <= j < |made'| ==> made'[j].handle == handle
      invariant copies' == ReceiptsOf(made', primaryFirst)
      invariant Endpoints(made') + Extras(posted, peers[i..]) == Endpoints(made) + Extras(known, peers)
      invariant old(CopiesKnown(net, sealed, copies)) ==> CopiesKnown(net, sealed, copies')
    {
      assert peers[i..][0] == peers[i] && peers[i..][1..] == peers[i + 1..];
      if peers[i] !in posted {
        posted := posted + [peers[i]];
        copies', made' := PostCopy(net, peers[i], handle, sealed, copies', Some(peers[i]), made', primaryFirst);
      }
    }
  }

  /** Post to the primary, if there is one, then to the peers. */
  method PostEverywhere(net: RelayNet, primary: Option<RelayClient>, peers: seq<string>, handle: string, sealed: Blob)
    returns (copies: seq<QueuedReceipt>, ghost made: seq<Call>)
    requires net.Valid()
    modifies net
    ensures net.Valid() && net.taken == old(net.taken) && net.calls == old(net.calls) + made
    ensures Endpoints(made) == Attempts(primary, peers)
    ensures forall i :: 0 <= i < |made| ==> made[i].handle == handle
    ensures copies == ReceiptsOf(made, primary.Some?)
    ensures old(NoCopy(net, sealed)) ==> CopiesKnown(net, sealed, copies)
  {
    copies, made := [], [];
    if primary.Some? {
      copies, made := PostCopy(net, primary.value.endpoint, handle, sealed, copies, None, made, true);
    }
    copies, made := PostPeers(net, peers, KnownPrimary(primary), handle, sealed, copies, made, primary.Some?);
  }

  /** Post one sealed blob to every relay that hosts the mailbox; an error if none took it. */
  method QueueOnRelays(net: RelayNet, primary: Option<RelayClient>, peers: seq<string>, handle: string, sealed: Blob)
    returns (r: Result<seq<QueuedReceipt>, ()>)
    requires net.Valid()
    modifies net
    ensures net.Valid() && net.taken == old(net.taken) && old(net.calls) <= net.calls
    ensures var made := net.calls[|old(net.calls)|..];
      && Endpoints(made) == (if (primary.None? && peers == []) || handle == "" then [] else Attempts(primary, peers))
      && (forall i :: 0 <= i < |made| ==> made[i].handle == handle)
      && r == (if ReceiptsOf(made, primary.Some?) == [] then Err(()) else Ok(ReceiptsOf(made, primary.Some?)))
    ensures old(NoCopy(net, sealed)) ==> if r.Ok? then CopiesKnown(net, sealed, r.value) else NoCopy(net, sealed)
  {
    if (primary.None? && peers == []) || handle == "" {
      assert net.calls[|old(net.calls)|..] == [];
      return Err(());
    }
    var copies: seq<QueuedReceipt>;
    ghost var made: seq<Call>;
    copies, made := PostEverywhere(net, primary, peers, handle, sealed);
    assert net.calls[|old(net.calls)|..] == made;
    if copies == [] {
      return Err(());
    }
    return Ok(copies);
  }

  // ---------------------------------------------------------------- one detached send

  datatype Route = DirectThenRelay | RelayThenDirect | RelayOnly

  datatype Delivery = Direct | Relay(copies: seq<QueuedReceipt>) | Failed

  /** What `send` may report on `route`. */
  predicate Possible(send: DetachedSend, route: Route, d: Delivery) {
    match d
    case Direct => route != RelayOnly && send.peerAddress != ""
    case Relay(copies) => send.MayPost() && copies != []
    case Failed => true
  }

  /** Deliver `send` by `route`; `reachable` is whether a dial to the peer's onion gets through. */
  method RunSend(net: RelayNet, send: DetachedSend, sealed: Blob, route: Route, reachable: bool) returns (d: Delivery)
    requires net.Valid()
    modifies net
    ensures net.Valid() && net.taken == old(net.taken) && old(net.calls) <= net.calls
    ensures Possible(send, route, d)
    ensures !send.MayPost() ==> net.calls == old(net.calls)
    ensures var made := net.calls[|old(net.calls)|..];
      && Endpoints(made) <= Attempts(send.primary, send.peerRelays)
      && (d.Relay? ==> d.copies == ReceiptsOf(made, send.primary.Some?))
      && (!d.Relay? ==> forall i :: 0 <= i < |made| ==> made[i].reply.None?)
      && (d.Failed? ==> send.peerAddress == "" || route == RelayOnly || !reachable)
      && (d.Failed? && send.MayPost() ==> Endpoints(made) == Attempts(send.primary, send.peerRelays))
      && (route == DirectThenRelay && send.peerAddress != "" && reachable ==> d.Direct? && made == [])
      && (d.Direct? && route == RelayThenDirect && send.MayPost() ==>
            Endpoints(made) == Attempts(send.primary, send.peerRelays))
  {
    var direct := send.peerAddress != "" && reachable;
    if route == DirectThenRelay {
      if direct {
        return Direct;
      }
      if send.Relayless() {
        return Failed;
      }
    }
    var queued := QueueOnRelays(net, send.primary, send.peerRelays, send.handle, sealed);
    ghost var made := net.calls[|old(net.calls)|..];
    if queued.Ok? {
      return Relay(queued.value);
    }
    NoReceiptsNoAcceptors(made, send.primary.Some?);
    return if route == RelayThenDirect && direct then Direct else Failed;
  }

  lemma NoReceiptsNoAcceptors(calls: seq<Call>, primaryFirst: bool)
    requires ReceiptsOf(calls, primaryFirst) == []
    ensures forall i :: 0 <= i < |calls| ==> calls[i].reply.None?
  {
    forall i | 0 <= i < |calls| ensures calls[i].reply.None? {
      if calls[i].reply.Some? {
        var r := ReceiptFor(calls[i], primaryFirst && i == 0);
        ReceiptsNameAcceptors(calls, primaryFirst, r);
        assert Accepted(calls, primaryFirst, r, i);
      }
    }
  }

  // ---------------------------------------------------------------- recall

  /** A copy a recall can ask for: its relay is known, and so is its mailbox. */
  predicate Recallable(primary: Option<RelayClient>, r: QueuedReceipt) {
    (r.relayAddr.Some? || primary.Some?) && r.handle != ""
  }

  ghost predicate AllRecallable(primary: Option<RelayClient>, receipts: seq<QueuedReceipt>) {
    forall r :: r in receipts ==> Recallable(primary, r)
  }

  /** What a recall of `receipts` asks, as far as there is someone to ask: each copy once, of the relay that has it. */
  ghost predicate AsksEach(asked: seq<Asked>, primary: Option<RelayClient>, receipts: seq<QueuedReceipt>) {
    if receipts == [] then asked == []
    else
      var n := |receipts| - 1;
      var r := receipts[n];
      if !Recallable(primary, r) then AsksEach(asked, primary, receipts[..n])
      else
        && asked != [] && AsksEach(asked[..|asked| - 1], primary, receipts[..n])
        && var a := asked[|asked| - 1];
           && a.endpoint == (if r.relayAddr.Some? then r.relayAddr.value else primary.value.endpoint)
           && a.handle == r.handle && a.receipt == r.Receipt()
  }

  /** Recall every copy `receipts` names. True only when all of them were, each still unread. */
  method RecallReceipts(net: RelayNet, primary: Option<RelayClient>, receipts: seq<QueuedReceipt>) returns (all: bool)
    requires net.Valid()
    modifies net`stored, net`asked
    ensures net.Valid() && net.stored <= old(net.stored)
    ensures old(net.asked) <= net.asked && AsksEach(net.asked[|old(net.asked)|..], primary, receipts)
    ensures all <==> && receipts != [] && AllRecallable(primary, receipts)
                     && (forall a :: a in net.asked[|old(net.asked)|..] ==> a.dropped)
    ensures all ==> forall r :: r in receipts ==>
              && (exists c :: c in old(net.stored) && c.receipt == r.Receipt())
              && (forall c :: c in net.stored + net.taken ==> c.receipt != r.Receipt())
  {
    if receipts == [] {
      assert net.asked[|old(net.asked)|..] == [];
      return false;
    }
    all := true;
    ghost var before, made: seq<Asked> := net.asked, [];
    for i := 0 to |receipts|
      invariant net.Valid() && net.stored <= old(net.stored)
      invariant net.asked == before + made && AsksEach(made, primary, receipts[..i])
      invariant all <==> AllRecallable(primary, receipts[..i]) && forall a :: a in made ==> a.dropped
      invariant all ==> forall r :: r in receipts[..i] ==>
                  && (exists c :: c in old(net.stored) && c.receipt == r.Receipt())
                  && (forall c :: c in net.stored + net.taken ==> c.receipt != r.Receipt())
    {
      var r := receipts[i];
      assert receipts[..i + 1][..i] == receipts[..i];
      assert forall x :: x in receipts[..i + 1] <==> x in receipts[..i] || x == r;
      var relay := if r.relayAddr.Some? then Some(RelayClient(r.relayAddr.value, true)) else primary;
      if relay.None? || r.handle == "" {
        all := false;
      } else {
        var recalled := net.Recall(relay.value.endpoint, r.handle, r.Receipt());
        ghost var a := Asked(relay.value.endpoint, r.handle, r.Receipt(), recalled);
        assert (made + [a])[..|made|] == made;
        made := made + [a];
        if !recalled {
          all := false;
        }
      }
    }
    assert receipts[..|receipts|] == receipts;
    assert net.asked[|before|..] == made;
  }

  /** A post, anything the world does meanwhile, then a recall: true means nobody ever gets that blob. */
  method QueueThenRecall(net: RelayNet, primary: Option<RelayClient>, peers: seq<string>, handle: string, sealed: Blob,
                         laterPrimary: Option<RelayClient>)
    returns (queued: Result<seq<QueuedReceipt>, ()>, recalled: bool)
    requires net.Valid() && NoCopy(net, sealed)
    modifies net
    ensures net.Valid()
    ensures recalled ==> queued.Ok? && NoCopy(net, sealed)
  {
    queued := QueueOnRelays(net, primary, peers, handle, sealed);
    net.Meanwhile(sealed);
    recalled := false;
    if queued.Ok? {
      recalled := RecallReceipts(net, laterPrimary, queued.value);
    }
  }
}
