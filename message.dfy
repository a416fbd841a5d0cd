/**
 * The message middleware (zwave-message-middleware.js): message flow control,
 * which lets one request at a time go down to the controller and holds the
 * rest in arrival order; the node-missing layer, which files a response's
 * node 0 under the node the request was about; and the transaction matcher,
 * which remembers each request sent and hands it the response that answers it.
 * Promises resolve as immediate steps: what a `.then` continuation does is a
 * method of its own, called when the awaited step is done.
 */
module MessageMiddleware {
  import opened Wrappers
  import opened Protocol
  import opened TransportMiddleware
  import opened ZwaveContext

  /** Messages marked DoNotCache, and one-byte raw messages (acknowledgements), skip all three layers. */
  predicate Bypasses(c: Request)
  {
    c.doNotCache || (c.raw.Some? && |c.raw.value| == 1)
  }

  /*
   * ZwaveMessageFlowControl.
   */

  /**
   * `block` is set from the moment a queued request goes down until the
   * response to it comes back up. `queued` is every request that entered the
   * queue, `dispatched` those of them that went down, and `completed` how
   * many of those have had their response.
   */
  class ZwaveMessageFlowControl {
    var messageQueue: seq<Request>
    var block: bool
    ghost var queued: seq<Request>
    ghost var dispatched: seq<Request>
    ghost var completed: nat

    /** Requests go down in the order they arrived, and at most one is waiting for its response. */
    ghost predicate Valid()
      reads this
    {
      (messageQueue != [] ==> block)
      && queued == dispatched + messageQueue
      && completed + (if block then 1 else 0) == |dispatched|
    }

    constructor ()
      ensures Valid() && messageQueue == [] && !block
      ensures queued == [] && dispatched == [] && completed == 0
    {
      messageQueue := [];
      block := false;
      queued := [];
      dispatched := [];
      completed := 0;
    }

    /** The queue_modified handler: when nothing is outstanding, blocks and sends the first waiting request down. */
    method QueueModified() returns (down: Option<Request>)
      requires queued == dispatched + messageQueue
      requires completed + (if block then 1 else 0) == |dispatched|
      modifies this
      ensures Valid()
      ensures old(messageQueue) != [] && !old(block) ==>
        down == Some(old(messageQueue)[0]) && block && messageQueue == old(messageQueue)[1..]
        && dispatched == old(dispatched) + [down.value]
      ensures old(messageQueue) == [] || old(block) ==>
        down == None && block == old(block) && messageQueue == old(messageQueue) && dispatched == old(dispatched)
      ensures queued == old(queued) && completed == old(completed)
    {
      down := None;
      if |messageQueue| > 0 && !block {
        block := true;
        down := Some(messageQueue[0]);
        dispatched := dispatched + [messageQueue[0]];
        messageQueue := messageQueue[1..];
      }
    }

    /**
     * ZwaveMessageFlowControl.send. Returns the request that goes on down now,
     * if any: a bypassing message at once; any other joins the queue and goes
     * down at once only when no request is outstanding.
     */
    method Send(c: Request) returns (down: Option<Request>)
      requires Valid()
      modifies this
      ensures Valid() && completed == old(completed)
      ensures Bypasses(c) ==>
        down == Some(c) && messageQueue == old(messageQueue) && block == old(block)
        && queued == old(queued) && dispatched == old(dispatched)
      ensures !Bypasses(c) ==> queued == old(queued) + [c] && block
      ensures !Bypasses(c) && !old(block) ==> down == Some(c) && messageQueue == [] && dispatched == old(dispatched) + [c]
      ensures !Bypasses(c) && old(block) ==> down == None && messageQueue == old(messageQueue) + [c] && dispatched == old(dispatched)
    {
      if Bypasses(c) {
        return Some(c);
      }
      messageQueue := messageQueue + [c];
      queued := queued + [c];
      down := QueueModified();
    }

    /**
     * The continuation of the outstanding request's send, run when its
     * response arrives: unblocks, then sends the next waiting request down.
     */
    method Completed() returns (down: Option<Request>)
      requires Valid() && block
      modifies this
      ensures Valid() && completed == old(completed) + 1 && queued == old(queued)
      ensures old(messageQueue) == [] ==> down == None && !block && messageQueue == [] && dispatched == old(dispatched)
      ensures old(messageQueue) != [] ==>
        down == Some(old(messageQueue)[0]) && block && messageQueue == old(messageQueue)[1..]
        && dispatched == old(dispatched) + [down.value]
    {
      block := false;
      completed := completed + 1;
      down := QueueModified();
    }
  }

  /*
   * ZwaveMessageNodeMissing.
   */

  /** Whether the node-missing layer watches the response to c: a request that does not bypass and names a node. */
  predicate AwaitsNode(c: Request)
  {
    !Bypasses(c) && Truthy(c.nodeId)
  }

  /** `response.Nodes[0]` is set: the key 0 holds a node. */
  predicate HasNodeZero(nodes: Nodes)
  {
    Some(0) in nodes && nodes[Some(0)].Some?
  }

  /**
   * The continuation ZwaveMessageNodeMissing.send puts on the response to
   * request c: node 0 moves to the requested node id, with its NodeId set to
   * that id, and the key 0 is left holding `undefined`.
   */
  function NodeMissingReply(c: Request, response: Inbound): (r: Inbound)
  {
    if AwaitsNode(c) && HasNodeZero(response.nodes) then
      var id: NodeKey := Some(c.nodeId.value as nat);
      var node := response.nodes[Some(0)].value;
      response.(nodes := response.nodes[id := Some(node.(nodeId := id))][Some(0) := None])
    else response
  }

  /** The response keeps everything but its Nodes, and Nodes changes only when the request named a node and node 0 was filled. */
  lemma NodeMissingOnlyRekeys(c: Request, response: Inbound)
    ensures NodeMissingReply(c, response).(nodes := response.nodes) == response
    ensures !(AwaitsNode(c) && HasNodeZero(response.nodes)) ==> NodeMissingReply(c, response) == response
  {
  }

  /** After the move, the requested node holds node 0's fields with its own id, node 0 is empty, and every other key is as it was. */
  lemma NodeMissingMovesNodeZero(c: Request, response: Inbound, k: NodeKey)
    requires AwaitsNode(c) && HasNodeZero(response.nodes)
    ensures var nodes := NodeMissingReply(c, response).nodes;
      var id: NodeKey := Some(c.nodeId.value as nat);
      nodes[id] == Some(NodeRecord(id, response.nodes[Some(0)].value.fields))
      && nodes[Some(0)] == None
      && (k != id && k != Some(0) ==> (k in nodes <==> k in response.nodes) && (k in nodes ==> nodes[k] == response.nodes[k]))
  {
    assert c.nodeId.value != 0;
  }

  /** Filing node 0 twice changes nothing more: the first move leaves node 0 empty. */
  lemma NodeMissingIdempotent(c: Request, response: Inbound)
    ensures NodeMissingReply(c, NodeMissingReply(c, response)) == NodeMissingReply(c, response)
  {
    if AwaitsNode(c) && HasNodeZero(response.nodes) {
      assert c.nodeId.value != 0;
      assert !HasNodeZero(NodeMissingReply(c, response).nodes);
    }
  }

  /*
   * ZwaveMessageTransactionMatcher.
   */

  /**
   * A request waiting for its response: the function class recorded for it,
   * and the request itself, which stands for the promise its `resolve` settles.
   */
  datatype Pending = Pending(functionClass: Option<Byte>, request: Request)

  /** What the matcher's invoke does with an inbound context; it never calls next. */
  datatype MatcherInvoke =
    /** The oldest pending request is resolved with the context. */
    | Resolves(entry: Pending, ctx: Inbound)
    /** A match with nothing pending: the promise invoke returns rejects, as `({}).resolve` is not a function. */
    | Rejects(error: string)
    /** invoke throws before it returns. */
    | MatcherThrows(error: string)

  /** Reading `store.requestQueue` or `store.lastRequestFunctionClass` before any request created the store. */
  const NO_STORE := "TypeError: Cannot read properties of undefined"
  /** The non-matching branch refers to `self`, which is not defined in that function. */
  const NO_SELF := "ReferenceError: self is not defined"
  /** Calling `resolve` on the `{}` that stands in for a missing pending request. */
  const NO_RESOLVE := "TypeError: lastRequest.resolve is not a function"

  /** The function class a request is recorded under: its SerialFunctionClass when truthy, else byte 3 of its raw message, else null. */
  function RequestFunctionClass(c: Request): (fc: Option<Byte>)
    ensures Truthy(c.functionClass) ==> fc == c.functionClass
    ensures !Truthy(c.functionClass) && c.raw.Some? && |c.raw.value| >= 4 ==> fc == Some(c.raw.value[3])
    ensures !Truthy(c.functionClass) && (c.raw.None? || |c.raw.value| < 4) ==> fc.None?
  {
    if Truthy(c.functionClass) then c.functionClass
    else if c.raw.Some? && |c.raw.value| >= 4 then Some(c.raw.value[3])
    else None
  }

  /**
   * The match test: a Response of the function class last requested (other
   * than RequestNodeInfo, whose answer comes as an ApplicationUpdate), an
   * ApplicationUpdate, or an ApplicationCommandHandler. JavaScript's `==`
   * takes undefined and null as equal, as None is equal to None.
   */
  predicate Matches(f: Framed, lastFunctionClass: Option<Byte>)
  {
    (f.messageType == Some(RESPONSE) && f.functionClass == lastFunctionClass && f.functionClass != Some(REQUEST_NODE_INFO))
    || f.functionClass == Some(APPLICATION_UPDATE)
    || f.functionClass == Some(APPLICATION_COMMAND_HANDLER)
  }

  /** Whether the test reads the store at all: `&&` and `||` stop early, and only a Response or an update or command frame reaches it. */
  predicate ReadsStore(f: Framed)
  {
    f.messageType == Some(RESPONSE)
    || f.functionClass == Some(APPLICATION_UPDATE)
    || f.functionClass == Some(APPLICATION_COMMAND_HANDLER)
  }

  /** A frame can only match by reading the store. */
  lemma MatchReadsStore(f: Framed, lastFunctionClass: Option<Byte>)
    ensures Matches(f, lastFunctionClass) ==> ReadsStore(f)
  {
  }

  /** No answer to RequestNodeInfo is taken from its Response: it is claimed only as an ApplicationUpdate. */
  lemma NodeInfoResponseNeverMatches(f: Framed, lastFunctionClass: Option<Byte>)
    requires f.functionClass == Some(REQUEST_NODE_INFO)
    ensures !Matches(f, lastFunctionClass)
  {
  }

  /** ApplicationUpdate and ApplicationCommandHandler frames match whatever was requested last. */
  lemma UnsolicitedFramesMatch(f: Framed, lastFunctionClass: Option<Byte>)
    requires f.functionClass == Some(APPLICATION_UPDATE) || f.functionClass == Some(APPLICATION_COMMAND_HANDLER)
    ensures Matches(f, lastFunctionClass)
  {
  }

  /**
   * The store the matcher keeps on the server: `hasStore` says whether a
   * request has created it. `pushed` is every entry ever queued and
   * `claimed` those already handed a response.
   */
  class ZwaveMessageTransactionMatcher {
    var hasStore: bool
    var requestQueue: seq<Pending>
    var lastRequestFunctionClass: Option<Byte>
    ghost var pushed: seq<Pending>
    ghost var claimed: seq<Pending>

    /** Pending requests are claimed in the order they were sent; before the store exists nothing is pending. */
    ghost predicate Valid()
      reads this
    {
      pushed == claimed + requestQueue
      && (!hasStore ==> requestQueue == [] && lastRequestFunctionClass.None? && pushed == [])
    }

    constructor ()
      ensures Valid() && !hasStore && requestQueue == [] && pushed == [] && claimed == []
    {
      hasStore := false;
      requestQueue := [];
      lastRequestFunctionClass := None;
      pushed := [];
      claimed := [];
    }

    /**
     * ZwaveMessageTransactionMatcher.invoke. A match hands the oldest pending
     * request the context and records that request's function class as the
     * last one; a match with nothing pending records none and its promise
     * rejects; before any request the store is missing and the test throws;
     * a frame that does not match throws in its own branch.
     */
    method Invoke(c: Inbound) returns (r: MatcherInvoke)
      requires Valid()
      modifies this
      ensures Valid() && hasStore == old(hasStore) && pushed == old(pushed)
      ensures !hasStore && ReadsStore(c.frame) ==> r == MatcherThrows(NO_STORE)
      ensures (hasStore || !ReadsStore(c.frame)) && !Matches(c.frame, old(lastRequestFunctionClass)) ==> r == MatcherThrows(NO_SELF)
      ensures r.MatcherThrows? ==>
        requestQueue == old(requestQueue) && lastRequestFunctionClass == old(lastRequestFunctionClass) && claimed == old(claimed)
      ensures hasStore && Matches(c.frame, old(lastRequestFunctionClass)) && old(requestQueue) != [] ==>
        r == Resolves(old(requestQueue)[0], c) && requestQueue == old(requestQueue)[1..]
        && lastRequestFunctionClass == old(requestQueue)[0].functionClass && claimed == old(claimed) + [old(requestQueue)[0]]
      ensures hasStore && Matches(c.frame, old(lastRequestFunctionClass)) && old(requestQueue) == [] ==>
        r == Rejects(NO_RESOLVE) && requestQueue == [] && lastRequestFunctionClass.None? && claimed == old(claimed)
    {
      if !hasStore && ReadsStore(c.frame) {
        return MatcherThrows(NO_STORE);
      }
      if !Matches(c.frame, lastRequestFunctionClass) {
        return MatcherThrows(NO_SELF);
      }
      if requestQueue == [] {
        lastRequestFunctionClass := None;
        return Rejects(NO_RESOLVE);
      }
      var entry := requestQueue[0];
      requestQueue := requestQueue[1..];
      claimed := claimed + [entry];
      lastRequestFunctionClass := entry.functionClass;
      r := Resolves(entry, c);
    }

    /** ZwaveMessageTransactionMatcher.send, up to `next(context)`: creates the store and records the request's function class as the last one. */
    method Send(c: Request)
      requires Valid()
      modifies this
      ensures Valid() && pushed == old(pushed) && claimed == old(claimed) && requestQueue == old(requestQueue)
      ensures Bypasses(c) ==> hasStore == old(hasStore) && lastRequestFunctionClass == old(lastRequestFunctionClass)
      ensures !Bypasses(c) ==> hasStore && lastRequestFunctionClass == RequestFunctionClass(c)
    {
      if Bypasses(c) {
        return;
      }
      hasStore := true;
      lastRequestFunctionClass := RequestFunctionClass(c);
    }

    /** The continuation of send, once the request is written: it joins the pending requests under its function class. */
    method Written(c: Request)
      requires Valid() && hasStore
      modifies this
      ensures Valid() && hasStore && lastRequestFunctionClass == old(lastRequestFunctionClass) && claimed == old(claimed)
      ensures requestQueue == old(requestQueue) + [Pending(RequestFunctionClass(c), c)]
      ensures pushed == old(pushed) + [Pending(RequestFunctionClass(c), c)]
    {
      var entry := Pending(RequestFunctionClass(c), c);
      requestQueue := requestQueue + [entry];
      pushed := pushed + [entry];
    }
  }
}
