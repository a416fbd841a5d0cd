/**
 * The layers of one Z-Wave server in the order index.js chains them, as
 * plain calls. Inbound: transport flow control, framer, serial API, node
 * serial API, transaction matcher. Outbound: message flow control, node
 * missing, transaction matcher, node serial API send, framer send,
 * transport flow control send; what the last writes is appended to
 * `written`, which stands for the serial port.
 */
module ZwavePipeline {
  import opened Wrappers
  import opened Protocol
  import opened TransportMiddleware
  import opened ZwaveContext
  import opened NodeSerialApi
  import opened MessageMiddleware
  import opened StreamParser
  import opened JsBuffer
  import SerialApi

  /** What became of a request handed to `server.send`. */
  datatype SendOutcome =
    /** Its frame went to the transport layer. */
    | Sent
    /** Message flow control holds it until the outstanding request is answered. */
    | Waiting
    /**
     * A layer below message flow control threw: node send or the framer,
     * and the promise the caller holds rejects. The model also gives it for
     * a number Payload that reaches the port, whose write throws where no
     * caller sees it.
     */
    | SendThrows(error: string)

  /** What became of an inbound frame. */
  datatype Delivery =
    /** A repeat of the previous frame, or not an SOF frame. */
    | Dropped
    /** The serial layer ends the frame's way up (RequestNodeInfo and SendData frames). */
    | Stopped
    /** The matcher threw out of invoke; nothing up the call chain catches it. */
    | InboundThrows(error: string)
    /** A match with no request pending: the promise invoke returns rejects and nothing handles the rejection. */
    | Rejected(error: string)
    /** The answer handed back to the request it belongs to. */
    | Answered(request: Request, response: Inbound)

  /** Framer send reading `message.length` when the context has neither RawPayload nor Payload. */
  const NO_MESSAGE := "TypeError: Cannot read properties of undefined (reading 'length')"

  /** The port's `write` refusing a number, the message a scalar Payload leaves when there is no RawPayload. */
  const NOT_A_BUFFER := "TypeError [ERR_INVALID_ARG_TYPE]: The \"chunk\" argument must be of type string or an instance of Buffer or Uint8Array"

  /** The error of a message-less context: the port's refusal of a scalar Payload, the framer's throw for no Payload. */
  function NoMessageError(d: Request): string
  {
    if d.payload.Some? then NOT_A_BUFFER else NO_MESSAGE
  }

  /** The context the inbound layers make of a frame up to the matcher, when the serial layer lets it on. */
  function Decoded(raw: seq<Byte>): SerialApi.Flow
  {
    var s := SerialApi.SerialSpec(FreshInbound(FramerInvoke(raw)));
    if s.Next? then SerialApi.Next(NodeInvoke(s.ctx)) else s
  }

  /** The framer, the serial API layer and the node serial API layer on an inbound frame. */
  method DecodeFrame(raw: seq<Byte>) returns (s: SerialApi.Flow)
    ensures s == Decoded(raw)
  {
    s := SerialApi.Invoke(FreshInbound(FramerInvoke(raw)));
    if s.Next? {
      s := SerialApi.Next(NodeInvoke(s.ctx));
    }
  }

  /** The serial and node layers keep the framer's fields, and neither rejects a frame. */
  lemma DecodedKeepsFrame(raw: seq<Byte>)
    ensures !Decoded(raw).Throw?
    ensures Decoded(raw).Next? ==> Decoded(raw).ctx.frame == FramerInvoke(raw)
  {
    SerialApi.StopsOnlyNodeInfoAndSendData(FreshInbound(FramerInvoke(raw)));
  }

  /**
   * The message the layers below message flow control write for request d
   * when the callback id stands at callbackId: its RawPayload (or Payload)
   * unless it is a node command, the SendData frame for a node command. A
   * node command without a truthy command class or command makes node send
   * throw; a context with neither RawPayload nor Payload makes framer send
   * throw, and one whose only message is a scalar Payload makes the port's
   * write throw.
   */
  function DownMessage(d: Request, callbackId: nat): Result<seq<Byte>>
    requires callbackId < 255
  {
    if !Truthy(d.nodeId) || d.raw.Some? then
      if OutboundMessage(d).Some? then Ok(OutboundMessage(d).value) else Err(NoMessageError(d))
    else if Truthy(d.commandClass) && Truthy(d.command) then Ok(SendDataMessage(d, NextCallbackId(callbackId) as Byte).raw.value)
    else Err(MISSING_COMMAND)
  }

  /** What the caller of a dispatch learns: Sent once a message went down, the error otherwise. */
  function OutcomeOf(m: Result<seq<Byte>>): SendOutcome
  {
    if m.Ok? then Sent else SendThrows(m.error)
  }

  /** The callback id after request d went down: advanced for a node command that gets its frame. */
  function CallbackAfter(d: Request, callbackId: nat): nat
  {
    if Truthy(d.nodeId) && d.raw.None? && Truthy(d.commandClass) && Truthy(d.command) then NextCallbackId(callbackId)
    else callbackId
  }

  /**
   * An answer went to the request that was pending and outstanding, and it
   * is the decoded context after that request's node-missing continuation.
   */
  ghost predicate Answers(delivery: Delivery, pending: seq<Pending>, outstanding: Option<Request>, decoded: SerialApi.Flow)
  {
    delivery.Answered? && pending != [] && delivery.request == pending[0].request
    && outstanding == Some(delivery.request)
    && decoded.Next? && delivery.response == NodeMissingReply(delivery.request, decoded.ctx)
  }

  /** Transport flow control lets raw on up: an SOF frame that does not repeat the frame received before it. */
  predicate Forwards(raw: seq<Byte>, lastMessage: Option<seq<Byte>>)
  {
    !(lastMessage.Some? && MessageMatches(raw, lastMessage.value)) && At(raw, 0) == Some(SOF)
  }

  /**
   * The matcher's verdict on a decoded context, given whether its store
   * exists, the function class it recorded last and the requests pending.
   */
  function MatcherOutcome(c: Inbound, hasStore: bool, lastFunctionClass: Option<Byte>, pending: seq<Pending>): Delivery
  {
    if !hasStore && ReadsStore(c.frame) then InboundThrows(NO_STORE)
    else if !Matches(c.frame, lastFunctionClass) then InboundThrows(NO_SELF)
    else if pending == [] then Rejected(NO_RESOLVE)
    else Answered(pending[0].request, NodeMissingReply(pending[0].request, c))
  }

  /** What the layers above transport flow control make of the frame raw: never a drop, which only flow control does. */
  function Expected(raw: seq<Byte>, hasStore: bool, lastFunctionClass: Option<Byte>, pending: seq<Pending>): (d: Delivery)
    ensures !d.Dropped?
  {
    var s := Decoded(raw);
    if s.Next? then MatcherOutcome(s.ctx, hasStore, lastFunctionClass, pending) else Stopped
  }

  /**
   * The delivery of a frame transport flow control lets on, in terms of the
   * framer's reading of it and the matcher's state, each case both ways.
   */
  lemma DeliveryCases(raw: seq<Byte>, hasStore: bool, lastFunctionClass: Option<Byte>, pending: seq<Pending>)
    ensures var d := Expected(raw, hasStore, lastFunctionClass, pending);
      var f := FramerInvoke(raw);
      var stops := f.functionClass in {Some(REQUEST_NODE_INFO), Some(SEND_DATA)};
      (d == Stopped <==> stops)
      && (d == InboundThrows(NO_STORE) <==> !stops && !hasStore && ReadsStore(f))
      && (d == InboundThrows(NO_SELF) <==> !stops && (hasStore || !ReadsStore(f)) && !Matches(f, lastFunctionClass))
      && (d == Rejected(NO_RESOLVE) <==> !stops && hasStore && Matches(f, lastFunctionClass) && pending == [])
      && (d.Answered? <==> !stops && hasStore && Matches(f, lastFunctionClass) && pending != [])
      && (d.Answered? ==> Decoded(raw).Next? && d == Answered(pending[0].request, NodeMissingReply(pending[0].request, Decoded(raw).ctx)))
  {
    DecodedKeepsFrame(raw);
    SerialApi.StopsOnlyNodeInfoAndSendData(FreshInbound(FramerInvoke(raw)));
    MatchReadsStore(FramerInvoke(raw), lastFunctionClass);
  }

  /**
   * A Response frame of the pending request's function class answers that
   * request, unless the serial layer stops frames of that class.
   */
  lemma ResponseAnswersPendingRequest(raw: seq<Byte>, p: Pending)
    requires FramerInvoke(raw).messageType == Some(RESPONSE) && FramerInvoke(raw).functionClass == p.functionClass
    requires p.functionClass !in {Some(REQUEST_NODE_INFO), Some(SEND_DATA)}
    ensures Decoded(raw).Next?
    ensures Expected(raw, true, p.functionClass, [p]) == Answered(p.request, NodeMissingReply(p.request, Decoded(raw).ctx))
  {
    DeliveryCases(raw, true, p.functionClass, [p]);
  }

  /**
   * Whether a delivery ends the process: a throw or a rejection nothing
   * handles, or an answer whose continuation sends down the next waiting
   * request and throws there, inside a `.then` whose promise nobody holds.
   */
  predicate Ends(d: Delivery, waiting: seq<Request>, callbackId: nat)
  {
    d.InboundThrows? || d.Rejected?
    || (d.Answered? && waiting != [] && callbackId < 255 && DownMessage(waiting[0], callbackId).Err?)
  }

  /** The frame transport flow control compares frame k of a chunk with: the one before it in the chunk, or the last of earlier chunks. */
  function Seen(before: Option<seq<Byte>>, frames: seq<seq<Byte>>, k: nat): Option<seq<Byte>>
    requires k <= |frames|
  {
    if k == 0 then before else Some(frames[k - 1])
  }

  /** A one-byte frame does not begin with SOF, so flow control never lets it on. */
  lemma SingleNotForwarded(raw: seq<Byte>, lastMessage: Option<seq<Byte>>)
    requires |raw| == 1 && IsSingleByteFrame(raw[0])
    ensures !Forwards(raw, lastMessage)
  {
    assert At(raw, 0) == Some(raw[0]);
  }

  /** The state of the layers above transport flow control, which a dropped frame leaves as it was. */
  datatype UpperLayers = UpperLayers(hasStore: bool, lastFunctionClass: Option<Byte>, pending: seq<Pending>,
                                     waiting: seq<Request>, block: bool, callbackId: nat,
                                     outstanding: Option<Request>, halted: bool)

  class ZwaveServer {
    const parser: ZwaveTransportStreamParser
    const transport: ZwaveTransportFlowControl
    const node: ZwaveNodeSerialApi
    const matcher: ZwaveMessageTransactionMatcher
    const flow: ZwaveMessageFlowControl
    /** Every write to the serial port, in order. */
    var written: seq<seq<Byte>>
    /** The request message flow control last sent down, until its answer arrives. */
    ghost var outstanding: Option<Request>
    /** An exception or a promise rejection no code handles has ended the process. */
    ghost var halted: bool

    /**
     * Message flow control is blocked exactly while a request is outstanding;
     * the matcher then holds at most that request, and none otherwise, and
     * the function class it compares answers with is the pending request's.
     */
    ghost predicate Valid()
      reads this, transport, node, matcher, flow
    {
      transport.Valid() && node.Valid() && matcher.Valid() && flow.Valid()
      && (flow.block <==> outstanding.Some?)
      && (outstanding.Some? ==> flow.dispatched != [] && outstanding.value == flow.dispatched[|flow.dispatched| - 1])
      && (forall i :: 0 <= i < |flow.messageQueue| ==> !Bypasses(flow.messageQueue[i]))
      && |matcher.requestQueue| <= 1
      && (matcher.requestQueue != [] ==> outstanding == Some(matcher.requestQueue[0].request))
      && (matcher.requestQueue != [] ==> matcher.lastRequestFunctionClass == matcher.requestQueue[0].functionClass)
    }

    /** The state of the layers above transport flow control. */
    ghost function Upper(): UpperLayers
      reads this`outstanding, this`halted, matcher, flow, node
    {
      UpperLayers(matcher.hasStore, matcher.lastRequestFunctionClass, matcher.requestQueue,
                  flow.messageQueue, flow.block, node.callbackId, outstanding, halted)
    }

    /**
     * What became of the frame raw, which transport flow control compared
     * with seen and which met the layers above it in the state pre: a frame
     * flow control lets on gets the delivery Expected says, and the engine
     * halts exactly when that delivery Ends it; a dropped frame leaves the
     * upper layers as they were; an answer goes to the pending, outstanding
     * request and the next waiting request goes down.
     */
    ghost predicate Delivered(raw: seq<Byte>, seen: Option<seq<Byte>>, pre: UpperLayers, d: Delivery)
      reads this, matcher, flow, node
    {
      d == (if Forwards(raw, seen) then Expected(raw, pre.hasStore, pre.lastFunctionClass, pre.pending) else Dropped)
      && (halted <==> Ends(d, pre.waiting, pre.callbackId))
      && (d == Dropped ==> Upper() == pre)
      && (d.Answered? ==> Answers(d, pre.pending, pre.outstanding, Decoded(raw)) && NextSentDown(pre.waiting))
      && (!d.Answered? ==> outstanding == pre.outstanding && flow.messageQueue == pre.waiting)
    }

    /** listen: a fresh pipeline, with the callback id at 0 and nothing written. */
    constructor ()
      ensures Valid() && written == [] && outstanding.None? && !halted
      ensures node.callbackId == 0 && flow.messageQueue == [] && matcher.requestQueue == []
      ensures transport.messageQueue == [] && !transport.block && parser.buffer == []
    {
      parser := new ZwaveTransportStreamParser();
      transport := new ZwaveTransportFlowControl();
      node := new ZwaveNodeSerialApi();
      matcher := new ZwaveMessageTransactionMatcher();
      flow := new ZwaveMessageFlowControl();
      written := [];
      outstanding := None;
      halted := false;
    }

    /** Nothing already written is taken back: `written` only grows at its end. */
    ghost predicate Extends(written0: seq<seq<Byte>>)
      reads this
    {
      |written0| <= |written| && written[..|written0|] == written0
    }

    /** Once a request is answered, the first waiting request, if any, is the one outstanding. */
    ghost predicate NextSentDown(queue0: seq<Request>)
      reads this, flow
    {
      (queue0 == [] ==> outstanding.None? && flow.messageQueue == [])
      && (queue0 != [] ==> outstanding == Some(queue0[0]) && flow.messageQueue == queue0[1..])
    }

    /** The frame m reached the transport layer: a one-byte frame is written at once, a longer one joins the write queue. */
    ghost predicate Handed(queued0: seq<seq<Byte>>, written0: seq<seq<Byte>>, m: seq<Byte>)
      reads this, transport
    {
      if |m| < 2 then transport.queued == queued0 && written == written0 + [m]
      else transport.queued == queued0 + [m]
    }

    /**
     * Framer send and transport flow control send: the message gets its
     * checksum and goes to the transport queue or the wire. A context with
     * neither RawPayload nor Payload makes the framer throw before anything
     * is written.
     */
    method FrameAndWrite(c: Request) returns (ok: bool)
      requires transport.Valid()
      modifies transport, this`written
      ensures Extends(old(written))
      ensures transport.Valid()
      ensures ok <==> OutboundMessage(c).Some?
      ensures ok ==> Handed(old(transport.queued), old(written), OnTheWire(OutboundMessage(c).value))
      ensures ok ==> var m := OnTheWire(OutboundMessage(c).value);
        |m| >= 2 && !old(transport.block) ==> written == old(written) + [m]
      ensures !ok ==> written == old(written) && unchanged(transport)
    {
      var message := OutboundMessage(c);
      if message.None? {
        return false;
      }
      var a := new Byte[|message.value|](i requires 0 <= i < |message.value| => message.value[i]);
      assert a[..] == message.value;
      FramerSend(a);
      var w := transport.Send(a[..]);
      written := written + w;
      ok := true;
    }

    /**
     * `server.send(context)`: message flow control either sends the request
     * down now or holds it; a request sent down goes through the rest of the
     * outbound layers.
     */
    method Send(c: Request) returns (outcome: SendOutcome)
      requires Valid() && !halted
      modifies this, transport, node, matcher, flow
      ensures Valid() && !halted
      ensures old(matcher.hasStore) ==> matcher.hasStore
      ensures Bypasses(c) ==>
        outstanding == old(outstanding) && flow.messageQueue == old(flow.messageQueue)
        && matcher.hasStore == old(matcher.hasStore) && matcher.lastRequestFunctionClass == old(matcher.lastRequestFunctionClass)
      ensures !Bypasses(c) && old(flow.block) ==>
        outcome == Waiting && flow.messageQueue == old(flow.messageQueue) + [c] && outstanding == old(outstanding)
        && written == old(written) && transport.queued == old(transport.queued)
        && node.callbackId == old(node.callbackId) && matcher.requestQueue == old(matcher.requestQueue)
        && matcher.lastRequestFunctionClass == old(matcher.lastRequestFunctionClass)
      ensures !Bypasses(c) && !old(flow.block) ==>
        outstanding == Some(c) && flow.messageQueue == [] && flow.block
        && matcher.hasStore && matcher.lastRequestFunctionClass == RequestFunctionClass(c)
      ensures Bypasses(c) || !old(flow.block) ==>
        node.callbackId == CallbackAfter(c, old(node.callbackId))
        && outcome == OutcomeOf(DownMessage(c, old(node.callbackId)))
        && (DownMessage(c, old(node.callbackId)).Ok? ==>
              Handed(old(transport.queued), old(written), OnTheWire(DownMessage(c, old(node.callbackId)).value)))
        && (DownMessage(c, old(node.callbackId)).Err? ==> written == old(written) && transport.queued == old(transport.queued))
        && matcher.requestQueue ==
             (if !Bypasses(c) && DownMessage(c, old(node.callbackId)).Ok? then [Pending(RequestFunctionClass(c), c)]
              else old(matcher.requestQueue))
    {
      var down := flow.Send(c);
      if down.None? {
        return Waiting;
      }
      if !Bypasses(c) {
        outstanding := Some(c);
      }
      outcome := Dispatch(c);
    }

    /**
     * The nested `server.send` of the SendData message node send builds: it is
     * marked DoNotCache and has its raw frame, so the three message layers and
     * node send pass it on, and its frame goes to the transport layer.
     */
    method Resend(msg: Request)
      requires msg.doNotCache && msg.raw.Some?
      requires transport.Valid() && node.Valid() && matcher.Valid() && flow.Valid()
      modifies this`written, transport, node, matcher, flow
      ensures Extends(old(written))
      ensures transport.Valid() && node.Valid() && matcher.Valid() && flow.Valid()
      ensures Handed(old(transport.queued), old(written), OnTheWire(msg.raw.value))
      ensures node.callbackId == old(node.callbackId)
      ensures flow.messageQueue == old(flow.messageQueue) && flow.block == old(flow.block)
      ensures flow.dispatched == old(flow.dispatched)
      ensures matcher.hasStore == old(matcher.hasStore) && matcher.requestQueue == old(matcher.requestQueue)
      ensures matcher.lastRequestFunctionClass == old(matcher.lastRequestFunctionClass)
    {
      var down := flow.Send(msg);
      matcher.Send(msg);
      var r := node.Send(msg);
      var ok := FrameAndWrite(msg);
    }

    /**
     * The layers below message flow control, for a request it has sent down.
     * The matcher records the request's function class before anything below
     * it can throw; the request joins the matcher's queue only once its
     * message went to the transport layer.
     */
    method Dispatch(d: Request) returns (outcome: SendOutcome)
      requires Valid()
      requires !Bypasses(d) ==> outstanding == Some(d) && matcher.requestQueue == []
      modifies this`written, transport, node, matcher, flow
      ensures Extends(old(written))
      ensures Valid()
      ensures !Bypasses(d) ==> matcher.hasStore && matcher.lastRequestFunctionClass == RequestFunctionClass(d)
      ensures Bypasses(d) ==>
        matcher.hasStore == old(matcher.hasStore) && matcher.lastRequestFunctionClass == old(matcher.lastRequestFunctionClass)
      ensures flow.messageQueue == old(flow.messageQueue) && flow.block == old(flow.block)
      ensures node.callbackId == CallbackAfter(d, old(node.callbackId))
      ensures outcome == OutcomeOf(DownMessage(d, old(node.callbackId)))
      ensures DownMessage(d, old(node.callbackId)).Ok? ==>
        Handed(old(transport.queued), old(written), OnTheWire(DownMessage(d, old(node.callbackId)).value))
      ensures DownMessage(d, old(node.callbackId)).Err? ==> transport.queued == old(transport.queued) && written == old(written)
      ensures matcher.requestQueue ==
        if !Bypasses(d) && DownMessage(d, old(node.callbackId)).Ok? then [Pending(RequestFunctionClass(d), d)]
        else old(matcher.requestQueue)
    {
      if (!Truthy(d.nodeId) || d.raw.Some?) && OutboundMessage(d).Some? {
        outcome := DispatchMessage(d);
      } else if Truthy(d.nodeId) && d.raw.None? && Truthy(d.commandClass) && Truthy(d.command) {
        outcome := DispatchCommand(d);
      } else {
        outcome := DispatchFailing(d);
      }
    }

    /** A request that is not a node command: node send passes it on and its message goes to the transport layer. */
    method DispatchMessage(d: Request) returns (outcome: SendOutcome)
      requires Valid() && (!Truthy(d.nodeId) || d.raw.Some?) && OutboundMessage(d).Some?
      requires !Bypasses(d) ==> outstanding == Some(d) && matcher.requestQueue == []
      modifies this`written, transport, node, matcher
      ensures Extends(old(written))
      ensures Valid() && outcome == Sent
      ensures !Bypasses(d) ==> matcher.hasStore && matcher.lastRequestFunctionClass == RequestFunctionClass(d)
      ensures Bypasses(d) ==>
        matcher.hasStore == old(matcher.hasStore) && matcher.lastRequestFunctionClass == old(matcher.lastRequestFunctionClass)
      ensures node.callbackId == old(node.callbackId)
      ensures Handed(old(transport.queued), old(written), OnTheWire(OutboundMessage(d).value))
      ensures matcher.requestQueue == if !Bypasses(d) then [Pending(RequestFunctionClass(d), d)] else old(matcher.requestQueue)
    {
      matcher.Send(d);
      var r := node.Send(d);
      var ok := FrameAndWrite(d);
      if !Bypasses(d) {
        matcher.Written(d);
      }
      outcome := Sent;
    }

    /** A node command: the callback id advances and the SendData message goes down through the whole pipeline. */
    method DispatchCommand(d: Request) returns (outcome: SendOutcome)
      requires Valid() && Truthy(d.nodeId) && d.raw.None? && Truthy(d.commandClass) && Truthy(d.command)
      requires !Bypasses(d) ==> outstanding == Some(d) && matcher.requestQueue == []
      modifies this`written, transport, node, matcher, flow
      ensures Extends(old(written))
      ensures Valid() && outcome == Sent
      ensures !Bypasses(d) ==> matcher.hasStore && matcher.lastRequestFunctionClass == RequestFunctionClass(d)
      ensures Bypasses(d) ==>
        matcher.hasStore == old(matcher.hasStore) && matcher.lastRequestFunctionClass == old(matcher.lastRequestFunctionClass)
      ensures flow.messageQueue == old(flow.messageQueue) && flow.block == old(flow.block)
      ensures node.callbackId == NextCallbackId(old(node.callbackId))
      ensures Handed(old(transport.queued), old(written), OnTheWire(SendDataMessage(d, node.callbackId as Byte).raw.value))
      ensures matcher.requestQueue == if !Bypasses(d) then [Pending(RequestFunctionClass(d), d)] else old(matcher.requestQueue)
    {
      matcher.Send(d);
      var r := node.Send(d);
      Resend(r.msg);
      if !Bypasses(d) {
        matcher.Written(d);
      }
      outcome := Sent;
    }

    /**
     * A request whose way down throws: node send, for a node command without a
     * truthy command class or command, or framer send or the port, for a
     * context with no byte array to send. Nothing is written and nothing joins the matcher's queue, but
     * the matcher has already recorded the request's function class.
     */
    method DispatchFailing(d: Request) returns (outcome: SendOutcome)
      requires Valid() && DownMessage(d, node.callbackId).Err?
      requires !Bypasses(d) ==> outstanding == Some(d) && matcher.requestQueue == []
      modifies this`written, transport, node, matcher
      ensures Valid() && outcome == SendThrows(DownMessage(d, old(node.callbackId)).error)
      ensures written == old(written) && transport.queued == old(transport.queued)
      ensures !Bypasses(d) ==> matcher.hasStore && matcher.lastRequestFunctionClass == RequestFunctionClass(d)
      ensures Bypasses(d) ==>
        matcher.hasStore == old(matcher.hasStore) && matcher.lastRequestFunctionClass == old(matcher.lastRequestFunctionClass)
      ensures node.callbackId == old(node.callbackId) && matcher.requestQueue == old(matcher.requestQueue)
    {
      matcher.Send(d);
      var r := node.Send(d);
      if r.Throws? {
        return SendThrows(r.error);
      }
      var ok := FrameAndWrite(d);
      outcome := SendThrows(NoMessageError(d));
    }

    /**
     * A frame the stream parser delivered, up through the inbound layers:
     * transport flow control drops repeats and anything but SOF frames and
     * acknowledges the rest; the framer, serial API and node serial API read
     * it; the matcher hands it to the request it answers, whose node-missing
     * continuation files node 0 under the requested node, and message flow
     * control then sends the next waiting request down. A throw or a
     * rejection on the way ends the process.
     */
    method ReceiveFrame(raw: seq<Byte>) returns (delivery: Delivery)
      requires Valid() && !halted
      modifies this, transport, node, matcher, flow
      ensures Valid() && Extends(old(written))
      ensures Delivered(raw, old(transport.lastMessage), old(Upper()), delivery)
      ensures Forwards(raw, old(transport.lastMessage)) ==> |written| > |old(written)| && written[|old(written)|] == [ACK]
      ensures !Forwards(raw, old(transport.lastMessage)) ==> written == old(written) && transport.lastMessage == Some(raw)
    {
      var forward := Acknowledge(raw);
      if !forward {
        return Dropped;
      }
      ghost var acknowledged := written;
      delivery := Deliver(raw);
      ExtendsTrans(old(written), acknowledged);
    }

    /** Transport flow control's invoke, with its writes going to the port. */
    method Acknowledge(raw: seq<Byte>) returns (forward: bool)
      requires Valid()
      modifies this`written, transport
      ensures Valid() && Extends(old(written)) && transport.lastMessage == Some(raw) && Upper() == old(Upper())
      ensures forward == Forwards(raw, old(transport.lastMessage))
      ensures !forward ==> written == old(written)
      ensures forward ==> |written| > |old(written)| && written[|old(written)|] == [ACK]
    {
      var w;
      forward, w := transport.Invoke(raw);
      written := written + w;
    }

    /** The layers above transport flow control, for a frame it lets on. */
    method Deliver(raw: seq<Byte>) returns (delivery: Delivery)
      requires Valid() && !halted
      modifies this, transport, node, matcher, flow
      ensures Valid() && Extends(old(written))
      ensures delivery == Expected(raw, old(matcher.hasStore), old(matcher.lastRequestFunctionClass), old(matcher.requestQueue))
      ensures halted <==> Ends(delivery, old(flow.messageQueue), old(node.callbackId))
      ensures delivery.Answered? ==>
        Answers(delivery, old(matcher.requestQueue), old(outstanding), Decoded(raw)) && NextSentDown(old(flow.messageQueue))
      ensures !delivery.Answered? ==> outstanding == old(outstanding) && flow.messageQueue == old(flow.messageQueue)
    {
      var s := DecodeFrame(raw);
      DecodedKeepsFrame(raw);
      if s.Stop? {
        return Stopped;
      }
      delivery := Match(s.ctx);
    }

    /**
     * The transaction matcher on a decoded context, and the continuations of
     * the request it answers. A throw out of invoke reaches the stream's data
     * handler uncaught; a rejection of the promise invoke returns is handled
     * nowhere; either ends the process.
     */
    method Match(c: Inbound) returns (delivery: Delivery)
      requires Valid() && !halted
      modifies this, transport, node, matcher, flow
      ensures Valid() && Extends(old(written))
      ensures delivery == MatcherOutcome(c, old(matcher.hasStore), old(matcher.lastRequestFunctionClass), old(matcher.requestQueue))
      ensures halted <==> Ends(delivery, old(flow.messageQueue), old(node.callbackId))
      ensures delivery.Answered? ==>
        Answers(delivery, old(matcher.requestQueue), old(outstanding), SerialApi.Next(c)) && NextSentDown(old(flow.messageQueue))
      ensures !delivery.Answered? ==> outstanding == old(outstanding) && flow.messageQueue == old(flow.messageQueue)
    {
      var m := matcher.Invoke(c);
      if m.MatcherThrows? {
        halted := true;
        return InboundThrows(m.error);
      }
      if m.Rejects? {
        halted := true;
        return Rejected(m.error);
      }
      var request := m.entry.request;
      delivery := Answered(request, NodeMissingReply(request, m.ctx));
      Complete();
    }

    /**
     * Message flow control's continuation once the outstanding request has
     * its answer: it unblocks and sends the next waiting request down. That
     * runs inside the answered request's `.then`, so a throw on the way down
     * rejects a promise nobody holds and ends the process.
     */
    method Complete()
      requires Valid() && outstanding.Some? && matcher.requestQueue == [] && !halted
      modifies this, transport, node, matcher, flow
      ensures Valid() && Extends(old(written))
      ensures NextSentDown(old(flow.messageQueue))
      ensures halted <==> old(flow.messageQueue) != [] && DownMessage(old(flow.messageQueue)[0], old(node.callbackId)).Err?
    {
      outstanding := None;
      var down := flow.Completed();
      if down.Some? {
        outstanding := down;
        var outcome := Dispatch(down.value);
        halted := outcome.SendThrows?;
      }
    }

    /**
     * onData for a chunk from the serial port: the stream parser cuts the
     * frames at the front of what it holds, and each goes up the inbound
     * layers in turn. Every frame but the last is a one-byte frame, which
     * transport flow control drops; only the last can reach the layers above
     * it.
     */
    method ReceiveChunk(chunk: seq<Byte>) returns (ghost frames: seq<seq<Byte>>, deliveries: seq<Delivery>)
      requires Valid() && !halted
      modifies this, parser, transport, node, matcher, flow
      ensures Valid() && Extends(old(written))
      ensures Scanned(frames, parser.buffer) == Scan(old(parser.buffer) + chunk)
      ensures |deliveries| == |frames|
      ensures forall i :: 0 <= i < |frames| - 1 ==> deliveries[i] == Dropped
      ensures frames == [] ==> Upper() == old(Upper())
      ensures frames != [] ==>
        Delivered(frames[|frames| - 1], Seen(old(transport.lastMessage), frames, |frames| - 1), old(Upper()),
                      deliveries[|frames| - 1])
    {
      var fs := parser.Transform(chunk);
      ScanShape(old(parser.buffer) + chunk);
      frames := fs;
      deliveries := DeliverFrames(fs);
    }

    /** The frames of one chunk up the inbound layers, in order. */
    method DeliverFrames(fs: seq<seq<Byte>>) returns (deliveries: seq<Delivery>)
      requires Valid() && !halted
      requires forall j :: 0 <= j < |fs| - 1 ==> |fs[j]| == 1 && IsSingleByteFrame(fs[j][0])
      modifies this, transport, node, matcher, flow
      ensures Valid() && Extends(old(written))
      ensures |deliveries| == |fs|
      ensures forall i :: 0 <= i < |fs| - 1 ==> deliveries[i] == Dropped
      ensures fs == [] ==> Upper() == old(Upper())
      ensures fs != [] ==>
        Delivered(fs[|fs| - 1], Seen(old(transport.lastMessage), fs, |fs| - 1), old(Upper()), deliveries[|fs| - 1])
    {
      deliveries := [];
      if fs == [] {
        return;
      }
      var k := |fs| - 1;
      deliveries := DropSingles(fs[..k]);
      ghost var seen := transport.lastMessage;
      assert seen == Seen(old(transport.lastMessage), fs, k);
      var d := ReceiveFrame(fs[k]);
      deliveries := deliveries + [d];
      assert deliveries[k] == d;
    }

    /**
     * One-byte frames: transport flow control, the first inbound layer,
     * notes each as the last message and drops it without calling the
     * layers above.
     */
    method DropSingles(fs: seq<seq<Byte>>) returns (deliveries: seq<Delivery>)
      requires Valid() && !halted
      requires forall j :: 0 <= j < |fs| ==> |fs[j]| == 1 && IsSingleByteFrame(fs[j][0])
      modifies this`written, transport
      ensures Valid() && written == old(written)
      ensures |deliveries| == |fs| && forall i :: 0 <= i < |fs| ==> deliveries[i] == Dropped
      ensures Upper() == old(Upper()) && transport.lastMessage == Seen(old(transport.lastMessage), fs, |fs|)
      decreases |fs|
    {
      if fs == [] {
        return [];
      }
      SingleNotForwarded(fs[0], transport.lastMessage);
      var forward := Acknowledge(fs[0]);
      var rest := DropSingles(fs[1..]);
      deliveries := [Dropped] + rest;
    }

    /** Growing at the end twice is growing at the end. */
    lemma ExtendsTrans(w0: seq<seq<Byte>>, w1: seq<seq<Byte>>)
      requires |w0| <= |w1| && w1[..|w0|] == w0 && Extends(w1)
      ensures Extends(w0)
    {
      assert written[..|w0|] == written[..|w1|][..|w0|];
    }
  }

  /**
   * A node command goes to the wire as a SendData request the framer reads
   * back: node, command length, class, command, arguments, transmit options
   * and the advanced callback id, under a valid checksum.
   */
  lemma CommandGoesDownAsSendData(d: Request, callbackId: nat)
    requires callbackId < 255 && Truthy(d.nodeId) && d.raw.None? && Truthy(d.commandClass) && Truthy(d.command)
    requires |Arguments(d)| <= 246
    ensures DownMessage(d, callbackId).Ok?
    ensures var m := OnTheWire(DownMessage(d, callbackId).value);
      var f := FramerInvoke(m);
      ChecksumValid(m) && f.functionClass == Some(SEND_DATA)
      && f.payload == [d.nodeId.value, Low8(|Arguments(d)| + 2), d.commandClass.value, d.command.value] + Arguments(d)
                      + [d.transmitOptions.GetOr(TRANSMIT_OPTIONS_NONE), NextCallbackId(callbackId) as Byte]
  {
    var tx, cb := d.transmitOptions.GetOr(TRANSMIT_OPTIONS_NONE), NextCallbackId(callbackId) as Byte;
    DownMessageIsSendData(d, callbackId);
    SendDataRoundTrip(d.nodeId.value, d.commandClass.value, d.command.value, Arguments(d), tx, cb);
  }

  lemma DownMessageIsSendData(d: Request, callbackId: nat)
    requires callbackId < 255 && Truthy(d.nodeId) && d.raw.None? && Truthy(d.commandClass) && Truthy(d.command)
    ensures DownMessage(d, callbackId) == Ok(SendDataFrame(d.nodeId.value, d.commandClass.value, d.command.value, Arguments(d),
                                                           d.transmitOptions.GetOr(TRANSMIT_OPTIONS_NONE), NextCallbackId(callbackId) as Byte))
  {
  }
}
