/**
 * The transport middleware (zwave-transport-middleware.js): the serial framer,
 * which splits an inbound frame into its fields and writes the checksum into
 * an outbound one, and the transport flow control, which acknowledges every
 * SOF frame, drops repeated frames, and lets one outbound frame onto the wire
 * at a time, holding the rest until the controller's next SOF frame arrives.
 * The logger in the same file is not modelled: besides writing to the
 * console, it reads the table names of the function class and, for
 * ApplicationCommandHandler and SendData frames, the command class, and so
 * throws a TypeError on a code missing from its table.
 */
module TransportMiddleware {
  import opened Wrappers
  import opened Protocol
  import opened JsBuffer

  /** The fields the framer sets on an inbound context. */
  datatype Framed = Framed(
    raw: seq<Byte>,
    frameType: Option<Byte>,
    length: Option<Byte>,
    messageType: Option<Byte>,
    /** The serial function class byte (`SerialFunctionClass.value`). */
    functionClass: Option<Byte>,
    payload: seq<Byte>)
  {
    /** Its name from the table, absent when the table has none (the `{}` fallback). */
    const functionName: Option<string> := NameAt(SerialFunctionClassName, functionClass)
  }

  /** The end offset of the payload, `raw[1] + 1`; when the length byte is missing that sum is NaN, which slice reads as 0. */
  function PayloadEnd(raw: seq<Byte>): nat
  {
    if |raw| >= 2 then (raw[1] as int) + 1 else 0
  }

  /** ZwaveMessageSerialFramer.invoke: reads the frame's header fields and cuts out its payload. */
  function FramerInvoke(raw: seq<Byte>): (f: Framed)
    ensures f.raw == raw
    ensures f.frameType == At(raw, 0) && f.length == At(raw, 1) && f.messageType == At(raw, 2)
    ensures f.functionClass == At(raw, 3)
    // A frame whose length byte counts exactly its own bytes after the SOF: the
    // payload is everything between the function class and the checksum.
    ensures |raw| >= 5 && |raw| == (raw[1] as int) + 2 ==> f.payload == raw[4..|raw| - 1]
    // A length byte claiming more than arrived is cut at the end of the buffer.
    ensures |raw| >= 4 && PayloadEnd(raw) >= |raw| ==> f.payload == raw[4..]
    ensures |f.payload| <= if |raw| >= 4 then |raw| - 4 else 0
  {
    Framed(raw, At(raw, 0), At(raw, 1), At(raw, 2), At(raw, 3), Slice(raw, 4, PayloadEnd(raw)))
  }

  /** The bytes the framer hands on for message m: a message of more than one byte gets its checksum in its last place. */
  function OnTheWire(m: seq<Byte>): seq<Byte>
  {
    if |m| > 1 then Filled(m) else m
  }

  /** ZwaveMessageSerialFramer.send: overwrites the last byte of the message buffer, in place, with its checksum. */
  method FramerSend(message: array<Byte>)
    modifies message
    ensures message[..] == OnTheWire(old(message[..]))
  {
    if message.Length > 1 {
      var c := GenerateChecksum(message[..]);
      message[message.Length - 1] := c;
      assert message[..] == old(message[..])[..message.Length - 1] + [c];
    }
  }

  /** The framer's output is accepted by a checksum test and is unaltered by a second pass. */
  lemma OnTheWireValid(m: seq<Byte>)
    requires |m| >= 3
    ensures |OnTheWire(m)| == |m| && OnTheWire(m)[..|m| - 1] == m[..|m| - 1]
    ensures ChecksumValid(OnTheWire(m))
    ensures OnTheWire(OnTheWire(m)) == OnTheWire(m)
  {
    FilledIsValid(m);
    FilledIdempotent(m);
  }

  /** A message whose length byte counts its bytes after the SOF is read back, once filled, with its fields and payload intact. */
  lemma FramedAfterFill(m: seq<Byte>)
    requires |m| >= 5 && |m| == (m[1] as int) + 2
    ensures var f := FramerInvoke(OnTheWire(m));
      f.frameType == Some(m[0]) && f.length == Some(m[1]) && f.messageType == Some(m[2])
      && f.functionClass == Some(m[3]) && f.payload == m[4..|m| - 1]
  {
    WireKeepsHeader(m);
  }

  /** Filling in the checksum changes only the last byte. */
  lemma WireKeepsHeader(m: seq<Byte>)
    requires |m| >= 5
    ensures var w := OnTheWire(m);
      |w| == |m| && w[0] == m[0] && w[1] == m[1] && w[2] == m[2] && w[3] == m[3] && w[4..|w| - 1] == m[4..|m| - 1]
  {
    var w := OnTheWire(m);
    assert |w| == |m| && w[..|m| - 1] == m[..|m| - 1];
    assert w[0] == m[0] && w[1] == m[1] && w[2] == m[2] && w[3] == m[3];
    assert w[4..|w| - 1] == m[..|m| - 1][4..];
  }

  /**
   * messageMatches: two frames count as the same message when their length,
   * message type and function class agree, the function class is not
   * GetNodeProtocolInfo, and the bytes from the payload up to (not including)
   * the last byte agree. Bytes past the end read as `undefined`, so two frames
   * both too short to have a given byte agree on it.
   */
  predicate MessageMatches(p1: seq<Byte>, p2: seq<Byte>)
  {
    At(p1, 2) == At(p2, 2)
    && At(p1, 1) == At(p2, 1)
    && At(p1, 3) == At(p2, 3)
    && At(p1, 3) != Some(GET_NODE_PROTOCOL_INFO)
    && Slice(p1, 4, -1) == Slice(p2, 4, -1)
  }

  /** A frame is its own duplicate exactly when it is not a GetNodeProtocolInfo frame. */
  lemma SelfMatchUnlessProtocolInfo(p: seq<Byte>)
    ensures MessageMatches(p, p) <==> At(p, 3) != Some(GET_NODE_PROTOCOL_INFO)
  {
  }

  /** The comparison is symmetric. */
  lemma MatchesSymmetric(p1: seq<Byte>, p2: seq<Byte>)
    ensures MessageMatches(p1, p2) <==> MessageMatches(p2, p1)
  {
  }

  /** Two frames of one length that agree between the lead byte and the last byte present the same compared fields. */
  lemma SameInterior(p: seq<Byte>, q: seq<Byte>)
    requires |p| >= 5 && |q| == |p| && q[1..|p| - 1] == p[1..|p| - 1]
    ensures At(q, 1) == At(p, 1) && At(q, 2) == At(p, 2) && At(q, 3) == At(p, 3)
    ensures Slice(q, 4, -1) == Slice(p, 4, -1)
  {
    var n := |p|;
    assert q[1] == q[1..n - 1][0] == p[1..n - 1][0] == p[1];
    assert q[2] == q[1..n - 1][1] == p[1..n - 1][1] == p[2];
    assert q[3] == q[1..n - 1][2] == p[1..n - 1][2] == p[3];
    assert Slice(q, 4, -1) == q[4..n - 1] == q[1..n - 1][3..];
    assert Slice(p, 4, -1) == p[4..n - 1] == p[1..n - 1][3..];
  }

  /** The comparison ignores the lead byte and the checksum. */
  lemma MatchesIgnoresEnds(p1: seq<Byte>, p2: seq<Byte>, q1: seq<Byte>, q2: seq<Byte>)
    requires |p1| >= 5 && |q1| == |p1| && q1[1..|p1| - 1] == p1[1..|p1| - 1]
    requires |p2| >= 5 && |q2| == |p2| && q2[1..|p2| - 1] == p2[1..|p2| - 1]
    ensures MessageMatches(p1, p2) <==> MessageMatches(q1, q2)
  {
    SameInterior(p1, q1);
    SameInterior(p2, q2);
  }

  /** A one-byte ACK, NAK or CAN frame is the duplicate of any other one-byte frame: every compared field is missing in both. */
  lemma SingleBytesMatch(a: seq<Byte>, b: seq<Byte>)
    requires |a| == 1 && |b| == 1
    ensures MessageMatches(a, b)
  {
  }

  /** Frames that differ in their function class are never taken for duplicates. */
  lemma DifferentFunctionNeverDuplicate(p1: seq<Byte>, p2: seq<Byte>)
    requires At(p1, 3) != At(p2, 3)
    ensures !MessageMatches(p1, p2)
  {
  }

  /**
   * ZwaveTransportFlowControl. `block` is set while an outbound frame is on
   * the wire and cleared by the next SOF frame from the controller; frames
   * sent meanwhile wait in `messageQueue`. `lastMessage` is the raw bytes of
   * the last inbound frame, for the duplicate test.
   */
  class ZwaveTransportFlowControl {
    var messageQueue: seq<seq<Byte>>
    var block: bool
    var lastMessage: Option<seq<Byte>>
    /** Every frame accepted into the queue, and those of them already written, in order. */
    ghost var queued: seq<seq<Byte>>
    ghost var released: seq<seq<Byte>>

    /** A frame waits only while another is on the wire, and frames leave the queue in the order they entered it. */
    ghost predicate Valid()
      reads this
    {
      (messageQueue != [] ==> block) && queued == released + messageQueue
    }

    constructor ()
      ensures Valid()
      ensures messageQueue == [] && !block && lastMessage.None?
      ensures queued == [] && released == []
    {
      messageQueue := [];
      block := false;
      lastMessage := None;
      queued := [];
      released := [];
    }

    /** The queue_modified handler: when writing is not blocked, blocks it and writes the first waiting frame. */
    method QueueModified() returns (writes: seq<seq<Byte>>)
      requires queued == released + messageQueue
      modifies this
      ensures Valid()
      ensures old(messageQueue) != [] && !old(block) ==>
        block && writes == [old(messageQueue)[0]] && messageQueue == old(messageQueue)[1..]
        && released == old(released) + writes
      ensures old(messageQueue) == [] || old(block) ==>
        block == old(block) && writes == [] && messageQueue == old(messageQueue) && released == old(released)
      ensures old(messageQueue) != [] && !old(block) ==> old(messageQueue) == writes + messageQueue
      ensures lastMessage == old(lastMessage) && queued == old(queued)
    {
      writes := [];
      if |messageQueue| > 0 && !block {
        block := true;
        writes := [messageQueue[0]];
        released := released + writes;
        messageQueue := messageQueue[1..];
      }
    }

    /**
     * ZwaveTransportFlowControl.invoke, for an inbound frame. Returns whether
     * the frame goes on up the pipeline and the bytes written in reply: a
     * repeat of the previous frame is dropped unanswered; an SOF frame is
     * acknowledged, unblocks writing and lets the next waiting frame go; any
     * other frame (ACK, NAK, CAN) is dropped.
     */
    method Invoke(raw: seq<Byte>) returns (forward: bool, writes: seq<seq<Byte>>)
      requires Valid()
      modifies this
      ensures Valid()
      ensures lastMessage == Some(raw) && queued == old(queued)
      ensures old(lastMessage).Some? && MessageMatches(raw, old(lastMessage).value) ==>
        !forward && writes == [] && messageQueue == old(messageQueue) && block == old(block)
      ensures !(old(lastMessage).Some? && MessageMatches(raw, old(lastMessage).value)) && At(raw, 0) == Some(SOF) ==>
        forward && |writes| >= 1 && writes[0] == [ACK]
        && (old(messageQueue) == [] ==> writes == [[ACK]] && !block && messageQueue == [])
        && (old(messageQueue) != [] ==> writes == [[ACK], old(messageQueue)[0]] && block && messageQueue == old(messageQueue)[1..])
      ensures !(old(lastMessage).Some? && MessageMatches(raw, old(lastMessage).value)) && At(raw, 0) != Some(SOF) ==>
        !forward && writes == [] && messageQueue == old(messageQueue) && block == old(block)
      ensures released + messageQueue == old(released) + old(messageQueue)
    {
      if lastMessage.Some? && MessageMatches(raw, lastMessage.value) {
        lastMessage := Some(raw);
        return false, [];
      }
      lastMessage := Some(raw);
      if |raw| > 0 && raw[0] == SOF {
        block := false;
        var next := QueueModified();
        return true, [[ACK]] + next;
      }
      return false, [];
    }

    /**
     * ZwaveTransportFlowControl.send: a frame shorter than two bytes (an ACK)
     * goes straight to the wire; a longer one joins the queue and is written
     * now if writing is not blocked.
     */
    method Send(raw: seq<Byte>) returns (writes: seq<seq<Byte>>)
      requires Valid()
      modifies this
      ensures Valid()
      ensures lastMessage == old(lastMessage)
      ensures |raw| < 2 ==>
        writes == [raw] && messageQueue == old(messageQueue) && block == old(block) && queued == old(queued)
      ensures |raw| >= 2 ==> queued == old(queued) + [raw] && block
      ensures |raw| >= 2 && !old(block) ==> writes == [raw] && messageQueue == []
      ensures |raw| >= 2 && old(block) ==> writes == [] && messageQueue == old(messageQueue) + [raw]
    {
      if |raw| < 2 {
        return [raw];
      }
      messageQueue := messageQueue + [raw];
      queued := queued + [raw];
      writes := QueueModified();
    }
  }
}
