/**
 * The server's per-connection handler (mazed::client_handler) without its
 * threads and timers: the handshake check, the reply prepared for each
 * inbound message, and the classification of received batches.
 */
module ClHandler {
  import opened Wrappers
  import opened Protocol
  import opened Connection

  /** message_prepare: kind, subtype and status, with the (empty) text as the one data item. */
  function Prepared(kind: int, subtype: int, status: int): Message {
    Message(kind, subtype, status, [""])
  }

  /** The rejection sent for anything the server does not expect. */
  const WrongProtocolReply: Message := Prepared(ERROR, WRONG_PROTOCOL, UPDATE)

  /** error_message_handler: the error types a client may report are acknowledged, others rejected. */
  function ErrorReply(errorType: int): Message {
    if errorType == WRONG_PROTOCOL || errorType == EMPTY_MESSAGE || errorType == MULTIPLE_MESSAGES || errorType == UNKNOWN_ERROR
    then Prepared(ERROR, errorType, ACK)
    else WrongProtocolReply
  }

  /** The handler table entry for a control subtype: SYN is refused, the others are not implemented. */
  function CtrlReply(t: CtrlType, out: Message): Message {
    if t == Syn then WrongProtocolReply else out
  }

  /**
   * The message_out_ left by one pass of run_processing's switch over the
   * inbound message `m`, when `out` was the previous one.
   */
  function Reply(m: Message, out: Message): Message {
    if m.kind == CTRL then
      match CtrlOf(m.subtype)
      case None => WrongProtocolReply
      case Some(t) => CtrlReply(t, out)
    else if m.kind == INFO then
      if m.subtype == HELLO then Prepared(INFO, HELLO, ACK) else WrongProtocolReply
    else if m.kind == ERROR then ErrorReply(m.subtype)
    else WrongProtocolReply
  }

  /** A control request whose handler is not implemented yet (FIN .. TERMINATE_GAME). */
  predicate IsStub(m: Message) {
    m.kind == CTRL && SYN < m.subtype < E_CTRL_TYPE_SIZE
  }

  /** A message the established session does not accept. */
  predicate Unexpected(m: Message) {
    || !KnownKind(m.kind)
    || (m.kind == CTRL && !(SYN < m.subtype < E_CTRL_TYPE_SIZE))
    || (m.kind == INFO && m.subtype != HELLO)
    || (m.kind == ERROR && !(m.subtype in {WRONG_PROTOCOL, EMPTY_MESSAGE, MULTIPLE_MESSAGES, UNKNOWN_ERROR}))
  }

  /**
   * The three outcomes of routing: an unexpected message is answered with
   * WRONG_PROTOCOL, a stub request leaves the reply as it was, and anything
   * else is acknowledged with its own kind and subtype.
   */
  lemma ReplyCases(m: Message, out: Message)
    ensures Unexpected(m) ==> Reply(m, out) == WrongProtocolReply
    ensures IsStub(m) ==> Reply(m, out) == out
    ensures !Unexpected(m) && !IsStub(m) ==> Reply(m, out) == Prepared(m.kind, m.subtype, ACK)
  {
    if m.kind == CTRL && CtrlOf(m.subtype).Some? {
      assert CtrlCode(CtrlOf(m.subtype).value) == m.subtype;
    }
  }

  /** Apart from the stubs, the reply depends on the inbound message alone, and is never a NACK. */
  lemma ReplyIgnoresPrevious(m: Message, out: Message, out': Message)
    requires !IsStub(m)
    ensures Reply(m, out) == Reply(m, out')
    ensures Reply(m, out).status != NACK && Reply(m, out).kind != CTRL
  {
    ReplyCases(m, out);
    ReplyCases(m, out');
  }

  /** The handshake request: CTRL/SYN/QUERY. */
  predicate IsSynQuery(m: Message) {
    m.kind == CTRL && m.subtype == SYN && m.status == QUERY
  }

  /** What the receive handlers make of a completed read. */
  datatype Received = Closed | Refused(errorType: int) | Delivered(msg: Message)

  /**
   * A failed read closes the handler, a batch of other than one message is
   * rejected as empty or multiple, and a single message is delivered as is.
   */
  function Classify(e: ErrorCode, batch: seq<Message>): (r: Received)
    ensures r.Delivered? <==> e == Success && |batch| == 1
    ensures r.Delivered? ==> r.msg == batch[0]
    ensures r.Refused? ==> e == Success && (r.errorType == EMPTY_MESSAGE <==> batch == [])
    ensures e == Success && |batch| > 1 ==> r == Refused(MULTIPLE_MESSAGES)
    ensures e == Success && batch == [] ==> r == Refused(EMPTY_MESSAGE)
    ensures r.Closed? <==> e != Success
  {
    if e != Success then Closed
    else if |batch| == 0 then Refused(EMPTY_MESSAGE)
    else if |batch| > 1 then Refused(MULTIPLE_MESSAGES)
    else Delivered(batch[0])
  }

  class ClientHandler {
    var messageIn: Message
    var messageOut: Message
    /** Cleared by terminate(). */
    var running: bool
    /** The messages handed to the socket, in order. */
    var sent: seq<Message>

    /** The inbound and outbound messages start as the zero message. */
    constructor ()
      ensures running && sent == []
      ensures messageIn == Message(CTRL, SYN, ACK, []) && messageOut == Message(CTRL, SYN, ACK, [])
    {
      messageIn := Message(CTRL, SYN, ACK, []);
      messageOut := Message(CTRL, SYN, ACK, []);
      running := true;
      sent := [];
    }

    method MessagePrepare(kind: int, subtype: int, status: int)
      modifies this
      ensures messageOut == Prepared(kind, subtype, status)
      ensures messageIn == old(messageIn) && running == old(running) && sent == old(sent)
    {
      messageOut := Prepared(kind, subtype, status);
    }

    /** async_send: the message is written as a batch of one. */
    method AsyncSend(msg: Message)
      modifies this
      ensures sent == old(sent) + [msg]
      ensures messageIn == old(messageIn) && messageOut == old(messageOut) && running == old(running)
    {
      sent := sent + [msg];
    }

    method Terminate()
      modifies this
      ensures !running
      ensures messageIn == old(messageIn) && messageOut == old(messageOut) && sent == old(sent)
    {
      running := false;
    }

    /**
     * handshake_success once the first message has arrived (or the timeout
     * has stopped the handler): CTRL/SYN/QUERY prepares CTRL/SYN/ACK and
     * succeeds; anything else sends CTRL/SYN/NACK, then WRONG_PROTOCOL, and fails.
     */
    method HandshakeSuccess() returns (ok: bool)
      modifies this
      ensures ok <==> old(running) && IsSynQuery(messageIn)
      ensures messageIn == old(messageIn) && running == old(running)
      ensures !old(running) ==> messageOut == old(messageOut) && sent == old(sent)
      ensures ok ==> messageOut == Prepared(CTRL, SYN, ACK) && sent == old(sent)
      ensures old(running) && !ok ==>
        && sent == old(sent) + [Prepared(CTRL, SYN, NACK), WrongProtocolReply]
        && messageOut == WrongProtocolReply
    {
      if !running {
        return false;
      }
      if messageIn.kind != CTRL || messageIn.subtype != SYN || messageIn.status != QUERY {
        MessagePrepare(CTRL, SYN, NACK);
        AsyncSend(messageOut);
        MessagePrepare(ERROR, WRONG_PROTOCOL, UPDATE);
        AsyncSend(messageOut);
        return false;
      }
      MessagePrepare(CTRL, SYN, ACK);
      ok := true;
    }

    /** SYN_handler: a second SYN is a protocol error. */
    method SynHandler()
      modifies this
      ensures messageOut == WrongProtocolReply
      ensures messageIn == old(messageIn) && running == old(running) && sent == old(sent)
    {
      MessagePrepare(ERROR, WRONG_PROTOCOL, UPDATE);
    }

    /** error_message_handler: acknowledge with the same type, then override the unexpected ones. */
    method ErrorMessageHandler()
      modifies this
      ensures messageOut == ErrorReply(old(messageIn).subtype)
      ensures messageIn == old(messageIn) && running == old(running) && sent == old(sent)
    {
      MessagePrepare(ERROR, messageIn.subtype, ACK);
      var t := messageIn.subtype;
      if t == WRONG_PROTOCOL || t == EMPTY_MESSAGE || t == MULTIPLE_MESSAGES || t == UNKNOWN_ERROR {
      } else {
        MessagePrepare(ERROR, WRONG_PROTOCOL, UPDATE);
      }
    }

    /** One entry of ctrl_message_handlers: SYN_handler, or one of the empty handlers. */
    method CtrlHandler(t: CtrlType)
      modifies this
      ensures messageOut == CtrlReply(t, old(messageOut))
      ensures messageIn == old(messageIn) && running == old(running) && sent == old(sent)
    {
      if t == Syn {
        SynHandler();
      }
    }

    /** One pass of run_processing's switch over the inbound message. */
    method Route()
      modifies this
      ensures messageOut == Reply(old(messageIn), old(messageOut))
      ensures messageIn == old(messageIn) && running == old(running) && sent == old(sent)
    {
      if messageIn.kind == CTRL {
        var t := CtrlOf(messageIn.subtype);
        if t.Some? {
          CtrlHandler(t.value);
        } else {
          MessagePrepare(ERROR, WRONG_PROTOCOL, UPDATE);
        }
      } else if messageIn.kind == INFO {
        if messageIn.subtype == HELLO {
          MessagePrepare(INFO, HELLO, ACK);
        } else {
          MessagePrepare(ERROR, WRONG_PROTOCOL, UPDATE);
        }
      } else if messageIn.kind == ERROR {
        ErrorMessageHandler();
      } else {
        MessagePrepare(ERROR, WRONG_PROTOCOL, UPDATE);
      }
    }

    /**
     * The receive handlers: a read error terminates the handler; a batch of
     * no or several messages is answered with EMPTY_MESSAGE or
     * MULTIPLE_MESSAGES and not forwarded; a single message becomes message_in_.
     */
    method ReceiveHandler(e: ErrorCode, batch: seq<Message>)
      modifies this
      ensures Classify(e, batch) == Closed ==>
        !running && messageIn == old(messageIn) && messageOut == old(messageOut) && sent == old(sent)
      ensures Classify(e, batch).Refused? ==>
        var reply := Prepared(ERROR, Classify(e, batch).errorType, UPDATE);
        && messageOut == reply && sent == old(sent) + [reply]
        && messageIn == old(messageIn) && running == old(running)
      ensures Classify(e, batch).Delivered? ==>
        && messageIn == batch[0]
        && messageOut == old(messageOut) && running == old(running) && sent == old(sent)
    {
      if e != Success {
        Terminate();
        return;
      }
      if |batch| != 1 {
        if |batch| == 0 {
          MessagePrepare(ERROR, EMPTY_MESSAGE, UPDATE);
        } else {
          MessagePrepare(ERROR, MULTIPLE_MESSAGES, UPDATE);
        }
        AsyncSend(messageOut);
        return;
      }
      messageIn := batch[0];
    }
  }
}
