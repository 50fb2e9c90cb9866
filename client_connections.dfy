/**
 * The client's TCP connection to the server (client::tcp_connection) without
 * its threads, locks and socket: the packets prepared by the constructor, the
 * handshake handlers, the inbound timeout, and what a completed read hands to
 * the client as its current message.
 *
 * Every event the connection reports locally (an error, a timeout, a closed
 * connection, a malformed batch) overwrites the client's message with an
 * ERROR message of status LOCAL whose first data item is a readable text;
 * `description` stands for the operating system's text of the error code.
 */
module ClientConnections {
  import opened Wrappers
  import opened Protocol
  import opened Connection
  import ClHandler

  // ---------------------------------------------------------------------------
  // Writing the first data item

  /**
   * `data[0] = text` as the handlers write it: only defined when the vector
   * already holds an item, since indexing an empty vector is undefined.
   */
  function SetFirst(data: seq<string>, text: string): (r: seq<string>)
    requires |data| >= 1
    ensures |r| == |data| && r[0] == text && r[1..] == data[1..]
  {
    data[0 := text]
  }

  /** `reserve(n)` changes the capacity only: the items are left as they are. */
  function Reserved(data: seq<string>, n: nat): (r: seq<string>)
    ensures |r| == |data|
    ensures forall i :: 0 <= i < |r| ==> r[i] == data[i]
  {
    data
  }

  /**
   * The constructor reserves room for one item so that the error handlers can
   * write data[0]; but a message whose data is empty still has no item 0
   * afterwards, so SetFirst cannot apply to it.
   */
  lemma ReserveLeavesNoFirstItem(storage: Message)
    requires storage.data == []
    ensures |Reserved(storage.data, 1)| == 0
  {
  }

  /**
   * The first data item set to `text`, creating it when the data is empty;
   * on data that already holds an item it agrees with SetFirst.
   */
  function ErrorText(data: seq<string>, text: string): (r: seq<string>)
    ensures |r| >= 1 && r[0] == text
    ensures |data| >= 1 ==> r == SetFirst(data, text)
    ensures data == [] ==> r == [text]
  {
    if data == [] then [text] else data[0 := text]
  }

  /** The items after the first survive an error text, whatever the data held. */
  lemma ErrorTextKeepsRest(data: seq<string>, text: string)
    ensures |ErrorText(data, text)| == if data == [] then 1 else |data|
    ensures forall i :: 1 <= i < |data| ==> ErrorText(data, text)[i] == data[i]
  {
  }

  /** The client's message after a locally detected event of type `errorType`. */
  function LocalError(prev: Message, errorType: int, text: string): (r: Message)
    ensures r.kind == ERROR && r.subtype == errorType && r.status == LOCAL
    ensures |r.data| >= 1 && r.data[0] == text
  {
    Message(ERROR, errorType, LOCAL, ErrorText(prev.data, text))
  }

  // ---------------------------------------------------------------------------
  // Texts shown to the player

  const HANDSHAKE_SEND_TEXT: string := "Error during HANDSHAKE initialization: "
  const HANDSHAKE_RECEIVE_TEXT: string := "Error during HANDSHAKE confirmation: "
  const TIMER_EXPIRED_TEXT: string := "Error: Connection to server has timed out"
  const TIMER_ERROR_TEXT: string := "Error: "
  const CLOSED_TEXT: string := "INFO: Connection closed by server"
  const ABORTED_TEXT: string := "INFO: Connection to server has timed out"
  const RECEIVE_ERROR_TEXT: string := "Error during ASYNC_RECEIVE: "
  /** The text for an empty batch, spelled as the client spells it. */
  const EMPTY_TEXT: string := "ERROR: Message with now content received"
  const MULTIPLE_TEXT: string := "ERROR: Multiple messages received"

  // ---------------------------------------------------------------------------
  // Classification of a completed read

  /**
   * The client's message after a read completed with `e` and the batch
   * `batch`, when it was `prev` before.
   */
  function ReceiveOutcome(prev: Message, e: ErrorCode, description: string, batch: seq<Message>): (r: Message)
    ensures e == Success && |batch| == 1 ==> r == batch[0]
    ensures !(e == Success && |batch| == 1) ==> r.kind == ERROR && r.status == LOCAL && |r.data| >= 1
    ensures e == Eof ==> r.subtype == CLOSED_CONNECTION
    ensures e == OperationAborted ==> r.subtype == TIMEOUT
    ensures e != Success && e != Eof && e != OperationAborted ==>
      r.subtype == UNKNOWN_ERROR && r.data[0] == RECEIVE_ERROR_TEXT + description
    ensures e == Success && batch == [] ==> r.subtype == EMPTY_MESSAGE
    ensures e == Success && |batch| > 1 ==> r.subtype == MULTIPLE_MESSAGES
  {
    if e == Eof then LocalError(prev, CLOSED_CONNECTION, CLOSED_TEXT)
    else if e == OperationAborted then LocalError(prev, TIMEOUT, ABORTED_TEXT)
    else if e != Success then LocalError(prev, UNKNOWN_ERROR, RECEIVE_ERROR_TEXT + description)
    else if |batch| != 1 then
      if |batch| == 0 then LocalError(prev, EMPTY_MESSAGE, EMPTY_TEXT)
      else LocalError(prev, MULTIPLE_MESSAGES, MULTIPLE_TEXT)
    else batch[0]
  }

  /**
   * As long as the server never sends the LOCAL status, a LOCAL message tells
   * the client exactly that its connection reported the event itself.
   */
  lemma LocalMarksClientEvents(prev: Message, e: ErrorCode, description: string, batch: seq<Message>)
    requires forall k :: 0 <= k < |batch| ==> batch[k].status != LOCAL
    ensures ReceiveOutcome(prev, e, description, batch).status == LOCAL <==> !(e == Success && |batch| == 1)
  {
  }

  /**
   * The client classifies a read as the server's handler does: it receives the
   * server's message exactly when the server would have delivered it, reports
   * EMPTY_MESSAGE or MULTIPLE_MESSAGES exactly when the server would refuse
   * the batch with that type, and turns a failed read into one of the three
   * connection errors.
   */
  lemma ReceiveAgreesWithServer(prev: Message, e: ErrorCode, description: string, batch: seq<Message>)
    ensures ClHandler.Classify(e, batch).Delivered? ==>
      ReceiveOutcome(prev, e, description, batch) == ClHandler.Classify(e, batch).msg
    ensures ClHandler.Classify(e, batch).Refused? ==>
      var r := ReceiveOutcome(prev, e, description, batch);
      r.status == LOCAL && r.subtype == ClHandler.Classify(e, batch).errorType
    ensures ClHandler.Classify(e, batch).Closed? ==>
      ReceiveOutcome(prev, e, description, batch).subtype in {CLOSED_CONNECTION, TIMEOUT, UNKNOWN_ERROR}
  {
  }

  /** The data items after the first survive any local event. */
  lemma ReceiveKeepsLaterItems(prev: Message, e: ErrorCode, description: string, batch: seq<Message>)
    requires !(e == Success && |batch| == 1)
    ensures forall i :: 1 <= i < |prev.data| ==> ReceiveOutcome(prev, e, description, batch).data[i] == prev.data[i]
  {
    var r := ReceiveOutcome(prev, e, description, batch);
    assert r.data == ErrorText(prev.data, r.data[0]);
    ErrorTextKeepsRest(prev.data, r.data[0]);
  }

  // ---------------------------------------------------------------------------
  // The inbound timer

  /** The expiry time of a deadline timer: never, or a number of milliseconds from now. */
  datatype Deadline = Never | After(ms: int)

  /**
   * The client's message after the inbound timer's handler ran with `e`, or
   * None when the wait was cancelled because the deadline moved.
   */
  function TimerOutcome(prev: Message, e: ErrorCode, description: string): (r: Option<Message>)
    ensures r == None <==> e == OperationAborted
    ensures r.Some? ==> r.value.kind == ERROR && r.value.status == LOCAL && |r.value.data| >= 1
    ensures e == Success ==> r == Some(LocalError(prev, TIMEOUT, TIMER_EXPIRED_TEXT))
    ensures r.Some? && e != Success ==> r.value.subtype == UNKNOWN_ERROR && r.value.data[0] == TIMER_ERROR_TEXT + description
  {
    match e
    case OperationAborted => None
    case Success => Some(LocalError(prev, TIMEOUT, TIMER_EXPIRED_TEXT))
    case _ => Some(LocalError(prev, UNKNOWN_ERROR, TIMER_ERROR_TEXT + description))
  }

  /**
   * An expired inbound timer and a read aborted by it report the same error
   * type to the client, with different texts.
   */
  lemma TimeoutsShareType(prev: Message, description: string, batch: seq<Message>)
    ensures TimerOutcome(prev, Success, description).value.subtype == ReceiveOutcome(prev, OperationAborted, description, batch).subtype == TIMEOUT
    ensures TimerOutcome(prev, Success, description).value.data[0] != ReceiveOutcome(prev, OperationAborted, description, batch).data[0]
  {
    assert TIMER_EXPIRED_TEXT[0] != ABORTED_TEXT[0];
  }

  /** Which read the connection is waiting for. */
  datatype Reading = Idle | HandshakeReply | Inbound

  class TcpConnection {
    /** The client's current message (a reference to the client's storage). */
    var messageIn: Message
    /** Set whenever messageIn holds something new for the client. */
    var newMessageFlag: bool
    /** The first outbound message: the handshake request. */
    var handshakeOut: Message
    /** The heartbeat sent every HELLO_INTERVAL. */
    var helloPacket: Message
    var timeoutIn: Deadline
    /** Whether a handler waits on the inbound timer. */
    var timeoutInWaiting: bool
    var reading: Reading
    /** Whether the send and receive loops run. */
    var loopsStarted: bool
    /** The MAX_PING setting, in milliseconds. */
    const maxPing: int

    /**
     * The handshake request CTRL/SYN/QUERY and the heartbeat INFO/HELLO/UPDATE
     * are prepared in advance; the client's message keeps its data, since
     * reserving room creates no item.
     */
    constructor (storage: Message, maxPingSetting: int)
      ensures messageIn == Message(storage.kind, storage.subtype, storage.status, Reserved(storage.data, 1))
      ensures messageIn == storage
      ensures handshakeOut.kind == CTRL && handshakeOut.subtype == SYN && handshakeOut.status == QUERY
      ensures helloPacket.kind == INFO && helloPacket.subtype == HELLO && helloPacket.status == UPDATE
      ensures maxPing == maxPingSetting && timeoutIn == Never
      ensures !newMessageFlag && !timeoutInWaiting && reading == Idle && !loopsStarted
    {
      messageIn := Message(storage.kind, storage.subtype, storage.status, Reserved(storage.data, 1));
      handshakeOut := Message(CTRL, SYN, QUERY, []);
      helloPacket := Message(INFO, HELLO, UPDATE, []);
      maxPing := maxPingSetting;
      timeoutIn := Never;
      newMessageFlag := false;
      timeoutInWaiting := false;
      reading := Idle;
      loopsStarted := false;
    }

    /** Overwrites the client's message with a local event and signals the client. */
    method Notify(errorType: int, text: string)
      modifies this
      ensures messageIn == LocalError(old(messageIn), errorType, text) && newMessageFlag
      ensures handshakeOut == old(handshakeOut) && helloPacket == old(helloPacket)
      ensures timeoutIn == old(timeoutIn) && timeoutInWaiting == old(timeoutInWaiting)
      ensures reading == old(reading) && loopsStarted == old(loopsStarted)
    {
      messageIn := LocalError(messageIn, errorType, text);
      newMessageFlag := true;
    }

    /** start_timeout_in_timer: the deadline is moved to infinity and a handler waits on it. */
    method StartTimeoutInTimer()
      modifies this
      ensures timeoutIn == Never && timeoutInWaiting
      ensures messageIn == old(messageIn) && newMessageFlag == old(newMessageFlag)
      ensures handshakeOut == old(handshakeOut) && helloPacket == old(helloPacket)
      ensures reading == old(reading) && loopsStarted == old(loopsStarted)
    {
      timeoutIn := Never;
      timeoutInWaiting := true;
    }

    /** timeout_in_set: the inbound deadline is MAX_PING milliseconds from now. */
    method TimeoutInSet()
      modifies this
      ensures timeoutIn == After(maxPing)
      ensures messageIn == old(messageIn) && newMessageFlag == old(newMessageFlag)
      ensures handshakeOut == old(handshakeOut) && helloPacket == old(helloPacket)
      ensures timeoutInWaiting == old(timeoutInWaiting) && reading == old(reading) && loopsStarted == old(loopsStarted)
    {
      timeoutIn := After(maxPing);
    }

    /** timeout_in_stop: the inbound deadline is moved to infinity. */
    method TimeoutInStop()
      modifies this
      ensures timeoutIn == Never
      ensures messageIn == old(messageIn) && newMessageFlag == old(newMessageFlag)
      ensures handshakeOut == old(handshakeOut) && helloPacket == old(helloPacket)
      ensures timeoutInWaiting == old(timeoutInWaiting) && reading == old(reading) && loopsStarted == old(loopsStarted)
    {
      timeoutIn := Never;
    }

    /**
     * handshake_send_handler: a failed send is reported as a HANDSHAKE error;
     * otherwise the inbound deadline is armed and the reply is awaited.
     */
    method HandshakeSendHandler(e: ErrorCode, description: string)
      modifies this
      ensures e != Success ==>
        && messageIn == LocalError(old(messageIn), HANDSHAKE, HANDSHAKE_SEND_TEXT + description)
        && newMessageFlag && timeoutIn == old(timeoutIn) && reading == old(reading)
      ensures e == Success ==>
        && messageIn == old(messageIn) && newMessageFlag == old(newMessageFlag)
        && timeoutIn == After(maxPing) && reading == HandshakeReply
      ensures handshakeOut == old(handshakeOut) && helloPacket == old(helloPacket)
      ensures timeoutInWaiting == old(timeoutInWaiting) && loopsStarted == old(loopsStarted)
    {
      if e != Success {
        Notify(HANDSHAKE, HANDSHAKE_SEND_TEXT + description);
        return;
      }
      TimeoutInSet();
      reading := HandshakeReply;
    }

    /**
     * handshake_receive_handler: the inbound deadline is stopped; a failed
     * read is reported as a HANDSHAKE error, and any completed read starts the
     * loops, whatever the server replied (the reply is not a parameter).
     */
    method HandshakeReceiveHandler(e: ErrorCode, description: string)
      modifies this
      ensures timeoutIn == Never
      ensures e != Success ==>
        && messageIn == LocalError(old(messageIn), HANDSHAKE, HANDSHAKE_RECEIVE_TEXT + description)
        && newMessageFlag && reading == Idle && loopsStarted == old(loopsStarted)
      ensures e == Success ==>
        && messageIn == old(messageIn) && newMessageFlag == old(newMessageFlag)
        && reading == Inbound && loopsStarted
      ensures handshakeOut == old(handshakeOut) && helloPacket == old(helloPacket)
      ensures timeoutInWaiting == old(timeoutInWaiting)
    {
      TimeoutInStop();
      reading := Idle;
      if e != Success {
        Notify(HANDSHAKE, HANDSHAKE_RECEIVE_TEXT + description);
        return;
      }
      AsioLoopsStart();
    }

    /** asio_loops_start: the outbound timer (not modelled) and the receive loop start. */
    method AsioLoopsStart()
      modifies this
      ensures loopsStarted && reading == Inbound
      ensures messageIn == old(messageIn) && newMessageFlag == old(newMessageFlag)
      ensures handshakeOut == old(handshakeOut) && helloPacket == old(helloPacket)
      ensures timeoutIn == old(timeoutIn) && timeoutInWaiting == old(timeoutInWaiting)
    {
      loopsStarted := true;
      reading := Inbound;
    }

    /**
     * timeout_in_handler: a cancelled wait (the deadline moved) waits again
     * and tells the client nothing; an expiry or another error is reported
     * and the handler stops waiting.
     */
    method TimeoutInHandler(e: ErrorCode, description: string)
      modifies this
      ensures TimerOutcome(old(messageIn), e, description) == None ==>
        messageIn == old(messageIn) && newMessageFlag == old(newMessageFlag) && timeoutInWaiting
      ensures TimerOutcome(old(messageIn), e, description).Some? ==>
        messageIn == TimerOutcome(old(messageIn), e, description).value && newMessageFlag && !timeoutInWaiting
      ensures handshakeOut == old(handshakeOut) && helloPacket == old(helloPacket)
      ensures timeoutIn == old(timeoutIn) && reading == old(reading) && loopsStarted == old(loopsStarted)
    {
      match e
      case OperationAborted =>
        timeoutInWaiting := true;
      case Success =>
        Notify(TIMEOUT, TIMER_EXPIRED_TEXT);
        timeoutInWaiting := false;
      case _ =>
        Notify(UNKNOWN_ERROR, TIMER_ERROR_TEXT + description);
        timeoutInWaiting := false;
    }

    /**
     * async_receive_handler: the client's message becomes the classified
     * outcome of the read, the client is always signalled, and the next read
     * is requested.
     */
    method AsyncReceiveHandler(e: ErrorCode, description: string, batch: seq<Message>)
      modifies this
      ensures messageIn == ReceiveOutcome(old(messageIn), e, description, batch)
      ensures newMessageFlag && reading == Inbound
      ensures handshakeOut == old(handshakeOut) && helloPacket == old(helloPacket)
      ensures timeoutIn == old(timeoutIn) && timeoutInWaiting == old(timeoutInWaiting) && loopsStarted == old(loopsStarted)
    {
      if e != Success {
        if e == Eof {
          Notify(CLOSED_CONNECTION, CLOSED_TEXT);
        } else if e == OperationAborted {
          Notify(TIMEOUT, ABORTED_TEXT);
        } else {
          Notify(UNKNOWN_ERROR, RECEIVE_ERROR_TEXT + description);
        }
      } else if |batch| != 1 {
        if |batch| == 0 {
          Notify(EMPTY_MESSAGE, EMPTY_TEXT);
        } else {
          Notify(MULTIPLE_MESSAGES, MULTIPLE_TEXT);
        }
      } else {
        messageIn := batch[0];
      }
      newMessageFlag := true;
      reading := Inbound;
    }
  }
}
