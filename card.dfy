/** A card session: the handle and protocol negotiated when the reader
    connected to a card, and the command/response exchange over it.
    The response trailer is the status word SW1 SW2 of ISO/IEC 7816-4
    (section 5.1.3); 90 00 is normal completion. */
module Card {
  import opened Wrappers
  import opened Pcsc
  import opened Errors

  /** Size of the receive buffer handed to the transmit call. */
  const RecvBufferLength: nat := 262

  /** What the native transmit call reports: its status and the bytes the
      card sent back (payload followed by the status word). */
  datatype TransmitReply = TransmitReply(status: int, response: seq<byte>)

  /** The card as the transmit call sees it: the reply it gives to each
      command sent to it. */
  type Transmit = seq<byte> -> TransmitReply

  /** The transmit call as seen through a buffer of `capacity` bytes: on
      success the response is written to the buffer and its length reported;
      a response that does not fit is an insufficient-buffer failure. */
  function Receive(reply: TransmitReply, capacity: nat): (r: Result<seq<byte>, int>)
    ensures r.Success? <==> reply.status == ScardSSuccess && |reply.response| <= capacity
    ensures r.Success? ==> r.value == reply.response
    ensures r.Failure? ==> r.error != ScardSSuccess
  {
    if reply.status != ScardSSuccess then Failure(reply.status)
    else if |reply.response| > capacity then Failure(ScardEInsufficientBuffer)
    else Success(reply.response)
  }

  /** Splits a received response into payload and status word. Fewer than two
      bytes cannot carry a status word and are a transmission failure. */
  function DecodeResponse(received: seq<byte>): (r: Result<seq<byte>, Error>)
    ensures |received| < 2 ==> r == Failure(TransmissionFailed)
    ensures r.Success? ==> |received| >= 2 && received == r.value + [0x90, 0x00]
    ensures r.Failure? && |received| >= 2 ==>
      r == Failure(CommandFailed(received[|received| - 2], received[|received| - 1]))
      && !(received[|received| - 2] == 0x90 && received[|received| - 1] == 0x00)
  {
    if |received| < 2 then Failure(TransmissionFailed)
    else
      var sw1, sw2 := received[|received| - 2], received[|received| - 1];
      if sw1 == 0x90 && sw2 == 0x00 then Success(received[..|received| - 2])
      else Failure(CommandFailed(sw1, sw2))
  }

  /** Whether the reply is a complete exchange the receive buffer can hold. */
  predicate Received(reply: TransmitReply) {
    reply.status == ScardSSuccess && 2 <= |reply.response| <= RecvBufferLength
  }

  /** What sending `command` over a card whose handle is `handle` yields when
      the card answers as `transmit` says: the argument and state checks come
      first, then a failed or truncated exchange, then the status word. */
  function SendCommandSpec(handle: Ptr, command: Option<seq<byte>>, transmit: Transmit)
    : (r: Result<seq<byte>, Error>)
    ensures command == None ==> r == Failure(ArgumentNull("command"))
    ensures command == Some([]) ==> r == Failure(ArgumentInvalid("command"))
    ensures command.Some? && command.value != [] && handle == Zero ==> r == Failure(InvalidOperation)
    ensures command.Some? && command.value != [] && handle != Zero && !Received(transmit(command.value)) ==>
      r == Failure(TransmissionFailed)
    ensures r.Success? ==> |r.value| <= RecvBufferLength - 2
  {
    match command
    case None => Failure(ArgumentNull("command"))
    case Some(bytes) =>
      if |bytes| == 0 then Failure(ArgumentInvalid("command"))
      else if handle == Zero then Failure(InvalidOperation)
      else
        match Receive(transmit(bytes), RecvBufferLength)
        case Failure(_) => Failure(TransmissionFailed)
        case Success(received) => DecodeResponse(received)
  }

  /** The status word is the trailer of the response: a payload followed by
      SW1 SW2 decodes to the payload exactly when SW is 90 00, and otherwise
      to an error carrying SW1 and SW2. */
  lemma DecodeFramedResponse(payload: seq<byte>, sw1: byte, sw2: byte)
    ensures DecodeResponse(payload + [sw1, sw2]) ==
      if sw1 == 0x90 && sw2 == 0x00 then Success(payload) else Failure(CommandFailed(sw1, sw2))
  {
    var received := payload + [sw1, sw2];
    assert received[..|received| - 2] == payload;
  }

  /** A command that reaches the card succeeds exactly when the exchange
      succeeded, returned two to 262 bytes and ended in 90 00; the payload
      is then the received bytes without their last two. A failed or
      oversized or too short exchange is a transmission failure, and any
      other status word is a command failure carrying SW1 and SW2. */
  lemma SendCommandSucceeds(handle: Ptr, command: seq<byte>, transmit: Transmit)
    requires command != [] && handle != Zero
    ensures var reply := transmit(command);
      SendCommandSpec(handle, Some(command), transmit).Success? <==>
      Received(reply)
      && reply.response[|reply.response| - 2] == 0x90 && reply.response[|reply.response| - 1] == 0x00
    ensures SendCommandSpec(handle, Some(command), transmit).Success? ==>
      SendCommandSpec(handle, Some(command), transmit).value ==
        transmit(command).response[..|transmit(command).response| - 2]
    ensures !Received(transmit(command)) ==>
      SendCommandSpec(handle, Some(command), transmit) == Failure(TransmissionFailed)
    ensures var reply := transmit(command);
      Received(reply) && !(reply.response[|reply.response| - 2] == 0x90 && reply.response[|reply.response| - 1] == 0x00) ==>
      SendCommandSpec(handle, Some(command), transmit) ==
        Failure(CommandFailed(reply.response[|reply.response| - 2], reply.response[|reply.response| - 1]))
  {
    var reply := transmit(command);
    if Received(reply) {
      var n := |reply.response|;
      DecodeFramedResponse(reply.response[..n - 2], reply.response[n - 2], reply.response[n - 1]);
      assert reply.response == reply.response[..n - 2] + [reply.response[n - 2], reply.response[n - 1]];
    }
  }

  /** The example exchange: eight data bytes followed by 90 00 return those
      eight bytes. */
  lemma EightBytesThenSuccess(handle: Ptr, command: seq<byte>, data: seq<byte>, transmit: Transmit)
    requires command != [] && handle != Zero && |data| == 8
    requires transmit(command) == TransmitReply(ScardSSuccess, data + [0x90, 0x00])
    ensures SendCommandSpec(handle, Some(command), transmit) == Success(data)
  {
    DecodeFramedResponse(data, 0x90, 0x00);
  }

  /** A card connected through a reader. The reader back-reference is kept
      as an `object`: the reader's module depends on this one, and the card
      never uses the reference beyond holding it. */
  class FelicaCard {
    const reader: object
    const protocol: bv32
    /** The native card handle; the reader zeroes it when it disconnects. */
    var handle: Ptr

    constructor Init(reader: object, handle: Ptr, protocol: bv32)
      requires protocol != ProtocolUndefined
      ensures this.reader == reader && this.handle == handle && this.protocol == protocol
    {
      this.reader := reader;
      this.handle := handle;
      this.protocol := protocol;
    }

    /** Creates a card, rejecting a missing reader and an undefined protocol. */
    static method Create(reader: object?, handle: Ptr, protocol: bv32)
      returns (r: Result<FelicaCard, Error>)
      ensures reader == null ==> r == Failure(ArgumentNull("reader"))
      ensures reader != null && protocol == ProtocolUndefined ==>
        r == Failure(ArgumentOutOfRange("protocol"))
      ensures r.Success? <==> reader != null && protocol != ProtocolUndefined
      ensures r.Success? ==>
        fresh(r.value) && r.value.reader == reader && r.value.handle == handle && r.value.protocol == protocol
    {
      if reader == null {
        return Failure(ArgumentNull("reader"));
      }
      if protocol == ProtocolUndefined {
        return Failure(ArgumentOutOfRange("protocol"));
      }
      var card := new FelicaCard.Init(reader, handle, protocol);
      return Success(card);
    }

    /** Sends a command to the card. The arguments and the handle are checked
        before anything is transmitted; the response lands in a fixed
        262-byte receive buffer, and the payload before the status word is
        returned when the status word is 90 00. */
    method SendCommand(command: array?<byte>, transmit: Transmit)
      returns (r: Result<seq<byte>, Error>)
      ensures r == SendCommandSpec(handle, if command == null then None else Some(command[..]), transmit)
    {
      if command == null {
        return Failure(ArgumentNull("command"));
      }
      if command.Length == 0 {
        return Failure(ArgumentInvalid("command"));
      }
      if handle == Zero {
        return Failure(InvalidOperation);
      }

      var receiveBuffer := new byte[RecvBufferLength];
      var receiveSize := receiveBuffer.Length;
      // The native transmit call sends the command, fills the buffer and
      // reports the length.
      var sent := command[..];
      var reply := transmit(sent);
      var result := reply.status;
      if result == ScardSSuccess {
        if |reply.response| <= receiveBuffer.Length {
          forall i | 0 <= i < |reply.response| {
            receiveBuffer[i] := reply.response[i];
          }
          receiveSize := |reply.response|;
        } else {
          result := ScardEInsufficientBuffer;
        }
      }

      assert command[..] == sent;
      if result != ScardSSuccess || receiveSize < 2 {
        assert !Received(reply);
        return Failure(TransmissionFailed);
      }
      assert receiveBuffer[..receiveSize] == reply.response;

      var sw1, sw2 := receiveBuffer[receiveSize - 2], receiveBuffer[receiveSize - 1];
      if sw1 == 0x90 && sw2 == 0x00 {
        assert receiveBuffer[..receiveSize - 2] == reply.response[..receiveSize - 2];
        return Success(receiveBuffer[..receiveSize - 2]);
      }
      return Failure(CommandFailed(sw1, sw2));
    }
  }
}
