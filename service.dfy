/** Services run over a card session. FelicaService issues the PC/SC
    pseudo-APDU GET DATA (FF CA P1 00 00, PC/SC Workgroup Specification
    Part 3, section 3.2.2.1.3) and optionally checks the answer's length. */
module Service {
  import opened Wrappers
  import opened Pcsc
  import opened Errors
  import opened Card

  /** The GET DATA command for data item `p1`. */
  function GetDataApdu(p1: byte): (apdu: seq<byte>)
    ensures |apdu| == 5 && apdu[2] == p1
  {
    [0xFF, 0xCA, p1, 0x00, 0x00]
  }

  /** What GET DATA yields over a card with handle `handle`. */
  function GetDataSpec(handle: Ptr, p1: byte, transmit: Transmit): (r: Result<seq<byte>, Error>)
    // The command is never missing or empty, so those errors cannot occur.
    ensures r != Failure(ArgumentNull("command")) && r != Failure(ArgumentInvalid("command"))
    ensures handle == Zero ==> r == Failure(InvalidOperation)
    ensures handle != Zero && !Received(transmit(GetDataApdu(p1))) ==> r == Failure(TransmissionFailed)
  {
    SendCommandSpec(handle, Some(GetDataApdu(p1)), transmit)
  }

  /** GET DATA transmits exactly FF CA P1 00 00: two cards that answer that
      command alike give the same result, whatever they answer otherwise. */
  lemma GetDataSendsApdu(handle: Ptr, p1: byte, t1: Transmit, t2: Transmit)
    requires t1([0xFF, 0xCA, p1, 0x00, 0x00]) == t2([0xFF, 0xCA, p1, 0x00, 0x00])
    ensures GetDataSpec(handle, p1, t1) == GetDataSpec(handle, p1, t2)
  {
  }

  /** A live card that answers GET DATA with `data` and 90 00 yields `data`. */
  lemma GetDataReturnsPayload(handle: Ptr, p1: byte, data: seq<byte>, transmit: Transmit)
    requires handle != Zero && |data| <= RecvBufferLength - 2
    requires transmit(GetDataApdu(p1)) == TransmitReply(ScardSSuccess, data + [0x90, 0x00])
    ensures GetDataSpec(handle, p1, transmit) == Success(data)
  {
    DecodeFramedResponse(data, 0x90, 0x00);
  }

  /** Keeps data of exactly `size` bytes, replaces any other length by an
      absent result, and passes errors through. */
  function SizeValidated(data: Result<seq<byte>, Error>, size: int): (r: Result<Option<seq<byte>>, Error>)
    ensures data.Failure? <==> r.Failure?
    ensures data.Failure? ==> r.error == data.error
    ensures r.Success? ==> (r.value.Some? <==> |data.value| == size)
    ensures r.Success? && r.value.Some? ==> r.value.value == data.value
  {
    match data
    case Failure(e) => Failure(e)
    case Success(d) => Success(if |d| == size then Some(d) else None)
  }

  /** A service bound to one card. */
  datatype FelicaService = FelicaService(card: FelicaCard) {

    /** Sends GET DATA for item `p1` and returns the card's answer unchanged. */
    method GetData(p1: byte, transmit: Transmit) returns (r: Result<seq<byte>, Error>)
      ensures r == GetDataSpec(card.handle, p1, transmit)
    {
      var command := new byte[5];
      command[0], command[1], command[2], command[3], command[4] := 0xFF, 0xCA, p1, 0x00, 0x00;
      assert command[..] == GetDataApdu(p1);
      r := card.SendCommand(command, transmit);
    }

    /** GET DATA whose answer is kept only when it has exactly `receiveSize`
        bytes; another length yields no data rather than an error. */
    method GetDataWithSizeValidate(p1: byte, receiveSize: int, transmit: Transmit)
      returns (r: Result<Option<seq<byte>>, Error>)
      ensures r == SizeValidated(GetDataSpec(card.handle, p1, transmit), receiveSize)
    {
      var result := GetData(p1, transmit);
      match result
      case Failure(e) =>
        return Failure(e);
      case Success(data) =>
        return Success(if |data| == receiveSize then Some(data) else None);
    }
  }

  /** Creates a service, rejecting a missing card. */
  function NewService(card: FelicaCard?): (r: Result<FelicaService, Error>)
    ensures r.Success? <==> card != null
    ensures r.Success? ==> r.value.card == card
    ensures r.Failure? ==> r.error == ArgumentNull("card")
  {
    if card == null then Failure(ArgumentNull("card")) else Success(FelicaService(card))
  }
}
