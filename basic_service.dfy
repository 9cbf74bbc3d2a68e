/** The basic FeliCa queries: IDm (card identifier), PMm (manufacturing
    parameters) and the card-type name, each one GET DATA command. */
module BasicService {
  import opened Wrappers
  import opened Pcsc
  import opened Errors
  import opened Card
  import opened Service
  import opened Text

  const FelicaIdmLength: nat := 8
  const FelicaPmmLength: nat := 8

  // GET DATA parameter P1 for each data item.
  const P1Idm: byte := 0x00
  const P1Pmm: byte := 0x01
  const P1CardTypeName: byte := 0xF4

  /** The card-type name as text: all bytes but the last (a terminator),
      decoded as ASCII; no text for an empty answer. */
  function CardTypeNameText(data: seq<byte>): (r: Option<string>)
    ensures r.None? <==> data == []
    ensures r.Some? ==> |r.value| == |data| - 1
    ensures r.Some? ==> forall i :: 0 <= i < |data| - 1 ==> r.value[i] == AsciiChar(data[i])
  {
    if |data| > 0 then Some(AsciiString(data[..|data| - 1])) else None
  }

  /** What GetCardTypeNameAsString yields over a card with `handle`. */
  function CardTypeNameSpec(handle: Ptr, transmit: Transmit): (r: Result<Option<string>, Error>)
    ensures GetDataSpec(handle, P1CardTypeName, transmit).Failure? ==>
      r == Failure(GetDataSpec(handle, P1CardTypeName, transmit).error)
    ensures GetDataSpec(handle, P1CardTypeName, transmit).Success? ==>
      r == Success(CardTypeNameText(GetDataSpec(handle, P1CardTypeName, transmit).value))
  {
    match GetDataSpec(handle, P1CardTypeName, transmit)
    case Failure(e) => Failure(e)
    case Success(data) => Success(CardTypeNameText(data))
  }

  /** The string form of an 8-byte-validated answer: hex pairs joined by
      '-'; an absent answer is a null argument to the formatter. */
  function HexText(data: Result<Option<seq<byte>>, Error>): (r: Result<string, Error>)
    ensures data.Failure? ==> r == Failure(data.error)
    ensures data == Success(None) ==> r == Failure(ArgumentNull("value"))
    ensures data.Success? && data.value.Some? ==>
      r.Success? && r.value == HexString(data.value.value) && ParseHexString(r.value) == data.value.value
  {
    match data
    case Failure(e) => Failure(e)
    case Success(None) => Failure(ArgumentNull("value"))
    case Success(Some(bytes)) => HexStringRoundTrip(bytes); Success(HexString(bytes))
  }

  /** An 8-byte identifier renders as eight hex pairs and seven hyphens. */
  lemma EightBytesHexForm(bytes: seq<byte>)
    requires |bytes| == 8
    ensures |HexString(bytes)| == 23
    ensures forall k :: 0 <= k < 23 ==> (HexString(bytes)[k] == '-' <==> k % 3 == 2)
  {
    forall k | 0 <= k < 23
      ensures HexString(bytes)[k] == '-' <==> k % 3 == 2
    {
      HexSeparators(bytes, k);
    }
  }

  /** A live card answering GET DATA P1=00 with an 8-byte IDm and 90 00
      yields that IDm as text; an answer of any other length is an
      argument-null error of the formatter. */
  lemma IdmAsText(handle: Ptr, idm: seq<byte>, transmit: Transmit)
    requires handle != Zero && |idm| <= RecvBufferLength - 2
    requires transmit(GetDataApdu(P1Idm)) == TransmitReply(ScardSSuccess, idm + [0x90, 0x00])
    ensures |idm| == FelicaIdmLength ==>
      HexText(SizeValidated(GetDataSpec(handle, P1Idm, transmit), FelicaIdmLength)) == Success(HexString(idm))
    ensures |idm| != FelicaIdmLength ==>
      HexText(SizeValidated(GetDataSpec(handle, P1Idm, transmit), FelicaIdmLength)) == Failure(ArgumentNull("value"))
  {
    GetDataReturnsPayload(handle, P1Idm, idm, transmit);
  }

  /** The basic service over a card (FelicaBasicService extends
      FelicaService without adding state). */
  datatype FelicaBasicService = FelicaBasicService(service: FelicaService) {

    /** GET DATA P1=00, kept only if it is the 8-byte IDm. */
    method GetIdm(transmit: Transmit) returns (r: Result<Option<seq<byte>>, Error>)
      ensures r == SizeValidated(GetDataSpec(service.card.handle, P1Idm, transmit), FelicaIdmLength)
      ensures r.Success? && r.value.Some? ==> |r.value.value| == FelicaIdmLength
    {
      r := service.GetDataWithSizeValidate(P1Idm, FelicaIdmLength, transmit);
    }

    /** The IDm as hyphen-separated hex. */
    method GetIdmAsString(transmit: Transmit) returns (r: Result<string, Error>)
      ensures r == HexText(SizeValidated(GetDataSpec(service.card.handle, P1Idm, transmit), FelicaIdmLength))
      ensures r.Success? ==> |r.value| == 23
    {
      var idm := GetIdm(transmit);
      r := HexText(idm);
    }

    /** GET DATA P1=01, kept only if it is the 8-byte PMm. */
    method GetPmm(transmit: Transmit) returns (r: Result<Option<seq<byte>>, Error>)
      ensures r == SizeValidated(GetDataSpec(service.card.handle, P1Pmm, transmit), FelicaPmmLength)
      ensures r.Success? && r.value.Some? ==> |r.value.value| == FelicaPmmLength
    {
      r := service.GetDataWithSizeValidate(P1Pmm, FelicaPmmLength, transmit);
    }

    /** The PMm as hyphen-separated hex. */
    method GetPmmAsString(transmit: Transmit) returns (r: Result<string, Error>)
      ensures r == HexText(SizeValidated(GetDataSpec(service.card.handle, P1Pmm, transmit), FelicaPmmLength))
      ensures r.Success? ==> |r.value| == 23
    {
      var pmm := GetPmm(transmit);
      r := HexText(pmm);
    }

    /** GET DATA P1=F4, with no length check. */
    method GetCardTypeName(transmit: Transmit) returns (r: Result<seq<byte>, Error>)
      ensures r == GetDataSpec(service.card.handle, P1CardTypeName, transmit)
    {
      r := service.GetData(P1CardTypeName, transmit);
    }

    /** The card-type name decoded as text. */
    method GetCardTypeNameAsString(transmit: Transmit) returns (r: Result<Option<string>, Error>)
      ensures r == CardTypeNameSpec(service.card.handle, transmit)
    {
      var cardTypeName := GetCardTypeName(transmit);
      match cardTypeName
      case Failure(e) =>
        return Failure(e);
      case Success(data) =>
        return Success(CardTypeNameText(data));
    }
  }

  /** Creates a basic service, rejecting a missing card. */
  function NewBasicService(card: FelicaCard?): (r: Result<FelicaBasicService, Error>)
    ensures r.Success? <==> card != null
    ensures r.Success? ==> r.value.service.card == card
  {
    match NewService(card)
    case Failure(e) => Failure(e)
    case Success(s) => Success(FelicaBasicService(s))
  }
}
