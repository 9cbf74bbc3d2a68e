/** The convenience facade: one resource manager, at most one reader chosen
    by name prefix, and card events re-raised only for FeliCa cards, with
    their IDm and PMm as text. */
module Easy {
  import opened Wrappers
  import opened Pcsc
  import opened Errors
  import opened Card
  import opened Service
  import opened BasicService
  import opened Polling
  import opened Reader
  import opened ResourceManager

  /** Events the facade raises. */
  datatype EasyEvent = EasyCardSet(card: FelicaCard, idm: string, pmm: string) | EasyReaderRemoved

  /** The card-type name that marks a FeliCa card. */
  const FelicaTypeName: string := "FeliCa"

  /** The index of the first name that starts with `prefix`, if any. */
  function FirstWithPrefix(names: seq<string>, prefix: string): (r: Option<nat>)
    ensures r.Some? ==> r.value < |names| && prefix <= names[r.value]
    ensures r.Some? ==> forall j :: 0 <= j < r.value ==> !(prefix <= names[j])
    ensures r.None? ==> forall j :: 0 <= j < |names| ==> !(prefix <= names[j])
  {
    if names == [] then None
    else if prefix <= names[0] then Some(0)
    else
      match FirstWithPrefix(names[1..], prefix)
      case None => None
      case Some(k) => Some(k + 1)
  }

  /** The empty prefix selects the first reader listed. */
  lemma EmptyPrefixSelectsFirst(names: seq<string>)
    requires names != []
    ensures FirstWithPrefix(names, "") == Some(0)
  {
  }

  /** Whether a card event is re-raised and with what text: only when
      someone listens and the card-type name is "FeliCa"; a failing query
      ends the handler with its error. */
  function ForwardedCardSet(listener: bool, card: FelicaCard, handle: Ptr, transmit: Transmit)
    : (r: Result<Option<EasyEvent>, Error>)
    ensures !listener ==> r == Success(None)
    ensures (r.Success? && r.value.Some?) <==>
      && listener && CardTypeNameSpec(handle, transmit) == Success(Some(FelicaTypeName))
      && HexText(SizeValidated(GetDataSpec(handle, P1Idm, transmit), FelicaIdmLength)).Success?
      && HexText(SizeValidated(GetDataSpec(handle, P1Pmm, transmit), FelicaPmmLength)).Success?
    ensures r.Success? && r.value.Some? ==>
      && r.value.value.EasyCardSet? && r.value.value.card == card
      && HexText(SizeValidated(GetDataSpec(handle, P1Idm, transmit), FelicaIdmLength)) == Success(r.value.value.idm)
      && HexText(SizeValidated(GetDataSpec(handle, P1Pmm, transmit), FelicaPmmLength)) == Success(r.value.value.pmm)
    ensures (listener && CardTypeNameSpec(handle, transmit).Success? &&
      CardTypeNameSpec(handle, transmit).value != Some(FelicaTypeName)) ==> r == Success(None)
    // A failing query ends the handler with that query's error, in the
    // order the queries are made.
    ensures listener && CardTypeNameSpec(handle, transmit).Failure? ==>
      r == Failure(CardTypeNameSpec(handle, transmit).error)
    ensures (listener && CardTypeNameSpec(handle, transmit) == Success(Some(FelicaTypeName))
      && HexText(SizeValidated(GetDataSpec(handle, P1Idm, transmit), FelicaIdmLength)).Failure?) ==>
      r == Failure(HexText(SizeValidated(GetDataSpec(handle, P1Idm, transmit), FelicaIdmLength)).error)
    ensures (listener && CardTypeNameSpec(handle, transmit) == Success(Some(FelicaTypeName))
      && HexText(SizeValidated(GetDataSpec(handle, P1Idm, transmit), FelicaIdmLength)).Success?
      && HexText(SizeValidated(GetDataSpec(handle, P1Pmm, transmit), FelicaPmmLength)).Failure?) ==>
      r == Failure(HexText(SizeValidated(GetDataSpec(handle, P1Pmm, transmit), FelicaPmmLength)).error)
  {
    if !listener then Success(None)
    else
      match CardTypeNameSpec(handle, transmit)
      case Failure(e) => Failure(e)
      case Success(name) =>
        if name != Some(FelicaTypeName) then Success(None)
        else
          match HexText(SizeValidated(GetDataSpec(handle, P1Idm, transmit), FelicaIdmLength))
          case Failure(e) => Failure(e)
          case Success(idm) =>
            match HexText(SizeValidated(GetDataSpec(handle, P1Pmm, transmit), FelicaPmmLength))
            case Failure(e) => Failure(e)
            case Success(pmm) => Success(Some(EasyCardSet(card, idm, pmm)))
  }

  class EasyFelicaReader {
    const manager: SmartCardResourceManager
    /** The reader in use, if connected. */
    var reader: FelicaReader?
    var disposed: bool
    var cardSetListener: bool
    var removedListener: bool
    /** The events raised so far, in order. */
    var events: seq<EasyEvent>

    /** The objects the facade's operations may change. */
    function Footprint(): set<object?>
      reads this, reader
    {
      {this, manager, reader} + if reader == null then {} else {reader.current}
    }

    /** The held reader is a valid reader of this facade's manager, and the
        manager outlives the facade. */
    ghost predicate Valid()
      reads this, manager, reader, if reader == null then {} else {reader.current}
    {
      && (reader != null ==> reader.Valid() && reader.manager == manager)
      && (!disposed ==> !manager.disposed)
    }

    constructor ()
      ensures Valid() && fresh(manager) && reader == null && !disposed && events == []
      ensures manager.context == Zero && !manager.disposed
    {
      manager := new SmartCardResourceManager();
      reader := null;
      disposed := false;
      cardSetListener := false;
      removedListener := false;
      events := [];
    }

    /** Connected: a reader is held (the manager is never null). */
    predicate IsConnected()
      reads this
    {
      reader != null
    }

    method SubscribeCardSet()
      modifies this`cardSetListener
      ensures cardSetListener
    {
      cardSetListener := true;
    }

    method SubscribeReaderRemoved()
      modifies this`removedListener
      ensures removedListener
    {
      removedListener := true;
    }

    /** The first listed reader whose name starts with `prefix`, or null;
        the manager must be connected. */
    method GetReader(prefix: string, list: ListReply) returns (r: Result<FelicaReader?, Error>)
      requires Valid()
      ensures disposed ==> r == Failure(ObjectDisposed)
      ensures !disposed && manager.context == Zero ==> r == Failure(InvalidOperation)
      ensures !disposed && manager.context != Zero ==>
        (r.Failure? <==> ListReaderNames(list).Failure?) && (r.Failure? ==> r.error == ListReadersFailed)
      ensures r.Success? ==>
        var names := ReaderNames(list.buffer);
        && (r.value == null <==> FirstWithPrefix(names, prefix).None?)
        && (r.value != null ==>
              && fresh(r.value) && r.value.readerName == names[FirstWithPrefix(names, prefix).value]
              && r.value.manager == manager && r.value.Valid()
              && r.value.State() == Initial() && r.value.events == [])
    {
      if disposed {
        return Failure(ObjectDisposed);
      }
      var connected := manager.IsConnected();
      if !connected.value {
        return Failure(InvalidOperation);
      }
      var readers := manager.GetReaders(list);
      if readers.Failure? {
        return Failure(readers.error);
      }
      var all := readers.value;
      ghost var names := ReaderNames(list.buffer);
      for i := 0 to all.Length
        invariant forall j :: 0 <= j < i ==> !(prefix <= names[j])
      {
        if prefix <= all[i].readerName {
          return Success(all[i]);
        }
      }
      return Success(null);
    }

    /** Connects to the first reader whose name starts with `prefix`:
        nothing happens when a reader is already held; otherwise the manager
        is connected if needed, a missing reader is an error, and the chosen
        reader is subscribed to and starts polling. */
    method ConnectTo(prefix: string, releaseStatus: int, establish: EstablishReply, list: ListReply)
      returns (r: Outcome<Error>)
      requires Valid()
      modifies this, manager
      ensures Valid() && events == old(events) && disposed == old(disposed)
      ensures old(disposed) ==> r == Fail(ObjectDisposed) && reader == old(reader)
      ensures !old(disposed) && old(reader) != null ==>
        r == Pass && reader == old(reader) && manager.context == old(manager.context)
      ensures r.Fail? ==> reader == old(reader)
      ensures !old(disposed) && old(reader) == null && old(manager.context) != Zero ==>
        manager.context == old(manager.context)
      ensures (!old(disposed) && old(reader) == null && old(manager.context) == Zero
        && establish.status != ScardSSuccess) ==> r == Fail(EstablishFailed)
      ensures (!old(disposed) && old(reader) == null && old(manager.context) == Zero
        && establish.status == ScardSSuccess) ==> manager.context == establish.context
      ensures !old(disposed) && old(reader) == null && manager.context == Zero ==> r.Fail?
      ensures !old(disposed) && old(reader) == null && manager.context != Zero ==>
        var names := ReaderNames(list.buffer);
        (r == Pass <==> ListReaderNames(list).Success? && FirstWithPrefix(names, prefix).Some?)
      ensures (!old(disposed) && old(reader) == null && manager.context != Zero
        && ListReaderNames(list).Failure?) ==> r == Fail(ListReadersFailed)
      ensures (!old(disposed) && old(reader) == null && manager.context != Zero
        && ListReaderNames(list).Success? && FirstWithPrefix(ReaderNames(list.buffer), prefix).None?) ==>
        r == Fail(ReaderNotFound)
      ensures !old(disposed) && old(reader) == null && r == Pass ==>
        var names := ReaderNames(list.buffer);
        && manager.context != Zero
        && reader != null && fresh(reader)
        && reader.readerName == names[FirstWithPrefix(names, prefix).value]
        && reader.cardSetListener && reader.removedListener
        && reader.IsConnected() && reader.State().slot == NoCard
    {
      if disposed {
        return Fail(ObjectDisposed);
      }
      if reader != null {
        return Pass;
      }
      var connected := manager.IsConnected();
      if !connected.value {
        r := manager.Connect(releaseStatus, establish);
        if r.Fail? {
          return;
        }
      }
      var found := GetReader(prefix, list);
      if found.Failure? {
        return Fail(found.error);
      }
      if found.value == null {
        return Fail(ReaderNotFound);
      }
      reader := found.value;
      reader.SubscribeCardSet();
      reader.SubscribeReaderRemoved();
      reader.StartPolling();
      return Pass;
    }

    /** Connects to the first reader listed: the empty prefix matches every
        name. */
    method Connect(releaseStatus: int, establish: EstablishReply, list: ListReply)
      returns (r: Outcome<Error>)
      requires Valid()
      modifies this, manager
      ensures Valid() && events == old(events) && disposed == old(disposed)
      ensures old(disposed) ==> r == Fail(ObjectDisposed) && reader == old(reader)
      ensures !old(disposed) && old(reader) != null ==>
        r == Pass && reader == old(reader) && manager.context == old(manager.context)
      ensures r.Fail? ==> reader == old(reader)
      ensures !old(disposed) && old(reader) == null && old(manager.context) != Zero ==>
        manager.context == old(manager.context)
      ensures (!old(disposed) && old(reader) == null && old(manager.context) == Zero
        && establish.status != ScardSSuccess) ==> r == Fail(EstablishFailed)
      ensures (!old(disposed) && old(reader) == null && old(manager.context) == Zero
        && establish.status == ScardSSuccess) ==> manager.context == establish.context
      ensures !old(disposed) && old(reader) == null && manager.context == Zero ==> r.Fail?
      ensures !old(disposed) && old(reader) == null && manager.context != Zero ==>
        (r == Pass <==> ListReaderNames(list).Success? && ReaderNames(list.buffer) != [])
      ensures (!old(disposed) && old(reader) == null && manager.context != Zero
        && ListReaderNames(list).Failure?) ==> r == Fail(ListReadersFailed)
      ensures (!old(disposed) && old(reader) == null && manager.context != Zero
        && ListReaderNames(list).Success? && ReaderNames(list.buffer) == []) ==>
        r == Fail(ReaderNotFound)
      ensures !old(disposed) && old(reader) == null && r == Pass ==>
        var names := ReaderNames(list.buffer);
        && names != [] && reader != null && fresh(reader) && reader.readerName == names[0]
        && reader.cardSetListener && reader.removedListener && reader.IsConnected()
    {
      if disposed {
        return Fail(ObjectDisposed);
      }
      var names := ReaderNames(list.buffer);
      if names != [] {
        EmptyPrefixSelectsFirst(names);
      }
      r := ConnectTo("", releaseStatus, establish, list);
    }

    /** Stops and disposes the held reader and forgets it; nothing happens
        when no reader is held. */
    method Disconnect() returns (r: Outcome<Error>)
      requires Valid()
      modifies this`reader, Footprint() - {this, manager}
      ensures Valid() && events == old(events)
      ensures old(disposed) ==> r == Fail(ObjectDisposed) && reader == old(reader)
      ensures !old(disposed) ==> r == Pass && reader == null
      ensures !old(disposed) && old(reader) != null ==>
        old(reader).disposed && old(reader).poller == Idle && !old(reader).IsConnected()
        && old(reader).events == old(reader.events)
        && (old(reader.current) != null && !old(reader.disposed) ==> old(reader.current).handle == Zero)
    {
      if disposed {
        return Fail(ObjectDisposed);
      }
      if reader != null {
        reader.StopPolling();
        reader.Dispose();
        reader := null;
      }
      return Pass;
    }

    /** The handler for the reader's CardSet event: re-raises it for FeliCa
        cards, with IDm and PMm as text. */
    method OnReaderCardSet(card: FelicaCard, transmit: Transmit)
      returns (r: Outcome<Error>)
      modifies this`events
      ensures disposed ==> r == Fail(ObjectDisposed) && events == old(events)
      ensures !disposed ==>
        var forwarded := ForwardedCardSet(cardSetListener, card, card.handle, transmit);
        (r.Fail? <==> forwarded.Failure?)
        && (r.Fail? ==> r.error == forwarded.error && events == old(events))
        && (r == Pass ==> events == old(events) + if forwarded.value.Some? then [forwarded.value.value] else [])
    {
      if disposed {
        return Fail(ObjectDisposed);
      }
      if cardSetListener {
        var basic := FelicaBasicService(FelicaService(card));
        var cardTypeName := basic.GetCardTypeNameAsString(transmit);
        if cardTypeName.Failure? {
          return Fail(cardTypeName.error);
        }
        if cardTypeName.value == Some(FelicaTypeName) {
          var idm := basic.GetIdmAsString(transmit);
          if idm.Failure? {
            return Fail(idm.error);
          }
          var pmm := basic.GetPmmAsString(transmit);
          if pmm.Failure? {
            return Fail(pmm.error);
          }
          events := events + [EasyCardSet(card, idm.value, pmm.value)];
        }
      }
      return Pass;
    }

    /** The handler for the reader's ReaderRemoved event: forgets the reader,
        disconnects the manager, then re-raises the event. */
    method OnReaderRemoved(releaseStatus: int) returns (r: Outcome<Error>)
      requires Valid()
      modifies this`reader, this`events, manager`context
      ensures Valid()
      ensures old(reader) == null ==> r == Pass && manager.context == old(manager.context)
      ensures old(reader) != null && !manager.disposed ==>
        (r == Pass <==> old(manager.context) == Zero || releaseStatus == ScardSSuccess)
      ensures r == Pass ==>
        reader == null && (old(reader) != null ==> manager.context == Zero)
        && events == old(events) + if removedListener then [EasyReaderRemoved] else []
      ensures r.Fail? ==> reader == old(reader) && events == old(events)
    {
      if reader != null {
        r := manager.Disconnect(releaseStatus);
        if r.Fail? {
          return;
        }
        reader := null;
      }
      if removedListener {
        events := events + [EasyReaderRemoved];
      }
      return Pass;
    }

    /** Disconnects from the reader and disposes the manager, once; a
        failing context release leaves the facade undisposed. */
    method Dispose(releaseStatus: int) returns (r: Outcome<Error>)
      requires Valid()
      modifies this, manager, Footprint() - {this, manager}
      ensures Valid() && events == old(events)
      ensures old(disposed) ==>
        r == Pass && disposed && reader == old(reader)
        && manager.context == old(manager.context) && manager.disposed == old(manager.disposed)
      ensures !old(disposed) ==> reader == null
      ensures !old(disposed) && old(reader) != null ==>
        old(reader).disposed && old(reader).poller == Idle && !old(reader).IsConnected()
      ensures !old(disposed) && (old(manager.context) == Zero || releaseStatus == ScardSSuccess) ==>
        r == Pass && disposed && manager.disposed && manager.context == Zero
      ensures !old(disposed) && old(manager.context) != Zero && releaseStatus != ScardSSuccess ==>
        r == Fail(ReleaseFailed) && !disposed
    {
      if disposed {
        return Pass;
      }
      var d := Disconnect();
      r := manager.Dispose(releaseStatus);
      if r.Fail? {
        return;
      }
      disposed := true;
    }
  }

  /** The facade's main use: a new facade whose native calls all succeed
      connects to the first reader listed, subscribes to it and polls it. */
  method ConnectNewFacade(names: seq<string>, context: nat) returns (facade: EasyFelicaReader, r: Outcome<Error>)
    requires names != [] && forall i :: 0 <= i < |names| ==> WellFormedName(names[i])
    ensures r == Pass && facade.IsConnected() && facade.manager.context == NonZero(context)
    ensures facade.reader != null && facade.reader.readerName == names[0]
      && facade.reader.cardSetListener && facade.reader.removedListener && facade.reader.IsConnected()
  {
    facade := new EasyFelicaReader();
    var list := ListReply(ScardSSuccess, ScardSSuccess, MultiString(names));
    ReaderNamesRoundTrip(names);
    r := facade.Connect(ScardSSuccess, EstablishReply(ScardSSuccess, NonZero(context)), list);
  }
}
