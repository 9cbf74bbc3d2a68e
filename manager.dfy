/** The smart-card resource manager: it owns the resource-manager context
    (held or zero), can be disposed, and enumerates the readers it sees. */
module ResourceManager {
  import opened Wrappers
  import opened Pcsc
  import opened Errors
  import opened Polling
  import opened Reader

  const Nul: char := 0 as char

  // ---------------------------------------------------------------------
  // The reader list: a buffer of names separated by NUL characters.

  function Flush(piece: string): (names: seq<string>)
    ensures piece == [] ==> names == []
    ensures piece != [] ==> names == [piece]
  {
    if piece == [] then [] else [piece]
  }

  /** Splits `buffer` on NUL, starting inside a name whose first characters
      are `piece`, and drops the empty pieces. */
  function SplitNames(buffer: string, piece: string): seq<string>
    decreases |buffer|
  {
    if buffer == [] then Flush(piece)
    else if buffer[0] == Nul then Flush(piece) + SplitNames(buffer[1..], [])
    else SplitNames(buffer[1..], piece + [buffer[0]])
  }

  /** The reader names in a multi-string buffer, in buffer order. */
  function ReaderNames(buffer: string): seq<string> {
    SplitNames(buffer, [])
  }

  predicate WellFormedName(name: string) {
    name != [] && Nul !in name
  }

  /** The buffer's characters with every NUL removed. */
  function WithoutNul(s: string): (r: string)
    ensures Nul !in r
  {
    if s == [] then [] else (if s[0] == Nul then [] else [s[0]]) + WithoutNul(s[1..])
  }

  function Concat(names: seq<string>): string {
    if names == [] then [] else names[0] + Concat(names[1..])
  }

  lemma {:induction false} ConcatAppend(a: seq<string>, b: seq<string>)
    ensures Concat(a + b) == Concat(a) + Concat(b)
    decreases |a|
  {
    if a == [] {
      assert a + b == b;
    } else {
      assert (a + b)[0] == a[0] && (a + b)[1..] == a[1..] + b;
      ConcatAppend(a[1..], b);
    }
  }

  /** Every parsed name is non-empty and free of NUL. */
  lemma {:induction false} SplitNamesWellFormed(buffer: string, piece: string)
    requires Nul !in piece
    ensures forall name :: name in SplitNames(buffer, piece) ==> WellFormedName(name)
    decreases |buffer|
  {
    if buffer != [] {
      if buffer[0] == Nul {
        SplitNamesWellFormed(buffer[1..], []);
      } else {
        SplitNamesWellFormed(buffer[1..], piece + [buffer[0]]);
      }
    }
  }

  /** The names, put back together, are the buffer's characters without the
      separators, in the same order: nothing is lost or reordered. */
  lemma {:induction false} SplitNamesKeepOrder(buffer: string, piece: string)
    ensures Concat(SplitNames(buffer, piece)) == piece + WithoutNul(buffer)
    decreases |buffer|
  {
    if buffer == [] {
      assert Concat(Flush(piece)) == piece;
    } else if buffer[0] == Nul {
      SplitNamesKeepOrder(buffer[1..], []);
      ConcatAppend(Flush(piece), SplitNames(buffer[1..], []));
      assert Concat(Flush(piece)) == piece;
    } else {
      SplitNamesKeepOrder(buffer[1..], piece + [buffer[0]]);
    }
  }

  lemma ReaderNamesWellFormed(buffer: string)
    ensures forall name :: name in ReaderNames(buffer) ==> WellFormedName(name)
    ensures Concat(ReaderNames(buffer)) == WithoutNul(buffer)
  {
    SplitNamesWellFormed(buffer, []);
    SplitNamesKeepOrder(buffer, []);
  }

  /** The buffer the subsystem hands back for a list of names: each name
      terminated by NUL, and one more NUL at the end. */
  function MultiString(names: seq<string>): string {
    Terminated(names) + [Nul]
  }

  function Terminated(names: seq<string>): string {
    if names == [] then [] else names[0] + [Nul] + Terminated(names[1..])
  }

  lemma {:induction false} SplitOneName(name: string, rest: string, piece: string)
    requires Nul !in name && piece + name != []
    ensures SplitNames(name + [Nul] + rest, piece) == [piece + name] + SplitNames(rest, [])
    decreases |name|
  {
    var buffer := name + [Nul] + rest;
    if name == [] {
      assert buffer[0] == Nul && buffer[1..] == rest;
      assert piece + name == piece;
      assert Flush(piece) == [piece];
    } else {
      assert buffer[0] == name[0] && buffer[1..] == name[1..] + [Nul] + rest;
      SplitOneName(name[1..], rest, piece + [name[0]]);
      assert piece + [name[0]] + name[1..] == piece + name;
    }
  }

  lemma {:induction false} SplitTerminated(names: seq<string>, tail: string)
    requires forall i :: 0 <= i < |names| ==> WellFormedName(names[i])
    ensures SplitNames(Terminated(names) + tail, []) == names + SplitNames(tail, [])
    decreases |names|
  {
    if names == [] {
      assert Terminated(names) + tail == tail;
    } else {
      assert Terminated(names) + tail == names[0] + [Nul] + (Terminated(names[1..]) + tail);
      SplitOneName(names[0], Terminated(names[1..]) + tail, []);
      assert [] + names[0] == names[0];
      SplitTerminated(names[1..], tail);
      assert names == [names[0]] + names[1..];
    }
  }

  /** Parsing the multi-string of well-formed names gives the names back. */
  lemma ReaderNamesRoundTrip(names: seq<string>)
    requires forall i :: 0 <= i < |names| ==> WellFormedName(names[i])
    ensures ReaderNames(MultiString(names)) == names
  {
    SplitTerminated(names, [Nul]);
    assert SplitNames([Nul], []) == [];
  }

  // ---------------------------------------------------------------------
  // Native replies

  /** What SCardEstablishContext reports: its status and the context. */
  datatype EstablishReply = EstablishReply(status: int, context: Ptr)

  /** What the two SCardListReaders calls report: the status of the call
      that sizes the buffer, the status of the call that fills it, and the
      buffer's contents. */
  datatype ListReply = ListReply(sizeStatus: int, listStatus: int, buffer: string)

  /** The reader names a listing yields, or the listing error. */
  function ListReaderNames(reply: ListReply): (r: Result<seq<string>, Error>)
    ensures r.Failure? <==> reply.sizeStatus != ScardSSuccess || reply.listStatus != ScardSSuccess
    ensures r.Failure? ==> r.error == ListReadersFailed
    ensures r.Success? ==> forall name :: name in r.value ==> WellFormedName(name)
  {
    if reply.sizeStatus != ScardSSuccess || reply.listStatus != ScardSSuccess then Failure(ListReadersFailed)
    else
      ReaderNamesWellFormed(reply.buffer);
      Success(ReaderNames(reply.buffer))
  }

  class SmartCardResourceManager {
    /** The resource-manager context; Zero when none is held. */
    var context: Ptr
    var disposed: bool

    constructor ()
      ensures context == Zero && !disposed
    {
      context := Zero;
      disposed := false;
    }

    /** Whether a context is held; an error once disposed. */
    function IsConnected(): (r: Result<bool, Error>)
      reads this
      ensures disposed <==> r == Failure(ObjectDisposed)
      ensures r.Success? ==> (r.value <==> context != Zero)
    {
      if disposed then Failure(ObjectDisposed) else Success(context != Zero)
    }

    /** Obtains a context unless one is held. */
    method EstablishContext(reply: EstablishReply) returns (r: Outcome<Error>)
      modifies this`context
      ensures disposed ==> r == Fail(ObjectDisposed) && context == old(context)
      ensures !disposed && old(context) != Zero ==> r == Pass && context == old(context)
      ensures !disposed && old(context) == Zero && reply.status != ScardSSuccess ==>
        r == Fail(EstablishFailed) && context == Zero
      ensures !disposed && old(context) == Zero && reply.status == ScardSSuccess ==>
        r == Pass && context == reply.context
    {
      if disposed {
        return Fail(ObjectDisposed);
      }
      if context == Zero {
        if reply.status != ScardSSuccess {
          return Fail(EstablishFailed);
        }
        context := reply.context;
      }
      return Pass;
    }

    /** Releases the context if one is held; `status` is what the native
        release reports. */
    method ReleaseContext(status: int) returns (r: Outcome<Error>)
      modifies this`context
      ensures disposed ==> r == Fail(ObjectDisposed) && context == old(context)
      ensures !disposed && old(context) == Zero ==> r == Pass && context == Zero
      ensures !disposed && old(context) != Zero && status != ScardSSuccess ==>
        r == Fail(ReleaseFailed) && context == old(context)
      ensures !disposed && old(context) != Zero && status == ScardSSuccess ==>
        r == Pass && context == Zero
    {
      if disposed {
        return Fail(ObjectDisposed);
      }
      if context != Zero {
        if status != ScardSSuccess {
          return Fail(ReleaseFailed);
        }
        context := Zero;
      }
      return Pass;
    }

    /** Releases any held context, then establishes a new one: on success
        the manager holds the freshly established context, whatever it held
        before. */
    method Connect(releaseStatus: int, reply: EstablishReply) returns (r: Outcome<Error>)
      modifies this`context
      ensures disposed ==> r == Fail(ObjectDisposed) && context == old(context)
      ensures !disposed && old(context) != Zero && releaseStatus != ScardSSuccess ==>
        r == Fail(ReleaseFailed) && context == old(context)
      ensures !disposed && (old(context) == Zero || releaseStatus == ScardSSuccess) ==>
        (r == Pass <==> reply.status == ScardSSuccess)
        && (r.Fail? ==> r.error == EstablishFailed && context == Zero)
        && (r == Pass ==> context == reply.context)
      ensures r == Pass && reply.context != Zero ==> IsConnected() == Success(true)
    {
      if disposed {
        return Fail(ObjectDisposed);
      }
      r := ReleaseContext(releaseStatus);
      if r.Fail? {
        return;
      }
      r := EstablishContext(reply);
    }

    /** Releases the context if one is held. */
    method Disconnect(releaseStatus: int) returns (r: Outcome<Error>)
      modifies this`context
      ensures disposed ==> r == Fail(ObjectDisposed) && context == old(context)
      ensures !disposed && old(context) == Zero ==> r == Pass && context == Zero
      ensures !disposed && old(context) != Zero ==>
        (r == Pass <==> releaseStatus == ScardSSuccess)
        && (r == Pass ==> context == Zero)
        && (r.Fail? ==> r == Fail(ReleaseFailed) && context == old(context))
    {
      r := ReleaseContext(releaseStatus);
    }

    /** The reader names the subsystem lists. */
    method GetReadersAsString(reply: ListReply) returns (r: Result<seq<string>, Error>)
      ensures disposed ==> r == Failure(ObjectDisposed)
      ensures !disposed ==> r == ListReaderNames(reply)
    {
      if disposed {
        return Failure(ObjectDisposed);
      }
      if reply.sizeStatus != ScardSSuccess {
        return Failure(ListReadersFailed);
      }
      if reply.listStatus != ScardSSuccess {
        return Failure(ListReadersFailed);
      }
      return Success(ReaderNames(reply.buffer));
    }

    /** One new reader per listed name, in list order, each bound to this
        manager. */
    method GetReaders(reply: ListReply) returns (r: Result<array<FelicaReader?>, Error>)
      ensures disposed ==> r == Failure(ObjectDisposed)
      ensures !disposed ==> (r.Failure? <==> ListReaderNames(reply).Failure?)
      ensures r.Failure? && !disposed ==> r.error == ListReaderNames(reply).error
      ensures r.Success? ==>
        var names := ReaderNames(reply.buffer);
        && ListReaderNames(reply).Success?
        && fresh(r.value) && r.value.Length == |names|
        && forall i :: 0 <= i < r.value.Length ==>
             && r.value[i] != null && fresh(r.value[i])
             && r.value[i].readerName == names[i] && r.value[i].manager == this
             && r.value[i].Valid() && r.value[i].State() == Initial() && r.value[i].events == []
    {
      var listed := GetReadersAsString(reply);
      if listed.Failure? {
        return Failure(listed.error);
      }
      var names := listed.value;
      var readers := new FelicaReader?[|names|];
      for i := 0 to |names|
        invariant forall j :: 0 <= j < i ==>
          && readers[j] != null && fresh(readers[j])
          && readers[j].readerName == names[j] && readers[j].manager == this
          && readers[j].Valid() && readers[j].State() == Initial() && readers[j].events == []
      {
        readers[i] := new FelicaReader(this, names[i]);
      }
      return Success(readers);
    }

    /** Releases the context and marks the manager disposed; a second call
        does nothing. A failing release leaves it undisposed. */
    method Dispose(releaseStatus: int) returns (r: Outcome<Error>)
      modifies this
      ensures old(disposed) ==> r == Pass && disposed && context == old(context)
      ensures !old(disposed) && (old(context) == Zero || releaseStatus == ScardSSuccess) ==>
        r == Pass && disposed && context == Zero
      ensures !old(disposed) && old(context) != Zero && releaseStatus != ScardSSuccess ==>
        r == Fail(ReleaseFailed) && !disposed && context == old(context)
    {
      if disposed {
        return Pass;
      }
      r := Disconnect(releaseStatus);
      if r.Fail? {
        return;
      }
      disposed := true;
    }
  }
}
