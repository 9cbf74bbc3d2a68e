/** The exceptions the library raises, as one error datatype: the .NET
    argument and state exceptions and the library's own FelicaException,
    whose message is represented by the situation it reports. */
module Errors {
  import opened Pcsc

  datatype Error =
    | ArgumentNull(param: string)        // ArgumentNullException
    | ArgumentInvalid(param: string)     // ArgumentException
    | ArgumentOutOfRange(param: string)  // ArgumentOutOfRangeException
    | InvalidOperation                   // InvalidOperationException
    | ObjectDisposed                     // ObjectDisposedException
    // FelicaException, by the situation its message describes:
    | TransmissionFailed                 // the command could not be exchanged
    | CommandFailed(sw1: byte, sw2: byte) // the card answered with another status word
    | EstablishFailed                    // no resource-manager context
    | ReleaseFailed                      // the context could not be released
    | ListReadersFailed                  // the reader list could not be read
    | ReaderNotFound                     // no reader matches the requested name
}
